# MQTT sensor reader — Dafny model

A Dafny model of the logic inside `Inicio.py`, a Streamlit page that reads one
message from an MQTT topic and shows it. Three pieces are modelled:

- **Message capture** (`capture.dfy`, module `Capture`): the `on_message`
  callback of `get_mqtt_message` and the record `{received, payload}` it
  writes. The handler stores the parsed JSON value, or the raw text when the
  body is not JSON. A body that is not valid text leaves the record unchanged.
- **Fetch outcome** (`fetch.dfy`, module `Fetch`): the six client calls
  (`mqtt.Client`, `connect`, `subscribe`, `loop_start`, `loop_stop`,
  `disconnect`). Each one either returns or raises with a message. The result
  is `{"error": str(e)}` for the first call that raises. Otherwise it is the
  captured payload, which is `None` when the wait ran out.
- **Display** (`display.dfy` and `grid.dfy`, modules `Display` and `Grid`):
  the page picks one of four views for the stored value: no data, error
  banner, metric grid, or text block. The metric grid is built by a nested
  row/column loop with a running index.

`values.dfy` (module `Values`) holds the shared vocabulary: a JSON-like
`Value`, message bytes, Python truthiness and dict lookup.

Abstract inputs:

- Text decoding (`bytes.decode()`) and JSON parsing (`json.loads`) are
  parameters: a `Decoder` and a `Parser` that answer `None` where Python
  raises.
- The paho client is a map from each call to the message it raises with.
- The receive thread and the five-second polling wait are the list of message
  bodies the handler ran on before `loop_stop`. A list with no decodable body
  is a wait that reached its deadline.

Behaviour of the code worth knowing:

- A timeout returns `None` and shows the "no data" view. It is not reported
  as an error.
- Every handler call overwrites the payload. The last decodable message wins,
  not the first (`Capture.SecondMessageReplacesFirst`).
- The error path returns without `loop_stop` or `disconnect`. A failure after
  `connect` leaves the connection open (`Fetch.DisconnectOnlyWithoutFailure`).
- A body that is not valid text is not caught by the handler. The fallback
  decode raises too, so nothing is recorded.
- A genuine sensor object with key `"error"` is shown as a connection failure
  (`Display.SensorErrorKeyLooksLikeFailure`).

## Model

| member | source | states |
|---|---|---|
| Values.Lookup | Inicio.py:269-270 | `d['error']` is defined exactly when the dict has key `'error'`, and the value it gives is stored under that key |
| Values.ErrorObject | Inicio.py:155-156 | the error result is a non-empty (truthy) dict whose `'error'` entry is the exception text |
| Capture.OnMessage | Inicio.py:128-136 | an undecodable body leaves both fields unchanged; a decodable body sets `received` and stores the parsed value or the raw text |
| Capture.HandlerOverwrites | Inicio.py:128-136 | for a decodable body the handler's result does not depend on the earlier record: last write, not first |
| Capture.HandlerIdempotent | Inicio.py:128-136 | handling the same body twice leaves the same record as handling it once |
| Capture.ReceivedStaysSet | Inicio.py:131-136 | no later message clears `received` once it is set |
| Capture.UndecodableLeaveCapture | Inicio.py:133-136 | a run of bodies none of which decode leaves the record exactly as it was |
| Capture.LastDecodableWins | Inicio.py:128-136 | after any sequence of messages the record holds the reading of the last decodable one, whatever came before |
| Capture.ReceivedIffSomeDecodable | Inicio.py:126-136 | `received` ends true exactly when it started true or some delivered body decoded |
| Capture.SecondMessageReplacesFirst | Inicio.py:128-136 | of two decodable messages, the record keeps the second: there is no first-message-only guarantee |
| Fetch.FirstRaise | Inicio.py:138-156 | the error reported is that of the earliest raising call, and there is none exactly when no call raises |
| Fetch.Performed | Inicio.py:139-151 | the calls made are a prefix of the program order, all but the last returned, and a cut-short prefix ends in a raising call |
| Fetch.FirstRaiseIsLastPerformed | Inicio.py:138-156 | a call raised exactly when the last call made raised, and the message reported is that call's message |
| Fetch.ClientFailureIsErrorObject | Inicio.py:138-156 | if any client call raises, the fetch returns `{"error": msg}` for the first raising call |
| Fetch.DeliveredMessageIsResult | Inicio.py:143-153 | when no call raises, the fetch returns the reading of the last decodable delivered message |
| Fetch.TimeoutIsNotAnError | Inicio.py:145-153 | when no call raises and no decodable message arrives, the fetch returns `None`, not an error dict |
| Fetch.DisconnectOnlyWithoutFailure | Inicio.py:138-156 | `disconnect` runs exactly when the five earlier calls all return; a connection left open happens exactly when a call between `connect` and `disconnect` raises |
| Grid.Columns | Inicio.py:280 | the column count is between 1 and 4, equals `n` when `0 < n < 4`, 4 when `n >= 4`, and 1 for an empty dict |
| Grid.Rows | Inicio.py:281 | the row count is the ceiling of `n / num_cols`: `rows * num_cols >= n`, `(rows - 1) * num_cols < n` for `n > 0`, and 0 rows for `n = 0` |
| Grid.PlaceMetrics | Inicio.py:284-293 | the loop ends with `idx == n`, builds `rows` rows of `num_cols` cells each, and cell `(r, c)` holds item `r * num_cols + c` when that index exists, else nothing |
| Grid.ShownRow | Inicio.py:286-293 | row `r` shows the items from index `r * k` up to the next row's start or the end of the dict, in order |
| Grid.ShownAllIsItems | Inicio.py:284-293 | reading the grid row by row gives back exactly the dict's items in key order, so each item is shown once |
| Grid.ItemPosition | Inicio.py:284-293 | item `i` is shown in row `i / num_cols`, column `i % num_cols` |
| Grid.CellIndexUnique | Inicio.py:288-293 | in a layout, the cell `(r, c)` that carries running index `i` is `(i / num_cols, i % num_cols)` and no other, and it holds item `i` when that item exists, so no item is placed twice |
| Grid.RowSizes | Inicio.py:286-293 | every row shows between 1 and `num_cols` metrics, and every row except the last is full |
| Grid.PlaceMetricsIsLayout | Inicio.py:279-293 | the loop's output is the row-major layout of the items in `min(n, 4)` columns and shows every item once, in order |
| Display.Dispatch | Inicio.py:262-305 | falsy data shows no data; a truthy dict with key `'error'` shows the banner with `data['error']`; any other non-empty dict shows its items as metrics; any other truthy value shows the text block |
| Display.InitialViewIsNoData | Inicio.py:117-118 | the initial session value `None` shows the "no data" view |
| Display.ClientFailureShowsBanner | Inicio.py:262-270 | a raising client call always reaches the user as the error banner with `str(e)` |
| Display.TimeoutShowsNoData | Inicio.py:145-153 | a wait that captures nothing shows the "no data" view, never the error banner |
| Display.FalsyReadingShowsNoData | Inicio.py:262 | a message that parses to `null`, `{}`, `0`, `""`, `false` or `[]` is shown exactly like a timeout |
| Display.StructuredReadingShowsGrid | Inicio.py:275-293 | a last message that parses to a non-empty object without key `"error"` is shown as a grid of its items |
| Display.PlainTextShowsTextBlock | Inicio.py:298-301 | a non-empty last message that is not JSON is shown verbatim in the text block |
| Display.SensorErrorKeyLooksLikeFailure | Inicio.py:269-270 | a sensor message `{"error": m}` and a `connect` failure with message `m` produce the same view |
| Display.RenderGrid | Inicio.py:275-293 | when the grid view is chosen, the grid has at least one row, each row holds 1 to 4 cells, and it shows every item once in key order |

## Left out

- Streamlit page setup, CSS, sidebar inputs, headers, spinner, success banner and the JSON expander (Inicio.py:1-113, 158-257, 272, 295-297): presentation with no decision logic.
- The timestamp string and the session-state bookkeeping (Inicio.py:117-121, 250-254): environment-dependent. The stored value is the fetch result, so the model applies `Dispatch` to `FetchResult` directly.
- The paho client's internals and network behaviour: the library is foreign code. Each call is modelled only as "returns" or "raises with this message".
- The wall-clock deadline and the 0.1 s polling (Inicio.py:145-148): timing and threads. They are replaced by the list of bodies handled before `loop_stop`.
- What the paho receive thread does when the handler's exception escapes: library behaviour. The model keeps handling later bodies in the list.
- `json.loads` and UTF-8 decoding internals: foreign calls, modelled as oracles. Duplicate keys are the parser's business: an `Obj` holds the dict's items as the parser built them.
- `Values.Value` does not require distinct keys in an `Obj`, so the model also covers inputs no Python dict can be. An `Obj` with a repeated key is shown as one metric per pair, where a Python dict would hold one item per key. Every statement about the grid and the dispatch holds for dicts with distinct keys as a special case.
- JSON numbers are modelled as mathematical reals plus one `NonFinite` case for NaN and Infinity. Float rounding is not modelled.
