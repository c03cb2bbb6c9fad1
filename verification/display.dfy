/**
 The results block of Inicio.py:262-305: which of four views the page shows
 for the value held in `st.session_state.sensor_data`, and how that choice
 combines with the fetch outcome.
 */
module Display {
  import opened Values
  import opened Capture
  import opened Fetch
  import opened Grid

  /** The four things the results block can show. */
  datatype View =
    | NoData                              // the "no data yet" info box
    | ErrorBanner(detail: Value)          // `st.error` with `data['error']`
    | MetricGrid(items: seq<Item>)        // one metric per dict item, plus the JSON expander
    | TextBlock(text: Value)              // `st.code(data)` for anything that is not a dict

  /**
   The view for `data`: a falsy value shows nothing; a dict with key
   `'error'` shows the banner; any other dict shows the metric grid; any other
   value shows the text block.
   */
  function Dispatch(data: Value): (v: View)
    ensures v.NoData? <==> !Truthy(data)
    ensures v.ErrorBanner? <==> Truthy(data) && data.Obj? && HasKey(data.fields, "error")
    ensures v.ErrorBanner? ==> Lookup(data.fields, "error") == Some(v.detail)
    ensures v.MetricGrid? <==> data.Obj? && data.fields != [] && !HasKey(data.fields, "error")
    ensures v.MetricGrid? ==> v.items == data.fields
    ensures v.TextBlock? <==> Truthy(data) && !data.Obj?
    ensures v.TextBlock? ==> v.text == data
  {
    if !Truthy(data) then NoData
    else if data.Obj? && HasKey(data.fields, "error") then ErrorBanner(Lookup(data.fields, "error").value)
    else if data.Obj? then MetricGrid(data.fields)
    else TextBlock(data)
  }

  /** The session starts with `sensor_data = None`, so the page first shows the "no data" view. */
  lemma InitialViewIsNoData()
    ensures Dispatch(Null) == NoData
  {
  }

  /** A raising client call always reaches the user as the error banner carrying `str(e)`. */
  lemma ClientFailureShowsBanner(run: ClientRun, decode: Decoder, parse: Parser, k: nat)
    requires k < |Calls| && Calls[k] in run.raises
    requires forall j :: 0 <= j < k ==> Calls[j] !in run.raises
    ensures Dispatch(FetchResult(run, decode, parse)) == ErrorBanner(Str(run.raises[Calls[k]]))
  {
    ClientFailureIsErrorObject(run, decode, parse, k);
  }

  /** A wait that captures nothing shows the "no data" view, never the error banner. */
  lemma TimeoutShowsNoData(run: ClientRun, decode: Decoder, parse: Parser)
    requires forall c :: c !in run.raises
    requires forall i :: 0 <= i < |run.delivered| ==> decode(run.delivered[i]).None?
    ensures Dispatch(FetchResult(run, decode, parse)) == NoData
  {
    TimeoutIsNotAnError(run, decode, parse);
  }

  /**
   A message whose reading is falsy (`null`, `{}`, `0`, `""`, `false`, `[]`)
   is shown exactly like a timeout.
   */
  lemma FalsyReadingShowsNoData(run: ClientRun, decode: Decoder, parse: Parser, i: nat)
    requires forall c :: c !in run.raises
    requires i < |run.delivered| && decode(run.delivered[i]).Some?
    requires forall j :: i < j < |run.delivered| ==> decode(run.delivered[j]).None?
    requires !Truthy(Reading(decode(run.delivered[i]).value, parse))
    ensures Dispatch(FetchResult(run, decode, parse)) == NoData
  {
    DeliveredMessageIsResult(run, decode, parse, i);
  }

  /** A last message that parses to a non-empty JSON object without key `"error"` is shown as a grid of its items, in key order. */
  lemma StructuredReadingShowsGrid(run: ClientRun, decode: Decoder, parse: Parser, i: nat, fields: seq<Item>)
    requires forall c :: c !in run.raises
    requires i < |run.delivered| && decode(run.delivered[i]).Some?
    requires forall j :: i < j < |run.delivered| ==> decode(run.delivered[j]).None?
    requires parse(decode(run.delivered[i]).value) == Some(Obj(fields))
    requires fields != [] && !HasKey(fields, "error")
    ensures Dispatch(FetchResult(run, decode, parse)) == MetricGrid(fields)
  {
    DeliveredMessageIsResult(run, decode, parse, i);
  }

  /** A last message that is not JSON is shown verbatim in the text block (if non-empty). */
  lemma PlainTextShowsTextBlock(run: ClientRun, decode: Decoder, parse: Parser, i: nat)
    requires forall c :: c !in run.raises
    requires i < |run.delivered| && decode(run.delivered[i]).Some?
    requires forall j :: i < j < |run.delivered| ==> decode(run.delivered[j]).None?
    requires parse(decode(run.delivered[i]).value).None? && decode(run.delivered[i]).value != []
    ensures Dispatch(FetchResult(run, decode, parse)) == TextBlock(Str(decode(run.delivered[i]).value))
  {
    DeliveredMessageIsResult(run, decode, parse, i);
  }

  /**
   A sensor message `{"error": m}` and a client call raising with `str(e) == m`
   produce the same view: the page cannot tell a genuine reading with key
   `"error"` from a connection failure.
   */
  lemma SensorErrorKeyLooksLikeFailure(failing: ClientRun, body: seq<byte>, decode: Decoder, parse: Parser, m: string)
    requires Connect in failing.raises && NewClient !in failing.raises && failing.raises[Connect] == m
    requires decode(body).Some? && parse(decode(body).value) == Some(ErrorObject(m))
    ensures Dispatch(FetchResult(ClientRun(map[], [body]), decode, parse)) == Dispatch(FetchResult(failing, decode, parse))
  {
    DeliveredMessageIsResult(ClientRun(map[], [body]), decode, parse, 0);
    ClientFailureIsErrorObject(failing, decode, parse, 1);
  }

  /**
   When the grid view is chosen, the nested placement loop shows every item of
   the dict exactly once, in key order, at most four to a row.
   */
  method RenderGrid(data: Value) returns (grid: seq<Row>)
    requires Dispatch(data).MetricGrid?
    ensures |grid| >= 1
    ensures forall r :: 0 <= r < |grid| ==> 1 <= |grid[r]| <= MaxColumns
    ensures ShownAll(grid) == data.fields
  {
    var placed;
    grid, placed := PlaceMetrics(data.fields);
    PlaceMetricsIsLayout(data.fields, grid);
  }
}
