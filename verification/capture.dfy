/**
 The `on_message` callback of `get_mqtt_message` (Inicio.py:126-136) and the
 record `{received, payload}` it writes. Text decoding (`bytes.decode()`) and
 JSON parsing (`json.loads`) are foreign code and enter as oracles: `decode`
 answers `None` where Python raises `UnicodeDecodeError`, `parse` answers
 `None` where `json.loads` raises.
 */
module Capture {
  import opened Values

  type Decoder = seq<byte> -> Option<string>
  type Parser = string -> Option<Value>

  /** The record shared between the receive thread and the waiting caller. */
  datatype Capture = Capture(received: bool, payload: Value)

  /** `{"received": False, "payload": None}`, as created at Inicio.py:126. */
  const Initial := Capture(false, Null)

  /** What the handler stores for a body that decoded to `text`: the parsed JSON value, or else the text itself. */
  function Reading(text: string, parse: Parser): Value
  {
    match parse(text)
    case Some(parsed) => parsed
    case None => Str(text)
  }

  /**
   One handler call. A body that does not decode raises in the `try` and again
   in the `except` branch, so the exception escapes before either field is
   written; a body that decodes replaces the payload and sets `received`.
   */
  function OnMessage(c: Capture, body: seq<byte>, decode: Decoder, parse: Parser): (r: Capture)
    ensures decode(body).None? ==> r == c
    ensures decode(body).Some? ==> r.received
    ensures decode(body).Some? && parse(decode(body).value).Some? ==> r.payload == parse(decode(body).value).value
    ensures decode(body).Some? && parse(decode(body).value).None? ==> r.payload == Str(decode(body).value)
  {
    match decode(body)
    case None => c
    case Some(text) => Capture(true, Reading(text, parse))
  }

  /** The record after the receive thread has run the handler on each of `bodies`, in arrival order. */
  function HandleAll(c: Capture, bodies: seq<seq<byte>>, decode: Decoder, parse: Parser): Capture
  {
    if bodies == [] then c
    else OnMessage(HandleAll(c, bodies[..|bodies| - 1], decode, parse), bodies[|bodies| - 1], decode, parse)
  }

  /** A decodable body overwrites whatever an earlier call stored: the handler keeps no memory of earlier messages. */
  lemma HandlerOverwrites(c1: Capture, c2: Capture, body: seq<byte>, decode: Decoder, parse: Parser)
    requires decode(body).Some?
    ensures OnMessage(c1, body, decode, parse) == OnMessage(c2, body, decode, parse)
  {
  }

  /** Running the handler twice on the same body is the same as running it once. */
  lemma HandlerIdempotent(c: Capture, body: seq<byte>, decode: Decoder, parse: Parser)
    ensures OnMessage(OnMessage(c, body, decode, parse), body, decode, parse) == OnMessage(c, body, decode, parse)
  {
  }

  /** Once set, `received` is never cleared by a later message. */
  lemma {:induction false} ReceivedStaysSet(c: Capture, bodies: seq<seq<byte>>, decode: Decoder, parse: Parser)
    requires c.received
    ensures HandleAll(c, bodies, decode, parse).received
  {
    if bodies != [] {
      ReceivedStaysSet(c, bodies[..|bodies| - 1], decode, parse);
    }
  }

  /** Messages none of which decode leave the record exactly as it was. */
  lemma {:induction false} UndecodableLeaveCapture(c: Capture, bodies: seq<seq<byte>>, decode: Decoder, parse: Parser)
    requires forall i :: 0 <= i < |bodies| ==> decode(bodies[i]).None?
    ensures HandleAll(c, bodies, decode, parse) == c
  {
    if bodies != [] {
      var front := bodies[..|bodies| - 1];
      assert forall i :: 0 <= i < |front| ==> decode(front[i]).None? by {
        forall i | 0 <= i < |front| ensures decode(front[i]).None? {
          assert front[i] == bodies[i];
        }
      }
      UndecodableLeaveCapture(c, front, decode, parse);
    }
  }

  /**
   Last write wins: the record holds the reading of the last body that decoded,
   whatever came before it and whatever the starting record was.
   */
  lemma {:induction false} LastDecodableWins(c: Capture, bodies: seq<seq<byte>>, i: nat, decode: Decoder, parse: Parser)
    requires i < |bodies| && decode(bodies[i]).Some?
    requires forall j :: i < j < |bodies| ==> decode(bodies[j]).None?
    ensures HandleAll(c, bodies, decode, parse) == Capture(true, Reading(decode(bodies[i]).value, parse))
  {
    var front := bodies[..|bodies| - 1];
    if i == |bodies| - 1 {
    } else {
      assert forall j :: i < j < |front| ==> decode(front[j]).None? by {
        forall j | i < j < |front| ensures decode(front[j]).None? {
          assert front[j] == bodies[j];
        }
      }
      assert front[i] == bodies[i];
      LastDecodableWins(c, front, i, decode, parse);
    }
  }

  /** `received` ends up true exactly when the record started received or some delivered body decoded. */
  lemma {:induction false} ReceivedIffSomeDecodable(c: Capture, bodies: seq<seq<byte>>, decode: Decoder, parse: Parser)
    ensures HandleAll(c, bodies, decode, parse).received <==>
            c.received || exists i :: 0 <= i < |bodies| && decode(bodies[i]).Some?
  {
    if bodies != [] {
      var front := bodies[..|bodies| - 1];
      ReceivedIffSomeDecodable(c, front, decode, parse);
      if exists i :: 0 <= i < |front| && decode(front[i]).Some? {
        var i :| 0 <= i < |front| && decode(front[i]).Some?;
        assert bodies[i] == front[i];
      }
      if exists i :: 0 <= i < |bodies| && decode(bodies[i]).Some? {
        var i :| 0 <= i < |bodies| && decode(bodies[i]).Some?;
        if i < |front| {
          assert front[i] == bodies[i];
        }
      }
    }
  }

  /**
   Two decodable messages in a row: the record reflects the second, so the
   handler gives no "first message only" guarantee.
   */
  lemma SecondMessageReplacesFirst(first: seq<byte>, second: seq<byte>, decode: Decoder, parse: Parser)
    requires decode(first).Some? && decode(second).Some?
    ensures HandleAll(Initial, [first, second], decode, parse).payload == Reading(decode(second).value, parse)
  {
    LastDecodableWins(Initial, [first, second], 1, decode, parse);
  }
}
