/**
 The outcome of `get_mqtt_message` (Inicio.py:124-156). The paho client is
 not modelled: each of its six calls either returns or raises with a message
 (`str(e)`), given by `ClientRun.raises`. The background receive loop and the
 five-second polling wait enter only as `delivered`, the bodies the handler
 was run on between `loop_start` and `loop_stop`; a `delivered` with no
 decodable body is a wait that reached its deadline.
 */
module Fetch {
  import opened Values
  import opened Capture

  /** The client calls of Inicio.py:139-151, in program order. */
  datatype Call = NewClient | Connect | Subscribe | LoopStart | LoopStop | Disconnect

  const Calls: seq<Call> := [NewClient, Connect, Subscribe, LoopStart, LoopStop, Disconnect]

  /** How one invocation's environment behaves: which calls raise, and what the receive thread delivered. */
  datatype ClientRun = ClientRun(raises: map<Call, string>, delivered: seq<seq<byte>>)

  /** The message of the first call of `calls` that raises, or `None` when all of them return. */
  function FirstRaise(calls: seq<Call>, raises: map<Call, string>): (r: Option<string>)
    ensures r.None? <==> forall i :: 0 <= i < |calls| ==> calls[i] !in raises
    ensures r.Some? ==> exists i :: 0 <= i < |calls| && calls[i] in raises && r.value == raises[calls[i]]
                                    && forall j :: 0 <= j < i ==> calls[j] !in raises
  {
    if calls == [] then None
    else if calls[0] in raises then Some(raises[calls[0]])
    else
      var r := FirstRaise(calls[1..], raises);
      assert forall i :: 0 < i < |calls| ==> calls[i] == calls[1..][i - 1];
      if r.Some? then
        var i :| 0 <= i < |calls[1..]| && calls[1..][i] in raises && r.value == raises[calls[1..][i]]
                 && forall j :: 0 <= j < i ==> calls[1..][j] !in raises;
        assert calls[i + 1] in raises && r.value == raises[calls[i + 1]];
        assert forall j :: 0 <= j < i + 1 ==> calls[j] !in raises by {
          forall j | 0 <= j < i + 1 ensures calls[j] !in raises {
            if j > 0 { assert calls[j] == calls[1..][j - 1]; }
          }
        }
        r
      else
        r
  }

  /** The calls actually made: every call up to and including the first that raises. */
  function Performed(calls: seq<Call>, raises: map<Call, string>): (r: seq<Call>)
    ensures |r| <= |calls| && r == calls[..|r|]
    ensures forall i :: 0 <= i < |r| - 1 ==> r[i] !in raises
    ensures |r| < |calls| ==> |r| > 0 && r[|r| - 1] in raises
  {
    if calls == [] then []
    else if calls[0] in raises then [calls[0]]
    else [calls[0]] + Performed(calls[1..], raises)
  }

  /** The two readings of the control flow agree: a call raised exactly when the last call made raised, and its message is the one reported. */
  lemma {:induction false} FirstRaiseIsLastPerformed(calls: seq<Call>, raises: map<Call, string>)
    ensures FirstRaise(calls, raises).Some? <==>
            Performed(calls, raises) != [] && Performed(calls, raises)[|Performed(calls, raises)| - 1] in raises
    ensures FirstRaise(calls, raises).Some? ==>
            FirstRaise(calls, raises).value == raises[Performed(calls, raises)[|Performed(calls, raises)| - 1]]
  {
    if calls != [] && calls[0] !in raises {
      FirstRaiseIsLastPerformed(calls[1..], raises);
      var rest := Performed(calls[1..], raises);
      assert Performed(calls, raises) == [calls[0]] + rest;
      if rest != [] {
        assert Performed(calls, raises)[|Performed(calls, raises)| - 1] == rest[|rest| - 1];
      }
    }
  }

  /**
   The value `get_mqtt_message` returns: `{"error": str(e)}` for the first
   raising call, else the payload captured by the handler -- `None` when no
   decodable message arrived before the deadline.
   */
  function FetchResult(run: ClientRun, decode: Decoder, parse: Parser): Value
  {
    match FirstRaise(Calls, run.raises)
    case Some(message) => ErrorObject(message)
    case None => HandleAll(Initial, run.delivered, decode, parse).payload
  }

  /** Any raising client call makes the result the error dict of the first such call. */
  lemma ClientFailureIsErrorObject(run: ClientRun, decode: Decoder, parse: Parser, k: nat)
    requires k < |Calls| && Calls[k] in run.raises
    requires forall j :: 0 <= j < k ==> Calls[j] !in run.raises
    ensures FetchResult(run, decode, parse) == ErrorObject(run.raises[Calls[k]])
  {
    var r := FirstRaise(Calls, run.raises);
    var i :| 0 <= i < |Calls| && Calls[i] in run.raises && r.value == run.raises[Calls[i]]
             && forall j :: 0 <= j < i ==> Calls[j] !in run.raises;
    assert i == k;
  }

  /** When every call returns, the result is the last decodable message's reading. */
  lemma DeliveredMessageIsResult(run: ClientRun, decode: Decoder, parse: Parser, i: nat)
    requires forall c :: c !in run.raises
    requires i < |run.delivered| && decode(run.delivered[i]).Some?
    requires forall j :: i < j < |run.delivered| ==> decode(run.delivered[j]).None?
    ensures FetchResult(run, decode, parse) == Reading(decode(run.delivered[i]).value, parse)
  {
    LastDecodableWins(Initial, run.delivered, i, decode, parse);
  }

  /** A wait that ends at the deadline with nothing captured returns `None`, not an error dict. */
  lemma TimeoutIsNotAnError(run: ClientRun, decode: Decoder, parse: Parser)
    requires forall c :: c !in run.raises
    requires forall i :: 0 <= i < |run.delivered| ==> decode(run.delivered[i]).None?
    ensures FetchResult(run, decode, parse) == Null
  {
    UndecodableLeaveCapture(Initial, run.delivered, decode, parse);
  }

  /**
   `disconnect` is reached only when no earlier call raised: the error path
   returns without releasing the connection or stopping the receive loop.
   */
  lemma {:induction false} DisconnectOnlyWithoutFailure(raises: map<Call, string>)
    ensures Disconnect in Performed(Calls, raises) <==>
            NewClient !in raises && Connect !in raises && Subscribe !in raises
            && LoopStart !in raises && LoopStop !in raises
    ensures (Connect in Performed(Calls, raises) && Connect !in raises && Disconnect !in Performed(Calls, raises)) <==>
            NewClient !in raises && Connect !in raises
            && (Subscribe in raises || LoopStart in raises || LoopStop in raises)
  {
    var p := Performed(Calls, raises);
    assert p == Calls[..|p|];
    if Disconnect in p {
      var k :| 0 <= k < |p| && p[k] == Disconnect;
      assert k == 5;
      assert p[0] == NewClient && p[1] == Connect && p[2] == Subscribe && p[3] == LoopStart && p[4] == LoopStop;
    }
    if NewClient !in raises && Connect !in raises && Subscribe !in raises && LoopStart !in raises && LoopStop !in raises {
      assert |p| == 6;
      assert p[5] == Disconnect;
    }
    if Connect in p {
      var k :| 0 <= k < |p| && p[k] == Connect;
      assert k == 1 && p[0] == NewClient;
    }
    if NewClient !in raises && Connect !in raises && (Subscribe in raises || LoopStart in raises || LoopStop in raises) {
      assert |p| >= 2 && p[1] == Connect;
    }
  }
}
