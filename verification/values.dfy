/**
 The values that flow through the dashboard: raw message bodies (bytes), the
 JSON-like values produced by decoding them, and the two notions the page
 applies to them -- Python truthiness and lookup of a key in a dict.
 */
module Values {

  /** The conventional Some/None datatype. */
  datatype Option<+T> = None | Some(value: T)

  /** One byte of an MQTT message body. */
  newtype byte = b: int | 0 <= b < 256

  /**
   A value as Python holds it after `json.loads`, or a raw decoded string.
   `Num` covers JSON integers and finite floats alike; `NonFinite` stands for
   the NaN and Infinity literals that `json.loads` also accepts. The fields of
   an `Obj` are the dict's items in insertion order.
   */
  datatype Value =
    | Null
    | Bool(b: bool)
    | Num(n: real)
    | NonFinite
    | Str(s: string)
    | Arr(elems: seq<Value>)
    | Obj(fields: seq<(string, Value)>)

  /** Python's truth value of `v`: None, False, zero and empty containers are false. */
  predicate Truthy(v: Value)
  {
    match v
    case Null => false
    case Bool(b) => b
    case Num(n) => n != 0.0
    case NonFinite => true
    case Str(s) => s != []
    case Arr(elems) => elems != []
    case Obj(fields) => fields != []
  }

  /** `key in d` for a dict with the given items. */
  predicate HasKey(fields: seq<(string, Value)>, key: string)
  {
    exists i :: 0 <= i < |fields| && fields[i].0 == key
  }

  /** `d[key]`: the value stored under the first occurrence of `key`. */
  function Lookup(fields: seq<(string, Value)>, key: string): (r: Option<Value>)
    ensures r.Some? <==> HasKey(fields, key)
    ensures r.Some? ==> exists i :: 0 <= i < |fields| && fields[i] == (key, r.value)
  {
    if fields == [] then None
    else if fields[0].0 == key then Some(fields[0].1)
    else
      var rest := Lookup(fields[1..], key);
      assert rest.Some? ==> exists i :: 0 <= i < |fields| && fields[i] == (key, rest.value) by {
        if rest.Some? {
          var j :| 0 <= j < |fields[1..]| && fields[1..][j] == (key, rest.value);
          assert fields[j + 1] == (key, rest.value);
        }
      }
      assert HasKey(fields[1..], key) ==> HasKey(fields, key) by {
        if HasKey(fields[1..], key) {
          var j :| 0 <= j < |fields[1..]| && fields[1..][j].0 == key;
          assert fields[j + 1].0 == key;
        }
      }
      assert HasKey(fields, key) ==> HasKey(fields[1..], key) by {
        if HasKey(fields, key) {
          var j :| 0 <= j < |fields| && fields[j].0 == key;
          assert j != 0;
          assert fields[1..][j - 1].0 == key;
        }
      }
      rest
  }

  /** The dict `{"error": message}` that the fetch returns when a client call raises. */
  function ErrorObject(message: string): (r: Value)
    ensures r.Obj? && Truthy(r)
    ensures Lookup(r.fields, "error") == Some(Str(message))
  {
    Obj([("error", Str(message))])
  }
}
