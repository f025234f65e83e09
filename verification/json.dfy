/** A dynamically typed JSON value, the `any` / `map[string]any` documents
    the program passes around. `JInt` is an `int64` placed in a document by
    Go code; `JFloat` is the `float64` that `encoding/json` produces for
    every number it decodes. An object is a list of members, read through
    `Get`, which sees the first member with a key. */
module Json {
  import opened Wrappers

  datatype Json =
    | JNull
    | JBool(b: bool)
    | JInt(i: int)
    | JFloat(r: real)
    | JString(s: string)
    | JArray(items: seq<Json>)
    | JObject(members: seq<Member>)

  datatype Member = Member(key: string, value: Json)

  function Keys(ms: seq<Member>): (ks: seq<string>)
    ensures |ks| == |ms|
    ensures forall i :: 0 <= i < |ms| ==> ks[i] == ms[i].key
  {
    if |ms| == 0 then [] else [ms[0].key] + Keys(ms[1..])
  }

  /** Go's map lookup `m[k]`, with the comma-ok result. */
  function Get(ms: seq<Member>, k: string): Option<Json> {
    if |ms| == 0 then None
    else if ms[0].key == k then Some(ms[0].value)
    else Get(ms[1..], k)
  }

  /** A lookup succeeds exactly for the keys present. */
  lemma {:induction false} GetKeys(ms: seq<Member>, k: string)
    ensures Get(ms, k).Some? <==> k in Keys(ms)
  {
    if |ms| > 0 {
      GetKeys(ms[1..], k);
      assert Keys(ms) == [ms[0].key] + Keys(ms[1..]);
    }
  }

  /** The lookup finds the first member with the key. */
  lemma {:induction false} GetFirst(ms: seq<Member>, k: string, i: nat)
    requires i < |ms| && ms[i].key == k
    requires forall j :: 0 <= j < i ==> ms[j].key != k
    ensures Get(ms, k) == Some(ms[i].value)
  {
    if i > 0 {
      GetFirst(ms[1..], k, i - 1);
    }
  }

  /** Go's map assignment `m[k] = v`: the member with key `k` is replaced
      in place, or a new one is appended. */
  function Put(ms: seq<Member>, k: string, v: Json): (r: seq<Member>)
    ensures |r| == if k in Keys(ms) then |ms| else |ms| + 1
  {
    if |ms| == 0 then [Member(k, v)]
    else if ms[0].key == k then [Member(k, v)] + ms[1..]
    else [ms[0]] + Put(ms[1..], k, v)
  }

  /** A key looked up right after it was stored gives the stored value. */
  lemma {:induction false} GetPutSame(ms: seq<Member>, k: string, v: Json)
    ensures Get(Put(ms, k, v), k) == Some(v)
  {
    if |ms| > 0 && ms[0].key != k {
      GetPutSame(ms[1..], k, v);
    }
  }

  /** Storing one key leaves every other key's value alone. */
  lemma {:induction false} GetPutOther(ms: seq<Member>, k: string, v: Json, k': string)
    requires k' != k
    ensures Get(Put(ms, k, v), k') == Get(ms, k')
  {
    if |ms| > 0 && ms[0].key != k {
      GetPutOther(ms[1..], k, v, k');
    }
  }

  /** Storing the value a key already has changes nothing. */
  lemma {:induction false} PutExisting(ms: seq<Member>, k: string, v: Json)
    requires Get(ms, k) == Some(v)
    ensures Put(ms, k, v) == ms
  {
    if |ms| > 0 && ms[0].key != k {
      PutExisting(ms[1..], k, v);
    }
  }

  /** Storing a key adds it to the key set and keeps all other keys. */
  lemma {:induction false} KeysPut(ms: seq<Member>, k: string, v: Json)
    ensures forall x :: x in Keys(Put(ms, k, v)) <==> x == k || x in Keys(ms)
  {
    if |ms| > 0 && ms[0].key != k {
      KeysPut(ms[1..], k, v);
      assert Keys(Put(ms, k, v)) == [ms[0].key] + Keys(Put(ms[1..], k, v));
      assert Keys(ms) == [ms[0].key] + Keys(ms[1..]);
    } else if |ms| > 0 {
      assert Keys(Put(ms, k, v)) == [k] + Keys(ms[1..]);
      assert Keys(ms) == [ms[0].key] + Keys(ms[1..]);
    }
  }

  /** `doc[k]` on a document that should be an object. */
  function Field(doc: Json, k: string): Option<Json> {
    if doc.JObject? then Get(doc.members, k) else None
  }

  /** The type assertion `v.(string)` with its comma-ok result. */
  function AsString(v: Option<Json>): Option<string> {
    if v.Some? && v.value.JString? then Some(v.value.s) else None
  }

  /** Go's conversion of a float64 to an integer: truncation toward zero. */
  function Truncate(r: real): (n: int)
    ensures r >= 0.0 ==> n as real <= r < n as real + 1.0
    ensures r < 0.0 ==> n as real - 1.0 < r <= n as real
  {
    if r >= 0.0 then r.Floor else -((-r).Floor)
  }

  /** Going out through `json.Marshal` and back in through `json.Unmarshal`
      into `any`: every integer comes back as a float64. */
  function Wire(j: Json): Json
    decreases j, 1
  {
    match j
    case JInt(n) => JFloat(n as real)
    case JArray(items) => JArray(WireItems(items))
    case JObject(ms) => JObject(WireMembers(ms))
    case _ => j
  }

  function WireItems(items: seq<Json>): (r: seq<Json>)
    decreases items, 0
    ensures |r| == |items|
    ensures forall i :: 0 <= i < |items| ==> r[i] == Wire(items[i])
  {
    if |items| == 0 then [] else [Wire(items[0])] + WireItems(items[1..])
  }

  function WireMembers(ms: seq<Member>): (r: seq<Member>)
    decreases ms, 0
    ensures |r| == |ms|
    ensures forall i :: 0 <= i < |ms| ==> r[i] == Member(ms[i].key, Wire(ms[i].value))
  {
    if |ms| == 0 then [] else [Member(ms[0].key, Wire(ms[0].value))] + WireMembers(ms[1..])
  }

  /** A field read after the round trip is the round trip of the field. */
  lemma {:induction false} GetWire(ms: seq<Member>, k: string)
    ensures Get(WireMembers(ms), k) == (match Get(ms, k) case Some(v) => Some(Wire(v)) case None => None)
  {
    if |ms| > 0 && ms[0].key != k {
      GetWire(ms[1..], k);
    }
  }
}
