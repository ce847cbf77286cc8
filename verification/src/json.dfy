/** JSON values as the backend stores them (`extra_data`, LLM payloads, JSON files).
    Objects keep their keys in insertion order, as Python dictionaries do. */
module Json {
  import opened Common

  datatype Json =
    | JNull
    | JBool(b: bool)
    | JNum(n: real)
    | JStr(s: string)
    | JArr(items: seq<Json>)
    | JObj(fields: seq<(string, Json)>)

  /** Python truthiness of a JSON value. */
  predicate Truthy(j: Json)
  {
    match j
    case JNull => false
    case JBool(b) => b
    case JNum(n) => n != 0.0
    case JStr(s) => s != ""
    case JArr(a) => a != []
    case JObj(f) => f != []
  }

  predicate HasKey(fields: seq<(string, Json)>, key: string)
  {
    exists i | 0 <= i < |fields| :: fields[i].0 == key
  }

  /** `d.get(key)`: the value stored under `key`, if any. */
  function Get(fields: seq<(string, Json)>, key: string): (r: Option<Json>)
    ensures r.Some? <==> HasKey(fields, key)
    ensures r.Some? ==> (key, r.value) in fields
  {
    if fields == [] then None
    else if fields[0].0 == key then Some(fields[0].1)
    else Get(fields[1..], key)
  }

  /** The value `Get` finds is the one of the first field with the key. */
  lemma {:induction false} GetAt(fields: seq<(string, Json)>, i: nat, key: string)
    requires i < |fields| && fields[i].0 == key
    requires forall j | 0 <= j < i :: fields[j].0 != key
    ensures Get(fields, key) == Some(fields[i].1)
  {
    if i > 0 {
      GetAt(fields[1..], i - 1, key);
    }
  }

  /** `v or d` applied to the result of a `.get`: a missing or falsy value gives `d`. */
  function OrElse(v: Option<Json>, d: Json): (r: Json)
    ensures v.Some? && Truthy(v.value) ==> r == v.value
    ensures v.None? || !Truthy(v.value) ==> r == d
  {
    if v.Some? && Truthy(v.value) then v.value else d
  }

  /** What a Python `for` loop visits in a value: the items of a list, the one-character
      strings of a string, the keys of an object. Other values are not iterable. */
  function Iterate(j: Json): (r: Option<seq<Json>>)
    ensures r.Some? <==> j.JArr? || j.JStr? || j.JObj?
    ensures j.JArr? ==> r == Some(j.items)
    ensures j.JStr? ==> r.Some? && |r.value| == |j.s| && forall i | 0 <= i < |j.s| :: r.value[i] == JStr([j.s[i]])
    ensures j.JObj? ==> r.Some? && |r.value| == |j.fields| && forall i | 0 <= i < |j.fields| :: r.value[i] == JStr(j.fields[i].0)
    ensures r.Some? ==> (|r.value| == 0 <==> !Truthy(j))
  {
    match j
    case JArr(items) => Some(items)
    case JStr(s) => Some(seq(|s|, i requires 0 <= i < |s| => JStr([s[i]])))
    case JObj(fields) => Some(seq(|fields|, i requires 0 <= i < |fields| => JStr(fields[i].0)))
    case _ => None
  }

  /** `d[key] = v`: replaces the value in place, or appends a new key at the end. */
  function Put(fields: seq<(string, Json)>, key: string, v: Json): (r: seq<(string, Json)>)
    ensures Get(r, key) == Some(v)
    ensures forall k :: k != key ==> Get(r, k) == Get(fields, k)
  {
    if fields == [] then [(key, v)]
    else if fields[0].0 == key then [(key, v)] + fields[1..]
    else [fields[0]] + Put(fields[1..], key, v)
  }

  /** `a.update(b)`: every entry of `b` written into `a`, in `b`'s order. */
  function Update(a: seq<(string, Json)>, b: seq<(string, Json)>): (r: seq<(string, Json)>)
    decreases |b|
  {
    if b == [] then a else Update(Put(a, b[0].0, b[0].1), b[1..])
  }

  /** After `a.update(b)`, a key that `b` holds reads as in `b` (its last entry); any other reads as in `a`. */
  lemma {:induction false} UpdateGet(a: seq<(string, Json)>, b: seq<(string, Json)>, k: string)
    ensures Get(Update(a, b), k) == (if HasKey(b, k) then LastGet(b, k) else Get(a, k))
    decreases |b|
  {
    if b != [] {
      UpdateGet(Put(a, b[0].0, b[0].1), b[1..], k);
      assert LastGet(b, k).Some? <==> HasKey(b, k);
    }
  }

  /** The value of the last entry of `b` under `k`: what a Python dict literal keeps. */
  function LastGet(b: seq<(string, Json)>, k: string): (r: Option<Json>)
    ensures r.Some? <==> HasKey(b, k)
  {
    if b == [] then None
    else
      var rest := LastGet(b[1..], k);
      assert HasKey(b, k) <==> b[0].0 == k || HasKey(b[1..], k) by {
        if HasKey(b, k) && b[0].0 != k {
          var i :| 0 <= i < |b| && b[i].0 == k;
          assert b[1..][i - 1].0 == k;
        }
        if HasKey(b[1..], k) {
          var i :| 0 <= i < |b[1..]| && b[1..][i].0 == k;
          assert b[i + 1].0 == k;
        }
      }
      if rest.Some? then rest else if b[0].0 == k then Some(b[0].1) else None
  }
}
