/** Small data types shared by the modules of this project. */
module Common {

  datatype Option<+T> = None | Some(value: T)

  /** Python's int() on a float: truncation toward zero. */
  function Trunc(x: real): (i: int)
    ensures x >= 0.0 ==> i as real <= x < i as real + 1.0
    ensures x < 0.0 ==> i as real - 1.0 < x <= i as real
  {
    if x >= 0.0 then x.Floor else -((-x).Floor)
  }
}

/** Sequences without repetition, and the sets of their elements. */
module Sequences {

  ghost predicate Distinct<T>(s: seq<T>) {
    forall i, j :: 0 <= i < j < |s| ==> s[i] != s[j]
  }

  function Elements<T>(s: seq<T>): set<T> {
    set x | x in s
  }

  lemma {:induction false} DistinctSize<T>(s: seq<T>)
    requires Distinct(s)
    ensures |Elements(s)| == |s|
  {
    if s != [] {
      DistinctSize(s[1..]);
      assert Elements(s) == Elements(s[1..]) + {s[0]};
    }
  }

  lemma SubsetSize<T>(a: set<T>, b: set<T>)
    requires a <= b
    ensures |a| <= |b|
    ensures |a| == |b| ==> a == b
  {
    assert b == a + (b - a);
    assert a !! (b - a);
  }

  /** A sequence longer than the set it draws from repeats an element. */
  lemma Pigeonhole<T>(s: seq<T>, pool: set<T>)
    requires Elements(s) <= pool && |s| > |pool|
    ensures !Distinct(s)
  {
    if Distinct(s) {
      DistinctSize(s);
      SubsetSize(Elements(s), pool);
    }
  }
}

/**
 JSON values as the arbiter handles them. A float is carried by the text Python
 prints for it, so that no rounding is involved; an object is the list of its
 entries in insertion order.
 */
module JsonValues {
  import opened Common

  datatype Json =
    | Null
    | Bool(b: bool)
    | Int(i: int)
    | Float(text: string)
    | Str(s: string)
    | Arr(items: seq<Json>)
    | Obj(entries: seq<(string, Json)>)

  /** dict.get(key) on an object's entries. */
  function Lookup(entries: seq<(string, Json)>, key: string): (r: Option<Json>)
    ensures r.Some? <==> exists i :: 0 <= i < |entries| && entries[i].0 == key
    ensures r.Some? ==> exists i :: 0 <= i < |entries| && entries[i] == (key, r.value)
  {
    if entries == [] then None
    else if entries[0].0 == key then assert entries[0] == (key, entries[0].1); Some(entries[0].1)
    else
      var r := Lookup(entries[1..], key);
      assert forall i :: 1 <= i < |entries| ==> entries[i] == entries[1..][i - 1];
      r
  }

  /** The first entry of that key holds this value. */
  ghost predicate FirstUnder(entries: seq<(string, Json)>, key: string, v: Json) {
    exists i :: 0 <= i < |entries| && entries[i] == (key, v) && KeyNotBefore(entries, key, i)
  }

  predicate KeyNotBefore(entries: seq<(string, Json)>, key: string, i: nat)
    requires i <= |entries|
  {
    forall j :: 0 <= j < i ==> entries[j].0 != key
  }

  lemma FirstUnderRest(entries: seq<(string, Json)>, key: string, v: Json)
    requires entries != []
    ensures FirstUnder(entries, key, v)
      <==> if entries[0].0 == key then entries[0].1 == v else FirstUnder(entries[1..], key, v)
  {
    var rest := entries[1..];
    if entries[0].0 == key {
      assert entries[0].1 == v ==> entries[0] == (key, v) && KeyNotBefore(entries, key, 0);
    } else {
      if FirstUnder(rest, key, v) {
        var i :| 0 <= i < |rest| && rest[i] == (key, v) && KeyNotBefore(rest, key, i);
        assert entries[i + 1] == (key, v);
        assert forall j :: 0 < j < i + 1 ==> entries[j] == rest[j - 1];
        assert KeyNotBefore(entries, key, i + 1);
      }
      if FirstUnder(entries, key, v) {
        var i :| 0 <= i < |entries| && entries[i] == (key, v) && KeyNotBefore(entries, key, i);
        assert rest[i - 1] == (key, v);
        assert forall j :: 0 <= j < i - 1 ==> rest[j] == entries[j + 1];
        assert KeyNotBefore(rest, key, i - 1);
      }
    }
  }

  lemma {:induction false} LookupFindsFirst(entries: seq<(string, Json)>, key: string, v: Json)
    ensures Lookup(entries, key) == Some(v) <==> FirstUnder(entries, key, v)
  {
    if entries != [] {
      FirstUnderRest(entries, key, v);
      LookupFindsFirst(entries[1..], key, v);
    }
  }
}
