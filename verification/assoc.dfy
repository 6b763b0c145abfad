/**
 * A Go `map[string]string` as a list of key/value pairs. Assignment keeps
 * one pair per key; the order of the pairs stands for the map's iteration
 * order, about which the model states nothing.
 */
module Assoc {
  import opened Wrappers

  type Dict = seq<(string, string)>

  /** One pair per key. */
  predicate Unique(d: Dict) {
    forall i, j :: 0 <= i < j < |d| ==> d[i].0 != d[j].0
  }

  /** `v, ok := d[key]`. */
  function Find(d: Dict, key: string): (r: Option<string>)
    ensures r.Some? ==> (key, r.value) in d
    ensures r.None? <==> forall k :: 0 <= k < |d| ==> d[k].0 != key
  {
    if |d| == 0 then None
    else if d[0].0 == key then Some(d[0].1)
    else Find(d[1..], key)
  }

  /** With one pair per key, the pair a key is in is the one Find finds. */
  lemma {:induction false} FindUnique(d: Dict, key: string, value: string)
    requires Unique(d) && (key, value) in d
    ensures Find(d, key) == Some(value)
  {
    if d[0] != (key, value) {
      var k :| 0 <= k < |d| && d[k] == (key, value);
      assert d[0].0 != key;
      assert d[1..][k - 1] == d[k];
      FindUnique(d[1..], key, value);
    }
  }

  /** `d[key] = value`. */
  function Put(d: Dict, key: string, value: string): (r: Dict)
    ensures |r| <= |d| + 1
    decreases |d|
  {
    if |d| == 0 then [(key, value)]
    else if d[0].0 == key then [(key, value)] + d[1..]
    else [d[0]] + Put(d[1..], key, value)
  }

  /** After a Put, the key maps to the value and every other lookup is as before. */
  lemma {:induction false} PutFind(d: Dict, key: string, value: string, other: string)
    ensures Find(Put(d, key, value), other) == if other == key then Some(value) else Find(d, other)
    decreases |d|
  {
    if |d| > 0 && d[0].0 != key {
      PutFind(d[1..], key, value, other);
    }
  }

  /** A Put keeps one pair per key. */
  lemma {:induction false} PutUnique(d: Dict, key: string, value: string)
    requires Unique(d)
    ensures Unique(Put(d, key, value))
    decreases |d|
  {
    var r := Put(d, key, value);
    if |d| > 0 && d[0].0 != key {
      var rest := Put(d[1..], key, value);
      PutUnique(d[1..], key, value);
      PutFind(d[1..], key, value, d[0].0);
      assert Find(d[1..], d[0].0).None? by {
        forall k | 0 <= k < |d[1..]| ensures d[1..][k].0 != d[0].0 {
          assert d[1..][k] == d[k + 1];
        }
      }
      assert r == [d[0]] + rest;
    } else if |d| > 0 {
      assert r == [(key, value)] + d[1..];
      forall i, j | 0 <= i < j < |r| ensures r[i].0 != r[j].0 {
        assert r[i].0 == d[i].0 && r[j].0 == d[j].0;
      }
    }
  }
}
