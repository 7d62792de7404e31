/** A JavaScript object used as a string-keyed dictionary (`Record<string, V>`):
    the assignment `o[k] = v`, `Object.keys(o)` and `Object.values(o)`. Keys are
    listed in the order in which they were first assigned; re-assigning a key
    replaces its value and keeps its place. */
module JsRecord {
  import opened Wrappers

  datatype Record<V> = Record(keys: seq<string>, entries: map<string, V>) {

    /** Every key is listed once, and the listed keys are exactly the stored ones. */
    ghost predicate Valid() {
      && (forall i, j :: 0 <= i < j < |keys| ==> keys[i] != keys[j])
      && (forall k :: k in entries <==> k in keys)
    }
  }

  /** `{}` */
  function Empty<V>(): (r: Record<V>)
    ensures r.Valid() && r.keys == [] && r.entries == map[]
  {
    Record([], map[])
  }

  /** `o[k] = v`: a new key is appended to the key order, an existing key keeps
      its place and gets the new value. */
  function Assign<V>(r: Record<V>, k: string, v: V): (r': Record<V>)
    requires r.Valid()
    ensures r'.Valid()
    ensures r'.entries == r.entries[k := v]
    ensures k in r.entries ==> r'.keys == r.keys
    ensures k !in r.entries ==> r'.keys == r.keys + [k]
  {
    if k in r.entries then Record(r.keys, r.entries[k := v])
    else Record(r.keys + [k], r.entries[k := v])
  }

  /** `Object.keys(o)[0]`, which is undefined for an empty object. */
  function FirstKey<V>(r: Record<V>): (k: Option<string>)
    requires r.Valid()
    ensures k.None? <==> r.entries == map[]
    ensures k.Some? ==> k.value in r.entries
  {
    if r.keys == [] then None else assert r.keys[0] in r.entries; Some(r.keys[0])
  }

  /** `Object.values(o)`: the values in key order. */
  function Values<V>(r: Record<V>): (vs: seq<V>)
    requires r.Valid()
    ensures |vs| == |r.keys|
    ensures forall i :: 0 <= i < |vs| ==> vs[i] == r.entries[r.keys[i]]
  {
    seq(|r.keys|, i requires 0 <= i < |r.keys| => r.entries[r.keys[i]])
  }

  /** The record built by assigning each pair in turn, starting from `{}`. */
  function AssignAll<V>(pairs: seq<(string, V)>): (r: Record<V>)
    ensures r.Valid()
  {
    if pairs == [] then Empty()
    else
      var last := pairs[|pairs| - 1];
      Assign(AssignAll(pairs[..|pairs| - 1]), last.0, last.1)
  }

  /** The stored keys are exactly the assigned keys. */
  lemma {:induction false} AssignAllKeys<V>(pairs: seq<(string, V)>, k: string)
    ensures k in AssignAll(pairs).entries <==> exists i :: 0 <= i < |pairs| && pairs[i].0 == k
  {
    if pairs != [] {
      var init := pairs[..|pairs| - 1];
      AssignAllKeys(init, k);
      if k in AssignAll(init).entries {
        var i :| 0 <= i < |init| && init[i].0 == k;
        assert pairs[i] == init[i];
      }
      if exists i :: 0 <= i < |pairs| && pairs[i].0 == k {
        var i :| 0 <= i < |pairs| && pairs[i].0 == k;
        if i < |init| {
          assert init[i] == pairs[i];
        }
      }
    }
  }

  /** At most one key per assignment, and at least one key after any assignment. */
  lemma {:induction false} AssignAllSize<V>(pairs: seq<(string, V)>)
    ensures |AssignAll(pairs).keys| <= |pairs|
    ensures |AssignAll(pairs).entries| == |AssignAll(pairs).keys|
    ensures pairs != [] ==> |AssignAll(pairs).entries| >= 1
  {
    SizeIsKeyCount(AssignAll(pairs));
    if pairs != [] {
      AssignAllSize(pairs[..|pairs| - 1]);
      assert pairs[|pairs| - 1].0 in AssignAll(pairs).entries;
    }
  }

  /** Last write wins: a key holds the value of its last assignment. */
  lemma {:induction false} AssignAllLastWins<V>(pairs: seq<(string, V)>, i: nat)
    requires i < |pairs|
    requires forall j :: i < j < |pairs| ==> pairs[j].0 != pairs[i].0
    ensures pairs[i].0 in AssignAll(pairs).entries
    ensures AssignAll(pairs).entries[pairs[i].0] == pairs[i].1
  {
    if i < |pairs| - 1 {
      var init := pairs[..|pairs| - 1];
      assert init[i] == pairs[i];
      forall j | i < j < |init|
        ensures init[j].0 != init[i].0
      {
        assert init[j] == pairs[j];
      }
      AssignAllLastWins(init, i);
    }
  }

  /** With pairwise distinct keys, the key order is the assignment order. */
  lemma {:induction false} AssignAllDistinct<V>(pairs: seq<(string, V)>)
    requires forall i, j :: 0 <= i < j < |pairs| ==> pairs[i].0 != pairs[j].0
    ensures |AssignAll(pairs).keys| == |pairs|
    ensures forall i :: 0 <= i < |pairs| ==> AssignAll(pairs).keys[i] == pairs[i].0
  {
    if pairs != [] {
      var init := pairs[..|pairs| - 1];
      var last := pairs[|pairs| - 1];
      AssignAllDistinct(init);
      AssignAllKeys(init, last.0);
    }
  }

  /** The first key is the first key assigned. */
  lemma {:induction false} AssignAllFirstKey<V>(pairs: seq<(string, V)>)
    ensures pairs == [] ==> FirstKey(AssignAll(pairs)) == None
    ensures pairs != [] ==> FirstKey(AssignAll(pairs)) == Some(pairs[0].0)
  {
    if |pairs| > 1 {
      var init := pairs[..|pairs| - 1];
      AssignAllFirstKey(init);
      assert init[0] == pairs[0];
    }
  }

  /** Two assignments to different keys list both keys in order. */
  lemma AssignAllTwo<V>(p: (string, V), q: (string, V))
    requires p.0 != q.0
    ensures AssignAll([p, q]) == Record([p.0, q.0], map[p.0 := p.1, q.0 := q.1])
  {
    var none: seq<(string, V)> := [];
    assert [p, q][..1] == [p];
    assert [p][..0] == none;
    assert AssignAll(none) == Empty();
    var one := AssignAll([p]);
    assert one == Assign(AssignAll(none), p.0, p.1);
    assert one.keys == [p.0] && one.entries == map[p.0 := p.1];
    assert AssignAll([p, q]) == Assign(one, q.0, q.1);
  }

  /** A record has exactly as many stored entries as listed keys. */
  lemma {:induction false} SizeIsKeyCount<V>(r: Record<V>)
    requires r.Valid()
    ensures |r.entries| == |r.keys|
  {
    DistinctCount(r.keys);
    assert r.entries.Keys == set k | k in r.keys;
  }

  lemma {:induction false} DistinctCount(s: seq<string>)
    requires forall i, j :: 0 <= i < j < |s| ==> s[i] != s[j]
    ensures |set k | k in s| == |s|
  {
    if s != [] {
      var init := s[..|s| - 1];
      DistinctCount(init);
      assert (set k | k in s) == (set k | k in init) + {s[|s| - 1]};
      assert s[|s| - 1] !in init;
    }
  }
}
