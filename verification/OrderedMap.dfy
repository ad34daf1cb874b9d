/** A JavaScript `Map` with string keys: entries in insertion order, one per key. */
module OrderedMap {
  import opened Wrappers

  type Entries<V> = seq<(string, V)>

  /** `map.set(key, value)`: an existing entry keeps its place. */
  function Put<V>(m: Entries<V>, key: string, value: V): Entries<V> {
    if m == [] then [(key, value)]
    else if m[0].0 == key then [(key, value)] + m[1..]
    else [m[0]] + Put(m[1..], key, value)
  }

  /** `map.get(key)`. */
  function Get<V>(m: Entries<V>, key: string): Option<V> {
    if m == [] then None else if m[0].0 == key then Some(m[0].1) else Get(m[1..], key)
  }

  ghost predicate Distinct<V>(m: Entries<V>) {
    forall i, j :: 0 <= i < j < |m| ==> m[i].0 != m[j].0
  }

  lemma {:induction false} GetPut<V>(m: Entries<V>, key: string, value: V, other: string)
    ensures Get(Put(m, key, value), other) == if other == key then Some(value) else Get(m, other)
  {
    if m != [] && m[0].0 != key {
      GetPut(m[1..], key, value, other);
    }
  }

  /** `Get` finds exactly the entries of a distinct list. */
  lemma {:induction false} GetFindsEntries<V>(m: Entries<V>, key: string)
    ensures Get(m, key).Some? ==> (key, Get(m, key).value) in m
    ensures Get(m, key).None? ==> forall i :: 0 <= i < |m| ==> m[i].0 != key
    ensures Distinct(m) ==> forall i :: 0 <= i < |m| && m[i].0 == key ==> Get(m, key) == Some(m[i].1)
  {
    if m != [] {
      GetFindsEntries(m[1..], key);
      assert m == [m[0]] + m[1..];
      assert forall i :: 0 < i < |m| ==> m[i] == m[1..][i - 1];
    }
  }

  lemma {:induction false} PutKeepsDistinct<V>(m: Entries<V>, key: string, value: V)
    requires Distinct(m)
    ensures Distinct(Put(m, key, value))
    ensures forall i :: 0 <= i < |Put(m, key, value)| ==>
              Put(m, key, value)[i].0 == key || exists j :: 0 <= j < |m| && m[j].0 == Put(m, key, value)[i].0
  {
    var r := Put(m, key, value);
    if m == [] {
    } else if m[0].0 == key {
      assert forall i :: 0 < i < |r| ==> r[i] == m[i];
    } else {
      var rest := Put(m[1..], key, value);
      PutKeepsDistinct(m[1..], key, value);
      assert forall i :: 0 < i < |r| ==> r[i] == rest[i - 1];
      forall i | 0 <= i < |r|
        ensures r[i].0 == key || exists j :: 0 <= j < |m| && m[j].0 == r[i].0
      {
        if i > 0 && r[i].0 != key {
          var j :| 0 <= j < |m| - 1 && m[1..][j].0 == rest[i - 1].0;
          assert m[j + 1].0 == r[i].0;
        }
      }
    }
  }

  /** Setting a key replaces its entry where it stands, or appends one. */
  lemma {:induction false} PutKeepsPlaces<V>(m: Entries<V>, key: string, value: V)
    requires Distinct(m)
    ensures Get(m, key).None? ==> Put(m, key, value) == m + [(key, value)]
    ensures Get(m, key).Some? ==> |Put(m, key, value)| == |m|
    ensures forall i :: 0 <= i < |m| ==> i < |Put(m, key, value)| && Put(m, key, value)[i].0 == m[i].0
  {
    if m != [] && m[0].0 != key {
      PutKeepsPlaces(m[1..], key, value);
      assert forall i :: 0 < i < |m| ==> m[i] == m[1..][i - 1];
    }
  }

  /** Setting one entry after another. */
  function PutAll<V>(m: Entries<V>, list: Entries<V>): Entries<V>
    decreases |list|
  {
    if list == [] then m else PutAll(Put(m, list[0].0, list[0].1), list[1..])
  }

  /** Entries with new keys are appended in order. */
  lemma {:induction false} PutAllAppends<V>(m: Entries<V>, list: Entries<V>)
    requires Distinct(m + list)
    ensures PutAll(m, list) == m + list
    decreases |list|
  {
    if list == [] {
      assert m + list == m;
    } else {
      var all := m + list;
      forall i, j | 0 <= i < j < |m| ensures m[i].0 != m[j].0 {
        assert all[i] == m[i] && all[j] == m[j];
      }
      assert Get(m, list[0].0).None? by {
        GetFindsEntries(m, list[0].0);
        assert all[|m|] == list[0];
        assert forall i :: 0 <= i < |m| ==> all[i] == m[i];
      }
      PutKeepsPlaces(m, list[0].0, list[0].1);
      assert (m + [list[0]]) + list[1..] == all;
      PutAllAppends(m + [list[0]], list[1..]);
    }
  }

  /** Entry `i` is the last with this key. */
  ghost predicate LastWith<V>(list: Entries<V>, key: string, i: nat) {
    i < |list| && list[i].0 == key && forall j :: i < j < |list| ==> list[j].0 != key
  }

  /** Of several entries with one key the last counts. */
  lemma {:induction false} GetPutAll<V>(m: Entries<V>, list: Entries<V>, i: nat)
    requires i < |list| && LastWith(list, list[i].0, i)
    ensures Get(PutAll(m, list), list[i].0) == Some(list[i].1)
    decreases |list|
  {
    var next := Put(m, list[0].0, list[0].1);
    if i > 0 {
      assert forall j :: 0 <= j < |list| - 1 ==> list[1..][j] == list[j + 1];
      GetPutAll(next, list[1..], i - 1);
    } else {
      GetPut(m, list[0].0, list[0].1, list[0].0);
      GetPutAllOther(next, list[1..], list[0].0);
    }
  }

  lemma {:induction false} GetPutAllOther<V>(m: Entries<V>, list: Entries<V>, key: string)
    requires forall j :: 0 <= j < |list| ==> list[j].0 != key
    ensures Get(PutAll(m, list), key) == Get(m, key)
    decreases |list|
  {
    if list != [] {
      assert forall j :: 0 <= j < |list| - 1 ==> list[1..][j] == list[j + 1];
      GetPutAllOther(Put(m, list[0].0, list[0].1), list[1..], key);
      GetPut(m, list[0].0, list[0].1, key);
    }
  }

  lemma {:induction false} PutAllConcat<V>(m: Entries<V>, a: Entries<V>, b: Entries<V>)
    ensures PutAll(m, a + b) == PutAll(PutAll(m, a), b)
    decreases |a|
  {
    if a == [] {
      assert a + b == b;
    } else {
      assert (a + b)[1..] == a[1..] + b;
      PutAllConcat(Put(m, a[0].0, a[0].1), a[1..], b);
    }
  }
}
