// Insertion-ordered dictionaries (Python's dict / OrderedDict) as sequences
// of key/value pairs, and utils.StringKeyOrderedDict.
module OrderedDicts {
  import opened PyErrors
  import opened PyValues

  /** An ordered dictionary: its entries in iteration order. */
  type ODict<K, V> = seq<(K, V)>

  function Keys<K, V>(d: ODict<K, V>): (ks: seq<K>)
    ensures |ks| == |d| && forall i :: 0 <= i < |d| ==> ks[i] == d[i].0
  {
    if d == [] then [] else [d[0].0] + Keys(d[1..])
  }

  function Values<K, V>(d: ODict<K, V>): (vs: seq<V>)
    ensures |vs| == |d| && forall i :: 0 <= i < |d| ==> vs[i] == d[i].1
  {
    if d == [] then [] else [d[0].1] + Values(d[1..])
  }

  /** Every key occurs once, as in any Python dict. */
  ghost predicate Distinct<K, V>(d: ODict<K, V>)
  {
    forall i, j :: 0 <= i < j < |d| ==> d[i].0 != d[j].0
  }

  predicate HasKey<K(==), V>(d: ODict<K, V>, k: K)
  {
    exists i :: 0 <= i < |d| && d[i].0 == k
  }

  /** The position of key k, by a left-to-right scan. */
  function IndexOf<K(==), V>(d: ODict<K, V>, k: K): (i: nat)
    requires HasKey(d, k)
    ensures i < |d| && d[i].0 == k
    ensures forall j :: 0 <= j < i ==> d[j].0 != k
  {
    if d[0].0 == k then 0 else IndexOf(d[1..], k) + 1
  }

  /** `d.get(k)` */
  function Get<K(==), V>(d: ODict<K, V>, k: K): (r: Option<V>)
    ensures r.Some? <==> HasKey(d, k)
    ensures r.Some? ==> exists i :: 0 <= i < |d| && d[i] == (k, r.value)
  {
    if HasKey(d, k) then Some(d[IndexOf(d, k)].1) else None
  }

  /** `d[k] = v`: an existing key keeps its position, a new key is appended. */
  function Set<K(==), V>(d: ODict<K, V>, k: K, v: V): (r: ODict<K, V>)
    ensures HasKey(d, k) ==>
      (|r| == |d| && r[IndexOf(d, k)] == (k, v) && forall i :: 0 <= i < |d| && i != IndexOf(d, k) ==> r[i] == d[i])
    ensures !HasKey(d, k) ==> r == d + [(k, v)]
  {
    if HasKey(d, k) then d[IndexOf(d, k) := (k, v)] else d + [(k, v)]
  }

  lemma SetKeepsDistinct<K, V>(d: ODict<K, V>, k: K, v: V)
    requires Distinct(d)
    ensures Distinct(Set(d, k, v))
  {
  }

  lemma {:induction false} GetAfterSet<K, V>(d: ODict<K, V>, k: K, v: V, k': K)
    requires Distinct(d)
    ensures Get(Set(d, k, v), k') == if k' == k then Some(v) else Get(d, k')
  {
    var r := Set(d, k, v);
    SetKeepsDistinct(d, k, v);
    if k' == k {
      var j := if HasKey(d, k) then IndexOf(d, k) else |d|;
      assert r[j] == (k, v);
      DistinctIndex(r, IndexOf(r, k), j);
    } else if HasKey(d, k') {
      var i := IndexOf(d, k');
      assert r[i] == d[i];
      DistinctIndex(r, IndexOf(r, k'), i);
    } else {
      assert !HasKey(r, k');
    }
  }

  lemma DistinctIndex<K, V>(d: ODict<K, V>, i: nat, j: nat)
    requires Distinct(d) && i < |d| && j < |d| && d[i].0 == d[j].0
    ensures i == j
  {
  }

  lemma KeysOfSet<K, V>(d: ODict<K, V>, k: K, v: V)
    ensures Keys(Set(d, k, v)) == if HasKey(d, k) then Keys(d) else Keys(d) + [k]
  {
  }

  /** `d.update(e)`: set every entry of e in e's order. */
  function Update<K(==), V>(d: ODict<K, V>, e: ODict<K, V>): (r: ODict<K, V>)
    ensures |r| >= |d|
    ensures forall i :: 0 <= i < |d| ==> r[i].0 == d[i].0
    decreases |e|
  {
    if e == [] then d else Update(Set(d, e[0].0, e[0].1), e[1..])
  }

  lemma {:induction false} GetAfterUpdate<K, V>(d: ODict<K, V>, e: ODict<K, V>, k: K)
    requires Distinct(d) && Distinct(e)
    ensures Distinct(Update(d, e))
    ensures Get(Update(d, e), k) == if HasKey(e, k) then Get(e, k) else Get(d, k)
    decreases |e|
  {
    if e != [] {
      var d' := Set(d, e[0].0, e[0].1);
      SetKeepsDistinct(d, e[0].0, e[0].1);
      GetAfterSet(d, e[0].0, e[0].1, k);
      GetAfterUpdate(d', e[1..], k);
      if HasKey(e, k) {
        if e[0].0 == k {
          assert !HasKey(e[1..], k);
        } else {
          assert HasKey(e[1..], k);
          assert IndexOf(e, k) == IndexOf(e[1..], k) + 1;
        }
      } else {
        assert !HasKey(e[1..], k);
      }
    }
  }

  /** `del d[k]`, which raises KeyError for a missing key. */
  function Delete<K(==), V>(d: ODict<K, V>, k: K): (r: Result<ODict<K, V>>)
    ensures r.Ok? <==> HasKey(d, k)
    ensures r.Err? ==> r.error == KeyError
    ensures r.Ok? ==> r.value == d[..IndexOf(d, k)] + d[IndexOf(d, k) + 1..]
  {
    if HasKey(d, k) then Ok(d[..IndexOf(d, k)] + d[IndexOf(d, k) + 1..]) else Err(KeyError)
  }

  /** `d.popitem(last)`: the last (or first) entry and the rest, KeyError when empty. */
  function PopItem<K, V>(d: ODict<K, V>, last: bool): (r: Result<((K, V), ODict<K, V>)>)
    ensures r.Ok? <==> d != []
    ensures r.Err? ==> r.error == KeyError
    ensures r.Ok? ==> if last then d == r.value.1 + [r.value.0] else d == [r.value.0] + r.value.1
  {
    if d == [] then Err(KeyError)
    else if last then Ok((d[|d| - 1], d[..|d| - 1]))
    else Ok((d[0], d[1..]))
  }

  /** `d.move_to_end(k, last)`: the entry of k moves to the end (or the front), KeyError for a missing key. */
  function MoveToEnd<K(==), V>(d: ODict<K, V>, k: K, last: bool): (r: Result<ODict<K, V>>)
    ensures r.Ok? <==> HasKey(d, k)
    ensures r.Err? ==> r.error == KeyError
    ensures r.Ok? ==> var i := IndexOf(d, k);
      r.value == if last then d[..i] + d[i + 1..] + [d[i]] else [d[i]] + d[..i] + d[i + 1..]
  {
    if !HasKey(d, k) then Err(KeyError)
    else
      var i := IndexOf(d, k);
      Ok(if last then d[..i] + d[i + 1..] + [d[i]] else [d[i]] + d[..i] + d[i + 1..])
  }

  /** move_to_end keeps the keys. */
  lemma MoveToEndKeepsKeys<K, V>(d: ODict<K, V>, k: K, last: bool, k': K)
    requires HasKey(d, k)
    ensures HasKey(MoveToEnd(d, k, last).value, k') <==> HasKey(d, k')
  {
    var r := MoveToEnd(d, k, last).value;
    MoveToEndKeepsEntries(d, k, last);
    if HasKey(d, k') {
      var i :| 0 <= i < |d| && d[i].0 == k';
      assert d[i] in multiset(r);
      var j :| 0 <= j < |r| && r[j] == d[i];
    }
    if HasKey(r, k') {
      var i :| 0 <= i < |r| && r[i].0 == k';
      assert r[i] in multiset(d);
      var j :| 0 <= j < |d| && d[j] == r[i];
    }
  }

  lemma MoveToEndKeepsEntries<K, V>(d: ODict<K, V>, k: K, last: bool)
    requires HasKey(d, k)
    ensures multiset(MoveToEnd(d, k, last).value) == multiset(d)
  {
    var i := IndexOf(d, k);
    var front, x, back := d[..i], d[i], d[i + 1..];
    assert d == front + [x] + back;
    assert multiset(d) == multiset(front) + multiset([x]) + multiset(back);
    if last {
      assert MoveToEnd(d, k, last).value == front + back + [x];
    } else {
      assert MoveToEnd(d, k, last).value == [x] + front + back;
    }
  }

  /** utils.StringKeyOrderedDict: an ordered dictionary whose `__setitem__` accepts only `str` keys. */
  class StringKeyOrderedDict<V> {
    var entries: ODict<seq<byte>, V>

    constructor ()
      ensures entries == []
    {
      entries := [];
    }

    method SetItem(key: PyValue, value: V) returns (r: Outcome)
      modifies this
      ensures r == (if key.PStr? then Pass else Fail(TypeError))
      ensures entries == if key.PStr? then Set(old(entries), key.utf8, value) else old(entries)
    {
      if !key.PStr? {
        return Fail(TypeError);
      }
      entries := Set(entries, key.utf8, value);
      r := Pass;
    }
  }
}
