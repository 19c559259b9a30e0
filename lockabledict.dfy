// trsfile/parametermap.py, class LockableDict: a string-keyed ordered
// dictionary that refuses every change once its content has been locked
// (which the engine does after writing it into a file).
module LockableDicts {
  import opened PyErrors
  import opened PyValues
  import opened OrderedDicts

  /** The entries of a LockableDict and its `_is_locked` flag. */
  datatype Lockable<V> = Lockable(entries: ODict<seq<byte>, V>, locked: bool)

  /** A LockableDict as Python builds it: its keys are distinct. */
  ghost predicate Valid<V>(d: Lockable<V>)
  {
    Distinct(d.entries)
  }

  /** `_stop_if_locked()` and then the change e of the entries. */
  function Guarded<V>(d: Lockable<V>, e: Result<ODict<seq<byte>, V>>): (r: Result<Lockable<V>>)
    ensures d.locked ==> r == Err(TypeError)
    ensures !d.locked && e.Err? ==> r == Err(e.error)
    ensures !d.locked && e.Ok? ==> r == Ok(Lockable(e.value, false))
  {
    if d.locked then Err(TypeError)
    else
      var es :- e;
      Ok(d.(entries := es))
  }

  /** `d[k] = v` as the subclasses define it: refused when locked. */
  function AfterSetItem<V>(d: Lockable<V>, k: seq<byte>, v: V): (r: Result<Lockable<V>>)
  {
    Guarded(d, Ok(Set(d.entries, k, v)))
  }

  /** `del d[k]` */
  function AfterDelItem<V>(d: Lockable<V>, k: seq<byte>): (r: Result<Lockable<V>>)
  {
    Guarded(d, Delete(d.entries, k))
  }

  /** `d.pop(k)`: as `del d[k]`; the removed value is not returned. */
  function AfterPop<V>(d: Lockable<V>, k: seq<byte>): (r: Result<Lockable<V>>)
  {
    Guarded(d, Delete(d.entries, k))
  }

  /** `d.popitem(last)`: the removed entry is not returned. */
  function AfterPopItem<V>(d: Lockable<V>, last: bool): (r: Result<Lockable<V>>)
  {
    var p := OrderedDicts.PopItem(d.entries, last);
    Guarded(d, if p.Ok? then Ok(p.value.1) else Err(p.error))
  }

  /** `d.clear()` */
  function AfterClear<V>(d: Lockable<V>): (r: Result<Lockable<V>>)
  {
    Guarded(d, Ok([]))
  }

  /** `d.move_to_end(k, last)` */
  function AfterMoveToEnd<V>(d: Lockable<V>, k: seq<byte>, last: bool): (r: Result<Lockable<V>>)
  {
    Guarded(d, OrderedDicts.MoveToEnd(d.entries, k, last))
  }

  /** `copy.copy(d)` and `d.copy()`: the same entries and the same lock. */
  function Copied<V>(d: Lockable<V>): (r: Lockable<V>)
  {
    d
  }

  /** `copy.deepcopy(d)`: the same entries in a new, unlocked dictionary. */
  function DeepCopied<V>(d: Lockable<V>): (r: Lockable<V>)
  {
    d.(locked := false)
  }

  /** Once locked, every mutator fails with TypeError, whatever its arguments. */
  lemma LockedRefusesChanges<V>(d: Lockable<V>, k: seq<byte>, v: V, last: bool)
    requires d.locked
    ensures AfterSetItem(d, k, v) == Err(TypeError) && AfterDelItem(d, k) == Err(TypeError)
    ensures AfterPop(d, k) == Err(TypeError) && AfterPopItem(d, last) == Err(TypeError)
    ensures AfterClear(d) == Err(TypeError) && AfterMoveToEnd(d, k, last) == Err(TypeError)
  {
  }

  /** Setting an item in an unlocked dictionary succeeds and keeps its keys distinct. */
  lemma SetItemKeepsValid<V>(d: Lockable<V>, k: seq<byte>, v: V)
    requires Valid(d) && !d.locked
    ensures AfterSetItem(d, k, v).Ok? && Valid(AfterSetItem(d, k, v).value)
    ensures Get(AfterSetItem(d, k, v).value.entries, k) == Some(v)
  {
    SetKeepsDistinct(d.entries, k, v);
    GetAfterSet(d.entries, k, v, k);
  }

  /** Deleting from an unlocked dictionary fails only for a missing key, and removes exactly that key. */
  lemma DelItemKeepsValid<V>(d: Lockable<V>, k: seq<byte>)
    requires Valid(d) && !d.locked
    ensures AfterDelItem(d, k).Ok? <==> HasKey(d.entries, k)
    ensures AfterDelItem(d, k).Err? ==> AfterDelItem(d, k).error == KeyError
    ensures AfterDelItem(d, k).Ok? ==> Valid(AfterDelItem(d, k).value) && !HasKey(AfterDelItem(d, k).value.entries, k)
    ensures AfterDelItem(d, k).Ok? ==> |AfterDelItem(d, k).value.entries| == |d.entries| - 1
  {
    if HasKey(d.entries, k) {
      var i := IndexOf(d.entries, k);
      var e := d.entries;
      var rest := e[..i] + e[i + 1..];
      assert forall a :: 0 <= a < |rest| ==> rest[a] == if a < i then e[a] else e[a + 1];
      assert !HasKey(rest, k) by {
        forall a | 0 <= a < |rest|
          ensures rest[a].0 != k
        {
          if a < i {
            assert e[a].0 != e[i].0;
          } else {
            assert e[i].0 != e[a + 1].0;
          }
        }
      }
    }
  }

  /** popitem on an unlocked dictionary fails only when it is empty, and drops one entry. */
  lemma PopItemKeepsValid<V>(d: Lockable<V>, last: bool)
    requires Valid(d) && !d.locked
    ensures AfterPopItem(d, last).Ok? <==> d.entries != []
    ensures AfterPopItem(d, last).Err? ==> AfterPopItem(d, last).error == KeyError
    ensures AfterPopItem(d, last).Ok? ==> Valid(AfterPopItem(d, last).value)
    ensures AfterPopItem(d, last).Ok? ==> |AfterPopItem(d, last).value.entries| == |d.entries| - 1
  {
  }

  /** move_to_end on an unlocked dictionary fails only for a missing key and permutes the entries. */
  lemma MoveToEndKeepsValid<V>(d: Lockable<V>, k: seq<byte>, last: bool)
    requires Valid(d) && !d.locked
    ensures AfterMoveToEnd(d, k, last).Ok? <==> HasKey(d.entries, k)
    ensures AfterMoveToEnd(d, k, last).Err? ==> AfterMoveToEnd(d, k, last).error == KeyError
    ensures AfterMoveToEnd(d, k, last).Ok? ==> Valid(AfterMoveToEnd(d, k, last).value)
    ensures AfterMoveToEnd(d, k, last).Ok? ==> multiset(AfterMoveToEnd(d, k, last).value.entries) == multiset(d.entries)
    ensures AfterMoveToEnd(d, k, last).Ok? ==>
      var e := AfterMoveToEnd(d, k, last).value.entries;
      (if last then e[|e| - 1] else e[0]).0 == k
  {
    if HasKey(d.entries, k) {
      MoveToEndKeepsEntries(d.entries, k, last);
      MoveKeepsDistinct(d.entries, IndexOf(d.entries, k), last);
    }
  }

  /** Moving one entry to either end keeps the keys distinct. */
  lemma MoveKeepsDistinct<V>(e: ODict<seq<byte>, V>, i: nat, last: bool)
    requires Distinct(e) && i < |e|
    ensures Distinct(if last then e[..i] + e[i + 1..] + [e[i]] else [e[i]] + e[..i] + e[i + 1..])
  {
    if last {
      MoveLastDistinct(e, i);
    } else {
      MoveFirstDistinct(e, i);
    }
  }

  lemma MoveLastDistinct<V>(e: ODict<seq<byte>, V>, i: nat)
    requires Distinct(e) && i < |e|
    ensures Distinct(e[..i] + e[i + 1..] + [e[i]])
  {
    var m := e[..i] + e[i + 1..] + [e[i]];
    forall a | 0 <= a < |m|
      ensures m[a] == e[if a < i then a else if a < |e| - 1 then a + 1 else i]
    {
    }
  }

  lemma MoveFirstDistinct<V>(e: ODict<seq<byte>, V>, i: nat)
    requires Distinct(e) && i < |e|
    ensures Distinct([e[i]] + e[..i] + e[i + 1..])
  {
    var m := [e[i]] + e[..i] + e[i + 1..];
    forall a | 0 <= a < |m|
      ensures m[a] == e[if a == 0 then i else if a <= i then a - 1 else a]
    {
    }
  }

  /** A LockableDict object. */
  class LockableDict<V> {
    var entries: ODict<seq<byte>, V>
    var locked: bool

    function State(): Lockable<V>
      reads this
    {
      Lockable(entries, locked)
    }

    /** `LockableDict(seq)`: unlocked, holding the entries of seq. */
    constructor (init: ODict<seq<byte>, V>)
      ensures State() == Lockable(init, false)
    {
      entries := init;
      locked := false;
    }

    /** Apply the outcome of one of the mutator functions. */
    method Apply(r: Result<Lockable<V>>) returns (o: Outcome)
      modifies this
      ensures r.Ok? ==> o == Pass && State() == r.value
      ensures r.Err? ==> o == Fail(r.error) && State() == old(State())
    {
      if r.Err? {
        return Fail(r.error);
      }
      entries := r.value.entries;
      locked := r.value.locked;
      o := Pass;
    }

    method SetItem(k: seq<byte>, v: V) returns (o: Outcome)
      modifies this
      ensures var r := AfterSetItem(old(State()), k, v);
        (r.Ok? ==> o == Pass && State() == r.value) && (r.Err? ==> o == Fail(r.error) && State() == old(State()))
    {
      if locked {
        return Fail(TypeError);
      }
      entries := Set(entries, k, v);
      o := Pass;
    }

    method DelItem(k: seq<byte>) returns (o: Outcome)
      modifies this
      ensures var r := AfterDelItem(old(State()), k);
        (r.Ok? ==> o == Pass && State() == r.value) && (r.Err? ==> o == Fail(r.error) && State() == old(State()))
    {
      o := Apply(AfterDelItem(State(), k));
    }

    method Pop(k: seq<byte>) returns (o: Outcome)
      modifies this
      ensures var r := AfterPop(old(State()), k);
        (r.Ok? ==> o == Pass && State() == r.value) && (r.Err? ==> o == Fail(r.error) && State() == old(State()))
    {
      o := Apply(AfterPop(State(), k));
    }

    method PopItem(last: bool) returns (o: Outcome)
      modifies this
      ensures var r := AfterPopItem(old(State()), last);
        (r.Ok? ==> o == Pass && State() == r.value) && (r.Err? ==> o == Fail(r.error) && State() == old(State()))
    {
      o := Apply(AfterPopItem(State(), last));
    }

    method Clear() returns (o: Outcome)
      modifies this
      ensures var r := AfterClear(old(State()));
        (r.Ok? ==> o == Pass && State() == r.value) && (r.Err? ==> o == Fail(r.error) && State() == old(State()))
    {
      if locked {
        return Fail(TypeError);
      }
      entries := [];
      o := Pass;
    }

    method MoveToEnd(k: seq<byte>, last: bool) returns (o: Outcome)
      modifies this
      ensures var r := AfterMoveToEnd(old(State()), k, last);
        (r.Ok? ==> o == Pass && State() == r.value) && (r.Err? ==> o == Fail(r.error) && State() == old(State()))
    {
      o := Apply(AfterMoveToEnd(State(), k, last));
    }

    /** `lock_content()` */
    method LockContent()
      modifies this
      ensures State() == old(State()).(locked := true)
    {
      locked := true;
    }

    /** `copy()` and `__copy__()`: a new dictionary with the same entries and lock. */
    method Copy() returns (c: LockableDict<V>)
      ensures fresh(c) && c.State() == Copied(State())
    {
      c := new LockableDict(entries);
      c.locked := locked;
    }

    /** `__deepcopy__()`: a new, unlocked dictionary with the same entries. */
    method DeepCopy() returns (c: LockableDict<V>)
      ensures fresh(c) && c.State() == DeepCopied(State())
    {
      c := new LockableDict(entries);
    }
  }
}
