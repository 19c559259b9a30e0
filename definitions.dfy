// trsfile/parametermap.py, class TraceParameterDefinitionMap: where each
// parameter of a trace sits in the trace's data block, how definitions are
// appended or inserted, and the byte codec of the map.
module TraceParameterDefinitionMaps {
  import opened PyErrors
  import opened PyValues
  import opened Utils
  import opened OrderedDicts
  import opened TraceParameters
  import opened LockableDicts
  import opened EntryStreams
  import StdTrace = StandardTraceParameters
  import SetMaps = TraceSetParameterMaps
  import Registries

  /** A TraceParameterDefinitionMap: a LockableDict of definitions. */
  type DefinitionMap = Lockable<Definition>

  type Definitions = ODict<seq<byte>, Definition>

  // ---------------------------------------------------------------------
  // get_total_size

  /** Every definition reserves a non-negative number of elements. */
  ghost predicate NonNegative(es: Definitions)
  {
    forall k :: 0 <= k < |es| ==> es[k].1.length >= 0
  }

  /** `get_total_size()`: the bytes all definitions reserve together. */
  function TotalSize(es: Definitions): (r: int)
    ensures NonNegative(es) ==> r >= 0
  {
    if es == [] then 0
    else
      var front := es[..|es| - 1];
      assert NonNegative(es) ==> NonNegative(front) by {
        assert forall k :: 0 <= k < |front| ==> front[k] == es[k];
      }
      TotalSize(front) + es[|es| - 1].1.Size()
  }

  /** The total size of two maps' definitions one after the other is the sum of their total sizes. */
  lemma {:induction false} TotalSizeConcat(a: Definitions, b: Definitions)
    ensures TotalSize(a + b) == TotalSize(a) + TotalSize(b)
    decreases |b|
  {
    if b == [] {
      assert a + b == a;
    } else {
      var front := b[..|b| - 1];
      assert (a + b)[..|a + b| - 1] == a + front;
      TotalSizeConcat(a, front);
    }
  }

  /** The total size of a map is the first definition's size plus the rest's total size. */
  lemma TotalSizeFirst(es: Definitions)
    requires es != []
    ensures TotalSize(es) == es[0].1.Size() + TotalSize(es[1..])
  {
    TotalSizeConcat([es[0]], es[1..]);
    assert [es[0]] + es[1..] == es;
    TotalSizeOne(es[0]);
  }

  lemma TotalSizeOne(e: (seq<byte>, Definition))
    ensures TotalSize([e]) == e.1.Size()
  {
    var one: Definitions := [e];
    assert one[..0] == [];
  }

  /** The loop of `get_total_size()` over the map object's values. */
  method GetTotalSize(m: LockableDict<Definition>) returns (total: int)
    ensures total == TotalSize(m.entries)
  {
    var es := m.entries;
    total := 0;
    var i := 0;
    while i < |es|
      invariant 0 <= i <= |es|
      invariant total == TotalSize(es[..i])
    {
      assert es[..i + 1][..i] == es[..i];
      total := total + es[i].1.length * es[i].1.paramType.ByteSize();
      i := i + 1;
    }
    assert es[..i] == es;
  }

  /** Each definition starts at base plus the bytes the ones before it reserve. */
  ghost predicate PackedFrom(es: Definitions, base: int)
  {
    forall k :: 0 <= k < |es| ==> es[k].1.offset == base + TotalSize(es[..k])
  }

  /** Each definition starts where the ones before it end: the layout from_trace_parameter_map and append build. */
  ghost predicate Packed(es: Definitions)
  {
    PackedFrom(es, 0)
  }

  // ---------------------------------------------------------------------
  // append and append_std

  /** `append(name, type, size)`: a definition of size elements starting at the current total size. */
  function Append(m: DefinitionMap, name: seq<byte>, t: ParameterType, size: int): (r: Result<DefinitionMap>)
  {
    AfterSetItem(m, name, Definition(t, size, TotalSize(m.entries)))
  }

  /**
   * append on a locked map fails with TypeError. On an unlocked map a new
   * name goes last, starting at the old total size; the total size grows
   * by the new definition's bytes and a packed map stays packed.
   */
  lemma AppendGoesLast(m: DefinitionMap, name: seq<byte>, t: ParameterType, size: int)
    ensures m.locked ==> Append(m, name, t, size) == Err(TypeError)
    ensures !m.locked && !HasKey(m.entries, name) ==>
      var es := m.entries + [(name, Definition(t, size, TotalSize(m.entries)))];
      Append(m, name, t, size) == Ok(Lockable(es, false))
      && TotalSize(es) == TotalSize(m.entries) + size * t.ByteSize()
      && (Packed(m.entries) ==> Packed(es))
  {
    var es := m.entries + [(name, Definition(t, size, TotalSize(m.entries)))];
    assert es[..|es| - 1] == m.entries;
    if Packed(m.entries) {
      forall k | 0 <= k < |es|
        ensures es[k].1.offset == TotalSize(es[..k])
      {
        if k < |m.entries| {
          assert es[..k] == m.entries[..k];
        }
      }
    }
  }

  /** `append_std(name, size)`: append with the type of the standard trace parameter that name identifies. */
  function AppendStd(m: DefinitionMap, name: seq<byte>, size: int): (r: Result<DefinitionMap>)
  {
    match StdTrace.FromIdentifier(name)
    case Err(_) => Err(ValueError)
    case Ok(std) => Append(m, name, std.parameterType, size)
  }

  /** append_std with a name no standard trace parameter carries fails with ValueError. */
  lemma AppendStdUnknown(m: DefinitionMap, name: seq<byte>, size: int)
    requires forall j :: 0 <= j < |StdTrace.Members| ==> !Registries.Matches(name, StdTrace.Members[j].Label())
    ensures AppendStd(m, name, size) == Err(ValueError)
  {
  }

  /** append_std of the TVLA set index, under any spelling of its identifier, appends a SHORT definition at the total size. */
  lemma AppendStdTvlaSetIndex(m: DefinitionMap, name: seq<byte>, size: int)
    requires Registries.SameUpToCase(name, StdTrace.TVLA_SET_INDEX.identifier)
    requires !m.locked && !HasKey(m.entries, name)
    ensures AppendStd(m, name, size) == Ok(Lockable(m.entries + [(name, Definition(SHORT, size, TotalSize(m.entries)))], false))
  {
    StdTrace.LookupByIdentifier(name);
  }

  /** The loop-free body of `append`, on the map object. */
  method AppendTo(m: LockableDict<Definition>, name: seq<byte>, t: ParameterType, size: int) returns (o: Outcome)
    modifies m
    ensures var r := Append(old(m.State()), name, t, size);
      (r.Ok? ==> o == Pass && m.State() == r.value) && (r.Err? ==> o == Fail(r.error) && m.State() == old(m.State()))
  {
    var total := GetTotalSize(m);
    o := m.SetItem(name, Definition(t, size, total));
  }

  // ---------------------------------------------------------------------
  // insert and insert_std

  /** What the loop of `insert` has produced so far: the entries seen (shifted where needed), the keys to move back, the insertion offset. */
  datatype Scan = Scan(seen: Definitions, moved: seq<seq<byte>>, offset: int)

  /** One pass of the loop of `insert` over entry e, making room for shift bytes. */
  function ScanStep(s: Scan, e: (seq<byte>, Definition), shift: int): (r: Scan)
  {
    if e.1.offset >= s.offset then
      Scan(s.seen + [(e.0, e.1.(offset := e.1.offset + shift))], s.moved + [e.0], s.offset)
    else if e.1.offset + e.1.Size() > s.offset then
      Scan(s.seen + [e], s.moved, e.1.offset + e.1.Size())
    else
      Scan(s.seen + [e], s.moved, s.offset)
  }

  /** The loop of `insert` over es, from s on. */
  function ScanAll(es: Definitions, s: Scan, shift: int): (r: Scan)
    decreases |es|
  {
    if es == [] then s else ScanAll(es[1..], ScanStep(s, es[0], shift), shift)
  }

  /** The `move_to_end` calls of `insert`, one per key, in order. */
  function MoveAll(d: Definitions, ks: seq<seq<byte>>): (r: Result<Definitions>)
    decreases |ks|
  {
    if ks == [] then Ok(d)
    else
      var d1 :- MoveAll(d, ks[..|ks| - 1]);
      MoveToEnd(d1, ks[|ks| - 1], true)
  }

  /**
   * `insert(name, type, size, offset)`: the definitions at or after the
   * insertion offset move up by the new definition's bytes, an offset
   * inside a definition moves past its end, and the shifted definitions
   * move behind the new one in the order.
   */
  function Insert(m: DefinitionMap, name: seq<byte>, t: ParameterType, size: int, offset: int): (r: Result<DefinitionMap>)
  {
    if m.locked then Err(TypeError)
    else
      var s := ScanAll(m.entries, Scan([], [], offset), size * t.ByteSize());
      var es :- MoveAll(Set(s.seen, name, Definition(t, size, s.offset)), s.moved);
      Ok(Lockable(es, false))
  }

  /** `insert_std(name, size, offset)`: insert with the type of the standard trace parameter that name identifies. */
  function InsertStd(m: DefinitionMap, name: seq<byte>, size: int, offset: int): (r: Result<DefinitionMap>)
  {
    match StdTrace.FromIdentifier(name)
    case Err(_) => Err(ValueError)
    case Ok(std) => Insert(m, name, std.parameterType, size, offset)
  }

  /** insert_std with a name no standard trace parameter carries fails with ValueError. */
  lemma InsertStdUnknown(m: DefinitionMap, name: seq<byte>, size: int, offset: int)
    requires forall j :: 0 <= j < |StdTrace.Members| ==> !Registries.Matches(name, StdTrace.Members[j].Label())
    ensures InsertStd(m, name, size, offset) == Err(ValueError)
  {
  }

  // The layout insert produces, stated independently of its loop.

  /** The insertion offset after looking at d: moved to d's end when d straddles it. */
  function Past(o: int, d: Definition): (r: int)
    ensures r >= o && (r > o ==> d.offset < o < r == d.offset + d.Size())
  {
    if d.offset < o && d.offset + d.Size() > o then d.offset + d.Size() else o
  }

  /** Where insert places the new definition. */
  function FinalOffset(es: Definitions, o: int): (r: int)
    ensures r >= o
    decreases |es|
  {
    if es == [] then o
    else if es[0].1.offset >= o then FinalOffset(es[1..], o)
    else FinalOffset(es[1..], Past(o, es[0].1))
  }

  /** The definitions insert leaves where they are, in their order. */
  function Kept(es: Definitions, o: int): (r: Definitions)
    decreases |es|
  {
    if es == [] then []
    else if es[0].1.offset >= o then Kept(es[1..], o)
    else [es[0]] + Kept(es[1..], Past(o, es[0].1))
  }

  /** The definitions insert moves up by shift bytes, in their order. */
  function Shifted(es: Definitions, o: int, shift: int): (r: Definitions)
    decreases |es|
  {
    if es == [] then []
    else if es[0].1.offset >= o then [(es[0].0, es[0].1.(offset := es[0].1.offset + shift))] + Shifted(es[1..], o, shift)
    else Shifted(es[1..], Past(o, es[0].1), shift)
  }

  /** seen mixes kept and shifted, each in order, and moved lists the keys of shifted in order. */
  ghost predicate Interleaves(seen: Definitions, moved: seq<seq<byte>>, kept: Definitions, shifted: Definitions)
    decreases |seen|
  {
    if seen == [] then moved == [] && kept == [] && shifted == []
    else
      var e := seen[|seen| - 1];
      (shifted != [] && moved != [] && e == shifted[|shifted| - 1] && e.0 == moved[|moved| - 1]
        && Interleaves(seen[..|seen| - 1], moved[..|moved| - 1], kept, shifted[..|shifted| - 1]))
      || (kept != [] && e == kept[|kept| - 1] && Interleaves(seen[..|seen| - 1], moved, kept[..|kept| - 1], shifted))
  }

  /** What interleaves kept and shifted holds exactly their entries. */
  lemma {:induction false} InterleavesEntries(seen: Definitions, moved: seq<seq<byte>>, kept: Definitions, shifted: Definitions)
    requires Interleaves(seen, moved, kept, shifted)
    ensures multiset(seen) == multiset(kept) + multiset(shifted)
    decreases |seen|
  {
    if seen != [] {
      var e := seen[|seen| - 1];
      var front := seen[..|seen| - 1];
      assert seen == front + [e];
      if shifted != [] && moved != [] && e == shifted[|shifted| - 1] && e.0 == moved[|moved| - 1]
        && Interleaves(front, moved[..|moved| - 1], kept, shifted[..|shifted| - 1]) {
        InterleavesEntries(front, moved[..|moved| - 1], kept, shifted[..|shifted| - 1]);
        assert shifted == shifted[..|shifted| - 1] + [e];
      } else {
        InterleavesEntries(front, moved, kept[..|kept| - 1], shifted);
        assert kept == kept[..|kept| - 1] + [e];
      }
    }
  }

  /** No entry of kept carries the key of an entry that comes after all of them in a map with distinct keys. */
  lemma KeyNotKept(seen: Definitions, kept: Definitions, shifted: Definitions, e: (seq<byte>, Definition), rest: Definitions)
    requires multiset(seen) == multiset(kept) + multiset(shifted) && Distinct(seen + [e] + rest)
    ensures forall j :: 0 <= j < |kept| ==> kept[j].0 != e.0
  {
    forall j | 0 <= j < |kept|
      ensures kept[j].0 != e.0
    {
      assert kept[j] in multiset(seen);
      var i :| 0 <= i < |seen| && seen[i] == kept[j];
      assert (seen + [e] + rest)[i] == seen[i] && (seen + [e] + rest)[|seen|] == e;
    }
  }

  /**
   * Moving the keys of shifted to the end, one after the other, puts the
   * entries of kept first, then those of tail, then those of shifted.
   */
  lemma {:induction false} MoveAllOfInterleaved(seen: Definitions, moved: seq<seq<byte>>, kept: Definitions, shifted: Definitions, tail: Definitions)
    requires Interleaves(seen, moved, kept, shifted) && Distinct(seen + tail)
    ensures MoveAll(seen + tail, moved) == Ok(kept + tail + shifted)
    decreases |seen|, 1
  {
    if seen == [] {
      assert seen + tail == kept + tail + shifted;
    } else {
      var e := seen[|seen| - 1];
      if shifted != [] && moved != [] && e == shifted[|shifted| - 1] && e.0 == moved[|moved| - 1]
        && Interleaves(seen[..|seen| - 1], moved[..|moved| - 1], kept, shifted[..|shifted| - 1]) {
        MoveAllLastShifted(seen, moved, kept, shifted, tail);
      } else {
        MoveAllLastKept(seen, moved, kept, shifted, tail);
      }
    }
  }

  /** MoveAllOfInterleaved when the last entry seen was shifted: its key is the last one moved. */
  lemma {:induction false} MoveAllLastShifted(seen: Definitions, moved: seq<seq<byte>>, kept: Definitions, shifted: Definitions, tail: Definitions)
    requires seen != [] && shifted != [] && moved != [] && Distinct(seen + tail)
    requires seen[|seen| - 1] == shifted[|shifted| - 1] && seen[|seen| - 1].0 == moved[|moved| - 1]
    requires Interleaves(seen[..|seen| - 1], moved[..|moved| - 1], kept, shifted[..|shifted| - 1])
    ensures MoveAll(seen + tail, moved) == Ok(kept + tail + shifted)
    decreases |seen|, 0
  {
    var e := seen[|seen| - 1];
    var front := seen[..|seen| - 1];
    var sh := shifted[..|shifted| - 1];
    var mv := moved[..|moved| - 1];
    assert front + ([e] + tail) == seen + tail;
    MoveAllOfInterleaved(front, mv, kept, sh, [e] + tail);
    InterleavesEntries(front, mv, kept, sh);
    assert front + [e] + tail == seen + tail;
    KeyNotKept(front, kept, sh, e, tail);
    MoveOneBack(kept, e, tail, sh);
    var d := front + ([e] + tail);
    assert moved[..|moved| - 1] == mv && moved[|moved| - 1] == e.0;
    assert MoveAll(d, moved) == MoveToEnd(kept + ([e] + tail) + sh, e.0, true);
    assert kept + tail + (sh + [e]) == kept + tail + shifted;
  }

  /** MoveAllOfInterleaved when the last entry seen was kept where it is. */
  lemma {:induction false} MoveAllLastKept(seen: Definitions, moved: seq<seq<byte>>, kept: Definitions, shifted: Definitions, tail: Definitions)
    requires seen != [] && Interleaves(seen, moved, kept, shifted) && Distinct(seen + tail)
    requires !(shifted != [] && moved != [] && seen[|seen| - 1] == shifted[|shifted| - 1] && seen[|seen| - 1].0 == moved[|moved| - 1]
               && Interleaves(seen[..|seen| - 1], moved[..|moved| - 1], kept, shifted[..|shifted| - 1]))
    ensures MoveAll(seen + tail, moved) == Ok(kept + tail + shifted)
    decreases |seen|, 0
  {
    var e := seen[|seen| - 1];
    var front := seen[..|seen| - 1];
    assert kept != [] && e == kept[|kept| - 1];
    var kp := kept[..|kept| - 1];
    assert Interleaves(front, moved, kp, shifted);
    assert front + ([e] + tail) == seen + tail;
    MoveAllOfInterleaved(front, moved, kp, shifted, [e] + tail);
    assert kept == kp + [e];
    assert kp + ([e] + tail) + shifted == kept + tail + shifted;
  }

  /** Moving e, whose key no entry before it carries, to the end. */
  lemma MoveOneBack(kept: Definitions, e: (seq<byte>, Definition), tail: Definitions, sh: Definitions)
    requires forall j :: 0 <= j < |kept| ==> kept[j].0 != e.0
    ensures MoveToEnd(kept + ([e] + tail) + sh, e.0, true) == Ok(kept + tail + (sh + [e]))
  {
    var x := kept + ([e] + tail) + sh;
    assert x[|kept|] == e;
    assert HasKey(x, e.0);
    assert forall j :: 0 <= j < |kept| ==> x[j].0 != e.0;
    var i := IndexOf(x, e.0);
    assert i == |kept|;
    assert x[..i] == kept && x[i + 1..] == tail + sh;
    assert x[..i] + x[i + 1..] + [x[i]] == kept + tail + (sh + [e]);
  }

  /** The loop of insert interleaves the kept and the shifted definitions, and ends at the final offset. */
  lemma {:induction false} ScanInterleaves(es: Definitions, s: Scan, shift: int, kept: Definitions, shifted: Definitions)
    requires Interleaves(s.seen, s.moved, kept, shifted)
    ensures var r := ScanAll(es, s, shift);
      Interleaves(r.seen, r.moved, kept + Kept(es, s.offset), shifted + Shifted(es, s.offset, shift))
      && r.offset == FinalOffset(es, s.offset)
    decreases |es|, 1
  {
    if es == [] {
      assert kept + [] == kept && shifted + [] == shifted;
    } else if es[0].1.offset >= s.offset {
      ScanShiftedFirst(es, s, shift, kept, shifted);
    } else {
      ScanKeptFirst(es, s, shift, kept, shifted);
    }
  }

  /** ScanInterleaves when the first definition is at or after the offset: it is shifted. */
  lemma {:induction false} ScanShiftedFirst(es: Definitions, s: Scan, shift: int, kept: Definitions, shifted: Definitions)
    requires es != [] && es[0].1.offset >= s.offset
    requires Interleaves(s.seen, s.moved, kept, shifted)
    ensures var r := ScanAll(es, s, shift);
      Interleaves(r.seen, r.moved, kept + Kept(es, s.offset), shifted + Shifted(es, s.offset, shift))
      && r.offset == FinalOffset(es, s.offset)
    decreases |es|, 0
  {
    var e := es[0];
    var s1 := ScanStep(s, e, shift);
    var e' := (e.0, e.1.(offset := e.1.offset + shift));
    assert s1 == Scan(s.seen + [e'], s.moved + [e.0], s.offset);
    assert s1.seen[..|s1.seen| - 1] == s.seen;
    assert s1.moved[..|s1.moved| - 1] == s.moved;
    assert (shifted + [e'])[..|shifted|] == shifted;
    assert Interleaves(s1.seen, s1.moved, kept, shifted + [e']);
    ScanInterleaves(es[1..], s1, shift, kept, shifted + [e']);
    assert Kept(es, s.offset) == Kept(es[1..], s.offset);
    assert shifted + [e'] + Shifted(es[1..], s.offset, shift) == shifted + Shifted(es, s.offset, shift);
  }

  /** ScanInterleaves when the first definition lies before the offset: it is kept, and the offset may move past it. */
  lemma {:induction false} ScanKeptFirst(es: Definitions, s: Scan, shift: int, kept: Definitions, shifted: Definitions)
    requires es != [] && es[0].1.offset < s.offset
    requires Interleaves(s.seen, s.moved, kept, shifted)
    ensures var r := ScanAll(es, s, shift);
      Interleaves(r.seen, r.moved, kept + Kept(es, s.offset), shifted + Shifted(es, s.offset, shift))
      && r.offset == FinalOffset(es, s.offset)
    decreases |es|, 0
  {
    var e := es[0];
    var s1 := ScanStep(s, e, shift);
    assert s1.seen == s.seen + [e] && s1.moved == s.moved && s1.offset == Past(s.offset, e.1);
    assert s1.seen[..|s1.seen| - 1] == s.seen;
    assert (kept + [e])[..|kept|] == kept;
    assert Interleaves(s1.seen, s1.moved, kept + [e], shifted);
    ScanInterleaves(es[1..], s1, shift, kept + [e], shifted);
    assert Shifted(es, s.offset, shift) == Shifted(es[1..], s1.offset, shift);
    assert kept + [e] + Kept(es[1..], s1.offset) == kept + Kept(es, s.offset);
  }

  /** The loop of insert sees every key of es once, in order. */
  lemma {:induction false} ScanKeys(es: Definitions, s: Scan, shift: int)
    ensures var r := ScanAll(es, s, shift);
      |r.seen| == |s.seen| + |es| && r.seen[..|s.seen|] == s.seen
      && forall k :: 0 <= k < |es| ==> r.seen[|s.seen| + k].0 == es[k].0
    decreases |es|
  {
    if es != [] {
      var s1 := ScanStep(s, es[0], shift);
      ScanKeys(es[1..], s1, shift);
      var r := ScanAll(es, s, shift);
      assert r.seen[..|s.seen|] == r.seen[..|s1.seen|][..|s.seen|];
      forall k | 0 <= k < |es|
        ensures r.seen[|s.seen| + k].0 == es[k].0
      {
        if k > 0 {
          assert r.seen[|s1.seen| + (k - 1)].0 == es[1..][k - 1].0;
        } else {
          assert r.seen[..|s1.seen|][|s.seen|] == s1.seen[|s.seen|];
        }
      }
    }
  }

  /** The loop of insert over a map with distinct keys, plus a fresh name, still has distinct keys. */
  lemma ScanDistinct(es: Definitions, offset: int, shift: int, e: (seq<byte>, Definition))
    requires Distinct(es) && !HasKey(es, e.0)
    ensures var r := ScanAll(es, Scan([], [], offset), shift);
      Distinct(r.seen + [e]) && !HasKey(r.seen, e.0)
  {
    var s0 := Scan([], [], offset);
    var r := ScanAll(es, s0, shift);
    ScanKeys(es, s0, shift);
    assert |s0.seen| == 0;
    assert forall k :: 0 <= k < |es| ==> r.seen[k].0 == es[k].0 by {
      forall k | 0 <= k < |es|
        ensures r.seen[k].0 == es[k].0
      {
        assert r.seen[|s0.seen| + k].0 == es[k].0;
      }
    }
    var x := r.seen + [e];
    forall i, j | 0 <= i < j < |x|
      ensures x[i].0 != x[j].0
    {
      assert x[i].0 == es[i].0;
      if j < |es| {
        assert x[j].0 == es[j].0;
      }
    }
    assert !HasKey(r.seen, e.0);
  }

  /**
   * insert on an unlocked map with distinct keys and a new name: the
   * definitions it keeps, then the new one at the final offset, then the
   * shifted ones.
   */
  lemma InsertLayout(m: DefinitionMap, name: seq<byte>, t: ParameterType, size: int, offset: int)
    requires Valid(m) && !m.locked && !HasKey(m.entries, name)
    ensures var shift := size * t.ByteSize();
      Insert(m, name, t, size, offset) == Ok(Lockable(
        Kept(m.entries, offset) + [(name, Definition(t, size, FinalOffset(m.entries, offset)))]
        + Shifted(m.entries, offset, shift), false))
  {
    var shift := size * t.ByteSize();
    var s0 := Scan([], [], offset);
    var s := ScanAll(m.entries, s0, shift);
    var e := (name, Definition(t, size, s.offset));
    assert Interleaves(s0.seen, s0.moved, [], []);
    ScanInterleaves(m.entries, s0, shift, [], []);
    var kept, shifted := Kept(m.entries, offset), Shifted(m.entries, offset, shift);
    assert [] + kept == kept && [] + shifted == shifted;
    assert Interleaves(s.seen, s.moved, kept, shifted);
    ScanDistinct(m.entries, offset, shift, e);
    assert Set(s.seen, name, e.1) == s.seen + [e];
    MoveAllOfInterleaved(s.seen, s.moved, Kept(m.entries, offset), Shifted(m.entries, offset, shift), [e]);
  }

  /** insert on a locked map fails with TypeError. */
  lemma InsertLocked(m: DefinitionMap, name: seq<byte>, t: ParameterType, size: int, offset: int)
    requires m.locked
    ensures Insert(m, name, t, size, offset) == Err(TypeError)
  {
  }

  /** insert keeps or shifts every definition, none twice. */
  lemma {:induction false} KeptShiftedCount(es: Definitions, o: int, shift: int)
    ensures |Kept(es, o)| + |Shifted(es, o, shift)| == |es|
    decreases |es|
  {
    if es != [] {
      KeptShiftedCount(es[1..], if es[0].1.offset >= o then o else Past(o, es[0].1), shift);
    }
  }

  /** Every definition that starts before the requested offset stays where it is. */
  lemma {:induction false} KeptBeforeOffset(es: Definitions, o: int)
    ensures forall k :: 0 <= k < |es| && es[k].1.offset < o ==> es[k] in Kept(es, o)
    decreases |es|
  {
    if es != [] {
      var p := if es[0].1.offset >= o then o else Past(o, es[0].1);
      KeptBeforeOffset(es[1..], p);
      forall k | 1 <= k < |es| && es[k].1.offset < o
        ensures es[k] in Kept(es, o)
      {
        assert es[k] == es[1..][k - 1];
      }
    }
  }

  /** Every kept definition is one of the map's and lies before the place of the new definition. */
  lemma {:induction false} KeptEndsBefore(es: Definitions, o: int)
    ensures forall e :: e in Kept(es, o) ==> e in es && e.1.offset < FinalOffset(es, o) && e.1.offset + e.1.Size() <= FinalOffset(es, o)
    decreases |es|
  {
    if es != [] {
      var d := es[0].1;
      var p := if d.offset >= o then o else Past(o, d);
      KeptEndsBefore(es[1..], p);
      assert forall e :: e in es[1..] ==> e in es;
    }
  }

  /** Every shifted definition is one of the map's that started at or after the requested offset, moved up by shift. */
  lemma {:induction false} ShiftedFromAfter(es: Definitions, o: int, shift: int)
    ensures forall e :: e in Shifted(es, o, shift) ==> e.1.offset - shift >= o && (e.0, e.1.(offset := e.1.offset - shift)) in es
    decreases |es|
  {
    if es != [] {
      var d := es[0].1;
      var p := if d.offset >= o then o else Past(o, d);
      ShiftedFromAfter(es[1..], p, shift);
      assert forall e :: e in es[1..] ==> e in es;
      if d.offset >= o {
        assert (es[0].0, d.(offset := d.offset + shift).(offset := d.offset)) == es[0];
      }
    }
  }

  /** The kept and the shifted definitions reserve the bytes of the whole map. */
  lemma {:induction false} KeptShiftedTotal(es: Definitions, o: int, shift: int)
    ensures TotalSize(Kept(es, o)) + TotalSize(Shifted(es, o, shift)) == TotalSize(es)
    decreases |es|
  {
    if es != [] {
      var d := es[0].1;
      if d.offset >= o {
        var e' := (es[0].0, d.(offset := d.offset + shift));
        var rest := Shifted(es[1..], o, shift);
        assert Kept(es, o) == Kept(es[1..], o);
        assert Shifted(es, o, shift) == [e'] + rest;
        KeptShiftedTotal(es[1..], o, shift);
        TotalSizeConcat([e'], rest);
        TotalSizeOne(e');
      } else {
        var p := Past(o, d);
        var rest := Kept(es[1..], p);
        assert Kept(es, o) == [es[0]] + rest;
        assert Shifted(es, o, shift) == Shifted(es[1..], p, shift);
        KeptShiftedTotal(es[1..], p, shift);
        TotalSizeConcat([es[0]], rest);
        TotalSizeOne(es[0]);
      }
      TotalSizeFirst(es);
    }
  }

  /** insert makes room for exactly the new definition's bytes. */
  lemma InsertTotalSize(m: DefinitionMap, name: seq<byte>, t: ParameterType, size: int, offset: int)
    requires Valid(m) && !m.locked && !HasKey(m.entries, name)
    ensures Insert(m, name, t, size, offset).Ok?
    ensures TotalSize(Insert(m, name, t, size, offset).value.entries) == TotalSize(m.entries) + size * t.ByteSize()
  {
    var shift := size * t.ByteSize();
    InsertLayout(m, name, t, size, offset);
    KeptShiftedTotal(m.entries, offset, shift);
    var k := Kept(m.entries, offset);
    var n := [(name, Definition(t, size, FinalOffset(m.entries, offset)))];
    TotalSizeConcat(k + n, Shifted(m.entries, offset, shift));
    TotalSizeConcat(k, n);
    assert n[..0] == [];
  }

  /** es with every offset moved up by shift. */
  function ShiftAll(es: Definitions, shift: int): (r: Definitions)
    ensures |r| == |es|
    ensures forall k :: 0 <= k < |es| ==> r[k].0 == es[k].0 && r[k].1 == es[k].1.(offset := es[k].1.offset + shift)
  {
    seq(|es|, k requires 0 <= k < |es| => (es[k].0, es[k].1.(offset := es[k].1.offset + shift)))
  }

  /** Moving offsets does not change the bytes reserved. */
  lemma {:induction false} ShiftAllTotalSize(es: Definitions, shift: int)
    ensures TotalSize(ShiftAll(es, shift)) == TotalSize(es)
    decreases |es|
  {
    if es != [] {
      var front := es[..|es| - 1];
      ShiftAllTotalSize(front, shift);
      assert ShiftAll(es, shift)[..|es| - 1] == ShiftAll(front, shift);
    }
  }

  /** The tail of a map packed from base is packed from where its first definition ends. */
  lemma PackedTail(es: Definitions, base: int)
    requires es != [] && PackedFrom(es, base)
    ensures PackedFrom(es[1..], base + es[0].1.Size())
  {
    forall k | 0 <= k < |es| - 1
      ensures es[1..][k].1.offset == base + es[0].1.Size() + TotalSize(es[1..][..k])
    {
      TotalSizeFirst(es[..k + 1]);
      assert es[..k + 1][1..] == es[1..][..k];
    }
  }

  /** A map packed from base starts at base, and its tail is packed from where its first definition ends. */
  lemma PackedFirst(es: Definitions, base: int)
    requires es != [] && PackedFrom(es, base) && NonNegative(es)
    ensures es[0].1.offset == base && es[0].1.Size() >= 0
    ensures PackedFrom(es[1..], base + es[0].1.Size()) && NonNegative(es[1..])
  {
    assert es[..0] == [];
    PackedTail(es, base);
    assert forall k :: 0 <= k < |es| - 1 ==> es[1..][k] == es[k + 1];
  }

  /** Shifting a non-empty map is shifting its first definition, then the rest. */
  lemma ShiftAllFirst(es: Definitions, shift: int)
    requires es != []
    ensures ShiftAll(es, shift) == [(es[0].0, es[0].1.(offset := es[0].1.offset + shift))] + ShiftAll(es[1..], shift)
  {
  }

  /** When every definition starts at or after the requested offset, insert shifts them all and places the new one there. */
  lemma {:induction false} AllShifted(es: Definitions, base: int, o: int, shift: int)
    requires PackedFrom(es, base) && NonNegative(es) && o <= base
    ensures Kept(es, o) == [] && Shifted(es, o, shift) == ShiftAll(es, shift) && FinalOffset(es, o) == o
    decreases |es|
  {
    if es != [] {
      PackedFirst(es, base);
      AllShifted(es[1..], base + es[0].1.Size(), o, shift);
      ShiftAllFirst(es, shift);
    }
  }

  /**
   * On a map packed from base, with the requested offset within the map's
   * bytes, insert keeps a prefix of the definitions, places the new one
   * where that prefix ends and shifts the rest.
   */
  lemma {:induction false} PackedScan(es: Definitions, base: int, o: int, shift: int) returns (j: nat)
    requires PackedFrom(es, base) && NonNegative(es) && base <= o <= base + TotalSize(es)
    ensures j <= |es| && Kept(es, o) == es[..j] && Shifted(es, o, shift) == ShiftAll(es[j..], shift)
    ensures FinalOffset(es, o) == base + TotalSize(es[..j])
    decreases |es|, 1
  {
    if o == base {
      AllShifted(es, base, o, shift);
      j := 0;
      assert es[..0] == [] && es[0..] == es;
    } else {
      j := PackedScanPast(es, base, o, shift);
    }
  }

  /** PackedScan when the offset lies past the first definition's start: that one is kept. */
  lemma {:induction false} PackedScanPast(es: Definitions, base: int, o: int, shift: int) returns (j: nat)
    requires PackedFrom(es, base) && NonNegative(es) && base < o <= base + TotalSize(es)
    ensures j <= |es| && Kept(es, o) == es[..j] && Shifted(es, o, shift) == ShiftAll(es[j..], shift)
    ensures FinalOffset(es, o) == base + TotalSize(es[..j])
    decreases |es|, 0
  {
    assert es != [];
    PackedFirst(es, base);
    TotalSizeFirst(es);
    var d := es[0].1;
    var o' := Past(o, d);
    assert d.offset < o;
    assert Kept(es, o) == [es[0]] + Kept(es[1..], o');
    assert Shifted(es, o, shift) == Shifted(es[1..], o', shift);
    assert FinalOffset(es, o) == FinalOffset(es[1..], o');
    var j' := PackedScan(es[1..], base + d.Size(), o', shift);
    j := j' + 1;
    PrefixStep(es, j');
  }

  /** The first j' + 1 definitions are the first one, then j' of the rest. */
  lemma PrefixStep(es: Definitions, j': nat)
    requires j' < |es|
    ensures es[..j' + 1] == [es[0]] + es[1..][..j'] && es[1..][j'..] == es[j' + 1..]
    ensures TotalSize(es[..j' + 1]) == es[0].1.Size() + TotalSize(es[1..][..j'])
  {
    TotalSizeFirst(es[..j' + 1]);
    assert es[..j' + 1][1..] == es[1..][..j'];
  }

  /**
   * insert into a packed map at an offset within its bytes keeps it
   * packed: the new definition goes where the kept prefix ends, and the
   * rest move up by its bytes, behind it.
   */
  lemma InsertKeepsPacked(m: DefinitionMap, name: seq<byte>, t: ParameterType, size: int, offset: int) returns (j: nat)
    requires Valid(m) && !m.locked && !HasKey(m.entries, name)
    requires Packed(m.entries) && NonNegative(m.entries) && 0 <= offset <= TotalSize(m.entries)
    ensures j <= |m.entries|
    ensures Insert(m, name, t, size, offset) == Ok(Lockable(
      m.entries[..j] + [(name, Definition(t, size, TotalSize(m.entries[..j])))] + ShiftAll(m.entries[j..], size * t.ByteSize()), false))
    ensures Packed(Insert(m, name, t, size, offset).value.entries)
  {
    var es, shift := m.entries, size * t.ByteSize();
    InsertLayout(m, name, t, size, offset);
    j := PackedScan(es, 0, offset, shift);
    var e := (name, Definition(t, size, TotalSize(es[..j])));
    var r := es[..j] + [e] + ShiftAll(es[j..], shift);
    forall k | 0 <= k < |r|
      ensures r[k].1.offset == TotalSize(r[..k])
    {
      PackedAt(es, j, e, shift, k);
    }
  }

  /** The offsets in insert's result on a packed map. */
  lemma PackedAt(es: Definitions, j: nat, e: (seq<byte>, Definition), shift: int, k: nat)
    requires Packed(es) && j <= |es| && e.1.offset == TotalSize(es[..j]) && shift == e.1.Size()
    requires k < |es| + 1
    ensures var r := es[..j] + [e] + ShiftAll(es[j..], shift);
      r[k].1.offset == TotalSize(r[..k])
  {
    var r := es[..j] + [e] + ShiftAll(es[j..], shift);
    if k < j {
      assert r[..k] == es[..k] && r[k] == es[k];
    } else if k == j {
      assert r[..k] == es[..j] && r[k] == e;
    } else {
      var i := k - j - 1;
      var a, b := es[..j] + [e], ShiftAll(es[j..], shift);
      assert r == a + b && k == |a| + i;
      assert r[..k] == a + b[..i];
      ShiftAllPrefix(es[j..], i, shift);
      assert es[j..][..i] == es[j..j + i];
      assert r[k] == ShiftAll(es[j..], shift)[i];
      assert es[j + i] == es[j..][i];
      ShiftedAt(es, j, i, e, shift);
    }
  }

  /** Shifting commutes with taking a prefix. */
  lemma ShiftAllPrefix(xs: Definitions, i: nat, shift: int)
    requires i <= |xs|
    ensures ShiftAll(xs, shift)[..i] == ShiftAll(xs[..i], shift)
  {
  }

  /** A definition that insert shifts sits, shifted, where the kept ones, the new one and the shifted ones before it end. */
  lemma ShiftedAt(es: Definitions, j: nat, i: nat, e: (seq<byte>, Definition), shift: int)
    requires j + i < |es| && es[j + i].1.offset == TotalSize(es[..j + i])
    requires e.1.offset == TotalSize(es[..j]) && shift == e.1.Size()
    ensures es[j + i].1.offset + shift == TotalSize(es[..j] + [e] + ShiftAll(es[j..j + i], shift))
  {
    var a, b := es[..j], es[j..j + i];
    var sb := ShiftAll(b, shift);
    assert a + b == es[..j + i];
    TotalSizeConcat(a, b);
    ShiftAllTotalSize(b, shift);
    TotalSizeOne(e);
    TotalSizeConcat(a, [e]);
    TotalSizeConcat(a + [e], sb);
  }

  /** Every key the loop of insert marks to move back is a key of the entries it has seen. */
  lemma {:induction false} ScanMovedKeys(es: Definitions, s: Scan, shift: int)
    requires forall j :: 0 <= j < |s.moved| ==> HasKey(s.seen, s.moved[j])
    ensures var r := ScanAll(es, s, shift);
      forall j :: 0 <= j < |r.moved| ==> HasKey(r.seen, r.moved[j])
    decreases |es|
  {
    if es != [] {
      var s1 := ScanStep(s, es[0], shift);
      assert s1.moved == s.moved || s1.moved == s.moved + [es[0].0];
      assert |s1.seen| == |s.seen| + 1 && s1.seen[..|s.seen|] == s.seen && s1.seen[|s.seen|].0 == es[0].0;
      forall j | 0 <= j < |s1.moved|
        ensures HasKey(s1.seen, s1.moved[j])
      {
        if j < |s.moved| {
          var i :| 0 <= i < |s.seen| && s.seen[i].0 == s.moved[j];
          assert s1.seen[i] == s1.seen[..|s.seen|][i];
        } else {
          assert s1.seen[|s.seen|].0 == s1.moved[j];
        }
      }
      ScanMovedKeys(es[1..], s1, shift);
      assert ScanAll(es, s, shift) == ScanAll(es[1..], s1, shift);
    }
  }

  /** Moving keys of d to the end succeeds and keeps the keys of d. */
  lemma {:induction false} MoveAllKeys(d: Definitions, ks: seq<seq<byte>>)
    requires forall j :: 0 <= j < |ks| ==> HasKey(d, ks[j])
    ensures MoveAll(d, ks).Ok?
    ensures forall k :: HasKey(MoveAll(d, ks).value, k) <==> HasKey(d, k)
    decreases |ks|
  {
    if ks != [] {
      var front := ks[..|ks| - 1];
      MoveAllKeys(d, front);
      var d1 := MoveAll(d, front).value;
      var k := ks[|ks| - 1];
      assert HasKey(d1, k);
      forall k' | true
        ensures HasKey(MoveToEnd(d1, k, true).value, k') <==> HasKey(d, k')
      {
        MoveToEndKeepsKeys(d1, k, true, k');
      }
    }
  }

  lemma MovedKeySeen(es: Definitions, offset: int, shift: int, j: nat)
    ensures var s := ScanAll(es, Scan([], [], offset), shift);
      j < |s.moved| ==> HasKey(s.seen, s.moved[j])
  {
    ScanMovedKeys(es, Scan([], [], offset), shift);
  }

  /** insert fails only on a locked map: every key it moves back is in the map. */
  lemma InsertSucceeds(m: DefinitionMap, name: seq<byte>, t: ParameterType, size: int, offset: int)
    ensures Insert(m, name, t, size, offset).Ok? <==> !m.locked
  {
    if !m.locked {
      var s0, shift := Scan([], [], offset), size * t.ByteSize();
      var s := ScanAll(m.entries, s0, shift);
      var d := Set(s.seen, name, Definition(t, size, s.offset));
      forall j | 0 <= j < |s.moved|
        ensures HasKey(d, s.moved[j])
      {
        MovedKeySeen(m.entries, offset, shift, j);
        var i :| 0 <= i < |s.seen| && s.seen[i].0 == s.moved[j];
        assert d[i].0 == s.seen[i].0;
      }
      MoveAllKeys(d, s.moved);
    }
  }

  /** A prefix of keys that all move succeeds too. */
  lemma {:induction false} MoveAllPrefix(d: Definitions, ks: seq<seq<byte>>, j: nat)
    requires j <= |ks| && MoveAll(d, ks).Ok?
    ensures MoveAll(d, ks[..j]).Ok?
    decreases |ks|
  {
    if j < |ks| {
      var front := ks[..|ks| - 1];
      assert ks[..j] == front[..j];
      MoveAllPrefix(d, front, j);
    } else {
      assert ks[..j] == ks;
    }
  }

  /**
   * The loops of `insert` on the map object: the definitions at or after
   * the insertion offset are shifted in place, the new definition is
   * stored, and the shifted ones are moved to the end.
   */
  method InsertInto(m: LockableDict<Definition>, name: seq<byte>, t: ParameterType, size: int, offset: int) returns (o: Outcome)
    modifies m
    ensures var r := Insert(old(m.State()), name, t, size, offset);
      (r.Ok? ==> o == Pass && m.State() == r.value) && (r.Err? ==> o == Fail(r.error) && m.State() == old(m.State()))
  {
    if m.locked {
      return Fail(TypeError);
    }
    InsertSucceeds(m.State(), name, t, size, offset);
    var moved, at := ShiftInPlace(m, offset, size * t.ByteSize());
    ghost var placed := Set(m.entries, name, Definition(t, size, at));
    o := m.SetItem(name, Definition(t, size, at));
    MoveBack(m, placed, moved);
    o := Pass;
  }

  /** The first loop of `insert`: shift the definitions at or after the offset, in place, and note their keys. */
  method ShiftInPlace(m: LockableDict<Definition>, offset: int, shift: int) returns (moved: seq<seq<byte>>, at: int)
    modifies m
    ensures m.locked == old(m.locked)
    ensures ScanAll(old(m.entries), Scan([], [], offset), shift) == Scan(m.entries, moved, at)
  {
    ghost var es := m.entries;
    moved := [];
    at := offset;
    var i := 0;
    assert es[0..] == es;
    while i < |m.entries|
      invariant |m.entries| == |es| && 0 <= i <= |es| && m.locked == old(m.locked)
      invariant m.entries[i..] == es[i..]
      invariant ScanAll(es[i..], Scan(m.entries[..i], moved, at), shift) == ScanAll(es, Scan([], [], offset), shift)
    {
      var key, param := m.entries[i].0, m.entries[i].1;
      ScanAdvance(es, i, m.entries[..i], moved, at, shift);
      if param.offset >= at {
        m.entries := m.entries[i := (key, param.(offset := param.offset + shift))];
        moved := moved + [key];
      } else if param.offset + param.length * param.paramType.ByteSize() > at {
        at := param.offset + param.length * param.paramType.ByteSize();
      }
      assert m.entries[..i + 1] == m.entries[..i] + [m.entries[i]];
      assert m.entries[i + 1..] == es[i + 1..];
      i := i + 1;
    }
    assert m.entries[..i] == m.entries && es[i..] == [];
  }

  lemma ScanAdvance(es: Definitions, i: nat, seen: Definitions, moved: seq<seq<byte>>, at: int, shift: int)
    requires i < |es|
    ensures ScanAll(es[i..], Scan(seen, moved, at), shift) == ScanAll(es[i + 1..], ScanStep(Scan(seen, moved, at), es[i], shift), shift)
  {
    assert es[i..][1..] == es[i + 1..];
  }

  /** The second loop of `insert`: move_to_end for each noted key, in order. */
  method MoveBack(m: LockableDict<Definition>, ghost placed: Definitions, moved: seq<seq<byte>>)
    requires !m.locked && m.entries == placed && MoveAll(placed, moved).Ok?
    modifies m
    ensures m.State() == Lockable(MoveAll(placed, moved).value, false)
  {
    var j := 0;
    while j < |moved|
      invariant 0 <= j <= |moved| && !m.locked
      invariant MoveAll(placed, moved[..j]) == Ok(m.entries)
    {
      MoveAllPrefix(placed, moved, j + 1);
      assert moved[..j + 1][..j] == moved[..j];
      var o := m.MoveToEnd(moved[j], true);
      j := j + 1;
    }
    assert moved[..j] == moved;
  }

  // ---------------------------------------------------------------------
  // The byte codec

  /** One entry as `serialize()` writes it: the name as a u16 length and its bytes, then the definition. */
  function SerializeDefEntry(e: (seq<byte>, Definition)): (r: Result<seq<byte>>)
    ensures r.Ok? <==> |e.0| <= SHORT_MAX && SHORT_MIN <= e.1.length <= SHORT_MAX && SHORT_MIN <= e.1.offset <= SHORT_MAX
    ensures r.Ok? ==> r.value == SetMaps.SerializeName(e.0).value + SerializeDefinition(e.1).value && |r.value| == 2 + |e.0| + 5
    ensures r.Err? ==> r.error == StructError
  {
    var n :- SetMaps.SerializeName(e.0);
    var d :- SerializeDefinition(e.1);
    Ok(n + d)
  }

  /** The entries one after the other; struct.error at the first that does not fit. */
  function SerializeDefEntries(es: Definitions): (r: Result<seq<byte>>)
    ensures r.Ok? <==> forall k :: 0 <= k < |es| ==> SerializeDefEntry(es[k]).Ok?
    ensures r.Err? ==> r.error == StructError
  {
    if es == [] then Ok([])
    else
      var front := es[..|es| - 1];
      assert forall k :: 0 <= k < |front| ==> front[k] == es[k];
      var fb :- SerializeDefEntries(front);
      var lb :- SerializeDefEntry(es[|es| - 1]);
      Ok(fb + lb)
  }

  /** `serialize()`: the entry count as a short, then the entries. */
  function SerializeDefMap(m: DefinitionMap): (r: Result<seq<byte>>)
    ensures r.Ok? <==> |m.entries| <= SHORT_MAX && forall k :: 0 <= k < |m.entries| ==> SerializeDefEntry(m.entries[k]).Ok?
    ensures r.Err? ==> r.error == StructError
  {
    var count :- EncodeAsShort(|m.entries|);
    var body :- SerializeDefEntries(m.entries);
    Ok(count + body)
  }

  /** One entry: read_parameter_name, then TraceParameterDefinition.deserialize. */
  function ReadDefEntry(c: Cursor): (r: Result<(Cursor, Item<Definition>)>)
  {
    var (c1, name) := c.ReadParameterName();
    var (c2, d) :- DeserializeDefinition(c1);
    Ok((c2, (name, d)))
  }

  /** The body of `deserialize(raw)`, with read as the way one entry is read: the u16 count, then the entries, into a new unlocked map. */
  function DeserializeDefMapWith(read: ItemReader<Definition>, c: Cursor): (r: Result<(Cursor, DefinitionMap)>)
    ensures r.Ok? ==> !r.value.1.locked && Valid(r.value.1)
  {
    var (c1, n) := c.ReadShort();
    var (c2, es) :- ReadEntries(read, c1, n, []);
    ReadEntriesDistinct(read, c1, n, []);
    Ok((c2, Lockable(es, false)))
  }

  /** `TraceParameterDefinitionMap.deserialize(raw)` */
  function DeserializeDefMap(c: Cursor): (r: Result<(Cursor, DefinitionMap)>)
  {
    DeserializeDefMapWith(ReadDefEntry, c)
  }

  /** A map the codec can carry: distinct names, lengths and offsets not negative. */
  ghost predicate StorableDefs(es: Definitions)
  {
    Distinct(es) && forall k :: 0 <= k < |es| ==> es[k].1.length >= 0 && es[k].1.offset >= 0
  }

  /** Where the five bytes of a definition that fits sit, TraceParameterDefinition.deserialize reads it back. */
  lemma DefinitionAt(d: Definition, b: seq<byte>, data: seq<byte>, pos: nat)
    requires 0 <= d.length && 0 <= d.offset && SerializeDefinition(d) == Ok(b)
    requires pos + |b| <= |data| && data[pos..pos + |b|] == b
    ensures DeserializeDefinition(Cursor(data, pos)) == Ok((Cursor(data, pos + 5), d))
  {
    SplitAt(data, pos, b);
    DefinitionRoundTrip(d, data[..pos], data[pos + |b|..]);
  }

  /** ReadDefEntry reads every storable entry back from its serialized form. */
  lemma DefEntryAt(e: Item<Definition>, b: seq<byte>)
    requires 0 <= e.1.length && 0 <= e.1.offset && SerializeDefEntry(e) == Ok(b)
    ensures EntryAt(ReadDefEntry, e, b)
  {
    forall data: seq<byte>, pos: nat | pos + |b| <= |data| && data[pos..pos + |b|] == b
      ensures ReadDefEntry(Cursor(data, pos)) == Ok((Cursor(data, pos + |b|), e))
    {
      DefEntryReadAt(e, b, data, pos);
    }
  }

  /** ReadDefEntry at one position where the serialized entry sits. */
  lemma DefEntryReadAt(e: Item<Definition>, b: seq<byte>, data: seq<byte>, pos: nat)
    requires 0 <= e.1.length && 0 <= e.1.offset && SerializeDefEntry(e) == Ok(b)
    requires pos + |b| <= |data| && data[pos..pos + |b|] == b
    ensures ReadDefEntry(Cursor(data, pos)) == Ok((Cursor(data, pos + |b|), e))
  {
    var nb, db := DefEntryParts(e, b);
    DefPartsAt(e, nb, db, data, pos, pos + |nb|, pos + |b|);
  }

  /** DefEntryReadAt, with the serialized name and definition apart and where each ends. */
  lemma DefPartsAt(e: Item<Definition>, nb: seq<byte>, db: seq<byte>, data: seq<byte>, pos: nat, q: nat, end: nat)
    requires 0 <= e.1.length && 0 <= e.1.offset
    requires SetMaps.SerializeName(e.0) == Ok(nb) && SerializeDefinition(e.1) == Ok(db)
    requires q == pos + |nb| && end == q + |db| && end <= |data| && data[pos..end] == nb + db
    ensures ReadDefEntry(Cursor(data, pos)) == Ok((Cursor(data, end), e))
  {
    SetMaps.EntryPartsAt(e.0, nb, db, nb + db, data, pos);
    DefinitionAt(e.1, db, data, q);
    ReadDefEntryStep(Cursor(data, pos), Cursor(data, q), Cursor(data, end), e);
  }

  /** ReadDefEntry is the name, then the definition after it. */
  lemma ReadDefEntryStep(c: Cursor, c1: Cursor, c2: Cursor, e: Item<Definition>)
    requires c.ReadParameterName() == (c1, e.0) && DeserializeDefinition(c1) == Ok((c2, e.1))
    ensures ReadDefEntry(c) == Ok((c2, e))
  {
  }

  /** The serialized entry is the serialized name, then the five bytes of the definition. */
  lemma DefEntryParts(e: Item<Definition>, b: seq<byte>) returns (nb: seq<byte>, db: seq<byte>)
    requires SerializeDefEntry(e) == Ok(b)
    ensures SetMaps.SerializeName(e.0) == Ok(nb) && SerializeDefinition(e.1) == Ok(db) && b == nb + db && |db| == 5
  {
    nb, db := SetMaps.SerializeName(e.0).value, SerializeDefinition(e.1).value;
  }

  /** The serialized entries are the serialized forms of the entries, one after the other. */
  lemma {:induction false} DefChunks(es: Definitions, b: seq<byte>) returns (bs: seq<seq<byte>>)
    requires SerializeDefEntries(es) == Ok(b)
    ensures |bs| == |es| && Flatten(bs) == b
    ensures forall k :: 0 <= k < |es| ==> SerializeDefEntry(es[k]) == Ok(bs[k])
  {
    if es == [] {
      bs := [];
    } else {
      var front := es[..|es| - 1];
      var fb, lb := DefEntriesBytes(es, b);
      var fs := DefChunks(front, fb);
      bs := fs + [lb];
      assert bs[..|bs| - 1] == fs;
      forall k | 0 <= k < |es|
        ensures SerializeDefEntry(es[k]) == Ok(bs[k])
      {
        if k < |front| {
          assert es[k] == front[k] && bs[k] == fs[k];
        }
      }
    }
  }

  /** Serialized entries are the entries but the last, serialized, then the last one. */
  lemma DefEntriesBytes(es: Definitions, b: seq<byte>) returns (fb: seq<byte>, lb: seq<byte>)
    requires es != [] && SerializeDefEntries(es) == Ok(b)
    ensures SerializeDefEntries(es[..|es| - 1]) == Ok(fb) && SerializeDefEntry(es[|es| - 1]) == Ok(lb) && b == fb + lb
  {
    fb := SerializeDefEntries(es[..|es| - 1]).value;
    lb := SerializeDefEntry(es[|es| - 1]).value;
  }

  /** The reader reads back every storable definition entry from its serialized form, wherever that sits. */
  ghost predicate DefReadsBack(read: ItemReader<Definition>)
  {
    forall e: Item<Definition>, b: seq<byte> {:trigger EntryAt(read, e, b)} ::
      0 <= e.1.length && 0 <= e.1.offset && SerializeDefEntry(e) == Ok(b) ==> EntryAt(read, e, b)
  }

  lemma ReadDefEntryReadsBack()
    ensures DefReadsBack(ReadDefEntry)
  {
    forall e: Item<Definition>, b: seq<byte> | 0 <= e.1.length && 0 <= e.1.offset && SerializeDefEntry(e) == Ok(b)
      ensures EntryAt(ReadDefEntry, e, b)
    {
      DefEntryAt(e, b);
    }
  }

  /**
   * The codec round-trips: deserializing the serialized map, wherever it
   * sits in a buffer, gives back its definitions, unlocked, and consumes
   * exactly the serialized bytes.
   */
  lemma SerializeDefMapRoundTrip(m: DefinitionMap, b: seq<byte>, data: seq<byte>, pos: nat, end: nat)
    requires StorableDefs(m.entries) && SerializeDefMap(m) == Ok(b)
    requires end == pos + |b| <= |data| && data[pos..end] == b
    ensures DeserializeDefMapWith(ReadDefEntry, Cursor(data, pos)) == Ok((Cursor(data, end), m.(locked := false)))
  {
    ReadDefEntryReadsBack();
    SerializedDefMapReads(ReadDefEntry, m, b, data, pos, end);
  }

  /** A reader that reads back every storable entry reads a serialized map back. */
  lemma SerializedDefMapReads(read: ItemReader<Definition>, m: DefinitionMap, b: seq<byte>, data: seq<byte>, pos: nat, end: nat)
    requires DefReadsBack(read) && StorableDefs(m.entries) && SerializeDefMap(m) == Ok(b)
    requires end == pos + |b| <= |data| && data[pos..end] == b
    ensures DeserializeDefMapWith(read, Cursor(data, pos)) == Ok((Cursor(data, end), m.(locked := false)))
  {
    var body, bs := DefMapLayout(read, m, b, data, pos);
    DefMapFromChunks(read, m, bs, body, data, pos, end);
  }

  /** A map read from its count and chunks, each of which the reader reads back. */
  lemma DefMapFromChunks(read: ItemReader<Definition>, m: DefinitionMap, bs: seq<seq<byte>>, body: seq<byte>, data: seq<byte>, pos: nat, end: nat)
    requires Distinct(m.entries) && AllAt(read, m.entries, bs)
    requires Cursor(data, pos).ReadShort() == (Cursor(data, pos + 2), |m.entries|)
    requires Flatten(bs) == body && end == pos + 2 + |body| <= |data| && data[pos + 2..end] == body
    ensures DeserializeDefMapWith(read, Cursor(data, pos)) == Ok((Cursor(data, end), m.(locked := false)))
  {
    EntriesFromChunks(read, m.entries, bs, data, pos + 2);
  }

  /** Where a serialized map sits: the entry count, then the entries' chunks, each of which the reader reads back. */
  lemma DefMapLayout(read: ItemReader<Definition>, m: DefinitionMap, b: seq<byte>, data: seq<byte>, pos: nat) returns (body: seq<byte>, bs: seq<seq<byte>>)
    requires DefReadsBack(read) && StorableDefs(m.entries) && SerializeDefMap(m) == Ok(b)
    requires pos + |b| <= |data| && data[pos..pos + |b|] == b
    ensures Distinct(m.entries) && AllAt(read, m.entries, bs)
    ensures Cursor(data, pos).ReadShort() == (Cursor(data, pos + 2), |m.entries|)
    ensures Flatten(bs) == body && pos + |b| == pos + 2 + |body| <= |data| && data[pos + 2..pos + |b|] == body
  {
    var count := EncodeAsShort(|m.entries|).value;
    body := SerializeDefEntries(m.entries).value;
    ShortThenBody(data, pos, b, count, body);
    bs := DefChunks(m.entries, body);
    forall k | 0 <= k < |m.entries|
      ensures EntryAt(read, m.entries[k], bs[k])
    {
      assert 0 <= m.entries[k].1.length && 0 <= m.entries[k].1.offset && SerializeDefEntry(m.entries[k]) == Ok(bs[k]);
    }
  }
}
