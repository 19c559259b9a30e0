// trsfile/parametermap.py, classes TraceParameterMap and RawTraceData: the
// parameters of one trace, how they are added by name, how they are laid
// out in the trace's data block, and how they are checked against and
// described by a TraceParameterDefinitionMap.
module TraceParameterMaps {
  import opened PyErrors
  import opened PyValues
  import opened Utils
  import opened OrderedDicts
  import opened TraceParameters
  import opened ParameterTyping
  import opened LockableDicts
  import opened EntryStreams
  import StdTrace = StandardTraceParameters
  import Defs = TraceParameterDefinitionMaps

  /** The key RawTraceData stores its bytes under: the ASCII bytes of "LEGACY_DATA". */
  const LEGACY_DATA: seq<byte> := [0x4C, 0x45, 0x47, 0x41, 0x43, 0x59, 0x5F, 0x44, 0x41, 0x54, 0x41]

  /**
   * A TraceParameterMap, or a RawTraceData: the bytes of a trace's data
   * block without any description, held as one byte array parameter.
   */
  datatype TraceParameterMap =
    | Typed(entries: ODict<seq<byte>, TraceParameter>)
    | Raw(data: seq<byte>)
  {
    /** `self.items()`: a RawTraceData holds the one entry its constructor stores. */
    function Items(): (es: ODict<seq<byte>, TraceParameter>)
      ensures Raw? ==> es == [(LEGACY_DATA, ByteArray(data))]
      ensures Typed? ==> es == entries
    {
      match this
      case Typed(es) => es
      case Raw(d) => [(LEGACY_DATA, ByteArray(d))]
    }
  }

  // ---------------------------------------------------------------------
  // Adding parameters

  /** `m[key] = value`: stored in order; a RawTraceData refuses with KeyError. */
  function Store(m: TraceParameterMap, key: seq<byte>, p: TraceParameter): (r: Result<TraceParameterMap>)
    ensures m.Raw? ==> r == Err(KeyError)
    ensures m.Typed? ==> r.Ok? && r.value.Typed?
  {
    match m
    case Raw(_) => Err(KeyError)
    case Typed(es) => Ok(Typed(Set(es, key, p)))
  }

  /** On a TraceParameterMap, `m[key] = value` binds key to the value and leaves every other key as it was. */
  lemma StoreBinds(es: ODict<seq<byte>, TraceParameter>, key: seq<byte>, p: TraceParameter, k: seq<byte>)
    requires Distinct(es)
    ensures Store(Typed(es), key, p).Ok?
    ensures var r := Store(Typed(es), key, p).value.entries;
      Distinct(r) && Get(r, k) == if k == key then Some(p) else Get(es, k)
  {
    SetKeepsDistinct(es, key, p);
    GetAfterSet(es, key, p, k);
  }

  /** `add_standard_parameter(std, value)`: the value in std's parameter class, under std's identifier. */
  function AddStandard(m: TraceParameterMap, std: StdTrace.StandardTraceParameter, v: PyValue): (r: Result<TraceParameterMap>)
  {
    var p :- Construct(std.parameterType, ToListIfListable(v));
    Store(m, Ascii(std.identifier), p)
  }

  /**
   * `add_parameter(name, value)`: a name that matches a standard trace
   * parameter stores the value under that parameter's identifier in its
   * class. When that fails with ValueError (no match, an empty value) or
   * TypeError (a value of the wrong type), the value's class is inferred
   * and it is stored under the name as given. The KeyError of a
   * RawTraceData is not caught.
   */
  function Add(m: TraceParameterMap, name: seq<byte>, v: PyValue): (r: Result<TraceParameterMap>)
  {
    var std := StdTrace.FromIdentifier(name);
    var first := if std.Ok? then AddStandard(m, std.value, v) else Err(ValueError);
    if first.Ok? || (first.error != TypeError && first.error != ValueError) then first
    else
      var t :- GetTypedParameter(v);
      var p :- Construct(t, ToListIfListable(v));
      Store(m, name, p)
  }

  /**
   * add_standard_parameter on a TraceParameterMap fails only with the
   * constructor's error; otherwise the identifier maps to a parameter of
   * the standard type and every other entry is unchanged.
   */
  lemma AddStandardParameterStores(es: ODict<seq<byte>, TraceParameter>, std: StdTrace.StandardTraceParameter, v: PyValue, k: seq<byte>)
    requires Distinct(es)
    ensures var r := AddStandard(Typed(es), std, v);
      var c := Construct(std.parameterType, ToListIfListable(v));
      (r.Ok? <==> c.Ok?) && (c.Err? ==> r == Err(c.error))
      && (r.Ok? ==>
            (Distinct(r.value.entries)
             && Get(r.value.entries, Ascii(std.identifier)) == Some(c.value) && c.value.Type() == std.parameterType
             && (k != Ascii(std.identifier) ==> Get(r.value.entries, k) == Get(es, k))))
  {
    var c := Construct(std.parameterType, ToListIfListable(v));
    if c.Ok? {
      StoreBinds(es, Ascii(std.identifier), c.value, k);
      StoreBinds(es, Ascii(std.identifier), c.value, Ascii(std.identifier));
    }
  }

  /** A RawTraceData refuses add_parameter and add_standard_parameter with KeyError once the value is accepted. */
  lemma AddToRawFails(data: seq<byte>, name: seq<byte>, std: StdTrace.StandardTraceParameter, v: PyValue)
    ensures AddStandard(Raw(data), std, v).Err?
    ensures Construct(std.parameterType, ToListIfListable(v)).Ok? ==> AddStandard(Raw(data), std, v) == Err(KeyError)
    ensures Add(Raw(data), name, v).Err?
  {
  }

  /** A name of a standard trace parameter with a value of its type is stored under the standard identifier. */
  lemma AddParameterStandardName(es: ODict<seq<byte>, TraceParameter>, name: seq<byte>, v: PyValue)
    requires Distinct(es) && StdTrace.FromIdentifier(name).Ok?
    requires Construct(StdTrace.FromIdentifier(name).value.parameterType, ToListIfListable(v)).Ok?
    ensures var std := StdTrace.FromIdentifier(name).value;
      Add(Typed(es), name, v) == AddStandard(Typed(es), std, v)
      && Add(Typed(es), name, v).Ok?
      && Get(Add(Typed(es), name, v).value.entries, Ascii(std.identifier)).Some?
  {
    AddStandardParameterStores(es, StdTrace.FromIdentifier(name).value, v, name);
  }

  /**
   * Any other name, or a value that does not fit the standard parameter,
   * is stored under the name as given, in the inferred class; with plain
   * float values this fails only when no class can be inferred.
   */
  lemma AddParameterInferred(es: ODict<seq<byte>, TraceParameter>, name: seq<byte>, v: PyValue)
    requires Distinct(es) && PlainFloats(v)
    requires StdTrace.FromIdentifier(name).Err? ||
      Construct(StdTrace.FromIdentifier(name).value.parameterType, ToListIfListable(v)).Err?
    ensures Add(Typed(es), name, v).Ok? <==> GetTypedParameter(v).Ok?
    ensures Add(Typed(es), name, v).Err? ==> Add(Typed(es), name, v).error == TypeError
    ensures Add(Typed(es), name, v).Ok? ==>
      var r := Add(Typed(es), name, v).value;
      Distinct(r.entries) && Get(r.entries, name).Some? && Get(r.entries, name).value.Type() == GetTypedParameter(v).value
  {
    if GetTypedParameter(v).Ok? {
      InferredTypeAccepts(v);
      var p := Construct(GetTypedParameter(v).value, ToListIfListable(v)).value;
      SetKeepsDistinct(es, name, p);
      GetAfterSet(es, name, p, name);
    }
  }

  /** A TraceParameterMap object, or a RawTraceData object, whose entries the mutators update in place. */
  class ParameterMap {
    var state: TraceParameterMap

    /** `TraceParameterMap()` */
    constructor ()
      ensures state == Typed([])
    {
      state := Typed([]);
    }

    /** `RawTraceData(data)`: one byte array parameter under LEGACY_DATA. */
    constructor FromRaw(data: seq<byte>)
      ensures state == Raw(data) && state.Items() == [(LEGACY_DATA, ByteArray(data))]
    {
      state := Raw(data);
    }

    method SetItem(key: seq<byte>, p: TraceParameter) returns (o: Outcome)
      modifies this
      ensures var r := Store(old(state), key, p);
        (r.Ok? ==> o == Pass && state == r.value) && (r.Err? ==> o == Fail(r.error) && state == old(state))
    {
      if state.Raw? {
        return Fail(KeyError);
      }
      state := Typed(Set(state.entries, key, p));
      o := Pass;
    }

    /** `add_standard_parameter(std, value)` */
    method AddStandardParameter(std: StdTrace.StandardTraceParameter, v: PyValue) returns (o: Outcome)
      modifies this
      ensures var r := AddStandard(old(state), std, v);
        (r.Ok? ==> o == Pass && state == r.value) && (r.Err? ==> o == Fail(r.error) && state == old(state))
    {
      var p := Construct(std.parameterType, ToListIfListable(v));
      if p.Err? {
        return Fail(p.error);
      }
      o := SetItem(Ascii(std.identifier), p.value);
    }

    /** `add_parameter(name, value)`: the standard path first, the inferred one on TypeError or ValueError. */
    method AddParameter(name: seq<byte>, v: PyValue) returns (o: Outcome)
      modifies this
      ensures var r := Add(old(state), name, v);
        (r.Ok? ==> o == Pass && state == r.value) && (r.Err? ==> o == Fail(r.error) && state == old(state))
    {
      var std := StdTrace.FromIdentifier(name);
      if std.Ok? {
        o := AddStandardParameter(std.value, v);
      } else {
        o := Fail(ValueError);
      }
      if o.Pass? || (o.error != TypeError && o.error != ValueError) {
        return;
      }
      var t := GetTypedParameter(v);
      if t.Err? {
        return Fail(t.error);
      }
      var p := Construct(t.value, ToListIfListable(v));
      if p.Err? {
        return Fail(p.error);
      }
      o := SetItem(name, p.value);
    }

    /** `serialize()`: the values' bytes, one parameter after the other. */
    method Serialize() returns (r: Result<seq<byte>>)
      ensures r == SerializeMap(state)
      ensures r.Ok? ==> |r.value| == ValuesSize(state.Items())
    {
      var es := state.Items();
      var out := [];
      var i := 0;
      while i < |es|
        invariant 0 <= i <= |es|
        invariant SerializeValues(es[..i]) == Ok(out)
      {
        var longer := es[..i + 1];
        assert longer[..|longer| - 1] == es[..i];
        var b := TraceParameters.Serialize(es[i].1);
        if b.Err? {
          SerializeValuesFails(es, i + 1);
          return Err(b.error);
        }
        out := out + b.value;
        i := i + 1;
      }
      assert es[..i] == es;
      r := Ok(out);
    }

    /** `matches(definitions)`: the loop over the items stops at the first key that is missing or defined differently. */
    method Matches(defs: LockableDict<Definition>) returns (b: bool)
      ensures b == MapMatches(state, defs.State())
    {
      if state.Raw? {
        var total := Defs.GetTotalSize(defs);
        return total == |state.data|;
      }
      var es := state.entries;
      var ds := defs.entries;
      var ok := true;
      var offset := 0;
      var matched := [];
      var i := 0;
      while i < |es|
        invariant 0 <= i <= |es| && ok
        invariant MatchScan(es, ds, 0, []) == MatchScan(es[i..], ds, offset, matched)
      {
        var (key, value) := es[i];
        var d := Get(ds, key);
        if d.None? {
          ok := false;
          break;
        }
        matched := matched + [key];
        ok := value.Len() == d.value.length && value.Type() == d.value.paramType && d.value.offset == offset;
        offset := offset + value.Len() * d.value.paramType.ByteSize();
        if !ok {
          break;
        }
        assert es[i..][1..] == es[i + 1..];
        i := i + 1;
      }
      b := ok && matched == Keys(ds);
    }
  }

  // ---------------------------------------------------------------------
  // The data block of a trace

  /** The bytes one parameter takes: len(value) * byte_size. */
  function ByteCount(p: TraceParameter): (r: nat)
  {
    p.Len() * p.Type().ByteSize()
  }

  /** The bytes the parameters take in a trace's data block. */
  function ValuesSize(es: ODict<seq<byte>, TraceParameter>): (r: nat)
  {
    if es == [] then 0 else ValuesSize(es[..|es| - 1]) + ByteCount(es[|es| - 1].1)
  }

  /** `serialize()`: the serialized values one after the other, without names. */
  function SerializeValues(es: ODict<seq<byte>, TraceParameter>): (r: Result<seq<byte>>)
    ensures r.Ok? ==> |r.value| == ValuesSize(es)
  {
    if es == [] then Ok([])
    else
      var front :- SerializeValues(es[..|es| - 1]);
      var last :- Serialize(es[|es| - 1].1);
      SerializeLength(es[|es| - 1].1);
      Ok(front + last)
  }

  /** `m.serialize()`; a RawTraceData serializes to its bytes. */
  function SerializeMap(m: TraceParameterMap): (r: Result<seq<byte>>)
  {
    SerializeValues(m.Items())
  }

  lemma SerializeRaw(data: seq<byte>)
    ensures SerializeMap(Raw(data)) == Ok(data)
  {
    var one := [(LEGACY_DATA, ByteArray(data))];
    assert one[..0] == [];
    assert SerializeValues(one[..0]) == Ok([]);
    assert Serialize(ByteArray(data)) == Ok(data);
    assert SerializeValues(one) == Ok([] + data);
    assert Raw(data).Items() == one;
    assert [] + data == data;
  }

  /**
   * The element count the class's deserialize gets for a definition's
   * length: a negative count reads nothing for the word types, and makes
   * `read` return the rest of the data for the byte-sized types.
   */
  function ElementCount(d: Definition, c: Cursor): (n: nat)
    ensures d.length >= 0 ==> n == d.length
  {
    if d.length >= 0 then d.length
    else if d.paramType in {BOOL, BYTE, STRING} && c.pos < |c.data| then |c.data| - c.pos
    else 0
  }

  /** One pass of `deserialize(raw, definitions)`: seek to the definition's offset and read its parameter. */
  function ReadParam(raw: seq<byte>, d: Definition): (r: Result<TraceParameter>)
    ensures d.offset < 0 ==> r == Err(ValueError)
    ensures r.Ok? ==> r.value.Type() == d.paramType
  {
    if d.offset < 0 then Err(ValueError)
    else
      var c := Cursor(raw, d.offset);
      var (_, p) :- Deserialize(d.paramType, c, ElementCount(d, c));
      Ok(p)
  }

  /** The loop of `deserialize(raw, definitions)`: each definition read in order and stored with `result[key] = param`. */
  function ReadParams(raw: seq<byte>, ds: Defs.Definitions, acc: ODict<seq<byte>, TraceParameter>): (r: Result<ODict<seq<byte>, TraceParameter>>)
    decreases |ds|
  {
    if ds == [] then Ok(acc)
    else
      var p :- ReadParam(raw, ds[0].1);
      ReadParams(raw, ds[1..], Set(acc, ds[0].0, p))
  }

  /** `TraceParameterMap.deserialize(raw, definitions)`: always a TraceParameterMap, never a RawTraceData. */
  function DeserializeMap(raw: seq<byte>, defs: Defs.DefinitionMap): (r: Result<TraceParameterMap>)
    ensures r.Ok? ==> r.value.Typed?
  {
    var es :- ReadParams(raw, defs.entries, []);
    Ok(Typed(es))
  }

  // ---------------------------------------------------------------------
  // matches and from_trace_parameter_map

  /**
   * The loop of `matches`: offset is the running offset, matched the keys
   * seen so far. A key missing from the definitions, or a definition whose
   * length, type or offset differs, stops the loop with false.
   */
  function MatchScan(items: ODict<seq<byte>, TraceParameter>, defs: Defs.Definitions, offset: int, matched: seq<seq<byte>>): (r: (bool, seq<seq<byte>>))
    decreases |items|
  {
    if items == [] then (true, matched)
    else
      var (key, value) := items[0];
      match Get(defs, key)
      case None => (false, matched)
      case Some(d) =>
        if value.Len() == d.length && value.Type() == d.paramType && d.offset == offset then
          MatchScan(items[1..], defs, offset + value.Len() * d.paramType.ByteSize(), matched + [key])
        else (false, matched + [key])
  }

  /**
   * `m.matches(definitions)`. A TraceParameterMap also needs the keys it
   * saw to be the definitions' keys in order; a RawTraceData only needs
   * the definitions to take as many bytes as it holds.
   */
  function MapMatches(m: TraceParameterMap, defs: Defs.DefinitionMap): (b: bool)
  {
    match m
    case Raw(data) => Defs.TotalSize(defs.entries) == |data|
    case Typed(es) =>
      var (ok, keys) := MatchScan(es, defs.entries, 0, []);
      ok && keys == Keys(defs.entries)
  }

  /** The definition of es[k] that from_trace_parameter_map builds: its type, its length, and the bytes before it. */
  function Describe(es: ODict<seq<byte>, TraceParameter>, k: nat): (d: Definition)
    requires k < |es|
  {
    Definition(es[k].1.Type(), es[k].1.Len(), ValuesSize(es[..k]))
  }

  /** defs describes es entry by entry, in order. */
  ghost predicate Describes(es: ODict<seq<byte>, TraceParameter>, defs: Defs.Definitions)
  {
    |defs| == |es| && forall k :: 0 <= k < |es| ==> defs[k] == (es[k].0, Describe(es, k))
  }

  /** The loop of `from_trace_parameter_map`: each entry's type and length at the running offset, stored with `result[key] = ...`. */
  function DescribeAll(es: ODict<seq<byte>, TraceParameter>): (r: Defs.Definitions)
  {
    if es == [] then []
    else
      var front := es[..|es| - 1];
      var (key, p) := es[|es| - 1];
      Set(DescribeAll(front), key, Definition(p.Type(), p.Len(), ValuesSize(front)))
  }

  /** `TraceParameterDefinitionMap.from_trace_parameter_map(m)`: a new, unlocked map. */
  function FromTraceParameterMap(m: TraceParameterMap): (r: Defs.DefinitionMap)
    ensures !r.locked
  {
    Lockable(DescribeAll(m.Items()), false)
  }

  // ---------------------------------------------------------------------
  // Properties

  /** The bytes of a prefix grow by the last value's bytes. */
  lemma ValuesSizeStep(es: ODict<seq<byte>, TraceParameter>, k: nat)
    requires k < |es|
    ensures ValuesSize(es[..k + 1]) == ValuesSize(es[..k]) + ByteCount(es[k].1)
  {
    assert es[..k + 1][..k] == es[..k];
  }

  /** from_trace_parameter_map of a map with distinct keys describes every entry, in order. */
  lemma {:induction false} DescribeAllDescribes(es: ODict<seq<byte>, TraceParameter>)
    requires Distinct(es)
    ensures Describes(es, DescribeAll(es))
    decreases |es|
  {
    if es != [] {
      var front := es[..|es| - 1];
      assert Distinct(front) by {
        assert forall k :: 0 <= k < |front| ==> front[k] == es[k];
      }
      DescribeAllDescribes(front);
      var ds := DescribeAll(front);
      assert !HasKey(ds, es[|es| - 1].0) by {
        assert forall k :: 0 <= k < |ds| ==> ds[k].0 == es[k].0;
      }
      forall k | 0 <= k < |front|
        ensures Describe(front, k) == Describe(es, k)
      {
        assert front[..k] == es[..k];
      }
    }
  }

  /** A description lists the described keys, in order. */
  lemma DescribesKeys(es: ODict<seq<byte>, TraceParameter>, defs: Defs.Definitions)
    requires Describes(es, defs)
    ensures Keys(defs) == Keys(es) && (Distinct(es) ==> Distinct(defs))
  {
  }

  /** The offsets of a description are the bytes before each entry, so a description is packed. */
  lemma {:induction false} DescribesTotal(es: ODict<seq<byte>, TraceParameter>, defs: Defs.Definitions, j: nat)
    requires Describes(es, defs) && j <= |es|
    ensures Defs.TotalSize(defs[..j]) == ValuesSize(es[..j])
    decreases j
  {
    if j > 0 {
      DescribesTotal(es, defs, j - 1);
      assert defs[..j][..j - 1] == defs[..j - 1];
      ValuesSizeStep(es, j - 1);
    }
  }

  /**
   * from_trace_parameter_map lays the parameters out one after the other
   * from offset 0, in the map's order: the result is packed and takes the
   * bytes the values take.
   */
  lemma FromMapPacked(m: TraceParameterMap)
    requires Distinct(m.Items())
    ensures var ds := FromTraceParameterMap(m).entries;
      Describes(m.Items(), ds) && Defs.Packed(ds) && Defs.NonNegative(ds) && Valid(FromTraceParameterMap(m))
      && Defs.TotalSize(ds) == ValuesSize(m.Items())
  {
    var es := m.Items();
    var ds := DescribeAll(es);
    DescribeAllDescribes(es);
    DescribesKeys(es, ds);
    forall k | 0 <= k < |ds|
      ensures ds[k].1.offset == Defs.TotalSize(ds[..k])
    {
      DescribesTotal(es, ds, k);
    }
    DescribesTotal(es, ds, |ds|);
    assert ds[..|ds|] == ds && es[..|es|] == es;
  }

  /** The bytes of a map grow by a first value's bytes. */
  lemma {:induction false} ValuesSizeCons(x: (seq<byte>, TraceParameter), t: ODict<seq<byte>, TraceParameter>)
    ensures ValuesSize([x] + t) == ByteCount(x.1) + ValuesSize(t)
    decreases |t|
  {
    if t == [] {
      assert ([x] + t)[..0] == [];
    } else {
      var front := t[..|t| - 1];
      assert ([x] + t)[..|t|] == [x] + front;
      ValuesSizeCons(x, front);
    }
  }

  /**
   * What a run of `matches` over items from a running offset checks:
   * every item is defined with its type, its length and the offset the
   * items before it end at.
   */
  ghost predicate FitsFrom(items: ODict<seq<byte>, TraceParameter>, defs: Defs.Definitions, offset: int)
  {
    forall k {:trigger Get(defs, items[k].0)} :: 0 <= k < |items| ==>
      Get(defs, items[k].0) == Some(Definition(items[k].1.Type(), items[k].1.Len(), offset + ValuesSize(items[..k])))
  }

  lemma FitsFromCons(items: ODict<seq<byte>, TraceParameter>, defs: Defs.Definitions, offset: int)
    requires items != []
    ensures FitsFrom(items, defs, offset) <==>
      Get(defs, items[0].0) == Some(Definition(items[0].1.Type(), items[0].1.Len(), offset))
      && FitsFrom(items[1..], defs, offset + ByteCount(items[0].1))
  {
    if FitsFrom(items, defs, offset) {
      FitsAt(items, defs, offset, 0);
      assert items[..0] == [];
      FitsTail(items, defs, offset);
    }
    if Get(defs, items[0].0) == Some(Definition(items[0].1.Type(), items[0].1.Len(), offset))
       && FitsFrom(items[1..], defs, offset + ByteCount(items[0].1)) {
      FitsCons(items, defs, offset);
    }
  }

  /** The item after the first k of the tail is item k + 1, and the tail's first k items take the bytes of the first k + 1 less the first item's. */
  lemma FitsShift(items: ODict<seq<byte>, TraceParameter>, k: nat)
    requires k + 1 < |items|
    ensures items[k + 1] == items[1..][k]
    ensures ValuesSize(items[..k + 1]) == ByteCount(items[0].1) + ValuesSize(items[1..][..k])
  {
    assert items[..k + 1] == [items[0]] + items[1..][..k];
    ValuesSizeCons(items[0], items[1..][..k]);
  }

  lemma FitsTail(items: ODict<seq<byte>, TraceParameter>, defs: Defs.Definitions, offset: int)
    requires items != [] && FitsFrom(items, defs, offset)
    ensures FitsFrom(items[1..], defs, offset + ByteCount(items[0].1))
  {
    var tail, next := items[1..], offset + ByteCount(items[0].1);
    forall k {:trigger Get(defs, tail[k].0)} | 0 <= k < |tail|
      ensures Get(defs, tail[k].0) == Some(Definition(tail[k].1.Type(), tail[k].1.Len(), next + ValuesSize(tail[..k])))
    {
      FitsTailAt(items, defs, offset, k);
    }
  }

  /** Item k of the tail of a fitting list sits where the tail's first k items end. */
  lemma FitsTailAt(items: ODict<seq<byte>, TraceParameter>, defs: Defs.Definitions, offset: int, k: nat)
    requires FitsFrom(items, defs, offset) && k + 1 < |items|
    ensures var tail := items[1..];
      Get(defs, tail[k].0) == Some(Definition(tail[k].1.Type(), tail[k].1.Len(), offset + ByteCount(items[0].1) + ValuesSize(tail[..k])))
  {
    FitsShift(items, k);
    FitsAt(items, defs, offset, k + 1);
  }

  lemma FitsAt(items: ODict<seq<byte>, TraceParameter>, defs: Defs.Definitions, offset: int, k: nat)
    requires FitsFrom(items, defs, offset) && k < |items|
    ensures Get(defs, items[k].0) == Some(Definition(items[k].1.Type(), items[k].1.Len(), offset + ValuesSize(items[..k])))
  {
  }

  lemma FitsCons(items: ODict<seq<byte>, TraceParameter>, defs: Defs.Definitions, offset: int)
    requires items != []
    requires Get(defs, items[0].0) == Some(Definition(items[0].1.Type(), items[0].1.Len(), offset))
    requires FitsFrom(items[1..], defs, offset + ByteCount(items[0].1))
    ensures FitsFrom(items, defs, offset)
  {
    forall k | 0 <= k < |items|
      ensures Get(defs, items[k].0) == Some(Definition(items[k].1.Type(), items[k].1.Len(), offset + ValuesSize(items[..k])))
    {
      if k == 0 {
        assert items[..0] == [];
      } else {
        FitsConsAt(items, defs, offset, k - 1);
      }
    }
  }

  /** Item k + 1 of a list whose tail fits sits where its first k + 1 items end. */
  lemma FitsConsAt(items: ODict<seq<byte>, TraceParameter>, defs: Defs.Definitions, offset: int, k: nat)
    requires k + 1 < |items| && FitsFrom(items[1..], defs, offset + ByteCount(items[0].1))
    ensures Get(defs, items[k + 1].0) == Some(Definition(items[k + 1].1.Type(), items[k + 1].1.Len(), offset + ValuesSize(items[..k + 1])))
  {
    FitsShift(items, k);
    FitsAt(items[1..], defs, offset + ByteCount(items[0].1), k);
  }

  /** One pass of the loop of `matches`: the item goes on exactly when its definition is the one it fits. */
  lemma MatchScanStep(items: ODict<seq<byte>, TraceParameter>, defs: Defs.Definitions, offset: int, matched: seq<seq<byte>>)
    requires items != []
    ensures var fit := Get(defs, items[0].0) == Some(Definition(items[0].1.Type(), items[0].1.Len(), offset));
      (fit ==> MatchScan(items, defs, offset, matched) == MatchScan(items[1..], defs, offset + ByteCount(items[0].1), matched + [items[0].0]))
      && (!fit ==> !MatchScan(items, defs, offset, matched).0)
  {
  }

  /** The loop of `matches` runs to its end exactly when every item fits, and then it has seen every key in order. */
  lemma MatchScanFits(items: ODict<seq<byte>, TraceParameter>, defs: Defs.Definitions, offset: int, matched: seq<seq<byte>>)
    ensures MatchScan(items, defs, offset, matched).0 <==> FitsFrom(items, defs, offset)
    ensures MatchScan(items, defs, offset, matched).0 ==> MatchScan(items, defs, offset, matched).1 == matched + Keys(items)
  {
    MatchScanRuns(items, defs, offset, matched);
    MatchScanSeen(items, defs, offset, matched);
  }

  /** The loop of `matches` runs to its end exactly when every item fits at its running offset. */
  lemma {:induction false} MatchScanRuns(items: ODict<seq<byte>, TraceParameter>, defs: Defs.Definitions, offset: int, matched: seq<seq<byte>>)
    ensures MatchScan(items, defs, offset, matched).0 <==> FitsFrom(items, defs, offset)
    decreases |items|
  {
    if items != [] {
      var next, seen := offset + ByteCount(items[0].1), matched + [items[0].0];
      FitsFromCons(items, defs, offset);
      MatchScanStep(items, defs, offset, matched);
      MatchScanRuns(items[1..], defs, next, seen);
    }
  }

  /** A run of the loop of `matches` that reaches the end has seen every key, in order. */
  lemma {:induction false} MatchScanSeen(items: ODict<seq<byte>, TraceParameter>, defs: Defs.Definitions, offset: int, matched: seq<seq<byte>>)
    ensures MatchScan(items, defs, offset, matched).0 ==> MatchScan(items, defs, offset, matched).1 == matched + Keys(items)
    decreases |items|
  {
    if items != [] {
      var r := MatchScan(items, defs, offset, matched);
      var next, seen := offset + ByteCount(items[0].1), matched + [items[0].0];
      var fit := Get(defs, items[0].0) == Some(Definition(items[0].1.Type(), items[0].1.Len(), offset));
      MatchScanStep(items, defs, offset, matched);
      if fit {
        assert r == MatchScan(items[1..], defs, next, seen);
        MatchScanSeen(items[1..], defs, next, seen);
        KeysCons(items);
        assert seen + Keys(items[1..]) == matched + Keys(items);
      }
    }
  }

  /** The keys of a non-empty dictionary are its first key and then the keys of the rest. */
  lemma KeysCons(items: ODict<seq<byte>, TraceParameter>)
    requires items != []
    ensures Keys(items) == [items[0].0] + Keys(items[1..])
  {
    assert Keys(items) == [items[0].0] + Keys(items[1..]);
  }

  /** In a dictionary with distinct keys, the i-th key looks up the i-th value. */
  lemma GetAt<V>(d: ODict<seq<byte>, V>, i: nat)
    requires Distinct(d) && i < |d|
    ensures Get(d, d[i].0) == Some(d[i].1)
  {
    var j := IndexOf(d, d[i].0);
    DistinctIndex(d, i, j);
  }

  /**
   * For distinct keys, a description is exactly what `matches` accepts:
   * the items fit from offset 0 and the definitions have the items' keys
   * in the items' order.
   */
  lemma DescribesFits(es: ODict<seq<byte>, TraceParameter>, ds: Defs.Definitions)
    requires Distinct(ds)
    ensures Describes(es, ds) <==> FitsFrom(es, ds, 0) && Keys(ds) == Keys(es)
  {
    if Describes(es, ds) {
      forall k | 0 <= k < |es|
        ensures Get(ds, es[k].0) == Some(Definition(es[k].1.Type(), es[k].1.Len(), 0 + ValuesSize(es[..k])))
      {
        GetAt(ds, k);
      }
      DescribesKeys(es, ds);
    }
    if FitsFrom(es, ds, 0) && Keys(ds) == Keys(es) {
      forall k | 0 <= k < |es|
        ensures ds[k] == (es[k].0, Describe(es, k))
      {
        assert ds[k].0 == Keys(ds)[k] == es[k].0;
        GetAt(ds, k);
      }
    }
  }

  /** Two descriptions of the same entries are the same. */
  lemma DescribesUnique(es: ODict<seq<byte>, TraceParameter>, a: Defs.Definitions, b: Defs.Definitions)
    requires Describes(es, a) && Describes(es, b)
    ensures a == b
  {
  }

  /**
   * A TraceParameterMap matches a definition map exactly when that map
   * holds the definitions from_trace_parameter_map derives from it, in
   * the same order.
   */
  lemma MatchesIff(es: ODict<seq<byte>, TraceParameter>, d: Defs.DefinitionMap)
    requires Distinct(es) && Valid(d)
    ensures MapMatches(Typed(es), d) <==> d.entries == FromTraceParameterMap(Typed(es)).entries
  {
    MatchScanFits(es, d.entries, 0, []);
    assert [] + Keys(es) == Keys(es);
    DescribesFits(es, d.entries);
    DescribeAllDescribes(es);
    if Describes(es, d.entries) {
      DescribesUnique(es, d.entries, DescribeAll(es));
    }
  }

  /** Every map matches the definitions derived from it; a RawTraceData matches any definitions of its size. */
  lemma MatchesOwnDefinitions(m: TraceParameterMap, d: Defs.DefinitionMap)
    requires Distinct(m.Items())
    ensures MapMatches(m, FromTraceParameterMap(m))
    ensures m.Raw? ==> (MapMatches(m, d) <==> Defs.TotalSize(d.entries) == |m.data|)
  {
    FromMapPacked(m);
    if m.Typed? {
      MatchesIff(m.entries, FromTraceParameterMap(m));
    } else {
      var one := m.Items();
      assert one[..0] == [];
      assert ValuesSize(one) == ByteCount(ByteArray(m.data));
    }
  }

  // ---------------------------------------------------------------------
  // Round trip through the data block

  /** A parameter that reads back from its own bytes: a non-empty byte array, or any other serializable parameter. */
  ghost predicate Storable(p: TraceParameter)
  {
    p.WellFormed() && p != ByteArray([]) && Serialize(p).Ok?
  }

  /** The values of a prefix serialize to a prefix of the whole data block. */
  lemma {:induction false} SerializeValuesPrefix(es: ODict<seq<byte>, TraceParameter>, j: nat)
    requires SerializeValues(es).Ok? && j <= |es|
    ensures SerializeValues(es[..j]).Ok? && SerializeValues(es[..j]).value <= SerializeValues(es).value
    decreases |es| - j
  {
    if j == |es| {
      assert es[..j] == es;
    } else {
      SerializeValuesPrefix(es, j + 1);
      var longer := es[..j + 1];
      assert longer[..|longer| - 1] == es[..j];
      var whole := SerializeValues(es).value;
      var mid := SerializeValues(longer).value;
      var front := SerializeValues(es[..j]).value;
      assert mid == front + Serialize(es[j].1).value;
      assert mid == whole[..|mid|];
      assert front == whole[..|front|];
    }
  }

  /** The first value that fails to serialize fails the whole data block with its error. */
  lemma {:induction false} SerializeValuesFails(es: ODict<seq<byte>, TraceParameter>, j: nat)
    requires j <= |es| && SerializeValues(es[..j]).Err?
    ensures SerializeValues(es) == Err(SerializeValues(es[..j]).error)
    decreases |es| - j
  {
    if j == |es| {
      assert es[..j] == es;
    } else {
      var longer := es[..j + 1];
      assert longer[..|longer| - 1] == es[..j];
      SerializeValuesFails(es, j + 1);
    }
  }

  /** The k-th value's bytes sit in the data block at the offset its description gives. */
  lemma ValueAt(es: ODict<seq<byte>, TraceParameter>, k: nat)
    requires SerializeValues(es).Ok? && k < |es|
    ensures Serialize(es[k].1).Ok?
    ensures var raw := SerializeValues(es).value; var b := Serialize(es[k].1).value; var off := ValuesSize(es[..k]);
      off + |b| <= |raw| && raw[off..off + |b|] == b
  {
    SerializeValuesPrefix(es, k + 1);
    var longer := es[..k + 1];
    assert longer[..|longer| - 1] == es[..k];
    var raw := SerializeValues(es).value;
    var front := SerializeValues(es[..k]).value;
    var b := Serialize(es[k].1).value;
    var mid := front + b;
    assert SerializeValues(longer).value == mid;
    assert mid == raw[..|mid|];
    assert raw[|front|..|front| + |b|] == mid[|front|..];
  }

  /** Seeking to a described offset and reading the described length gives the value back. */
  lemma ReadParamAt(es: ODict<seq<byte>, TraceParameter>, k: nat)
    requires SerializeValues(es).Ok? && k < |es| && Storable(es[k].1)
    ensures ReadParam(SerializeValues(es).value, Describe(es, k)) == Ok(es[k].1)
  {
    ValueAt(es, k);
    var raw := SerializeValues(es).value;
    var p := es[k].1;
    var b := Serialize(p).value;
    var off := ValuesSize(es[..k]);
    SplitAt(raw, off, b);
    SerializeRoundTrip(p, raw[..off], raw[off + |b|..]);
  }

  /** The loop of deserialize over a description of distinct entries, from the i-th definition on, completes the entries before it. */
  lemma {:induction false} ReadParamsDescribed(raw: seq<byte>, es: ODict<seq<byte>, TraceParameter>, ds: Defs.Definitions, i: nat)
    requires Distinct(es) && Describes(es, ds) && i <= |es|
    requires forall k :: 0 <= k < |es| ==> ReadParam(raw, Describe(es, k)) == Ok(es[k].1)
    ensures ReadParams(raw, ds[i..], es[..i]) == Ok(es)
    decreases |es| - i
  {
    if i == |es| {
      assert es[..i] == es;
    } else {
      assert ds[i..][0] == ds[i] && ds[i..][1..] == ds[i + 1..];
      SetAppends(es, i);
      ReadParamsDescribed(raw, es, ds, i + 1);
    }
  }

  /**
   * Serializing a map and deserializing the bytes with the definitions
   * derived from it, or with any definitions a TraceParameterMap matches,
   * gives its entries back, as a TraceParameterMap.
   */
  lemma SerializeMapRoundTrip(m: TraceParameterMap, d: Defs.DefinitionMap)
    requires Distinct(m.Items()) && SerializeMap(m).Ok?
    requires forall k :: 0 <= k < |m.Items()| ==> Storable(m.Items()[k].1)
    requires d == FromTraceParameterMap(m) || (m.Typed? && Valid(d) && MapMatches(m, d))
    ensures DeserializeMap(SerializeMap(m).value, d) == Ok(Typed(m.Items()))
  {
    var es := m.Items();
    var raw := SerializeMap(m).value;
    DescribeAllDescribes(es);
    if d != FromTraceParameterMap(m) {
      MatchesIff(es, d);
    }
    forall k | 0 <= k < |es|
      ensures ReadParam(raw, Describe(es, k)) == Ok(es[k].1)
    {
      ReadParamAt(es, k);
    }
    ReadParamsDescribed(raw, es, d.entries, 0);
    assert d.entries[0..] == d.entries && es[..0] == [];
  }

  // ---------------------------------------------------------------------
  // The loops of deserialize and from_trace_parameter_map

  /** `TraceParameterMap.deserialize(raw, definitions)`: per definition, seek to its offset and read its parameter. */
  method DeserializeParameters(raw: seq<byte>, defs: LockableDict<Definition>) returns (r: Result<ParameterMap>)
    ensures var s := DeserializeMap(raw, defs.State());
      r.Ok? == s.Ok? && (s.Ok? ==> fresh(r.value) && r.value.state == s.value) && (s.Err? ==> r.error == s.error)
  {
    var io := new BytesIO(raw);
    var result := new ParameterMap();
    var ds := defs.entries;
    var i := 0;
    while i < |ds|
      invariant 0 <= i <= |ds|
      invariant fresh(io) && fresh(result) && io.data == raw
      invariant result.state.Typed? && ReadParams(raw, ds, []) == ReadParams(raw, ds[i..], result.state.entries)
    {
      var (key, d) := ds[i];
      assert ds[i..][0] == ds[i] && ds[i..][1..] == ds[i + 1..];
      if d.offset < 0 {
        return Err(ValueError);
      }
      io.Seek(d.offset);
      var p := DeserializeParameter(d.paramType, io, ElementCount(d, io.State()));
      if p.Err? {
        return Err(p.error);
      }
      var _ := result.SetItem(key, p.value);
      i := i + 1;
    }
    r := Ok(result);
  }

  /** `TraceParameterDefinitionMap.from_trace_parameter_map(m)`: each item's type and length at the running offset. */
  method DefinitionsFrom(m: ParameterMap) returns (r: LockableDict<Definition>)
    ensures fresh(r) && r.State() == FromTraceParameterMap(m.state)
  {
    var es := m.state.Items();
    var offset := 0;
    r := new LockableDict<Definition>([]);
    var i := 0;
    while i < |es|
      invariant 0 <= i <= |es|
      invariant fresh(r) && r.State() == Lockable(DescribeAll(es[..i]), false) && offset == ValuesSize(es[..i])
    {
      var longer := es[..i + 1];
      assert longer[..|longer| - 1] == es[..i];
      var (key, p) := es[i];
      var size := p.Len();
      var t := p.Type();
      var _ := r.SetItem(key, Definition(t, size, offset));
      offset := offset + size * t.ByteSize();
      i := i + 1;
    }
    assert es[..i] == es;
  }
}
