// trsfile/parametermap.py, class TraceSetParameterMap: the parameters that
// describe a whole trace set, how they are added by name, filled in from the
// headers and defaults, and their byte codec.
module TraceSetParameterMaps {
  import opened PyErrors
  import opened PyValues
  import opened Utils
  import opened OrderedDicts
  import opened TraceParameters
  import opened ParameterTyping
  import opened LockableDicts
  import opened EntryStreams
  import Std = StandardTraceSetParameters
  import Common

  /** A TraceSetParameterMap: a LockableDict of trace parameters. */
  type SetParameterMap = Lockable<TraceParameter>

  // ---------------------------------------------------------------------
  // Adding parameters

  /** `add_standard_parameter(std, value)`: the value in std's parameter class, under std's identifier. */
  function AddStandardParameter(m: SetParameterMap, std: Std.StandardTraceSetParameter, v: PyValue): (r: Result<SetParameterMap>)
  {
    var p :- Construct(std.parameterType, ToListIfListable(v));
    AfterSetItem(m, Ascii(std.identifier), p)
  }

  /**
   * add_standard_parameter fails with the constructor's error, or with
   * TypeError on a locked map; otherwise the identifier maps to a parameter
   * of the standard type and every other entry is unchanged.
   */
  lemma AddStandardParameterStores(m: SetParameterMap, std: Std.StandardTraceSetParameter, v: PyValue, k: seq<byte>)
    requires Valid(m)
    ensures var r := AddStandardParameter(m, std, v);
      var c := Construct(std.parameterType, ToListIfListable(v));
      (r.Ok? <==> c.Ok? && !m.locked)
      && (c.Err? ==> r == Err(c.error))
      && (c.Ok? && m.locked ==> r == Err(TypeError))
      && (r.Ok? ==>
            (Valid(r.value) && !r.value.locked
             && Get(r.value.entries, Ascii(std.identifier)) == Some(c.value) && c.value.Type() == std.parameterType
             && (k != Ascii(std.identifier) ==> Get(r.value.entries, k) == Get(m.entries, k))))
  {
    var c := Construct(std.parameterType, ToListIfListable(v));
    if c.Ok? && !m.locked {
      SetKeepsDistinct(m.entries, Ascii(std.identifier), c.value);
      GetAfterSet(m.entries, Ascii(std.identifier), c.value, Ascii(std.identifier));
      GetAfterSet(m.entries, Ascii(std.identifier), c.value, k);
    }
  }

  /**
   * `add_parameter(name, value)`: a name that matches a standard trace-set
   * parameter stores the value under that parameter's identifier in its
   * class; when that fails with ValueError or TypeError (no match, a value
   * of the wrong type, a locked map), the value's class is inferred and it
   * is stored under the name as given.
   */
  function AddParameter(m: SetParameterMap, name: seq<byte>, v: PyValue): (r: Result<SetParameterMap>)
  {
    var std := Std.FromIdentifier(name);
    var first := if std.Ok? then AddStandardParameter(m, std.value, v) else Err(ValueError);
    if first.Ok? then first
    else
      var t :- GetTypedParameter(v);
      var p :- Construct(t, ToListIfListable(v));
      AfterSetItem(m, name, p)
  }

  /** A name of a standard parameter with a value of its type is stored under the standard identifier. */
  lemma AddParameterStandardName(m: SetParameterMap, name: seq<byte>, v: PyValue)
    requires Valid(m) && !m.locked && Std.FromIdentifier(name).Ok?
    requires Construct(Std.FromIdentifier(name).value.parameterType, ToListIfListable(v)).Ok?
    ensures var std := Std.FromIdentifier(name).value;
      AddParameter(m, name, v).Ok? && AddParameter(m, name, v) == AddStandardParameter(m, std, v)
      && Get(AddParameter(m, name, v).value.entries, Ascii(std.identifier)).Some?
  {
    AddStandardParameterStores(m, Std.FromIdentifier(name).value, v, name);
  }

  /**
   * Any other name, or a value that does not fit the standard parameter,
   * is stored under the name as given, in the inferred class; with plain
   * float values this fails only when no class can be inferred.
   */
  lemma AddParameterInferred(m: SetParameterMap, name: seq<byte>, v: PyValue)
    requires Valid(m) && !m.locked && PlainFloats(v)
    requires Std.FromIdentifier(name).Err? ||
      Construct(Std.FromIdentifier(name).value.parameterType, ToListIfListable(v)).Err?
    ensures AddParameter(m, name, v).Ok? <==> GetTypedParameter(v).Ok?
    ensures AddParameter(m, name, v).Err? ==> AddParameter(m, name, v).error == TypeError
    ensures AddParameter(m, name, v).Ok? ==>
      var r := AddParameter(m, name, v).value;
      Valid(r) && Get(r.entries, name).Some? && Get(r.entries, name).value.Type() == GetTypedParameter(v).value
  {
    if GetTypedParameter(v).Ok? {
      InferredTypeAccepts(v);
      var p := Construct(GetTypedParameter(v).value, ToListIfListable(v)).value;
      SetKeepsDistinct(m.entries, name, p);
      GetAfterSet(m.entries, name, p, name);
    }
  }

  /** A locked map refuses add_parameter with TypeError, whichever path it takes. */
  lemma AddParameterLocked(m: SetParameterMap, name: seq<byte>, v: PyValue)
    requires m.locked
    ensures AddParameter(m, name, v) == Err(TypeError)
  {
    var t := GetTypedParameter(v);
    if t.Ok? {
      var vt := GetType(v).value;
      if vt == ListType {
        TypeOfListElemsIs(v.elems);
      }
    }
  }

  // ---------------------------------------------------------------------
  // fill_from_headers and add_defaults

  /** Each pair whose identifier is not yet in the map is added with add_standard_parameter, in order. */
  function AddMissing(m: SetParameterMap, ps: seq<(Std.StandardTraceSetParameter, PyValue)>): (r: Result<SetParameterMap>)
  {
    if ps == [] then Ok(m)
    else
      var m1 :- AddMissing(m, ps[..|ps| - 1]);
      AddIfMissing(m1, ps[|ps| - 1].0, ps[|ps| - 1].1)
  }

  /** `if std.identifier not in self: self.add_standard_parameter(std, value)` */
  function AddIfMissing(m: SetParameterMap, std: Std.StandardTraceSetParameter, v: PyValue): (r: Result<SetParameterMap>)
  {
    if HasKey(m.entries, Ascii(std.identifier)) then Ok(m) else AddStandardParameter(m, std, v)
  }

  /** Entries already in the map are never overwritten, and the map stays valid and unlocked. */
  lemma {:induction false} AddMissingKeeps(m: SetParameterMap, ps: seq<(Std.StandardTraceSetParameter, PyValue)>, k: seq<byte>)
    requires Valid(m) && AddMissing(m, ps).Ok?
    ensures Valid(AddMissing(m, ps).value) && AddMissing(m, ps).value.locked == m.locked
    ensures HasKey(m.entries, k) ==> Get(AddMissing(m, ps).value.entries, k) == Get(m.entries, k)
  {
    if ps != [] {
      var front := ps[..|ps| - 1];
      AddMissingKeeps(m, front, k);
      var m1 := AddMissing(m, front).value;
      var (std, v) := ps[|ps| - 1];
      if !HasKey(m1.entries, Ascii(std.identifier)) {
        AddStandardParameterStores(m1, std, v, k);
      }
    }
  }

  /** Afterwards every pair's identifier is in the map. */
  lemma {:induction false} AddMissingCovers(m: SetParameterMap, ps: seq<(Std.StandardTraceSetParameter, PyValue)>, j: nat)
    requires Valid(m) && AddMissing(m, ps).Ok? && j < |ps|
    ensures HasKey(AddMissing(m, ps).value.entries, Ascii(ps[j].0.identifier))
  {
    var front := ps[..|ps| - 1];
    var m1 := AddMissing(m, front).value;
    var (std, v) := ps[|ps| - 1];
    AddMissingKeeps(m, front, Ascii(std.identifier));
    if !HasKey(m1.entries, Ascii(std.identifier)) {
      AddStandardParameterStores(m1, std, v, Ascii(std.identifier));
    }
    if j < |ps| - 1 {
      AddMissingCovers(m, front, j);
      assert front[j] == ps[j];
      AddMissingKeeps(m1, [], Ascii(ps[j].0.identifier));
      if !HasKey(m1.entries, Ascii(std.identifier)) {
        AddStandardParameterStores(m1, std, v, Ascii(ps[j].0.identifier));
      }
    }
  }

  /** On an unlocked map, adding fails only when a missing pair's value does not fit its parameter class. */
  lemma {:induction false} AddMissingSucceeds(m: SetParameterMap, ps: seq<(Std.StandardTraceSetParameter, PyValue)>)
    requires Valid(m) && !m.locked
    requires forall j :: 0 <= j < |ps| ==> Construct(ps[j].0.parameterType, ToListIfListable(ps[j].1)).Ok?
    ensures AddMissing(m, ps).Ok?
  {
    if ps != [] {
      var front := ps[..|ps| - 1];
      assert forall j :: 0 <= j < |front| ==> front[j] == ps[j];
      AddMissingSucceeds(m, front);
      AddMissingKeeps(m, front, []);
    }
  }

  /** One more default added: AddMissing over one more of them. */
  lemma AddMissingStep(m: SetParameterMap, ps: seq<(Std.StandardTraceSetParameter, PyValue)>, i: nat, j: nat, before: SetParameterMap, after: SetParameterMap)
    requires i < |ps| && j == i + 1 && AddMissing(m, ps[..i]) == Ok(before) && AddIfMissing(before, ps[i].0, ps[i].1) == Ok(after)
    ensures AddMissing(m, ps[..j]) == Ok(after)
  {
    assert ps[..j][..i] == ps[..i];
  }

  /** A default that cannot be added stops AddMissing over all of them with its error. */
  lemma AddMissingStepFails(m: SetParameterMap, ps: seq<(Std.StandardTraceSetParameter, PyValue)>, i: nat, before: SetParameterMap, r: Result<SetParameterMap>)
    requires i < |ps| && AddMissing(m, ps[..i]) == Ok(before) && r == AddIfMissing(before, ps[i].0, ps[i].1) && r.Err?
    ensures AddMissing(m, ps) == r
  {
    assert ps[..i + 1][..i] == ps[..i];
    AddMissingErrorExtends(m, ps, i + 1);
  }

  lemma {:induction false} AddMissingErrorExtends(m: SetParameterMap, ps: seq<(Std.StandardTraceSetParameter, PyValue)>, i: nat)
    requires i <= |ps| && AddMissing(m, ps[..i]).Err?
    ensures AddMissing(m, ps) == AddMissing(m, ps[..i])
    decreases |ps| - i
  {
    if i < |ps| {
      assert ps[..i + 1][..i] == ps[..i];
      AddMissingErrorExtends(m, ps, i + 1);
    } else {
      assert ps[..i] == ps;
    }
  }

  /** The standard trace-set parameters equivalent to the headers, with the headers' values, in header order. */
  function EquivalentPairs(hs: seq<(Common.Header, PyValue)>): (ps: seq<(Std.StandardTraceSetParameter, PyValue)>)
    ensures |ps| <= |hs|
  {
    if hs == [] then []
    else
      var front := EquivalentPairs(hs[..|hs| - 1]);
      var (h, v) := hs[|hs| - 1];
      match Common.EquivalentStdParam(h)
      case Some(std) => front + [(std, v)]
      case None => front
  }

  /** `fill_from_headers(headers)`: each header with an equivalent trace-set parameter is added when missing. */
  function FillFromHeaders(m: SetParameterMap, hs: seq<(Common.Header, PyValue)>): (r: Result<SetParameterMap>)
  {
    AddMissing(m, EquivalentPairs(hs))
  }

  /** One header of fill_from_headers. */
  function FillOne(m: SetParameterMap, h: Common.Header, v: PyValue): (r: Result<SetParameterMap>)
  {
    match Common.EquivalentStdParam(h)
    case Some(std) => AddIfMissing(m, std, v)
    case None => Ok(m)
  }

  /** fill_from_headers takes the headers one at a time. */
  lemma FillFromHeadersStep(m: SetParameterMap, hs: seq<(Common.Header, PyValue)>, i: nat)
    requires i < |hs|
    ensures FillFromHeaders(m, hs[..i + 1]) ==
      (var r :- FillFromHeaders(m, hs[..i]); FillOne(r, hs[i].0, hs[i].1))
  {
    assert hs[..i + 1][..i] == hs[..i];
    var ps := EquivalentPairs(hs[..i + 1]);
    if Common.EquivalentStdParam(hs[i].0).Some? {
      assert ps[..|ps| - 1] == EquivalentPairs(hs[..i]);
    }
  }

  lemma {:induction false} FillErrorExtends(m: SetParameterMap, hs: seq<(Common.Header, PyValue)>, i: nat)
    requires i <= |hs| && FillFromHeaders(m, hs[..i]).Err?
    ensures FillFromHeaders(m, hs) == FillFromHeaders(m, hs[..i])
    decreases |hs| - i
  {
    if i < |hs| {
      FillFromHeadersStep(m, hs, i);
      FillErrorExtends(m, hs, i + 1);
    } else {
      assert hs[..i] == hs;
    }
  }

  /** Every header with an equivalent standard parameter is represented afterwards, and nothing present is overwritten. */
  lemma {:induction false} FillFromHeadersCovers(m: SetParameterMap, hs: seq<(Common.Header, PyValue)>, j: nat, k: seq<byte>)
    requires Valid(m) && FillFromHeaders(m, hs).Ok? && j < |hs| && Common.EquivalentStdParam(hs[j].0).Some?
    ensures HasKey(FillFromHeaders(m, hs).value.entries, Ascii(Common.EquivalentStdParam(hs[j].0).value.identifier))
    ensures HasKey(m.entries, k) ==> Get(FillFromHeaders(m, hs).value.entries, k) == Get(m.entries, k)
  {
    var i := EquivalentIndex(hs, j);
    AddMissingCovers(m, EquivalentPairs(hs), i);
    AddMissingKeeps(m, EquivalentPairs(hs), k);
  }

  /** The position among the equivalent pairs of the j-th header. */
  lemma {:induction false} EquivalentIndex(hs: seq<(Common.Header, PyValue)>, j: nat) returns (i: nat)
    requires j < |hs| && Common.EquivalentStdParam(hs[j].0).Some?
    ensures i < |EquivalentPairs(hs)| && EquivalentPairs(hs)[i] == (Common.EquivalentStdParam(hs[j].0).value, hs[j].1)
  {
    var front := hs[..|hs| - 1];
    if j == |hs| - 1 {
      i := |EquivalentPairs(front)|;
    } else {
      assert front[j] == hs[j];
      i := EquivalentIndex(front, j);
    }
  }

  /** The number one as a little-endian IEEE-754 single: the packed word of 1.0. */
  const ONE_F32: seq<byte> := [0x00, 0x00, 0x80, 0x3F]

  /** `default_values`, in declaration order. */
  const DefaultValues: seq<(Std.StandardTraceSetParameter, PyValue)> := [
    (Std.DISPLAY_HINT_X_LABEL, PStr([])),
    (Std.DISPLAY_HINT_Y_LABEL, PStr([])),
    (Std.DISPLAY_HINT_NUM_TRACES_SHOWN, PInt(1)),
    (Std.DISPLAY_HINT_TRACES_OVERLAP, PBool(false)),
    (Std.DISPLAY_HINT_USE_LOG_SCALE, PBool(false)),
    (Std.X_OFFSET, PInt(0)),
    (Std.TRACE_OFFSET, PInt(0)),
    (Std.X_SCALE, PFloat(ONE_F32)),
    (Std.Y_SCALE, PFloat(ONE_F32))
  ]

  /** `add_defaults()` */
  function AddDefaults(m: SetParameterMap): (r: Result<SetParameterMap>)
  {
    AddMissing(m, DefaultValues)
  }

  /**
   * On an unlocked map add_defaults succeeds, afterwards every default
   * parameter is present, and entries already present keep their values.
   */
  lemma AddDefaultsComplete(m: SetParameterMap, j: nat, k: seq<byte>)
    requires Valid(m) && !m.locked && j < |DefaultValues|
    ensures AddDefaults(m).Ok?
    ensures HasKey(AddDefaults(m).value.entries, Ascii(DefaultValues[j].0.identifier))
    ensures HasKey(m.entries, k) ==> Get(AddDefaults(m).value.entries, k) == Get(m.entries, k)
  {
    forall i | 0 <= i < |DefaultValues|
      ensures Construct(DefaultValues[i].0.parameterType, ToListIfListable(DefaultValues[i].1)).Ok?
    {
      var v := ToListIfListable(DefaultValues[i].1);
      assert i >= 2 ==> v.PList? && |v.elems| == 1 && v.elems[0] == DefaultValues[i].1;
    }
    AddMissingSucceeds(m, DefaultValues);
    AddMissingCovers(m, DefaultValues, j);
    AddMissingKeeps(m, DefaultValues, k);
  }

  /** `add_standard_parameter` for a missing identifier, on a map object. */
  method AddIfMissingTo(m: LockableDict<TraceParameter>, std: Std.StandardTraceSetParameter, v: PyValue) returns (o: Outcome)
    modifies m
    ensures var r := AddIfMissing(old(m.State()), std, v);
      (r.Ok? ==> o == Pass && m.State() == r.value) && (r.Err? ==> o == Fail(r.error))
  {
    if HasKey(m.entries, Ascii(std.identifier)) {
      return Pass;
    }
    var p := Construct(std.parameterType, ToListIfListable(v));
    if p.Err? {
      return Fail(p.error);
    }
    o := m.SetItem(Ascii(std.identifier), p.value);
  }

  /** The loop of `fill_from_headers`, on a map object. */
  method FillFromHeadersLoop(m: LockableDict<TraceParameter>, hs: seq<(Common.Header, PyValue)>) returns (o: Outcome)
    modifies m
    ensures var r := FillFromHeaders(old(m.State()), hs);
      (r.Ok? ==> o == Pass && m.State() == r.value) && (r.Err? ==> o == Fail(r.error))
  {
    ghost var m0 := m.State();
    var i := 0;
    while i < |hs|
      invariant 0 <= i <= |hs|
      invariant FillFromHeaders(m0, hs[..i]) == Ok(m.State())
    {
      FillFromHeadersStep(m0, hs, i);
      var (h, v) := hs[i];
      var std := Common.EquivalentStdParam(h);
      if std.Some? {
        o := AddIfMissingTo(m, std.value, v);
        if o.Fail? {
          FillErrorExtends(m0, hs, i + 1);
          return;
        }
      }
      i := i + 1;
    }
    assert hs[..i] == hs;
    o := Pass;
  }

  /** The loop of `add_defaults()`, on a map object. */
  method AddDefaultsLoop(m: LockableDict<TraceParameter>) returns (o: Outcome)
    modifies m
    ensures var r := AddDefaults(old(m.State()));
      (r.Ok? ==> o == Pass && m.State() == r.value) && (r.Err? ==> o == Fail(r.error))
  {
    ghost var m0 := m.State();
    var ps := DefaultValues;
    var i := 0;
    while i < |ps|
      invariant 0 <= i <= |ps|
      invariant AddMissing(m0, ps[..i]) == Ok(m.State())
    {
      ghost var before := m.State();
      o := AddIfMissingTo(m, ps[i].0, ps[i].1);
      ghost var r := AddIfMissing(before, ps[i].0, ps[i].1);
      if o.Fail? {
        AddMissingStepFails(m0, ps, i, before, r);
        return;
      }
      i := i + 1;
      AddMissingStep(m0, ps, i - 1, i, before, m.State());
    }
    assert ps[..i] == ps;
    o := Pass;
  }

  // ---------------------------------------------------------------------
  // The byte codec

  /** A name as read_parameter_name reads it: a u16 length, then the UTF-8 bytes. */
  function SerializeName(name: seq<byte>): (r: Result<seq<byte>>)
    ensures r.Ok? <==> |name| <= SHORT_MAX
    ensures r.Ok? ==> r.value == EncodeAsShort(|name|).value + name
  {
    var len :- EncodeAsShort(|name|);
    Ok(len + name)
  }

  /** A parameter as TraceSetParameter.deserialize reads it: the type tag, a u16 length, the payload. */
  function SerializeSetParameter(p: TraceParameter): (r: Result<seq<byte>>)
    ensures r.Ok? <==> Serialize(p).Ok? && p.Len() <= SHORT_MAX
    ensures r.Ok? ==> r.value == [p.Type().Tag()] + EncodeAsShort(p.Len()).value + Serialize(p).value
  {
    var payload :- Serialize(p);
    var len :- EncodeAsShort(p.Len());
    Ok([p.Type().Tag()] + len + payload)
  }

  function SerializeEntry(e: (seq<byte>, TraceParameter)): (r: Result<seq<byte>>)
    ensures r.Ok? <==> SerializeName(e.0).Ok? && SerializeSetParameter(e.1).Ok?
    ensures r.Ok? ==> r.value == SerializeName(e.0).value + SerializeSetParameter(e.1).value
  {
    var n :- SerializeName(e.0);
    var p :- SerializeSetParameter(e.1);
    Ok(n + p)
  }

  /** The entries one after the other; struct.error at the first that does not fit. */
  function SerializeEntries(es: ODict<seq<byte>, TraceParameter>): (r: Result<seq<byte>>)
  {
    if es == [] then Ok([])
    else
      var front :- SerializeEntries(es[..|es| - 1]);
      var last :- SerializeEntry(es[|es| - 1]);
      Ok(front + last)
  }

  /** `serialize()`: the entry count as a short, then the entries. */
  function SerializeMap(m: SetParameterMap): (r: Result<seq<byte>>)
  {
    var count :- EncodeAsShort(|m.entries|);
    var body :- SerializeEntries(m.entries);
    Ok(count + body)
  }

  /** A map entry as it is read: the name and its parameter. */
  type Entry = Item<TraceParameter>

  /** Something that reads one entry at a position of a stream. */
  type EntryReader = ItemReader<TraceParameter>

  /** One entry: read_parameter_name, then TraceSetParameter.deserialize. */
  function ReadEntry(c: Cursor): (r: Result<(Cursor, Entry)>)
    ensures r.Ok? ==> r.value.0.data == c.data
  {
    var (c1, name) := c.ReadParameterName();
    var (c2, p) :- DeserializeSetParameter(c1);
    Ok((c2, (name, p)))
  }

  /** The body of `deserialize(raw)`, with read as the way one entry is read: the u16 count, then the entries. */
  function DeserializeMapWith(read: EntryReader, c: Cursor): (r: Result<(Cursor, SetParameterMap)>)
    ensures r.Ok? ==> !r.value.1.locked
  {
    var (c1, n) := c.ReadShort();
    var (c2, es) :- ReadEntries(read, c1, n, []);
    Ok((c2, Lockable(es, false)))
  }

  /** `TraceSetParameterMap.deserialize(raw)`: a new, unlocked map. */
  function DeserializeMap(c: Cursor): (r: Result<(Cursor, SetParameterMap)>)
  {
    DeserializeMapWith(ReadEntry, c)
  }

  /** A map the codec can carry: distinct keys, and parameters as their constructors build them, none an empty byte array. */
  ghost predicate Storable(es: ODict<seq<byte>, TraceParameter>)
  {
    Distinct(es) && forall k :: 0 <= k < |es| ==> es[k].1.WellFormed() && es[k].1 != ByteArray([])
  }

  /** TraceSetParameter.deserialize reads the tag byte and the u16 length, then the payload of that type. */
  lemma {:induction false} DeserializeSetParameterAt(data: seq<byte>, q: nat, t: ParameterType, n: nat)
    requires q + 3 <= |data| && data[q] == t.Tag() && U16(data[q + 1], data[q + 2]) == n
    ensures DeserializeSetParameter(Cursor(data, q)) == Deserialize(t, Cursor(data, q + 3), n)
  {
    FromTagOfTag(t);
  }

  /** A serialized parameter read back from any position of a buffer. */
  lemma {:induction false} SetParameterRoundTrip(p: TraceParameter, b: seq<byte>, data: seq<byte>, q: nat)
    requires p.WellFormed() && p != ByteArray([]) && SerializeSetParameter(p) == Ok(b)
    requires q + |b| <= |data| && data[q..q + |b|] == b
    ensures DeserializeSetParameter(Cursor(data, q)) == Ok((Cursor(data, q + |b|), p))
  {
    SetParameterParts(p, b, data, q);
    DeserializeSetParameterAt(data, q, p.Type(), p.Len());
  }

  /** Where a serialized parameter sits, its header sits first and its payload reads back right after it. */
  lemma SetParameterParts(p: TraceParameter, b: seq<byte>, data: seq<byte>, q: nat)
    requires p.WellFormed() && p != ByteArray([]) && SerializeSetParameter(p) == Ok(b)
    requires q + |b| <= |data| && data[q..q + |b|] == b
    ensures q + 3 <= |data| && data[q] == p.Type().Tag() && U16(data[q + 1], data[q + 2]) == p.Len()
    ensures Deserialize(p.Type(), Cursor(data, q + 3), p.Len()) == Ok((Cursor(data, q + |b|), p))
  {
    var payload := SetParameterHeaderAt(p, b, data, q);
    PayloadRoundTrip(p, payload, data, q + 3, q + |b|);
  }

  /** A serialized parameter is a three-byte header (the tag, the length as a short), then the payload. */
  lemma SetParameterBytes(p: TraceParameter, b: seq<byte>) returns (head: seq<byte>, payload: seq<byte>)
    requires SerializeSetParameter(p) == Ok(b)
    ensures Serialize(p) == Ok(payload) && b == head + payload
    ensures |head| == 3 && head[0] == p.Type().Tag() && U16(head[1], head[2]) == p.Len()
  {
    payload := Serialize(p).value;
    head := [p.Type().Tag()] + EncodeAsShort(p.Len()).value;
  }

  /** Where a serialized parameter sits, the tag, the length and the payload sit one after the other. */
  lemma SetParameterHeaderAt(p: TraceParameter, b: seq<byte>, data: seq<byte>, q: nat) returns (payload: seq<byte>)
    requires SerializeSetParameter(p) == Ok(b)
    requires q + |b| <= |data| && data[q..q + |b|] == b
    ensures Serialize(p) == Ok(payload) && q + 3 + |payload| == q + |b|
    ensures q + 3 <= |data| && data[q] == p.Type().Tag() && U16(data[q + 1], data[q + 2]) == p.Len()
    ensures data[q + 3..q + |b|] == payload
  {
    var head;
    head, payload := SetParameterBytes(p, b);
    HeaderThenBody(data, q, b, head, payload);
  }

  /** A serialized payload read back from any position of a buffer. */
  lemma {:induction false} PayloadRoundTrip(p: TraceParameter, payload: seq<byte>, data: seq<byte>, q: nat, e: nat)
    requires p.WellFormed() && p != ByteArray([]) && Serialize(p) == Ok(payload)
    requires e == q + |payload| <= |data| && data[q..e] == payload
    ensures Deserialize(p.Type(), Cursor(data, q), p.Len()) == Ok((Cursor(data, e), p))
  {
    var pre, rest := data[..q], data[e..];
    SplitAt(data, q, payload);
    SerializeRoundTrip(p, pre, rest);
    assert pre + payload + rest == data && |pre| == q;
  }

  /** A parameter whose serialized form b reads back wherever b sits in a buffer. */
  ghost predicate ParamAt(p: TraceParameter, b: seq<byte>)
  {
    forall data: seq<byte>, q: nat {:trigger DeserializeSetParameter(Cursor(data, q))} ::
      q + |b| <= |data| && data[q..q + |b|] == b ==> DeserializeSetParameter(Cursor(data, q)) == Ok((Cursor(data, q + |b|), p))
  }

  lemma ParamAtOf(p: TraceParameter, b: seq<byte>)
    requires p.WellFormed() && p != ByteArray([]) && SerializeSetParameter(p) == Ok(b)
    ensures ParamAt(p, b)
  {
    forall data: seq<byte>, q: nat | q + |b| <= |data| && data[q..q + |b|] == b
      ensures DeserializeSetParameter(Cursor(data, q)) == Ok((Cursor(data, q + |b|), p))
    {
      SetParameterRoundTrip(p, b, data, q);
    }
  }

  lemma ParamAtUse(p: TraceParameter, pb: seq<byte>, data: seq<byte>, q: nat, e: nat)
    requires ParamAt(p, pb) && e == q + |pb| <= |data| && data[q..e] == pb
    ensures DeserializeSetParameter(Cursor(data, q)) == Ok((Cursor(data, e), p))
  {
  }

  lemma ReadEntryOf(c: Cursor, c1: Cursor, e: Entry, c2: Cursor)
    requires c.ReadParameterName() == (c1, e.0) && DeserializeSetParameter(c1) == Ok((c2, e.1))
    ensures ReadEntry(c) == Ok((c2, e))
  {
  }

  lemma ReadEntryFails(c: Cursor, c1: Cursor, err: Error)
    requires c.ReadParameterName().0 == c1 && DeserializeSetParameter(c1) == Err(err)
    ensures ReadEntry(c) == Err(err)
  {
  }

  /** A serialized entry is the serialized name, then the serialized parameter. */
  lemma EntryBytes(e: Entry, b: seq<byte>) returns (nb: seq<byte>, pb: seq<byte>)
    requires SerializeEntry(e) == Ok(b)
    ensures SerializeName(e.0) == Ok(nb) && SerializeSetParameter(e.1) == Ok(pb) && b == nb + pb
  {
    nb := SerializeName(e.0).value;
    pb := SerializeSetParameter(e.1).value;
  }

  /** A serialized name is its length as a short, then its bytes. */
  lemma NameBytes(name: seq<byte>, nb: seq<byte>) returns (len: seq<byte>)
    requires SerializeName(name) == Ok(nb)
    ensures EncodeAsShort(|name|) == Ok(len) && nb == len + name
  {
    len := EncodeAsShort(|name|).value;
  }

  /** ReadEntry reads every entry of a storable map back from its serialized form. */
  lemma EntryAtOfSerialized(e: Entry, b: seq<byte>)
    requires e.1.WellFormed() && e.1 != ByteArray([]) && SerializeEntry(e) == Ok(b)
    ensures EntryAt(ReadEntry, e, b)
  {
    var nb, pb := EntryBytes(e, b);
    ParamAtOf(e.1, pb);
    forall data: seq<byte>, pos: nat | pos + |b| <= |data| && data[pos..pos + |b|] == b
      ensures ReadEntry(Cursor(data, pos)) == Ok((Cursor(data, pos + |b|), e))
    {
      EntryAtStep(e, nb, pb, b, data, pos);
    }
  }

  lemma EntryAtStep(e: Entry, nb: seq<byte>, pb: seq<byte>, b: seq<byte>, data: seq<byte>, pos: nat)
    requires SerializeName(e.0) == Ok(nb) && ParamAt(e.1, pb) && b == nb + pb
    requires pos + |b| <= |data| && data[pos..pos + |b|] == b
    ensures ReadEntry(Cursor(data, pos)) == Ok((Cursor(data, pos + |b|), e))
  {
    EntryPartsAt(e.0, nb, pb, b, data, pos);
    ParamAtUse(e.1, pb, data, pos + |nb|, pos + |b|);
    ReadEntryOf(Cursor(data, pos), Cursor(data, pos + |nb|), e, Cursor(data, pos + |b|));
  }

  /** Where a serialized entry sits, its name reads back, and its parameter's bytes sit right after the name's. */
  lemma EntryPartsAt(name: seq<byte>, nb: seq<byte>, pb: seq<byte>, b: seq<byte>, data: seq<byte>, pos: nat)
    requires SerializeName(name) == Ok(nb) && b == nb + pb
    requires pos + |b| <= |data| && data[pos..pos + |b|] == b
    ensures Cursor(data, pos).ReadParameterName() == (Cursor(data, pos + |nb|), name)
    ensures pos + |b| == pos + |nb| + |pb| && data[pos + |nb|..pos + |b|] == pb
  {
    SplitSegment(data, pos, b, nb, pb);
    var len := NameBytes(name, nb);
    ReadParameterNameAt(name, len, nb, data, pos);
  }

  /** The serialized entries are the serialized forms of the entries, one after the other. */
  lemma {:induction false} EntryChunks(es: ODict<seq<byte>, TraceParameter>, b: seq<byte>) returns (bs: seq<seq<byte>>)
    requires SerializeEntries(es) == Ok(b)
    ensures |bs| == |es| && Flatten(bs) == b
    ensures forall k :: 0 <= k < |es| ==> SerializeEntry(es[k]) == Ok(bs[k])
  {
    if es == [] {
      bs := [];
    } else {
      var front := es[..|es| - 1];
      var fb, lb := EntriesBytes(es, b);
      var fs := EntryChunks(front, fb);
      bs := fs + [lb];
      assert bs[..|bs| - 1] == fs;
      forall k | 0 <= k < |es|
        ensures SerializeEntry(es[k]) == Ok(bs[k])
      {
        if k < |front| {
          assert es[k] == front[k] && bs[k] == fs[k];
        }
      }
    }
  }

  /** Serialized entries are the entries but the last, serialized, then the last one. */
  lemma EntriesBytes(es: ODict<seq<byte>, TraceParameter>, b: seq<byte>) returns (fb: seq<byte>, lb: seq<byte>)
    requires es != [] && SerializeEntries(es) == Ok(b)
    ensures SerializeEntries(es[..|es| - 1]) == Ok(fb) && SerializeEntry(es[|es| - 1]) == Ok(lb) && b == fb + lb
  {
    fb := SerializeEntries(es[..|es| - 1]).value;
    lb := SerializeEntry(es[|es| - 1]).value;
  }

  /** A reader that reads back every storable entry reads back each entry of a storable map from its chunk. */
  lemma AllEntriesAt(read: EntryReader, es: ODict<seq<byte>, TraceParameter>, bs: seq<seq<byte>>)
    requires ReadsBack(read) && Storable(es)
    requires |bs| == |es| && forall k :: 0 <= k < |es| ==> SerializeEntry(es[k]) == Ok(bs[k])
    ensures AllAt(read, es, bs)
  {
    forall k | 0 <= k < |es|
      ensures EntryAt(read, es[k], bs[k])
    {
      assert es[k].1.WellFormed() && es[k].1 != ByteArray([]) && SerializeEntry(es[k]) == Ok(bs[k]);
    }
  }

  /** A reader that reads each entry back from its chunk reads a map back from its count and the chunks one after the other. */
  lemma MapRoundTripWith(read: EntryReader, m: SetParameterMap, bs: seq<seq<byte>>, body: seq<byte>, data: seq<byte>, pos: nat, end: nat)
    requires Distinct(m.entries) && AllAt(read, m.entries, bs)
    requires Cursor(data, pos).ReadShort() == (Cursor(data, pos + 2), |m.entries|)
    requires Flatten(bs) == body && end == pos + 2 + |body| <= |data| && data[pos + 2..end] == body
    ensures DeserializeMapWith(read, Cursor(data, pos)) == Ok((Cursor(data, end), m.(locked := false)))
  {
    EntriesFromChunks(read, m.entries, bs, data, pos + 2);
  }

  /**
   * The codec round-trips: deserializing the serialized map, wherever it
   * sits in a buffer, gives back its entries, unlocked, and consumes
   * exactly the serialized bytes.
   */
  lemma SerializeMapRoundTrip(m: SetParameterMap, b: seq<byte>, data: seq<byte>, pos: nat, end: nat)
    requires Storable(m.entries) && SerializeMap(m) == Ok(b)
    requires end == pos + |b| <= |data| && data[pos..end] == b
    ensures DeserializeMapWith(ReadEntry, Cursor(data, pos)) == Ok((Cursor(data, end), m.(locked := false)))
  {
    ReadEntryReadsBack();
    SerializedMapReads(ReadEntry, m, b, data, pos, end);
  }

  /** The reader reads back every storable entry from its serialized form, wherever that sits. */
  ghost predicate ReadsBack(read: EntryReader)
  {
    forall e: Entry, b: seq<byte> {:trigger EntryAt(read, e, b)} ::
      e.1.WellFormed() && e.1 != ByteArray([]) && SerializeEntry(e) == Ok(b) ==> EntryAt(read, e, b)
  }

  lemma ReadEntryReadsBack()
    ensures ReadsBack(ReadEntry)
  {
    forall e: Entry, b: seq<byte> | e.1.WellFormed() && e.1 != ByteArray([]) && SerializeEntry(e) == Ok(b)
      ensures EntryAt(ReadEntry, e, b)
    {
      EntryAtOfSerialized(e, b);
    }
  }

  /** A reader that reads back every storable entry reads a serialized map back, up to its end. */
  lemma SerializedMapReads(read: EntryReader, m: SetParameterMap, b: seq<byte>, data: seq<byte>, pos: nat, end: nat)
    requires ReadsBack(read) && Storable(m.entries) && SerializeMap(m) == Ok(b)
    requires end == pos + |b| <= |data| && data[pos..end] == b
    ensures DeserializeMapWith(read, Cursor(data, pos)) == Ok((Cursor(data, end), m.(locked := false)))
  {
    var body, bs := SerializedMapLayout(read, m, b, data, pos);
    MapRoundTripWith(read, m, bs, body, data, pos, end);
  }

  /** Where a serialized map sits: the entry count, then the entries' chunks, each of which the reader reads back. */
  lemma SerializedMapLayout(read: EntryReader, m: SetParameterMap, b: seq<byte>, data: seq<byte>, pos: nat) returns (body: seq<byte>, bs: seq<seq<byte>>)
    requires ReadsBack(read) && Storable(m.entries) && SerializeMap(m) == Ok(b)
    requires pos + |b| <= |data| && data[pos..pos + |b|] == b
    ensures Distinct(m.entries) && AllAt(read, m.entries, bs)
    ensures Cursor(data, pos).ReadShort() == (Cursor(data, pos + 2), |m.entries|)
    ensures Flatten(bs) == body && pos + |b| == pos + 2 + |body| <= |data| && data[pos + 2..pos + |b|] == body
  {
    body := MapBytesAt(m, b, data, pos);
    bs := EntryChunks(m.entries, body);
    AllEntriesAt(read, m.entries, bs);
  }

  /** Where a serialized map sits, read_short reads the entry count and the serialized entries follow. */
  lemma MapBytesAt(m: SetParameterMap, b: seq<byte>, data: seq<byte>, pos: nat) returns (body: seq<byte>)
    requires SerializeMap(m) == Ok(b) && pos + |b| <= |data| && data[pos..pos + |b|] == b
    ensures SerializeEntries(m.entries) == Ok(body)
    ensures Cursor(data, pos).ReadShort() == (Cursor(data, pos + 2), |m.entries|)
    ensures pos + |b| == pos + 2 + |body| <= |data| && data[pos + 2..pos + |b|] == body
  {
    var count;
    count, body := SerializeMapParts(m, b);
    ShortThenBody(data, pos, b, count, body);
  }

  /** A serialized map is its entry count as a short, then its serialized entries. */
  lemma SerializeMapParts(m: SetParameterMap, b: seq<byte>) returns (count: seq<byte>, body: seq<byte>)
    requires SerializeMap(m) == Ok(b)
    ensures SerializeEntries(m.entries) == Ok(body) && b == count + body
    ensures |count| == 2 && U16(count[0], count[1]) == |m.entries|
  {
    count := EncodeAsShort(|m.entries|).value;
    body := SerializeEntries(m.entries).value;
  }

  /** The loop of `serialize()`. */
  method SerializeLoop(m: LockableDict<TraceParameter>) returns (r: Result<seq<byte>>)
    ensures r == SerializeMap(m.State())
  {
    var count := EncodeAsShort(|m.entries|);
    if count.Err? {
      return Err(count.error);
    }
    var es := m.entries;
    var out: seq<byte> := [];
    var i := 0;
    while i < |es|
      invariant 0 <= i <= |es|
      invariant SerializeEntries(es[..i]) == Ok(out)
    {
      assert es[..i + 1][..i] == es[..i];
      var e := SerializeEntry(es[i]);
      if e.Err? {
        SerializeEntriesErrorExtends(es, i + 1);
        return Err(e.error);
      }
      out := out + e.value;
      i := i + 1;
    }
    assert es[..i] == es;
    r := Ok(count.value + out);
  }

  lemma {:induction false} SerializeEntriesErrorExtends(es: ODict<seq<byte>, TraceParameter>, i: nat)
    requires i <= |es| && SerializeEntries(es[..i]).Err?
    ensures SerializeEntries(es) == SerializeEntries(es[..i])
    decreases |es| - i
  {
    if i < |es| {
      assert es[..i + 1][..i] == es[..i];
      SerializeEntriesErrorExtends(es, i + 1);
    } else {
      assert es[..i] == es;
    }
  }

  /** The loop of `deserialize(raw)`, filling a new map object. */
  method DeserializeLoop(io: BytesIO) returns (r: Result<LockableDict<TraceParameter>>)
    modifies io
    ensures var s := DeserializeMap(old(io.State()));
      r.Ok? == s.Ok? && (s.Ok? ==> fresh(r.value) && r.value.State() == s.value.1 && io.State() == s.value.0)
      && (s.Err? ==> r.error == s.error)
  {
    var n := io.ReadShort();
    var result := new LockableDict<TraceParameter>([]);
    var o := ReadEntriesInto(io, n, result);
    if o.Fail? {
      return Err(o.error);
    }
    r := Ok(result);
  }

  /** n entries read from io into result, one `result[name] = value` each. */
  method ReadEntriesInto(io: BytesIO, n: nat, result: LockableDict<TraceParameter>) returns (o: Outcome)
    requires !result.locked
    modifies io, result
    ensures var s := ReadEntries(ReadEntry, old(io.State()), n, old(result.entries));
      o.Pass? == s.Ok? && (s.Ok? ==> io.State() == s.value.0 && result.State() == Lockable(s.value.1, false))
      && (s.Err? ==> o.error == s.error)
  {
    ghost var target := ReadSetEntries(io.State(), n, result.entries);
    ReadSetEntriesIs(io.State(), n, result.entries);
    var left := n;
    while left > 0
      invariant !result.locked
      invariant target == ReadSetEntries(io.State(), left, result.entries)
    {
      ghost var acc := result.entries;
      ghost var before := io.State();
      var e := ReadOneEntry(io);
      if e.Err? {
        ReadSetEntriesFails(before, left, acc);
        return Fail(e.error);
      }
      ghost var p := (io.State(), e.value);
      o := result.SetItem(e.value.0, e.value.1);
      left := left - 1;
      ReadSetEntriesUnfold(before, left, acc, p);
    }
    o := Pass;
  }

  /** ReadEntries with ReadEntry, as the loop of `deserialize(raw)` runs it. */
  function ReadSetEntries(c: Cursor, n: nat, acc: ODict<seq<byte>, TraceParameter>): (r: Result<(Cursor, ODict<seq<byte>, TraceParameter>)>)
    decreases n
  {
    if n == 0 then Ok((c, acc))
    else
      var (c1, e) :- ReadEntry(c);
      ReadSetEntries(c1, n - 1, Set(acc, e.0, e.1))
  }

  lemma {:induction false} ReadSetEntriesIs(c: Cursor, n: nat, acc: ODict<seq<byte>, TraceParameter>)
    ensures ReadSetEntries(c, n, acc) == ReadEntries(ReadEntry, c, n, acc)
    decreases n
  {
    if n > 0 {
      var r := ReadEntry(c);
      if r.Ok? {
        var p := r.value;
        var m: nat := n - 1;
        ReadSetEntriesIs(p.0, m, Set(acc, p.1.0, p.1.1));
        ReadSetEntriesOk(c, m, acc, p);
      } else {
        ReadSetEntriesErr(c, n - 1, acc);
      }
    }
  }

  /** Both loops go on the same way after an entry that reads. */
  lemma ReadSetEntriesOk(c: Cursor, n: nat, acc: ODict<seq<byte>, TraceParameter>, p: (Cursor, Entry))
    requires ReadEntry(c) == Ok(p)
    requires ReadSetEntries(p.0, n, Set(acc, p.1.0, p.1.1)) == ReadEntries(ReadEntry, p.0, n, Set(acc, p.1.0, p.1.1))
    ensures ReadSetEntries(c, n + 1, acc) == ReadEntries(ReadEntry, c, n + 1, acc)
  {
  }

  /** ReadSetEntries after an entry that reads. */
  lemma ReadSetEntriesUnfold(c: Cursor, n: nat, acc: ODict<seq<byte>, TraceParameter>, p: (Cursor, Entry))
    requires ReadEntry(c) == Ok(p)
    ensures ReadSetEntries(c, n + 1, acc) == ReadSetEntries(p.0, n, Set(acc, p.1.0, p.1.1))
  {
  }

  /** ReadSetEntries stops with the error of an entry that does not read. */
  lemma ReadSetEntriesFails(c: Cursor, n: nat, acc: ODict<seq<byte>, TraceParameter>)
    requires n > 0 && ReadEntry(c).Err?
    ensures ReadSetEntries(c, n, acc) == Err(ReadEntry(c).error)
  {
  }

  /** Both loops stop with the same error at an entry that does not read. */
  lemma ReadSetEntriesErr(c: Cursor, n: nat, acc: ODict<seq<byte>, TraceParameter>)
    requires ReadEntry(c).Err?
    ensures ReadSetEntries(c, n + 1, acc) == ReadEntries(ReadEntry, c, n + 1, acc)
  {
  }

  /** One pass of the loop of `deserialize(raw)`: read_parameter_name, then TraceSetParameter.deserialize. */
  method ReadOneEntry(io: BytesIO) returns (r: Result<Entry>)
    modifies io
    ensures var s := ReadEntry(old(io.State()));
      r.Ok? == s.Ok? && (s.Ok? ==> r.value == s.value.1 && io.State() == s.value.0)
      && (s.Err? ==> r.error == s.error)
  {
    ghost var before := io.State();
    var name := io.ReadParameterName();
    ghost var after := io.State();
    var value := ReadSetParameter(io);
    if value.Err? {
      ReadEntryFails(before, after, value.error);
      return Err(value.error);
    }
    ReadEntryOf(before, after, (name, value.value), io.State());
    r := Ok((name, value.value));
  }
}
