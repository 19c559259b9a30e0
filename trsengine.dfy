// trsfile/engine/trs.py, class TrsEngine: opening a .trs file in one of the
// modes r, w, x and a, creating its headers, writing traces with
// set_traces, reading them with get_traces, and closing it.
module TrsEngines {
  import opened PyErrors
  import opened PyValues
  import opened Utils
  import opened OrderedDicts
  import opened LockableDicts
  import opened Common
  import opened Engines
  import opened Tlvs
  import opened TrsHeaders
  import opened TrsTraces
  import TPM = TraceParameterMaps
  import Defs = TraceParameterDefinitionMaps

  function MaxInt(a: int, b: int): int
  {
    if a >= b then a else b
  }

  /** Python's `a % b` for a non-zero b: the remainder takes the sign of b. */
  function PyMod(a: int, b: int): (r: int)
    requires b != 0
    ensures b > 0 ==> 0 <= r < b
    ensures b < 0 ==> b < r <= 0
  {
    if b > 0 then a % b else -((-a) % (-b))
  }

  /** `max(xs)` of a non-empty list. */
  function MaxOf(xs: seq<int>): (m: int)
    requires xs != []
    ensures m in xs && forall j :: 0 <= j < |xs| ==> xs[j] <= m
  {
    if |xs| == 1 then xs[0]
    else
      var m' := MaxOf(xs[1..]);
      assert forall j :: 1 <= j < |xs| ==> xs[j] == xs[1..][j - 1];
      if xs[0] >= m' then xs[0] else m'
  }

  /** `len(set(xs)) <= 1`: all elements are the first one. */
  predicate Uniform<T(==)>(xs: seq<T>)
  {
    forall j :: 0 <= j < |xs| ==> xs[j] == xs[0]
  }

  // ---------------------------------------------------------------------
  // Opening a file

  /** The `mode` argument of TrsEngine: 'r', 'w', 'x', 'a', or anything else. */
  datatype Mode = Read | Write | Exclusive | Append | OtherMode

  /** The attributes `__init__` sets before the headers are read or created, over the bytes of the file. */
  function Fresh(file: seq<byte>, readOnly: bool, padding: TracePadding, liveUpdate: int, ignore: bool): (e: Engine)
    ensures e.headers == [] && e.locations == [] && e.traceblockOffset.None? && e.pos == 0 && e.file == file && e.mapped == |file|
  {
    Engine(file, |file|, 0, [], [], None, None, None, readOnly, padding, liveUpdate, 0, ignore, false, false)
  }

  /** The headers of an existing file read into a fresh engine; an empty file cannot be memory mapped (ValueError). */
  function OpenExisting(existing: seq<byte>, readOnly: bool, padding: TracePadding, liveUpdate: int, ignore: bool): (r: Result<Engine>)
    ensures r.Ok? ==> existing != [] && r.value.file == existing && r.value.readOnly == readOnly && r.value.padding == padding && !r.value.closed
  {
    if existing == [] then Err(ValueError) else ReadHeaders(Fresh(existing, readOnly, padding, liveUpdate, ignore))
  }

  /** A writable engine over a new file of one zero byte, with its headers created. */
  function OpenNew(headers: Option<HeaderDict>, padding: TracePadding, liveUpdate: int, ignore: bool): (r: Result<Engine>)
    ensures r.Ok? ==> !r.value.readOnly && r.value.padding == padding && !r.value.closed
  {
    AfterCreateHeaders(Fresh([0], false, padding, liveUpdate, ignore), headers)
  }

  /**
   * `TrsEngine(path, mode, **options)`. Whether the file exists and the
   * bytes it holds are inputs; a file created here starts as the one zero
   * byte written so that it can be memory mapped, and an empty existing
   * file cannot be mapped (ValueError). Headers are read from an existing
   * file (modes r and a) and created otherwise.
   */
  function Opened(mode: Mode, fileExists: bool, existing: seq<byte>, headers: Option<HeaderDict>,
                  padding: TracePadding, liveUpdate: int, ignore: bool): (r: Result<Engine>)
    ensures padding != NONE && padding != AUTO ==> r == Err(ValueError)
    ensures r.Ok? ==> (r.value.readOnly <==> mode == Read) && r.value.padding == padding && !r.value.closed
    ensures r.Ok? && mode == Read ==> headers.None? && fileExists && existing != [] && r.value.file == existing
    ensures r.Ok? && headers.Some? ==> AllKnown(headers.value) && mode != Read && (mode == Append ==> !fileExists)
    ensures r.Ok? ==> mode != OtherMode && (mode == Exclusive ==> !fileExists)
  {
    if padding != NONE && padding != AUTO then Err(ValueError)
    else
      match mode
      case Read =>
        if headers.Some? then Err(TypeError)
        else if !fileExists then Err(FileNotFoundError)
        else OpenExisting(existing, true, padding, liveUpdate, ignore)
      case Write =>
        if headers.Some? && !AllKnown(headers.value) then Err(TypeError)
        else OpenNew(headers, padding, liveUpdate, ignore)
      case Exclusive =>
        if headers.Some? && !AllKnown(headers.value) then Err(TypeError)
        else if fileExists then Err(FileExistsError)
        else OpenNew(headers, padding, liveUpdate, ignore)
      case Append =>
        if fileExists && headers.Some? then Err(TypeError)
        else if !fileExists && headers.Some? && !AllKnown(headers.value) then Err(TypeError)
        else if fileExists then
          OpenExisting(existing, false, padding, liveUpdate, ignore)
        else OpenNew(headers, padding, liveUpdate, ignore)
      case OtherMode => Err(ValueError)
  }

  // ---------------------------------------------------------------------
  // __create_headers

  /** A header's default as a value of the header dictionary. */
  function Default(h: Header): HeaderValue
  {
    match h.default
    case Value(v) => Plain(v)
    case Coding(c) => CodingValue(c)
  }

  /** `copy.deepcopy` of a header value: a parameter map comes out unlocked. */
  function DeepCopyValue(v: HeaderValue): HeaderValue
  {
    match v
    case SetParams(m) => SetParams(DeepCopied(m))
    case DefParams(d) => DefParams(DeepCopied(d))
    case _ => v
  }

  /** `copy.deepcopy` of the header dictionary given on creation. */
  function DeepCopyHeaders(hs: HeaderDict): (r: HeaderDict)
    ensures |r| == |hs| && forall i :: 0 <= i < |hs| ==> r[i] == (hs[i].0, DeepCopyValue(hs[i].1))
  {
    seq(|hs|, i requires 0 <= i < |hs| => (hs[i].0, DeepCopyValue(hs[i].1)))
  }

  /** `if h not in headers: headers[h] = v` */
  function SetIfMissing(hs: HeaderDict, h: Header, v: HeaderValue): (r: HeaderDict)
  {
    if HasKey(hs, Known(h)) then hs else Set(hs, Known(h), v)
  }

  /**
   * The mandatory headers in declaration order. `get_mandatory()` is a set,
   * whose iteration order Python leaves to hashing; the model adds the
   * missing ones in this order.
   */
  const MandatoryInOrder: seq<Header> := [NUMBER_TRACES, NUMBER_SAMPLES, SAMPLE_CODING, TRACE_BLOCK]

  /** The loop of __create_headers over the mandatory headers: each missing one gets its default. */
  function AddMissing(hs: HeaderDict, ms: seq<Header>): (r: HeaderDict)
    decreases |ms|
  {
    if ms == [] then hs else AddMissing(SetIfMissing(hs, ms[0], Default(ms[0])), ms[1..])
  }

  /**
   * The headers __create_headers writes: a deep copy of those given, SAMPLE_CODING
   * unset unless given, the missing mandatory headers with their defaults,
   * TRS_VERSION raised to 2 when a parameter map header is present (a
   * TRS_VERSION that is no int cannot be compared: TypeError), TITLE_SPACE
   * with its default and LENGTH_DATA unset unless given.
   */
  function CompleteHeaders(given: Option<HeaderDict>): (r: Result<HeaderDict>)
  {
    var hs0 := if given.Some? then DeepCopyHeaders(given.value) else [];
    var hs1 := SetIfMissing(hs0, SAMPLE_CODING, Plain(PNone));
    var hs2 := AddMissing(hs1, MandatoryInOrder);
    var raise :- if HasKey(hs2, Known(TRACE_PARAMETER_DEFINITIONS)) || HasKey(hs2, Known(TRACE_SET_PARAMETERS)) then
                   if !HasKey(hs2, Known(TRS_VERSION)) then Ok(true)
                   else var v :- IntOf(Get(hs2, Known(TRS_VERSION)).value); Ok(v < 2)
                 else Ok(false);
    var hs3 := if raise then Set(hs2, Known(TRS_VERSION), Plain(PInt(2))) else hs2;
    var hs4 := SetIfMissing(hs3, TITLE_SPACE, Default(TITLE_SPACE));
    Ok(SetIfMissing(hs4, LENGTH_DATA, Plain(PNone)))
  }

  /** `__create_headers(headers)`: the completed headers, all written to the file. */
  function AfterCreateHeaders(e: Engine, given: Option<HeaderDict>): (r: Result<Engine>)
    ensures r.Ok? ==> CompleteHeaders(given).Ok? && SameSettings(e, r.value)
    ensures CompleteHeaders(given).Err? ==> r == Err(TypeError)
  {
    var hs :- CompleteHeaders(given);
    WriteHeaders(e.(headers := hs), None)
  }

  // ---------------------------------------------------------------------
  // update_headers

  /**
   * `TrsEngine.update_headers(headers)`: Engine.update_headers merges the
   * changed headers into the dictionary, and those are then written.
   */
  function AfterUpdateHeaders(e: Engine, input: Option<HeaderDict>): (r: Result<Engine>)
    ensures e.readOnly ==> r == Err(TypeError)
    ensures !e.readOnly && input.None? ==> r == Ok(e)
    ensures !e.readOnly && input.Some? && !AllKnown(e.headers) ==> r == Err(TypeError)
    ensures !e.readOnly && input.Some? && AllKnown(e.headers) && Changed(e.headers, input.value) == [] ==> r == Ok(e)
    ensures r.Ok? ==> SameSettings(e, r.value)
  {
    var u :- UpdateHeaders(e.readOnly, e.headers, input);
    var e1 := e.(headers := u.headers);
    if |u.changed| > 0 then WriteHeaders(e1, Some(u.changed)) else Ok(e1)
  }

  // ---------------------------------------------------------------------
  // update_headers_with_traces_metadata

  /** The sample counts of the traces: `len(trace)`. */
  function SampleCounts(traces: seq<Trace>): (r: seq<int>)
    ensures |r| == |traces| && forall j :: 0 <= j < |traces| ==> r[j] == |traces[j].samples|
  {
    seq(|traces|, j requires 0 <= j < |traces| => |traces[j].samples|)
  }

  /** The title lengths of the traces, `len(trace.title)`: characters, not bytes. */
  function TitleLengths(traces: seq<Trace>): (r: seq<int>)
    ensures |r| == |traces| && forall j :: 0 <= j < |traces| ==> r[j] == CharCount(traces[j].title)
  {
    seq(|traces|, j requires 0 <= j < |traces| => CharCount(traces[j].title))
  }

  /** The sample codings of the traces. */
  function Codings(traces: seq<Trace>): (r: seq<SampleCoding>)
    ensures |r| == |traces| && forall j :: 0 <= j < |traces| ==> r[j] == traces[j].coding
  {
    seq(|traces|, j requires 0 <= j < |traces| => traces[j].coding)
  }

  /** The lengths of the serialized parameters of the traces, in order; the first that does not serialize fails the list. */
  function DataLengths(traces: seq<Trace>): (r: Result<seq<int>>)
    ensures r.Ok? ==> |r.value| == |traces|
  {
    if traces == [] then Ok([])
    else
      var front :- DataLengths(traces[..|traces| - 1]);
      var b :- TPM.SerializeMap(traces[|traces| - 1].parameters);
      Ok(front + [|b|])
  }

  /** u2 is u, or u with one more entry, for header h. */
  predicate Extends(u: HeaderDict, u2: HeaderDict, h: Header)
  {
    u2 == u || (|u2| == |u| + 1 && u2[..|u|] == u && u2[|u|].0 == Known(h))
  }

  /** An unset NUMBER_SAMPLES becomes the largest sample count of the traces (`max` of none is a ValueError). */
  function SamplesUpdate(hs: HeaderDict, traces: seq<Trace>, u: HeaderDict): (r: Result<HeaderDict>)
    ensures r.Ok? ==> Extends(u, r.value, NUMBER_SAMPLES)
    ensures r.Ok? && IsSet(hs, NUMBER_SAMPLES) ==> r.value == u
  {
    var ns :- Lookup(hs, NUMBER_SAMPLES);
    if ns != Plain(PNone) then Ok(u)
    else if traces == [] then Err(ValueError)
    else Ok(u + [(Known(NUMBER_SAMPLES), Plain(PInt(MaxOf(SampleCounts(traces)))))])
  }

  /** An unset LENGTH_DATA becomes the byte length the parameters of all traces share (TypeError when they differ). */
  function DataLengthUpdate(hs: HeaderDict, traces: seq<Trace>, u: HeaderDict): (r: Result<HeaderDict>)
    ensures r.Ok? ==> Extends(u, r.value, LENGTH_DATA)
  {
    var ld :- Lookup(hs, LENGTH_DATA);
    if ld != Plain(PNone) then Ok(u)
    else
      var lens :- DataLengths(traces);
      if !Uniform(lens) then Err(TypeError)
      else if traces == [] then Err(IndexError)
      else Ok(u + [(Known(LENGTH_DATA), Plain(PInt(lens[0])))])
  }

  /**
   * Missing definitions become those of the first trace's parameters;
   * present definitions must be matched by the parameters of every trace
   * (TypeError).
   */
  function DefinitionsUpdate(hs: HeaderDict, traces: seq<Trace>, u: HeaderDict): (r: Result<HeaderDict>)
    ensures r.Ok? ==> Extends(u, r.value, TRACE_PARAMETER_DEFINITIONS)
    ensures r.Ok? && HasKey(hs, Known(TRACE_PARAMETER_DEFINITIONS)) ==> r.value == u
  {
    if !HasKey(hs, Known(TRACE_PARAMETER_DEFINITIONS)) then
      if traces == [] then Err(IndexError)
      else Ok(u + [(Known(TRACE_PARAMETER_DEFINITIONS), DefParams(TPM.FromTraceParameterMap(traces[0].parameters)))])
    else
      var d := Get(hs, Known(TRACE_PARAMETER_DEFINITIONS)).value;
      if traces == [] then Ok(u)
      else if !d.DefParams? then Err(AttributeError)
      else if exists j :: 0 <= j < |traces| && !TPM.MapMatches(traces[j].parameters, d.d) then Err(TypeError)
      else Ok(u)
  }

  /** An unset SAMPLE_CODING becomes the coding all traces share (TypeError when they differ). */
  function CodingUpdate(hs: HeaderDict, traces: seq<Trace>, u: HeaderDict): (r: Result<HeaderDict>)
    ensures r.Ok? ==> Extends(u, r.value, SAMPLE_CODING)
    ensures r.Ok? && IsSet(hs, SAMPLE_CODING) ==> r.value == u
  {
    var sc :- Lookup(hs, SAMPLE_CODING);
    if sc != Plain(PNone) then Ok(u)
    else if !Uniform(Codings(traces)) then Err(TypeError)
    else if traces == [] then Err(IndexError)
    else Ok(u + [(Known(SAMPLE_CODING), CodingValue(traces[0].coding))])
  }

  /** An unset TITLE_SPACE becomes the length of the longest title. */
  function TitleSpaceUpdate(hs: HeaderDict, traces: seq<Trace>, u: HeaderDict): (r: Result<HeaderDict>)
    ensures r.Ok? ==> Extends(u, r.value, TITLE_SPACE)
    ensures r.Ok? && IsSet(hs, TITLE_SPACE) ==> r.value == u
  {
    var ts :- Lookup(hs, TITLE_SPACE);
    if ts != Plain(PNone) then Ok(u)
    else if traces == [] then Err(ValueError)
    else Ok(u + [(Known(TITLE_SPACE), Plain(PInt(MaxOf(TitleLengths(traces)))))])
  }

  /**
   * The header updates update_headers_with_traces_metadata computes, in its
   * order: NUMBER_SAMPLES, LENGTH_DATA, the definitions, SAMPLE_CODING and
   * TITLE_SPACE. Each of NUMBER_SAMPLES, LENGTH_DATA, SAMPLE_CODING and
   * TITLE_SPACE must be in the dictionary (KeyError otherwise).
   */
  function MetadataUpdates(hs: HeaderDict, traces: seq<Trace>): (r: Result<HeaderDict>)
  {
    var u1 :- SamplesUpdate(hs, traces, []);
    var u2 :- DataLengthUpdate(hs, traces, u1);
    var u3 :- DefinitionsUpdate(hs, traces, u2);
    var u4 :- CodingUpdate(hs, traces, u3);
    TitleSpaceUpdate(hs, traces, u4)
  }

  /** `update_headers_with_traces_metadata(traces)`: the updates, applied with update_headers. */
  function AfterMetadata(e: Engine, traces: seq<Trace>): (r: Result<Engine>)
    ensures e.readOnly ==> r.Err?
    ensures r.Ok? ==> AllKnown(e.headers) && MetadataUpdates(e.headers, traces).Ok? && SameSettings(e, r.value)
  {
    var u :- MetadataUpdates(e.headers, traces);
    AfterUpdateHeaders(e, Some(u))
  }

  // ---------------------------------------------------------------------
  // set_traces

  /**
   * The indexes set_traces writes: `range(i, i + 1)` for an int i; for a
   * slice, `slice.indices(slice.stop)` (a slice without a stop is a
   * TypeError) with the stop moved on to cover all n traces.
   */
  function SetIndexes(index: Index, n: nat): (r: Result<PyRange>)
    ensures r.Ok? ==> r.value.step != 0
  {
    match index
    case At(i) => Ok(PyRange(i, i + 1, 1))
    case Slice(start, stop, step) =>
      if stop.None? then Err(TypeError)
      else
        var rg :- SliceIndices(start, stop, step, stop.value);
        Ok(PyRange(rg.start, MaxInt(rg.stop, rg.start + n), rg.step))
  }

  /** `self.headers[NUMBER_TRACES]` used as a number. */
  function CountOf(hs: HeaderDict): (r: Result<int>)
  {
    var v :- Lookup(hs, NUMBER_TRACES);
    IntOf(v)
  }

  /** The headers that padding mode NONE needs set. */
  const Required: seq<Header> := [NUMBER_SAMPLES, LENGTH_DATA, SAMPLE_CODING, TITLE_SPACE]

  /** A header that is in the dictionary and not None. */
  predicate IsSet(hs: HeaderDict, h: Header)
  {
    HasKey(hs, Known(h)) && Get(hs, Known(h)).value != Plain(PNone)
  }

  /**
   * The padding step of set_traces: AUTO derives the unset headers from the
   * batch; NONE refuses a batch while a required header is unset
   * (ValueError); the other modes are not implemented.
   */
  function Pad(e: Engine, traces: seq<Trace>): (r: Result<Engine>)
    ensures e.padding == NONE ==> (r.Ok? <==> forall j :: 0 <= j < |Required| ==> IsSet(e.headers, Required[j]))
    ensures e.padding == NONE ==> r == Ok(e) || r == Err(ValueError)
    ensures e.padding != NONE && e.padding != AUTO ==> r == Err(NotImplementedError)
    ensures e.padding == AUTO && r.Ok? ==> AllKnown(e.headers)
    ensures r.Ok? ==> SameSettings(e, r.value)
  {
    match e.padding
    case AUTO => AfterMetadata(e, traces)
    case NONE => if exists j :: 0 <= j < |Required| && !IsSet(e.headers, Required[j]) then Err(ValueError) else Ok(e)
    case _ => Err(NotImplementedError)
  }

  /** The headers set_traces adds before the first trace: an empty trace set parameter map and TRS_VERSION 2. */
  function FirstTraceHeaders(): (r: HeaderDict)
  {
    [(Known(TRACE_SET_PARAMETERS), SetParams(Lockable([], false))), (Known(TRS_VERSION), Plain(PInt(2)))]
  }

  /** `sample_length` and `trace_length`, computed from the headers the first time they are needed. */
  function Stride(e: Engine): (r: Result<Engine>)
    ensures r.Ok? ==> r.value.traceLength.Some? && r.value == e.(sampleLength := r.value.sampleLength, traceLength := r.value.traceLength)
  {
    var sl :- if e.sampleLength.Some? then Ok(e.sampleLength.value) else SampleLength(e.headers);
    var tl :- if e.traceLength.Some? then Ok(e.traceLength.value) else TraceLength(e.headers, sl);
    Ok(e.(sampleLength := Some(sl), traceLength := Some(tl)))
  }

  /** `file_handle.seek(p)` and `write(b)`: a seek past the end leaves zero bytes up to p. */
  function WriteFile(file: seq<byte>, p: nat, b: seq<byte>): (r: seq<byte>)
    ensures |r| == MaxInt(|file|, p + |b|)
    ensures r[p..p + |b|] == b
    ensures forall j :: 0 <= j < |file| && !(p <= j < p + |b|) ==> r[j] == file[j]
  {
    if p <= |file| then WriteAt(file, p, b) else WriteAt(file + Repeat(0, p - |file|), p, b)
  }

  /** Where the record of trace i starts: `traceblock_offset + i * trace_length`. */
  function RecordOffset(e: Engine, i: int): (r: Result<nat>)
    ensures r.Ok? ==> e.traceblockOffset.Some? && e.traceLength.Some? && r.value == e.traceblockOffset.value + i * e.traceLength.value
  {
    if e.traceblockOffset.None? || e.traceLength.None? then Err(TypeError)
    else
      var p := e.traceblockOffset.value + i * e.traceLength.value;
      if p < 0 then Err(ValueError) else Ok(p)
  }

  /** The record of a trace under the current headers: TITLE_SPACE, NUMBER_SAMPLES and the size of SAMPLE_CODING. */
  function Record(hs: HeaderDict, t: Trace): (r: Result<seq<byte>>)
  {
    var tsValue :- Lookup(hs, TITLE_SPACE);
    var ts :- IntOf(tsValue);
    var nsValue :- Lookup(hs, NUMBER_SAMPLES);
    var ns :- IntOf(nsValue);
    var sc :- CodingOf(hs);
    EncodeRecord(t, ts, ns, sc.Size())
  }

  /**
   * One pass of the loop of set_traces: under NONE a trace whose sample
   * count is not NUMBER_SAMPLES is a ValueError; otherwise its record is
   * written at its offset.
   */
  function WriteRecord(e: Engine, i: int, t: Trace): (r: Result<Engine>)
    ensures r.Ok? ==> r.value == e.(file := r.value.file)
  {
    var fits :- if e.padding != NONE then Ok(true)
                else var ns :- Lookup(e.headers, NUMBER_SAMPLES); Ok(IntOf(ns) == Ok(|t.samples|));
    if !fits then Err(ValueError)
    else
      var p :- RecordOffset(e, i);
      var rec :- Record(e.headers, t);
      Ok(e.(file := WriteFile(e.file, p, rec)))
  }

  /** The loop of set_traces from the j-th trace on. */
  function WriteFrom(e: Engine, rg: PyRange, traces: seq<Trace>, j: nat): (r: Result<Engine>)
    requires j <= |traces|
    ensures r.Ok? ==> r.value == e.(file := r.value.file)
    decreases |traces| - j
  {
    if j == |traces| then Ok(e)
    else
      var e1 :- WriteRecord(e, rg.At(j), traces[j]);
      WriteFrom(e1, rg, traces, j + 1)
  }

  /**
   * The new trace count, `max(NUMBER_TRACES, max(indexes) + 1)`. When it
   * grows, the traces count towards a live update: once live_update of them
   * are in (live_update not 0) the count is written with update_header,
   * otherwise it only goes into the dictionary.
   */
  function Count(e: Engine, rg: PyRange, n: nat): (r: Result<Engine>)
  {
    var nt :- CountOf(e.headers);
    var newCount := MaxInt(nt, rg.Max() + 1);
    if nt < newCount then Grow(e, newCount, n) else Ok(e)
  }

  /** The count step when the count grows. */
  lemma CountGrows(e: Engine, rg: PyRange, n: nat, nt: int)
    requires CountOf(e.headers) == Ok(nt) && nt < MaxInt(nt, rg.Max() + 1)
    ensures Count(e, rg, n) == Grow(e, MaxInt(nt, rg.Max() + 1), n)
  {
  }

  /** The count step when the count stays. */
  lemma CountStays(e: Engine, rg: PyRange, n: nat, nt: int)
    requires CountOf(e.headers) == Ok(nt) && nt >= rg.Max() + 1
    ensures Count(e, rg, n) == Ok(e)
  {
  }

  /** The trace count grown to newCount by a batch of n traces: written at once, or only kept in the dictionary. */
  function Grow(e: Engine, newCount: int, n: nat): (r: Result<Engine>)
  {
    var e1 := e.(synched := false, liveUpdateCount := e.liveUpdateCount + n);
    if e1.liveUpdate != 0 && e1.liveUpdateCount >= e1.liveUpdate then
      AfterUpdateHeaders(e1.(liveUpdateCount := 0), Some([(Known(NUMBER_TRACES), Plain(PInt(newCount)))]))
    else Ok(e1.(headers := Set(e1.headers, Known(NUMBER_TRACES), Plain(PInt(newCount)))))
  }

  /** What set_traces does once its indexes are checked and the batch is not empty, up to the loop. */
  function Prepare(e: Engine, rg: PyRange, traces: seq<Trace>): (r: Result<Engine>)
    ensures r.Ok? ==> Pad(e, traces).Ok? && r.value.traceLength.Some? && r.value.sampleLength.Some?
    ensures r.Ok? ==> r.value.readOnly == e.readOnly && r.value.padding == e.padding && r.value.liveUpdate == e.liveUpdate && r.value.closed == e.closed
    ensures r.Ok? && e.traceLength.Some? ==> r.value.traceLength == e.traceLength
  {
    var e1 :- Pad(e, traces);
    var e2 :- if rg.start == 0 && !HasKey(e1.headers, Known(TRACE_SET_PARAMETERS)) then AfterUpdateHeaders(e1, Some(FirstTraceHeaders())) else Ok(e1);
    Stride(e2)
  }

  /**
   * `set_traces(index, traces)`: an index past the trace count is an
   * IndexError, a number of traces other than the number of indexes a
   * TypeError, and an empty batch changes nothing; otherwise the headers
   * are completed, each trace's record is written at its index and the
   * count is updated.
   */
  function AfterSetTraces(e: Engine, index: Index, traces: seq<Trace>): (r: Result<Engine>)
    ensures r.Ok? ==> SetIndexes(index, |traces|).Ok? && CountOf(e.headers).Ok?
    ensures r.Ok? ==> SetIndexes(index, |traces|).value.start <= CountOf(e.headers).value && SetIndexes(index, |traces|).value.Len() == |traces|
    ensures r.Ok? && |traces| == 0 ==> r.value == e
  {
    var rg :- SetIndexes(index, |traces|);
    var nt :- CountOf(e.headers);
    if rg.start > nt then Err(IndexError)
    else if rg.Len() != |traces| then Err(TypeError)
    else if |traces| == 0 then Ok(e)
    else
      var e1 :- Prepare(e, rg, traces);
      var e2 :- WriteFrom(e1, rg, traces, 0);
      Count(e2, rg, |traces|)
  }

  // ---------------------------------------------------------------------
  // get_traces

  /**
   * The indexes get_traces reads: `slice.indices(length())` for a slice;
   * an int is wrapped modulo the length when negative and must then be
   * below the length (IndexError). `length()` is NUMBER_TRACES, 0 when
   * it is missing.
   */
  function GetIndexes(e: Engine, index: Index): (r: Result<PyRange>)
  {
    var len :- IntOrZero(e.headers, NUMBER_TRACES);
    match index
    case Slice(start, stop, step) => SliceIndices(start, stop, step, len)
    case At(i) =>
      var j :- if i >= 0 then Ok(i) else if len == 0 then Err(ZeroDivisionError) else Ok(PyMod(i, len));
      if j >= len then Err(IndexError) else Ok(PyRange(j, j + 1, 1))
  }

  /**
   * The resize of get_traces as written: a writable engine whose memory map
   * is not in step with the file compares the FILE's size with room for
   * one trace more than NUMBER_TRACES, and when the file is shorter grows
   * file and map to that size.
   */
  function Sync(e: Engine, len: int): (r: Result<Engine>)
    ensures e.synched || e.readOnly ==> r == Ok(e)
    ensures r.Err? <==> !e.synched && !e.readOnly && (e.traceblockOffset.None? || e.traceLength.None?)
    ensures r.Err? ==> r.error == TypeError
    ensures r.Ok? ==> r.value == e.(file := r.value.file, mapped := r.value.mapped, synched := r.value.synched)
    ensures r.Ok? ==> |e.file| <= |r.value.file| && r.value.file[..|e.file|] == e.file
    ensures r.Ok? && !e.synched && !e.readOnly ==>
      r.value.synched && |r.value.file| >= e.traceblockOffset.value + (len + 1) * e.traceLength.value
  {
    if e.synched || e.readOnly then Ok(e)
    else if e.traceblockOffset.None? || e.traceLength.None? then Err(TypeError)
    else
      var total := e.traceblockOffset.value + (len + 1) * e.traceLength.value;
      if |e.file| < total then Ok(e.(file := e.file + Repeat(0, total - |e.file|), mapped := total, synched := true))
      else Ok(e.(synched := true))
  }

  /** `mmap.resize(n)`: the file cut or zero-filled to n bytes. */
  function Resized(file: seq<byte>, n: nat): (r: seq<byte>)
    ensures |r| == n && r[..if n < |file| then n else |file|] == file[..if n < |file| then n else |file|]
    ensures forall j :: |file| <= j < n ==> r[j] == 0
  {
    if n <= |file| then file[..n] else file + Repeat(0, n - |file|)
  }

  /**
   * The resize of get_traces as intended: the MAP's length is compared with
   * room for NUMBER_TRACES traces, the length __read_headers checks, and
   * file and map are resized to it when the map is shorter.
   */
  function SyncIntended(e: Engine, len: int): (r: Result<Engine>)
    ensures e.synched || e.readOnly ==> r == Ok(e)
    ensures r.Err? <==> !e.synched && !e.readOnly && (e.traceblockOffset.None? || e.traceLength.None?)
    ensures r.Err? ==> r.error == TypeError
    ensures r.Ok? ==> r.value == e.(file := r.value.file, mapped := r.value.mapped, synched := r.value.synched)
    ensures r.Ok? && !e.synched && !e.readOnly ==>
      r.value.synched && MapLen(r.value) >= e.traceblockOffset.value + len * e.traceLength.value
    ensures r.Ok? && !e.synched && !e.readOnly && MapLen(e) >= e.traceblockOffset.value + len * e.traceLength.value ==>
      r.value.file == e.file && r.value.mapped == e.mapped
  {
    if e.synched || e.readOnly then Ok(e)
    else if e.traceblockOffset.None? || e.traceLength.None? then Err(TypeError)
    else
      var total := e.traceblockOffset.value + len * e.traceLength.value;
      if MapLen(e) < total then Ok(e.(file := Resized(e.file, total), mapped := total, synched := true))
      else Ok(e.(synched := true))
  }

  /**
   * One pass of the loop of get_traces: the trace whose record starts at
   * index i, read through the memory map (a seek past the end of the map
   * is a ValueError; reads stop at its end).
   */
  function ReadAt(e: Engine, i: int): (r: Result<Trace>)
  {
    var p :- RecordOffset(e, i);
    if p > MapLen(e) then Err(ValueError)
    else ReadTrace(Cursor(e.file[..MapLen(e)], p), e.headers, e.traceLength.value)
  }

  /** The loop of get_traces from the j-th index on, after the traces read so far. */
  function ReadFrom(e: Engine, rg: PyRange, j: nat, acc: seq<Trace>): (r: Result<seq<Trace>>)
    ensures r.Ok? ==> |r.value| == |acc| + (if j < rg.Len() then rg.Len() - j else 0) && r.value[..|acc|] == acc
    decreases rg.Len() - j
  {
    if j >= rg.Len() then Ok(acc)
    else
      var t :- ReadAt(e, rg.At(j));
      ReadFrom(e, rg, j + 1, acc + [t])
  }

  /** `get_traces(index)`: the indexes, the resize as written, then the traces. */
  function AfterGetTraces(e: Engine, index: Index): (r: Result<(Engine, seq<Trace>)>)
    ensures GetIndexes(e, index).Err? ==> r.Err?
    ensures r.Ok? ==> GetIndexes(e, index).Ok? && |r.value.1| == GetIndexes(e, index).value.Len()
    ensures r.Ok? ==> r.value.0 == e.(file := r.value.0.file, mapped := r.value.0.mapped, synched := r.value.0.synched)
  {
    // length() fails before the indexes are computed, with the error GetIndexes would give
    var len :- IntOrZero(e.headers, NUMBER_TRACES);
    var rg :- GetIndexes(e, index);
    var e1 :- Sync(e, len);
    var ts :- ReadFrom(e1, rg, 0, []);
    Ok((e1, ts))
  }

  /** `get_traces(index)` with the resize as intended. */
  function AfterGetTracesIntended(e: Engine, index: Index): (r: Result<(Engine, seq<Trace>)>)
    ensures GetIndexes(e, index).Err? ==> r.Err?
    ensures r.Ok? ==> GetIndexes(e, index).Ok? && |r.value.1| == GetIndexes(e, index).value.Len()
    ensures r.Ok? ==> r.value.0 == e.(file := r.value.0.file, mapped := r.value.0.mapped, synched := r.value.0.synched)
  {
    // length() fails before the indexes are computed, with the error GetIndexes would give
    var len :- IntOrZero(e.headers, NUMBER_TRACES);
    var rg :- GetIndexes(e, index);
    var e1 :- SyncIntended(e, len);
    var ts :- ReadFrom(e1, rg, 0, []);
    Ok((e1, ts))
  }

  // ---------------------------------------------------------------------
  // close

  /** `close()`: a writable engine writes NUMBER_TRACES to its record first; closing twice does nothing. */
  function AfterClose(e: Engine): (r: Result<Engine>)
    ensures e.closed ==> r == Ok(e)
    ensures e.readOnly && !e.closed ==> r == Ok(e.(closed := true))
    ensures !e.closed && !e.readOnly && !HasKey(e.headers, Known(NUMBER_TRACES)) ==> r == Err(KeyError)
    ensures r.Ok? ==> r.value.closed && r.value.readOnly == e.readOnly && r.value.padding == e.padding && r.value.traceLength == e.traceLength
  {
    if e.closed then Ok(e)
    else
      var e1 :- if e.readOnly then Ok(e)
                else var nt :- Lookup(e.headers, NUMBER_TRACES); WriteHeaders(e, Some([(Known(NUMBER_TRACES), nt)]));
      Ok(e1.(closed := true))
  }

  // ---------------------------------------------------------------------
  // What the header writes leave in the dictionary

  /** Writing one header changes the dictionary under its own key at most, and only for a parameter map. */
  lemma WriteOneKeeps(e: Engine, k: HeaderKey, v: HeaderValue, e': Engine, k': HeaderKey)
    requires Distinct(e.headers) && WriteOne(e, k, v) == Ok(e')
    ensures Distinct(e'.headers) && SameSettings(e, e')
    ensures k' != k ==> Get(e'.headers, k') == Get(e.headers, k')
    ensures !v.SetParams? && !v.DefParams? ==> e'.headers == e.headers
  {
    if k != TB && k.Known? {
      var enc := EncodeHeaderValue(k.h, v, e.headers);
      assert enc.Ok?;
      var (b, stored) := enc.value;
      WriteOneIsPlace(e, k.h, v, b, stored);
      if v.SetParams? || v.DefParams? {
        SetKeepsDistinct(e.headers, k, stored);
        GetAfterSet(e.headers, k, stored, k');
      }
    }
  }

  /** No value of hs is a parameter map. */
  predicate PlainOnly(hs: HeaderDict)
  {
    forall i :: 0 <= i < |hs| ==> !hs[i].1.SetParams? && !hs[i].1.DefParams?
  }

  /** No entry of hs under key k holds a parameter map (true when k is missing). */
  predicate NoMapUnder(hs: HeaderDict, k: HeaderKey)
  {
    forall i :: 0 <= i < |hs| && hs[i].0 == k ==> !hs[i].1.SetParams? && !hs[i].1.DefParams?
  }

  /** The loop of __write_headers leaves every header it does not write as it was. */
  lemma {:induction false} WriteAllKeeps(e: Engine, hs: HeaderDict, e': Engine, k': HeaderKey)
    requires Distinct(e.headers) && WriteAll(e, hs) == Ok(e')
    ensures Distinct(e'.headers) && SameSettings(e, e')
    ensures NoMapUnder(hs, k') ==> Get(e'.headers, k') == Get(e.headers, k')
    ensures PlainOnly(hs) ==> e'.headers == e.headers
    decreases |hs|
  {
    if hs != [] {
      var e1 := WriteOne(e, hs[0].0, hs[0].1).value;
      WriteOneKeeps(e, hs[0].0, hs[0].1, e1, k');
      assert NoMapUnder(hs, k') ==> NoMapUnder(hs[1..], k') by {
        if NoMapUnder(hs, k') {
          forall i | 0 <= i < |hs[1..]| && hs[1..][i].0 == k' ensures !hs[1..][i].1.SetParams? && !hs[1..][i].1.DefParams? {
            assert hs[1..][i] == hs[i + 1];
          }
        }
      }
      assert PlainOnly(hs) ==> PlainOnly(hs[1..]) by {
        if PlainOnly(hs) {
          forall i | 0 <= i < |hs[1..]| ensures !hs[1..][i].1.SetParams? && !hs[1..][i].1.DefParams? { assert hs[1..][i] == hs[i + 1]; }
        }
      }
      WriteAllKeeps(e1, hs[1..], e', k');
    }
  }

  /** `__write_headers(hs)` leaves every header it does not write as it was. */
  lemma WriteHeadersKeeps(e: Engine, hs: HeaderDict, e': Engine, k': HeaderKey)
    requires Distinct(e.headers) && WriteHeaders(e, Some(hs)) == Ok(e')
    ensures Distinct(e'.headers) && SameSettings(e, e')
    ensures NoMapUnder(hs, k') ==> Get(e'.headers, k') == Get(e.headers, k')
    ensures PlainOnly(hs) ==> e'.headers == e.headers
  {
    if hs != [] {
      var e1 := WriteAll(e, hs).value;
      WriteAllKeeps(e, hs, e1, k');
    }
  }

  /**
   * TrsEngine.update_headers(input) leaves every header the input does not
   * name as it was, and the dictionary free of repeated keys.
   */
  lemma AfterUpdateHeadersKeeps(e: Engine, input: HeaderDict, e': Engine, k': HeaderKey)
    requires Distinct(e.headers) && Distinct(input) && AfterUpdateHeaders(e, Some(input)) == Ok(e')
    ensures Distinct(e'.headers) && SameSettings(e, e')
    ensures !HasKey(input, k') ==> Get(e'.headers, k') == Get(e.headers, k')
  {
    var u := Merge(e.headers, input);
    MergeResult(e.headers, input, k');
    ChangedExactly(e.headers, input, k');
    if |u.changed| > 0 {
      WriteHeadersKeeps(e.(headers := u.headers), u.changed, e', k');
    }
  }

  /** The keys of u are distinct Headers, all with a tag in tags. */
  ghost predicate KeysAmong(u: HeaderDict, tags: set<byte>)
  {
    Distinct(u) && forall i :: 0 <= i < |u| ==> u[i].0.Known? && u[i].0.h.tag in tags
  }

  lemma ExtendsAmong(u: HeaderDict, u2: HeaderDict, h: Header, tags: set<byte>)
    requires KeysAmong(u, tags) && Extends(u, u2, h) && h.tag !in tags
    ensures KeysAmong(u2, tags + {h.tag})
  {
    if u2 != u {
      assert forall i :: 0 <= i < |u| ==> u2[i] == u2[..|u|][i] == u[i];
    }
  }

  /** update_headers_with_traces_metadata touches NUMBER_SAMPLES, LENGTH_DATA, the definitions, SAMPLE_CODING and TITLE_SPACE, each once. */
  lemma MetadataKeys(hs: HeaderDict, traces: seq<Trace>, u: HeaderDict)
    requires MetadataUpdates(hs, traces) == Ok(u)
    ensures KeysAmong(u, {NUMBER_SAMPLES.tag, LENGTH_DATA.tag, TRACE_PARAMETER_DEFINITIONS.tag, SAMPLE_CODING.tag, TITLE_SPACE.tag})
  {
    var u1 := SamplesUpdate(hs, traces, []).value;
    ExtendsAmong([], u1, NUMBER_SAMPLES, {});
    var u2 := DataLengthUpdate(hs, traces, u1).value;
    ExtendsAmong(u1, u2, LENGTH_DATA, {NUMBER_SAMPLES.tag});
    var u3 := DefinitionsUpdate(hs, traces, u2).value;
    ExtendsAmong(u2, u3, TRACE_PARAMETER_DEFINITIONS, {NUMBER_SAMPLES.tag, LENGTH_DATA.tag});
    var u4 := CodingUpdate(hs, traces, u3).value;
    ExtendsAmong(u3, u4, SAMPLE_CODING, {NUMBER_SAMPLES.tag, LENGTH_DATA.tag, TRACE_PARAMETER_DEFINITIONS.tag});
    ExtendsAmong(u4, u, TITLE_SPACE, {NUMBER_SAMPLES.tag, LENGTH_DATA.tag, TRACE_PARAMETER_DEFINITIONS.tag, SAMPLE_CODING.tag});
  }

  /** The tags of the headers update_headers_with_traces_metadata may set. */
  const MetadataTags: set<byte> := {NUMBER_SAMPLES.tag, LENGTH_DATA.tag, TRACE_PARAMETER_DEFINITIONS.tag, SAMPLE_CODING.tag, TITLE_SPACE.tag}

  /** The padding step leaves every header other than those it may derive as it was. */
  lemma PadKeeps(e: Engine, traces: seq<Trace>, e1: Engine, k: HeaderKey)
    requires Distinct(e.headers) && Pad(e, traces) == Ok(e1)
    requires !(k.Known? && k.h.tag in MetadataTags)
    ensures Distinct(e1.headers) && Get(e1.headers, k) == Get(e.headers, k)
  {
    if e.padding == AUTO {
      var u := MetadataUpdates(e.headers, traces).value;
      MetadataKeys(e.headers, traces, u);
      AfterUpdateHeadersKeeps(e, u, e1, k);
    }
  }

  /**
   * What set_traces does before its loop leaves NUMBER_TRACES, and every
   * header neither the padding nor the first-trace headers set, as it was.
   */
  lemma PrepareKeeps(e: Engine, rg: PyRange, traces: seq<Trace>, e1: Engine, k: HeaderKey)
    requires Distinct(e.headers) && Prepare(e, rg, traces) == Ok(e1)
    requires !(k.Known? && k.h.tag in MetadataTags) && k != Known(TRACE_SET_PARAMETERS) && k != Known(TRS_VERSION)
    ensures Distinct(e1.headers) && Get(e1.headers, k) == Get(e.headers, k)
  {
    var p, p2 := PrepareSteps(e, rg, traces, e1);
    PadKeeps(e, traces, p, k);
    FirstTraceStepKeeps(p, rg, p2, k);
    StrideKeeps(p2, e1);
  }

  /** The first-trace step sets TRACE_SET_PARAMETERS and TRS_VERSION only. */
  lemma FirstTraceStepKeeps(p: Engine, rg: PyRange, p2: Engine, k: HeaderKey)
    requires Distinct(p.headers) && FirstTraceStep(p, rg, p2)
    requires k != Known(TRACE_SET_PARAMETERS) && k != Known(TRS_VERSION)
    ensures Distinct(p2.headers) && Get(p2.headers, k) == Get(p.headers, k)
  {
    if rg.start == 0 && !HasKey(p.headers, Known(TRACE_SET_PARAMETERS)) {
      FirstTraceKeepsKey(p, p2, k);
    }
  }

  /** Merging NUMBER_TRACES n, when n is not the current count, changes exactly that header. */
  lemma CountUpdate(hs: HeaderDict, n: int, nt: int)
    requires Distinct(hs) && CountOf(hs) == Ok(nt) && nt != n
    ensures var input := [(Known(NUMBER_TRACES), Plain(PInt(n)))];
      Merge(hs, input) == Updated(input, OrderedDicts.Update(hs, input))
      && Distinct(OrderedDicts.Update(hs, input)) && CountOf(OrderedDicts.Update(hs, input)) == Ok(n)
  {
    var k := Known(NUMBER_TRACES);
    var input := [(k, Plain(PInt(n)))];
    assert input[..0] == [];
    assert Changed(hs, input) == input;
    GetAfterUpdate(hs, input, k);
  }

  /** update_header(NUMBER_TRACES, n) with n not the current count stores n. */
  lemma UpdateCountSets(e: Engine, n: int, e': Engine, nt: int)
    requires Distinct(e.headers) && CountOf(e.headers) == Ok(nt) && nt != n
    requires AfterUpdateHeaders(e, Some([(Known(NUMBER_TRACES), Plain(PInt(n)))])) == Ok(e')
    ensures Distinct(e'.headers) && CountOf(e'.headers) == Ok(n)
  {
    var input := [(Known(NUMBER_TRACES), Plain(PInt(n)))];
    CountUpdate(e.headers, n, nt);
    WriteHeadersKeeps(e.(headers := OrderedDicts.Update(e.headers, input)), input, e', Known(NUMBER_TRACES));
  }

  /** `headers[NUMBER_TRACES] = n` stores n. */
  lemma SetCountSets(hs: HeaderDict, n: int)
    requires Distinct(hs)
    ensures Distinct(Set(hs, Known(NUMBER_TRACES), Plain(PInt(n))))
    ensures CountOf(Set(hs, Known(NUMBER_TRACES), Plain(PInt(n)))) == Ok(n)
  {
    SetKeepsDistinct(hs, Known(NUMBER_TRACES), Plain(PInt(n)));
    GetAfterSet(hs, Known(NUMBER_TRACES), Plain(PInt(n)), Known(NUMBER_TRACES));
  }

  /** The count step leaves NUMBER_TRACES at the larger of its old value and the last index plus one. */
  lemma CountSets(e: Engine, rg: PyRange, n: nat, e': Engine, nt: int)
    requires Distinct(e.headers) && Count(e, rg, n) == Ok(e') && CountOf(e.headers) == Ok(nt)
    ensures Distinct(e'.headers) && CountOf(e'.headers) == Ok(MaxInt(nt, rg.Max() + 1))
  {
    var newCount := MaxInt(nt, rg.Max() + 1);
    if nt < newCount {
      var e1 := e.(synched := false, liveUpdateCount := e.liveUpdateCount + n);
      if e1.liveUpdate != 0 && e1.liveUpdateCount >= e1.liveUpdate {
        UpdateCountSets(e1.(liveUpdateCount := 0), newCount, e', nt);
      } else {
        SetCountSets(e.headers, newCount);
      }
    }
  }

  /** A non-empty batch that set_traces writes goes through Prepare, the loop and Count, in that order. */
  lemma SetTracesSteps(e: Engine, index: Index, traces: seq<Trace>, e': Engine, rg: PyRange) returns (e1: Engine, e2: Engine)
    requires AfterSetTraces(e, index, traces) == Ok(e') && traces != []
    requires SetIndexes(index, |traces|) == Ok(rg)
    ensures Prepare(e, rg, traces) == Ok(e1) && WriteFrom(e1, rg, traces, 0) == Ok(e2) && Count(e2, rg, |traces|) == Ok(e')
  {
    e1 := Prepare(e, rg, traces).value;
    e2 := WriteFrom(e1, rg, traces, 0).value;
  }

  /** Two dictionaries that agree on NUMBER_TRACES have the same count. */
  lemma SameCount(hs: HeaderDict, hs': HeaderDict)
    requires Get(hs, Known(NUMBER_TRACES)) == Get(hs', Known(NUMBER_TRACES))
    ensures CountOf(hs) == CountOf(hs')
  {
  }

  /** Before the count step, NUMBER_TRACES is still what it was when set_traces began. */
  lemma BeforeCountKeeps(e: Engine, rg: PyRange, traces: seq<Trace>, e1: Engine, e2: Engine, nt: int)
    requires Distinct(e.headers) && CountOf(e.headers) == Ok(nt)
    requires Prepare(e, rg, traces) == Ok(e1) && WriteFrom(e1, rg, traces, 0) == Ok(e2)
    ensures Distinct(e2.headers) && CountOf(e2.headers) == Ok(nt)
  {
    PrepareKeepsCount(e, rg, traces, e1);
    WriteFromHeaders(e1, rg, traces, e2);
  }

  /** The steps of set_traces before its loop leave NUMBER_TRACES as it was. */
  lemma PrepareKeepsCount(e: Engine, rg: PyRange, traces: seq<Trace>, e1: Engine)
    requires Distinct(e.headers) && Prepare(e, rg, traces) == Ok(e1)
    ensures Distinct(e1.headers) && CountOf(e1.headers) == CountOf(e.headers)
  {
    var k := Known(NUMBER_TRACES);
    assert k.h.tag == 0x41 && k.h.tag !in MetadataTags;
    PrepareKeeps(e, rg, traces, e1, k);
    SameCount(e.headers, e1.headers);
  }

  /** The loop of set_traces writes records only: the headers stay as they are. */
  lemma WriteFromHeaders(e1: Engine, rg: PyRange, traces: seq<Trace>, e2: Engine)
    requires WriteFrom(e1, rg, traces, 0) == Ok(e2)
    ensures e2.headers == e1.headers
  {
  }

  /**
   * After `set_traces(index, traces)` NUMBER_TRACES is the larger of its
   * old value and the last index written plus one; an empty batch leaves
   * it as it was.
   */
  lemma SetTracesCount(e: Engine, index: Index, traces: seq<Trace>, e': Engine, rg: PyRange, nt: int)
    requires Distinct(e.headers) && AfterSetTraces(e, index, traces) == Ok(e')
    requires SetIndexes(index, |traces|) == Ok(rg) && CountOf(e.headers) == Ok(nt)
    ensures Distinct(e'.headers)
    ensures CountOf(e'.headers) == Ok(if traces == [] then nt else MaxInt(nt, rg.Max() + 1))
  {
    if traces != [] {
      var e1, e2 := SetTracesSteps(e, index, traces, e', rg);
      BeforeCountKeeps(e, rg, traces, e1, e2, nt);
      CountSets(e2, rg, |traces|, e', nt);
    }
  }

  // ---------------------------------------------------------------------
  // The indexes of set_traces and get_traces

  /** Python's `i % n` of a negative i no smaller than -n, for a positive n, is i + n. */
  lemma PyModWraps(i: int, n: int)
    requires 0 < n && -n <= i < 0
    ensures PyMod(i, n) == i + n
  {
    assert i % n == i + n by {
      assert i == (-1) * n + (i + n) && 0 <= i + n < n;
    }
  }

  /**
   * `get_traces(i)` with an int: an index at or past the length is an
   * IndexError; a negative one counts from the end (modulo the length, so
   * one below -length wraps round again, and with no traces at all it is
   * a ZeroDivisionError); the one trace read is always below the length.
   */
  lemma GetIndexAt(e: Engine, i: int, len: int)
    requires IntOrZero(e.headers, NUMBER_TRACES) == Ok(len)
    ensures i >= len ==> GetIndexes(e, At(i)) == Err(IndexError)
    ensures 0 <= i < len ==> GetIndexes(e, At(i)) == Ok(PyRange(i, i + 1, 1))
    ensures -len <= i < 0 ==> GetIndexes(e, At(i)) == Ok(PyRange(i + len, i + len + 1, 1))
    ensures i < 0 && len == 0 ==> GetIndexes(e, At(i)) == Err(ZeroDivisionError)
    ensures GetIndexes(e, At(i)).Ok? ==> 0 <= GetIndexes(e, At(i)).value.start < len && GetIndexes(e, At(i)).value.Len() == 1
  {
    if -len <= i < 0 {
      PyModWraps(i, len);
    }
  }

  /** Every index get_traces reads, from an int or a slice, lies within the NUMBER_TRACES traces. */
  lemma GetIndexesInRange(e: Engine, index: Index, len: int, rg: PyRange, j: nat)
    requires IntOrZero(e.headers, NUMBER_TRACES) == Ok(len)
    requires GetIndexes(e, index) == Ok(rg) && j < rg.Len()
    ensures 0 <= rg.At(j) < len
  {
    match index
    case At(i) =>
      GetIndexAt(e, i, len);
    case Slice(start, stop, step) =>
      SliceIndicesInRange(start, stop, step, len, j);
  }

  /**
   * `set_traces(slice(n, n), traces)`, the form that appends k traces at
   * index n, writes them to indexes n, n + 1, ..., n + k - 1.
   */
  lemma AppendIndexes(n: nat, k: nat) returns (rg: PyRange)
    ensures SetIndexes(Slice(Some(n), Some(n), None), k) == Ok(rg)
    ensures rg.Len() == k && forall j: nat :: j < k ==> rg.At(j) == n + j
    ensures k > 0 ==> rg.Max() == n + k - 1
  {
    rg := PyRange(n, n + k, 1);
  }

  /** `set_traces(i, traces)` with an int names the one index i. */
  lemma SetIndexAt(i: int, k: nat)
    ensures SetIndexes(At(i), k) == Ok(PyRange(i, i + 1, 1)) && PyRange(i, i + 1, 1).Len() == 1 && PyRange(i, i + 1, 1).Max() == i
  {
  }

  // ---------------------------------------------------------------------
  // What set_traces refuses

  /**
   * set_traces refuses a batch whose first index lies past NUMBER_TRACES
   * (IndexError) and one whose number of traces is not that of its indexes
   * (TypeError), and leaves the engine as it was for an empty batch.
   * Under padding NONE a required header that is unset refuses a
   * non-empty batch with ValueError, and the padding modes other than
   * NONE and AUTO are not implemented.
   */
  lemma SetTracesRefusals(e: Engine, index: Index, traces: seq<Trace>, rg: PyRange, nt: int)
    requires SetIndexes(index, |traces|) == Ok(rg) && CountOf(e.headers) == Ok(nt)
    ensures rg.start > nt ==> AfterSetTraces(e, index, traces) == Err(IndexError)
    ensures rg.start <= nt && rg.Len() != |traces| ==> AfterSetTraces(e, index, traces) == Err(TypeError)
    ensures rg.start <= nt && rg.Len() == |traces| == 0 ==> AfterSetTraces(e, index, traces) == Ok(e)
    ensures rg.start <= nt && rg.Len() == |traces| > 0 && e.padding == NONE
            && (exists j :: 0 <= j < |Required| && !IsSet(e.headers, Required[j]))
            ==> AfterSetTraces(e, index, traces) == Err(ValueError)
    ensures rg.start <= nt && rg.Len() == |traces| > 0 && e.padding != NONE && e.padding != AUTO
            ==> AfterSetTraces(e, index, traces) == Err(NotImplementedError)
  {
  }

  // ---------------------------------------------------------------------
  // Where set_traces puts the records

  /** The record of trace t under the engine's headers sits in the file at the offset of index i. */
  predicate Placed(e: Engine, i: int, t: Trace)
  {
    match (RecordOffset(e, i), Record(e.headers, t))
    case (Ok(p), Ok(rec)) => p + |rec| <= |e.file| && e.file[p..p + |rec|] == rec
    case _ => false
  }

  /** The record of trace t under the engine's headers is no longer than trace_length. */
  predicate Fits(e: Engine, t: Trace)
  {
    match Record(e.headers, t)
    case Ok(rec) => e.traceLength.Some? && |rec| <= e.traceLength.value
    case _ => false
  }

  /** A successful pass of the loop puts the trace's record at its index's offset. */
  lemma WriteRecordPlaces(e: Engine, i: int, t: Trace, e': Engine) returns (p: nat, rec: seq<byte>)
    requires WriteRecord(e, i, t) == Ok(e')
    ensures RecordOffset(e, i) == Ok(p) && Record(e.headers, t) == Ok(rec)
    ensures e' == e.(file := WriteFile(e.file, p, rec)) && Placed(e', i, t)
  {
    p := RecordOffset(e, i).value;
    rec := Record(e.headers, t).value;
  }

  /** With a non-negative step, n, i and j, record slots i and j of length n do not overlap when i != j. */
  lemma SlotsApart(base: int, n: nat, i: int, j: int, len: nat)
    requires i != j && len <= n
    ensures base + j * n + len <= base + i * n || base + i * n + n <= base + j * n
  {
    if j < i {
      MulSucc(j, n);
      assert (j + 1) * n <= i * n by { MulLe(j + 1, i, n); }
    } else {
      MulSucc(i, n);
      assert (i + 1) * n <= j * n by { MulLe(i + 1, j, n); }
    }
  }

  lemma MulLe(a: int, b: int, n: nat)
    requires a <= b
    ensures a * n <= b * n
  {
  }

  /** Writing b at p leaves a stretch of the file outside [p, p + |b|) as it was. */
  lemma WriteFileKeeps(file: seq<byte>, p: nat, b: seq<byte>, q: nat, n: nat)
    requires q + n <= |file| && (p + |b| <= q || q + n <= p)
    ensures q + n <= |WriteFile(file, p, b)| && WriteFile(file, p, b)[q..q + n] == file[q..q + n]
  {
    var r := WriteFile(file, p, b);
    forall m | q <= m < q + n ensures r[m] == file[m] {
      assert !(p <= m < p + |b|);
    }
  }

  /** Writing a record no longer than the trace length at another index leaves a placed record that fits where it was. */
  lemma WriteKeepsPlaced(e: Engine, j: int, p: nat, rec: seq<byte>, i: int, u: Trace)
    requires RecordOffset(e, j) == Ok(p) && e.traceLength.Some? && |rec| <= e.traceLength.value && i != j
    requires Placed(e, i, u) && Fits(e, u)
    ensures Placed(e.(file := WriteFile(e.file, p, rec)), i, u)
  {
    var q, recU := PlacedParts(e, i, u);
    OffsetsApart(e, i, j, q, p, |rec|);
    WriteFileKeeps(e.file, p, rec, q, |recU|);
    RewrittenPlaced(e, p, rec, i, u, q, recU);
  }

  /** The records of two different indexes do not overlap. */
  lemma OffsetsApart(e: Engine, i: int, j: int, q: nat, p: nat, len: nat)
    requires RecordOffset(e, i) == Ok(q) && RecordOffset(e, j) == Ok(p) && i != j && len <= e.traceLength.value
    ensures p + len <= q || q + e.traceLength.value <= p
  {
    SlotsApart(e.traceblockOffset.value, e.traceLength.value, i, j, len);
  }

  /** A record whose bytes a write leaves alone stays placed. */
  lemma RewrittenPlaced(e: Engine, p: nat, rec: seq<byte>, i: int, u: Trace, q: nat, recU: seq<byte>)
    requires RecordOffset(e, i) == Ok(q) && Record(e.headers, u) == Ok(recU)
    requires q + |recU| <= |e.file| && e.file[q..q + |recU|] == recU
    requires var f := WriteFile(e.file, p, rec); q + |recU| <= |f| && f[q..q + |recU|] == e.file[q..q + |recU|]
    ensures Placed(e.(file := WriteFile(e.file, p, rec)), i, u)
  {
    var e2 := e.(file := WriteFile(e.file, p, rec));
    assert RecordOffset(e2, i) == Ok(q);
    PlacedByParts(e2, i, u, q, recU);
  }

  /** A placed record that fits: its offset, its bytes, and the file holding them there. */
  lemma PlacedParts(e: Engine, i: int, u: Trace) returns (q: nat, recU: seq<byte>)
    requires Placed(e, i, u) && Fits(e, u)
    ensures RecordOffset(e, i) == Ok(q) && Record(e.headers, u) == Ok(recU) && |recU| <= e.traceLength.value
    ensures q + |recU| <= |e.file| && e.file[q..q + |recU|] == recU
  {
    q := RecordOffset(e, i).value;
    recU := Record(e.headers, u).value;
  }

  /** A record whose bytes the file holds at its index's offset is placed. */
  lemma PlacedByParts(e: Engine, i: int, u: Trace, q: nat, recU: seq<byte>)
    requires RecordOffset(e, i) == Ok(q) && Record(e.headers, u) == Ok(recU)
    requires q + |recU| <= |e.file| && e.file[q..q + |recU|] == recU
    ensures Placed(e, i, u)
  {
  }

  /** A range with a non-zero step never repeats an index. */
  lemma RangeDistinct(rg: PyRange, a: nat, b: nat)
    requires rg.step != 0 && a != b
    ensures rg.At(a) != rg.At(b)
  {
    if a < b {
      assert rg.At(b) - rg.At(a) == (b - a) * rg.step;
    } else {
      assert rg.At(a) - rg.At(b) == (a - b) * rg.step;
    }
  }

  /** The traces before the n-th are placed at their indexes. */
  predicate AllPlaced(e: Engine, rg: PyRange, traces: seq<Trace>, n: nat)
    requires n <= |traces|
  {
    forall m :: 0 <= m < n ==> Placed(e, rg.At(m), traces[m])
  }

  /** Every trace of the batch fits the trace length. */
  predicate AllFit(e: Engine, traces: seq<Trace>)
  {
    forall m :: 0 <= m < |traces| ==> Fits(e, traces[m])
  }

  /** One pass of the loop keeps the records before it and places its own. */
  lemma WriteStepPlaces(e: Engine, rg: PyRange, traces: seq<Trace>, k: nat, e1: Engine)
    requires k < |traces| && rg.step != 0 && AllFit(e, traces) && AllPlaced(e, rg, traces, k)
    requires WriteRecord(e, rg.At(k), traces[k]) == Ok(e1)
    ensures AllPlaced(e1, rg, traces, k + 1) && AllFit(e1, traces)
  {
    var p, rec := WriteRecordPlaces(e, rg.At(k), traces[k], e1);
    forall m | 0 <= m < k + 1 ensures Placed(e1, rg.At(m), traces[m]) {
      if m < k {
        RangeDistinct(rg, m, k);
        assert Fits(e, traces[k]);
        WriteKeepsPlaced(e, rg.At(k), p, rec, rg.At(m), traces[m]);
      }
    }
    assert AllFit(e1, traces) by {
      forall m | 0 <= m < |traces| ensures Fits(e1, traces[m]) {
        assert Fits(e, traces[m]);
      }
    }
  }

  /**
   * The loop of set_traces leaves every trace of the batch placed at its
   * index, when each record fits the trace length: a later record never
   * overwrites an earlier one.
   */
  lemma {:induction false} WriteFromPlaces(e: Engine, rg: PyRange, traces: seq<Trace>, k: nat, e': Engine)
    requires k <= |traces| && rg.step != 0 && AllFit(e, traces) && AllPlaced(e, rg, traces, k)
    requires WriteFrom(e, rg, traces, k) == Ok(e')
    ensures AllPlaced(e', rg, traces, |traces|)
    decreases |traces| - k
  {
    if k < |traces| {
      var e1 := WriteRecord(e, rg.At(k), traces[k]).value;
      WriteStepPlaces(e, rg, traces, k, e1);
      WriteFromPlaces(e1, rg, traces, k + 1, e');
    }
  }

  // ---------------------------------------------------------------------
  // Reading back what set_traces wrote

  /** The headers a record is written and read under: the values RecordRoundTrip needs. */
  ghost predicate RoundTripHeaders(hs: HeaderDict, ts: nat, ns: nat, sc: SampleCoding, d: Defs.DefinitionMap)
  {
    Get(hs, Known(TITLE_SPACE)) == Some(Plain(PInt(ts)))
    && Get(hs, Known(NUMBER_SAMPLES)) == Some(Plain(PInt(ns)))
    && Get(hs, Known(SAMPLE_CODING)) == Some(CodingValue(sc))
    && (exists v :: Get(hs, Known(TRS_VERSION)) == Some(Plain(PInt(v))) && v > 1)
    && Get(hs, Known(TRACE_PARAMETER_DEFINITIONS)) == Some(DefParams(d))
  }

  /** A trace whose record reads back: its title, samples and parameters as RecordRoundTrip asks. */
  ghost predicate ReadsBack(t: Trace, ns: nat, sc: SampleCoding, d: Defs.DefinitionMap)
  {
    d.entries == TPM.FromTraceParameterMap(t.parameters).entries
    && Distinct(t.parameters.Items()) && (forall k :: 0 <= k < |t.parameters.Items()| ==> TPM.Storable(t.parameters.Items()[k].1))
    && (t.title == [] || t.title[|t.title| - 1] != 0)
    && (forall j :: 0 <= j < |t.samples| ==> |t.samples[j]| == sc.Size())
  }

  /**
   * What get_traces gives back for a trace written under NUMBER_SAMPLES ns
   * and SAMPLE_CODING sc: a longer trace comes back cut to ns samples, a
   * shorter one padded with zero samples.
   */
  function AsRead(t: Trace, ns: nat, sc: SampleCoding): (r: Trace)
    ensures r.title == t.title && r.coding == sc && |r.samples| == ns
    ensures |t.samples| <= ns ==> r.samples[..|t.samples|] == t.samples
    ensures |t.samples| >= ns ==> r.samples == t.samples[..ns]
  {
    Trace(sc, Padded(t.samples, ns, sc.Size()), TPM.Typed(t.parameters.Items()), t.title)
  }

  /** A record in place within the memory map reads back, with get_traces at its index, as the trace it was written for. */
  lemma PlacedReadsBack(e: Engine, i: int, t: Trace, ts: nat, ns: nat, sc: SampleCoding, d: Defs.DefinitionMap)
    requires Placed(e, i, t) && RoundTripHeaders(e.headers, ts, ns, sc, d) && ReadsBack(t, ns, sc, d)
    requires RecordOffset(e, i).value + |Record(e.headers, t).value| <= MapLen(e)
    requires e.traceLength.Some? && e.traceLength.value >= ns * sc.Size()
    ensures ReadAt(e, i) == Ok(AsRead(t, ns, sc))
  {
    var p := RecordOffset(e, i).value;
    var rec := Record(e.headers, t).value;
    var shown := e.file[..MapLen(e)];
    var v :| Get(e.headers, Known(TRS_VERSION)) == Some(Plain(PInt(v))) && v > 1;
    RecordUnder(e.headers, t, ts, ns, sc, d);
    SliceOfPrefix(e.file, MapLen(e), p, p + |rec|);
    RecordRoundTrip(t, e.headers, ts, ns, sc, v, d, rec, shown, p, e.traceLength.value);
  }

  /** Under headers a record round-trips through, the record of a trace is its encoding with their settings. */
  lemma RecordUnder(hs: HeaderDict, t: Trace, ts: nat, ns: nat, sc: SampleCoding, d: Defs.DefinitionMap)
    requires RoundTripHeaders(hs, ts, ns, sc, d)
    ensures Record(hs, t) == EncodeRecord(t, ts, ns, sc.Size())
  {
  }

  /** A slice of a prefix is the same slice of the whole. */
  lemma SliceOfPrefix(s: seq<byte>, m: nat, i: nat, j: nat)
    requires i <= j <= m <= |s|
    ensures s[..m][i..j] == s[i..j]
  {
  }

  /** With NUMBER_SAMPLES, SAMPLE_CODING and TITLE_SPACE set and definitions present, the metadata can only set LENGTH_DATA. */
  lemma MetadataOnlyDataLength(hs: HeaderDict, traces: seq<Trace>, u: HeaderDict)
    requires MetadataUpdates(hs, traces) == Ok(u)
    requires IsSet(hs, NUMBER_SAMPLES) && IsSet(hs, SAMPLE_CODING) && IsSet(hs, TITLE_SPACE)
    requires HasKey(hs, Known(TRACE_PARAMETER_DEFINITIONS))
    ensures KeysAmong(u, {LENGTH_DATA.tag})
  {
    var u2 := DataLengthUpdate(hs, traces, []).value;
    ExtendsAmong([], u2, LENGTH_DATA, {});
  }

  /** The headers a record is laid out by: TITLE_SPACE, NUMBER_SAMPLES, SAMPLE_CODING, TRS_VERSION and the definitions. */
  predicate LayoutKey(k: HeaderKey)
  {
    k in {Known(TITLE_SPACE), Known(NUMBER_SAMPLES), Known(SAMPLE_CODING), Known(TRS_VERSION), Known(TRACE_PARAMETER_DEFINITIONS)}
  }

  /** An update that can only set LENGTH_DATA keeps the settings and the layout headers. */
  lemma DataLengthKeepsLayout(e: Engine, u: HeaderDict, e1: Engine)
    requires Distinct(e.headers) && KeysAmong(u, {LENGTH_DATA.tag}) && AfterUpdateHeaders(e, Some(u)) == Ok(e1)
    ensures Distinct(e1.headers) && SameSettings(e, e1) && LayoutKept(e.headers, e1.headers)
  {
    AfterUpdateHeadersKeeps(e, u, e1, Known(TITLE_SPACE));
    AfterUpdateHeadersKeeps(e, u, e1, Known(NUMBER_SAMPLES));
    AfterUpdateHeadersKeeps(e, u, e1, Known(SAMPLE_CODING));
    AfterUpdateHeadersKeeps(e, u, e1, Known(TRACE_PARAMETER_DEFINITIONS));
    AfterUpdateHeadersKeeps(e, u, e1, Known(TRS_VERSION));
  }

  /** Padding leaves the settings, and the layout headers once they are all set, as they were. */
  lemma PadKeepsLayout(e: Engine, traces: seq<Trace>, e1: Engine, ts: nat, ns: nat, sc: SampleCoding, d: Defs.DefinitionMap)
    requires Distinct(e.headers) && RoundTripHeaders(e.headers, ts, ns, sc, d) && Pad(e, traces) == Ok(e1)
    ensures Distinct(e1.headers) && SameSettings(e, e1) && LayoutKept(e.headers, e1.headers)
  {
    if e.padding == AUTO {
      var u := MetadataUpdates(e.headers, traces).value;
      MetadataOnlyDataLength(e.headers, traces, u);
      DataLengthKeepsLayout(e, u, e1);
    }
  }

  /**
   * A header whose input entry holds no parameter map ends, after
   * TrsEngine.update_headers, with the input's value or its old one.
   */
  lemma AfterUpdateHeadersPlain(e: Engine, input: HeaderDict, e': Engine, k: HeaderKey)
    requires Distinct(e.headers) && Distinct(input) && AfterUpdateHeaders(e, Some(input)) == Ok(e')
    requires NoMapUnder(input, k)
    ensures Get(e'.headers, k) == Get(input, k) || Get(e'.headers, k) == Get(e.headers, k)
  {
    MergeWritten(e, input, Merge(e.headers, input), e', k);
  }

  /** The merge of update_headers followed by the write of its changed headers. */
  lemma MergeWritten(e: Engine, input: HeaderDict, u: Updated, e': Engine, k: HeaderKey)
    requires Distinct(e.headers) && Distinct(input) && u == Merge(e.headers, input)
    requires if |u.changed| > 0 then WriteHeaders(e.(headers := u.headers), Some(u.changed)) == Ok(e') else e' == e.(headers := u.headers)
    requires NoMapUnder(input, k)
    ensures Get(e'.headers, k) == Get(input, k) || Get(e'.headers, k) == Get(e.headers, k)
  {
    MergeResult(e.headers, input, k);
    ChangedExactly(e.headers, input, k);
    if |u.changed| > 0 {
      forall i | 0 <= i < |u.changed| && u.changed[i].0 == k ensures !u.changed[i].1.SetParams? && !u.changed[i].1.DefParams? {
        GetIsEntry(u.changed, k, i);
        assert HasKey(u.changed, k);
        GetIsEntry(input, k, IndexOf(input, k));
      }
      WriteHeadersKeeps(e.(headers := u.headers), u.changed, e', k);
    }
  }

  /** In a dictionary without repeated keys, an entry under k is the one Get finds. */
  lemma GetIsEntry(d: HeaderDict, k: HeaderKey, i: nat)
    requires Distinct(d) && i < |d| && d[i].0 == k
    ensures Get(d, k) == Some(d[i].1)
  {
    DistinctIndex(d, i, IndexOf(d, k));
  }

  /** The record-layout headers a trace set read back depends on: each kept, TRS_VERSION 2 or kept. */
  ghost predicate LayoutKept(hs: HeaderDict, hs': HeaderDict)
  {
    && Get(hs', Known(TITLE_SPACE)) == Get(hs, Known(TITLE_SPACE))
    && Get(hs', Known(NUMBER_SAMPLES)) == Get(hs, Known(NUMBER_SAMPLES))
    && Get(hs', Known(SAMPLE_CODING)) == Get(hs, Known(SAMPLE_CODING))
    && Get(hs', Known(TRACE_PARAMETER_DEFINITIONS)) == Get(hs, Known(TRACE_PARAMETER_DEFINITIONS))
    && (Get(hs', Known(TRS_VERSION)) == Some(Plain(PInt(2))) || Get(hs', Known(TRS_VERSION)) == Get(hs, Known(TRS_VERSION)))
  }

  lemma LayoutKeptRoundTrips(hs: HeaderDict, hs': HeaderDict, ts: nat, ns: nat, sc: SampleCoding, d: Defs.DefinitionMap)
    requires RoundTripHeaders(hs, ts, ns, sc, d) && LayoutKept(hs, hs')
    ensures RoundTripHeaders(hs', ts, ns, sc, d)
  {
    if Get(hs', Known(TRS_VERSION)) == Some(Plain(PInt(2))) {
      assert Get(hs', Known(TRS_VERSION)) == Some(Plain(PInt(2))) && 2 > 1;
    }
  }

  /** The first-trace headers (a trace set parameter map and TRS_VERSION 2) keep the layout headers. */
  lemma FirstTraceKeepsLayout(e: Engine, e1: Engine)
    requires Distinct(e.headers) && AfterUpdateHeaders(e, Some(FirstTraceHeaders())) == Ok(e1)
    ensures Distinct(e1.headers) && SameSettings(e, e1) && LayoutKept(e.headers, e1.headers)
  {
    FirstTraceKeepsKey(e, e1, Known(TITLE_SPACE));
    FirstTraceKeepsKey(e, e1, Known(NUMBER_SAMPLES));
    FirstTraceKeepsKey(e, e1, Known(SAMPLE_CODING));
    FirstTraceKeepsKey(e, e1, Known(TRACE_PARAMETER_DEFINITIONS));
    FirstTraceVersion(e, e1);
  }

  /** The first-trace headers leave every other header as it was. */
  lemma FirstTraceKeepsKey(e: Engine, e1: Engine, k: HeaderKey)
    requires Distinct(e.headers) && AfterUpdateHeaders(e, Some(FirstTraceHeaders())) == Ok(e1)
    requires k != Known(TRACE_SET_PARAMETERS) && k != Known(TRS_VERSION)
    ensures Distinct(e1.headers) && SameSettings(e, e1) && Get(e1.headers, k) == Get(e.headers, k)
  {
    var first := FirstTraceHeaders();
    assert Distinct(first) && !HasKey(first, k);
    AfterUpdateHeadersKeeps(e, first, e1, k);
  }

  /** After the first-trace headers, TRS_VERSION is 2 or what it was. */
  lemma FirstTraceVersion(e: Engine, e1: Engine)
    requires Distinct(e.headers) && AfterUpdateHeaders(e, Some(FirstTraceHeaders())) == Ok(e1)
    ensures Get(e1.headers, Known(TRS_VERSION)) == Some(Plain(PInt(2))) || Get(e1.headers, Known(TRS_VERSION)) == Get(e.headers, Known(TRS_VERSION))
  {
    var first := FirstTraceHeaders();
    assert Distinct(first);
    GetIsEntry(first, Known(TRS_VERSION), 1);
    AfterUpdateHeadersPlain(e, first, e1, Known(TRS_VERSION));
  }

  /** The first-trace step of set_traces: the first-trace headers go in when index 0 is written and TRACE_SET_PARAMETERS is missing. */
  predicate FirstTraceStep(p: Engine, rg: PyRange, p2: Engine)
  {
    if rg.start == 0 && !HasKey(p.headers, Known(TRACE_SET_PARAMETERS)) then AfterUpdateHeaders(p, Some(FirstTraceHeaders())) == Ok(p2) else p2 == p
  }

  /** What set_traces does before its loop is padding, the first-trace step and the stride, in that order. */
  lemma PrepareSteps(e: Engine, rg: PyRange, traces: seq<Trace>, e1: Engine) returns (p: Engine, p2: Engine)
    requires Prepare(e, rg, traces) == Ok(e1)
    ensures Pad(e, traces) == Ok(p) && FirstTraceStep(p, rg, p2) && Stride(p2) == Ok(e1)
  {
    p := Pad(e, traces).value;
    p2 := if rg.start == 0 && !HasKey(p.headers, Known(TRACE_SET_PARAMETERS)) then AfterUpdateHeaders(p, Some(FirstTraceHeaders())).value else p;
  }

  lemma FirstTraceStepKeepsLayout(p: Engine, rg: PyRange, p2: Engine)
    requires Distinct(p.headers) && FirstTraceStep(p, rg, p2)
    ensures Distinct(p2.headers) && SameSettings(p, p2) && LayoutKept(p.headers, p2.headers)
  {
    if rg.start == 0 && !HasKey(p.headers, Known(TRACE_SET_PARAMETERS)) {
      FirstTraceKeepsLayout(p, p2);
    }
  }

  /** The stride step changes sample_length and trace_length only, and a known trace length not at all. */
  lemma StrideKeeps(p: Engine, e1: Engine)
    requires Stride(p) == Ok(e1)
    ensures p.traceLength.Some? ==> e1.traceLength == p.traceLength
    ensures e1.headers == p.headers && e1.readOnly == p.readOnly && e1.padding == p.padding && e1.liveUpdate == p.liveUpdate
  {
  }

  /** What set_traces does before its loop keeps the settings and the layout headers; a known trace length stays. */
  lemma PrepareKeepsLayout(e: Engine, rg: PyRange, traces: seq<Trace>, e1: Engine, ts: nat, ns: nat, sc: SampleCoding, d: Defs.DefinitionMap)
    requires Distinct(e.headers) && RoundTripHeaders(e.headers, ts, ns, sc, d) && Prepare(e, rg, traces) == Ok(e1)
    ensures Distinct(e1.headers) && RoundTripHeaders(e1.headers, ts, ns, sc, d) && LayoutKept(e.headers, e1.headers)
    ensures e1.liveUpdate == e.liveUpdate && e1.padding == e.padding && e1.readOnly == e.readOnly
    ensures e.traceLength.Some? ==> e1.traceLength == e.traceLength
  {
    var p, p2 := PrepareSteps(e, rg, traces, e1);
    PadKeepsLayout(e, traces, p, ts, ns, sc, d);
    LayoutKeptRoundTrips(e.headers, p.headers, ts, ns, sc, d);
    FirstTraceStepKeepsLayout(p, rg, p2);
    LayoutKeptRoundTrips(p.headers, p2.headers, ts, ns, sc, d);
    StrideKeeps(p2, e1);
  }

  /** The record of a trace depends on TITLE_SPACE, NUMBER_SAMPLES and SAMPLE_CODING only. */
  lemma RecordSameLayout(hs: HeaderDict, hs': HeaderDict, t: Trace)
    requires LayoutKept(hs, hs')
    ensures Record(hs', t) == Record(hs, t)
  {
  }

  /** With the layout headers and the trace length kept, a batch that fitted still fits. */
  lemma FitsKept(e: Engine, e1: Engine, traces: seq<Trace>)
    requires AllFit(e, traces) && LayoutKept(e.headers, e1.headers) && e1.traceLength == e.traceLength
    ensures AllFit(e1, traces)
  {
    forall m | 0 <= m < |traces| ensures Fits(e1, traces[m]) {
      assert Fits(e, traces[m]);
      RecordSameLayout(e.headers, e1.headers, traces[m]);
    }
  }

  /** Without live update the count step only sets NUMBER_TRACES in the dictionary: file, layout headers and trace block stay. */
  lemma CountKeepsLayout(e: Engine, rg: PyRange, n: nat, e': Engine)
    requires Distinct(e.headers) && e.liveUpdate == 0 && Count(e, rg, n) == Ok(e')
    ensures LayoutKept(e.headers, e'.headers)
    ensures e'.file == e.file && e'.traceblockOffset == e.traceblockOffset && e'.traceLength == e.traceLength
  {
    var c := CountWithoutLiveUpdate(e, rg, n, e');
    if e'.headers != e.headers {
      var k := Known(NUMBER_TRACES);
      var v := Plain(PInt(c));
      GetAfterSet(e.headers, k, v, Known(TITLE_SPACE));
      GetAfterSet(e.headers, k, v, Known(NUMBER_SAMPLES));
      GetAfterSet(e.headers, k, v, Known(SAMPLE_CODING));
      GetAfterSet(e.headers, k, v, Known(TRACE_PARAMETER_DEFINITIONS));
      GetAfterSet(e.headers, k, v, Known(TRS_VERSION));
    }
  }

  /** Without live update the count step sets NUMBER_TRACES to some count in the dictionary, or changes nothing there. */
  lemma CountWithoutLiveUpdate(e: Engine, rg: PyRange, n: nat, e': Engine) returns (c: int)
    requires e.liveUpdate == 0 && Count(e, rg, n) == Ok(e')
    ensures e'.headers == e.headers || e'.headers == Set(e.headers, Known(NUMBER_TRACES), Plain(PInt(c)))
    ensures e'.file == e.file && e'.traceblockOffset == e.traceblockOffset && e'.traceLength == e.traceLength
  {
    var nt := CountOf(e.headers).value;
    c := MaxInt(nt, rg.Max() + 1);
  }

  /** A placed record stays placed when the file, the trace block, the trace length and the layout headers stay. */
  lemma PlacedKept(e: Engine, e': Engine, i: int, t: Trace)
    requires Placed(e, i, t) && LayoutKept(e.headers, e'.headers)
    requires e'.file == e.file && e'.traceblockOffset == e.traceblockOffset && e'.traceLength == e.traceLength
    ensures Placed(e', i, t)
  {
    RecordSameLayout(e.headers, e'.headers, t);
  }

  /**
   * `set_traces(index, traces)` without live update, on headers that fix the
   * record layout and a known trace length every record fits, leaves each
   * trace's record at its index, under the same layout headers.
   */
  lemma SetTracesPlaces(e: Engine, index: Index, traces: seq<Trace>, e': Engine, rg: PyRange, ts: nat, ns: nat, sc: SampleCoding, d: Defs.DefinitionMap)
    requires Distinct(e.headers) && AfterSetTraces(e, index, traces) == Ok(e') && traces != []
    requires SetIndexes(index, |traces|) == Ok(rg)
    requires e.liveUpdate == 0 && RoundTripHeaders(e.headers, ts, ns, sc, d)
    requires e.traceLength.Some? && AllFit(e, traces)
    ensures AllPlaced(e', rg, traces, |traces|) && RoundTripHeaders(e'.headers, ts, ns, sc, d) && e'.traceLength == e.traceLength
  {
    var e1, e2 := SetTracesSteps(e, index, traces, e', rg);
    PlacesThenCounts(e, rg, traces, e1, e2, e', ts, ns, sc, d);
  }

  lemma PlacesThenCounts(e: Engine, rg: PyRange, traces: seq<Trace>, e1: Engine, e2: Engine, e': Engine, ts: nat, ns: nat, sc: SampleCoding, d: Defs.DefinitionMap)
    requires Distinct(e.headers) && rg.step != 0
    requires Prepare(e, rg, traces) == Ok(e1) && WriteFrom(e1, rg, traces, 0) == Ok(e2) && Count(e2, rg, |traces|) == Ok(e')
    requires e.liveUpdate == 0 && RoundTripHeaders(e.headers, ts, ns, sc, d)
    requires e.traceLength.Some? && AllFit(e, traces)
    ensures AllPlaced(e', rg, traces, |traces|) && RoundTripHeaders(e'.headers, ts, ns, sc, d) && e'.traceLength == e.traceLength
  {
    PrepareKeepsLayout(e, rg, traces, e1, ts, ns, sc, d);
    FitsKept(e, e1, traces);
    WriteFromPlaces(e1, rg, traces, 0, e2);
    CountKeepsLayout(e2, rg, |traces|, e');
    LayoutKeptRoundTrips(e2.headers, e'.headers, ts, ns, sc, d);
    forall m | 0 <= m < |traces| ensures Placed(e', rg.At(m), traces[m]) {
      assert Placed(e2, rg.At(m), traces[m]);
      PlacedKept(e2, e', rg.At(m), traces[m]);
    }
  }

  /**
   * What `set_traces(index, traces)` writes, `get_traces` reads back once it
   * has brought the memory map in step with the file, by the resize as
   * written or as intended: the trace at the m-th index of the batch is the
   * m-th trace, its samples cut or padded to NUMBER_SAMPLES and its
   * parameters typed as stored. The file is taken to hold no more than
   * NUMBER_TRACES records.
   */
  lemma SetTracesThenGet(e: Engine, index: Index, traces: seq<Trace>, e': Engine, rg: PyRange, m: nat, ts: nat, ns: nat, sc: SampleCoding, d: Defs.DefinitionMap, len: int)
    requires Distinct(e.headers) && AfterSetTraces(e, index, traces) == Ok(e')
    requires SetIndexes(index, |traces|) == Ok(rg)
    requires e.liveUpdate == 0 && RoundTripHeaders(e.headers, ts, ns, sc, d)
    requires e.traceLength.Some? && e.traceLength.value >= ns * sc.Size() && e.traceLength.value > 0 && AllFit(e, traces)
    requires m < |traces| && ReadsBack(traces[m], ns, sc, d)
    requires !e'.synched && !e'.readOnly && IntOrZero(e'.headers, NUMBER_TRACES) == Ok(len)
    requires e'.traceblockOffset.Some? && e'.traceLength == e.traceLength
    requires |e'.file| <= e'.traceblockOffset.value + len * e'.traceLength.value
    ensures Sync(e', len).Ok? && ReadAt(Sync(e', len).value, rg.At(m)) == Ok(AsRead(traces[m], ns, sc))
    ensures SyncIntended(e', len).Ok? && ReadAt(SyncIntended(e', len).value, rg.At(m)) == Ok(AsRead(traces[m], ns, sc))
  {
    SetTracesPlaces(e, index, traces, e', rg, ts, ns, sc, d);
    assert Placed(e', rg.At(m), traces[m]);
    SyncsReadBack(e', rg.At(m), traces[m], ts, ns, sc, d, len);
  }

  /** A record in place in a file of at most len records reads back after either resize. */
  lemma SyncsReadBack(e: Engine, i: int, t: Trace, ts: nat, ns: nat, sc: SampleCoding, d: Defs.DefinitionMap, len: int)
    requires Placed(e, i, t) && RoundTripHeaders(e.headers, ts, ns, sc, d) && ReadsBack(t, ns, sc, d)
    requires !e.synched && !e.readOnly && e.traceblockOffset.Some? && e.traceLength.Some?
    requires e.traceLength.value >= ns * sc.Size() && e.traceLength.value > 0
    requires |e.file| <= e.traceblockOffset.value + len * e.traceLength.value
    ensures Sync(e, len).Ok? && ReadAt(Sync(e, len).value, i) == Ok(AsRead(t, ns, sc))
    ensures SyncIntended(e, len).Ok? && ReadAt(SyncIntended(e, len).value, i) == Ok(AsRead(t, ns, sc))
  {
    var e1 := SyncShows(e, len, i, t);
    PlacedReadsBack(e1, i, t, ts, ns, sc, d);
    var e2 := SyncIntendedShows(e, len, i, t);
    PlacedReadsBack(e2, i, t, ts, ns, sc, d);
  }

  // ---------------------------------------------------------------------
  // The resize of get_traces

  /**
   * The resize as written leaves the file one trace longer than NUMBER_TRACES
   * records: a file __read_headers accepts before the read is refused with
   * IOError ('unexpected length') once it is reopened.
   */
  lemma ResizeAsWrittenBreaksReopen(e: Engine, nt: nat, hs: HeaderDict, locs: ODict<HeaderKey, Location>, accepted: Engine) returns (grown: Engine)
    requires !e.synched && !e.readOnly && e.traceblockOffset.Some? && e.traceLength.Some? && e.traceLength.value > 0
    requires Get(hs, Known(NUMBER_TRACES)) == Some(Plain(PInt(nt)))
    requires CheckHeaders(e, e.traceblockOffset.value, hs, locs) == Ok(accepted) && accepted.traceLength == e.traceLength
    ensures Sync(e, nt) == Ok(grown) && |grown.file| == |e.file| + e.traceLength.value
    ensures CheckHeaders(grown, e.traceblockOffset.value, hs, locs) == Err(IOError)
  {
    CheckHeadersCount(e, e.traceblockOffset.value, hs, locs, nt, accepted);
    grown := GrowsByOneTrace(e, nt);
    CheckHeadersOtherLength(e, grown, e.traceblockOffset.value, hs, locs);
  }

  /** On a file of NUMBER_TRACES records, the resize as written adds one record's worth of zero bytes to file and map. */
  lemma GrowsByOneTrace(e: Engine, nt: nat) returns (grown: Engine)
    requires !e.synched && !e.readOnly && e.traceblockOffset.Some? && e.traceLength.Some? && e.traceLength.value > 0
    requires |e.file| == e.traceblockOffset.value + nt * e.traceLength.value
    ensures Sync(e, nt) == Ok(grown) && |grown.file| == |e.file| + e.traceLength.value && grown.mapped == |grown.file|
  {
    MulSucc(nt, e.traceLength.value);
    grown := Sync(e, nt).value;
  }

  lemma MulSucc(n: int, m: int)
    ensures (n + 1) * m == n * m + m
  {
  }

  /**
   * The resize as intended keeps a file __read_headers accepts as it is, so
   * it is accepted again when reopened, and leaves the memory map over the
   * whole file, every record included.
   */
  lemma ResizeKeepsReopen(e: Engine, nt: nat, hs: HeaderDict, locs: ODict<HeaderKey, Location>, accepted: Engine) returns (e1: Engine)
    requires !e.synched && !e.readOnly && e.traceblockOffset.Some? && e.traceLength.Some?
    requires Get(hs, Known(NUMBER_TRACES)) == Some(Plain(PInt(nt)))
    requires CheckHeaders(e, e.traceblockOffset.value, hs, locs) == Ok(accepted) && accepted.traceLength == e.traceLength
    ensures SyncIntended(e, nt) == Ok(e1) && e1.file == e.file && MapLen(e1) == |e.file|
    ensures CheckHeaders(e1, e.traceblockOffset.value, hs, locs).Ok?
  {
    CheckHeadersCount(e, e.traceblockOffset.value, hs, locs, nt, accepted);
    e1 := SyncFull(e, nt);
    CheckHeadersSameLength(e, e1, e.traceblockOffset.value, hs, locs);
  }

  /** On a file of NUMBER_TRACES records the resize as intended keeps the file and maps all of it. */
  lemma SyncFull(e: Engine, nt: nat) returns (e1: Engine)
    requires !e.synched && !e.readOnly && e.traceblockOffset.Some? && e.traceLength.Some?
    requires |e.file| == e.traceblockOffset.value + nt * e.traceLength.value
    ensures SyncIntended(e, nt) == Ok(e1) && e1 == e.(mapped := e1.mapped, synched := true)
    ensures MapLen(e1) == |e.file|
  {
    e1 := SyncIntended(e, nt).value;
    if MapLen(e) < |e.file| {
      assert Resized(e.file, |e.file|) == e.file;
    }
  }

  /** The records in a file of at most len records: the resize as written maps them all, when the map is not yet in step. */
  lemma SyncShows(e: Engine, len: int, i: int, t: Trace) returns (e1: Engine)
    requires !e.synched && !e.readOnly && e.traceblockOffset.Some? && e.traceLength.Some? && Placed(e, i, t)
    requires e.traceLength.value > 0 && |e.file| <= e.traceblockOffset.value + len * e.traceLength.value
    ensures Sync(e, len) == Ok(e1) && Placed(e1, i, t) && e1.headers == e.headers
    ensures RecordOffset(e1, i).value + |Record(e1.headers, t).value| <= MapLen(e1)
  {
    MulSucc(len, e.traceLength.value);
    e1 := Sync(e, len).value;
    PlacedExtended(e, e1, i, t);
  }

  /** The records in a file of at most len records: the resize as intended maps them all. */
  lemma SyncIntendedShows(e: Engine, len: int, i: int, t: Trace) returns (e1: Engine)
    requires !e.readOnly && e.traceblockOffset.Some? && e.traceLength.Some? && Placed(e, i, t)
    requires (e.synched ==> MapLen(e) == |e.file|)
    requires |e.file| <= e.traceblockOffset.value + len * e.traceLength.value
    ensures SyncIntended(e, len) == Ok(e1) && Placed(e1, i, t) && e1.headers == e.headers
    ensures RecordOffset(e1, i).value + |Record(e1.headers, t).value| <= MapLen(e1)
  {
    e1 := SyncIntended(e, len).value;
    PlacedExtended(e, e1, i, t);
  }

  /** A record in place stays in place when only zero bytes are added after the end of the file. */
  lemma PlacedExtended(e: Engine, e1: Engine, i: int, t: Trace)
    requires Placed(e, i, t) && |e.file| <= |e1.file| && e1.file[..|e.file|] == e.file
    requires e1.headers == e.headers && e1.traceblockOffset == e.traceblockOffset && e1.traceLength == e.traceLength
    ensures Placed(e1, i, t)
  {
    var p := RecordOffset(e, i).value;
    var rec := Record(e.headers, t).value;
    assert RecordOffset(e1, i) == Ok(p);
    assert p + |rec| <= |e.file| && e.file[p..p + |rec|] == rec;
    SliceOfPrefix(e1.file, |e.file|, p, p + |rec|);
    PlacedByParts(e1, i, t, p, rec);
  }

  // ---------------------------------------------------------------------
  // What close() leaves

  /**
   * Closing a writable engine whose TRACE_BLOCK and NUMBER_TRACES records
   * are in place rewrites NUMBER_TRACES in place: the header layout, the
   * trace block and everything from the TRACE_BLOCK record on stay; the
   * engine is closed, and closing again changes nothing.
   */
  lemma CloseKeepsTraceBlock(e: Engine, e': Engine)
    requires Laid(e) && HasKey(e.locations, TB) && HasKey(e.locations, Known(NUMBER_TRACES))
    requires AfterClose(e) == Ok(e')
    ensures e'.closed && AfterClose(e') == Ok(e')
    ensures Laid(e') && e'.locations == e.locations && e'.traceblockOffset == e.traceblockOffset
    ensures |e'.file| == |e.file| && e'.file[e.traceblockOffset.value - 2..] == e.file[e.traceblockOffset.value - 2..]
  {
    if !e.closed && !e.readOnly {
      var nt := Lookup(e.headers, NUMBER_TRACES).value;
      var hs := [(Known(NUMBER_TRACES), nt)];
      var e1 := WriteHeaders(e, Some(hs)).value;
      RewriteKeepsTraceBlock(e, hs, e1);
    }
  }

  // ---------------------------------------------------------------------
  // What update_headers_with_traces_metadata derives

  /** The five steps of update_headers_with_traces_metadata; each result starts with the one before. */
  lemma MetadataSteps(hs: HeaderDict, traces: seq<Trace>, u: HeaderDict) returns (u1: HeaderDict, u2: HeaderDict, u3: HeaderDict, u4: HeaderDict)
    requires MetadataUpdates(hs, traces) == Ok(u)
    ensures SamplesUpdate(hs, traces, []) == Ok(u1) && DataLengthUpdate(hs, traces, u1) == Ok(u2)
    ensures DefinitionsUpdate(hs, traces, u2) == Ok(u3) && CodingUpdate(hs, traces, u3) == Ok(u4)
    ensures TitleSpaceUpdate(hs, traces, u4) == Ok(u) && Distinct(u)
    ensures |u1| <= |u2| <= |u3| <= |u4| <= |u|
    ensures forall i :: 0 <= i < |u4| ==> u[i] == u4[i]
    ensures forall i :: 0 <= i < |u3| ==> u[i] == u3[i]
    ensures forall i :: 0 <= i < |u2| ==> u[i] == u2[i]
    ensures forall i :: 0 <= i < |u1| ==> u[i] == u1[i]
  {
    u1 := SamplesUpdate(hs, traces, []).value;
    u2 := DataLengthUpdate(hs, traces, u1).value;
    u3 := DefinitionsUpdate(hs, traces, u2).value;
    u4 := CodingUpdate(hs, traces, u3).value;
    MetadataKeys(hs, traces, u);
    ExtendsPrefix(u4, u, TITLE_SPACE);
    ExtendsPrefix(u3, u4, SAMPLE_CODING);
    ExtendsPrefix(u2, u3, TRACE_PARAMETER_DEFINITIONS);
    ExtendsPrefix(u1, u2, LENGTH_DATA);
  }

  lemma ExtendsPrefix(u: HeaderDict, u2: HeaderDict, h: Header)
    requires Extends(u, u2, h)
    ensures |u| <= |u2| && forall i :: 0 <= i < |u| ==> u2[i] == u[i]
  {
    if u2 != u {
      forall i | 0 <= i < |u| ensures u2[i] == u[i] {
        assert u2[..|u|][i] == u2[i];
      }
    }
  }

  /**
   * An unset NUMBER_SAMPLES becomes the largest sample count of the batch:
   * no trace has more samples, and some trace has that many.
   */
  lemma MetadataSampleCount(hs: HeaderDict, traces: seq<Trace>, u: HeaderDict) returns (n: int)
    requires MetadataUpdates(hs, traces) == Ok(u) && !IsSet(hs, NUMBER_SAMPLES)
    ensures Get(u, Known(NUMBER_SAMPLES)) == Some(Plain(PInt(n)))
    ensures forall j :: 0 <= j < |traces| ==> |traces[j].samples| <= n
    ensures exists j :: 0 <= j < |traces| && |traces[j].samples| == n
  {
    var u1, u2, u3, u4 := MetadataSteps(hs, traces, u);
    n := MaxOf(SampleCounts(traces));
    assert u1 == [(Known(NUMBER_SAMPLES), Plain(PInt(n)))];
    GetIsEntry(u, Known(NUMBER_SAMPLES), 0);
    var counts := SampleCounts(traces);
    var j :| 0 <= j < |counts| && counts[j] == n;
    assert |traces[j].samples| == n;
  }

  /**
   * An unset TITLE_SPACE becomes the character count of the longest title
   * of the batch; it holds the title bytes of every trace when all titles
   * are ASCII.
   */
  lemma MetadataTitleSpace(hs: HeaderDict, traces: seq<Trace>, u: HeaderDict) returns (n: int)
    requires MetadataUpdates(hs, traces) == Ok(u) && !IsSet(hs, TITLE_SPACE)
    ensures Get(u, Known(TITLE_SPACE)) == Some(Plain(PInt(n)))
    ensures forall j :: 0 <= j < |traces| ==> CharCount(traces[j].title) <= n
    ensures exists j :: 0 <= j < |traces| && CharCount(traces[j].title) == n
    ensures (forall j, k :: 0 <= j < |traces| && 0 <= k < |traces[j].title| ==> !Continues(traces[j].title[k]))
            ==> forall j :: 0 <= j < |traces| ==> |traces[j].title| <= n
  {
    var u1, u2, u3, u4 := MetadataSteps(hs, traces, u);
    n := MaxOf(TitleLengths(traces));
    assert u == u4 + [(Known(TITLE_SPACE), Plain(PInt(n)))];
    GetIsEntry(u, Known(TITLE_SPACE), |u4|);
    var lens := TitleLengths(traces);
    var j :| 0 <= j < |lens| && lens[j] == n;
    assert CharCount(traces[j].title) == n;
  }

  /**
   * A title of one accented character ("\u00e9", two UTF-8 bytes): the
   * TITLE_SPACE derived from it is 1, and its record does not fit in that
   * space (TypeError).
   */
  lemma AccentedTitleRefused(hs: HeaderDict, t: Trace, u: HeaderDict, ns: int, size: nat)
    requires t.title == [0xC3, 0xA9] && Get(hs, Known(TITLE_SPACE)) == Some(Plain(PNone))
    ensures TitleSpaceUpdate(hs, [t], u) == Ok(u + [(Known(TITLE_SPACE), Plain(PInt(1)))])
    ensures EncodeRecord(t, 1, ns, size) == Err(TypeError)
  {
    assert t.title[..1] == [0xC3];
    assert CharCount(t.title) == 1;
    assert MaxOf(TitleLengths([t])) == 1;
  }

  /** The title space as intended: the byte length of the longest UTF-8 title, which the record writer compares with. */
  function TitleSpaceIntended(traces: seq<Trace>): (n: nat)
    requires traces != []
    ensures forall j :: 0 <= j < |traces| ==> |traces[j].title| <= n
    ensures exists j :: 0 <= j < |traces| && |traces[j].title| == n
  {
    var n := MaxOf(seq(|traces|, j requires 0 <= j < |traces| => |traces[j].title|));
    assert forall j :: 0 <= j < |traces| ==> seq(|traces|, j requires 0 <= j < |traces| => |traces[j].title|)[j] == |traces[j].title|;
    n
  }

  /** Under the intended title space no title of the batch is refused as too long. */
  lemma TitleSpaceIntendedFits(traces: seq<Trace>, j: int, ns: int, size: nat)
    requires 0 <= j < |traces|
    ensures EncodeRecord(traces[j], TitleSpaceIntended(traces), ns, size).Ok? <==> TPM.SerializeMap(traces[j].parameters).Ok?
  {
  }

  /**
   * An unset SAMPLE_CODING is only derived from a batch whose traces all
   * have the same coding, and becomes that coding; a batch of mixed
   * codings never gets through.
   */
  lemma MetadataCoding(hs: HeaderDict, traces: seq<Trace>, u: HeaderDict)
    requires MetadataUpdates(hs, traces) == Ok(u) && !IsSet(hs, SAMPLE_CODING)
    ensures traces != [] && forall j :: 0 <= j < |traces| ==> traces[j].coding == traces[0].coding
    ensures Get(u, Known(SAMPLE_CODING)) == Some(CodingValue(traces[0].coding))
  {
    var u1, u2, u3, u4 := MetadataSteps(hs, traces, u);
    assert u4 == u3 + [(Known(SAMPLE_CODING), CodingValue(traces[0].coding))];
    assert u[|u3|] == u4[|u3|];
    GetIsEntry(u, Known(SAMPLE_CODING), |u3|);
    forall j | 0 <= j < |traces| ensures traces[j].coding == traces[0].coding {
      assert Codings(traces)[j] == traces[j].coding;
    }
  }

  /**
   * An unset LENGTH_DATA is only derived from a batch whose serialized
   * parameters all have the same length, and becomes that length.
   */
  lemma MetadataDataLength(hs: HeaderDict, traces: seq<Trace>, u: HeaderDict) returns (lens: seq<int>)
    requires MetadataUpdates(hs, traces) == Ok(u) && !IsSet(hs, LENGTH_DATA)
    ensures DataLengths(traces) == Ok(lens) && traces != []
    ensures forall j :: 0 <= j < |lens| ==> lens[j] == lens[0]
    ensures Get(u, Known(LENGTH_DATA)) == Some(Plain(PInt(lens[0])))
  {
    var u1, u2, u3, u4 := MetadataSteps(hs, traces, u);
    lens := DataLengths(traces).value;
    assert u2 == u1 + [(Known(LENGTH_DATA), Plain(PInt(lens[0])))];
    assert u[|u1|] == u2[|u1|];
    GetIsEntry(u, Known(LENGTH_DATA), |u1|);
  }

  /**
   * Present definitions pass only a batch whose every trace's parameters
   * match them; missing ones become the definitions of the first trace's
   * parameters.
   */
  lemma MetadataDefinitions(hs: HeaderDict, traces: seq<Trace>, u: HeaderDict)
    requires MetadataUpdates(hs, traces) == Ok(u)
    ensures HasKey(hs, Known(TRACE_PARAMETER_DEFINITIONS)) && traces != [] ==>
      var d := Get(hs, Known(TRACE_PARAMETER_DEFINITIONS)).value;
      d.DefParams? && forall j :: 0 <= j < |traces| ==> TPM.MapMatches(traces[j].parameters, d.d)
    ensures !HasKey(hs, Known(TRACE_PARAMETER_DEFINITIONS)) ==>
      traces != [] && Get(u, Known(TRACE_PARAMETER_DEFINITIONS)) == Some(DefParams(TPM.FromTraceParameterMap(traces[0].parameters)))
  {
    var u1, u2, u3, u4 := MetadataSteps(hs, traces, u);
    if !HasKey(hs, Known(TRACE_PARAMETER_DEFINITIONS)) {
      assert u3 == u2 + [(Known(TRACE_PARAMETER_DEFINITIONS), DefParams(TPM.FromTraceParameterMap(traces[0].parameters)))];
      assert u[|u2|] == u3[|u2|];
      GetIsEntry(u, Known(TRACE_PARAMETER_DEFINITIONS), |u2|);
    }
  }

  // ---------------------------------------------------------------------
  // What __create_headers writes

  /** The deep copy has the keys of the original, each with its value copied. */
  lemma GetDeepCopy(g: HeaderDict, k: HeaderKey)
    requires Distinct(g)
    ensures Distinct(DeepCopyHeaders(g))
    ensures HasKey(DeepCopyHeaders(g), k) <==> HasKey(g, k)
    ensures HasKey(g, k) ==> Get(DeepCopyHeaders(g), k) == Some(DeepCopyValue(Get(g, k).value))
  {
    var dc := DeepCopyHeaders(g);
    if HasKey(g, k) {
      var i := IndexOf(g, k);
      GetIsEntry(g, k, i);
      GetIsEntry(dc, k, i);
    }
    if HasKey(dc, k) {
      var i :| 0 <= i < |dc| && dc[i].0 == k;
      assert g[i].0 == k;
    }
  }

  /** `if h not in headers: headers[h] = v` leaves h present and every present key as it was. */
  lemma SetIfMissingKeeps(hs: HeaderDict, h: Header, v: HeaderValue, k: HeaderKey)
    requires Distinct(hs)
    ensures Distinct(SetIfMissing(hs, h, v)) && HasKey(SetIfMissing(hs, h, v), Known(h))
    ensures HasKey(hs, k) ==> Get(SetIfMissing(hs, h, v), k) == Get(hs, k)
    ensures !HasKey(hs, Known(h)) ==> Get(SetIfMissing(hs, h, v), Known(h)) == Some(v)
  {
    if !HasKey(hs, Known(h)) {
      SetKeepsDistinct(hs, Known(h), v);
      GetAfterSet(hs, Known(h), v, k);
      GetAfterSet(hs, Known(h), v, Known(h));
    }
  }

  /** The loop of __create_headers leaves every header of ms present and every present header as it was. */
  lemma {:induction false} AddMissingKeeps(hs: HeaderDict, ms: seq<Header>, k: HeaderKey)
    requires Distinct(hs)
    ensures Distinct(AddMissing(hs, ms))
    ensures forall i :: 0 <= i < |ms| ==> HasKey(AddMissing(hs, ms), Known(ms[i]))
    ensures HasKey(hs, k) ==> Get(AddMissing(hs, ms), k) == Get(hs, k)
    decreases |ms|
  {
    if ms != [] {
      var hs1 := SetIfMissing(hs, ms[0], Default(ms[0]));
      SetIfMissingKeeps(hs, ms[0], Default(ms[0]), k);
      AddMissingKeeps(hs1, ms[1..], k);
      SetIfMissingKeeps(hs, ms[0], Default(ms[0]), Known(ms[0]));
      AddMissingKeeps(hs1, ms[1..], Known(ms[0]));
      forall i | 0 <= i < |ms| ensures HasKey(AddMissing(hs, ms), Known(ms[i])) {
        if i > 0 {
          assert ms[1..][i - 1] == ms[i];
        }
      }
    }
  }

  /** __create_headers leaves every mandatory header, TITLE_SPACE and LENGTH_DATA present. */
  lemma CompleteHeadersHas(given: Option<HeaderDict>, hs: HeaderDict)
    requires given.Some? ==> Distinct(given.value)
    requires CompleteHeaders(given) == Ok(hs)
    ensures Distinct(hs)
    ensures HasMandatory(hs)
    ensures HasKey(hs, Known(TITLE_SPACE)) && HasKey(hs, Known(LENGTH_DATA))
  {
    var hs0, hs2, hs3, hs4 := CreateSteps(given, hs);
    assert HasKey(hs2, Known(MandatoryInOrder[0])) && HasKey(hs2, Known(MandatoryInOrder[1]));
    assert HasKey(hs2, Known(MandatoryInOrder[2])) && HasKey(hs2, Known(MandatoryInOrder[3]));
    CarriedToEnd(hs2, hs3, hs4, hs, Known(NUMBER_TRACES));
    CarriedToEnd(hs2, hs3, hs4, hs, Known(NUMBER_SAMPLES));
    CarriedToEnd(hs2, hs3, hs4, hs, Known(SAMPLE_CODING));
    CarriedToEnd(hs2, hs3, hs4, hs, Known(TRACE_BLOCK));
    MandatoryPresent(hs);
  }

  /** __create_headers leaves TRS_VERSION an int of at least 2 when a parameter map header is present. */
  lemma CompleteHeadersVersion(given: Option<HeaderDict>, hs: HeaderDict)
    requires given.Some? ==> Distinct(given.value)
    requires CompleteHeaders(given) == Ok(hs)
    ensures HasKey(hs, Known(TRACE_PARAMETER_DEFINITIONS)) || HasKey(hs, Known(TRACE_SET_PARAMETERS)) ==>
      exists v :: Get(hs, Known(TRS_VERSION)) == Some(Plain(PInt(v))) && v >= 2
  {
    var hs0, hs2, hs3, hs4 := CreateSteps(given, hs);
    if HasKey(hs, Known(TRACE_PARAMETER_DEFINITIONS)) {
      CarriedBack(hs2, hs3, hs4, hs, Known(TRACE_PARAMETER_DEFINITIONS));
    }
    if HasKey(hs, Known(TRACE_SET_PARAMETERS)) {
      CarriedBack(hs2, hs3, hs4, hs, Known(TRACE_SET_PARAMETERS));
    }
    if HasKey(hs, Known(TRACE_PARAMETER_DEFINITIONS)) || HasKey(hs, Known(TRACE_SET_PARAMETERS)) {
      VersionRaised(hs2, hs3);
      CarriedToEnd(hs2, hs3, hs4, hs, Known(TRS_VERSION));
    }
  }

  /** The stages of __create_headers: the copy, the mandatory headers, the version, TITLE_SPACE and LENGTH_DATA. */
  lemma CreateSteps(given: Option<HeaderDict>, hs: HeaderDict) returns (hs0: HeaderDict, hs2: HeaderDict, hs3: HeaderDict, hs4: HeaderDict)
    requires given.Some? ==> Distinct(given.value)
    requires CompleteHeaders(given) == Ok(hs)
    ensures hs0 == (if given.Some? then DeepCopyHeaders(given.value) else []) && Distinct(hs0)
    ensures hs2 == AddMissing(SetIfMissing(hs0, SAMPLE_CODING, Plain(PNone)), MandatoryInOrder) && Distinct(hs2)
    ensures forall i :: 0 <= i < |MandatoryInOrder| ==> HasKey(hs2, Known(MandatoryInOrder[i]))
    ensures VersionStep(hs2, hs3) && Distinct(hs3)
    ensures hs4 == SetIfMissing(hs3, TITLE_SPACE, Default(TITLE_SPACE)) && hs == SetIfMissing(hs4, LENGTH_DATA, Plain(PNone))
    ensures Distinct(hs4) && Distinct(hs) && HasKey(hs, Known(TITLE_SPACE)) && HasKey(hs, Known(LENGTH_DATA))
  {
    hs0 := if given.Some? then DeepCopyHeaders(given.value) else [];
    if given.Some? {
      GetDeepCopy(given.value, Known(TRS_VERSION));
    }
    var hs1 := SetIfMissing(hs0, SAMPLE_CODING, Plain(PNone));
    SetIfMissingKeeps(hs0, SAMPLE_CODING, Plain(PNone), Known(TRS_VERSION));
    hs2 := AddMissing(hs1, MandatoryInOrder);
    AddMissingKeeps(hs1, MandatoryInOrder, Known(TRS_VERSION));
    var raise := (HasKey(hs2, Known(TRACE_PARAMETER_DEFINITIONS)) || HasKey(hs2, Known(TRACE_SET_PARAMETERS)))
                 && (!HasKey(hs2, Known(TRS_VERSION)) || IntOf(Get(hs2, Known(TRS_VERSION)).value).value < 2);
    hs3 := if raise then Set(hs2, Known(TRS_VERSION), Plain(PInt(2))) else hs2;
    if raise {
      SetKeepsDistinct(hs2, Known(TRS_VERSION), Plain(PInt(2)));
    }
    hs4 := SetIfMissing(hs3, TITLE_SPACE, Default(TITLE_SPACE));
    SetIfMissingKeeps(hs3, TITLE_SPACE, Default(TITLE_SPACE), Known(TITLE_SPACE));
    SetIfMissingKeeps(hs4, LENGTH_DATA, Plain(PNone), Known(TITLE_SPACE));
  }

  /**
   * The version step of __create_headers: with a parameter map header
   * present, TRS_VERSION must be an int, and becomes 2 when missing or
   * below 2.
   */
  ghost predicate VersionStep(hs2: HeaderDict, hs3: HeaderDict)
  {
    if HasKey(hs2, Known(TRACE_PARAMETER_DEFINITIONS)) || HasKey(hs2, Known(TRACE_SET_PARAMETERS)) then
      (!HasKey(hs2, Known(TRS_VERSION)) || IntOf(Get(hs2, Known(TRS_VERSION)).value).Ok?)
      && hs3 == (if !HasKey(hs2, Known(TRS_VERSION)) || IntOf(Get(hs2, Known(TRS_VERSION)).value).value < 2
                 then Set(hs2, Known(TRS_VERSION), Plain(PInt(2))) else hs2)
    else hs3 == hs2
  }

  /** After the version step TRS_VERSION is an int of at least 2 when a parameter map header is present. */
  lemma VersionRaised(hs2: HeaderDict, hs3: HeaderDict)
    requires Distinct(hs2) && VersionStep(hs2, hs3)
    requires HasKey(hs2, Known(TRACE_PARAMETER_DEFINITIONS)) || HasKey(hs2, Known(TRACE_SET_PARAMETERS))
    ensures exists v :: Get(hs3, Known(TRS_VERSION)) == Some(Plain(PInt(v))) && v >= 2
  {
    var k := Known(TRS_VERSION);
    if !HasKey(hs2, k) || IntOf(Get(hs2, k).value).value < 2 {
      GetAfterSet(hs2, k, Plain(PInt(2)), k);
      assert Get(hs3, k) == Some(Plain(PInt(2)));
    } else {
      var v := Get(hs2, k).value;
      assert v.Plain? && v.v.IsInt();
      assert v == Plain(PInt(v.v.AsInt()));
    }
  }

  /** A header present before the version step is present at the end, and one present after it keeps its value. */
  lemma CarriedToEnd(hs2: HeaderDict, hs3: HeaderDict, hs4: HeaderDict, hs: HeaderDict, k: HeaderKey)
    requires Distinct(hs2) && VersionStep(hs2, hs3) && Distinct(hs3)
    requires hs4 == SetIfMissing(hs3, TITLE_SPACE, Default(TITLE_SPACE)) && hs == SetIfMissing(hs4, LENGTH_DATA, Plain(PNone))
    ensures HasKey(hs2, k) ==> HasKey(hs, k)
    ensures HasKey(hs3, k) ==> Get(hs, k) == Get(hs3, k)
  {
    if hs3 != hs2 {
      GetAfterSet(hs2, Known(TRS_VERSION), Plain(PInt(2)), k);
    }
    SetIfMissingKeeps(hs3, TITLE_SPACE, Default(TITLE_SPACE), k);
    SetIfMissingKeeps(hs4, LENGTH_DATA, Plain(PNone), k);
  }

  /** A header present at the end, other than the three __create_headers may add, was present before the version step. */
  lemma CarriedBack(hs2: HeaderDict, hs3: HeaderDict, hs4: HeaderDict, hs: HeaderDict, k: HeaderKey)
    requires VersionStep(hs2, hs3)
    requires hs4 == SetIfMissing(hs3, TITLE_SPACE, Default(TITLE_SPACE)) && hs == SetIfMissing(hs4, LENGTH_DATA, Plain(PNone))
    requires HasKey(hs, k) && k != Known(TITLE_SPACE) && k != Known(LENGTH_DATA) && k != Known(TRS_VERSION)
    ensures HasKey(hs2, k)
  {
    var i :| 0 <= i < |hs| && hs[i].0 == k;
    if !HasKey(hs4, Known(LENGTH_DATA)) { assert i < |hs4|; }
    assert HasKey(hs4, k);
    var j :| 0 <= j < |hs4| && hs4[j].0 == k;
    if !HasKey(hs3, Known(TITLE_SPACE)) { assert j < |hs3|; }
    assert HasKey(hs3, k);
    if hs3 != hs2 {
      var m :| 0 <= m < |hs3| && hs3[m].0 == k;
      if !HasKey(hs2, Known(TRS_VERSION)) { assert m < |hs2|; } else { assert hs2[m].0 == k; }
    }
  }

  // ---------------------------------------------------------------------
  // What opening a file leaves

  /**
   * Opening for writing (w, x, or a on a missing file) creates the headers
   * and writes them all: the engine is writable with the options given, its
   * header block is laid out and the trace block starts after TRACE_BLOCK.
   */
  lemma OpenForWriting(mode: Mode, fileExists: bool, existing: seq<byte>, headers: Option<HeaderDict>,
                       padding: TracePadding, liveUpdate: int, ignore: bool, e: Engine)
    requires mode == Write || mode == Exclusive || (mode == Append && !fileExists)
    requires headers.Some? ==> Distinct(headers.value)
    requires Opened(mode, fileExists, existing, headers, padding, liveUpdate, ignore) == Ok(e)
    ensures !e.readOnly && e.padding == padding && e.liveUpdate == liveUpdate && !e.closed
    ensures Laid(e) && HasKey(e.locations, TB) && e.traceblockOffset.Some?
  {
    assert Opened(mode, fileExists, existing, headers, padding, liveUpdate, ignore) == OpenNew(headers, padding, liveUpdate, ignore);
    var e0 := Fresh([0], false, padding, liveUpdate, ignore);
    FreshLaid(padding, liveUpdate, ignore);
    CreateHeadersLaid(e0, headers, e);
  }

  /** A new file of one zero byte, with no headers yet, is laid out. */
  lemma FreshLaid(padding: TracePadding, liveUpdate: int, ignore: bool)
    ensures Laid(Fresh([0], false, padding, liveUpdate, ignore))
  {
  }

  /** __create_headers writes a non-empty header block: the layout is kept and TRACE_BLOCK gets a location. */
  lemma CreateHeadersLaid(e0: Engine, headers: Option<HeaderDict>, e: Engine)
    requires Laid(e0) && (headers.Some? ==> Distinct(headers.value))
    requires AfterCreateHeaders(e0, headers) == Ok(e)
    ensures Laid(e) && HasKey(e.locations, TB) && SameSettings(e0, e)
  {
    var hs := CompleteHeaders(headers).value;
    CompleteHeadersNonEmpty(headers, hs);
    WriteEveryHeaderLaid(e0.(headers := hs), e);
  }

  /** The created dictionary has distinct keys and is never empty. */
  lemma CompleteHeadersNonEmpty(given: Option<HeaderDict>, hs: HeaderDict)
    requires given.Some? ==> Distinct(given.value)
    requires CompleteHeaders(given) == Ok(hs)
    ensures Distinct(hs) && hs != []
  {
    CompleteHeadersHas(given, hs);
  }

  /** Writing every header of a non-empty dictionary lays out the header block with a TRACE_BLOCK location. */
  lemma WriteEveryHeaderLaid(e1: Engine, e: Engine)
    requires Laid(e1) && Distinct(e1.headers) && e1.headers != []
    requires WriteHeaders(e1, None) == Ok(e)
    ensures Laid(e) && HasKey(e.locations, TB) && SameSettings(e1, e)
  {
    assert WriteHeaders(e1, None) == WriteHeaders(e1, Some(e1.headers));
    WriteHeadersLaid(e1, None, e);
    WriteHeadersKeeps(e1, e1.headers, e, TB);
  }

  /**
   * Opening for reading gives a read-only engine holding every mandatory
   * header, over a file of exactly NUMBER_TRACES records after the trace
   * block; it refuses every header update with TypeError.
   */
  lemma OpenForReading(fileExists: bool, existing: seq<byte>, padding: TracePadding, liveUpdate: int, ignore: bool, e: Engine, input: HeaderDict)
    requires Opened(Read, fileExists, existing, None, padding, liveUpdate, ignore) == Ok(e)
    ensures fileExists && existing != [] && e.readOnly && e.file == existing
    ensures HasMandatory(e.headers)
    ensures e.traceblockOffset.Some? && e.traceLength.Some? && IntOf(Get(e.headers, Known(NUMBER_TRACES)).value).Ok?
    ensures |existing| == e.traceblockOffset.value + IntOf(Get(e.headers, Known(NUMBER_TRACES)).value).value * e.traceLength.value
    ensures AfterUpdateHeaders(e, Some(input)) == Err(TypeError)
  {
  }
}
