// trsfile/engine/trs.py: the trace block of a .trs file. set_traces writes
// each trace as one record (title, parameter data, samples) at a fixed
// stride from the trace block offset; get_traces and read_parameter_data
// read such a record back.
module TrsTraces {
  import opened PyErrors
  import opened PyValues
  import opened Utils
  import opened OrderedDicts
  import opened TraceParameters
  import opened Common
  import opened Engines
  import opened Tlvs
  import opened TrsHeaders
  import TPM = TraceParameterMaps
  import Defs = TraceParameterDefinitionMaps

  /**
   * A Trace as the engine sees it: its sample coding, its samples (each
   * sample as the bytes numpy stores it in), its parameters and its title
   * (as UTF-8).
   */
  datatype Trace = Trace(coding: SampleCoding, samples: seq<seq<byte>>, parameters: TPM.TraceParameterMap, title: seq<byte>)

  /** A byte that continues a UTF-8 sequence (10xxxxxx) rather than starting a character. */
  predicate Continues(b: byte)
  {
    0x80 <= b < 0xC0
  }

  /**
   * `len(title)` of the str whose UTF-8 bytes are s: one character per byte
   * that does not continue a sequence. It is the byte length exactly when
   * no byte continues one, as for ASCII.
   */
  function CharCount(s: seq<byte>): (r: nat)
    ensures r <= |s|
    ensures r == |s| <==> forall j :: 0 <= j < |s| ==> !Continues(s[j])
    decreases |s|
  {
    if s == [] then 0
    else
      var front := s[..|s| - 1];
      assert forall j :: 0 <= j < |front| ==> front[j] == s[j];
      CharCount(front) + if Continues(s[|s| - 1]) then 0 else 1
  }

  // ---------------------------------------------------------------------
  // Indexes

  /** A Python range with a non-zero step. */
  datatype PyRange = PyRange(start: int, stop: int, step: int)
  {
    /** `len(range)` */
    function Len(): (n: nat)
    {
      if step > 0 then (if start < stop then (stop - start - 1) / step + 1 else 0)
      else if step < 0 then (if start > stop then (start - stop - 1) / (-step) + 1 else 0)
      else 0
    }

    /** `range[j]` */
    function At(j: nat): int
    {
      start + j * step
    }

    /** `max(range)` of a non-empty range: its last element when it ascends, its first when it descends. */
    function Max(): int
    {
      if step > 0 && Len() > 0 then At(Len() - 1) else start
    }
  }

  /** An index of set_traces or get_traces: an int, or a slice. */
  datatype Index = At(i: int) | Slice(start: Option<int>, stop: Option<int>, step: Option<int>)

  /** One bound of `slice.indices(length)`: None takes the default, a negative bound counts from the end, then it is clamped. */
  function Bound(b: Option<int>, dflt: int, length: int, lower: int, upper: int): int
  {
    if b.None? then dflt
    else if b.value < 0 then (if b.value + length < lower then lower else b.value + length)
    else if b.value > upper then upper
    else b.value
  }

  /**
   * `slice.indices(length)`: a zero step is a ValueError, as is a negative
   * length; the start and the stop come out clamped to the length.
   */
  function SliceIndices(start: Option<int>, stop: Option<int>, step: Option<int>, length: int): (r: Result<PyRange>)
    ensures r.Ok? ==> r.value.step != 0
    ensures r.Ok? && r.value.step > 0 ==> 0 <= r.value.start <= length && 0 <= r.value.stop <= length
    ensures r.Ok? && r.value.step < 0 ==> -1 <= r.value.start <= length - 1 && -1 <= r.value.stop <= length - 1
  {
    var s := if step.None? then 1 else step.value;
    if s == 0 || length < 0 then Err(ValueError)
    else
      var lower := if s < 0 then -1 else 0;
      var upper := if s < 0 then length - 1 else length;
      var b := Bound(start, if s < 0 then upper else lower, length, lower, upper);
      var e := Bound(stop, if s < 0 then lower else upper, length, lower, upper);
      Ok(PyRange(b, e, s))
  }

  /** Every element of a range obtained from `slice.indices(length)` lies in [0, length). */
  lemma SliceIndicesInRange(start: Option<int>, stop: Option<int>, step: Option<int>, length: int, j: nat)
    requires SliceIndices(start, stop, step, length).Ok?
    requires j < SliceIndices(start, stop, step, length).value.Len()
    ensures 0 <= SliceIndices(start, stop, step, length).value.At(j) < length
  {
    var r := SliceIndices(start, stop, step, length).value;
    if r.step > 0 {
      assert j <= (r.stop - r.start - 1) / r.step;
      assert j * r.step <= r.stop - r.start - 1 by {
        DivMul(r.stop - r.start - 1, r.step, j);
      }
    } else {
      assert j <= (r.start - r.stop - 1) / (-r.step);
      assert j * (-r.step) <= r.start - r.stop - 1 by {
        DivMul(r.start - r.stop - 1, -r.step, j);
      }
    }
  }

  /** j <= a / d gives j * d <= a for a non-negative a and a positive d. */
  lemma DivMul(a: int, d: int, j: nat)
    requires a >= 0 && d > 0 && j <= a / d
    ensures j * d <= a
  {
    assert j * d <= (a / d) * d;
  }

  // ---------------------------------------------------------------------
  // Writing a trace

  /** Python's `s[:n]` (numpy's for an array): a negative n drops that many from the end. */
  function PyPrefix<T>(s: seq<T>, n: int): (r: seq<T>)
    ensures n >= 0 ==> r == s[..if n < |s| then n else |s|]
  {
    if n >= |s| then s
    else if n >= 0 then s[..n]
    else if -n >= |s| then []
    else s[..|s| + n]
  }

  /**
   * The bytes set_traces writes for a trace: the title padded with zero
   * bytes to the title space (TypeError when it does not fit), the
   * serialized parameters, at most ns samples, and zero bytes for the
   * samples missing up to ns.
   */
  function EncodeRecord(t: Trace, ts: int, ns: int, size: nat): (r: Result<seq<byte>>)
    ensures |t.title| > ts ==> r == Err(TypeError)
  {
    if |t.title| > ts then Err(TypeError)
    else
      var params :- TPM.SerializeMap(t.parameters);
      var pad := (ns - |t.samples|) * size;
      Ok(t.title + Repeat(0, ts - |t.title|) + params + Flatten(PyPrefix(t.samples, ns)) + (if pad > 0 then Repeat(0, pad) else []))
  }

  // ---------------------------------------------------------------------
  // Reading a trace

  /** `read(n)` with n taken from a header or a size: None or a negative n reads to the end; any other non-int is a TypeError. */
  function ReadUpTo(c: Cursor, n: HeaderValue): (r: Result<(Cursor, seq<byte>)>)
    ensures n.Plain? && n.v.PInt? && n.v.i >= 0 ==> r == Ok(c.Read(n.v.i))
    ensures r.Ok? ==> r.value.0.data == c.data && r.value.0.pos == c.pos + |r.value.1|
  {
    if n == Plain(PNone) then Ok(c.Read(if c.pos < |c.data| then |c.data| - c.pos else 0))
    else
      var k :- IntOf(n);
      Ok(c.Read(if k >= 0 then k else if c.pos < |c.data| then |c.data| - c.pos else 0))
  }

  /** `bytes.rstrip(b'\x00')` */
  function StripZeros(s: seq<byte>): (r: seq<byte>)
    ensures |r| <= |s| && r == s[..|r|] && (r == [] || r[|r| - 1] != 0)
    ensures forall j :: |r| <= j < |s| ==> s[j] == 0
  {
    if s == [] || s[|s| - 1] != 0 then s else StripZeros(s[..|s| - 1])
  }

  /**
   * `read_parameter_data()`: with TRS_VERSION above 1 and definitions in
   * the headers, the bytes the definitions reserve, deserialized with them;
   * otherwise LENGTH_DATA bytes of legacy data, kept as one byte array
   * parameter when there are any.
   */
  function ReadParameterData(c: Cursor, hs: HeaderDict): (r: Result<(Cursor, TPM.TraceParameterMap)>)
    ensures r.Ok? ==> r.value.0.data == c.data && r.value.0.pos >= c.pos
    ensures !HasKey(hs, Known(TRACE_PARAMETER_DEFINITIONS)) && !HasKey(hs, Known(LENGTH_DATA)) ==> r.Ok? ==> r.value == (c, TPM.Typed([]))
    ensures !HasKey(hs, Known(TRACE_PARAMETER_DEFINITIONS)) && HasKey(hs, Known(LENGTH_DATA)) && r.Ok? ==>
      var n := Get(hs, Known(LENGTH_DATA)).value;
      n.Plain? && n.v.PInt? && 0 < n.v.i && c.pos + n.v.i <= |c.data| ==>
      r.value == (Cursor(c.data, c.pos + n.v.i), TPM.Typed([(TPM.LEGACY_DATA, ByteArray(c.data[c.pos..c.pos + n.v.i]))]))
  {
    var versioned :- if !HasKey(hs, Known(TRS_VERSION)) then Ok(false)
                     else var v :- IntOf(Get(hs, Known(TRS_VERSION)).value); Ok(v > 1);
    if versioned && HasKey(hs, Known(TRACE_PARAMETER_DEFINITIONS)) then
      var defs := Get(hs, Known(TRACE_PARAMETER_DEFINITIONS)).value;
      if !defs.DefParams? then Err(AttributeError)
      else
        var (c1, data) :- ReadUpTo(c, Plain(PInt(Defs.TotalSize(defs.d.entries))));
        var m :- TPM.DeserializeMap(data, defs.d);
        Ok((c1, m))
    else if HasKey(hs, Known(LENGTH_DATA)) then
      var (c1, data) :- ReadUpTo(c, Get(hs, Known(LENGTH_DATA)).value);
      Ok((c1, if data != [] then TPM.Typed([(TPM.LEGACY_DATA, ByteArray(data))]) else TPM.Typed([])))
    else Ok((c, TPM.Typed([])))
  }

  /** The n samples of `size` bytes at the start of buf (numpy.frombuffer with a count). */
  function Chunks(buf: seq<byte>, size: nat, n: nat): (r: seq<seq<byte>>)
    requires n * size <= |buf|
    ensures |r| == n && forall j :: 0 <= j < n ==> |r[j]| == size
    decreases n
  {
    if n == 0 then []
    else
      MulStep(n, size);
      Chunks(buf, size, n - 1) + [buf[(n - 1) * size..n * size]]
  }

  lemma MulStep(n: nat, size: nat)
    requires n > 0
    ensures (n - 1) * size + size == n * size
  {
  }

  /**
   * One pass of the loop of get_traces, from the start of the record: the
   * title (TITLE_SPACE bytes without their trailing zero bytes, none when
   * there is no TITLE_SPACE), the parameters, and NUMBER_SAMPLES samples
   * from the next traceLength bytes (ValueError when fewer are left). As
   * with `numpy.frombuffer`, a negative NUMBER_SAMPLES takes all of those
   * bytes, and is a ValueError when they are not a whole number of samples.
   */
  function ReadTrace(c: Cursor, hs: HeaderDict, traceLength: int): (r: Result<Trace>)
    ensures r.Ok? ==> CodingOf(hs) == Ok(r.value.coding) && r.value.title == StripZeros(r.value.title)
    ensures r.Ok? ==> Lookup(hs, NUMBER_SAMPLES).Ok? && IntOf(Lookup(hs, NUMBER_SAMPLES).value).Ok?
    ensures r.Ok? && IntOf(Lookup(hs, NUMBER_SAMPLES).value).value >= 0 ==>
      IntOf(Lookup(hs, NUMBER_SAMPLES).value) == Ok(|r.value.samples|)
    ensures r.Ok? ==> forall j :: 0 <= j < |r.value.samples| ==> |r.value.samples[j]| == r.value.coding.Size()
  {
    var (c1, title) :- if HasKey(hs, Known(TITLE_SPACE)) then ReadUpTo(c, Get(hs, Known(TITLE_SPACE)).value) else Ok((c, []));
    var (c2, params) :- ReadParameterData(c1, hs);
    var (_, buf) := c2.Read(if traceLength >= 0 then traceLength else if c2.pos < |c2.data| then |c2.data| - c2.pos else 0);
    var sc :- CodingOf(hs);
    var nsValue :- Lookup(hs, NUMBER_SAMPLES);
    var ns :- IntOf(nsValue);
    if ns < 0 then
      if |buf| % sc.Size() != 0 then Err(ValueError)
      else Ok(Trace(sc, Chunks(buf, sc.Size(), |buf| / sc.Size()), params, StripZeros(title)))
    else if ns * sc.Size() > |buf| then Err(ValueError)
    else Ok(Trace(sc, Chunks(buf, sc.Size(), ns), params, StripZeros(title)))
  }

  // ---------------------------------------------------------------------
  // A record reads back as the trace it was written for

  /** m samples of `size` zero bytes. */
  function Zeros(m: nat, size: nat): (r: seq<seq<byte>>)
    ensures |r| == m && forall j :: 0 <= j < m ==> r[j] == Repeat(0, size)
  {
    seq(m, _ => Repeat(0, size))
  }

  /**
   * The samples of a trace as a record of ns samples holds them: the first
   * ns of the trace's own (the rest are cut off), then zero samples.
   */
  function Padded(samples: seq<seq<byte>>, ns: nat, size: nat): (r: seq<seq<byte>>)
    ensures |r| == ns
    ensures |samples| <= ns ==> r[..|samples|] == samples
    ensures |samples| >= ns ==> r == samples[..ns]
    ensures forall j :: |samples| <= j < ns ==> r[j] == Repeat(0, size)
  {
    var kept := PyPrefix(samples, ns);
    kept + Zeros(ns - |kept|, size)
  }

  lemma {:induction false} FlattenSize(ws: seq<seq<byte>>, size: nat)
    requires forall j :: 0 <= j < |ws| ==> |ws[j]| == size
    ensures |Flatten(ws)| == |ws| * size
    decreases |ws|
  {
    if ws != [] {
      FlattenSize(ws[..|ws| - 1], size);
      MulStep(|ws|, size);
    }
  }

  lemma {:induction false} FlattenAppend(a: seq<seq<byte>>, b: seq<seq<byte>>)
    ensures Flatten(a + b) == Flatten(a) + Flatten(b)
    decreases |b|
  {
    if b == [] {
      assert a + b == a;
    } else {
      assert (a + b)[..|a + b| - 1] == a + b[..|b| - 1];
      FlattenAppend(a, b[..|b| - 1]);
    }
  }

  lemma {:induction false} FlattenZeros(m: nat, size: nat)
    ensures Flatten(Zeros(m, size)) == Repeat(0, m * size)
    decreases m
  {
    if m > 0 {
      assert Zeros(m, size)[..m - 1] == Zeros(m - 1, size);
      FlattenZeros(m - 1, size);
      MulStep(m, size);
    }
  }

  /** The sample bytes of a record are the bytes of the padded samples. */
  lemma PaddedBytes(samples: seq<seq<byte>>, ns: nat, size: nat)
    ensures var pad := (ns - |samples|) * size;
      Flatten(PyPrefix(samples, ns)) + (if pad > 0 then Repeat(0, pad) else []) == Flatten(Padded(samples, ns, size))
  {
    var kept := PyPrefix(samples, ns);
    FlattenAppend(kept, Zeros(ns - |kept|, size));
    FlattenZeros(ns - |kept|, size);
    if |samples| > ns {
      assert Flatten(Zeros(0, size)) == [];
    }
  }

  /** numpy.frombuffer over bytes that start with the bytes of samples of that size gives those samples back. */
  lemma {:induction false} ChunksOfFlatten(buf: seq<byte>, ws: seq<seq<byte>>, size: nat)
    requires forall j :: 0 <= j < |ws| ==> |ws[j]| == size
    requires |ws| * size <= |buf| && buf[..|ws| * size] == Flatten(ws)
    ensures Chunks(buf, size, |ws|) == ws
    decreases |ws|
  {
    if ws != [] {
      var n := |ws|;
      var front := ws[..n - 1];
      FlattenSize(front, size);
      MulStep(n, size);
      assert Flatten(ws) == Flatten(front) + ws[n - 1];
      assert buf[..(n - 1) * size] == buf[..n * size][..(n - 1) * size];
      ChunksOfFlatten(buf, front, size);
      assert buf[(n - 1) * size..n * size] == buf[..n * size][(n - 1) * size..];
    }
  }

  /** A title without trailing zero bytes survives its zero padding and rstrip. */
  lemma {:induction false} StripPadded(title: seq<byte>, k: nat)
    requires title == [] || title[|title| - 1] != 0
    ensures StripZeros(title + Repeat(0, k)) == title
    decreases k
  {
    if k == 0 {
      assert title + Repeat(0, k) == title;
    } else {
      assert (title + Repeat(0, k))[..|title| + k - 1] == title + Repeat(0, k - 1);
      StripPadded(title, k - 1);
    }
  }

  /** Reading the n bytes from p to q, which are there. */
  lemma ReadExactly(data: seq<byte>, p: nat, q: nat, n: nat)
    requires q == p + n && q <= |data|
    ensures ReadUpTo(Cursor(data, p), Plain(PInt(n))) == Ok((Cursor(data, q), data[p..q]))
  {
  }

  /** Three byte strings one after the other: a from p to q, b from q to r and c from r to e. */
  lemma Segments3(data: seq<byte>, p: nat, q: nat, r: nat, e: nat, a: seq<byte>, b: seq<byte>, c: seq<byte>)
    requires q == p + |a| && r == q + |b| && e == r + |c| && e <= |data|
    requires data[p..e] == a + b + c
    ensures data[p..q] == a && data[q..r] == b && data[r..e] == c
  {
    SplitSegment(data, p, a + b + c, a + b, c);
    SplitSegment(data, p, a + b, a, b);
  }

  /** The record EncodeRecord writes: the padded title, the serialized parameters and the bytes of the padded samples. */
  lemma RecordLayout(t: Trace, ts: nat, ns: nat, size: nat, rec: seq<byte>) returns (params: seq<byte>, ws: seq<seq<byte>>)
    requires forall j :: 0 <= j < |t.samples| ==> |t.samples[j]| == size
    requires EncodeRecord(t, ts, ns, size) == Ok(rec)
    ensures TPM.SerializeMap(t.parameters) == Ok(params) && ws == Padded(t.samples, ns, size)
    ensures forall j :: 0 <= j < |ws| ==> |ws[j]| == size
    ensures |t.title| <= ts && |Flatten(ws)| == ns * size
    ensures rec == (t.title + Repeat(0, ts - |t.title|)) + params + Flatten(ws)
  {
    params := TPM.SerializeMap(t.parameters).value;
    ws := Padded(t.samples, ns, size);
    PaddedBytes(t.samples, ns, size);
    forall j | 0 <= j < |ws|
      ensures |ws[j]| == size
    {
      if j >= |t.samples| {
        assert ws[j] == Repeat(0, size);
      }
    }
    FlattenSize(ws, size);
  }

  /**
   * Where the definitions are those from_trace_parameter_map gives for a
   * map, they span the map's serialized bytes and read them back as the map.
   */
  lemma ParamsReadBack(m: TPM.TraceParameterMap, d: Defs.DefinitionMap, params: seq<byte>)
    requires d.entries == TPM.FromTraceParameterMap(m).entries
    requires Distinct(m.Items()) && TPM.SerializeMap(m) == Ok(params)
    requires forall k :: 0 <= k < |m.Items()| ==> TPM.Storable(m.Items()[k].1)
    ensures Defs.TotalSize(d.entries) == |params| && TPM.DeserializeMap(params, d) == Ok(TPM.Typed(m.Items()))
  {
    var own := TPM.FromTraceParameterMap(m);
    TPM.FromMapPacked(m);
    TPM.SerializeMapRoundTrip(m, own);
    assert TPM.DeserializeMap(params, d) == TPM.DeserializeMap(params, own) by {
      assert TPM.ReadParams(params, d.entries, []) == TPM.ReadParams(params, own.entries, []);
    }
  }

  /** read_parameter_data with TRS_VERSION above 1 and definitions present reads the n bytes they span, from q to r, and deserializes them. */
  lemma ParameterDataFrom(hs: HeaderDict, v: int, d: Defs.DefinitionMap, data: seq<byte>, q: nat, r: nat, n: nat, m: TPM.TraceParameterMap)
    requires Get(hs, Known(TRS_VERSION)) == Some(Plain(PInt(v))) && v > 1
    requires Get(hs, Known(TRACE_PARAMETER_DEFINITIONS)) == Some(DefParams(d))
    requires Defs.TotalSize(d.entries) == n && r == q + n && r <= |data|
    requires TPM.DeserializeMap(data[q..r], d) == Ok(m)
    ensures ReadParameterData(Cursor(data, q), hs) == Ok((Cursor(data, r), m))
  {
    ReadExactly(data, q, r, n);
    assert IntOf(Plain(PInt(v))) == Ok(v);
  }

  /** get_traces' reading of one trace, step by step, when every step succeeds. */
  lemma ReadTraceAt(c: Cursor, hs: HeaderDict, traceLength: int, ts: nat, c1: Cursor, title: seq<byte>,
                    c2: Cursor, params: TPM.TraceParameterMap, sc: SampleCoding, ns: nat, len: nat)
    requires Get(hs, Known(TITLE_SPACE)) == Some(Plain(PInt(ts)))
    requires Get(hs, Known(NUMBER_SAMPLES)) == Some(Plain(PInt(ns)))
    requires Get(hs, Known(SAMPLE_CODING)) == Some(CodingValue(sc))
    requires ReadUpTo(c, Plain(PInt(ts))) == Ok((c1, title))
    requires ReadParameterData(c1, hs) == Ok((c2, params))
    requires len == ns * sc.Size() && traceLength >= len && c2.pos + len <= |c2.data|
    ensures var buf := c2.Read(traceLength).1;
      len <= |buf|
      && ReadTrace(c, hs, traceLength) == Ok(Trace(sc, Chunks(buf, sc.Size(), ns), params, StripZeros(title)))
  {
    assert CodingOf(hs) == Ok(sc);
    assert IntOf(Plain(PInt(ns))) == Ok(ns);
  }

  /**
   * A negative NUMBER_SAMPLES reads every byte left of the traceLength
   * bytes as samples, and fails with ValueError exactly when those bytes
   * are not a whole number of samples.
   */
  lemma ReadTraceNegativeCount(c: Cursor, hs: HeaderDict, traceLength: int, ts: nat, c1: Cursor, title: seq<byte>,
                               c2: Cursor, params: TPM.TraceParameterMap, sc: SampleCoding, ns: int)
    requires traceLength >= 0
    requires Get(hs, Known(TITLE_SPACE)) == Some(Plain(PInt(ts)))
    requires Get(hs, Known(NUMBER_SAMPLES)) == Some(Plain(PInt(ns))) && ns < 0
    requires Get(hs, Known(SAMPLE_CODING)) == Some(CodingValue(sc))
    requires ReadUpTo(c, Plain(PInt(ts))) == Ok((c1, title))
    requires ReadParameterData(c1, hs) == Ok((c2, params))
    ensures var buf := c2.Read(traceLength).1;
      var r := ReadTrace(c, hs, traceLength);
      (r.Ok? <==> |buf| % sc.Size() == 0)
      && (r.Err? ==> r.error == ValueError)
      && (r.Ok? ==> |r.value.samples| * sc.Size() == |buf| && r.value.samples == Chunks(buf, sc.Size(), |buf| / sc.Size()))
  {
    assert CodingOf(hs) == Ok(sc);
    assert IntOf(Plain(PInt(ns))) == Ok(ns);
  }

  /** The samples of a trace: the first len bytes of what is left of its record, cut into words. */
  lemma SamplesAt(data: seq<byte>, r: nat, traceLength: int, ws: seq<seq<byte>>, size: nat, len: nat)
    requires forall j :: 0 <= j < |ws| ==> |ws[j]| == size
    requires len == |ws| * size && traceLength >= len && r + len <= |data|
    requires data[r..r + len] == Flatten(ws)
    ensures var buf := Cursor(data, r).Read(traceLength).1;
      len <= |buf| && Chunks(buf, size, |ws|) == ws
  {
    var buf := Cursor(data, r).Read(traceLength).1;
    assert buf[..len] == data[r..r + len];
    ChunksOfFlatten(buf, ws, size);
  }

  /** The title and the parameters of a trace, from p to q and from q to r, read back as they are. */
  lemma HeadReadBack(data: seq<byte>, p: nat, q: nat, r: nat, hs: HeaderDict, ts: nat, title: seq<byte>,
                     v: int, d: Defs.DefinitionMap, n: nat, params: TPM.TraceParameterMap)
    requires Get(hs, Known(TRS_VERSION)) == Some(Plain(PInt(v))) && v > 1
    requires Get(hs, Known(TRACE_PARAMETER_DEFINITIONS)) == Some(DefParams(d))
    requires q == p + ts && r == q + n && r <= |data| && data[p..q] == title
    requires Defs.TotalSize(d.entries) == n && TPM.DeserializeMap(data[q..r], d) == Ok(params)
    ensures ReadUpTo(Cursor(data, p), Plain(PInt(ts))) == Ok((Cursor(data, q), title))
    ensures ReadParameterData(Cursor(data, q), hs) == Ok((Cursor(data, r), params))
  {
    ReadExactly(data, p, q, ts);
    ParameterDataFrom(hs, v, d, data, q, r, n, params);
  }

  /** A trace whose title (from p to q), parameters (from q to r) and samples (from r on) lie one after the other reads back as them. */
  lemma ReadBack(data: seq<byte>, p: nat, q: nat, r: nat, hs: HeaderDict, traceLength: int, ts: nat, title: seq<byte>,
                 v: int, d: Defs.DefinitionMap, n: nat, params: TPM.TraceParameterMap, sc: SampleCoding, ws: seq<seq<byte>>, len: nat)
    requires Get(hs, Known(TITLE_SPACE)) == Some(Plain(PInt(ts)))
    requires Get(hs, Known(NUMBER_SAMPLES)) == Some(Plain(PInt(|ws|)))
    requires Get(hs, Known(SAMPLE_CODING)) == Some(CodingValue(sc))
    requires Get(hs, Known(TRS_VERSION)) == Some(Plain(PInt(v))) && v > 1
    requires Get(hs, Known(TRACE_PARAMETER_DEFINITIONS)) == Some(DefParams(d))
    requires q == p + ts && r == q + n && r <= |data| && data[p..q] == title
    requires Defs.TotalSize(d.entries) == n && TPM.DeserializeMap(data[q..r], d) == Ok(params)
    requires forall j :: 0 <= j < |ws| ==> |ws[j]| == sc.Size()
    requires len == |ws| * sc.Size() && traceLength >= len && r + len <= |data|
    requires data[r..r + len] == Flatten(ws)
    ensures ReadTrace(Cursor(data, p), hs, traceLength) == Ok(Trace(sc, ws, params, StripZeros(title)))
  {
    HeadReadBack(data, p, q, r, hs, ts, title, v, d, n, params);
    SamplesAt(data, r, traceLength, ws, sc.Size(), len);
    ReadTraceAt(Cursor(data, p), hs, traceLength, ts, Cursor(data, q), title, Cursor(data, r), params, sc, |ws|, len);
  }

  /**
   * A record laid out at p as a title padded to ts bytes, serialized
   * parameters and sample bytes, cut into those three: the title up to q,
   * the parameters from q to r and the samples from r on.
   */
  lemma RecordSlices(title: seq<byte>, ts: nat, params: seq<byte>, flat: seq<byte>, rec: seq<byte>, data: seq<byte>, p: nat)
    returns (head: seq<byte>, q: nat, r: nat)
    requires |title| <= ts && (title == [] || title[|title| - 1] != 0)
    requires rec == (title + Repeat(0, ts - |title|)) + params + flat
    requires p + |rec| <= |data| && data[p..p + |rec|] == rec
    ensures q == p + ts && r == q + |params| && r + |flat| <= |data|
    ensures data[p..q] == head && StripZeros(head) == title
    ensures data[q..r] == params && data[r..r + |flat|] == flat
  {
    head := title + Repeat(0, ts - |title|);
    q := p + ts;
    r := q + |params|;
    assert r + |flat| == p + |rec|;
    StripPadded(title, ts - |title|);
    Segments3(data, p, q, r, r + |flat|, head, params, flat);
  }

  /**
   * A record EncodeRecord wrote at p, cut into its padded title (up to q),
   * its parameter bytes (from q to r, which read back as the trace's
   * parameters) and the bytes of its padded samples (from r on).
   */
  lemma RecordPieces(t: Trace, ts: nat, ns: nat, size: nat, d: Defs.DefinitionMap, rec: seq<byte>, data: seq<byte>, p: nat)
    returns (head: seq<byte>, q: nat, r: nat, n: nat, ws: seq<seq<byte>>, len: nat)
    requires d.entries == TPM.FromTraceParameterMap(t.parameters).entries
    requires Distinct(t.parameters.Items()) && forall k :: 0 <= k < |t.parameters.Items()| ==> TPM.Storable(t.parameters.Items()[k].1)
    requires t.title == [] || t.title[|t.title| - 1] != 0
    requires forall j :: 0 <= j < |t.samples| ==> |t.samples[j]| == size
    requires EncodeRecord(t, ts, ns, size) == Ok(rec)
    requires p + |rec| <= |data| && data[p..p + |rec|] == rec
    ensures q == p + ts && r == q + n && r <= |data| && data[p..q] == head && StripZeros(head) == t.title
    ensures Defs.TotalSize(d.entries) == n && TPM.DeserializeMap(data[q..r], d) == Ok(TPM.Typed(t.parameters.Items()))
    ensures ws == Padded(t.samples, ns, size) && |ws| == ns && forall j :: 0 <= j < |ws| ==> |ws[j]| == size
    ensures len == |ws| * size && r + len <= |data|
    ensures data[r..r + len] == Flatten(ws)
  {
    var params;
    params, ws := RecordLayout(t, ts, ns, size, rec);
    head, q, r := RecordSlices(t.title, ts, params, Flatten(ws), rec, data, p);
    n := |params|;
    len := |Flatten(ws)|;
    assert len == |ws| * size && r + len <= |data| && data[r..r + len] == Flatten(ws);
    ParamsReadBack(t.parameters, d, params);
  }

  /**
   * The record set_traces writes for a trace reads back through
   * get_traces as that trace: the same title, the same parameters, and
   * its samples followed by zero samples up to NUMBER_SAMPLES, given a
   * title of at most TITLE_SPACE bytes without trailing zero bytes,
   * samples of the coding's size, definitions that describe the
   * parameters and parameters that read back from their own bytes.
   */
  lemma RecordRoundTrip(t: Trace, hs: HeaderDict, ts: nat, ns: nat, sc: SampleCoding, v: int, d: Defs.DefinitionMap,
                        rec: seq<byte>, data: seq<byte>, p: nat, traceLength: int)
    requires Get(hs, Known(TITLE_SPACE)) == Some(Plain(PInt(ts)))
    requires Get(hs, Known(NUMBER_SAMPLES)) == Some(Plain(PInt(ns)))
    requires Get(hs, Known(SAMPLE_CODING)) == Some(CodingValue(sc))
    requires Get(hs, Known(TRS_VERSION)) == Some(Plain(PInt(v))) && v > 1
    requires Get(hs, Known(TRACE_PARAMETER_DEFINITIONS)) == Some(DefParams(d))
    requires d.entries == TPM.FromTraceParameterMap(t.parameters).entries
    requires Distinct(t.parameters.Items()) && forall k :: 0 <= k < |t.parameters.Items()| ==> TPM.Storable(t.parameters.Items()[k].1)
    requires t.title == [] || t.title[|t.title| - 1] != 0
    requires forall j :: 0 <= j < |t.samples| ==> |t.samples[j]| == sc.Size()
    requires EncodeRecord(t, ts, ns, sc.Size()) == Ok(rec)
    requires p + |rec| <= |data| && data[p..p + |rec|] == rec
    requires traceLength >= ns * sc.Size()
    ensures ReadTrace(Cursor(data, p), hs, traceLength)
            == Ok(Trace(sc, Padded(t.samples, ns, sc.Size()), TPM.Typed(t.parameters.Items()), t.title))
  {
    var head, q, r, n, ws, len := RecordPieces(t, ts, ns, sc.Size(), d, rec, data, p);
    ReadBack(data, p, q, r, hs, traceLength, ts, head, v, d, n, TPM.Typed(t.parameters.Items()), sc, ws, len);
  }
}
