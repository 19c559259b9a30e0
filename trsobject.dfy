// trsfile/engine/trs.py: the TrsEngine object. Its fields are the
// attributes the source keeps on `self` (the bytes of the file, the length
// of its memory map and the position of the map, the headers and where their values
// sit, the trace block offset and the record lengths, the options); each
// method changes them as the source does, and is proved to leave the
// state the matching function of TrsEngines computes.
module TrsEngineObjects {
  import opened PyErrors
  import opened PyValues
  import opened Utils
  import opened OrderedDicts
  import opened Common
  import opened Engines
  import opened Tlvs
  import opened TrsHeaders
  import opened TrsTraces
  import opened TrsEngines

  class TrsEngine {
    var file: seq<byte>
    var mapped: nat
    var pos: nat
    var headers: HeaderDict
    var locations: ODict<HeaderKey, Location>
    var traceblockOffset: Option<nat>
    var sampleLength: Option<int>
    var traceLength: Option<int>
    var readOnly: bool
    var padding: TracePadding
    var liveUpdate: int
    var liveUpdateCount: int
    var ignoreUnknownTags: bool
    var synched: bool
    var closed: bool

    /** The attributes as one value. */
    function State(): Engine
      reads this
    {
      Engine(file, mapped, pos, headers, locations, traceblockOffset, sampleLength, traceLength,
             readOnly, padding, liveUpdate, liveUpdateCount, ignoreUnknownTags, synched, closed)
    }

    /** The attributes `__init__` sets before it reads or creates the headers. */
    constructor (file: seq<byte>, readOnly: bool, padding: TracePadding, liveUpdate: int, ignore: bool)
      ensures State() == Fresh(file, readOnly, padding, liveUpdate, ignore)
    {
      this.file := file;
      mapped := |file|;
      pos := 0;
      headers := [];
      locations := [];
      traceblockOffset := None;
      sampleLength := None;
      traceLength := None;
      this.readOnly := readOnly;
      this.padding := padding;
      this.liveUpdate := liveUpdate;
      liveUpdateCount := 0;
      ignoreUnknownTags := ignore;
      synched := false;
      closed := false;
    }

    /**
     * `TrsEngine(path, mode, **options)`: the options are checked, then the
     * headers are read from an existing file (modes r and a) or created
     * and written to a new one.
     */
    static method Open(mode: Mode, fileExists: bool, existing: seq<byte>, given: Option<HeaderDict>,
                       padding: TracePadding, liveUpdate: int, ignore: bool) returns (r: Result<TrsEngine>)
      ensures var s := Opened(mode, fileExists, existing, given, padding, liveUpdate, ignore);
        r.Ok? == s.Ok? && (s.Ok? ==> fresh(r.value) && r.value.State() == s.value)
        && (s.Err? ==> r.error == s.error)
    {
      if padding != NONE && padding != AUTO {
        return Err(ValueError);
      }
      var reading: bool;
      match mode {
        case Read =>
          if given.Some? {
            return Err(TypeError);
          } else if !fileExists {
            return Err(FileNotFoundError);
          }
          reading := true;
        case Write =>
          if given.Some? && !AllKnown(given.value) {
            return Err(TypeError);
          }
          reading := false;
        case Exclusive =>
          if given.Some? && !AllKnown(given.value) {
            return Err(TypeError);
          } else if fileExists {
            return Err(FileExistsError);
          }
          reading := false;
        case Append =>
          if fileExists && given.Some? {
            return Err(TypeError);
          } else if !fileExists && given.Some? && !AllKnown(given.value) {
            return Err(TypeError);
          }
          reading := fileExists;
        case OtherMode =>
          return Err(ValueError);
      }
      if reading {
        assert Opened(mode, fileExists, existing, given, padding, liveUpdate, ignore)
            == OpenExisting(existing, mode == Read, padding, liveUpdate, ignore);
        r := OpenExistingFile(existing, mode == Read, padding, liveUpdate, ignore);
      } else {
        assert Opened(mode, fileExists, existing, given, padding, liveUpdate, ignore)
            == OpenNew(given, padding, liveUpdate, ignore);
        r := OpenNewFile(given, padding, liveUpdate, ignore);
      }
    }

    /** An engine over an existing file, its headers read; an empty file cannot be memory mapped. */
    static method OpenExistingFile(existing: seq<byte>, readOnly: bool, padding: TracePadding, liveUpdate: int, ignore: bool)
        returns (r: Result<TrsEngine>)
      ensures var s := OpenExisting(existing, readOnly, padding, liveUpdate, ignore);
        r.Ok? == s.Ok? && (s.Ok? ==> fresh(r.value) && r.value.State() == s.value)
        && (s.Err? ==> r.error == s.error)
    {
      if existing == [] {
        return Err(ValueError);
      }
      var t := new TrsEngine(existing, readOnly, padding, liveUpdate, ignore);
      var o := t.ReadHeaders();
      if o.Fail? {
        return Err(o.error);
      }
      r := Ok(t);
    }

    /** An engine over a new file of one zero byte, its headers created. */
    static method OpenNewFile(given: Option<HeaderDict>, padding: TracePadding, liveUpdate: int, ignore: bool)
        returns (r: Result<TrsEngine>)
      ensures var s := OpenNew(given, padding, liveUpdate, ignore);
        r.Ok? == s.Ok? && (s.Ok? ==> fresh(r.value) && r.value.State() == s.value)
        && (s.Err? ==> r.error == s.error)
    {
      var t := new TrsEngine([0], false, padding, liveUpdate, ignore);
      var o := t.CreateHeaders(given);
      if o.Fail? {
        return Err(o.error);
      }
      r := Ok(t);
    }

    /** `__create_headers()`: the given headers completed with the defaults, all written. */
    method CreateHeaders(given: Option<HeaderDict>) returns (o: Outcome)
      modifies this
      ensures var s := AfterCreateHeaders(old(State()), given);
        o.Pass? == s.Ok? && (s.Ok? ==> State() == s.value) && (s.Err? ==> o.error == s.error)
    {
      var hs := CompleteHeaders(given);
      if hs.Err? {
        return Fail(hs.error);
      }
      headers := hs.value;
      o := WriteHeaders(None);
    }

    /**
     * The value bytes b of header h go in place when the header has a
     * location, and otherwise into a new record written over the
     * TRACE_BLOCK record, if any.
     */
    method PlaceHeader(h: Header, b: seq<byte>) returns (o: Outcome)
      modifies this
      ensures var s := Place(old(State()), h, b);
        o.Pass? == s.Ok? && (s.Ok? ==> State() == s.value) && (s.Err? ==> o.error == s.error)
    {
      if HasKey(locations, Known(h)) {
        o := RewriteHeader(h, b);
        return;
      }
      var tlv := EncodeTlv(h.tag, b);
      if tlv.Err? {
        return Fail(tlv.error);
      }
      if HasKey(locations, TB) {
        o := ReopenTraceBlock();
        if o.Fail? {
          return;
        }
      }
      o := AppendRecord(Known(h), tlv.value, |b|);
    }

    /** A header with a location: its new value bytes go over the old ones, which must be as long. */
    method RewriteHeader(h: Header, b: seq<byte>) returns (o: Outcome)
      requires HasKey(locations, Known(h))
      modifies this
      ensures var s := Rewrite(old(State()), h, b);
        o.Pass? == s.Ok? && (s.Ok? ==> State() == s.value) && (s.Err? ==> o.error == s.error)
    {
      var (off, len) := Get(locations, Known(h)).value;
      if len != |b| {
        return Fail(TypeError);
      } else if off + len > MapLen(State()) {
        if len == 0 {
          return Pass;
        }
        return Fail(IndexError);
      }
      file := WriteAt(file, off, b);
      o := Pass;
    }

    /** The seek back over the TRACE_BLOCK record before a new record is written. */
    method ReopenTraceBlock() returns (o: Outcome)
      requires HasKey(locations, TB)
      modifies this
      ensures var s := ReopenBlock(old(State()));
        o.Pass? == s.Ok? && (s.Ok? ==> State() == s.value) && (s.Err? ==> o.error == s.error)
    {
      if traceblockOffset.None? {
        return Fail(TypeError);
      } else if traceblockOffset.value < 2 || traceblockOffset.value - 2 > MapLen(State()) {
        return Fail(ValueError);
      }
      pos := traceblockOffset.value - 2;
      locations := Delete(locations, TB).value;
      traceblockOffset := None;
      o := Pass;
    }

    /** A new record tlv written at the position; the last n bytes of it are the value of k. */
    method AppendRecord(k: HeaderKey, tlv: seq<byte>, n: nat) returns (o: Outcome)
      requires n <= |tlv|
      modifies this
      ensures var s := TrsHeaders.Append(old(State()), k, tlv, n);
        o.Pass? == s.Ok? && (s.Ok? ==> State() == s.value) && (s.Err? ==> o.error == s.error)
    {
      o := WriteThroughMap(tlv);
      if o.Fail? {
        return;
      }
      locations := Set(locations, k, (pos - n, n));
    }

    /** `handle.write(b)`, with file and map resized first when the file is too short for it. */
    method WriteThroughMap(b: seq<byte>) returns (o: Outcome)
      modifies this
      ensures var s := MapWrite(old(State()), b);
        o.Pass? == s.Ok? && (s.Ok? ==> State() == s.value) && (s.Err? ==> o.error == s.error)
    {
      if pos > MapLen(State()) {
        return Fail(ValueError);
      }
      var end := pos + |b|;
      if |file| < end {
        file := WriteAt(file, pos, b);
        mapped := end;
      } else if end > MapLen(State()) {
        return Fail(ValueError);
      } else {
        file := WriteAt(file, pos, b);
      }
      pos := end;
      o := Pass;
    }

    /** One pass of the loop of `__write_headers`. */
    method WriteHeader(k: HeaderKey, v: HeaderValue) returns (o: Outcome)
      modifies this
      ensures var s := WriteOne(old(State()), k, v);
        o.Pass? == s.Ok? && (s.Ok? ==> State() == s.value) && (s.Err? ==> o.error == s.error)
    {
      if k == TB {
        return Pass;
      } else if k.Unknown? {
        return Fail(TypeError);
      }
      var enc := EncodeHeaderValue(k.h, v, headers);
      if enc.Err? {
        return Fail(enc.error);
      }
      var (b, stored) := enc.value;
      if v.SetParams? || v.DefParams? {
        headers := Set(headers, k, stored);
      }
      o := PlaceHeader(k.h, b);
    }

    /** `__write_headers(headers)`: every header of the input (all headers for None), then the TRACE_BLOCK record. */
    method WriteHeaders(input: Option<HeaderDict>) returns (o: Outcome)
      modifies this
      ensures var s := TrsHeaders.WriteHeaders(old(State()), input);
        o.Pass? == s.Ok? && (s.Ok? ==> State() == s.value) && (s.Err? ==> o.error == s.error)
    {
      var hs := if input.Some? then input.value else headers;
      if HasTraceData(State()) && NewKey(State(), hs) {
        return Fail(IOError);
      } else if hs == [] {
        return Pass;
      }
      o := WriteEntries(hs);
      if o.Pass? {
        o := FinishWriting();
      }
    }

    /** The loop of `__write_headers`: the entries of hs one by one, stopping at the first failure. */
    method WriteEntries(hs: HeaderDict) returns (o: Outcome)
      modifies this
      ensures var s := WriteAll(old(State()), hs);
        o.Pass? == s.Ok? && (s.Ok? ==> State() == s.value) && (s.Err? ==> o.error == s.error)
    {
      ghost var target := WriteAll(State(), hs);
      var i := 0;
      while i < |hs|
        invariant 0 <= i <= |hs|
        invariant WriteAll(State(), hs[i..]) == target
      {
        ghost var before := State();
        assert hs[i..][1..] == hs[i + 1..];
        o := WriteHeader(hs[i].0, hs[i].1);
        if o.Fail? {
          assert target == Err(o.error);
          return;
        }
        assert WriteAll(before, hs[i..]) == WriteAll(State(), hs[i + 1..]);
        i := i + 1;
      }
      o := Pass;
    }

    /** The end of `__write_headers`: the TRACE_BLOCK record, unless it has a location already. */
    method FinishWriting() returns (o: Outcome)
      modifies this
      ensures var s := FinishWrite(old(State()));
        o.Pass? == s.Ok? && (s.Ok? ==> State() == s.value) && (s.Err? ==> o.error == s.error)
    {
      if !HasKey(locations, TB) {
        o := WriteThroughMap(TRACE_BLOCK_START);
        if o.Fail? {
          return;
        }
        traceblockOffset := Some(pos);
        locations := Set(locations, TB, (pos, 0));
      } else if traceblockOffset.None? {
        return Fail(NotImplementedError);
      }
      o := Pass;
    }

    /**
     * `__read_headers()`: records are read from the start of the file up to
     * the TRACE_BLOCK record, then the mandatory headers and the length of
     * the file are checked.
     */
    method ReadHeaders() returns (o: Outcome)
      modifies this
      ensures var s := TrsHeaders.ReadHeaders(old(State()));
        o.Pass? == s.Ok? && (s.Ok? ==> State() == s.value) && (s.Err? ==> o.error == s.error)
    {
      var read := ReadRecords();
      if read.Err? {
        return Fail(read.error);
      }
      var (c, hs, locs) := read.value;
      o := AcceptHeaders(c.pos, hs, locs);
    }

    /** The loop of `__read_headers`, which changes no attribute: the records up to TRACE_BLOCK, with where their values sit. */
    method ReadRecords() returns (r: Result<(Cursor, HeaderDict, ODict<HeaderKey, Location>)>)
      ensures r == ReadLoop(Cursor(file, 0), [], [], ignoreUnknownTags)
    {
      var c := Cursor(file, 0);
      var hs: HeaderDict := [];
      var locs: ODict<HeaderKey, Location> := [];
      ghost var target := ReadLoop(c, hs, locs, ignoreUnknownTags);
      while !HasKey(hs, TB)
        invariant c.data == file && c.pos <= |file|
        invariant ReadLoop(c, hs, locs, ignoreUnknownTags) == target
        decreases |file| - c.pos
      {
        var entry := ReadEntry(c, ignoreUnknownTags);
        if entry.Err? {
          assert target == Err(entry.error);
          return Err(entry.error);
        }
        var (c1, k, v, loc) := entry.value;
        assert ReadLoop(c, hs, locs, ignoreUnknownTags) == ReadLoop(c1, Set(hs, k, v), Set(locs, k, loc), ignoreUnknownTags);
        c, hs, locs := c1, Set(hs, k, v), Set(locs, k, loc);
      }
      r := Ok((c, hs, locs));
    }

    /** The checks that end `__read_headers` once TRACE_BLOCK has been read at tb; the attributes are set when they pass. */
    method AcceptHeaders(tb: nat, hs: HeaderDict, locs: ODict<HeaderKey, Location>) returns (o: Outcome)
      modifies this
      ensures var s := CheckHeaders(old(State()), tb, hs, locs);
        o.Pass? == s.Ok? && (s.Ok? ==> State() == s.value) && (s.Err? ==> o.error == s.error)
    {
      ghost var e := State();
      var layout := TraceBlockLayout(hs);
      if layout.Err? {
        assert CheckHeaders(e, tb, hs, locs) == Err(layout.error);
        return Fail(layout.error);
      }
      var (sl, tl, nt) := layout.value;
      if |file| != tb + nt * tl {
        assert CheckHeaders(e, tb, hs, locs) == Err(IOError);
        return Fail(IOError);
      }
      assert CheckHeaders(e, tb, hs, locs) == Ok(e.(pos := |e.file|, headers := hs, locations := locs, traceblockOffset := Some(tb),
                                                     sampleLength := Some(sl), traceLength := Some(tl)));
      SetLayout(hs, locs, tb, sl, tl);
      o := Pass;
    }

    /** The attributes `__read_headers` sets from what it read: the handle at the end of the file, the headers and the record lengths. */
    method SetLayout(hs: HeaderDict, locs: ODict<HeaderKey, Location>, tb: nat, sl: int, tl: int)
      modifies this
      ensures State() == old(State()).(pos := |file|, headers := hs, locations := locs, traceblockOffset := Some(tb),
                                       sampleLength := Some(sl), traceLength := Some(tl))
    {
      pos, headers, locations := |file|, hs, locs;
      traceblockOffset, sampleLength, traceLength := Some(tb), Some(sl), Some(tl);
    }

    /**
     * `update_headers(headers)`: read-only engines refuse it, None changes
     * nothing, a key of the current headers that is not a Header is a
     * TypeError (the guard as written); the entries that change the
     * dictionary are merged into it and written.
     */
    method UpdateHeaders(input: Option<HeaderDict>) returns (o: Outcome)
      modifies this
      ensures var s := AfterUpdateHeaders(old(State()), input);
        o.Pass? == s.Ok? && (s.Ok? ==> State() == s.value) && (s.Err? ==> o.error == s.error)
    {
      if readOnly {
        return Fail(TypeError);
      } else if input.None? {
        return Pass;
      } else if exists i :: 0 <= i < |headers| && headers[i].0.Unknown? {
        return Fail(TypeError);
      }
      var changed := ChangedHeaders(headers, input.value);
      if |changed| == 0 {
        return Pass;
      }
      headers := OrderedDicts.Update(headers, changed);
      o := WriteHeaders(Some(changed));
    }

    /** `update_header(header, value)`: update_headers with the one entry. */
    method UpdateHeader(k: HeaderKey, v: HeaderValue) returns (o: Outcome)
      modifies this
      ensures var s := AfterUpdateHeaders(old(State()), Some([(k, v)]));
        o.Pass? == s.Ok? && (s.Ok? ==> State() == s.value) && (s.Err? ==> o.error == s.error)
    {
      o := UpdateHeaders(Some([(k, v)]));
    }

    /** `update_headers_with_traces_metadata(traces)`: the headers derived from the batch, applied with update_headers. */
    method UpdateHeadersWithTracesMetadata(traces: seq<Trace>) returns (o: Outcome)
      modifies this
      ensures var s := AfterMetadata(old(State()), traces);
        o.Pass? == s.Ok? && (s.Ok? ==> State() == s.value) && (s.Err? ==> o.error == s.error)
    {
      var u := MetadataUpdates(headers, traces);
      if u.Err? {
        return Fail(u.error);
      }
      o := UpdateHeaders(Some(u.value));
    }

    /**
     * `set_traces(index, traces)`: the indexes are checked against the
     * trace count and the batch; the headers are completed, each record
     * written at its index, and the count updated.
     */
    method SetTraces(index: Index, traces: seq<Trace>) returns (o: Outcome)
      modifies this
      ensures var s := AfterSetTraces(old(State()), index, traces);
        o.Pass? == s.Ok? && (s.Ok? ==> State() == s.value) && (s.Err? ==> o.error == s.error)
    {
      var rg := SetIndexes(index, |traces|);
      if rg.Err? {
        return Fail(rg.error);
      }
      var nt := CountOf(headers);
      if nt.Err? {
        return Fail(nt.error);
      } else if rg.value.start > nt.value {
        return Fail(IndexError);
      } else if rg.value.Len() != |traces| {
        return Fail(TypeError);
      } else if |traces| == 0 {
        return Pass;
      }
      o := PrepareTraces(rg.value, traces);
      if o.Fail? {
        return;
      }
      o := WriteTraces(rg.value, traces);
      if o.Fail? {
        return;
      }
      o := CountTraces(rg.value, |traces|);
    }

    /** The part of set_traces before its loop: padding, the headers of the first trace, and the record lengths. */
    method PrepareTraces(rg: PyRange, traces: seq<Trace>) returns (o: Outcome)
      modifies this
      ensures var s := Prepare(old(State()), rg, traces);
        o.Pass? == s.Ok? && (s.Ok? ==> State() == s.value) && (s.Err? ==> o.error == s.error)
    {
      o := PadHeaders(traces);
      if o.Fail? {
        return;
      }
      if rg.start == 0 && !HasKey(headers, Known(TRACE_SET_PARAMETERS)) {
        o := UpdateHeaders(Some(FirstTraceHeaders()));
        if o.Fail? {
          return;
        }
      }
      o := SetStride();
    }

    /** The padding step of set_traces, by padding mode. */
    method PadHeaders(traces: seq<Trace>) returns (o: Outcome)
      modifies this
      ensures var s := Pad(old(State()), traces);
        o.Pass? == s.Ok? && (s.Ok? ==> State() == s.value) && (s.Err? ==> o.error == s.error)
    {
      match padding {
        case AUTO =>
          o := UpdateHeadersWithTracesMetadata(traces);
        case NONE =>
          if exists j :: 0 <= j < |Required| && !IsSet(headers, Required[j]) {
            return Fail(ValueError);
          }
          o := Pass;
        case _ =>
          o := Fail(NotImplementedError);
      }
    }

    /** `sample_length` and `trace_length`, each computed from the headers when it is still unknown. */
    method SetStride() returns (o: Outcome)
      modifies this
      ensures var s := Stride(old(State()));
        o.Pass? == s.Ok? && (s.Ok? ==> State() == s.value) && (s.Err? ==> o.error == s.error)
    {
      if sampleLength.None? {
        var sl := SampleLength(headers);
        if sl.Err? {
          return Fail(sl.error);
        }
        sampleLength := Some(sl.value);
      }
      if traceLength.None? {
        var tl := TraceLength(headers, sampleLength.value);
        if tl.Err? {
          return Fail(tl.error);
        }
        traceLength := Some(tl.value);
      }
      o := Pass;
    }

    /** The loop of set_traces: the record of the j-th trace written at the j-th index. */
    method WriteTraces(rg: PyRange, traces: seq<Trace>) returns (o: Outcome)
      modifies this
      ensures var s := WriteFrom(old(State()), rg, traces, 0);
        o.Pass? == s.Ok? && (s.Ok? ==> State() == s.value) && (s.Err? ==> o.error == s.error)
    {
      ghost var target := WriteFrom(State(), rg, traces, 0);
      var j := 0;
      while j < |traces|
        invariant j <= |traces|
        invariant WriteFrom(State(), rg, traces, j) == target
      {
        ghost var before := State();
        o := WriteTrace(rg.At(j), traces[j]);
        if o.Fail? {
          assert target == Err(o.error);
          return;
        }
        assert WriteFrom(before, rg, traces, j) == WriteFrom(State(), rg, traces, j + 1);
        j := j + 1;
      }
      o := Pass;
    }

    /** One pass of the loop of set_traces: the record of t at index i. */
    method WriteTrace(i: int, t: Trace) returns (o: Outcome)
      modifies this
      ensures var s := WriteRecord(old(State()), i, t);
        o.Pass? == s.Ok? && (s.Ok? ==> State() == s.value) && (s.Err? ==> o.error == s.error)
    {
      if padding == NONE {
        var ns := Lookup(headers, NUMBER_SAMPLES);
        if ns.Err? {
          return Fail(ns.error);
        } else if IntOf(ns.value) != Ok(|t.samples|) {
          return Fail(ValueError);
        }
      }
      var p := RecordOffset(State(), i);
      if p.Err? {
        return Fail(p.error);
      }
      var rec := Record(headers, t);
      if rec.Err? {
        return Fail(rec.error);
      }
      file := WriteFile(file, p.value, rec.value);
      o := Pass;
    }

    /** The end of set_traces: the new trace count, written once live_update traces are in. */
    method CountTraces(rg: PyRange, n: nat) returns (o: Outcome)
      modifies this
      ensures var s := Count(old(State()), rg, n);
        o.Pass? == s.Ok? && (s.Ok? ==> State() == s.value) && (s.Err? ==> o.error == s.error)
    {
      var nt := CountOf(headers);
      if nt.Err? {
        return Fail(nt.error);
      }
      var newCount := MaxInt(nt.value, rg.Max() + 1);
      if nt.value < newCount {
        CountGrows(State(), rg, n, nt.value);
        o := GrowCount(newCount, n);
      } else {
        CountStays(State(), rg, n, nt.value);
        o := Pass;
      }
    }

    /** The trace count grown to newCount: written with update_header once live_update traces are in, otherwise kept in the dictionary. */
    method GrowCount(newCount: int, n: nat) returns (o: Outcome)
      modifies this
      ensures var s := Grow(old(State()), newCount, n);
        o.Pass? == s.Ok? && (s.Ok? ==> State() == s.value) && (s.Err? ==> o.error == s.error)
    {
      synched := false;
      liveUpdateCount := liveUpdateCount + n;
      if liveUpdate != 0 && liveUpdateCount >= liveUpdate {
        liveUpdateCount := 0;
        o := UpdateHeader(Known(NUMBER_TRACES), Plain(PInt(newCount)));
      } else {
        headers := Set(headers, Known(NUMBER_TRACES), Plain(PInt(newCount)));
        o := Pass;
      }
    }

    /**
     * `get_traces(index)`: the indexes, the memory map brought in step with
     * the file by the resize as written, then the trace at each index.
     */
    method GetTraces(index: Index) returns (r: Result<seq<Trace>>)
      modifies this
      ensures var s := AfterGetTraces(old(State()), index);
        r.Ok? == s.Ok? && (s.Ok? ==> State() == s.value.0 && r.value == s.value.1) && (s.Err? ==> r.error == s.error)
    {
      var len := IntOrZero(headers, NUMBER_TRACES);
      if len.Err? {
        return Err(len.error);
      }
      var rg := GetIndexes(State(), index);
      if rg.Err? {
        return Err(rg.error);
      }
      var o := SyncFile(len.value);
      if o.Fail? {
        return Err(o.error);
      }
      r := ReadTraces(rg.value);
    }

    /**
     * The resize of get_traces, once, for a writable engine: a file shorter
     * than room for len + 1 traces after the trace block offset is grown,
     * with its map, to that size.
     */
    method SyncFile(len: int) returns (o: Outcome)
      modifies this
      ensures var s := Sync(old(State()), len);
        o.Pass? == s.Ok? && (s.Ok? ==> State() == s.value) && (s.Err? ==> o.error == s.error)
    {
      if synched || readOnly {
        return Pass;
      } else if traceblockOffset.None? || traceLength.None? {
        return Fail(TypeError);
      }
      var total := traceblockOffset.value + (len + 1) * traceLength.value;
      if |file| < total {
        file := file + Repeat(0, total - |file|);
        mapped := total;
      }
      synched := true;
      o := Pass;
    }

    /** The loop of get_traces, which changes no attribute: the trace at each index of rg, in order. */
    method ReadTraces(rg: PyRange) returns (r: Result<seq<Trace>>)
      ensures r == ReadFrom(State(), rg, 0, [])
    {
      var acc: seq<Trace> := [];
      var j := 0;
      while j < rg.Len()
        invariant ReadFrom(State(), rg, j, acc) == ReadFrom(State(), rg, 0, [])
        decreases rg.Len() - j
      {
        var t := ReadAt(State(), rg.At(j));
        if t.Err? {
          return Err(t.error);
        }
        acc := acc + [t.value];
        j := j + 1;
      }
      r := Ok(acc);
    }

    /** `close()`: a writable engine writes NUMBER_TRACES first; closing twice does nothing. */
    method Close() returns (o: Outcome)
      modifies this
      ensures var s := AfterClose(old(State()));
        o.Pass? == s.Ok? && (s.Ok? ==> State() == s.value) && (s.Err? ==> o.error == s.error)
    {
      if closed {
        return Pass;
      }
      if !readOnly {
        var nt := Lookup(headers, NUMBER_TRACES);
        if nt.Err? {
          return Fail(nt.error);
        }
        o := WriteHeaders(Some([(Known(NUMBER_TRACES), nt.value)]));
        if o.Fail? {
          return;
        }
      }
      closed := true;
      o := Pass;
    }
  }
}
