// trsfile/engine/trs.py: the attributes of a TrsEngine and the header half
// of its work. __write_headers lays the header records out one after the
// other and closes them with the TRACE_BLOCK record; __read_headers reads
// them back up to that record.
module TrsHeaders {
  import opened PyErrors
  import opened PyValues
  import opened Utils
  import opened OrderedDicts
  import opened Common
  import opened Engines
  import opened Tlvs

  /** `_TRACE_BLOCK_START`: the record of TRACE_BLOCK, whose value is empty. */
  const TRACE_BLOCK_START: seq<byte> := [0x5F, 0]

  /** TRACE_BLOCK as a key of the header dictionaries. */
  const TB: HeaderKey := Known(TRACE_BLOCK)

  /** Where a header's value sits in the file: its offset and its length. */
  type Location = (nat, nat)

  /**
   * The attributes of a TrsEngine. `file` is the bytes of the file; the
   * memory map shows its first `mapped` bytes, since records written
   * through the file handle grow the file but not the map; `pos` is the
   * position of the memory map.
   */
  datatype Engine = Engine(
    file: seq<byte>,
    mapped: nat,
    pos: nat,
    headers: HeaderDict,
    locations: ODict<HeaderKey, Location>,
    traceblockOffset: Option<nat>,
    sampleLength: Option<int>,
    traceLength: Option<int>,
    readOnly: bool,
    padding: TracePadding,
    liveUpdate: int,
    liveUpdateCount: int,
    ignoreUnknownTags: bool,
    synched: bool,
    closed: bool)

  /** The attributes a header write leaves alone: read-only mode, padding, trace length, live update and whether it is closed. */
  predicate SameSettings(e: Engine, e': Engine)
  {
    e'.readOnly == e.readOnly && e'.padding == e.padding && e'.traceLength == e.traceLength && e'.liveUpdate == e.liveUpdate
    && e'.closed == e.closed
  }

  /** `has_trace_data()`: the file runs on past the start of the trace block. */
  predicate HasTraceData(e: Engine)
  {
    e.traceblockOffset.Some? && |e.file| > e.traceblockOffset.value
  }

  /** The length of the memory map, `len(handle)`: the map never runs past the end of the file. */
  function MapLen(e: Engine): (n: nat)
    ensures n <= |e.file| && n <= e.mapped && (e.mapped <= |e.file| ==> n == e.mapped)
  {
    if e.mapped <= |e.file| then e.mapped else |e.file|
  }

  /** The bytes b written over the file from p on, running past its end when they are longer. */
  function WriteAt(file: seq<byte>, p: nat, b: seq<byte>): (r: seq<byte>)
    requires p <= |file|
    ensures |r| == if p + |b| > |file| then p + |b| else |file|
    ensures r[..p] == file[..p] && r[p..p + |b|] == b
    ensures p + |b| <= |file| ==> r[p + |b|..] == file[p + |b|..]
  {
    if p + |b| <= |file| then file[..p] + b + file[p + |b|..] else file[..p] + b
  }

  // ---------------------------------------------------------------------
  // __write_headers

  /**
   * Before a new record goes in after the TRACE_BLOCK record: seek back
   * over `_TRACE_BLOCK_START` (None - 2 is a TypeError, a negative or
   * out-of-range seek a ValueError) and forget TRACE_BLOCK's location and
   * the trace block offset.
   */
  function ReopenBlock(e: Engine): (r: Result<Engine>)
    requires HasKey(e.locations, TB)
  {
    if e.traceblockOffset.None? then Err(TypeError)
    else if e.traceblockOffset.value < 2 || e.traceblockOffset.value - 2 > MapLen(e) then Err(ValueError)
    else Ok(e.(pos := e.traceblockOffset.value - 2, locations := Delete(e.locations, TB).value, traceblockOffset := None))
  }

  /**
   * Where the value bytes b of header h go: a header with a location is
   * rewritten in place when the length is unchanged (TypeError otherwise);
   * any other header is appended as a new record, over the TRACE_BLOCK
   * record when there is one, and its value's location is remembered.
   */
  function Place(e: Engine, h: Header, b: seq<byte>): (r: Result<Engine>)
    ensures r.Ok? ==> r.value.headers == e.headers && SameSettings(e, r.value)
  {
    if HasKey(e.locations, Known(h)) then Rewrite(e, h, b)
    else
      var tlv :- EncodeTlv(h.tag, b);
      var e2 :- if HasKey(e.locations, TB) then ReopenBlock(e) else Ok(e);
      Append(e2, Known(h), tlv, |b|)
  }

  /**
   * The value of a header with a location, rewritten in place by a slice
   * assignment to the memory map: only a value of the same length fits
   * (TypeError), and a slice that runs past the end of the map is the
   * wrong size for it (IndexError) unless it is empty.
   */
  function Rewrite(e: Engine, h: Header, b: seq<byte>): (r: Result<Engine>)
    requires HasKey(e.locations, Known(h))
  {
    var (off, len) := Get(e.locations, Known(h)).value;
    if len != |b| then Err(TypeError)
    else if off + len > MapLen(e) then (if len == 0 then Ok(e) else Err(IndexError))
    else Ok(e.(file := WriteAt(e.file, off, b)))
  }

  /**
   * b written through the memory map at its position: when the file is
   * shorter than the position plus b, file and map are resized to that
   * length first; a write past the end of the map is a ValueError.
   */
  function MapWrite(e: Engine, b: seq<byte>): (r: Result<Engine>)
    ensures r.Ok? ==> r.value == e.(file := r.value.file, mapped := r.value.mapped, pos := e.pos + |b|)
    ensures r.Ok? ==> e.pos <= MapLen(e) && r.value.file == WriteAt(e.file, e.pos, b)
  {
    if e.pos > MapLen(e) then Err(ValueError)
    else
      var end := e.pos + |b|;
      if |e.file| < end then Ok(e.(file := WriteAt(e.file, e.pos, b), mapped := end, pos := end))
      else if end > MapLen(e) then Err(ValueError)
      else Ok(e.(file := WriteAt(e.file, e.pos, b), pos := end))
  }

  /** A new record written at the position; its last n bytes are the value of k. */
  function Append(e: Engine, k: HeaderKey, tlv: seq<byte>, n: nat): (r: Result<Engine>)
    requires n <= |tlv|
  {
    var e1 :- MapWrite(e, tlv);
    Ok(e1.(locations := Set(e.locations, k, (e1.pos - n, n))))
  }

  /**
   * One pass of the loop of __write_headers: TRACE_BLOCK is skipped, a key
   * that is not a Header refused; the value is encoded by the header's type
   * (a parameter map is completed and locked in the dictionary on the way)
   * and placed.
   */
  function WriteOne(e: Engine, k: HeaderKey, v: HeaderValue): (r: Result<Engine>)
    ensures r.Ok? ==> SameSettings(e, r.value)
  {
    if k == TB then Ok(e)
    else if k.Unknown? then Err(TypeError)
    else
      var (b, stored) :- EncodeHeaderValue(k.h, v, e.headers);
      Place(if v.SetParams? || v.DefParams? then e.(headers := Set(e.headers, k, stored)) else e, k.h, b)
  }

  /** The loop of __write_headers over the entries in order; the first failure stops it. */
  function WriteAll(e: Engine, hs: HeaderDict): (r: Result<Engine>)
    ensures r.Ok? ==> SameSettings(e, r.value)
    decreases |hs|
  {
    if hs == [] then Ok(e)
    else
      var e1 :- WriteOne(e, hs[0].0, hs[0].1);
      WriteAll(e1, hs[1..])
  }

  /**
   * The end of __write_headers: the TRACE_BLOCK record is written at the
   * position reached, and the trace block starts right after it, unless
   * it has a location already.
   */
  function FinishWrite(e: Engine): (r: Result<Engine>)
    ensures r.Ok? ==> r.value.headers == e.headers && SameSettings(e, r.value)
  {
    if !HasKey(e.locations, TB) then
      var e1 :- MapWrite(e, TRACE_BLOCK_START);
      Ok(e1.(traceblockOffset := Some(e1.pos), locations := Set(e.locations, TB, (e1.pos, 0))))
    else if e.traceblockOffset.None? then Err(NotImplementedError)
    else Ok(e)
  }

  /** Whether some key of hs has no location yet. */
  predicate NewKey(e: Engine, hs: HeaderDict)
  {
    exists i :: 0 <= i < |hs| && !HasKey(e.locations, hs[i].0)
  }

  /**
   * `__write_headers(headers)`: all headers when None is given. A new key
   * once trace data exists is refused (IOError); an empty dictionary
   * changes nothing.
   */
  function WriteHeaders(e: Engine, input: Option<HeaderDict>): (r: Result<Engine>)
    ensures r.Ok? ==> SameSettings(e, r.value)
  {
    var hs := if input.Some? then input.value else e.headers;
    if HasTraceData(e) && NewKey(e, hs) then Err(IOError)
    else if hs == [] then Ok(e)
    else
      var e1 :- WriteAll(e, hs);
      FinishWrite(e1)
  }

  // ---------------------------------------------------------------------
  // The layout __write_headers keeps

  /** Where the records of the headers end: before the TRACE_BLOCK record when there is one, at the position otherwise. */
  function Limit(e: Engine): int
  {
    if HasKey(e.locations, TB) && e.traceblockOffset.Some? then e.traceblockOffset.value - 2 else e.pos
  }

  /**
   * The layout of the header block: one location per header; when
   * TRACE_BLOCK has a location, its record sits right before the trace
   * block offset and every other header's value ends before that record;
   * otherwise every value ends at or before the position. The position and
   * the trace block offset lie within the memory map, and the map within
   * the file.
   */
  ghost predicate Laid(e: Engine)
  {
    Distinct(e.locations) && e.pos <= e.mapped <= |e.file|
    && (HasKey(e.locations, TB) ==>
          e.traceblockOffset.Some? && 2 <= e.traceblockOffset.value <= e.mapped
          && e.file[e.traceblockOffset.value - 2..e.traceblockOffset.value] == TRACE_BLOCK_START
          && Get(e.locations, TB) == Some((e.traceblockOffset.value, 0)))
    && (forall i :: 0 <= i < |e.locations| && e.locations[i].0 != TB ==> e.locations[i].1.0 + e.locations[i].1.1 <= Limit(e))
  }

  /** The entries left by a deletion are entries of the dictionary, the key is gone and the rest stay distinct. */
  lemma DeleteEntries<V>(d: ODict<HeaderKey, V>, k: HeaderKey)
    requires Distinct(d) && HasKey(d, k)
    ensures var r := Delete(d, k).value;
      Distinct(r) && !HasKey(r, k) && forall j :: 0 <= j < |r| ==> r[j] in d
  {
    var i := IndexOf(d, k);
    var r := Delete(d, k).value;
    assert forall j :: 0 <= j < |r| ==> r[j] == if j < i then d[j] else d[j + 1];
  }

  /** A location of a header that is not TRACE_BLOCK ends at or before the limit. */
  lemma LocationBelowLimit(e: Engine, k: HeaderKey)
    requires Laid(e) && HasKey(e.locations, k) && k != TB
    ensures Get(e.locations, k).value.0 + Get(e.locations, k).value.1 <= Limit(e)
  {
    var i := IndexOf(e.locations, k);
    assert e.locations[i].0 != TB;
  }

  /** A rewrite in place that ends before the TRACE_BLOCK record keeps the layout. */
  lemma RewriteLaid(e: Engine, e1: Engine, off: nat, b: seq<byte>)
    requires Laid(e) && off + |b| <= Limit(e) && off + |b| <= |e.file|
    requires e1 == e.(file := WriteAt(e.file, off, b), headers := e1.headers)
    ensures Laid(e1) && |e1.file| == |e.file|
  {
    var f := WriteAt(e.file, off, b);
    if HasKey(e.locations, TB) {
      var tb := e.traceblockOffset.value;
      assert f[tb - 2..tb] == e.file[tb - 2..tb] by {
        assert f[off + |b|..][tb - 2 - off - |b|..tb - off - |b|] == f[tb - 2..tb];
        assert e.file[off + |b|..][tb - 2 - off - |b|..tb - off - |b|] == e.file[tb - 2..tb];
      }
    }
  }

  /** A new record appended at the position, with TRACE_BLOCK without a location, keeps the layout. */
  lemma AppendLaid(e2: Engine, k: HeaderKey, tlv: seq<byte>, n: nat, e': Engine)
    requires Laid(e2) && !HasKey(e2.locations, TB) && !HasKey(e2.locations, k) && k != TB && n <= |tlv|
    requires Append(e2, k, tlv, n) == Ok(e')
    ensures Laid(e')
  {
    var p := e2.pos + |tlv|;
    var locs := Set(e2.locations, k, (p - n, n));
    SetKeepsDistinct(e2.locations, k, (p - n, n));
    assert !HasKey(locs, TB);
  }

  /** Seeking back over the TRACE_BLOCK record keeps the layout and leaves TRACE_BLOCK without a location. */
  lemma ReopenLaid(e: Engine, e2: Engine)
    requires Laid(e) && HasKey(e.locations, TB) && ReopenBlock(e) == Ok(e2)
    ensures Laid(e2) && !HasKey(e2.locations, TB)
  {
    DeleteEntries(e.locations, TB);
    forall i | 0 <= i < |e2.locations| && e2.locations[i].0 != TB
      ensures e2.locations[i].1.0 + e2.locations[i].1.1 <= Limit(e2)
    {
      assert e2.locations[i] in e.locations;
    }
  }

  /** Rewriting the value of a header with a location keeps the layout. */
  lemma PlaceRewriteLaid(e: Engine, h: Header, b: seq<byte>, e': Engine)
    requires Laid(e) && Known(h) != TB && HasKey(e.locations, Known(h)) && Place(e, h, b) == Ok(e')
    ensures Laid(e')
  {
    LocationBelowLimit(e, Known(h));
    RewriteLaid(e, e', Get(e.locations, Known(h)).value.0, b);
  }

  /** Appending the record of a header without a location keeps the layout. */
  lemma PlaceAppendLaid(e: Engine, h: Header, b: seq<byte>, e': Engine)
    requires Laid(e) && Known(h) != TB && !HasKey(e.locations, Known(h)) && Place(e, h, b) == Ok(e')
    ensures Laid(e')
  {
    var e2, tlv := PlaceNew(e, h, b, e');
    if HasKey(e.locations, TB) {
      ReopenLaid(e, e2);
    }
    AppendLaid(e2, Known(h), tlv, |b|, e');
  }

  /** A header without a location is placed as a new record at the position, after the TRACE_BLOCK record was reopened when there is one. */
  lemma PlaceNew(e: Engine, h: Header, b: seq<byte>, e': Engine) returns (e2: Engine, tlv: seq<byte>)
    requires !HasKey(e.locations, Known(h)) && Place(e, h, b) == Ok(e')
    ensures if HasKey(e.locations, TB) then ReopenBlock(e) == Ok(e2) else e2 == e
    ensures EncodeTlv(h.tag, b) == Ok(tlv) && |b| <= |tlv|
    ensures Append(e2, Known(h), tlv, |b|) == Ok(e')
  {
    tlv := EncodeTlv(h.tag, b).value;
    e2 := if HasKey(e.locations, TB) then ReopenBlock(e).value else e;
  }

  /** Placing a header's value keeps the layout. */
  lemma PlaceLaid(e: Engine, h: Header, b: seq<byte>, e': Engine)
    requires Laid(e) && Known(h) != TB && Place(e, h, b) == Ok(e')
    ensures Laid(e')
  {
    if HasKey(e.locations, Known(h)) {
      PlaceRewriteLaid(e, h, b, e');
    } else {
      PlaceAppendLaid(e, h, b, e');
    }
  }

  /** One pass of the loop keeps the layout. */
  lemma WriteOneLaid(e: Engine, k: HeaderKey, v: HeaderValue, e': Engine)
    requires Laid(e) && WriteOne(e, k, v) == Ok(e')
    ensures Laid(e')
  {
    if k != TB {
      var e1, b := WriteOneSplit(e, k, v, e');
      PlaceLaid(e1, k.h, b, e');
    }
  }

  /** The loop keeps the layout. */
  lemma {:induction false} WriteAllLaid(e: Engine, hs: HeaderDict, e': Engine)
    requires Laid(e) && WriteAll(e, hs) == Ok(e')
    ensures Laid(e')
    decreases |hs|
  {
    if hs != [] {
      var e1 := WriteOne(e, hs[0].0, hs[0].1).value;
      WriteOneLaid(e, hs[0].0, hs[0].1, e1);
      WriteAllLaid(e1, hs[1..], e');
    }
  }

  /** Writing the TRACE_BLOCK record gives it a location right after the record, and keeps the layout. */
  lemma FinishLaid(e: Engine, e': Engine)
    requires Laid(e) && FinishWrite(e) == Ok(e')
    ensures Laid(e') && HasKey(e'.locations, TB)
  {
    if !HasKey(e.locations, TB) {
      var tb := e.pos + 2;
      SetKeepsDistinct(e.locations, TB, (tb, 0));
      GetAfterSet(e.locations, TB, (tb, 0), TB);
      assert Limit(e') == e.pos;
    }
  }

  /** __write_headers keeps the layout, and a write of at least one header leaves TRACE_BLOCK with a location. */
  lemma WriteHeadersLaid(e: Engine, input: Option<HeaderDict>, e': Engine)
    requires Laid(e) && WriteHeaders(e, input) == Ok(e')
    ensures Laid(e')
    ensures (if input.Some? then input.value else e.headers) != [] ==> HasKey(e'.locations, TB)
  {
    var hs := if input.Some? then input.value else e.headers;
    if hs != [] {
      var e1 := WriteAll(e, hs).value;
      WriteAllLaid(e, hs, e1);
      FinishLaid(e1, e');
    }
  }

  // ---------------------------------------------------------------------
  // What __write_headers does to the file

  /** A successful pass of the loop for a key other than TRACE_BLOCK places the encoded value in the engine with its headers updated. */
  lemma WriteOneSplit(e: Engine, k: HeaderKey, v: HeaderValue, e': Engine) returns (e1: Engine, b: seq<byte>)
    requires k != TB && WriteOne(e, k, v) == Ok(e')
    ensures k.Known? && e1 == e.(headers := e1.headers) && Place(e1, k.h, b) == Ok(e')
  {
    var (b0, stored) := EncodeHeaderValue(k.h, v, e.headers).value;
    b := b0;
    e1 := if v.SetParams? || v.DefParams? then e.(headers := Set(e.headers, k, stored)) else e;
  }

  /** A header that is not TRACE_BLOCK, whose value encodes, is placed with the dictionary holding the encoded value's locked form. */
  lemma WriteOneIsPlace(e: Engine, h: Header, v: HeaderValue, b: seq<byte>, stored: HeaderValue)
    requires Known(h) != TB && EncodeHeaderValue(h, v, e.headers) == Ok((b, stored))
    ensures WriteOne(e, Known(h), v) == Place(if v.SetParams? || v.DefParams? then e.(headers := Set(e.headers, Known(h), stored)) else e, h, b)
  {
  }

  /**
   * A header with a location is rewritten in place: a value of another
   * length is refused with TypeError, one of the same length replaces the
   * old value bytes and nothing else.
   */
  lemma RewriteInPlace(e: Engine, h: Header, b: seq<byte>)
    requires Laid(e) && Known(h) != TB && HasKey(e.locations, Known(h))
    ensures var (off, len) := Get(e.locations, Known(h)).value;
      (len != |b| ==> Place(e, h, b) == Err(TypeError))
      && (len == |b| ==> off + len <= |e.file| && Place(e, h, b) == Ok(e.(file := e.file[..off] + b + e.file[off + len..])))
  {
    LocationBelowLimit(e, Known(h));
  }

  /** A rewrite in place leaves the layout, the locations and everything from the TRACE_BLOCK record on as they were. */
  lemma PlaceInPlace(e: Engine, h: Header, b: seq<byte>, e': Engine)
    requires Laid(e) && HasKey(e.locations, TB) && Known(h) != TB && HasKey(e.locations, Known(h))
    requires Place(e, h, b) == Ok(e')
    ensures Laid(e') && e'.locations == e.locations && e'.traceblockOffset == e.traceblockOffset && e'.pos == e.pos
    ensures |e'.file| == |e.file| && e'.file[e.traceblockOffset.value - 2..] == e.file[e.traceblockOffset.value - 2..]
  {
    PlaceRewriteLaid(e, h, b, e');
    LocationBelowLimit(e, Known(h));
    var off := Get(e.locations, Known(h)).value.0;
    var t := e.traceblockOffset.value - 2;
    assert e'.file[t..] == e.file[t..] by {
      assert e'.file[off + |b|..][t - off - |b|..] == e'.file[t..];
      assert e.file[off + |b|..][t - off - |b|..] == e.file[t..];
    }
  }

  /** One pass of the loop over a header with a location rewrites it in place. */
  lemma WriteOneInPlace(e: Engine, k: HeaderKey, v: HeaderValue, e': Engine)
    requires Laid(e) && HasKey(e.locations, TB) && HasKey(e.locations, k)
    requires WriteOne(e, k, v) == Ok(e')
    ensures Laid(e') && e'.locations == e.locations && e'.traceblockOffset == e.traceblockOffset && e'.pos == e.pos
    ensures |e'.file| == |e.file| && e'.file[e.traceblockOffset.value - 2..] == e.file[e.traceblockOffset.value - 2..]
  {
    if k != TB {
      var e1, b := WriteOneSplit(e, k, v, e');
      PlaceInPlace(e1, k.h, b, e');
    }
  }

  /** The loop over headers that all have a location rewrites them in place. */
  lemma {:induction false} WriteAllInPlace(e: Engine, hs: HeaderDict, e': Engine)
    requires Laid(e) && HasKey(e.locations, TB)
    requires forall i :: 0 <= i < |hs| ==> HasKey(e.locations, hs[i].0)
    requires WriteAll(e, hs) == Ok(e')
    ensures Laid(e') && e'.locations == e.locations && e'.traceblockOffset == e.traceblockOffset && e'.pos == e.pos
    ensures |e'.file| == |e.file| && e'.file[e.traceblockOffset.value - 2..] == e.file[e.traceblockOffset.value - 2..]
    decreases |hs|
  {
    if hs == [] {
    } else {
      var e1 := WriteOne(e, hs[0].0, hs[0].1).value;
      WriteOneInPlace(e, hs[0].0, hs[0].1, e1);
      WriteAllInPlace(e1, hs[1..], e');
    }
  }

  /**
   * Once TRACE_BLOCK has a location, __write_headers of headers that all
   * have one (the NUMBER_TRACES update of close(), say) rewrites values in
   * place: the file keeps its length, the locations and the trace block
   * offset stay, and the TRACE_BLOCK record and the trace data after it
   * are untouched.
   */
  lemma RewriteKeepsTraceBlock(e: Engine, hs: HeaderDict, e': Engine)
    requires Laid(e) && HasKey(e.locations, TB)
    requires forall i :: 0 <= i < |hs| ==> HasKey(e.locations, hs[i].0)
    requires WriteHeaders(e, Some(hs)) == Ok(e')
    ensures Laid(e') && e'.locations == e.locations && e'.traceblockOffset == e.traceblockOffset
    ensures |e'.file| == |e.file| && e'.file[e.traceblockOffset.value - 2..] == e.file[e.traceblockOffset.value - 2..]
  {
    if hs != [] {
      var e1 := WriteAll(e, hs).value;
      WriteAllInPlace(e, hs, e1);
    }
  }

  /** A header without a location cannot be added once the file holds trace data. */
  lemma NoNewHeaderAfterTraceData(e: Engine, hs: HeaderDict, k: HeaderKey)
    requires HasTraceData(e) && HasKey(hs, k) && !HasKey(e.locations, k)
    ensures WriteHeaders(e, Some(hs)) == Err(IOError)
  {
    var i :| 0 <= i < |hs| && hs[i].0 == k;
    assert NewKey(e, hs);
  }

  /** Reopening the TRACE_BLOCK record of a file without trace data: the position goes back to its start, at the end of the file less two bytes. */
  lemma ReopenAtEnd(e: Engine) returns (e2: Engine)
    requires Laid(e) && HasKey(e.locations, TB) && !HasTraceData(e)
    ensures ReopenBlock(e) == Ok(e2) && e.traceblockOffset.Some? && |e.file| == e.traceblockOffset.value
    ensures e2.pos == |e.file| - 2 && e2.file == e.file && e2.mapped == |e.file| && e2.headers == e.headers
    ensures Laid(e2) && !HasKey(e2.locations, TB)
  {
    e2 := ReopenBlock(e).value;
    ReopenLaid(e, e2);
  }

  /** Placing a header without a location after the TRACE_BLOCK record was reopened. */
  lemma PlaceAfterReopen(e: Engine, h: Header, b: seq<byte>, tlv: seq<byte>, e2: Engine)
    requires HasKey(e.locations, TB) && !HasKey(e.locations, Known(h)) && EncodeTlv(h.tag, b) == Ok(tlv)
    requires ReopenBlock(e) == Ok(e2) && e2.pos <= e2.mapped == |e2.file|
    ensures var p := e2.pos + |tlv|; var f := WriteAt(e2.file, e2.pos, tlv);
      Place(e, h, b) == Ok(e2.(file := f, mapped := |f|, pos := p, locations := Set(e2.locations, Known(h), (p - |b|, |b|))))
  {
    MapWriteFull(e2, tlv);
    assert Place(e, h, b) == Append(e2, Known(h), tlv, |b|);
  }

  /** Through a map of the whole file, a write at the position always succeeds and leaves the map covering the file. */
  lemma MapWriteFull(e: Engine, b: seq<byte>)
    requires e.pos <= e.mapped == |e.file|
    ensures var f := WriteAt(e.file, e.pos, b); MapWrite(e, b) == Ok(e.(file := f, mapped := |f|, pos := e.pos + |b|))
  {
    assert MapLen(e) == |e.file|;
  }

  /** Placing a new header before any trace data writes its record over the TRACE_BLOCK record, at the end of the file. */
  lemma PlaceBeforeTraceBlock(e: Engine, h: Header, b: seq<byte>, tlv: seq<byte>) returns (e': Engine)
    requires Laid(e) && HasKey(e.locations, TB) && !HasTraceData(e)
    requires Known(h) != TB && !HasKey(e.locations, Known(h)) && EncodeTlv(h.tag, b) == Ok(tlv)
    ensures Place(e, h, b) == Ok(e')
    ensures e'.file == e.file[..e.traceblockOffset.value - 2] + tlv && e'.headers == e.headers
    ensures e'.pos == |e'.file| == e.traceblockOffset.value - 2 + |tlv|
    ensures !HasKey(e'.locations, TB) && Get(e'.locations, Known(h)) == Some((e.traceblockOffset.value - 2 + |tlv| - |b|, |b|)) && Laid(e')
  {
    var e2 := ReopenAtEnd(e);
    PlaceAfterReopen(e, h, b, tlv, e2);
    e' := AppendAtEnd(e2, h, b, tlv);
    WriteOverLast(e.file, tlv);
    var t := e.traceblockOffset.value;
    assert e2.pos == t - 2;
    assert e'.file == e.file[..t - 2] + tlv;
    assert e'.pos == t - 2 + |tlv|;
  }

  /** A record appended at the position, with TRACE_BLOCK without a location, keeps the layout and gives the header the location of its value. */
  lemma AppendAtEnd(e2: Engine, h: Header, b: seq<byte>, tlv: seq<byte>) returns (e': Engine)
    requires Laid(e2) && !HasKey(e2.locations, TB) && !HasKey(e2.locations, Known(h)) && Known(h) != TB && |b| <= |tlv|
    requires e2.mapped == |e2.file|
    ensures var p := e2.pos + |tlv|; var f := WriteAt(e2.file, e2.pos, tlv);
      e' == e2.(file := f, mapped := |f|, pos := p, locations := Set(e2.locations, Known(h), (p - |b|, |b|)))
    ensures Laid(e') && !HasKey(e'.locations, TB) && Get(e'.locations, Known(h)) == Some((e2.pos + |tlv| - |b|, |b|))
  {
    var p := e2.pos + |tlv|;
    var f := WriteAt(e2.file, e2.pos, tlv);
    e' := e2.(file := f, mapped := |f|, pos := p, locations := Set(e2.locations, Known(h), (p - |b|, |b|)));
    AppendLaid(e2, Known(h), tlv, |b|, e');
    GetAfterSet(e2.locations, Known(h), (p - |b|, |b|), Known(h));
    GetAfterSet(e2.locations, Known(h), (p - |b|, |b|), TB);
  }

  /** A record of at least two bytes written over the last two bytes of the file replaces them. */
  lemma WriteOverLast(file: seq<byte>, tlv: seq<byte>)
    requires |file| >= 2 && |tlv| >= 2
    ensures WriteAt(file, |file| - 2, tlv) == file[..|file| - 2] + tlv
  {
    var f := WriteAt(file, |file| - 2, tlv);
    assert f == f[..|file| - 2] + f[|file| - 2..];
  }

  /** The TRACE_BLOCK record written at the end of the file: the trace block starts right after it, and the other locations stay. */
  lemma FinishAtEnd(e: Engine, k: HeaderKey) returns (e': Engine)
    requires Laid(e) && !HasKey(e.locations, TB) && e.pos == |e.file| && k != TB
    ensures FinishWrite(e) == Ok(e')
    ensures e'.file == e.file + TRACE_BLOCK_START && e'.traceblockOffset == Some(e.pos + 2)
    ensures Get(e'.locations, k) == Get(e.locations, k) && e'.headers == e.headers && Laid(e')
  {
    var tb := e.pos + 2;
    var f := WriteAt(e.file, e.pos, TRACE_BLOCK_START);
    assert f == e.file + TRACE_BLOCK_START by {
      assert e.file[..e.pos] == e.file;
    }
    e' := e.(file := f, mapped := |f|, pos := tb, traceblockOffset := Some(tb), locations := Set(e.locations, TB, (tb, 0)));
    FinishLaid(e, e');
    GetAfterSet(e.locations, TB, (tb, 0), k);
  }

  /**
   * Adding a header before any trace data: its record takes the place of
   * the TRACE_BLOCK record, which is written again right after it, so the
   * trace block moves back by the length of the new record.
   */
  lemma AppendBeforeTraceBlock(e: Engine, h: Header, v: HeaderValue, b: seq<byte>, stored: HeaderValue, tlv: seq<byte>) returns (e': Engine)
    requires Laid(e) && HasKey(e.locations, TB) && !HasTraceData(e)
    requires Known(h) != TB && !HasKey(e.locations, Known(h))
    requires EncodeHeaderValue(h, v, e.headers) == Ok((b, stored)) && EncodeTlv(h.tag, b) == Ok(tlv)
    ensures WriteHeaders(e, Some([(Known(h), v)])) == Ok(e')
    ensures e'.file == e.file[..e.traceblockOffset.value - 2] + tlv + TRACE_BLOCK_START
    ensures e'.traceblockOffset == Some(e.traceblockOffset.value + |tlv|)
    ensures Get(e'.locations, Known(h)) == Some((e.traceblockOffset.value - 2 + |tlv| - |b|, |b|))
    ensures Laid(e')
  {
    WriteOneIsPlace(e, h, v, b, stored);
    var e1 := if v.SetParams? || v.DefParams? then e.(headers := Set(e.headers, Known(h), stored)) else e;
    assert e1 == e.(headers := e1.headers);
    var e3;
    e3, e' := PlaceThenFinish(e, e1, h, b, tlv);
    WriteSingle(e, Known(h), v, e3, e');
  }

  /** The new record placed over the TRACE_BLOCK record (in an engine that differs from e at most in its headers), then TRACE_BLOCK written after it. */
  lemma PlaceThenFinish(e: Engine, e1: Engine, h: Header, b: seq<byte>, tlv: seq<byte>) returns (e3: Engine, e': Engine)
    requires e1 == e.(headers := e1.headers)
    requires Laid(e) && HasKey(e.locations, TB) && !HasTraceData(e)
    requires Known(h) != TB && !HasKey(e.locations, Known(h)) && EncodeTlv(h.tag, b) == Ok(tlv)
    ensures Place(e1, h, b) == Ok(e3) && FinishWrite(e3) == Ok(e')
    ensures e'.file == e.file[..e.traceblockOffset.value - 2] + tlv + TRACE_BLOCK_START
    ensures e'.traceblockOffset == Some(e.traceblockOffset.value + |tlv|)
    ensures Get(e'.locations, Known(h)) == Some((e.traceblockOffset.value - 2 + |tlv| - |b|, |b|))
    ensures Laid(e')
  {
    e3 := PlaceBeforeTraceBlock(e1, h, b, tlv);
    e' := FinishAtEnd(e3, Known(h));
  }

  /** Writing a single entry before any trace data: the one pass of the loop, then the TRACE_BLOCK record. */
  lemma WriteSingle(e: Engine, k: HeaderKey, v: HeaderValue, e1: Engine, e2: Engine)
    requires !HasTraceData(e) && WriteOne(e, k, v) == Ok(e1) && FinishWrite(e1) == Ok(e2)
    ensures WriteHeaders(e, Some([(k, v)])) == Ok(e2)
  {
    var hs := [(k, v)];
    assert hs[1..] == [];
    assert WriteAll(e, hs) == Ok(e1);
  }

  // ---------------------------------------------------------------------
  // __read_headers

  /**
   * The loop of __read_headers: records are read and stored under their
   * header (or their tag, when unknown tags are ignored) together with
   * where their value sits, until TRACE_BLOCK has been read.
   */
  function ReadLoop(c: Cursor, hs: HeaderDict, locs: ODict<HeaderKey, Location>, ignore: bool): (r: Result<(Cursor, HeaderDict, ODict<HeaderKey, Location>)>)
    ensures r.Ok? ==> HasKey(r.value.1, TB) && r.value.0.data == c.data
    ensures r.Ok? && !HasKey(hs, TB) ==> r.value.0.pos <= |c.data|
    ensures r.Ok? && Keys(hs) == Keys(locs) ==> Keys(r.value.1) == Keys(r.value.2)
    ensures r.Ok? && Distinct(hs) ==> Distinct(r.value.1)
    decreases |c.data| - c.pos
  {
    if HasKey(hs, TB) then Ok((c, hs, locs))
    else
      var (c1, k, v, loc) :- ReadEntry(c, ignore);
      KeysOfSet(hs, k, v);
      KeysOfSet(locs, k, loc);
      ReadLoop(c1, Set(hs, k, v), Set(locs, k, loc), ignore)
  }

  /** One record of the loop of __read_headers: its key, its decoded value and where the value sits. */
  function ReadEntry(c: Cursor, ignore: bool): (r: Result<(Cursor, HeaderKey, HeaderValue, Location)>)
    ensures r.Ok? ==> r.value.0.data == c.data && c.pos + 2 <= r.value.0.pos <= |c.data|
  {
    var (c1, t) :- ReadTlv(c);
    var (k, v) :- DecodeHeaderValue(t.tag, t.value, ignore);
    Ok((c1, k, v, (t.valueIndex, t.length)))
  }

  /** A header's value used in arithmetic: an int (a bool counts as one); None or any other value is a TypeError. */
  function IntOf(v: HeaderValue): (r: Result<int>)
    ensures r.Ok? <==> v.Plain? && v.v.IsInt()
  {
    if v.Plain? && v.v.IsInt() then Ok(v.v.AsInt()) else Err(TypeError)
  }

  /** `self.headers[h]`, a KeyError when h is missing. */
  function Lookup(hs: HeaderDict, h: Header): (r: Result<HeaderValue>)
    ensures r.Ok? <==> HasKey(hs, Known(h))
    ensures r.Ok? ==> Get(hs, Known(h)) == Some(r.value)
  {
    if HasKey(hs, Known(h)) then Ok(Get(hs, Known(h)).value) else Err(KeyError)
  }

  /** `self.headers.get(h, 0)` used in arithmetic. */
  function IntOrZero(hs: HeaderDict, h: Header): (r: Result<int>)
    ensures !HasKey(hs, Known(h)) ==> r == Ok(0)
  {
    if HasKey(hs, Known(h)) then IntOf(Get(hs, Known(h)).value) else Ok(0)
  }

  /** `self.headers[SAMPLE_CODING].size`: None has no size (AttributeError). */
  function CodingOf(hs: HeaderDict): (r: Result<SampleCoding>)
    ensures r.Ok? <==> HasKey(hs, Known(SAMPLE_CODING)) && Get(hs, Known(SAMPLE_CODING)).value.CodingValue?
  {
    var v :- Lookup(hs, SAMPLE_CODING);
    if v.CodingValue? then Ok(v.c) else Err(AttributeError)
  }

  /** `sample_length`: NUMBER_SAMPLES samples of the sample coding's size. */
  function SampleLength(hs: HeaderDict): (r: Result<int>)
  {
    var ns :- Lookup(hs, NUMBER_SAMPLES);
    var n :- IntOf(ns);
    var c :- CodingOf(hs);
    Ok(n * c.Size())
  }

  /** `trace_length`: the samples, the parameter data (LENGTH_DATA) and the title (TITLE_SPACE) of one trace. */
  function TraceLength(hs: HeaderDict, sampleLength: int): (r: Result<int>)
  {
    var ld :- IntOrZero(hs, LENGTH_DATA);
    var ts :- IntOrZero(hs, TITLE_SPACE);
    Ok(sampleLength + ld + ts)
  }

  /**
   * `__read_headers()`: the records from the start of the file up to the
   * TRACE_BLOCK record; a file without every mandatory header, or whose
   * length is not that of the trace block of NUMBER_TRACES traces, is
   * refused with IOError.
   */
  function ReadHeaders(e: Engine): (r: Result<Engine>)
    ensures r.Ok? ==>
      var e' := r.value;
      HasMandatory(e'.headers)
      && Distinct(e'.headers) && Keys(e'.headers) == Keys(e'.locations)
      && e'.traceblockOffset.Some? && e'.traceLength.Some?
      && IntOf(Get(e'.headers, Known(NUMBER_TRACES)).value).Ok?
      && |e.file| == e'.traceblockOffset.value + IntOf(Get(e'.headers, Known(NUMBER_TRACES)).value).value * e'.traceLength.value
      && e'.file == e.file && e'.pos == |e.file| && e'.readOnly == e.readOnly && e'.closed == e.closed && e'.padding == e.padding
  {
    var (c, hs, locs) :- ReadLoop(Cursor(e.file, 0), [], [], e.ignoreUnknownTags);
    CheckHeaders(e, c.pos, hs, locs)
  }

  /**
   * The checks __read_headers makes once TRACE_BLOCK has been read at tb:
   * every mandatory header is there, and the file holds exactly
   * NUMBER_TRACES traces of trace_length bytes after tb.
   */
  function CheckHeaders(e: Engine, tb: nat, hs: HeaderDict, locs: ODict<HeaderKey, Location>): (r: Result<Engine>)
    ensures r.Ok? ==>
      var e' := r.value;
      HasMandatory(e'.headers)
      && e'.headers == hs && e'.locations == locs && e'.traceblockOffset == Some(tb) && e'.traceLength.Some?
      && IntOf(Get(hs, Known(NUMBER_TRACES)).value).Ok?
      && |e.file| == tb + IntOf(Get(hs, Known(NUMBER_TRACES)).value).value * e'.traceLength.value
      && e'.file == e.file && e'.pos == |e.file| && e'.readOnly == e.readOnly && e'.closed == e.closed && e'.padding == e.padding
  {
    var (sl, tl, nt) :- TraceBlockLayout(hs);
    if |e.file| != tb + nt * tl then Err(IOError)
    else
      Ok(e.(pos := |e.file|, headers := hs, locations := locs, traceblockOffset := Some(tb),
            sampleLength := Some(sl), traceLength := Some(tl)))
  }

  /** Every mandatory header is a key of hs. */
  predicate HasMandatory(hs: HeaderDict)
  {
    forall h :: h in GetMandatory() ==> HasKey(hs, Known(h))
  }

  /**
   * What __read_headers computes from the headers alone: every mandatory
   * header must be there (IOError), then sample_length, trace_length and
   * NUMBER_TRACES.
   */
  function TraceBlockLayout(hs: HeaderDict): (r: Result<(int, int, int)>)
    ensures r.Ok? ==> HasMandatory(hs) && IntOf(Get(hs, Known(NUMBER_TRACES)).value) == Ok(r.value.2)
  {
    if !HasMandatory(hs) then Err(IOError)
    else
      var sl :- SampleLength(hs);
      var tl :- TraceLength(hs, sl);
      var nt :- IntOf(Get(hs, Known(NUMBER_TRACES)).value);
      Ok((sl, tl, nt))
  }

  /** A dictionary holding NUMBER_TRACES, NUMBER_SAMPLES, SAMPLE_CODING and TRACE_BLOCK holds every mandatory header. */
  lemma MandatoryPresent(hs: HeaderDict)
    requires HasKey(hs, Known(NUMBER_TRACES)) && HasKey(hs, Known(NUMBER_SAMPLES))
    requires HasKey(hs, Known(SAMPLE_CODING)) && HasKey(hs, Known(TRACE_BLOCK))
    ensures HasMandatory(hs)
  {
    forall h | h in GetMandatory()
      ensures HasKey(hs, Known(h))
    {
      MandatoryIs(h);
    }
  }

  /** A file __read_headers accepts holds exactly NUMBER_TRACES records of trace_length bytes after the trace block offset. */
  lemma CheckHeadersCount(e: Engine, tb: nat, hs: HeaderDict, locs: ODict<HeaderKey, Location>, nt: int, accepted: Engine)
    requires CheckHeaders(e, tb, hs, locs) == Ok(accepted) && Get(hs, Known(NUMBER_TRACES)) == Some(Plain(PInt(nt)))
    ensures accepted.traceLength.Some? && |e.file| == tb + nt * accepted.traceLength.value
  {
  }

  /** __read_headers refuses, with IOError, a file whose length differs from one it accepts under the same headers. */
  lemma CheckHeadersOtherLength(e: Engine, e2: Engine, tb: nat, hs: HeaderDict, locs: ODict<HeaderKey, Location>)
    requires CheckHeaders(e, tb, hs, locs).Ok? && |e2.file| != |e.file|
    ensures CheckHeaders(e2, tb, hs, locs) == Err(IOError)
  {
  }

  /** __read_headers accepts a file of the length of one it accepts under the same headers. */
  lemma CheckHeadersSameLength(e: Engine, e2: Engine, tb: nat, hs: HeaderDict, locs: ODict<HeaderKey, Location>)
    requires CheckHeaders(e, tb, hs, locs).Ok? && |e2.file| == |e.file|
    ensures CheckHeaders(e2, tb, hs, locs).Ok?
  {
    var sl, tl, nt := CheckHeadersLayout(e, tb, hs, locs);
    CheckHeadersAccepts(e2, tb, hs, locs, sl, tl, nt);
  }

  /** What an accepted file's length satisfies: tb plus NUMBER_TRACES records of trace_length. */
  lemma CheckHeadersLayout(e: Engine, tb: nat, hs: HeaderDict, locs: ODict<HeaderKey, Location>) returns (sl: int, tl: int, nt: int)
    requires CheckHeaders(e, tb, hs, locs).Ok?
    ensures TraceBlockLayout(hs) == Ok((sl, tl, nt)) && |e.file| == tb + nt * tl
  {
    var l := TraceBlockLayout(hs);
    assert l.Ok?;
    sl, tl, nt := l.value.0, l.value.1, l.value.2;
    assert CheckHeaders(e, tb, hs, locs) != Err(IOError);
  }

  /** A file of tb plus NUMBER_TRACES records of trace_length is accepted. */
  lemma CheckHeadersAccepts(e: Engine, tb: nat, hs: HeaderDict, locs: ODict<HeaderKey, Location>, sl: int, tl: int, nt: int)
    requires TraceBlockLayout(hs) == Ok((sl, tl, nt)) && |e.file| == tb + nt * tl
    ensures CheckHeaders(e, tb, hs, locs).Ok?
  {
  }

  /** '<', the first byte of an XML file, is no tag of the Header table. */
  lemma LessThanIsNoTag()
    ensures !HasValue(0x3C)
  {
    TagsAscend();
    assert Headers[0].tag == 0x41;
  }

  /** A file whose first record has a tag outside the Header table is refused with NotImplementedError, unless unknown tags are ignored. */
  lemma UnknownFirstTagRefused(e: Engine)
    requires |e.file| >= 2 && !HasValue(e.file[0]) && !e.ignoreUnknownTags
    ensures ReadHeaders(e) == Err(NotImplementedError)
  {
    var c := Cursor(e.file, 0);
    var (c1, t) := ReadTlv(c).value;
    assert t.tag == e.file[0];
  }
}
