// trsfile/engine/trs.py: the tag-length-value records of a .trs header
// block, and how the value of each type of header becomes the value bytes
// of its record (in __write_headers) and is read back from them (in
// __read_headers).
module Tlvs {
  import opened PyErrors
  import opened PyValues
  import opened Utils
  import opened OrderedDicts
  import opened Common
  import opened Engines
  import opened LockableDicts
  import SetMaps = TraceSetParameterMaps
  import Defs = TraceParameterDefinitionMaps
  import FloatPacking

  // ---------------------------------------------------------------------
  // The length field

  function Pow2(n: nat): (r: nat)
    ensures r >= 1
  {
    if n == 0 then 1 else 2 * Pow2(n - 1)
  }

  lemma {:induction false} Pow2Add(a: nat, b: nat)
    ensures Pow2(a + b) == Pow2(a) * Pow2(b)
  {
    if a > 0 {
      Pow2Add(a - 1, b);
    }
  }

  lemma {:induction false} Pow2Mono(a: nat, b: nat)
    requires a <= b
    ensures Pow2(a) <= Pow2(b)
    decreases b
  {
    if a < b {
      Pow2Mono(a, b - 1);
    }
  }

  lemma {:induction false} Pow256IsPow2(k: nat)
    ensures Pow256(k) == Pow2(8 * k)
  {
    if k > 0 {
      Pow256IsPow2(k - 1);
      Pow2Add(8, 8 * (k - 1));
      assert Pow2(8) == 256;
    }
  }

  /** `int.bit_length()` of a non-negative int: the number of its binary digits. */
  function BitLength(n: nat): (r: nat)
    ensures n < Pow2(r)
    ensures n > 0 ==> r > 0 && Pow2(r - 1) <= n
  {
    if n == 0 then 0 else 1 + BitLength(n / 2)
  }

  /** The number of bytes the length takes: bit_length() // 8, plus one for a partial byte. */
  function LengthBytes(n: nat): (k: nat)
    ensures n < Pow256(k)
    ensures n > 0 ==> k > 0 && Pow256(k - 1) <= n
  {
    var bl := BitLength(n);
    var k := bl / 8 + (if bl % 8 > 0 then 1 else 0);
    LengthBytesBounds(n, bl, k);
    k
  }

  lemma LengthBytesBounds(n: nat, bl: nat, k: nat)
    requires bl == BitLength(n) && k == bl / 8 + (if bl % 8 > 0 then 1 else 0)
    ensures n < Pow256(k)
    ensures n > 0 ==> k > 0 && Pow256(k - 1) <= n
  {
    Pow256IsPow2(k);
    Pow2Mono(bl, 8 * k);
    if n > 0 {
      Pow256IsPow2(k - 1);
      Pow2Mono(8 * (k - 1), bl - 1);
    }
  }

  /**
   * The length field of a record whose value is n bytes long: one byte
   * below 0x80; otherwise `0x80 | k` followed by n in k little-endian
   * bytes. `0x80 | k` is k itself once k has bit 7 set, and `bytes()`
   * refuses it (ValueError) once k exceeds 255.
   */
  function EncodeLength(n: nat): (r: Result<seq<byte>>)
    ensures r.Ok? <==> n < 0x80 || LengthBytes(n) < 0x100
    ensures r.Err? ==> r.error == ValueError
    ensures n < 0x80 ==> r == Ok([n])
    ensures n >= 0x80 && LengthBytes(n) < 0x80 ==>
      r.Ok? && |r.value| == 1 + LengthBytes(n) && r.value[0] == 0x80 + LengthBytes(n)
      && FromLE(r.value[1..]) == n
  {
    if n < 0x80 then Ok([n])
    else
      var k := LengthBytes(n);
      FromLEOfToLE(n, k);
      if k < 0x80 then Ok([0x80 + k] + ToLE(n, k))
      else if k < 0x100 then Ok([k] + ToLE(n, k))
      else Err(ValueError)
  }

  /** The whole record: the tag byte, the length field, the value. */
  function EncodeTlv(tag: byte, value: seq<byte>): (r: Result<seq<byte>>)
    ensures r.Ok? ==> |r.value| >= 2 + |value| && r.value[0] == tag && r.value[|r.value| - |value|..] == value
  {
    var len :- EncodeLength(|value|);
    Ok([tag] + len + value)
  }

  /** A record as __read_headers finds it: the tag, where the value starts, the length field, the value (None for length 0). */
  datatype Tlv = Tlv(tag: byte, valueIndex: nat, length: nat, value: Option<seq<byte>>)

  /**
   * One pass of the loop of __read_headers up to the interpretation of the
   * value: `read(1)[0]` for the tag and the length (IndexError at the end
   * of the file), an extended length when bit 7 is set, then the value,
   * which may come out short at the end of the file.
   */
  function ReadTlv(c: Cursor): (r: Result<(Cursor, Tlv)>)
    ensures r.Ok? ==> r.value.0.data == c.data && c.pos + 2 <= r.value.0.pos <= |c.data|
  {
    var (c1, tag) :- c.ReadByte();
    var (c2, len0) :- c1.ReadByte();
    var (c3, len) := if len0 >= 0x80 then var (c3, b) := c2.Read(len0 % 0x80); (c3, FromLE(b)) else (c2, len0);
    var (c4, value) := if len > 0 then var (c4, b) := c3.Read(len); (c4, Some(b)) else (c3, None);
    Ok((c4, Tlv(tag, c3.pos, len, value)))
  }

  /** The tag and the first length byte of a record. */
  lemma ReadTlvStart(tag: byte, len: seq<byte>, value: seq<byte>, data: seq<byte>, p: nat)
    requires |len| >= 1 && p + 1 + |len| + |value| <= |data| && data[p..p + 1 + |len| + |value|] == [tag] + len + value
    ensures Cursor(data, p).ReadByte() == Ok((Cursor(data, p + 1), tag))
    ensures Cursor(data, p + 1).ReadByte() == Ok((Cursor(data, p + 2), len[0]))
    ensures data[p + 2..p + 1 + |len|] == len[1..]
    ensures data[p + 1 + |len|..p + 1 + |len| + |value|] == value
  {
    var t := [tag] + len + value;
    assert data[p] == t[0] && data[p + 1] == t[1];
    SubSegment(data, p, t, 2, 1 + |len|);
    SubSegment(data, p, t, 1 + |len|, |t|);
    assert t[2..1 + |len|] == len[1..];
    assert t[1 + |len|..] == value;
  }

  /**
   * A record is read back wherever it sits: the tag, the value's position
   * and length, and the value itself (None when it is empty), leaving the
   * cursor after it.  This needs the length of the length below 0x80, that
   * is a value shorter than 256^127 bytes: for longer ones `0x80 | k` loses
   * the flag bit's meaning.
   */
  lemma TlvRoundTrip(tag: byte, value: seq<byte>, t: seq<byte>, data: seq<byte>, p: nat)
    requires |value| < 0x80 || LengthBytes(|value|) < 0x80
    requires EncodeTlv(tag, value) == Ok(t)
    requires p + |t| <= |data| && data[p..p + |t|] == t
    ensures ReadTlv(Cursor(data, p)) == Ok((Cursor(data, p + |t|),
      Tlv(tag, p + |t| - |value|, |value|, if |value| > 0 then Some(value) else None)))
  {
    if |value| >= 0x80 {
      var len, t' := LongRecord(tag, value);
      TlvLongRecordAt(tag, len, value, t, data, p);
    } else {
      assert t == [tag] + [|value|] + value;
      ReadTlvStart(tag, [|value|], value, data, p);
      ReadTlvShort(tag, value, data, p);
    }
  }

  /** The extended length field: bit 7 set over the count of the bytes that follow, which hold n little-endian. */
  lemma LongLength(n: nat) returns (len: seq<byte>)
    requires n >= 0x80 && LengthBytes(n) < 0x80
    ensures EncodeLength(n) == Ok(len)
    ensures |len| >= 1 && 0x80 <= len[0] && |len| - 1 == len[0] % 0x80 && FromLE(len[1..]) == n
  {
    len := EncodeLength(n).value;
    FlagMod(LengthBytes(n));
  }

  /** A record whose value needs the extended length field. */
  lemma LongRecord(tag: byte, value: seq<byte>) returns (len: seq<byte>, t: seq<byte>)
    requires |value| >= 0x80 && LengthBytes(|value|) < 0x80
    ensures EncodeTlv(tag, value) == Ok(t) && t == [tag] + len + value
    ensures |len| >= 1 && 0x80 <= len[0] && |len| - 1 == len[0] % 0x80 && FromLE(len[1..]) == |value|
  {
    len := LongLength(|value|);
    t := [tag] + len + value;
  }

  /** Bit 7 set on a count below 0x80 leaves the count in the low bits. */
  lemma FlagMod(k: nat)
    requires k < 0x80
    ensures (0x80 + k) % 0x80 == k
  {
  }

  /** TlvRoundTrip for the record t built from an extended length field len. */
  lemma TlvLongRecordAt(tag: byte, len: seq<byte>, value: seq<byte>, t: seq<byte>, data: seq<byte>, p: nat)
    requires |len| >= 1 && 0x80 <= len[0] && |len| - 1 == len[0] % 0x80 && FromLE(len[1..]) == |value| > 0
    requires t == [tag] + len + value && p + |t| <= |data| && data[p..p + |t|] == t
    ensures ReadTlv(Cursor(data, p)) == Ok((Cursor(data, p + |t|),
      Tlv(tag, p + |t| - |value|, |value|, if |value| > 0 then Some(value) else None)))
  {
    TlvLongAt(tag, len, value, data, p, p + 1 + |len|, p + |t|);
  }

  /** TlvLongRecordAt, with where the value starts and where the record ends given apart. */
  lemma TlvLongAt(tag: byte, len: seq<byte>, value: seq<byte>, data: seq<byte>, p: nat, q: nat, e: nat)
    requires |len| >= 1 && 0x80 <= len[0] && |len| - 1 == len[0] % 0x80 && FromLE(len[1..]) == |value| > 0
    requires q == p + 1 + |len| && e == q + |value| <= |data| && data[p..e] == [tag] + len + value
    ensures ReadTlv(Cursor(data, p)) == Ok((Cursor(data, e), Tlv(tag, q, |value|, Some(value))))
  {
    ReadTlvStart(tag, len, value, data, p);
    ReadTlvLong(tag, len, value, data, p);
  }

  lemma ReadTlvShort(tag: byte, value: seq<byte>, data: seq<byte>, p: nat)
    requires |value| < 0x80
    requires Cursor(data, p).ReadByte() == Ok((Cursor(data, p + 1), tag))
    requires Cursor(data, p + 1).ReadByte() == Ok((Cursor(data, p + 2), |value|))
    requires p + 2 + |value| <= |data| && data[p + 2..p + 2 + |value|] == value
    ensures ReadTlv(Cursor(data, p)) == Ok((Cursor(data, p + 2 + |value|),
        Tlv(tag, p + 2, |value|, if |value| > 0 then Some(value) else None)))
  {
  }

  lemma ReadTlvLong(tag: byte, len: seq<byte>, value: seq<byte>, data: seq<byte>, p: nat)
    requires |len| >= 1 && 0x80 <= len[0] && |len| - 1 == len[0] % 0x80 && FromLE(len[1..]) == |value|
    requires Cursor(data, p).ReadByte() == Ok((Cursor(data, p + 1), tag))
    requires Cursor(data, p + 1).ReadByte() == Ok((Cursor(data, p + 2), len[0]))
    requires p + 1 + |len| + |value| <= |data|
    requires data[p + 2..p + 1 + |len|] == len[1..]
    requires data[p + 1 + |len|..p + 1 + |len| + |value|] == value
    ensures ReadTlv(Cursor(data, p)) == Ok((Cursor(data, p + 1 + |len| + |value|),
        Tlv(tag, p + 1 + |len|, |value|, if |value| > 0 then Some(value) else None)))
  {
    var e := p + 1 + |len|;
    assert Cursor(data, p + 2).Read(len[0] % 0x80) == (Cursor(data, e), len[1..]);
    assert Cursor(data, e).Read(|value|) == (Cursor(data, e + |value|), value);
  }

  // ---------------------------------------------------------------------
  // Header values to bytes

  /** `b'\xff' * n` and the like. */
  function Repeat(b: byte, n: nat): (r: seq<byte>)
    ensures |r| == n && forall i :: 0 <= i < n ==> r[i] == b
  {
    seq(n, _ => b)
  }

  /**
   * One header of `fill_from_headers(self.headers)`: a key that is not a
   * Header has no `equivalent_std_param` (AttributeError); a plain value is
   * copied into its equivalent standard parameter when one exists; the
   * engine's structural values have no equivalent.
   */
  function FillEntry(m: SetMaps.SetParameterMap, k: HeaderKey, v: HeaderValue): (r: Result<SetMaps.SetParameterMap>)
  {
    match k
    case Unknown(_) => Err(AttributeError)
    case Known(h) =>
      match v
      case Plain(x) => SetMaps.FillOne(m, h, x)
      case _ => if EquivalentStdParam(h).None? then Ok(m) else Err(TypeError)
  }

  /** `fill_from_headers(self.headers)` over the engine's header dictionary, in its order. */
  function FillHeaders(m: SetMaps.SetParameterMap, all: HeaderDict): (r: Result<SetMaps.SetParameterMap>)
  {
    if all == [] then Ok(m)
    else
      var m1 :- FillHeaders(m, all[..|all| - 1]);
      FillEntry(m1, all[|all| - 1].0, all[|all| - 1].1)
  }

  /** The (header, value) pairs of a dictionary of Header keys and plain values. */
  function PlainPairs(all: HeaderDict): (hs: seq<(Header, PyValue)>)
    requires forall i :: 0 <= i < |all| ==> all[i].0.Known? && all[i].1.Plain?
    ensures |hs| == |all| && forall i :: 0 <= i < |all| ==> hs[i] == (all[i].0.h, all[i].1.v)
  {
    seq(|all|, i requires 0 <= i < |all| => (all[i].0.h, all[i].1.v))
  }

  /** Over Header keys and plain values, the engine's filling is TraceSetParameterMap.fill_from_headers. */
  lemma {:induction false} FillHeadersIsFillFromHeaders(m: SetMaps.SetParameterMap, all: HeaderDict)
    requires forall i :: 0 <= i < |all| ==> all[i].0.Known? && all[i].1.Plain?
    ensures FillHeaders(m, all) == SetMaps.FillFromHeaders(m, PlainPairs(all))
  {
    if all != [] {
      var n := |all| - 1;
      var front := all[..n];
      FillHeadersIsFillFromHeaders(m, front);
      SetMaps.FillFromHeadersStep(m, PlainPairs(all), n);
      assert PlainPairs(all)[..n] == PlainPairs(front);
    } else {
      assert PlainPairs(all) == [];
    }
  }

  /**
   * `struct.pack('<f', 0.0 if value is None else value)`: the word of a
   * float, an int or bool rounded to the nearest float, struct.error for
   * any other value.
   */
  function PackFloat(v: HeaderValue): (r: Result<seq<byte>>)
    ensures r.Ok? ==> |r.value| == 4
    ensures v.Plain? && v.v.PFloat? && |v.v.bits| == 4 ==> r == Ok(v.v.bits)
    ensures r.Err? ==> r.error == (if v.Plain? && v.v.IsInt() then OverflowError else StructError)
  {
    if v == Plain(PNone) then Ok(Repeat(0, 4))
    else if v.Plain? && v.v.PFloat? && |v.v.bits| == 4 then Ok(v.v.bits)
    else if v.Plain? && v.v.IsInt() then FloatPacking.PackInt(v.v.AsInt())
    else Err(StructError)
  }

  /**
   * The value bytes __write_headers builds for header h holding v, and the
   * value h holds afterwards: a parameter map is filled, completed and
   * locked in place, so the dictionary sees the change.  The errors are
   * those Python raises for a value of the wrong type.
   */
  function EncodeHeaderValue(h: Header, v: HeaderValue, all: HeaderDict): (r: Result<(seq<byte>, HeaderValue)>)
    ensures r.Ok? && h.hType != SetParameterMapType && h.hType != DefinitionMapType ==> r.value.1 == v
    ensures r.Ok? && h.hType == SetParameterMapType ==> r.value.1.SetParams? && r.value.1.m.locked
    ensures r.Ok? && h.hType == DefinitionMapType ==> v.DefParams? && r.value.1 == DefParams(v.d.(locked := true))
    ensures h.hType == IntType && h.length.Some? && v.Plain? && v.v.IsInt() ==> (r.Ok? <==> 0 <= v.v.AsInt() < Pow256(h.length.value))
    ensures h.hType == IntType && r.Ok? ==> h.length.Some? && |r.value.0| == h.length.value
    ensures h.hType == FloatType && r.Ok? ==> |r.value.0| == 4
    ensures h.hType == BoolType ==> r.Ok? && |r.value.0| == 1
    ensures h.hType == SampleCodingType && r.Ok? ==> |r.value.0| == 1
    ensures h.hType == NoType ==> r == Err(TypeError)
  {
    match h.hType
    case IntType =>
      if h.length.None? then Err(TypeError)
      else if v == Plain(PNone) then Ok((Repeat(0xFF, h.length.value), v))
      else if v.Plain? && v.v.IsInt() then
        var b :- ToBytes(v.v.AsInt(), h.length.value);
        Ok((b, v))
      else Err(AttributeError)
    case FloatType =>
      var b :- PackFloat(v);
      Ok((b, v))
    case BoolType =>
      var truth := match v
        case Plain(x) => x.Truthy()
        case CodingValue(_) => true
        case SetParams(m) => m.entries != []
        case DefParams(d) => d.entries != [];
      Ok(([if truth then 1 else 0], v))
    case StrType =>
      if v.Plain? && v.v.PStr? then Ok((v.v.utf8, v)) else Err(AttributeError)
    case SampleCodingType =>
      if v == Plain(PNone) then Ok(([0xFF], v))
      else if v.CodingValue? then Ok(([v.c.Value()], v))
      else Err(AttributeError)
    case BytesType =>
      if v.Plain? && v.v.PBytes? then Ok((v.v.data, v)) else Err(TypeError)
    case NoType => Err(TypeError)
    case SetParameterMapType =>
      if !v.SetParams? then Err(AttributeError)
      else
        var filled :- FillHeaders(v.m, all);
        var completed :- SetMaps.AddDefaults(filled);
        var b :- SetMaps.SerializeMap(completed);
        Ok((b, SetParams(completed.(locked := true))))
    case DefinitionMapType =>
      if !v.DefParams? then Err(AttributeError)
      else
        var b :- Defs.SerializeDefMap(v.d);
        Ok((b, DefParams(v.d.(locked := true))))
  }

  // ---------------------------------------------------------------------
  // Bytes to header values

  /**
   * The interpretation step of __read_headers for a tag of the Header
   * table, by the header's type: `int.from_bytes`, `struct.unpack('<f')`
   * and `('<?')`, UTF-8, `SampleCoding(value[0])`, the two map codecs over
   * `BytesIO(value)`; bytes and TRACE_BLOCK keep the raw value.  A value of
   * None (a record of length 0) fails where Python fails on None.
   */
  function DecodeValue(h: Header, value: Option<seq<byte>>): (r: Result<HeaderValue>)
    ensures h.hType in {BytesType, NoType} ==> r == Ok(if value.Some? then Plain(PBytes(value.value)) else Plain(PNone))
    ensures value.None? && h.hType in {IntType, FloatType, BoolType, SampleCodingType} ==> r == Err(TypeError)
  {
    match h.hType
    case IntType => if value.None? then Err(TypeError) else Ok(Plain(PInt(FromLE(value.value))))
    case FloatType =>
      if value.None? then Err(TypeError)
      else if |value.value| != 4 then Err(StructError)
      else Ok(Plain(PFloat(value.value)))
    case BoolType =>
      if value.None? then Err(TypeError)
      else if |value.value| != 1 then Err(StructError)
      else Ok(Plain(PBool(value.value[0] != 0)))
    case StrType => if value.None? then Err(AttributeError) else Ok(Plain(PStr(value.value)))
    case SampleCodingType =>
      if value.None? then Err(TypeError)
      else if value.value == [] then Err(IndexError)
      else var c :- SampleCodingOf(value.value[0]); Ok(CodingValue(c))
    case SetParameterMapType =>
      var b := if value.Some? then value.value else [];
      var (_, m) :- SetMaps.DeserializeMap(Cursor(b, 0));
      Ok(SetParams(m))
    case DefinitionMapType =>
      var b := if value.Some? then value.value else [];
      var (_, d) :- Defs.DeserializeDefMap(Cursor(b, 0));
      Ok(DefParams(d))
    case _ => Ok(if value.Some? then Plain(PBytes(value.value)) else Plain(PNone))
  }

  /**
   * The whole interpretation step: a tag of the Header table is decoded by
   * its header's type and stored under the header; any other tag is
   * refused with NotImplementedError unless unknown tags are ignored, when
   * its raw value is stored under its number.
   */
  function DecodeHeaderValue(tag: byte, value: Option<seq<byte>>, ignoreUnknownTags: bool): (r: Result<(HeaderKey, HeaderValue)>)
    ensures HasValue(tag) ==> r == (var v :- DecodeValue(FromTag(tag).value, value); Ok((Known(FromTag(tag).value), v)))
    ensures !HasValue(tag) && ignoreUnknownTags ==>
      r == Ok((Unknown(tag), if value.Some? then Plain(PBytes(value.value)) else Plain(PNone)))
    ensures !HasValue(tag) && !ignoreUnknownTags ==> r == Err(NotImplementedError)
  {
    if !HasValue(tag) then
      if ignoreUnknownTags then Ok((Unknown(tag), if value.Some? then Plain(PBytes(value.value)) else Plain(PNone)))
      else Err(NotImplementedError)
    else
      var h := FromTag(tag).value;
      var v :- DecodeValue(h, value);
      Ok((Known(h), v))
  }

  // ---------------------------------------------------------------------
  // What a written header reads back as

  /** The record of a header of the table is read back under that header, decoded by its type. */
  lemma ReadOwnTag(h: Header, value: Option<seq<byte>>, ignore: bool)
    requires h in Headers
    ensures DecodeHeaderValue(h.tag, value, ignore) == (var v :- DecodeValue(h, value); Ok((Known(h), v)))
  {
    FromTagOfMember(h);
  }

  /** An int header reads back the int it was written with, a bool as 0 or 1. */
  lemma IntHeaderRoundTrip(h: Header, x: PyValue, all: HeaderDict)
    requires h in Headers && h.hType == IntType && x.IsInt()
    requires EncodeHeaderValue(h, Plain(x), all).Ok?
    ensures var b := EncodeHeaderValue(h, Plain(x), all).value.0;
      |b| > 0 && DecodeValue(h, Some(b)) == Ok(Plain(PInt(x.AsInt())))
  {
    HeaderLengths();
    FixedLengthOf(h);
  }

  /** The length the table gives a member. */
  lemma FixedLengthOf(h: Header)
    requires h in Headers && forall i :: 0 <= i < |Headers| ==> FixedLengths(Headers[i])
    ensures FixedLengths(h)
  {
  }

  /** Writing an int header refuses negative values and values too wide for its length, with OverflowError. */
  lemma IntHeaderOverflow(h: Header, x: PyValue, all: HeaderDict)
    requires h.hType == IntType && h.length.Some? && x.IsInt()
    ensures EncodeHeaderValue(h, Plain(x), all).Err? <==> !(0 <= x.AsInt() < Pow256(h.length.value))
    ensures EncodeHeaderValue(h, Plain(x), all).Err? ==> EncodeHeaderValue(h, Plain(x), all).error == OverflowError
  {
  }

  /** An unset int header is written as all ones and reads back as the largest value of its width, not as None. */
  lemma UnsetIntHeaderReadsAllOnes(h: Header, all: HeaderDict) returns (n: nat)
    requires h in Headers && h.hType == IntType
    ensures n > 0 && EncodeHeaderValue(h, Plain(PNone), all) == Ok((Repeat(0xFF, n), Plain(PNone)))
    ensures DecodeValue(h, Some(Repeat(0xFF, n))) == Ok(Plain(PInt(Pow256(n) - 1)))
  {
    IntLengthPositive(h);
    n := h.length.value;
    DecodeAllOnes(h, n);
  }

  /** Bytes that are all 0xFF decode, as an int header, to the largest value of their width. */
  lemma DecodeAllOnes(h: Header, n: nat)
    requires h.hType == IntType
    ensures DecodeValue(h, Some(Repeat(0xFF, n))) == Ok(Plain(PInt(Pow256(n) - 1)))
  {
    AllOnes(n);
  }

  /** An int member of the table has a fixed, positive length. */
  lemma IntLengthPositive(h: Header)
    requires h in Headers && h.hType == IntType
    ensures h.length.Some? && h.length.value > 0
  {
    HeaderLengths();
    FixedLengthOf(h);
  }

  lemma {:induction false} AllOnes(n: nat)
    ensures FromLE(Repeat(0xFF, n)) == Pow256(n) - 1
  {
    if n > 0 {
      AllOnes(n - 1);
      assert Repeat(0xFF, n)[1..] == Repeat(0xFF, n - 1);
    }
  }

  /** A bool header reads back the truth of what it was written with. */
  lemma BoolHeaderRoundTrip(h: Header, x: PyValue, all: HeaderDict)
    requires h.hType == BoolType
    ensures EncodeHeaderValue(h, Plain(x), all).Ok?
    ensures var b := EncodeHeaderValue(h, Plain(x), all).value.0;
      DecodeValue(h, Some(b)) == Ok(Plain(PBool(x.Truthy())))
  {
  }

  /** A float header reads back the packed word it was written with; an unset one reads back as +0.0. */
  lemma FloatHeaderRoundTrip(h: Header, w: seq<byte>, all: HeaderDict)
    requires h.hType == FloatType && |w| == 4
    ensures EncodeHeaderValue(h, Plain(PFloat(w)), all) == Ok((w, Plain(PFloat(w))))
    ensures DecodeValue(h, Some(w)) == Ok(Plain(PFloat(w)))
    ensures DecodeValue(h, Some(EncodeHeaderValue(h, Plain(PNone), all).value.0)) == Ok(Plain(PFloat([0, 0, 0, 0])))
  {
    assert Repeat(0, 4) == [0, 0, 0, 0];
  }

  /**
   * A float header handed an int below 2^24 in magnitude, or a bool, reads
   * back as the float standing exactly for that int; the dictionary keeps
   * the int.
   */
  lemma IntFloatHeaderRoundTrip(h: Header, x: PyValue, all: HeaderDict)
    requires h.hType == FloatType && x.IsInt() && -0x100_0000 < x.AsInt() < 0x100_0000
    ensures EncodeHeaderValue(h, Plain(x), all).Ok?
    ensures var (b, v) := EncodeHeaderValue(h, Plain(x), all).value;
      v == Plain(x) && DecodeValue(h, Some(b)) == Ok(Plain(PFloat(b))) && |b| == 4
      && (x.AsInt() == 0 ==> b == [0, 0, 0, 0])
      && (x.AsInt() != 0 ==> FloatPacking.Negative(b) == (x.AsInt() < 0) && FloatPacking.Stands(b, FloatPacking.Abs(x.AsInt())))
  {
    var i := x.AsInt();
    if i != 0 {
      FloatPacking.SmallIntsExact(i);
    }
    IntIntoFloatHeader(h, x, all);
  }

  /** A float header handed an int or bool packs it with struct.pack('<f'), OverflowError included. */
  lemma IntIntoFloatHeader(h: Header, x: PyValue, all: HeaderDict)
    requires h.hType == FloatType && x.IsInt()
    ensures var p := FloatPacking.PackInt(x.AsInt());
      EncodeHeaderValue(h, Plain(x), all) == if p.Ok? then Ok((p.value, Plain(x))) else Err(p.error)
  {
    assert PackFloat(Plain(x)) == FloatPacking.PackInt(x.AsInt());
  }

  /**
   * A str header reads back its text, unless the text is empty: then the
   * record has length 0, its value is read as None, and decoding it raises
   * AttributeError.
   */
  lemma StrHeaderRoundTrip(h: Header, s: seq<byte>, all: HeaderDict)
    requires h.hType == StrType
    ensures EncodeHeaderValue(h, Plain(PStr(s)), all) == Ok((s, Plain(PStr(s))))
    ensures s != [] ==> DecodeValue(h, Some(s)) == Ok(Plain(PStr(s)))
    ensures DecodeValue(h, None) == Err(AttributeError)
  {
  }

  /**
   * The sample coding reads back the coding it was written with; an unset
   * coding is written as 0xFF, which no coding has, so reading it raises
   * ValueError.
   */
  lemma CodingHeaderRoundTrip(c: SampleCoding, all: HeaderDict)
    ensures EncodeHeaderValue(SAMPLE_CODING, CodingValue(c), all) == Ok(([c.Value()], CodingValue(c)))
    ensures DecodeValue(SAMPLE_CODING, Some([c.Value()])) == Ok(CodingValue(c))
    ensures EncodeHeaderValue(SAMPLE_CODING, Plain(PNone), all) == Ok(([0xFF], Plain(PNone)))
    ensures DecodeValue(SAMPLE_CODING, Some([0xFF])) == Err(ValueError)
  {
  }

  /**
   * The trace-set parameter map is written filled from the other headers
   * and completed with the defaults, stays in the dictionary locked, and
   * reads back as that completed map, unlocked.
   */
  lemma SetParametersRoundTrip(m: SetMaps.SetParameterMap, all: HeaderDict)
    requires EncodeHeaderValue(TRACE_SET_PARAMETERS, SetParams(m), all).Ok?
    requires var stored := EncodeHeaderValue(TRACE_SET_PARAMETERS, SetParams(m), all).value.1;
      stored.SetParams? && SetMaps.Storable(stored.m.entries)
    ensures var (b, stored) := EncodeHeaderValue(TRACE_SET_PARAMETERS, SetParams(m), all).value;
      stored.m.locked && DecodeValue(TRACE_SET_PARAMETERS, Some(b)) == Ok(SetParams(stored.m.(locked := false)))
  {
    var (b, stored) := EncodeHeaderValue(TRACE_SET_PARAMETERS, SetParams(m), all).value;
    assert b[0..|b|] == b;
    SetMaps.SerializeMapRoundTrip(stored.m, b, b, 0, |b|);
  }

  /** The definition map is written as it is, stays in the dictionary locked, and reads back unlocked. */
  lemma DefinitionsRoundTrip(d: Defs.DefinitionMap, all: HeaderDict)
    requires Defs.StorableDefs(d.entries)
    requires EncodeHeaderValue(TRACE_PARAMETER_DEFINITIONS, DefParams(d), all).Ok?
    ensures var (b, stored) := EncodeHeaderValue(TRACE_PARAMETER_DEFINITIONS, DefParams(d), all).value;
      stored == DefParams(d.(locked := true))
      && DecodeValue(TRACE_PARAMETER_DEFINITIONS, Some(b)) == Ok(DefParams(d.(locked := false)))
  {
    var b := EncodeHeaderValue(TRACE_PARAMETER_DEFINITIONS, DefParams(d), all).value.0;
    assert b[0..|b|] == b;
    Defs.SerializeDefMapRoundTrip(d, b, b, 0, |b|);
  }

  /** A record without a value holds an empty parameter map: BytesIO(None) is an empty buffer. */
  lemma EmptyMapRecords()
    ensures DecodeValue(TRACE_SET_PARAMETERS, None) == Ok(SetParams(Lockable([], false)))
    ensures DecodeValue(TRACE_PARAMETER_DEFINITIONS, None) == Ok(DefParams(Lockable([], false)))
  {
    assert Cursor([], 0).ReadShort().1 == 0;
  }
}
