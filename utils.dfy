// trsfile/utils.py: little-endian integer codecs and the BytesIO cursor the
// deserializers consume.
module Utils {
  import opened PyErrors
  import opened PyValues

  function Pow256(n: nat): (r: nat)
    ensures r >= 1
  {
    if n == 0 then 1 else 256 * Pow256(n - 1)
  }

  /** The UTF-8 bytes of a string literal of ASCII characters. */
  function Ascii(s: string): (r: seq<byte>)
    ensures |r| == |s| && forall i :: 0 <= i < |s| ==> r[i] == s[i] as int % 256
  {
    seq(|s|, i requires 0 <= i < |s| => s[i] as int % 256)
  }

  /** The n-byte little-endian word holding v modulo 256^n. */
  function ToLE(v: nat, n: nat): (r: seq<byte>)
    ensures |r| == n
  {
    if n == 0 then [] else [v % 256] + ToLE(v / 256, n - 1)
  }

  /** `int.from_bytes(s, 'little')`: the unsigned little-endian value of s. */
  function FromLE(s: seq<byte>): (r: nat)
    ensures r < Pow256(|s|)
  {
    if s == [] then 0 else s[0] + 256 * FromLE(s[1..])
  }

  lemma {:induction false} FromLEOfToLE(v: nat, n: nat)
    requires v < Pow256(n)
    ensures FromLE(ToLE(v, n)) == v
  {
    if n > 0 {
      assert v / 256 < Pow256(n - 1);
      FromLEOfToLE(v / 256, n - 1);
      assert ToLE(v, n)[1..] == ToLE(v / 256, n - 1);
    }
  }

  lemma {:induction false} ToLEOfFromLE(s: seq<byte>)
    ensures ToLE(FromLE(s), |s|) == s
  {
    if s != [] {
      var u := FromLE(s[1..]);
      assert (s[0] + 256 * u) % 256 == s[0];
      assert (s[0] + 256 * u) / 256 == u;
      ToLEOfFromLE(s[1..]);
    }
  }

  /** `int.to_bytes(v, n, 'little')`, which refuses negative values and values that need more than n bytes. */
  function ToBytes(v: int, n: nat): (r: Result<seq<byte>>)
    ensures r.Ok? <==> 0 <= v < Pow256(n)
    ensures r.Ok? ==> |r.value| == n && FromLE(r.value) == v
    ensures r.Err? ==> r.error == OverflowError
  {
    if 0 <= v < Pow256(n) then
      FromLEOfToLE(v, n);
      Ok(ToLE(v, n))
    else
      Err(OverflowError)
  }

  lemma FromLETwo(b: seq<byte>)
    requires |b| == 2
    ensures FromLE(b) == U16(b[0], b[1])
  {
    assert FromLE(b[1..]) == b[1] + 256 * FromLE(b[2..]);
  }

  /** Half the range of an n-byte word: the bound of the signed struct formats. */
  function SignedBound(n: nat): (h: int)
    requires n > 0
    ensures h > 0 && Pow256(n) == 2 * h
  {
    assert Pow256(n) == 256 * Pow256(n - 1);
    Pow256(n) / 2
  }

  /** `struct.pack('<h' / '<i' / '<q', v)` for an n-byte format: two's complement, or struct.error when out of range. */
  function PackSigned(v: int, n: nat): (r: Result<seq<byte>>)
    requires n > 0
    ensures r.Ok? <==> -SignedBound(n) <= v < SignedBound(n)
    ensures r.Err? ==> r.error == StructError
    ensures r.Ok? ==> |r.value| == n && FromLE(r.value) == if v >= 0 then v else v + Pow256(n)
  {
    if -SignedBound(n) <= v < SignedBound(n) then
      var u := if v >= 0 then v else v + Pow256(n);
      FromLEOfToLE(u, n);
      Ok(ToLE(u, n))
    else
      Err(StructError)
  }

  /** `struct.unpack` of a signed little-endian word. */
  function UnpackSigned(s: seq<byte>): (v: int)
    requires |s| > 0
    ensures -SignedBound(|s|) <= v < SignedBound(|s|)
  {
    var u := FromLE(s);
    if u < SignedBound(|s|) then u else u - Pow256(|s|)
  }

  lemma UnpackPackSigned(v: int, n: nat)
    requires n > 0 && -SignedBound(n) <= v < SignedBound(n)
    ensures PackSigned(v, n).Ok? && UnpackSigned(PackSigned(v, n).value) == v
  {
  }

  lemma {:induction false} PackUnpackSigned(s: seq<byte>)
    requires |s| > 0
    ensures PackSigned(UnpackSigned(s), |s|) == Ok(s)
  {
    ToLEOfFromLE(s);
  }

  /** The unsigned value of a little-endian byte pair. */
  function U16(lo: byte, hi: byte): (v: int)
  {
    lo + 256 * hi
  }

  /** utils.encode_as_short: the two bytes of `struct.pack('<h', v)`. */
  function EncodeAsShort(v: int): (r: Result<seq<byte>>)
    ensures r.Ok? <==> -32768 <= v <= 32767
    ensures r.Err? ==> r.error == StructError
    ensures r.Ok? ==> |r.value| == 2 && U16(r.value[0], r.value[1]) == if v >= 0 then v else v + 65536
  {
    assert Pow256(2) == 65536;
    var r := PackSigned(v, 2);
    if r.Ok? then FromLETwo(r.value); r else r
  }

  /** The state of a BytesIO object that is only read and sought. */
  datatype Cursor = Cursor(data: seq<byte>, pos: nat)
  {
    /** `read(n)`: at most n bytes, fewer at the end of the buffer, and the position moves past them. */
    function Read(n: nat): (r: (Cursor, seq<byte>))
      ensures r.0.data == data && r.0.pos == pos + |r.1| && |r.1| <= n
      ensures pos + n <= |data| ==> r.1 == data[pos..pos + n]
      ensures pos + n > |data| ==> r.1 == if pos < |data| then data[pos..] else []
    {
      if pos >= |data| then (this, [])
      else if pos + n <= |data| then (Cursor(data, pos + n), data[pos..pos + n])
      else (Cursor(data, |data|), data[pos..])
    }

    /** `read(1)[0]`, which raises IndexError on an empty read. */
    function ReadByte(): (r: Result<(Cursor, byte)>)
      ensures r.Ok? <==> pos < |data|
      ensures r.Ok? ==> r.value == (Cursor(data, pos + 1), data[pos])
      ensures r.Err? ==> r.error == IndexError
    {
      var (c, b) := Read(1);
      if |b| == 0 then Err(IndexError) else Ok((c, b[0]))
    }

    /** utils.read_short: the unsigned value of the next two bytes, or of fewer at the end. */
    function ReadShort(): (r: (Cursor, nat))
      ensures r.1 < 65536 && r.0.data == data
      ensures pos + 2 <= |data| ==> r == (Cursor(data, pos + 2), U16(data[pos], data[pos + 1]))
    {
      var (c, b) := Read(2);
      assert Pow256(|b|) <= 65536;
      if |b| == 2 then FromLETwo(b); (c, FromLE(b)) else (c, FromLE(b))
    }

    /** utils.read_parameter_name: a u16 length n, then n bytes of UTF-8. */
    function ReadParameterName(): (r: (Cursor, seq<byte>))
      ensures r.0.data == data
      ensures pos + 2 <= |data| ==>
        var n := U16(data[pos], data[pos + 1]);
        pos + 2 + n <= |data| ==> r == (Cursor(data, pos + 2 + n), data[pos + 2..pos + 2 + n])
    {
      var (c, n) := ReadShort();
      c.Read(n)
    }
  }

  /** A short written by encode_as_short reads back through read_short, negatives 65536 higher. */
  lemma {:induction false} ReadShortOfEncodeAsShort(v: int, pre: seq<byte>, rest: seq<byte>)
    requires -32768 <= v <= 32767
    ensures var b := EncodeAsShort(v).value;
      Cursor(pre + b + rest, |pre|).ReadShort() == (Cursor(pre + b + rest, |pre| + 2), if v >= 0 then v else v + 65536)
  {
    var b := EncodeAsShort(v).value;
    assert (pre + b + rest)[|pre|] == b[0] && (pre + b + rest)[|pre| + 1] == b[1];
  }

  /** The chunks one after the other. */
  function Flatten(bs: seq<seq<byte>>): (r: seq<byte>)
  {
    if bs == [] then [] else Flatten(bs[..|bs| - 1]) + bs[|bs| - 1]
  }

  /** The chunks before the i-th are a prefix of all of them. */
  lemma {:induction false} FlattenPrefix(bs: seq<seq<byte>>, i: nat)
    requires i <= |bs|
    ensures |Flatten(bs[..i])| <= |Flatten(bs)| && Flatten(bs)[..|Flatten(bs[..i])|] == Flatten(bs[..i])
    decreases |bs| - i
  {
    if i == |bs| {
      assert bs[..i] == bs;
    } else {
      var front := bs[..|bs| - 1];
      assert bs[..i] == front[..i];
      FlattenPrefix(front, i);
    }
  }

  /** A buffer holding s at p holds each slice of s at the matching place. */
  lemma SubSegment(data: seq<byte>, p: nat, s: seq<byte>, i: nat, j: nat)
    requires p + |s| <= |data| && data[p..p + |s|] == s && i <= j <= |s|
    ensures data[p + i..p + j] == s[i..j]
  {
    var t, u := data[p + i..p + j], s[i..j];
    assert forall k :: 0 <= k < |t| ==> t[k] == u[k];
  }

  /** A buffer holding whole == a + b at p holds a at p and b right after it. */
  lemma SplitSegment(data: seq<byte>, p: nat, whole: seq<byte>, a: seq<byte>, b: seq<byte>)
    requires whole == a + b && p + |whole| <= |data| && data[p..p + |whole|] == whole
    ensures p + |a| + |b| == p + |whole|
    ensures data[p..p + |a|] == a && data[p + |a|..p + |whole|] == b
  {
    SubSegment(data, p, whole, 0, |a|);
    SubSegment(data, p, whole, |a|, |whole|);
    assert whole[..|a|] == a && whole[|a|..] == b;
  }

  /** Where a two-byte count and a body sit one after the other, read_short reads the count and the body follows. */
  lemma ShortThenBody(data: seq<byte>, p: nat, whole: seq<byte>, count: seq<byte>, body: seq<byte>)
    requires whole == count + body && |count| == 2 && p + |whole| <= |data| && data[p..p + |whole|] == whole
    ensures Cursor(data, p).ReadShort() == (Cursor(data, p + 2), U16(count[0], count[1]))
    ensures p + 2 + |body| == p + |whole| && data[p + 2..p + |whole|] == body
  {
    SplitSegment(data, p, whole, count, body);
    assert data[p..p + 2][0] == data[p] && data[p..p + 2][1] == data[p + 1];
  }

  /** Where a three-byte header and a body sit one after the other, the header's bytes come first and the body right after them. */
  lemma HeaderThenBody(data: seq<byte>, p: nat, whole: seq<byte>, head: seq<byte>, body: seq<byte>)
    requires whole == head + body && |head| == 3 && p + |whole| <= |data| && data[p..p + |whole|] == whole
    ensures p + 3 <= |data| && data[p] == head[0] && data[p + 1] == head[1] && data[p + 2] == head[2]
    ensures p + 3 + |body| == p + |whole| && data[p + 3..p + |whole|] == body
  {
    SplitSegment(data, p, whole, head, body);
    assert data[p..p + 3][0] == data[p] && data[p..p + 3][1] == data[p + 1] && data[p..p + 3][2] == data[p + 2];
  }

  /** A buffer holding b at p is what comes before, then b, then what follows. */
  lemma SplitAt(data: seq<byte>, p: nat, b: seq<byte>)
    requires p + |b| <= |data| && data[p..p + |b|] == b
    ensures data == data[..p] + b + data[p + |b|..]
  {
    assert data == data[..p] + data[p..p + |b|] + data[p + |b|..];
  }

  /** A name written as its u16 length and its bytes reads back through read_parameter_name. */
  lemma ReadParameterNameAt(name: seq<byte>, len: seq<byte>, whole: seq<byte>, data: seq<byte>, p: nat)
    requires EncodeAsShort(|name|) == Ok(len) && whole == len + name
    requires p + |whole| <= |data| && data[p..p + |whole|] == whole
    ensures Cursor(data, p).ReadParameterName() == (Cursor(data, p + |whole|), name)
  {
    ShortThenBody(data, p, whole, len, name);
  }

  /** An io.BytesIO over a byte buffer: the buffer and the read position. */
  class BytesIO {
    const data: seq<byte>
    var pos: nat

    function State(): Cursor
      reads this
    {
      Cursor(data, pos)
    }

    constructor (raw: seq<byte>)
      ensures State() == Cursor(raw, 0)
    {
      data := raw;
      pos := 0;
    }

    method Read(n: nat) returns (r: seq<byte>)
      modifies this
      ensures (State(), r) == old(State()).Read(n)
    {
      if pos >= |data| {
        r := [];
      } else if pos + n <= |data| {
        r := data[pos..pos + n];
        pos := pos + n;
      } else {
        r := data[pos..];
        pos := |data|;
      }
    }

    method Seek(p: nat)
      modifies this
      ensures State() == Cursor(old(State()).data, p)
    {
      pos := p;
    }

    /** utils.read_short */
    method ReadShort() returns (v: nat)
      modifies this
      ensures (State(), v) == old(State()).ReadShort()
    {
      var b := Read(2);
      v := FromLE(b);
    }

    /** utils.read_parameter_name */
    method ReadParameterName() returns (name: seq<byte>)
      modifies this
      ensures (State(), name) == old(State()).ReadParameterName()
    {
      var n := ReadShort();
      name := Read(n);
    }

    /** `read(1)[0]` */
    method ReadByte() returns (r: Result<byte>)
      modifies this
      ensures var s := old(State()).ReadByte();
        if s.Ok? then r == Ok(s.value.1) && State() == s.value.0 else r == Err(IndexError) && State() == old(State())
    {
      var b := Read(1);
      if |b| == 0 {
        r := Err(IndexError);
      } else {
        r := Ok(b[0]);
      }
    }
  }
}
