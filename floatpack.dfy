// struct.pack('<f', x) for a Python int x, as trsfile/engine/trs.py packs a
// float header handed an int: the int is converted to the nearest double
// (int.__float__), the double to the nearest single-precision float (ties to
// even both times), and the float laid out as a little-endian IEEE-754 word.
module FloatPacking {
  import opened PyErrors
  import opened PyValues

  function Pow2(n: nat): (r: nat)
    ensures r >= 1
  {
    if n == 0 then 1 else 2 * Pow2(n - 1)
  }

  lemma {:induction false} Pow2Add(a: nat, b: nat)
    ensures Pow2(a + b) == Pow2(a) * Pow2(b)
    decreases a
  {
    if a > 0 {
      Pow2Add(a - 1, b);
    }
  }

  lemma {:induction false} Pow2Monotone(a: nat, b: nat)
    ensures a <= b ==> Pow2(a) <= Pow2(b)
    decreases b
  {
    if a < b {
      Pow2Monotone(a, b - 1);
    }
  }

  /** The number of binary digits of n: n lies in [2^(r-1), 2^r). */
  function BitLength(n: nat): (r: nat)
    ensures n < Pow2(r)
    ensures n > 0 ==> r > 0 && Pow2(r - 1) <= n
    ensures n == 0 <==> r == 0
  {
    if n == 0 then 0 else 1 + BitLength(n / 2)
  }

  function Dist(a: int, b: int): nat
  {
    if a <= b then b - a else a - b
  }

  /** n cut after its lowest k binary digits: the quotient and remainder of n by 2^k. */
  function Split(n: nat, k: nat): (r: (nat, nat))
    ensures n == r.0 * Pow2(k) + r.1 && r.1 < Pow2(k)
  {
    if k == 0 then (n, 0)
    else
      var (q, rem) := Split(n / 2, k - 1);
      assert n / 2 == q * Pow2(k - 1) + rem;
      assert q * Pow2(k) == 2 * (q * Pow2(k - 1));
      (q, 2 * rem + n % 2)
  }

  /**
   * n rounded to p significant binary digits, ties to an even last digit,
   * as (s, k) standing for s * 2^k with s below 2^p (RoundExact, RoundNear).
   */
  function Round(n: nat, p: nat): (r: (nat, nat))
    requires p > 0
    ensures r.0 < Pow2(p)
  {
    var len := BitLength(n);
    if len <= p then
      Pow2Monotone(len, p);
      (n, 0)
    else
      var k := len - p;
      var (q, rem) := Split(n, k);
      var s := if RoundsUp(q, rem, Pow2(k - 1)) then q + 1 else q;
      QuotientBelow(n, p, k);
      if s == Pow2(p) then
        Pow2Monotone(p - 1, p);
        (Pow2(p - 1), k + 1)
      else (s, k)
  }

  /** Round to nearest, ties to even: a remainder above half the unit, or exactly half with an odd quotient, goes up. */
  predicate RoundsUp(q: nat, rem: nat, half: nat)
  {
    rem > half || (rem == half && q % 2 == 1)
  }

  /** The leading p digits of a number of p + k digits form a number below 2^p. */
  lemma QuotientBelow(n: nat, p: nat, k: nat)
    requires BitLength(n) == p + k && p > 0
    ensures Split(n, k).0 < Pow2(p)
  {
    var (q, rem) := Split(n, k);
    Pow2Add(p, k);
    if q >= Pow2(p) {
      MulMono(Pow2(p), q, Pow2(k));
    }
  }

  lemma MulMono(a: nat, b: nat, c: nat)
    requires a <= b
    ensures a * c <= b * c
  {
  }

  /** The value of a rounded (s, k). */
  function Value(r: (nat, nat)): nat
  {
    r.0 * Pow2(r.1)
  }

  /** A number of at most p digits is kept as it is. */
  lemma RoundExact(n: nat, p: nat)
    requires p > 0 && n < Pow2(p)
    ensures Round(n, p) == (n, 0)
  {
    if BitLength(n) > p {
      Pow2Monotone(p, BitLength(n) - 1);
    }
  }

  /** Rounding to p digits moves n by at most n * 2^-p. */
  lemma RoundNear(n: nat, p: nat)
    requires p > 0
    ensures Dist(Value(Round(n, p)), n) * Pow2(p) <= n
  {
    var len := BitLength(n);
    if len > p {
      var k := len - p;
      var (q, rem) := Split(n, k);
      var s := if RoundsUp(q, rem, Pow2(k - 1)) then q + 1 else q;
      ValueOfRound(n, p, k, q, rem, s);
      CutNear(n, p, k, q, rem, s);
      assert Dist(Value(Round(n, p)), n) * Pow2(p) <= n;
    } else {
      assert Round(n, p) == (n, 0);
      assert Value((n, 0)) == n;
      assert Dist(Value(Round(n, p)), n) == 0;
    }
  }

  /** Rounding the quotient of n by 2^k moves n by at most n * 2^-p, for n of p + k digits. */
  lemma CutNear(n: nat, p: nat, k: nat, q: nat, rem: nat, s: nat)
    requires p > 0 && k > 0 && BitLength(n) == p + k && (q, rem) == Split(n, k)
    requires s == if RoundsUp(q, rem, Pow2(k - 1)) then q + 1 else q
    ensures Dist(s * Pow2(k), n) * Pow2(p) <= n
  {
    var h := Pow2(k - 1);
    var u := Pow2(k);
    assert u == 2 * h;
    NearestStep(n, q, rem, h, u, s);
    ScaledHalf(n, p, k, Dist(s * u, n), h);
  }

  /** The value Round gives is the rounded quotient times the unit 2^k, also when it is renormalised. */
  lemma ValueOfRound(n: nat, p: nat, k: nat, q: nat, rem: nat, s: nat)
    requires p > 0 && BitLength(n) == p + k && k > 0 && (q, rem) == Split(n, k)
    requires s == if RoundsUp(q, rem, Pow2(k - 1)) then q + 1 else q
    ensures Value(Round(n, p)) == s * Pow2(k)
  {
    if s == Pow2(p) {
      assert Pow2(p) == 2 * Pow2(p - 1);
      MulAssoc(Pow2(p - 1), 2, Pow2(k));
    }
  }

  /** Rounding the quotient of n by the unit 2h to nearest moves its multiple by at most h. */
  lemma NearestStep(n: nat, q: nat, rem: nat, h: nat, u: nat, s: nat)
    requires u == 2 * h && n == q * u + rem && rem < u
    requires s == if RoundsUp(q, rem, h) then q + 1 else q
    ensures Dist(s * u, n) <= h
  {
    if RoundsUp(q, rem, h) {
      assert (q + 1) * u == q * u + u;
    }
  }

  /** d <= 2^(k-1) and 2^(p+k-1) <= n give d * 2^p <= n. */
  lemma ScaledHalf(n: nat, p: nat, k: nat, d: nat, h: nat)
    requires p > 0 && k > 0 && h == Pow2(k - 1) && d <= h && Pow2(p + k - 1) <= n
    ensures d * Pow2(p) <= n
  {
    MulMono(d, h, Pow2(p));
    Pow2Add(k - 1, p);
    assert k - 1 + p == p + k - 1;
  }

  /** The sign, biased exponent and mantissa fields of a little-endian '<f' word. */
  predicate Negative(w: seq<byte>)
    requires |w| == 4
  {
    w[3] >= 128
  }

  function Exponent(w: seq<byte>): (e: nat)
    requires |w| == 4
    ensures e < 256
  {
    (w[3] as int % 128) * 2 + w[2] as int / 128
  }

  function Mantissa(w: seq<byte>): (m: nat)
    requires |w| == 4
    ensures m < 0x80_0000
  {
    (w[2] as int % 128) * 0x1_0000 + w[1] as int * 0x100 + w[0] as int
  }

  /** The word with the given sign, biased exponent and mantissa. */
  function Word(neg: bool, e: nat, m: nat): (w: seq<byte>)
    requires e < 256 && m < 0x80_0000
    ensures |w| == 4 && Negative(w) == neg && Exponent(w) == e && Mantissa(w) == m
  {
    var lo := m % 0x100;
    var mid := (m / 0x100) % 0x100;
    var hi := m / 0x1_0000;
    var b2 := hi + (e % 2) * 128;
    var b3 := (if neg then 128 else 0) + e / 2;
    WordBytes(m, lo, mid, hi);
    assert b2 % 128 == hi && b2 / 128 == e % 2;
    assert b3 % 128 == e / 2 && (b3 >= 128 <==> neg);
    [lo, mid, b2, b3]
  }

  lemma WordBytes(m: nat, lo: nat, mid: nat, hi: nat)
    requires m < 0x80_0000 && lo == m % 0x100 && mid == (m / 0x100) % 0x100 && hi == m / 0x1_0000
    ensures lo < 0x100 && mid < 0x100 && hi < 128 && m == hi * 0x1_0000 + mid * 0x100 + lo
  {
    var t := m / 0x100;
    assert m == t * 0x100 + lo;
    assert t == hi * 0x100 + mid;
  }

  /**
   * The normal float word w has magnitude v, an integer: its fields give v
   * back as (2^23 + mantissa) * 2^(exponent - 127) with an exponent of at
   * least 127.
   */
  predicate Stands(w: seq<byte>, v: nat)
    requires |w| == 4
  {
    127 <= Exponent(w) <= 254 && (0x80_0000 + Mantissa(w)) * Pow2(Exponent(w) - 127) == v * 0x80_0000
  }

  /**
   * The word of the float s * 2^k, for 0 < s < 2^24 and a value below
   * 2^128: normalised so the leading digit is the hidden bit.
   */
  function NormalWord(neg: bool, s: nat, k: nat): (w: seq<byte>)
    requires 0 < s < Pow2(24) && BitLength(s) + k <= 128
    ensures |w| == 4 && Negative(w) == neg && Stands(w, Value((s, k)))
  {
    var len := BitLength(s);
    LengthAtMost(s, 24);
    var sig := s * Pow2(24 - len);
    NormalBounds(s, k, len);
    var w := Word(neg, len - 1 + k + 127, sig - 0x80_0000);
    StandsOf(w, sig, len - 1 + k, Value((s, k)));
    w
  }

  lemma StandsOf(w: seq<byte>, sig: nat, x: nat, v: nat)
    requires |w| == 4 && Exponent(w) == x + 127 <= 254 && 0x80_0000 + Mantissa(w) == sig
    requires sig * Pow2(x) == v * 0x80_0000
    ensures Stands(w, v)
  {
  }

  lemma LengthAtMost(n: nat, p: nat)
    requires n < Pow2(p)
    ensures BitLength(n) <= p
  {
    var len := BitLength(n);
    if len > 0 {
      Pow2Monotone(p, len - 1);
    }
  }

  lemma Pow2Of23()
    ensures Pow2(23) == 0x80_0000 && Pow2(24) == 0x100_0000
  {
    assert Pow2(4) == 16;
    Pow2Add(4, 4);
    Pow2Add(8, 8);
    Pow2Add(16, 4);
    Pow2Add(20, 3);
    Pow2Add(20, 4);
    assert Pow2(3) == 8;
  }

  lemma NormalBounds(s: nat, k: nat, len: nat)
    requires 0 < s && len == BitLength(s) && len <= 24
    ensures var sig := s * Pow2(24 - len);
      0x80_0000 <= sig < 0x100_0000 && sig * Pow2(len - 1 + k) == Value((s, k)) * 0x80_0000
  {
    var t := Pow2(24 - len);
    Pow2Of23();
    Pow2Add(len - 1, 24 - len);
    Pow2Add(len, 24 - len);
    MulMono(Pow2(len - 1), s, t);
    MulStrict(s, Pow2(len), t);
    Pow2Add(24 - len, len - 1 + k);
    Pow2Add(23, k);
    MulAssoc(s, t, Pow2(len - 1 + k));
    MulAssoc(s, Pow2(k), Pow2(23));
  }

  lemma MulStrict(a: nat, b: nat, c: nat)
    requires a < b && c > 0
    ensures a * c < b * c
  {
  }

  lemma MulAssoc(a: nat, b: nat, c: nat)
    ensures a * b * c == a * (b * c) && a * (b * c) == a * (c * b)
  {
  }

  /** int.__float__ and then the cast to single precision: the int rounded to 53 digits, then to 24. */
  function Rounded(n: nat): (r: (nat, nat))
    ensures r.0 < Pow2(24)
  {
    Round(Value(Round(n, 53)), 24)
  }

  /** Each of the two roundings moves the value by at most its size times 2^-53, then 2^-24. */
  lemma RoundedNear(n: nat)
    ensures var d := Value(Round(n, 53));
      Dist(d, n) * Pow2(53) <= n && Dist(Value(Rounded(n)), d) * Pow2(24) <= d
  {
    RoundNear(n, 53);
    RoundNear(Value(Round(n, 53)), 24);
  }

  function Abs(i: int): nat
  {
    if i < 0 then -i else i
  }

  /**
   * `struct.pack('<f', i)`: +0.0 for zero; OverflowError when the float
   * nearest i would be infinite (2^128 or more); otherwise the normal float
   * with i's sign and the value i rounds to.
   */
  function PackInt(i: int): (r: Result<seq<byte>>)
    ensures r.Ok? ==> |r.value| == 4
    ensures r.Err? ==> r.error == OverflowError
    ensures i == 0 ==> r == Ok([0, 0, 0, 0])
    ensures r.Ok? && i != 0 ==> Negative(r.value) == (i < 0) && Stands(r.value, Value(Rounded(Abs(i))))
  {
    var f := Rounded(Abs(i));
    RoundedZero(Abs(i));
    if f.0 == 0 then Ok([0, 0, 0, 0])
    else if BitLength(f.0) + f.1 > 128 then Err(OverflowError)
    else Ok(NormalWord(i < 0, f.0, f.1))
  }

  /** Zero, and only zero, rounds to zero. */
  lemma RoundedZero(n: nat)
    ensures Rounded(n).0 == 0 <==> n == 0
  {
    if n > 0 {
      RoundPositive(n, 53);
      RoundPositive(Value(Round(n, 53)), 24);
    } else {
      Pow2Monotone(0, 53);
      RoundExact(0, 53);
      assert Value((0, 0)) == 0;
      Pow2Monotone(0, 24);
      RoundExact(0, 24);
    }
  }

  lemma RoundPositive(n: nat, p: nat)
    requires n > 0 && p > 0
    ensures Round(n, p).0 > 0 && Value(Round(n, p)) > 0
  {
    var len := BitLength(n);
    if len > p {
      var k := len - p;
      var (q, rem) := Split(n, k);
      Pow2Add(p - 1, k);
      if q == 0 {
        Pow2Monotone(k, p - 1 + k);
      }
    }
    MulStrict(0, Round(n, p).0, Pow2(Round(n, p).1));
  }

  /** Ints below 2^24 in magnitude pack exactly: the word stands for i itself, its sign included. */
  lemma SmallIntsExact(i: int)
    requires -0x100_0000 < i < 0x100_0000 && i != 0
    ensures PackInt(i).Ok? && Negative(PackInt(i).value) == (i < 0) && Stands(PackInt(i).value, Abs(i))
  {
    var n := Abs(i);
    Pow2Of23();
    Pow2Monotone(24, 53);
    RoundExact(n, 53);
    RoundExact(n, 24);
    assert Rounded(n) == (n, 0);
    LengthAtMost(n, 24);
  }

  /** 2^128, the first int whose nearest float is infinite, is refused with OverflowError. */
  lemma HugeIntOverflows()
    ensures PackInt(Pow2(128)) == Err(OverflowError)
  {
    PowerRounds(128, 53);
    Pow2Add(52, 76);
    PowerRounds(128, 24);
    BitLengthOfPow2(23);
  }

  lemma {:induction false} BitLengthOfPow2(k: nat)
    ensures BitLength(Pow2(k)) == k + 1
  {
    if k > 0 {
      BitLengthOfPow2(k - 1);
      assert Pow2(k) / 2 == Pow2(k - 1);
    }
  }

  /** A power of two 2^e with e >= p is kept, as (2^(p-1), e - p + 1). */
  lemma PowerRounds(e: nat, p: nat)
    requires 0 < p <= e
    ensures Round(Pow2(e), p) == (Pow2(p - 1), e - p + 1)
  {
    BitLengthOfPow2(e);
    var k := e + 1 - p;
    Pow2Add(p - 1, k);
    SplitExact(Pow2(p - 1), k);
    Pow2Monotone(p - 1, p);
    assert Pow2(p) == 2 * Pow2(p - 1);
  }

  /** a * 2^k splits into a and nothing. */
  lemma {:induction false} SplitExact(a: nat, k: nat)
    ensures Split(a * Pow2(k), k) == (a, 0)
  {
    if k > 0 {
      var x := a * Pow2(k - 1);
      assert a * Pow2(k) == 2 * x;
      SplitExact(a, k - 1);
    }
  }
}
