// The dynamically typed Python values that callers hand to the parameter
// constructors, the parameter maps and the header dictionary.
module PyValues {

  type byte = x: int | 0 <= x < 256

  /**
   * A Python value as far as the library inspects it.  Strings are held as
   * their UTF-8 encoding; a float is held as its packed IEEE-754 word (four
   * bytes where the library packs it with '<f', eight where it packs '<d').
   * `PBytes` stands for both `bytes` and `bytearray`.
   */
  datatype PyValue =
    | PNone
    | PBool(b: bool)
    | PInt(i: int)
    | PFloat(bits: seq<byte>)
    | PStr(utf8: seq<byte>)
    | PBytes(data: seq<byte>)
    | PList(elems: seq<PyValue>)
  {
    /** `isinstance(v, int)`: a bool is an int in Python. */
    predicate IsInt() { PInt? || PBool? }

    /** The integer a Python int or bool stands for. */
    function AsInt(): int
      requires IsInt()
    {
      if PInt? then i else if b then 1 else 0
    }

    /** Python truthiness of the scalar values the library packs with '<?'. */
    predicate Truthy()
    {
      match this
      case PNone => false
      case PBool(b) => b
      case PInt(i) => i != 0
      case PFloat(w) => !IsZero(w)
      case PStr(s) => s != []
      case PBytes(d) => d != []
      case PList(e) => e != []
    }
  }

  /** A packed float word that is zero or negative zero: every bit but the sign (the top bit of the last byte) is clear. */
  predicate IsZero(w: seq<byte>)
  {
    forall k :: 0 <= k < |w| ==> (if k == |w| - 1 then w[k] % 128 else w[k]) == 0
  }

  /**
   * A packed float word that is a NaN: all exponent bits set and a mantissa
   * that is not zero (8 exponent bits in a little-endian '<f' word, 11 in a
   * '<d' word).
   */
  predicate IsNaN(w: seq<byte>)
  {
    if |w| == 4 then
      w[3] % 128 == 0x7F && w[2] >= 0x80 && (w[2] % 128 != 0 || w[1] != 0 || w[0] != 0)
    else if |w| == 8 then
      w[7] % 128 == 0x7F && w[6] >= 0xF0
      && (w[6] % 16 != 0 || w[5] != 0 || w[4] != 0 || w[3] != 0 || w[2] != 0 || w[1] != 0 || w[0] != 0)
    else false
  }

  /** Python's `==` on two floats of the same width: a NaN equals nothing, zero equals negative zero, any other value only itself. */
  predicate FloatEq(a: seq<byte>, b: seq<byte>)
  {
    !IsNaN(a) && !IsNaN(b) && (a == b || (IsZero(a) && IsZero(b)))
  }

  /** The word with a zero of either sign replaced by +0.0: the value == sees. */
  function CanonZero(w: seq<byte>): (r: seq<byte>)
    ensures |r| == |w|
  {
    if IsZero(w) then seq(|w|, _ => 0) else w
  }

  /** Float equality is: not a NaN, and the same word once zeros are made +0.0. */
  lemma FloatEqCanon(x: seq<byte>, y: seq<byte>)
    requires |x| == |y|
    ensures FloatEq(x, y) <==> !IsNaN(x) && CanonZero(x) == CanonZero(y)
  {
    var z: seq<byte> := seq(|x|, _ => 0);
    assert IsZero(z);
    if |x| == 4 || |x| == 8 {
      assert !IsNaN(z) by {
        assert z[|x| - 1] == 0;
      }
    }
  }

  /** Python's float equality is not the equality of the packed words: 0.0 == -0.0, and a NaN is not equal to itself. */
  lemma FloatEqNotIdentity()
    ensures FloatEq([0, 0, 0, 0], [0, 0, 0, 0x80])
    ensures !FloatEq([0, 0, 0xC0, 0x7F], [0, 0, 0xC0, 0x7F])
  {
    assert IsZero([0, 0, 0, 0x80]) by {
      var w: seq<byte> := [0, 0, 0, 0x80];
      assert w[3] % 128 == 0;
    }
  }
}
