// trsfile/traceparameter.py: the closed family of trace parameter values,
// their construction checks, byte codecs, length and equality; the
// ParameterType table; and the 5-byte TraceParameterDefinition codec.
module TraceParameters {
  import opened PyErrors
  import opened PyValues
  import opened Utils

  const SHORT_MIN: int := -0x8000
  const SHORT_MAX: int := 0x7FFF
  const INT_MIN: int := -0x8000_0000
  const INT_MAX: int := 0x7FFF_FFFF

  type Word4 = w: seq<byte> | |w| == 4 witness [0, 0, 0, 0]
  type Word8 = w: seq<byte> | |w| == 8 witness [0, 0, 0, 0, 0, 0, 0, 0]

  /** ParameterType: the tag written to a file and the width of one element. */
  datatype ParameterType = BYTE | SHORT | INT | FLOAT | LONG | DOUBLE | STRING | BOOL
  {
    function Tag(): byte
    {
      match this
      case BYTE => 0x01
      case SHORT => 0x02
      case INT => 0x04
      case FLOAT => 0x14
      case LONG => 0x08
      case DOUBLE => 0x18
      case STRING => 0x20
      case BOOL => 0x31
    }

    function ByteSize(): nat
    {
      match this
      case BYTE => 1
      case SHORT => 2
      case INT => 4
      case FLOAT => 4
      case LONG => 8
      case DOUBLE => 8
      case STRING => 1
      case BOOL => 1
    }

    /** `param_class`: the parameter class that holds values of this type. */
    function ParamClass(): ParamClass
    {
      match this
      case BYTE => ByteArrayParameter
      case SHORT => ShortArrayParameter
      case INT => IntegerArrayParameter
      case FLOAT => FloatArrayParameter
      case LONG => LongArrayParameter
      case DOUBLE => DoubleArrayParameter
      case STRING => StringParameter
      case BOOL => BooleanArrayParameter
    }
  }

  /** The parameter types in declaration order. */
  const ParameterTypes: seq<ParameterType> := [BYTE, SHORT, INT, FLOAT, LONG, DOUBLE, STRING, BOOL]

  /** The Python classes `from_class` can be handed: the eight parameter classes or any other class. */
  datatype ParamClass =
    | ByteArrayParameter | ShortArrayParameter | IntegerArrayParameter | FloatArrayParameter
    | LongArrayParameter | DoubleArrayParameter | StringParameter | BooleanArrayParameter
    | OtherClass

  /** `ParameterType(tag)`: the member with that tag, ValueError for any other value. */
  function FromTag(t: int): (r: Result<ParameterType>)
    ensures r.Ok? ==> r.value.Tag() == t
    ensures r.Err? ==> r.error == ValueError && forall pt: ParameterType :: pt.Tag() != t
  {
    if t == 0x01 then Ok(BYTE)
    else if t == 0x02 then Ok(SHORT)
    else if t == 0x04 then Ok(INT)
    else if t == 0x14 then Ok(FLOAT)
    else if t == 0x08 then Ok(LONG)
    else if t == 0x18 then Ok(DOUBLE)
    else if t == 0x20 then Ok(STRING)
    else if t == 0x31 then Ok(BOOL)
    else Err(ValueError)
  }

  /** ParameterType.from_class: the first member, in declaration order, whose class is c. */
  function FromClass(c: ParamClass): (r: Result<ParameterType>)
    ensures r.Ok? ==> r.value.ParamClass() == c
    ensures r.Err? <==> c == OtherClass
    ensures r.Err? ==> r.error == TypeError
  {
    FindClass(ParameterTypes, c)
  }

  function FindClass(ts: seq<ParameterType>, c: ParamClass): (r: Result<ParameterType>)
    ensures r.Ok? ==> r.value.ParamClass() == c && r.value in ts
    ensures r.Err? ==> r.error == TypeError && forall t :: t in ts ==> t.ParamClass() != c
  {
    if ts == [] then Err(TypeError)
    else if ts[0].ParamClass() == c then Ok(ts[0])
    else FindClass(ts[1..], c)
  }

  lemma FromTagOfTag(t: ParameterType)
    ensures FromTag(t.Tag() as int) == Ok(t)
  {
  }

  lemma FromClassOfParamClass(t: ParameterType)
    ensures FromClass(t.ParamClass()) == Ok(t)
  {
    assert t in ParameterTypes by {
      match t
      case BYTE => assert ParameterTypes[0] == t;
      case SHORT => assert ParameterTypes[1] == t;
      case INT => assert ParameterTypes[2] == t;
      case FLOAT => assert ParameterTypes[3] == t;
      case LONG => assert ParameterTypes[4] == t;
      case DOUBLE => assert ParameterTypes[5] == t;
      case STRING => assert ParameterTypes[6] == t;
      case BOOL => assert ParameterTypes[7] == t;
    }
    FindClassOfMember(ParameterTypes, t);
  }

  /** Distinct parameter types have distinct classes. */
  lemma ParamClassInjective(a: ParameterType, b: ParameterType)
    requires a.ParamClass() == b.ParamClass()
    ensures a == b
  {
  }

  lemma {:induction false} FindClassOfMember(ts: seq<ParameterType>, t: ParameterType)
    requires t in ts
    ensures FindClass(ts, t.ParamClass()) == Ok(t)
  {
    if ts[0].ParamClass() == t.ParamClass() {
      ParamClassInjective(ts[0], t);
    } else {
      FindClassOfMember(ts[1..], t);
    }
  }

  /** An instance of one of the eight TraceParameter classes, holding its value list. */
  datatype TraceParameter =
    | BoolArray(bools: seq<bool>)
    | ByteArray(bytes: seq<byte>)
    | ShortArray(shorts: seq<int>)
    | IntArray(ints: seq<int>)
    | LongArray(longs: seq<int>)
    | FloatArray(floats: seq<Word4>)
    | DoubleArray(doubles: seq<Word8>)
    | StringParam(utf8: seq<byte>)
  {
    /** `ParameterType.from_class(type(p))` */
    function Type(): ParameterType
    {
      match this
      case BoolArray(_) => BOOL
      case ByteArray(_) => BYTE
      case ShortArray(_) => SHORT
      case IntArray(_) => INT
      case LongArray(_) => LONG
      case FloatArray(_) => FLOAT
      case DoubleArray(_) => DOUBLE
      case StringParam(_) => STRING
    }

    /** `len(p)`: the element count; for a string the count of its UTF-8 bytes. */
    function Len(): nat
    {
      match this
      case BoolArray(bs) => |bs|
      case ByteArray(b) => |b|
      case ShortArray(xs) => |xs|
      case IntArray(xs) => |xs|
      case LongArray(xs) => |xs|
      case FloatArray(ws) => |ws|
      case DoubleArray(ws) => |ws|
      case StringParam(s) => |s|
    }

    /**
     * What the constructor guarantees of every instance: list values are
     * non-empty (a ByteArray built from `bytes` may be empty) and Short and
     * Integer elements are within their ranges.
     */
    ghost predicate WellFormed()
    {
      match this
      case BoolArray(bs) => bs != []
      case ByteArray(_) => true
      case ShortArray(xs) => xs != [] && forall k :: 0 <= k < |xs| ==> SHORT_MIN <= xs[k] <= SHORT_MAX
      case IntArray(xs) => xs != [] && forall k :: 0 <= k < |xs| ==> INT_MIN <= xs[k] <= INT_MAX
      case LongArray(xs) => xs != []
      case FloatArray(ws) => ws != []
      case DoubleArray(ws) => ws != []
      case StringParam(_) => true
    }
  }

  lemma TypeMatchesClass(p: TraceParameter)
    ensures FromClass(p.Type().ParamClass()) == Ok(p.Type())
  {
    FromClassOfParamClass(p.Type());
  }

  // ---------------------------------------------------------------------
  // Construction: TraceParameter.__init__ and each class's _has_expected_type

  predicate AllInts(vs: seq<PyValue>, lo: int, hi: int)
  {
    forall k :: 0 <= k < |vs| ==> vs[k].IsInt() && lo <= vs[k].AsInt() <= hi
  }

  predicate AllFloats(vs: seq<PyValue>, width: nat)
  {
    forall k :: 0 <= k < |vs| ==> vs[k].PFloat? && |vs[k].bits| == width
  }

  /**
   * `_has_expected_type` of the class of t.  Integers are Python ints, bools
   * included; a float list accepts floats whose packed word has the width
   * of the type.
   */
  predicate HasExpectedType(t: ParameterType, v: PyValue)
  {
    match t
    case BOOL => v.PList? && forall k :: 0 <= k < |v.elems| ==> v.elems[k].PBool?
    case BYTE => v.PBytes? || (v.PList? && AllInts(v.elems, 0, 255))
    case SHORT => v.PList? && AllInts(v.elems, SHORT_MIN, SHORT_MAX)
    case INT => v.PList? && AllInts(v.elems, INT_MIN, INT_MAX)
    case LONG => v.PList? && forall k :: 0 <= k < |v.elems| ==> v.elems[k].IsInt()
    case FLOAT => v.PList? && AllFloats(v.elems, 4)
    case DOUBLE => v.PList? && AllFloats(v.elems, 8)
    case STRING => v.PStr?
  }

  function IntsOf(vs: seq<PyValue>): (xs: seq<int>)
    requires forall k :: 0 <= k < |vs| ==> vs[k].IsInt()
    ensures |xs| == |vs| && forall k :: 0 <= k < |vs| ==> xs[k] == vs[k].AsInt()
  {
    if vs == [] then [] else [vs[0].AsInt()] + IntsOf(vs[1..])
  }

  function BytesOf(vs: seq<PyValue>): (bs: seq<byte>)
    requires AllInts(vs, 0, 255)
    ensures |bs| == |vs| && forall k :: 0 <= k < |vs| ==> bs[k] == vs[k].AsInt()
  {
    if vs == [] then [] else [vs[0].AsInt() as byte] + BytesOf(vs[1..])
  }

  function BoolsOf(vs: seq<PyValue>): (bs: seq<bool>)
    requires forall k :: 0 <= k < |vs| ==> vs[k].PBool?
    ensures |bs| == |vs| && forall k :: 0 <= k < |vs| ==> bs[k] == vs[k].b
  {
    if vs == [] then [] else [vs[0].b] + BoolsOf(vs[1..])
  }

  function Words4Of(vs: seq<PyValue>): (ws: seq<Word4>)
    requires AllFloats(vs, 4)
    ensures |ws| == |vs| && forall k :: 0 <= k < |vs| ==> ws[k] == vs[k].bits
  {
    if vs == [] then [] else [vs[0].bits] + Words4Of(vs[1..])
  }

  function Words8Of(vs: seq<PyValue>): (ws: seq<Word8>)
    requires AllFloats(vs, 8)
    ensures |ws| == |vs| && forall k :: 0 <= k < |vs| ==> ws[k] == vs[k].bits
  {
    if vs == [] then [] else [vs[0].bits] + Words8Of(vs[1..])
  }

  /** The value v is None or an empty list: the constructor's ValueError. */
  predicate IsEmptyValue(v: PyValue)
  {
    v.PNone? || v == PList([])
  }

  /** The number of elements a constructed parameter holds for an accepted value. */
  function ValueLength(v: PyValue): nat
  {
    match v
    case PList(e) => |e|
    case PStr(s) => |s|
    case PBytes(d) => |d|
    case _ => 0
  }

  /** `param_class(v)` for the class of type t. */
  function Construct(t: ParameterType, v: PyValue): (r: Result<TraceParameter>)
    ensures IsEmptyValue(v) ==> r == Err(ValueError)
    ensures !IsEmptyValue(v) && !HasExpectedType(t, v) ==> r == Err(TypeError)
    ensures r.Ok? <==> !IsEmptyValue(v) && HasExpectedType(t, v)
    ensures r.Ok? ==> r.value.Type() == t && r.value.WellFormed() && r.value.Len() == ValueLength(v)
  {
    if IsEmptyValue(v) then Err(ValueError)
    else if !HasExpectedType(t, v) then Err(TypeError)
    else
      match t
      case BOOL => Ok(BoolArray(BoolsOf(v.elems)))
      case BYTE => Ok(ByteArray(if v.PBytes? then v.data else BytesOf(v.elems)))
      case SHORT => Ok(ShortArray(IntsOf(v.elems)))
      case INT => Ok(IntArray(IntsOf(v.elems)))
      case LONG => Ok(LongArray(IntsOf(v.elems)))
      case FLOAT => Ok(FloatArray(Words4Of(v.elems)))
      case DOUBLE => Ok(DoubleArray(Words8Of(v.elems)))
      case STRING => Ok(StringParam(v.utf8))
  }

  // ---------------------------------------------------------------------
  // Equality: TraceParameter.__eq__, ByteArrayParameter.__eq__, StringParameter.__eq__

  /** Element-wise equality of two equally long lists, as `all(a == b for a, b in zip(...))`. */
  predicate AllEqual<T(==)>(a: seq<T>, b: seq<T>)
    requires |a| == |b|
  {
    forall k :: 0 <= k < |a| ==> a[k] == b[k]
  }

  /** `p == q`: q is an instance of p's class and their values agree element by element. */
  predicate Equal(p: TraceParameter, q: TraceParameter)
  {
    match (p, q)
    case (BoolArray(a), BoolArray(b)) => |a| == |b| && AllEqual(a, b)
    case (ByteArray(a), ByteArray(b)) => a == b
    case (ShortArray(a), ShortArray(b)) => |a| == |b| && AllEqual(a, b)
    case (IntArray(a), IntArray(b)) => |a| == |b| && AllEqual(a, b)
    case (LongArray(a), LongArray(b)) => |a| == |b| && AllEqual(a, b)
    case (FloatArray(a), FloatArray(b)) => |a| == |b| && AllFloatEq(a, b)
    case (DoubleArray(a), DoubleArray(b)) => |a| == |b| && AllFloatEq(a, b)
    case (StringParam(a), StringParam(b)) => a == b
    case _ => false
  }

  /** Element-wise float equality of two equally long lists of packed words. */
  predicate AllFloatEq(a: seq<seq<byte>>, b: seq<seq<byte>>)
    requires |a| == |b|
  {
    forall k :: 0 <= k < |a| ==> FloatEq(a[k], b[k])
  }

  /** Whether a FLOAT or DOUBLE parameter holds a NaN. */
  predicate HasNaN(p: TraceParameter)
  {
    match p
    case FloatArray(a) => exists k :: 0 <= k < |a| && IsNaN(a[k])
    case DoubleArray(a) => exists k :: 0 <= k < |a| && IsNaN(a[k])
    case _ => false
  }

  /** The parameter with every float zero made +0.0. */
  function Canonical(p: TraceParameter): (r: TraceParameter)
    ensures r.Type() == p.Type() && r.Len() == p.Len()
  {
    match p
    case FloatArray(a) => FloatArray(seq(|a|, k requires 0 <= k < |a| => CanonZero(a[k])))
    case DoubleArray(a) => DoubleArray(seq(|a|, k requires 0 <= k < |a| => CanonZero(a[k])))
    case _ => p
  }

  /**
   * Parameter equality is equality of class and contents, where the
   * contents are compared as Python compares floats: no NaN, and a zero of
   * either sign counted as +0.0.
   */
  lemma EqualIsIdentity(p: TraceParameter, q: TraceParameter)
    ensures Equal(p, q) <==> !HasNaN(p) && Canonical(p) == Canonical(q)
  {
    match (p, q)
    case (FloatArray(a), FloatArray(b)) => CanonWords(a, b, 4);
    case (DoubleArray(a), DoubleArray(b)) => CanonWords(a, b, 8);
    case (BoolArray(a), BoolArray(b)) =>
      if Equal(p, q) { assert a == b; }
    case (ShortArray(a), ShortArray(b)) =>
      if Equal(p, q) { assert a == b; }
    case (IntArray(a), IntArray(b)) =>
      if Equal(p, q) { assert a == b; }
    case (LongArray(a), LongArray(b)) =>
      if Equal(p, q) { assert a == b; }
    case _ =>
  }

  /** Element-wise float equality of two lists, as NaN-freedom and equality of the lists with zeros made +0.0. */
  lemma CanonWords(a: seq<seq<byte>>, b: seq<seq<byte>>, width: nat)
    requires forall k :: 0 <= k < |a| ==> |a[k]| == width
    requires forall k :: 0 <= k < |b| ==> |b[k]| == width
    ensures (|a| == |b| && AllFloatEq(a, b)) <==>
      (!exists k :: 0 <= k < |a| && IsNaN(a[k]))
      && seq(|a|, k requires 0 <= k < |a| => CanonZero(a[k])) == seq(|b|, k requires 0 <= k < |b| => CanonZero(b[k]))
  {
    var ca := seq(|a|, k requires 0 <= k < |a| => CanonZero(a[k]));
    var cb := seq(|b|, k requires 0 <= k < |b| => CanonZero(b[k]));
    if |a| == |b| {
      forall k | 0 <= k < |a|
        ensures FloatEq(a[k], b[k]) <==> !IsNaN(a[k]) && ca[k] == cb[k]
      {
        FloatEqCanon(a[k], b[k]);
      }
    }
  }

  /** A FloatArrayParameter holding a NaN is not equal to itself, and [0.0] equals [-0.0]. */
  lemma FloatParametersNotIdentity()
    ensures !Equal(FloatArray([[0, 0, 0xC0, 0x7F]]), FloatArray([[0, 0, 0xC0, 0x7F]]))
    ensures Equal(FloatArray([[0, 0, 0, 0]]), FloatArray([[0, 0, 0, 0x80]]))
  {
    FloatEqNotIdentity();
    var nan: seq<seq<byte>> := [[0, 0, 0xC0, 0x7F]];
    assert !FloatEq(nan[0], nan[0]);
  }

  lemma EqualNeedsSameType(p: TraceParameter, q: TraceParameter)
    requires Equal(p, q)
    ensures p.Type() == q.Type() && p.Len() == q.Len()
  {
  }

  // ---------------------------------------------------------------------
  // Serialization

  /** `bytes(list_of_bools)`: one byte 0 or 1 per element. */
  function BoolBytes(bs: seq<bool>): (r: seq<byte>)
    ensures |r| == |bs| && forall k :: 0 <= k < |bs| ==> r[k] == if bs[k] then 1 else 0
  {
    if bs == [] then [] else BoolBytes(bs[..|bs| - 1]) + [if bs[|bs| - 1] then 1 else 0]
  }

  /** The concatenation of the struct packs of xs, each n bytes wide; struct.error on the first value out of range. */
  function PackAll(xs: seq<int>, n: nat): (r: Result<seq<byte>>)
    requires n > 0
  {
    if xs == [] then Ok([])
    else
      var front :- PackAll(xs[..|xs| - 1], n);
      var last :- PackSigned(xs[|xs| - 1], n);
      Ok(front + last)
  }

  function Concat(ws: seq<seq<byte>>): seq<byte>
  {
    if ws == [] then [] else Concat(ws[..|ws| - 1]) + ws[|ws| - 1]
  }

  /** `p.serialize()` */
  function Serialize(p: TraceParameter): Result<seq<byte>>
  {
    match p
    case BoolArray(bs) => Ok(BoolBytes(bs))
    case ByteArray(b) => Ok(b)
    case ShortArray(xs) => PackAll(xs, 2)
    case IntArray(xs) => PackAll(xs, 4)
    case LongArray(xs) => PackAll(xs, 8)
    case FloatArray(ws) => Ok(Concat(ws))
    case DoubleArray(ws) => Ok(Concat(ws))
    case StringParam(s) => Ok(s)
  }

  lemma {:induction false} PackAllLength(xs: seq<int>, n: nat)
    requires n > 0 && PackAll(xs, n).Ok?
    ensures |PackAll(xs, n).value| == n * |xs|
  {
    if xs != [] {
      PackAllLength(xs[..|xs| - 1], n);
      assert n * |xs| == n * (|xs| - 1) + n;
    }
  }

  lemma {:induction false} PackAllInRange(xs: seq<int>, n: nat)
    requires n > 0 && forall k :: 0 <= k < |xs| ==> -SignedBound(n) <= xs[k] < SignedBound(n)
    ensures PackAll(xs, n).Ok?
  {
    if xs != [] {
      PackAllInRange(xs[..|xs| - 1], n);
    }
  }

  lemma {:induction false} ConcatLength(ws: seq<seq<byte>>, n: nat)
    requires forall k :: 0 <= k < |ws| ==> |ws[k]| == n
    ensures |Concat(ws)| == n * |ws|
  {
    if ws != [] {
      ConcatLength(ws[..|ws| - 1], n);
      assert n * |ws| == n * (|ws| - 1) + n;
    }
  }

  /** A well-formed parameter serializes unless it is a Long with a value outside 64 bits. */
  lemma SerializeSucceeds(p: TraceParameter)
    requires p.WellFormed()
    requires p.LongArray? ==> forall k :: 0 <= k < |p.longs| ==> -SignedBound(8) <= p.longs[k] < SignedBound(8)
    ensures Serialize(p).Ok?
  {
    assert SignedBound(2) == 0x8000 && SignedBound(4) == 0x8000_0000 by {
      assert Pow256(2) == 0x1_0000;
      assert Pow256(4) == 0x1_0000_0000;
    }
    match p
    case ShortArray(xs) => PackAllInRange(xs, 2);
    case IntArray(xs) => PackAllInRange(xs, 4);
    case LongArray(xs) => PackAllInRange(xs, 8);
    case _ =>
  }

  /** A serialized parameter takes len(p) elements of the type's byte size. */
  lemma SerializeLength(p: TraceParameter)
    requires Serialize(p).Ok?
    ensures |Serialize(p).value| == p.Len() * p.Type().ByteSize()
  {
    match p
    case ShortArray(xs) => PackAllLength(xs, 2);
    case IntArray(xs) => PackAllLength(xs, 4);
    case LongArray(xs) => PackAllLength(xs, 8);
    case FloatArray(ws) => ConcatLength(ws, 4);
    case DoubleArray(ws) => ConcatLength(ws, 8);
    case _ =>
  }

  /** The serialize methods: out.extend of each element's bytes. */
  method SerializeParameter(p: TraceParameter) returns (r: Result<seq<byte>>)
    ensures r == Serialize(p)
  {
    match p {
      case BoolArray(bs) =>
        r := Ok(BoolBytes(bs));
      case ByteArray(b) =>
        r := Ok(b);
      case ShortArray(xs) =>
        r := PackLoop(xs, 2);
      case IntArray(xs) =>
        r := PackLoop(xs, 4);
      case LongArray(xs) =>
        r := PackLoop(xs, 8);
      case FloatArray(ws) =>
        r := ConcatLoop(ws);
      case DoubleArray(ws) =>
        r := ConcatLoop(ws);
      case StringParam(s) =>
        r := Ok(s);
    }
  }

  method PackLoop(xs: seq<int>, n: nat) returns (r: Result<seq<byte>>)
    requires n > 0
    ensures r == PackAll(xs, n)
  {
    var out: seq<byte> := [];
    var i := 0;
    while i < |xs|
      invariant 0 <= i <= |xs|
      invariant PackAll(xs[..i], n) == Ok(out)
    {
      var w := PackSigned(xs[i], n);
      assert xs[..i + 1][..i] == xs[..i];
      if w.Err? {
        assert PackAll(xs[..i + 1], n).Err?;
        PackAllErrorExtends(xs, i + 1, n);
        return Err(w.error);
      }
      out := out + w.value;
      i := i + 1;
    }
    assert xs[..i] == xs;
    r := Ok(out);
  }

  lemma {:induction false} PackAllErrorExtends(xs: seq<int>, i: nat, n: nat)
    requires n > 0 && i <= |xs| && PackAll(xs[..i], n).Err?
    ensures PackAll(xs, n) == Err(StructError)
    decreases |xs| - i
  {
    PackAllErrorIsStruct(xs[..i], n);
    if i < |xs| {
      assert xs[..i + 1][..i] == xs[..i];
      PackAllErrorExtends(xs, i + 1, n);
    } else {
      assert xs[..i] == xs;
    }
  }

  lemma {:induction false} PackAllErrorIsStruct(xs: seq<int>, n: nat)
    requires n > 0 && PackAll(xs, n).Err?
    ensures PackAll(xs, n) == Err(StructError)
  {
    if xs != [] && PackAll(xs[..|xs| - 1], n).Err? {
      PackAllErrorIsStruct(xs[..|xs| - 1], n);
    }
  }

  method ConcatLoop(ws: seq<seq<byte>>) returns (r: Result<seq<byte>>)
    ensures r == Ok(Concat(ws))
  {
    var out: seq<byte> := [];
    var i := 0;
    while i < |ws|
      invariant 0 <= i <= |ws|
      invariant out == Concat(ws[..i])
    {
      assert ws[..i + 1][..i] == ws[..i];
      out := out + ws[i];
      i := i + 1;
    }
    assert ws[..i] == ws;
    r := Ok(out);
  }

  // ---------------------------------------------------------------------
  // Deserialization: each class's deserialize(io_bytes, param_length)

  /** n successive `read(width)` calls; struct.error as soon as one comes back short. */
  function ReadWords(c: Cursor, width: nat, n: nat): (r: Result<(Cursor, seq<seq<byte>>)>)
    ensures r.Ok? ==> (r.value.0.data == c.data && |r.value.1| == n
      && forall k :: 0 <= k < n ==> |r.value.1[k]| == width)
    ensures r.Err? ==> r.error == StructError
  {
    if n == 0 then Ok((c, []))
    else
      var (c1, ws) :- ReadWords(c, width, n - 1);
      var (c2, w) := c1.Read(width);
      if |w| < width then Err(StructError) else Ok((c2, ws + [w]))
  }

  function UnpackAll(ws: seq<seq<byte>>, width: nat): (xs: seq<int>)
    requires width > 0 && forall k :: 0 <= k < |ws| ==> |ws[k]| == width
    ensures |xs| == |ws| && forall k :: 0 <= k < |ws| ==> xs[k] == UnpackSigned(ws[k])
  {
    if ws == [] then [] else UnpackAll(ws[..|ws| - 1], width) + [UnpackSigned(ws[|ws| - 1])]
  }

  function AsWord4s(ws: seq<seq<byte>>): (r: seq<Word4>)
    requires forall k :: 0 <= k < |ws| ==> |ws[k]| == 4
    ensures r == ws
  {
    if ws == [] then [] else AsWord4s(ws[..|ws| - 1]) + [ws[|ws| - 1]]
  }

  function AsWord8s(ws: seq<seq<byte>>): (r: seq<Word8>)
    requires forall k :: 0 <= k < |ws| ==> |ws[k]| == 8
    ensures r == ws
  {
    if ws == [] then [] else AsWord8s(ws[..|ws| - 1]) + [ws[|ws| - 1]]
  }

  function NonZero(raw: seq<byte>): (bs: seq<bool>)
    ensures |bs| == |raw| && forall k :: 0 <= k < |raw| ==> bs[k] == (raw[k] != 0)
  {
    if raw == [] then [] else NonZero(raw[..|raw| - 1]) + [raw[|raw| - 1] != 0]
  }

  /** n words read and then handed to the constructor, which refuses an empty list with ValueError. */
  function ReadNonEmptyWords(c: Cursor, width: nat, n: nat): (r: Result<(Cursor, seq<seq<byte>>)>)
    ensures r.Ok? ==> (r.value.0.data == c.data && |r.value.1| == n > 0
      && forall k :: 0 <= k < n ==> |r.value.1[k]| == width)
  {
    var (c1, ws) :- ReadWords(c, width, n);
    if n == 0 then Err(ValueError) else Ok((c1, ws))
  }

  /** n signed words of the given width, unpacked. */
  function ReadSigned(c: Cursor, width: nat, n: nat): (r: Result<(Cursor, seq<int>)>)
    requires width > 0
    ensures r.Ok? ==> r.value.0.data == c.data && |r.value.1| == n
  {
    var (c1, ws) :- ReadNonEmptyWords(c, width, n);
    Ok((c1, UnpackAll(ws, width)))
  }

  /** BooleanArrayParameter.deserialize: n bytes, each true when non-zero; the constructor refuses none. */
  function DeserializeBools(c: Cursor, n: nat): (r: Result<(Cursor, TraceParameter)>)
    ensures r.Ok? ==> r.value.0.data == c.data && r.value.1.BoolArray? && r.value.1.Type() == BOOL && r.value.1.Len() <= n
  {
    var (c1, raw) := c.Read(n);
    if raw == [] then Err(ValueError) else Ok((c1, BoolArray(NonZero(raw))))
  }

  /** ByteArrayParameter.deserialize: n bytes; the constructor refuses none. */
  function DeserializeBytes(c: Cursor, n: nat): (r: Result<(Cursor, TraceParameter)>)
    ensures r.Ok? ==> r.value.0.data == c.data && r.value.1.ByteArray? && r.value.1.Type() == BYTE && r.value.1.Len() <= n
  {
    var (c1, raw) := c.Read(n);
    if raw == [] then Err(ValueError) else Ok((c1, ByteArray(raw)))
  }

  /** StringParameter.deserialize: n bytes of UTF-8, possibly fewer at the end of the stream. */
  function DeserializeString(c: Cursor, n: nat): (r: Result<(Cursor, TraceParameter)>)
    ensures r.Ok? ==> r.value.0.data == c.data && r.value.1.StringParam? && r.value.1.Type() == STRING && r.value.1.Len() <= n
  {
    var (c1, raw) := c.Read(n);
    Ok((c1, StringParam(raw)))
  }

  /** ShortArrayParameter.deserialize: n words `<h`. */
  function DeserializeShorts(c: Cursor, n: nat): (r: Result<(Cursor, TraceParameter)>)
    ensures r.Ok? ==> r.value.0.data == c.data && r.value.1.ShortArray? && r.value.1.Type() == SHORT && r.value.1.Len() == n
  {
    var (c1, xs) :- ReadSigned(c, 2, n);
    Ok((c1, ShortArray(xs)))
  }

  /** IntegerArrayParameter.deserialize: n words `<i`. */
  function DeserializeInts(c: Cursor, n: nat): (r: Result<(Cursor, TraceParameter)>)
    ensures r.Ok? ==> r.value.0.data == c.data && r.value.1.IntArray? && r.value.1.Type() == INT && r.value.1.Len() == n
  {
    var (c1, xs) :- ReadSigned(c, 4, n);
    Ok((c1, IntArray(xs)))
  }

  /** LongArrayParameter.deserialize: n words `<q`. */
  function DeserializeLongs(c: Cursor, n: nat): (r: Result<(Cursor, TraceParameter)>)
    ensures r.Ok? ==> r.value.0.data == c.data && r.value.1.LongArray? && r.value.1.Type() == LONG && r.value.1.Len() == n
  {
    var (c1, xs) :- ReadSigned(c, 8, n);
    Ok((c1, LongArray(xs)))
  }

  /** FloatArrayParameter.deserialize: n words `<f`. */
  function DeserializeFloats(c: Cursor, n: nat): (r: Result<(Cursor, TraceParameter)>)
    ensures r.Ok? ==> r.value.0.data == c.data && r.value.1.FloatArray? && r.value.1.Type() == FLOAT && r.value.1.Len() == n
  {
    var (c1, ws) :- ReadNonEmptyWords(c, 4, n);
    Ok((c1, FloatArray(AsWord4s(ws))))
  }

  /** DoubleArrayParameter.deserialize: n words `<d`. */
  function DeserializeDoubles(c: Cursor, n: nat): (r: Result<(Cursor, TraceParameter)>)
    ensures r.Ok? ==> r.value.0.data == c.data && r.value.1.DoubleArray? && r.value.1.Type() == DOUBLE && r.value.1.Len() == n
  {
    var (c1, ws) :- ReadNonEmptyWords(c, 8, n);
    Ok((c1, DoubleArray(AsWord8s(ws))))
  }

  /** `t.param_class.deserialize(io, n)`: the deserialize method of the class t names reads n elements and constructs the parameter from the list. */
  function Deserialize(t: ParameterType, c: Cursor, n: nat): (r: Result<(Cursor, TraceParameter)>)
    ensures r.Ok? ==> r.value.0.data == c.data && r.value.1.Type() == t
    ensures r.Ok? ==> r.value.1.Len() <= n
    ensures r.Ok? && !(t == BOOL || t == BYTE || t == STRING) ==> r.value.1.Len() == n
  {
    match t
    case BOOL => DeserializeBools(c, n)
    case BYTE => DeserializeBytes(c, n)
    case SHORT => DeserializeShorts(c, n)
    case INT => DeserializeInts(c, n)
    case LONG => DeserializeLongs(c, n)
    case FLOAT => DeserializeFloats(c, n)
    case DOUBLE => DeserializeDoubles(c, n)
    case STRING => DeserializeString(c, n)
  }

  /** Reading words back from their concatenation returns them and stops right after them. */
  lemma {:induction false} ReadWordsOfConcat(data: seq<byte>, p: nat, ws: seq<seq<byte>>, width: nat)
    requires forall k :: 0 <= k < |ws| ==> |ws[k]| == width
    requires p + width * |ws| <= |data| && data[p..p + width * |ws|] == Concat(ws)
    ensures ReadWords(Cursor(data, p), width, |ws|) == Ok((Cursor(data, p + width * |ws|), ws))
  {
    if ws != [] {
      var m := |ws| - 1;
      var front := ws[..m];
      ConcatLength(front, width);
      assert width * |ws| == width * m + width;
      assert Concat(ws) == Concat(front) + ws[m];
      assert data[p..p + width * m] == Concat(ws)[..width * m];
      ReadWordsOfConcat(data, p, front, width);
      assert data[p + width * m..p + width * |ws|] == Concat(ws)[width * m..];
      assert front + [ws[m]] == ws;
    }
  }

  /** The bytes of PackAll are the concatenation of the packed words. */
  lemma {:induction false} PackAllWords(xs: seq<int>, n: nat) returns (ws: seq<seq<byte>>)
    requires n > 0 && PackAll(xs, n).Ok?
    ensures |ws| == |xs| && Concat(ws) == PackAll(xs, n).value
    ensures forall k :: 0 <= k < |xs| ==> PackSigned(xs[k], n) == Ok(ws[k]) && |ws[k]| == n
  {
    if xs == [] {
      ws := [];
    } else {
      var m := |xs| - 1;
      var front := PackAllWords(xs[..m], n);
      ws := front + [PackSigned(xs[m], n).value];
      assert ws[..m] == front;
    }
  }

  lemma {:induction false} UnpackPackAll(xs: seq<int>, n: nat, ws: seq<seq<byte>>)
    requires n > 0 && |ws| == |xs|
    requires forall k :: 0 <= k < |xs| ==> PackSigned(xs[k], n) == Ok(ws[k]) && |ws[k]| == n
    ensures UnpackAll(ws, n) == xs
  {
    forall k | 0 <= k < |xs|
      ensures UnpackAll(ws, n)[k] == xs[k]
    {
      UnpackPackSigned(xs[k], n);
    }
  }

  lemma {:induction false} ConcatOfBytes(b: seq<byte>) returns (ws: seq<seq<byte>>)
    ensures |ws| == |b| && Concat(ws) == b && forall k :: 0 <= k < |b| ==> ws[k] == [b[k]]
  {
    if b == [] {
      ws := [];
    } else {
      var front := ConcatOfBytes(b[..|b| - 1]);
      ws := front + [[b[|b| - 1]]];
      assert ws[..|b| - 1] == front;
    }
  }

  /** Reading the packed words of xs back from a buffer that holds them at p gives the words that unpack to xs. */
  lemma {:induction false} SignedRoundTrip(xs: seq<int>, n: nat, data: seq<byte>, p: nat) returns (ws: seq<seq<byte>>)
    requires n > 0 && PackAll(xs, n).Ok?
    requires p + |PackAll(xs, n).value| <= |data| && data[p..p + |PackAll(xs, n).value|] == PackAll(xs, n).value
    ensures |ws| == |xs| && forall k :: 0 <= k < |ws| ==> |ws[k]| == n
    ensures ReadWords(Cursor(data, p), n, |xs|) == Ok((Cursor(data, p + |PackAll(xs, n).value|), ws))
    ensures UnpackAll(ws, n) == xs
    ensures xs != [] ==> ReadSigned(Cursor(data, p), n, |xs|) == Ok((Cursor(data, p + |PackAll(xs, n).value|), xs))
  {
    PackAllLength(xs, n);
    ws := PackAllWords(xs, n);
    ReadWordsOfConcat(data, p, ws, n);
    UnpackPackAll(xs, n, ws);
  }

  lemma {:induction false} WordsRoundTrip(ws: seq<seq<byte>>, n: nat, pre: seq<byte>, rest: seq<byte>)
    requires forall k :: 0 <= k < |ws| ==> |ws[k]| == n
    ensures var b := Concat(ws);
      |b| == n * |ws| && ReadWords(Cursor(pre + b + rest, |pre|), n, |ws|) == Ok((Cursor(pre + b + rest, |pre| + |b|), ws))
  {
    var b := Concat(ws);
    ConcatLength(ws, n);
    assert (pre + b + rest)[|pre|..|pre| + |b|] == b;
    ReadWordsOfConcat(pre + b + rest, |pre|, ws, n);
  }

  /** Deserializing the serialized bytes of p, wherever they sit in a buffer, gives p back and stops right after them. */
  ghost predicate RoundTrips(p: TraceParameter, pre: seq<byte>, rest: seq<byte>)
    requires Serialize(p).Ok?
  {
    var b := Serialize(p).value;
    Deserialize(p.Type(), Cursor(pre + b + rest, |pre|), p.Len()) == Ok((Cursor(pre + b + rest, |pre| + |b|), p))
  }

  /** RoundTrips from the parameter's bytes and what is read back from them. */
  lemma RoundTripsBy(p: TraceParameter, t: ParameterType, n: nat, pre: seq<byte>, rest: seq<byte>, b: seq<byte>)
    requires Serialize(p) == Ok(b) && p.Type() == t && p.Len() == n
    requires Deserialize(t, Cursor(pre + b + rest, |pre|), n) == Ok((Cursor(pre + b + rest, |pre| + |b|), p))
    ensures RoundTrips(p, pre, rest)
  {
  }

  /** The packed words of xs, wherever they sit in a buffer, read back as xs. */
  lemma SignedAt(xs: seq<int>, n: nat, pre: seq<byte>, rest: seq<byte>) returns (b: seq<byte>)
    requires xs != [] && n > 0 && PackAll(xs, n).Ok?
    ensures PackAll(xs, n) == Ok(b)
    ensures ReadSigned(Cursor(pre + b + rest, |pre|), n, |xs|) == Ok((Cursor(pre + b + rest, |pre| + |b|), xs))
  {
    b := PackAll(xs, n).value;
    var data := pre + b + rest;
    assert data[|pre|..|pre| + |b|] == b;
    var ws := SignedRoundTrip(xs, n, data, |pre|);
  }

  lemma {:induction false} ShortParameterRoundTrip(xs: seq<int>, pre: seq<byte>, rest: seq<byte>)
    requires xs != [] && PackAll(xs, 2).Ok?
    ensures RoundTrips(ShortArray(xs), pre, rest)
  {
    var b := SignedAt(xs, 2, pre, rest);
    var data := pre + b + rest;
    assert DeserializeShorts(Cursor(data, |pre|), |xs|) == Ok((Cursor(data, |pre| + |b|), ShortArray(xs)));
    RoundTripsBy(ShortArray(xs), SHORT, |xs|, pre, rest, b);
  }

  lemma {:induction false} IntParameterRoundTrip(xs: seq<int>, pre: seq<byte>, rest: seq<byte>)
    requires xs != [] && PackAll(xs, 4).Ok?
    ensures RoundTrips(IntArray(xs), pre, rest)
  {
    var b := SignedAt(xs, 4, pre, rest);
    var data := pre + b + rest;
    assert DeserializeInts(Cursor(data, |pre|), |xs|) == Ok((Cursor(data, |pre| + |b|), IntArray(xs)));
    RoundTripsBy(IntArray(xs), INT, |xs|, pre, rest, b);
  }

  lemma {:induction false} LongParameterRoundTrip(xs: seq<int>, pre: seq<byte>, rest: seq<byte>)
    requires xs != [] && PackAll(xs, 8).Ok?
    ensures RoundTrips(LongArray(xs), pre, rest)
  {
    var b := SignedAt(xs, 8, pre, rest);
    var data := pre + b + rest;
    assert DeserializeLongs(Cursor(data, |pre|), |xs|) == Ok((Cursor(data, |pre| + |b|), LongArray(xs)));
    RoundTripsBy(LongArray(xs), LONG, |xs|, pre, rest, b);
  }

  lemma {:induction false} FloatParameterRoundTrip(ws: seq<Word4>, pre: seq<byte>, rest: seq<byte>)
    requires ws != []
    ensures RoundTrips(FloatArray(ws), pre, rest)
  {
    WordsRoundTrip(ws, 4, pre, rest);
  }

  lemma {:induction false} DoubleParameterRoundTrip(ws: seq<Word8>, pre: seq<byte>, rest: seq<byte>)
    requires ws != []
    ensures RoundTrips(DoubleArray(ws), pre, rest)
  {
    WordsRoundTrip(ws, 8, pre, rest);
  }

  lemma {:induction false} BoolParameterRoundTrip(bs: seq<bool>, pre: seq<byte>, rest: seq<byte>)
    requires bs != []
    ensures RoundTrips(BoolArray(bs), pre, rest)
  {
    var b := BoolBytes(bs);
    assert (pre + b + rest)[|pre|..|pre| + |b|] == b;
    assert NonZero(b) == bs;
  }

  lemma {:induction false} BytesRoundTrip(p: TraceParameter, pre: seq<byte>, rest: seq<byte>)
    requires p.StringParam? || (p.ByteArray? && p.bytes != [])
    ensures RoundTrips(p, pre, rest)
  {
    var b := Serialize(p).value;
    assert (pre + b + rest)[|pre|..|pre| + |b|] == b;
  }

  /**
   * The round trip of every parameter class: deserializing the serialized
   * bytes with the parameter's own length gives the parameter back and
   * consumes exactly len(p) * byte_size bytes.  Float and Double values are
   * packed words here, so their round trip is exact too.
   */
  lemma {:induction false} SerializeRoundTrip(p: TraceParameter, pre: seq<byte>, rest: seq<byte>)
    requires p.WellFormed() && p != ByteArray([]) && Serialize(p).Ok?
    ensures |Serialize(p).value| == p.Len() * p.Type().ByteSize()
    ensures RoundTrips(p, pre, rest)
  {
    SerializeLength(p);
    match p
    case BoolArray(bs) => BoolParameterRoundTrip(bs, pre, rest);
    case ByteArray(_) => BytesRoundTrip(p, pre, rest);
    case StringParam(_) => BytesRoundTrip(p, pre, rest);
    case ShortArray(xs) => ShortParameterRoundTrip(xs, pre, rest);
    case IntArray(xs) => IntParameterRoundTrip(xs, pre, rest);
    case LongArray(xs) => LongParameterRoundTrip(xs, pre, rest);
    case FloatArray(ws) => FloatParameterRoundTrip(ws, pre, rest);
    case DoubleArray(ws) => DoubleParameterRoundTrip(ws, pre, rest);
  }

  /** The deserialize methods, reading element by element from the stream. */
  method DeserializeParameter(t: ParameterType, io: BytesIO, n: nat) returns (r: Result<TraceParameter>)
    modifies io
    ensures var s := Deserialize(t, old(io.State()), n);
      r.Ok? == s.Ok? && (s.Ok? ==> r.value == s.value.1 && io.State() == s.value.0)
      && (s.Err? ==> r.error == s.error)
  {
    match t {
      case BOOL =>
        var raw := io.Read(n);
        r := if raw == [] then Err(ValueError) else Ok(BoolArray(NonZero(raw)));
      case BYTE =>
        var raw := io.Read(n);
        r := if raw == [] then Err(ValueError) else Ok(ByteArray(raw));
      case STRING =>
        var raw := io.Read(n);
        r := Ok(StringParam(raw));
      case SHORT =>
        var ws :- ReadWordsLoop(io, 2, n);
        r := if n == 0 then Err(ValueError) else Ok(ShortArray(UnpackAll(ws, 2)));
      case INT =>
        var ws :- ReadWordsLoop(io, 4, n);
        r := if n == 0 then Err(ValueError) else Ok(IntArray(UnpackAll(ws, 4)));
      case LONG =>
        var ws :- ReadWordsLoop(io, 8, n);
        r := if n == 0 then Err(ValueError) else Ok(LongArray(UnpackAll(ws, 8)));
      case FLOAT =>
        var ws :- ReadWordsLoop(io, 4, n);
        r := if n == 0 then Err(ValueError) else Ok(FloatArray(AsWord4s(ws)));
      case DOUBLE =>
        var ws :- ReadWordsLoop(io, 8, n);
        r := if n == 0 then Err(ValueError) else Ok(DoubleArray(AsWord8s(ws)));
    }
  }

  method ReadWordsLoop(io: BytesIO, width: nat, n: nat) returns (r: Result<seq<seq<byte>>>)
    modifies io
    ensures var s := ReadWords(old(io.State()), width, n);
      r.Ok? == s.Ok? && (s.Ok? ==> r.value == s.value.1 && io.State() == s.value.0)
      && (s.Err? ==> r.error == s.error)
  {
    var ws: seq<seq<byte>> := [];
    var i := 0;
    while i < n
      invariant 0 <= i <= n
      invariant ReadWords(old(io.State()), width, i) == Ok((io.State(), ws))
    {
      var w := io.Read(width);
      if |w| < width {
        ReadWordsErrorExtends(old(io.State()), width, i + 1, n);
        return Err(StructError);
      }
      ws := ws + [w];
      i := i + 1;
    }
    r := Ok(ws);
  }

  lemma {:induction false} ReadWordsErrorExtends(c: Cursor, width: nat, i: nat, n: nat)
    requires i <= n && ReadWords(c, width, i).Err?
    ensures ReadWords(c, width, n).Err?
    decreases n - i
  {
    if i < n {
      ReadWordsErrorExtends(c, width, i + 1, n);
    }
  }

  // ---------------------------------------------------------------------
  // TraceSetParameter.deserialize and TraceParameterDefinition

  /** TraceSetParameter.deserialize: a type tag, a u16 length, then the parameter's payload. */
  function DeserializeSetParameter(c: Cursor): (r: Result<(Cursor, TraceParameter)>)
    ensures r.Ok? ==> r.value.0.data == c.data
    ensures c.pos < |c.data| && FromTag(c.data[c.pos]).Err? ==> r == Err(ValueError)
    ensures c.pos >= |c.data| ==> r == Err(IndexError)
  {
    var (c1, tag) :- c.ReadByte();
    var t :- FromTag(tag);
    var (c2, n) := c1.ReadShort();
    Deserialize(t, c2, n)
  }

  /** TraceSetParameter.deserialize on a stream. */
  method ReadSetParameter(io: BytesIO) returns (r: Result<TraceParameter>)
    modifies io
    ensures var s := DeserializeSetParameter(old(io.State()));
      r.Ok? == s.Ok? && (s.Ok? ==> r.value == s.value.1 && io.State() == s.value.0)
      && (s.Err? ==> r.error == s.error)
  {
    var tag := io.ReadByte();
    if tag.Err? {
      return Err(tag.error);
    }
    var t := FromTag(tag.value);
    if t.Err? {
      return Err(t.error);
    }
    var n := io.ReadShort();
    r := DeserializeParameter(t.value, io, n);
  }

  /** A TraceParameterDefinition: the type, the element count and the byte offset in a trace's data. */
  datatype Definition = Definition(paramType: ParameterType, length: int, offset: int)
  {
    /** The bytes this definition reserves: length * byte_size. */
    function Size(): int
    {
      length * paramType.ByteSize()
    }
  }

  /** TraceParameterDefinition.serialize: the type tag, then length and offset as shorts. */
  function SerializeDefinition(d: Definition): (r: Result<seq<byte>>)
    ensures r.Ok? <==> SHORT_MIN <= d.length <= SHORT_MAX && SHORT_MIN <= d.offset <= SHORT_MAX
    ensures r.Ok? ==> |r.value| == 5 && r.value[0] == d.paramType.Tag()
  {
    var len :- EncodeAsShort(d.length);
    var off :- EncodeAsShort(d.offset);
    Ok([d.paramType.Tag()] + len + off)
  }

  /** TraceParameterDefinition.deserialize */
  function DeserializeDefinition(c: Cursor): (r: Result<(Cursor, Definition)>)
    ensures r.Ok? ==> r.value.0.data == c.data && 0 <= r.value.1.length < 65536 && 0 <= r.value.1.offset < 65536
    ensures c.pos >= |c.data| ==> r == Err(IndexError)
  {
    var (c1, tag) :- c.ReadByte();
    var t :- FromTag(tag);
    var (c2, len) := c1.ReadShort();
    var (c3, off) := c2.ReadShort();
    Ok((c3, Definition(t, len, off)))
  }

  /** TraceParameterDefinition.deserialize on a stream. */
  method ReadDefinition(io: BytesIO) returns (r: Result<Definition>)
    modifies io
    ensures var s := DeserializeDefinition(old(io.State()));
      r.Ok? == s.Ok? && (s.Ok? ==> r.value == s.value.1 && io.State() == s.value.0)
      && (s.Err? ==> r.error == s.error)
  {
    var tag := io.ReadByte();
    if tag.Err? {
      return Err(tag.error);
    }
    var t := FromTag(tag.value);
    if t.Err? {
      return Err(t.error);
    }
    var len := io.ReadShort();
    var off := io.ReadShort();
    r := Ok(Definition(t.value, len, off));
  }

  /**
   * The definition codec round-trips for non-negative lengths and offsets
   * that fit a short; the five bytes are consumed exactly.
   */
  lemma {:induction false} DefinitionRoundTrip(d: Definition, pre: seq<byte>, rest: seq<byte>)
    requires 0 <= d.length <= SHORT_MAX && 0 <= d.offset <= SHORT_MAX
    ensures var b := SerializeDefinition(d).value;
      DeserializeDefinition(Cursor(pre + b + rest, |pre|)) == Ok((Cursor(pre + b + rest, |pre| + 5), d))
  {
    var b := SerializeDefinition(d).value;
    var len := EncodeAsShort(d.length).value;
    var off := EncodeAsShort(d.offset).value;
    var data := pre + b + rest;
    assert data[|pre|] == d.paramType.Tag();
    assert data[|pre| + 1] == len[0] && data[|pre| + 2] == len[1];
    assert data[|pre| + 3] == off[0] && data[|pre| + 4] == off[1];
    FromTagOfTag(d.paramType);
  }

  /** A negative length comes back 65536 higher: encode_as_short is signed, read_short unsigned. */
  lemma {:induction false} DefinitionNegativeLength(d: Definition, pre: seq<byte>, rest: seq<byte>)
    requires SHORT_MIN <= d.length < 0 && 0 <= d.offset <= SHORT_MAX
    ensures var b := SerializeDefinition(d).value;
      DeserializeDefinition(Cursor(pre + b + rest, |pre|)) == Ok((Cursor(pre + b + rest, |pre| + 5), d.(length := d.length + 65536)))
  {
    var b := SerializeDefinition(d).value;
    var len := EncodeAsShort(d.length).value;
    var off := EncodeAsShort(d.offset).value;
    var data := pre + b + rest;
    assert data[|pre|] == d.paramType.Tag();
    assert data[|pre| + 1] == len[0] && data[|pre| + 2] == len[1];
    assert data[|pre| + 3] == off[0] && data[|pre| + 4] == off[1];
    FromTagOfTag(d.paramType);
  }
}
