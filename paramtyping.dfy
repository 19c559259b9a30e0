// trsfile/parametermap.py, class ParameterMapUtil: choosing the parameter
// class for an untyped Python value when a parameter is added to a map by
// name.
module ParameterTyping {
  import opened PyErrors
  import opened PyValues
  import opened TraceParameters

  /**
   * The types `_get_type` reports for a supported value.  Python does not
   * tell 16-, 32- and 64-bit integers apart, so an int is reported as
   * ShortType, int or LongType by its range.
   */
  datatype PyType = ShortType | IntType | LongType | FloatType | StrType | BoolType | BytesType | ListType
  {
    /** A member of _RATIONAL_TYPES_PRIORITY. */
    predicate IsRational()
    {
      ShortType? || IntType? || LongType? || FloatType?
    }

    /** A member of LISTABLE_TYPES: the element types a list value may have. */
    predicate IsListable()
    {
      IsRational() || BoolType?
    }

    /** The rank of a rational type: a wider type ranks higher. */
    function Rank(): nat
      requires IsRational()
    {
      match this
      case ShortType => 0
      case IntType => 1
      case LongType => 2
      case FloatType => 3
    }
  }

  /** _RATIONAL_TYPES_PRIORITY, highest priority first. */
  const RationalPriority: seq<PyType> := [FloatType, LongType, IntType, ShortType]

  /** `_get_type(value)`; None is the one unsupported value. */
  function GetType(v: PyValue): (r: Result<PyType>)
    ensures r.Err? <==> v.PNone?
    ensures r.Err? ==> r.error == TypeError
    ensures r.Ok? ==> (r.value.IsRational() <==> v.PInt? || v.PFloat?)
    ensures r.Ok? ==> (r.value.BoolType? <==> v.PBool?) && (r.value.ListType? <==> v.PList?)
    ensures v.PInt? ==> (r == Ok(ShortType) <==> SHORT_MIN <= v.i <= SHORT_MAX)
    ensures v.PInt? ==> (r == Ok(LongType) <==> v.i < INT_MIN || INT_MAX < v.i)
  {
    match v
    case PNone => Err(TypeError)
    case PBool(_) => Ok(BoolType)
    case PInt(i) =>
      if i > INT_MAX || i < INT_MIN then Ok(LongType)
      else if SHORT_MIN <= i <= SHORT_MAX then Ok(ShortType)
      else Ok(IntType)
    case PFloat(_) => Ok(FloatType)
    case PStr(_) => Ok(StrType)
    case PBytes(_) => Ok(BytesType)
    case PList(_) => Ok(ListType)
  }

  /** The first type of ps that is t1 or t2. */
  function FirstOf(ps: seq<PyType>, t1: PyType, t2: PyType): (r: Result<PyType>)
    ensures r.Ok? ==> (r.value == t1 || r.value == t2) && r.value in ps
    ensures r.Err? ==> r.error == TypeError && t1 !in ps && t2 !in ps
  {
    if ps == [] then Err(TypeError)
    else if t1 == ps[0] || t2 == ps[0] then Ok(ps[0])
    else FirstOf(ps[1..], t1, t2)
  }

  /** `_highest_priority_rational_type(t1, t2)`: the first type of the priority list that is either. */
  function HighestPriority(t1: PyType, t2: PyType): (r: Result<PyType>)
  {
    FirstOf(RationalPriority, t1, t2)
  }

  /** The wider of two rational types. */
  function Wider(a: PyType, b: PyType): (w: PyType)
    requires a.IsRational() && b.IsRational()
  {
    if a.Rank() >= b.Rank() then a else b
  }

  /** The priority scan picks the wider of two rational types, and fails only when neither is rational. */
  lemma HighestPriorityIsWider(t1: PyType, t2: PyType)
    ensures HighestPriority(t1, t2).Ok? <==> t1.IsRational() || t2.IsRational()
    ensures t1.IsRational() && t2.IsRational() ==> HighestPriority(t1, t2) == Ok(Wider(t1, t2))
  {
    var ps := RationalPriority;
    assert ps[1..] == [LongType, IntType, ShortType];
    assert ps[2..] == [IntType, ShortType];
    assert ps[3..] == [ShortType];
  }

  // ---------------------------------------------------------------------
  // _get_type_of_list_elems

  /** One iteration of the scan: the shared type so far and the next element's type. */
  function Step(acc: Option<PyType>, et: PyType): (r: Result<Option<PyType>>)
  {
    if acc.Some? && et != acc.value then
      if et.IsRational() && acc.value.IsRational() then
        var h :- HighestPriority(et, acc.value);
        Ok(Some(h))
      else Err(TypeError)
    else Ok(Some(et))
  }

  /** The shared type after scanning the elements left to right; None for an empty list. */
  function Scan(elems: seq<PyValue>): (r: Result<Option<PyType>>)
    ensures r.Err? ==> r.error == TypeError
  {
    if elems == [] then Ok(None)
    else
      var acc :- Scan(elems[..|elems| - 1]);
      var et :- GetType(elems[|elems| - 1]);
      Step(acc, et)
  }

  /** `_get_type_of_list_elems(elems)`: the shared type, which must be listable. */
  function TypeOfListElems(elems: seq<PyValue>): (r: Result<PyType>)
    ensures r.Ok? ==> r.value.IsListable()
    ensures r.Err? ==> r.error == TypeError
  {
    var acc :- Scan(elems);
    if acc.Some? && acc.value.IsListable() then Ok(acc.value) else Err(TypeError)
  }

  /** Every element is an int or a float. */
  predicate AllRational(elems: seq<PyValue>)
  {
    forall k :: 0 <= k < |elems| ==> elems[k].PInt? || elems[k].PFloat?
  }

  predicate AllBools(elems: seq<PyValue>)
  {
    forall k :: 0 <= k < |elems| ==> elems[k].PBool?
  }

  /** The widest of the element types of a non-empty list of ints and floats. */
  function WidestType(elems: seq<PyValue>): (t: PyType)
    requires elems != [] && AllRational(elems)
    ensures t.IsRational()
    ensures forall k :: 0 <= k < |elems| ==> GetType(elems[k]).value.Rank() <= t.Rank()
    ensures exists k :: 0 <= k < |elems| && GetType(elems[k]) == Ok(t)
  {
    var last := GetType(elems[|elems| - 1]).value;
    if |elems| == 1 then last
    else
      var front := elems[..|elems| - 1];
      assert forall k :: 0 <= k < |front| ==> front[k] == elems[k];
      Wider(WidestType(front), last)
  }

  /**
   * The list element type: for ints and floats the widest element type, for
   * bools bool, and TypeError for an empty list, a None element, any mix
   * that is not all-rational, and lists of str, bytes or lists.
   */
  lemma {:induction false} TypeOfListElemsIs(elems: seq<PyValue>)
    ensures TypeOfListElems(elems) ==
      if elems != [] && AllRational(elems) then Ok(WidestType(elems))
      else if elems != [] && AllBools(elems) then Ok(BoolType)
      else Err(TypeError)
  {
    if elems == [] {
    } else if AllRational(elems) {
      ScanOfRational(elems);
    } else if AllBools(elems) {
      ScanOfBools(elems);
    } else {
      var r := Scan(elems);
      if r.Ok? && r.value.Some? && r.value.value.IsListable() {
        ScanShared(elems);
      }
    }
  }

  lemma {:induction false} ScanOfRational(elems: seq<PyValue>)
    requires elems != [] && AllRational(elems)
    ensures Scan(elems) == Ok(Some(WidestType(elems)))
  {
    var front := elems[..|elems| - 1];
    var last := GetType(elems[|elems| - 1]).value;
    if |elems| > 1 {
      assert AllRational(front) by {
        assert forall k :: 0 <= k < |front| ==> front[k] == elems[k];
      }
      ScanOfRational(front);
      HighestPriorityIsWider(last, WidestType(front));
    }
  }

  lemma {:induction false} ScanOfBools(elems: seq<PyValue>)
    requires elems != [] && AllBools(elems)
    ensures Scan(elems) == Ok(Some(BoolType))
  {
    var front := elems[..|elems| - 1];
    if |elems| > 1 {
      assert AllBools(front) by {
        assert forall k :: 0 <= k < |front| ==> front[k] == elems[k];
      }
      ScanOfBools(front);
    }
  }

  /** A shared type found by the scan is rational only for all-rational lists, and otherwise the type of every element. */
  lemma {:induction false} ScanShared(elems: seq<PyValue>)
    requires Scan(elems).Ok? && Scan(elems).value.Some?
    ensures var t := Scan(elems).value.value;
      (t.IsRational() ==> AllRational(elems)) && (!t.IsRational() ==> forall k :: 0 <= k < |elems| ==> GetType(elems[k]) == Ok(t))
  {
    var front := elems[..|elems| - 1];
    var acc := Scan(front).value;
    var et := GetType(elems[|elems| - 1]).value;
    var t := Scan(elems).value.value;
    if acc.Some? {
      ScanShared(front);
      if et != acc.value {
        HighestPriorityIsWider(et, acc.value);
      }
    }
    assert forall k :: 0 <= k < |front| ==> front[k] == elems[k];
  }

  /** The loop of `_get_type_of_list_elems`. */
  method GetTypeOfListElems(elems: seq<PyValue>) returns (r: Result<PyType>)
    ensures r == TypeOfListElems(elems)
  {
    var result: Option<PyType> := None;
    var i := 0;
    while i < |elems|
      invariant 0 <= i <= |elems|
      invariant Scan(elems[..i]) == Ok(result)
    {
      assert elems[..i + 1][..i] == elems[..i];
      var elemType := GetType(elems[i]);
      if elemType.Err? {
        ScanErrorExtends(elems, i + 1);
        return Err(TypeError);
      }
      if result.Some? && elemType.value != result.value {
        if elemType.value.IsRational() && result.value.IsRational() {
          HighestPriorityIsWider(elemType.value, result.value);
          var h := HighestPriority(elemType.value, result.value);
          result := Some(h.value);
        } else {
          ScanErrorExtends(elems, i + 1);
          return Err(TypeError);
        }
      } else {
        result := Some(elemType.value);
      }
      i := i + 1;
    }
    assert elems[..i] == elems;
    if result.None? || !result.value.IsListable() {
      return Err(TypeError);
    }
    r := Ok(result.value);
  }

  lemma {:induction false} ScanErrorExtends(elems: seq<PyValue>, i: nat)
    requires i <= |elems| && Scan(elems[..i]).Err?
    ensures Scan(elems).Err?
    decreases |elems| - i
  {
    if i < |elems| {
      assert elems[..i + 1][..i] == elems[..i];
      ScanErrorExtends(elems, i + 1);
    } else {
      assert elems[..i] == elems;
    }
  }

  // ---------------------------------------------------------------------
  // get_typed_parameter and to_list_if_listable

  /** TYPE_TO_PARAMETER: the parameter type whose class holds values of a Python type. */
  function ParameterTypeOf(t: PyType): ParameterType
    requires !t.ListType?
  {
    match t
    case ShortType => SHORT
    case IntType => INT
    case LongType => LONG
    case FloatType => DOUBLE
    case StrType => STRING
    case BoolType => BOOL
    case BytesType => BYTE
  }

  /** `get_typed_parameter(value)`: the parameter type for a value, looking at the elements of a list. */
  function GetTypedParameter(v: PyValue): (r: Result<ParameterType>)
    ensures r.Err? ==> r.error == TypeError
  {
    var vt :- GetType(v);
    var t :- if vt == ListType then TypeOfListElems(v.elems) else Ok(vt);
    Ok(ParameterTypeOf(t))
  }

  /** `to_list_if_listable(value)`: an int, float or bool is wrapped in a one-element list. */
  function ToListIfListable(v: PyValue): (r: PyValue)
    ensures (v.PInt? || v.PFloat? || v.PBool?) ==> r == PList([v])
    ensures !(v.PInt? || v.PFloat? || v.PBool?) ==> r == v
  {
    if v.PInt? || v.PFloat? || v.PBool? then PList([v]) else v
  }

  /**
   * Floats are Python floats, that is eight-byte words, and a list is not
   * a mix of ints and floats (whose int elements the library converts when
   * it packs them, which this model does not represent).
   */
  predicate PlainFloats(v: PyValue)
  {
    var vs := if v.PList? then v.elems else [v];
    (forall k :: 0 <= k < |vs| ==> vs[k].PFloat? ==> |vs[k].bits| == 8)
    && ((exists k :: 0 <= k < |vs| && vs[k].PFloat?) ==> forall k :: 0 <= k < |vs| ==> !vs[k].PInt?)
  }

  /**
   * The inferred parameter class accepts the value: constructing it from
   * `to_list_if_listable(value)` succeeds whenever get_typed_parameter does.
   */
  lemma InferredTypeAccepts(v: PyValue)
    requires GetTypedParameter(v).Ok? && PlainFloats(v)
    ensures Construct(GetTypedParameter(v).value, ToListIfListable(v)).Ok?
  {
    var t := GetTypedParameter(v).value;
    if v.PList? {
      TypeOfListElemsIs(v.elems);
      if AllRational(v.elems) {
        RationalListAccepted(v.elems);
      }
    } else {
      assert HasExpectedType(t, ToListIfListable(v)) by {
        ScalarAccepted(v);
      }
    }
  }

  lemma ScalarAccepted(v: PyValue)
    requires !v.PList? && GetTypedParameter(v).Ok? && PlainFloats(v)
    ensures HasExpectedType(GetTypedParameter(v).value, ToListIfListable(v))
  {
    if v.PFloat? {
      assert [v][0] == v;
    }
  }

  /** The widest element type of a list of ints and floats accepts every element. */
  lemma RationalListAccepted(es: seq<PyValue>)
    requires es != [] && AllRational(es) && PlainFloats(PList(es))
    ensures HasExpectedType(ParameterTypeOf(WidestType(es)), PList(es))
  {
    var t := WidestType(es);
    var j :| 0 <= j < |es| && GetType(es[j]) == Ok(t);
    if t.FloatType? {
      assert es[j].PFloat?;
      assert AllFloats(es, 8);
    } else {
      assert forall k :: 0 <= k < |es| ==> GetType(es[k]).value.Rank() < 3;
    }
  }
}
