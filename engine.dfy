// trsfile/engine/engine.py: the header dictionary every storage engine
// keeps, and `update_headers`, which works out which headers a caller's
// dictionary changes and merges them in.
module Engines {
  import opened PyErrors
  import opened PyValues
  import opened OrderedDicts
  import opened TraceParameters
  import opened Common
  import SetMaps = TraceSetParameterMaps
  import Defs = TraceParameterDefinitionMaps

  /** A key of the header dictionary: a Header member, or anything else (an unknown tag read from a file, say). */
  datatype HeaderKey = Known(h: Header) | Unknown(tag: int)

  /**
   * A value of the header dictionary: a plain Python value (None while a
   * header is unset), a sample coding, or one of the two parameter maps.
   */
  datatype HeaderValue =
    | Plain(v: PyValue)
    | CodingValue(c: SampleCoding)
    | SetParams(m: SetMaps.SetParameterMap)
    | DefParams(d: Defs.DefinitionMap)

  type HeaderDict = ODict<HeaderKey, HeaderValue>

  /**
   * Python's `==` on the plain values: a bool equals the int it stands for,
   * floats compare as floats (a NaN equals nothing, 0.0 equals -0.0), lists
   * compare element-wise.
   */
  predicate PyEq(x: PyValue, y: PyValue)
    decreases x
  {
    if x.IsInt() && y.IsInt() then x.AsInt() == y.AsInt()
    else if x.PFloat? && y.PFloat? then FloatEq(x.bits, y.bits)
    else if x.PList? && y.PList? then
      |x.elems| == |y.elems| && forall k :: 0 <= k < |x.elems| ==> PyEq(x.elems[k], y.elems[k])
    else x == y
  }

  /** Two ordered dictionaries of parameters are equal when they hold equal parameters under the same keys in the same order. */
  predicate SameParameters(a: ODict<seq<byte>, TraceParameter>, b: ODict<seq<byte>, TraceParameter>)
  {
    |a| == |b| && forall k :: 0 <= k < |a| ==> a[k].0 == b[k].0 && Equal(a[k].1, b[k].1)
  }

  /** `value == self.headers[header]`; the lock of a parameter map plays no part in it. */
  predicate Same(a: HeaderValue, b: HeaderValue)
  {
    match (a, b)
    case (Plain(x), Plain(y)) => PyEq(x, y)
    case (CodingValue(c), CodingValue(d)) => c == d
    case (SetParams(m), SetParams(n)) => SameParameters(m.entries, n.entries)
    case (DefParams(m), DefParams(n)) => m.entries == n.entries
    case _ => false
  }

  /** Whether storing v under k changes the current headers: k is missing, or holds a value not equal to v. */
  predicate Differs(current: HeaderDict, k: HeaderKey, v: HeaderValue)
  {
    !(HasKey(current, k) && Same(v, Get(current, k).value))
  }

  /** The loop of update_headers: the input entries that change the current headers, in the input's order. */
  function Changed(current: HeaderDict, input: HeaderDict): (r: HeaderDict)
    ensures |r| <= |input|
  {
    if input == [] then []
    else
      var front := Changed(current, input[..|input| - 1]);
      var (k, v) := input[|input| - 1];
      if Differs(current, k, v) then front + [(k, v)] else front
  }

  /** What update_headers returns and the headers it leaves. */
  datatype Updated = Updated(changed: HeaderDict, headers: HeaderDict)

  /** The keys of d are all Header members: `all(isinstance(header, Header) for header in d)`. */
  predicate AllKnown(d: HeaderDict)
  {
    forall i :: 0 <= i < |d| ==> d[i].0.Known?
  }

  /** What update_headers does once its guard passes: the changed entries, merged into the current headers. */
  function Merge(current: HeaderDict, input: HeaderDict): (r: Updated)
    ensures r.changed == Changed(current, input)
    ensures r.changed == [] ==> r.headers == current
  {
    var changed := Changed(current, input);
    if |changed| == 0 then Updated([], current)
    else Updated(changed, OrderedDicts.Update(current, changed))
  }

  /**
   * `update_headers(headers)` as written, the version the engine uses:
   * read-only engines refuse it; None changes nothing; the type guard
   * looks at the keys of the CURRENT headers, so the update goes through
   * exactly when those are all Header members; otherwise it merges the
   * input's changes.
   */
  function UpdateHeaders(readOnly: bool, current: HeaderDict, input: Option<HeaderDict>): (r: Result<Updated>)
    ensures readOnly ==> r == Err(TypeError)
    ensures !readOnly && input.None? ==> r == Ok(Updated([], current))
    ensures !readOnly && input.Some? ==> (r.Ok? <==> AllKnown(current))
    ensures input.Some? && r.Ok? ==> r.value == Merge(current, input.value)
    ensures r.Err? ==> r.error == TypeError
  {
    if readOnly then Err(TypeError)
    else if input.None? then Ok(Updated([], current))
    else if exists i :: 0 <= i < |current| && current[i].0.Unknown? then Err(TypeError)
    else Ok(Merge(current, input.value))
  }

  /**
   * `update_headers(headers)` with its type guard on the keys of the
   * argument, as its error message ('All headers have to be of type
   * Header') intends.
   */
  function UpdateHeadersIntended(readOnly: bool, current: HeaderDict, input: Option<HeaderDict>): (r: Result<Updated>)
    ensures readOnly ==> r == Err(TypeError)
    ensures !readOnly && input.None? ==> r == Ok(Updated([], current))
    ensures !readOnly && input.Some? ==> (r.Ok? <==> AllKnown(input.value))
    ensures input.Some? && r.Ok? ==> r.value == Merge(current, input.value)
    ensures r.Err? ==> r.error == TypeError
  {
    if readOnly then Err(TypeError)
    else if input.None? then Ok(Updated([], current))
    else if exists i :: 0 <= i < |input.value| && input.value[i].0.Unknown? then Err(TypeError)
    else Ok(Merge(current, input.value))
  }

  /** `update_header(header, value)`: update_headers, as written, with the one entry. */
  function UpdateHeader(readOnly: bool, current: HeaderDict, k: HeaderKey, v: HeaderValue): (r: Result<Updated>)
  {
    UpdateHeaders(readOnly, current, Some([(k, v)]))
  }

  // ---------------------------------------------------------------------
  // Properties

  /** Every entry of the change set comes from the input; every entry it leaves out is already there. */
  lemma {:induction false} ChangedExactly(current: HeaderDict, input: HeaderDict, k: HeaderKey)
    requires Distinct(input)
    ensures Distinct(Changed(current, input))
    ensures HasKey(Changed(current, input), k) <==> HasKey(input, k) && Differs(current, k, Get(input, k).value)
    ensures HasKey(Changed(current, input), k) ==> Get(Changed(current, input), k) == Get(input, k)
    decreases |input|
  {
    if input != [] {
      var front := input[..|input| - 1];
      var (k', v) := input[|input| - 1];
      assert Distinct(front);
      ChangedExactly(current, front, k);
      ChangedExactly(current, front, k');
      var c := Changed(current, front);
      assert !HasKey(front, k') by {
        assert forall i :: 0 <= i < |front| ==> front[i].0 == input[i].0 != input[|input| - 1].0;
      }
      GetLast(front, k', v, k);
      if Differs(current, k', v) {
        GetLast(c, k', v, k);
      }
    }
  }

  /** Appending a new key: it looks up the new value, and every other key what it did before. */
  lemma GetLast<V>(d: ODict<HeaderKey, V>, k: HeaderKey, v: V, k': HeaderKey)
    requires Distinct(d) && !HasKey(d, k)
    ensures Distinct(d + [(k, v)])
    ensures Get(d + [(k, v)], k') == if k' == k then Some(v) else Get(d, k')
    ensures HasKey(d + [(k, v)], k') <==> k' == k || HasKey(d, k')
  {
    assert Set(d, k, v) == d + [(k, v)];
    SetKeepsDistinct(d, k, v);
    GetAfterSet(d, k, v, k');
  }

  /**
   * After the merge of update_headers, a header holds the input's value
   * when the input changed it and its old value otherwise; keys the input
   * does not name are untouched, and when nothing differs nothing changes.
   */
  lemma MergeResult(current: HeaderDict, input: HeaderDict, k: HeaderKey)
    requires Distinct(current) && Distinct(input)
    ensures var u := Merge(current, input);
      Distinct(u.headers)
      && Get(u.headers, k) == (if HasKey(u.changed, k) then Get(input, k) else Get(current, k))
      && (!HasKey(input, k) ==> Get(u.headers, k) == Get(current, k))
  {
    var changed := Changed(current, input);
    ChangedExactly(current, input, k);
    if |changed| > 0 {
      GetAfterUpdate(current, changed, k);
    }
  }

  /** After the merge, every header the input names holds the input's value or one equal to it. */
  lemma MergeApplies(current: HeaderDict, input: HeaderDict, k: HeaderKey)
    requires Distinct(current) && Distinct(input) && HasKey(input, k)
    ensures var u := Merge(current, input);
      HasKey(u.headers, k) && (Get(u.headers, k) == Get(input, k) || Same(Get(input, k).value, Get(u.headers, k).value))
  {
    MergeResult(current, input, k);
    ChangedExactly(current, input, k);
  }

  /**
   * update_header(h, v) goes through exactly when the current keys are all
   * Header members, and then reports a change exactly when h is missing or
   * holds a value not equal to v.
   */
  lemma UpdateHeaderChanges(current: HeaderDict, h: Header, v: HeaderValue)
    ensures UpdateHeader(false, current, Known(h), v).Ok? <==> AllKnown(current)
    ensures UpdateHeader(false, current, Known(h), v).Ok? ==>
      (UpdateHeader(false, current, Known(h), v).value.changed != [] <==> Differs(current, Known(h), v))
  {
    var one := [(Known(h), v)];
    assert one[..0] == [];
  }

  /**
   * The guard as written looks at the wrong dictionary: a current header
   * under an unknown tag makes every update fail, and an unknown key in
   * the input passes the guard and is merged in.
   */
  lemma GuardChecksCurrentHeaders()
    ensures var current := [(Unknown(0x3F), Plain(PNone))];
      var input := [(Known(DESCRIPTION), Plain(PStr([0x61])))];
      UpdateHeaders(false, current, Some(input)) == Err(TypeError)
      && UpdateHeadersIntended(false, current, Some(input)).Ok?
    ensures var input := [(Unknown(0x3F), Plain(PInt(1)))];
      UpdateHeaders(false, [], Some(input)) == Ok(Updated(input, input))
      && UpdateHeadersIntended(false, [], Some(input)) == Err(TypeError)
  {
    var current := [(Unknown(0x3F), Plain(PNone))];
    assert current[0].0.Unknown?;
    var input := [(Known(DESCRIPTION), Plain(PStr([0x61])))];
    assert input[..0] == [];
    assert !HasKey(current, Known(DESCRIPTION));
    var unknown := [(Unknown(0x3F), Plain(PInt(1)))];
    assert unknown[..0] == [];
    assert OrderedDicts.Update([], unknown) == unknown;
  }

  /** With the guard on the input, update_headers never brings a key that is not a Header into the headers. */
  lemma UpdateKeepsKnownKeys(current: HeaderDict, input: HeaderDict, k: HeaderKey)
    requires Distinct(current) && Distinct(input)
    requires UpdateHeadersIntended(false, current, Some(input)).Ok?
    requires HasKey(UpdateHeadersIntended(false, current, Some(input)).value.headers, k)
    ensures k.Known? || HasKey(current, k)
  {
    MergeResult(current, input, k);
    ChangedExactly(current, input, k);
  }

  /** The loop of update_headers that collects the changed entries. */
  method ChangedHeaders(current: HeaderDict, input: HeaderDict) returns (changed: HeaderDict)
    ensures changed == Changed(current, input)
  {
    changed := [];
    var i := 0;
    while i < |input|
      invariant 0 <= i <= |input|
      invariant changed == Changed(current, input[..i])
    {
      var (k, v) := input[i];
      assert input[..i + 1][..i] == input[..i];
      if !(HasKey(current, k) && Same(v, Get(current, k).value)) {
        changed := changed + [(k, v)];
      }
      i := i + 1;
    }
    assert input[..i] == input;
  }
}
