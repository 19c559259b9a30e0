// The two registries of reserved parameter names, and the case-insensitive
// first-match scan their `from_identifier` performs.
module Registries {
  import opened PyErrors
  import opened PyValues

  /** `str.lower` on one character of ASCII text, as a code point. */
  function LowerCode(c: int): int
  {
    if 65 <= c <= 90 then c + 32 else c
  }

  /** A registry entry's identifier and its enumeration member name. */
  type Label = (string, string)

  /**
   * `key.lower()` for a key held as UTF-8 bytes, as far as a comparison with
   * ASCII text can tell: ASCII letters fold to lower case, the Kelvin sign
   * U+212A (the bytes E2 84 AA) folds to 'k', and every other byte stays
   * at 128 or above, where no ASCII character is.  These are the only
   * characters whose `str.lower()` is ASCII, apart from U+0130, whose
   * lower case 'i' followed by U+0307 is not.
   */
  function Fold(key: seq<byte>): (r: seq<int>)
    ensures |r| <= |key|
    decreases |key|
  {
    if key == [] then []
    else if |key| >= 3 && key[0] == 0xE2 && key[1] == 0x84 && key[2] == 0xAA then ['k' as int] + Fold(key[3..])
    else [LowerCode(key[0])] + Fold(key[1..])
  }

  /** `text.lower()` for ASCII text, as code points. */
  function LowerText(text: string): (r: seq<int>)
    ensures |r| == |text| && forall i :: 0 <= i < |text| ==> r[i] == LowerCode(text[i] as int)
  {
    seq(|text|, i requires 0 <= i < |text| => LowerCode(text[i] as int))
  }

  /** `key.lower() == text.lower()` for a key held as UTF-8 bytes and an ASCII text. */
  predicate SameUpToCase(key: seq<byte>, text: string)
  {
    Fold(key) == LowerText(text)
  }

  /** For a key of ASCII bytes the comparison is character by character: the same length and the same letters up to case. */
  lemma {:induction false} AsciiSameUpToCase(key: seq<byte>, text: string)
    requires forall i :: 0 <= i < |key| ==> key[i] < 128
    ensures SameUpToCase(key, text) <==>
      |key| == |text| && forall i :: 0 <= i < |key| ==> LowerCode(key[i]) == LowerCode(text[i] as int)
  {
    AsciiFold(key);
  }

  /** Folding ASCII bytes lowers each of them in place. */
  lemma {:induction false} AsciiFold(key: seq<byte>)
    requires forall i :: 0 <= i < |key| ==> key[i] < 128
    ensures |Fold(key)| == |key| && forall i :: 0 <= i < |key| ==> Fold(key)[i] == LowerCode(key[i])
    decreases |key|
  {
    if key != [] {
      AsciiFold(key[1..]);
      assert Fold(key) == [LowerCode(key[0])] + Fold(key[1..]);
    }
  }

  /** The test of `from_identifier`: the key equals the identifier or the member name, ignoring case. */
  predicate Matches(key: seq<byte>, l: Label)
  {
    SameUpToCase(key, l.0) || SameUpToCase(key, l.1)
  }

  /** The index of the first label that the key matches. */
  function FirstMatch(key: seq<byte>, ls: seq<Label>): (r: Option<nat>)
    ensures r.None? <==> forall k :: 0 <= k < |ls| ==> !Matches(key, ls[k])
    ensures r.Some? ==> (r.value < |ls| && Matches(key, ls[r.value]) &&
      forall j :: 0 <= j < r.value ==> !Matches(key, ls[j]))
  {
    if ls == [] then None
    else if Matches(key, ls[0]) then Some(0)
    else match FirstMatch(key, ls[1..])
      case Some(k) => Some(k + 1)
      case None => None
  }

  /** A key whose folded length is that of no label's identifier or name matches none of them. */
  lemma NoMatchByLength(key: seq<byte>, ls: seq<Label>)
    requires forall k :: 0 <= k < |ls| ==> |ls[k].0| != |Fold(key)| && |ls[k].1| != |Fold(key)|
    ensures FirstMatch(key, ls) == None
  {
  }

  /** A matching label is the first match when no earlier label's identifier or name has the key's folded length. */
  lemma FirstMatchByLength(key: seq<byte>, ls: seq<Label>, k: nat)
    requires k < |ls| && Matches(key, ls[k])
    requires forall j :: 0 <= j < k ==> |ls[j].0| != |Fold(key)| && |ls[j].1| != |Fold(key)|
    ensures FirstMatch(key, ls) == Some(k)
  {
    FirstMatchAt(key, ls, k);
  }

  /** The first match is the matching label that no earlier label matches. */
  lemma FirstMatchAt(key: seq<byte>, ls: seq<Label>, k: nat)
    requires k < |ls| && Matches(key, ls[k])
    requires forall j :: 0 <= j < k ==> !Matches(key, ls[j])
    ensures FirstMatch(key, ls) == Some(k)
  {
    var r := FirstMatch(key, ls);
    assert r.Some? && Matches(key, ls[r.value]);
  }
}

// trsfile/standardparameters.py, lines 7-64: the names reserved for trace-set parameters.
module StandardTraceSetParameters {
  import opened PyErrors
  import opened PyValues
  import opened TraceParameters
  import opened Registries
  import opened Utils

  /** A member of the enumeration: its own name, its value (the tag), its identifier and its type. */
  datatype StandardTraceSetParameter = StandardTraceSetParameter(name: string, tag: int, identifier: string, parameterType: ParameterType)
  {
    function Label(): Label
    {
      (identifier, name)
    }
  }

  const KEY: StandardTraceSetParameter := StandardTraceSetParameter("KEY", 0x01, "KEY", BYTE)
  const X_OFFSET: StandardTraceSetParameter := StandardTraceSetParameter("X_OFFSET", 0x02, "X_OFFSET", INT)
  const X_SCALE: StandardTraceSetParameter := StandardTraceSetParameter("X_SCALE", 0x03, "X_SCALE", FLOAT)
  const Y_SCALE: StandardTraceSetParameter := StandardTraceSetParameter("Y_SCALE", 0x04, "Y_SCALE", FLOAT)
  const TRACE_OFFSET: StandardTraceSetParameter := StandardTraceSetParameter("TRACE_OFFSET", 0x05, "TRACE_OFFSET", INT)
  const SETUP_OSCILLOSCOPE_RANGE: StandardTraceSetParameter := StandardTraceSetParameter("SETUP_OSCILLOSCOPE_RANGE", 0x10, "SETUP:OSCILLOSCOPE:RANGE", FLOAT)
  const SETUP_OSCILLOSCOPE_COUPLING: StandardTraceSetParameter := StandardTraceSetParameter("SETUP_OSCILLOSCOPE_COUPLING", 0x11, "SETUP:OSCILLOSCOPE:COUPLING", INT)
  const SETUP_OSCILLOSCOPE_OFFSET: StandardTraceSetParameter := StandardTraceSetParameter("SETUP_OSCILLOSCOPE_OFFSET", 0x12, "SETUP:OSCILLOSCOPE:OFFSET", FLOAT)
  const SETUP_OSCILLOSCOPE_INPUT_IMPEDANCE: StandardTraceSetParameter := StandardTraceSetParameter("SETUP_OSCILLOSCOPE_INPUT_IMPEDANCE", 0x13, "SETUP:OSCILLOSCOPE:INPUT_IMPEDANCE", FLOAT)
  const SETUP_OSCILLOSCOPE_DEVICE_IDENTIFIER: StandardTraceSetParameter := StandardTraceSetParameter("SETUP_OSCILLOSCOPE_DEVICE_IDENTIFIER", 0x14, "SETUP:OSCILLOSCOPE:DEVICE_ID", STRING)
  const SETUP_OSCILLOSCOPE_ACTIVE_CHANNEL_COUNT: StandardTraceSetParameter := StandardTraceSetParameter("SETUP_OSCILLOSCOPE_ACTIVE_CHANNEL_COUNT", 0x15, "SETUP:OSCILLOSCOPE:ACTIVE_CHANNEL_COUNT", INT)
  const SETUP_OSCILLOSCOPE_COUNT: StandardTraceSetParameter := StandardTraceSetParameter("SETUP_OSCILLOSCOPE_COUNT", 0x16, "SETUP:OSCILLOSCOPE:COUNT", INT)
  const SETUP_ICWAVES_FILTER_TYPE: StandardTraceSetParameter := StandardTraceSetParameter("SETUP_ICWAVES_FILTER_TYPE", 0x20, "SETUP:ICWAVES:FILTER:FREQUENCY", INT)
  const SETUP_ICWAVES_FILTER_FREQUENCY: StandardTraceSetParameter := StandardTraceSetParameter("SETUP_ICWAVES_FILTER_FREQUENCY", 0x21, "SETUP:ICWAVES:FILTER:RANGE", FLOAT)
  const SETUP_ICWAVES_FILTER_RANGE: StandardTraceSetParameter := StandardTraceSetParameter("SETUP_ICWAVES_FILTER_RANGE", 0x22, "SETUP:ICWAVES:FILTER:TYPE", FLOAT)
  const SETUP_ICWAVES_EXT_CLK_ENABLED: StandardTraceSetParameter := StandardTraceSetParameter("SETUP_ICWAVES_EXT_CLK_ENABLED", 0x23, "SETUP:ICWAVES:EXT_CLK:ENABLED", BOOL)
  const SETUP_ICWAVES_EXT_CLK_THRESHOLD: StandardTraceSetParameter := StandardTraceSetParameter("SETUP_ICWAVES_EXT_CLK_THRESHOLD", 0x24, "SETUP:ICWAVES:EXT_CLK:THRESHOLD", FLOAT)
  const SETUP_ICWAVES_EXT_CLK_MULTIPLIER: StandardTraceSetParameter := StandardTraceSetParameter("SETUP_ICWAVES_EXT_CLK_MULTIPLIER", 0x25, "SETUP:ICWAVES:EXT_CLK:MULTIPLIER", INT)
  const SETUP_ICWAVES_EXT_CLK_PHASESHIFT: StandardTraceSetParameter := StandardTraceSetParameter("SETUP_ICWAVES_EXT_CLK_PHASESHIFT", 0x26, "SETUP:ICWAVES:EXT_CLK:PHASE_SHIFT", INT)
  const SETUP_ICWAVES_EXT_CLK_RESAMPLER_MASK: StandardTraceSetParameter := StandardTraceSetParameter("SETUP_ICWAVES_EXT_CLK_RESAMPLER_MASK", 0x27, "SETUP:ICWAVES:EXT_CLK:RESAMPLER_MASK", INT)
  const SETUP_ICWAVES_EXT_CLK_RESAMPLER_MASK_ENABLED: StandardTraceSetParameter := StandardTraceSetParameter("SETUP_ICWAVES_EXT_CLK_RESAMPLER_MASK_ENABLED", 0x28, "SETUP:ICWAVES:EXT_CLK:RESAMPLER_MASK_ENABLED", BOOL)
  const SETUP_ICWAVES_EXT_CLK_FREQUENCY: StandardTraceSetParameter := StandardTraceSetParameter("SETUP_ICWAVES_EXT_CLK_FREQUENCY", 0x29, "SETUP:ICWAVES:EXT_CLK:FREQUENCY", FLOAT)
  const SETUP_ICWAVES_EXT_CLK_TIMEBASE: StandardTraceSetParameter := StandardTraceSetParameter("SETUP_ICWAVES_EXT_CLK_TIMEBASE", 0x2A, "SETUP:ICWAVES:EXT_CLK:TIMEBASE", INT)
  const SETUP_XYZ_GRID_COUNT_X: StandardTraceSetParameter := StandardTraceSetParameter("SETUP_XYZ_GRID_COUNT_X", 0x30, "SETUP:XYZ:GRID_COUNT_X", INT)
  const SETUP_XYZ_GRID_COUNT_Y: StandardTraceSetParameter := StandardTraceSetParameter("SETUP_XYZ_GRID_COUNT_Y", 0x31, "SETUP:XYZ:GRID_COUNT_Y", INT)
  const SETUP_XYZ_MEASUREMENTS_PER_SPOT: StandardTraceSetParameter := StandardTraceSetParameter("SETUP_XYZ_MEASUREMENTS_PER_SPOT", 0x32, "SETUP:XYZ:MEASUREMENTS_PER_SPOT", INT)
  const SETUP_XYZ_REFERENCE_POINTS: StandardTraceSetParameter := StandardTraceSetParameter("SETUP_XYZ_REFERENCE_POINTS", 0x33, "SETUP:XYZ:REFERENCE_POINTS", DOUBLE)
  const DISPLAY_HINT_X_LABEL: StandardTraceSetParameter := StandardTraceSetParameter("DISPLAY_HINT_X_LABEL", 0x40, "DISPLAY_HINT:X_LABEL", STRING)
  const DISPLAY_HINT_Y_LABEL: StandardTraceSetParameter := StandardTraceSetParameter("DISPLAY_HINT_Y_LABEL", 0x41, "DISPLAY_HINT:Y_LABEL", STRING)
  const DISPLAY_HINT_USE_LOG_SCALE: StandardTraceSetParameter := StandardTraceSetParameter("DISPLAY_HINT_USE_LOG_SCALE", 0x42, "DISPLAY_HINT:USE_LOG_SCALE", BOOL)
  const DISPLAY_HINT_NUM_TRACES_SHOWN: StandardTraceSetParameter := StandardTraceSetParameter("DISPLAY_HINT_NUM_TRACES_SHOWN", 0x43, "DISPLAY_HINT:NUM_TRACES_SHOWN", INT)
  const DISPLAY_HINT_TRACES_OVERLAP: StandardTraceSetParameter := StandardTraceSetParameter("DISPLAY_HINT_TRACES_OVERLAP", 0x44, "DISPLAY_HINT:TRACES_OVERLAP", BOOL)
  const TVLA_SET: StandardTraceSetParameter := StandardTraceSetParameter("TVLA_SET", 0x50, "TVLA:SET", STRING)
  const TVLA_CIPHER: StandardTraceSetParameter := StandardTraceSetParameter("TVLA_CIPHER", 0x51, "TVLA:CIPHER", STRING)

  /** The members in declaration order, the order in which the enumeration iterates. */
  const Members: seq<StandardTraceSetParameter> := [
    KEY,
    X_OFFSET,
    X_SCALE,
    Y_SCALE,
    TRACE_OFFSET,
    SETUP_OSCILLOSCOPE_RANGE,
    SETUP_OSCILLOSCOPE_COUPLING,
    SETUP_OSCILLOSCOPE_OFFSET,
    SETUP_OSCILLOSCOPE_INPUT_IMPEDANCE,
    SETUP_OSCILLOSCOPE_DEVICE_IDENTIFIER,
    SETUP_OSCILLOSCOPE_ACTIVE_CHANNEL_COUNT,
    SETUP_OSCILLOSCOPE_COUNT,
    SETUP_ICWAVES_FILTER_TYPE,
    SETUP_ICWAVES_FILTER_FREQUENCY,
    SETUP_ICWAVES_FILTER_RANGE,
    SETUP_ICWAVES_EXT_CLK_ENABLED,
    SETUP_ICWAVES_EXT_CLK_THRESHOLD,
    SETUP_ICWAVES_EXT_CLK_MULTIPLIER,
    SETUP_ICWAVES_EXT_CLK_PHASESHIFT,
    SETUP_ICWAVES_EXT_CLK_RESAMPLER_MASK,
    SETUP_ICWAVES_EXT_CLK_RESAMPLER_MASK_ENABLED,
    SETUP_ICWAVES_EXT_CLK_FREQUENCY,
    SETUP_ICWAVES_EXT_CLK_TIMEBASE,
    SETUP_XYZ_GRID_COUNT_X,
    SETUP_XYZ_GRID_COUNT_Y,
    SETUP_XYZ_MEASUREMENTS_PER_SPOT,
    SETUP_XYZ_REFERENCE_POINTS,
    DISPLAY_HINT_X_LABEL,
    DISPLAY_HINT_Y_LABEL,
    DISPLAY_HINT_USE_LOG_SCALE,
    DISPLAY_HINT_NUM_TRACES_SHOWN,
    DISPLAY_HINT_TRACES_OVERLAP,
    TVLA_SET,
    TVLA_CIPHER
  ]

  function Labels(): (ls: seq<Label>)
    ensures |ls| == |Members| && forall j :: 0 <= j < |Members| ==> ls[j] == Members[j].Label()
  {
    seq(|Members|, j requires 0 <= j < |Members| => Members[j].Label())
  }

  /**
   * `from_identifier`: the first member, in declaration order, whose identifier
   * or member name equals the argument ignoring case; ValueError when none does.
   */
  function FromIdentifier(identifier: seq<byte>): (r: Result<StandardTraceSetParameter>)
    ensures r.Ok? ==> exists k :: (0 <= k < |Members| && r.value == Members[k] && Matches(identifier, Members[k].Label()) &&
      forall j :: 0 <= j < k ==> !Matches(identifier, Members[j].Label()))
    ensures r.Err? ==> (r.error == ValueError && forall j :: 0 <= j < |Members| ==> !Matches(identifier, Members[j].Label()))
  {
    match FirstMatch(identifier, Labels())
    case Some(k) => Ok(Members[k])
    case None => Err(ValueError)
  }

  /** The tags ascend in declaration order. */
  lemma TagsAscend()
    ensures forall i :: 0 < i < |Members| ==> Members[i - 1].tag < Members[i].tag
  {
  }

  /** No two members share a tag, so `StandardTraceSetParameters(tag)` names one member. */
  lemma TagsDistinct(i: nat, j: nat)
    requires i < j < |Members|
    ensures Members[i].tag < Members[j].tag
    decreases j - i
  {
    TagsAscend();
    if i + 1 < j {
      TagsDistinct(i + 1, j);
    }
  }

  /** Any spelling of the member name DISPLAY_HINT_X_LABEL up to case, such as 'display_hint_x_label', finds that member, although its identifier is 'DISPLAY_HINT:X_LABEL'. */
  lemma LookupByMemberName(key: seq<byte>)
    requires SameUpToCase(key, DISPLAY_HINT_X_LABEL.name)
    ensures FromIdentifier(key) == Ok(DISPLAY_HINT_X_LABEL)
  {
    assert Members[27] == DISPLAY_HINT_X_LABEL;
    NoEarlierLabelOfLength(27, 20);
    FirstMatchByLength(key, Labels(), 27);
  }

  /** No member before index k has an identifier or a member name of n characters, for the two lookups above. */
  lemma NoEarlierLabelOfLength(k: nat, n: nat)
    requires (k, n) == (27, 20) || (k, n) == (12, 30)
    ensures k <= |Members| && forall j :: 0 <= j < k ==> |Members[j].identifier| != n && |Members[j].name| != n
  {
  }

  /** The identifiers of the three ICWAVES filter members are crossed: 'SETUP:ICWAVES:FILTER:FREQUENCY', in any case, finds SETUP_ICWAVES_FILTER_TYPE, whose type is INT. */
  lemma CrossedFilterIdentifiers(key: seq<byte>)
    requires SameUpToCase(key, SETUP_ICWAVES_FILTER_TYPE.identifier)
    ensures FromIdentifier(key) == Ok(SETUP_ICWAVES_FILTER_TYPE)
    ensures SETUP_ICWAVES_FILTER_TYPE.parameterType == INT
  {
    assert Members[12] == SETUP_ICWAVES_FILTER_TYPE;
    NoEarlierLabelOfLength(12, 30);
    FirstMatchByLength(key, Labels(), 12);
  }

  /** A name that is neither an identifier nor a member name raises ValueError. */
  lemma UnknownIdentifier()
    ensures FromIdentifier(Ascii("NO:SUCH:ID")) == Err(ValueError)
  {
    var key := Ascii("NO:SUCH:ID");
    AsciiFold(key);
    NoLabelOfLengthTen();
    NoMatchByLength(key, Labels());
  }

  /** No identifier and no member name is ten characters long. */
  lemma NoLabelOfLengthTen()
    ensures forall j :: 0 <= j < |Members| ==> |Members[j].identifier| != 10 && |Members[j].name| != 10
  {
  }

  /** 'KEY' spelled with the Kelvin sign U+212A for its K lowers to 'key' and so finds KEY. */
  lemma KelvinSignFindsKey()
    ensures FromIdentifier([0xE2, 0x84, 0xAA] + Ascii("EY")) == Ok(KEY)
  {
    var key: seq<byte> := [0xE2, 0x84, 0xAA] + Ascii("EY");
    assert key[3..] == Ascii("EY");
    AsciiFold(key[3..]);
    assert Fold(key) == ['k' as int] + Fold(key[3..]);
    assert Fold(key) == LowerText(KEY.identifier);
    FirstMatchAt(key, Labels(), 0);
  }
}

// trsfile/standardparameters.py, lines 67-106: the names reserved for trace parameters.
module StandardTraceParameters {
  import opened PyErrors
  import opened PyValues
  import opened TraceParameters
  import opened Registries
  import opened Utils

  /** A member of the enumeration: its own name, its value (the tag), its identifier and its type. */
  datatype StandardTraceParameter = StandardTraceParameter(name: string, tag: int, identifier: string, parameterType: ParameterType)
  {
    function Label(): Label
    {
      (identifier, name)
    }
  }

  const INPUT: StandardTraceParameter := StandardTraceParameter("INPUT", 0x01, "INPUT", BYTE)
  const OUTPUT: StandardTraceParameter := StandardTraceParameter("OUTPUT", 0x02, "OUTPUT", BYTE)
  const KEY: StandardTraceParameter := StandardTraceParameter("KEY", 0x03, "KEY", BYTE)
  const TIMEOUT: StandardTraceParameter := StandardTraceParameter("TIMEOUT", 0x04, "TIMEOUT", INT)
  const UNKNOWN_IO_DATA: StandardTraceParameter := StandardTraceParameter("UNKNOWN_IO_DATA", 0x05, "UNKNOWN_IO_DATA", BYTE)
  const CHANNEL_INDEX: StandardTraceParameter := StandardTraceParameter("CHANNEL_INDEX", 0x06, "CHANNEL_INDEX", INT)
  const PATTERN_TYPE: StandardTraceParameter := StandardTraceParameter("PATTERN_TYPE", 0x07, "PATTERN_TYPE", BYTE)
  const TVLA_SET_INDEX: StandardTraceParameter := StandardTraceParameter("TVLA_SET_INDEX", 0x08, "TVLA:SET_INDEX", SHORT)
  const XYZ_RELATIVE_POSITION: StandardTraceParameter := StandardTraceParameter("XYZ_RELATIVE_POSITION", 0x09, "XYZ:RELATIVE_POSITION", DOUBLE)
  const SOURCE_TRACE_INDEX: StandardTraceParameter := StandardTraceParameter("SOURCE_TRACE_INDEX", 0x0A, "SOURCE_TRACE_INDEX", INT)
  const SOURCE_TRACE_SAMPLE_INDEX: StandardTraceParameter := StandardTraceParameter("SOURCE_TRACE_SAMPLE_INDEX", 0x0B, "SOURCE_TRACE_SAMPLE_INDEX", INT)
  const FILTER_LOW_BOUND: StandardTraceParameter := StandardTraceParameter("FILTER_LOW_BOUND", 0x10, "FILTER:LOW_BOUND", FLOAT)
  const FILTER_HIGH_BOUND: StandardTraceParameter := StandardTraceParameter("FILTER_HIGH_BOUND", 0x11, "FILTER:HIGH_BOUND", FLOAT)
  const FILTER_SEGMENTS_VALUES: StandardTraceParameter := StandardTraceParameter("FILTER_SEGMENTS_VALUES", 0x12, "FILTER:SEGMENTS:VALUES", BYTE)
  const FILTER_SEGMENTS_COUNT: StandardTraceParameter := StandardTraceParameter("FILTER_SEGMENTS_COUNT", 0x13, "FILTER:SEGMENTS:COUNT", INT)

  /** The members in declaration order, the order in which the enumeration iterates. */
  const Members: seq<StandardTraceParameter> := [
    INPUT,
    OUTPUT,
    KEY,
    TIMEOUT,
    UNKNOWN_IO_DATA,
    CHANNEL_INDEX,
    PATTERN_TYPE,
    TVLA_SET_INDEX,
    XYZ_RELATIVE_POSITION,
    SOURCE_TRACE_INDEX,
    SOURCE_TRACE_SAMPLE_INDEX,
    FILTER_LOW_BOUND,
    FILTER_HIGH_BOUND,
    FILTER_SEGMENTS_VALUES,
    FILTER_SEGMENTS_COUNT
  ]

  function Labels(): (ls: seq<Label>)
    ensures |ls| == |Members| && forall j :: 0 <= j < |Members| ==> ls[j] == Members[j].Label()
  {
    seq(|Members|, j requires 0 <= j < |Members| => Members[j].Label())
  }

  /**
   * `from_identifier`: the first member, in declaration order, whose identifier
   * or member name equals the argument ignoring case; ValueError when none does.
   */
  function FromIdentifier(identifier: seq<byte>): (r: Result<StandardTraceParameter>)
    ensures r.Ok? ==> exists k :: (0 <= k < |Members| && r.value == Members[k] && Matches(identifier, Members[k].Label()) &&
      forall j :: 0 <= j < k ==> !Matches(identifier, Members[j].Label()))
    ensures r.Err? ==> (r.error == ValueError && forall j :: 0 <= j < |Members| ==> !Matches(identifier, Members[j].Label()))
  {
    match FirstMatch(identifier, Labels())
    case Some(k) => Ok(Members[k])
    case None => Err(ValueError)
  }

  /** The tags ascend in declaration order. */
  lemma TagsAscend()
    ensures forall i :: 0 < i < |Members| ==> Members[i - 1].tag < Members[i].tag
  {
  }

  /** No two members share a tag, so `StandardTraceParameters(tag)` names one member. */
  lemma TagsDistinct(i: nat, j: nat)
    requires i < j < |Members|
    ensures Members[i].tag < Members[j].tag
    decreases j - i
  {
    TagsAscend();
    if i + 1 < j {
      TagsDistinct(i + 1, j);
    }
  }

  /** The identifier 'TVLA:SET_INDEX' is accepted in any case; the member's type is SHORT. */
  lemma LookupByIdentifier(key: seq<byte>)
    requires SameUpToCase(key, TVLA_SET_INDEX.identifier)
    ensures FromIdentifier(key) == Ok(TVLA_SET_INDEX)
    ensures TVLA_SET_INDEX.parameterType == SHORT
  {
    assert Members[7] == TVLA_SET_INDEX;
    assert forall j :: 0 <= j < 7 ==> |Members[j].identifier| != 14 && |Members[j].name| != 14;
    FirstMatchAt(key, Labels(), 7);
  }

  /** A name that is neither an identifier nor a member name raises ValueError. */
  lemma UnknownIdentifier()
    ensures FromIdentifier(Ascii("NO:SUCH:ID")) == Err(ValueError)
  {
    var key := Ascii("NO:SUCH:ID");
    AsciiFold(key);
    NoLabelOfLengthTen();
    NoMatchByLength(key, Labels());
  }

  /** No identifier and no member name is ten characters long. */
  lemma NoLabelOfLengthTen()
    ensures forall j :: 0 <= j < |Members| ==> |Members[j].identifier| != 10 && |Members[j].name| != 10
  {
  }
}
