// trsfile/common.py: the padding modes, the sample codings and the table of
// headers a .trs file can hold.
module Common {
  import opened PyErrors
  import opened PyValues
  import opened Utils
  import Std = StandardTraceSetParameters

  /** TracePadding: what a storage engine does with traces of different lengths. */
  datatype TracePadding = NONE | PAD | TRUNCATE | AUTO
  {
    function Value(): int
    {
      match this
      case NONE => 0
      case PAD => 1
      case TRUNCATE => 2
      case AUTO => 3
    }
  }

  /**
   * SampleCoding: the encoding of one sample.  Bit 4 of the value says float
   * (1) or integer (0) and bits 0 to 3 give the sample's size in bytes.
   */
  datatype SampleCoding = BYTE | SHORT | INT | FLOAT
  {
    function Value(): byte
    {
      match this
      case BYTE => 0x01
      case SHORT => 0x02
      case INT => 0x04
      case FLOAT => 0x14
    }

    function Size(): nat
    {
      match this
      case BYTE => 1
      case SHORT => 2
      case INT => 4
      case FLOAT => 4
    }

    /** `is_float`: the bit test `value & 0x10 != 0`. */
    predicate IsFloat()
    {
      (Value() as int / 0x10) % 2 == 1
    }
  }

  /** Only FLOAT is a float coding. */
  lemma IsFloatOnlyFloat(c: SampleCoding)
    ensures c.IsFloat() <==> c == FLOAT
  {
  }

  /** Bits 0 to 3 of every coding's value hold its size in bytes, and bits 5 to 7 are clear. */
  lemma LowNibbleIsSize(c: SampleCoding)
    ensures c.Value() as int % 0x10 == c.Size() && c.Value() as int < 0x20
  {
  }

  /** `SampleCoding(v)`: the coding with value v, ValueError for any other value. */
  function SampleCodingOf(v: int): (r: Result<SampleCoding>)
    ensures r.Ok? ==> r.value.Value() == v
    ensures r.Err? ==> r.error == ValueError && forall c: SampleCoding :: c.Value() != v
  {
    if v == 0x01 then Ok(BYTE)
    else if v == 0x02 then Ok(SHORT)
    else if v == 0x04 then Ok(INT)
    else if v == 0x14 then Ok(FLOAT)
    else Err(ValueError)
  }

  /** The Python type a header's value has. */
  datatype HeaderType =
    | IntType | FloatType | BoolType | StrType | BytesType | SampleCodingType | NoType
    | SetParameterMapType | DefinitionMapType

  /** A header's default: a plain value, or a sample coding. */
  datatype HeaderDefault = Value(v: PyValue) | Coding(c: SampleCoding)

  /**
   * A member of the Header enumeration: its member name, its tag (the enum
   * value), the two-letter name, whether every file must hold it, the type of
   * its value, its fixed length in bytes (None when variable), its default and
   * the standard trace-set parameter that carries the same information.
   */
  datatype Header = Header(
    tag: byte, tagName: string, mandatory: bool, hType: HeaderType, length: Option<nat>, default: HeaderDefault)

  const NUMBER_TRACES: Header := Header(0x41, "NT", true, IntType, Some(4), Value(PInt(0)))
  const NUMBER_SAMPLES: Header := Header(0x42, "NS", true, IntType, Some(4), Value(PNone))
  const SAMPLE_CODING: Header := Header(0x43, "SC", true, SampleCodingType, Some(1), Coding(SampleCoding.BYTE))
  const LENGTH_DATA: Header := Header(0x44, "DS", false, IntType, Some(2), Value(PNone))
  const TITLE_SPACE: Header := Header(0x45, "TS", false, IntType, Some(1), Value(PInt(255)))
  const TRACE_TITLE: Header := Header(0x46, "GT", false, StrType, None, Value(PStr([0x74, 0x72, 0x61, 0x63, 0x65])))
  const DESCRIPTION: Header := Header(0x47, "DC", false, StrType, None, Value(PNone))
  const OFFSET_X: Header := Header(0x48, "XO", false, IntType, Some(4), Value(PInt(0)))
  const LABEL_X: Header := Header(0x49, "XL", false, StrType, None, Value(PNone))
  const LABEL_Y: Header := Header(0x4A, "YL", false, StrType, None, Value(PNone))
  const SCALE_X: Header := Header(0x4B, "XS", false, FloatType, Some(4), Value(PInt(1)))
  const SCALE_Y: Header := Header(0x4C, "YS", false, FloatType, Some(4), Value(PInt(1)))
  const TRACE_OFFSET: Header := Header(0x4D, "TO", false, IntType, Some(4), Value(PInt(0)))
  const LOGARITHMIC_SCALE: Header := Header(0x4E, "LS", false, IntType, Some(1), Value(PInt(0)))
  const ACQUISITION_RANGE_OF_SCOPE: Header := Header(0x55, "RG", false, FloatType, Some(4), Value(PInt(0)))
  const ACQUISITION_COUPLING_OF_SCOPE: Header := Header(0x56, "CL", false, IntType, Some(4), Value(PInt(0)))
  const ACQUISITION_OFFSET_OF_SCOPE: Header := Header(0x57, "OS", false, FloatType, Some(4), Value(PInt(0)))
  const ACQUISITION_INPUT_IMPEDANCE: Header := Header(0x58, "II", false, FloatType, Some(4), Value(PInt(0)))
  const ACQUISITION_DEVICE_ID: Header := Header(0x59, "AI", false, BytesType, None, Value(PNone))
  const ACQUISITION_TYPE_FILTER: Header := Header(0x5A, "FT", false, IntType, Some(4), Value(PInt(0)))
  const ACQUISITION_FREQUENCY_FILTER: Header := Header(0x5B, "FF", false, FloatType, Some(4), Value(PInt(0)))
  const ACQUISITION_RANGE_FILTER: Header := Header(0x5C, "FR", false, FloatType, Some(4), Value(PInt(0)))
  const TRACE_BLOCK: Header := Header(0x5F, "TB", true, NoType, Some(0), Value(PNone))
  const EXTERNAL_CLOCK_USED: Header := Header(0x60, "EU", false, BoolType, Some(1), Value(PBool(false)))
  const EXTERNAL_CLOCK_THRESHOLD: Header := Header(0x61, "ET", false, FloatType, Some(4), Value(PInt(0)))
  const EXTERNAL_CLOCK_MULTIPLIER: Header := Header(0x62, "EM", false, IntType, Some(4), Value(PInt(0)))
  const EXTERNAL_CLOCK_PHASE_SHIFT: Header := Header(0x63, "EP", false, IntType, Some(4), Value(PInt(0)))
  const EXTERNAL_CLOCK_RESAMPLER_MASK: Header := Header(0x64, "ER", false, IntType, Some(4), Value(PInt(0)))
  const EXTERNAL_CLOCK_RESAMPLER_ENABLED: Header := Header(0x65, "RE", false, BoolType, Some(1), Value(PBool(false)))
  const EXTERNAL_CLOCK_FREQUENCY: Header := Header(0x66, "EF", false, FloatType, Some(4), Value(PInt(0)))
  const EXTERNAL_CLOCK_BASE: Header := Header(0x67, "EB", false, IntType, Some(4), Value(PInt(0)))
  const NUMBER_VIEW: Header := Header(0x68, "VT", false, IntType, Some(4), Value(PInt(0)))
  const TRACE_OVERLAP: Header := Header(0x69, "OV", false, BoolType, Some(1), Value(PBool(false)))
  const GO_LAST_TRACE: Header := Header(0x6A, "GL", false, BoolType, Some(1), Value(PBool(false)))
  const INPUT_OFFSET: Header := Header(0x6B, "IO", false, IntType, Some(4), Value(PInt(0)))
  const OUTPUT_OFFSET: Header := Header(0x6C, "OO", false, IntType, Some(4), Value(PInt(0)))
  const KEY_OFFSET: Header := Header(0x6D, "KO", false, IntType, Some(4), Value(PInt(0)))
  const INPUT_LENGTH: Header := Header(0x6E, "IL", false, IntType, Some(4), Value(PInt(0)))
  const OUTPUT_LENGTH: Header := Header(0x6F, "OL", false, IntType, Some(4), Value(PInt(0)))
  const KEY_LENGTH: Header := Header(0x70, "KL", false, IntType, Some(4), Value(PInt(0)))
  const NUMBER_OF_ENABLED_CHANNELS: Header := Header(0x71, "CH", false, IntType, Some(4), Value(PInt(0)))
  const NUMBER_OF_USED_OSCILLOSCOPES: Header := Header(0x72, "NO", false, IntType, Some(4), Value(PInt(0)))
  const XY_SCAN_WIDTH: Header := Header(0x73, "WI", false, IntType, Some(4), Value(PInt(0)))
  const XY_SCAN_HEIGHT: Header := Header(0x74, "HE", false, IntType, Some(4), Value(PInt(0)))
  const XY_MEASUREMENTS_PER_SPOT: Header := Header(0x75, "ME", false, IntType, Some(4), Value(PInt(0)))
  const TRS_VERSION: Header := Header(0x76, "VS", false, IntType, Some(1), Value(PNone))
  const TRACE_SET_PARAMETERS: Header := Header(0x77, "GP", false, SetParameterMapType, None, Value(PNone))
  const TRACE_PARAMETER_DEFINITIONS: Header := Header(0x78, "LP", false, DefinitionMapType, None, Value(PNone))

  /**
   * The members in declaration order, the order in which the enumeration
   * iterates; written as four literals of twelve, which the verifier
   * unfolds more readily than one long one.
   */
  const Headers: seq<Header> := HeadersA + HeadersB + HeadersC + HeadersD

  const HeadersA: seq<Header> := [
    NUMBER_TRACES,
    NUMBER_SAMPLES,
    SAMPLE_CODING,
    LENGTH_DATA,
    TITLE_SPACE,
    TRACE_TITLE,
    DESCRIPTION,
    OFFSET_X,
    LABEL_X,
    LABEL_Y,
    SCALE_X,
    SCALE_Y
  ]

  const HeadersB: seq<Header> := [
    TRACE_OFFSET,
    LOGARITHMIC_SCALE,
    ACQUISITION_RANGE_OF_SCOPE,
    ACQUISITION_COUPLING_OF_SCOPE,
    ACQUISITION_OFFSET_OF_SCOPE,
    ACQUISITION_INPUT_IMPEDANCE,
    ACQUISITION_DEVICE_ID,
    ACQUISITION_TYPE_FILTER,
    ACQUISITION_FREQUENCY_FILTER,
    ACQUISITION_RANGE_FILTER,
    TRACE_BLOCK,
    EXTERNAL_CLOCK_USED
  ]

  const HeadersC: seq<Header> := [
    EXTERNAL_CLOCK_THRESHOLD,
    EXTERNAL_CLOCK_MULTIPLIER,
    EXTERNAL_CLOCK_PHASE_SHIFT,
    EXTERNAL_CLOCK_RESAMPLER_MASK,
    EXTERNAL_CLOCK_RESAMPLER_ENABLED,
    EXTERNAL_CLOCK_FREQUENCY,
    EXTERNAL_CLOCK_BASE,
    NUMBER_VIEW,
    TRACE_OVERLAP,
    GO_LAST_TRACE,
    INPUT_OFFSET,
    OUTPUT_OFFSET
  ]

  const HeadersD: seq<Header> := [
    KEY_OFFSET,
    INPUT_LENGTH,
    OUTPUT_LENGTH,
    KEY_LENGTH,
    NUMBER_OF_ENABLED_CHANNELS,
    NUMBER_OF_USED_OSCILLOSCOPES,
    XY_SCAN_WIDTH,
    XY_SCAN_HEIGHT,
    XY_MEASUREMENTS_PER_SPOT,
    TRS_VERSION,
    TRACE_SET_PARAMETERS,
    TRACE_PARAMETER_DEFINITIONS
  ]

  /** `Header.has_value(tag)`: some member has this tag. */
  predicate HasValue(tag: int)
  {
    exists i :: 0 <= i < |Headers| && Headers[i].tag as int == tag
  }

  /** The first header in hs with the tag, by a scan in declaration order. */
  function FindTag(hs: seq<Header>, tag: int): (r: Option<Header>)
    ensures r.Some? ==> r.value in hs && r.value.tag as int == tag
    ensures r.None? <==> forall i :: 0 <= i < |hs| ==> hs[i].tag as int != tag
  {
    if hs == [] then None
    else if hs[0].tag as int == tag then Some(hs[0])
    else FindTag(hs[1..], tag)
  }

  /** `Header(tag)`: the member with this tag, ValueError when there is none. */
  function FromTag(tag: int): (r: Result<Header>)
    ensures r.Ok? <==> HasValue(tag)
    ensures r.Ok? ==> r.value in Headers && r.value.tag as int == tag
    ensures r.Err? ==> r.error == ValueError
  {
    match FindTag(Headers, tag)
    case Some(h) => Ok(h)
    case None => Err(ValueError)
  }

  predicate Ascending(hs: seq<Header>)
  {
    forall i :: 0 < i < |hs| ==> hs[i - 1].tag < hs[i].tag
  }

  lemma {:induction false} AscendingJoin(a: seq<Header>, b: seq<Header>)
    requires Ascending(a) && Ascending(b) && a != [] && b != [] && a[|a| - 1].tag < b[0].tag
    ensures Ascending(a + b)
  {
    forall i | 0 < i < |a + b|
      ensures (a + b)[i - 1].tag < (a + b)[i].tag
    {
      if i == |a| {
      } else if i < |a| {
        assert (a + b)[i] == a[i];
      } else {
        assert (a + b)[i] == b[i - |a|];
      }
    }
  }

  /** The tags ascend in declaration order. */
  lemma TagsAscend()
    ensures Ascending(Headers)
  {
    assert Ascending(HeadersA) && Ascending(HeadersB) && Ascending(HeadersC) && Ascending(HeadersD);
    AscendingJoin(HeadersA, HeadersB);
    AscendingJoin(HeadersA + HeadersB, HeadersC);
    AscendingJoin(HeadersA + HeadersB + HeadersC, HeadersD);
  }

  /** In a table whose tags ascend, the scan for a member's tag finds that member. */
  lemma {:induction false} FindTagOfMember(hs: seq<Header>, i: nat)
    requires Ascending(hs) && i < |hs|
    ensures FindTag(hs, hs[i].tag as int) == Some(hs[i])
  {
    if i > 0 {
      assert hs[1..][i - 1] == hs[i];
      FindTagBelow(hs, i);
      FindTagOfMember(hs[1..], i - 1);
    }
  }

  lemma {:induction false} FindTagBelow(hs: seq<Header>, i: nat)
    requires Ascending(hs) && 0 < i < |hs|
    ensures hs[0].tag < hs[i].tag
  {
    if i > 1 {
      FindTagBelow(hs[1..], i - 1);
    }
  }

  /** Every member's tag leads back to that member: no two members share a tag. */
  lemma FromTagOfMember(h: Header)
    requires h in Headers
    ensures FromTag(h.tag as int) == Ok(h)
  {
    var i :| 0 <= i < |Headers| && Headers[i] == h;
    TagsAscend();
    FindTagOfMember(Headers, i);
  }

  /** `Header.get_mandatory()`: the set of mandatory members. */
  function GetMandatory(): (r: set<Header>)
  {
    MandatoryOf(Headers)
  }

  /** The mandatory members of a list of headers. */
  function MandatoryOf(hs: seq<Header>): (r: set<Header>)
    ensures forall h :: h in r <==> h in hs && h.mandatory
  {
    set i | 0 <= i < |hs| && hs[i].mandatory :: hs[i]
  }

  /** Where the mandatory members sit in each quarter of the table. */
  lemma MandatoryPositions()
    ensures forall i :: 0 <= i < |HeadersA| ==> (HeadersA[i].mandatory <==> i < 3)
    ensures forall i :: 0 <= i < |HeadersB| ==> (HeadersB[i].mandatory <==> i == 10)
    ensures forall i :: 0 <= i < |HeadersC| ==> !HeadersC[i].mandatory
    ensures forall i :: 0 <= i < |HeadersD| ==> !HeadersD[i].mandatory
  {
  }

  lemma MandatoryIndexes()
    ensures forall i :: 0 <= i < |Headers| ==> (Headers[i].mandatory <==> i in {0, 1, 2, 22})
  {
    MandatoryPositions();
    forall i | 0 <= i < |Headers|
      ensures Headers[i].mandatory <==> i in {0, 1, 2, 22}
    {
      QuarterIndex(i);
    }
  }

  /** Index i of the table is index i - 12k of its quarter k. */
  lemma QuarterIndex(i: nat)
    requires i < |Headers|
    ensures i < 12 ==> Headers[i] == HeadersA[i]
    ensures 12 <= i < 24 ==> Headers[i] == HeadersB[i - 12]
    ensures 24 <= i < 36 ==> Headers[i] == HeadersC[i - 24]
    ensures 36 <= i ==> Headers[i] == HeadersD[i - 36]
  {
  }

  /** The mandatory headers are exactly NUMBER_TRACES, NUMBER_SAMPLES, SAMPLE_CODING and TRACE_BLOCK. */
  lemma MandatoryHeaders()
    ensures GetMandatory() == {NUMBER_TRACES, NUMBER_SAMPLES, SAMPLE_CODING, TRACE_BLOCK}
  {
    MandatoryWithin();
    MandatoryContains();
    MandatoryMembers();
  }

  /** A mandatory header is one of the four. */
  lemma MandatoryIs(h: Header)
    requires h in GetMandatory()
    ensures h == NUMBER_TRACES || h == NUMBER_SAMPLES || h == SAMPLE_CODING || h == TRACE_BLOCK
  {
    MandatoryHeaders();
    OneOfFour(h, GetMandatory(), NUMBER_TRACES, NUMBER_SAMPLES, SAMPLE_CODING, TRACE_BLOCK);
  }

  /** A member of a set of four is one of the four. */
  lemma OneOfFour<T>(x: T, s: set<T>, a: T, b: T, c: T, d: T)
    requires x in s && s == {a, b, c, d}
    ensures x == a || x == b || x == c || x == d
  {
  }

  /** Every mandatory member sits at index 0, 1, 2 or 22. */
  lemma MandatoryWithin()
    ensures GetMandatory() <= {Headers[0], Headers[1], Headers[2], Headers[22]}
  {
    MandatoryIndexes();
    forall h | h in GetMandatory()
      ensures h in {Headers[0], Headers[1], Headers[2], Headers[22]}
    {
      var i :| 0 <= i < |Headers| && Headers[i].mandatory && Headers[i] == h;
    }
  }

  /** The members at index 0, 1, 2 and 22 are mandatory. */
  lemma MandatoryContains()
    ensures {Headers[0], Headers[1], Headers[2], Headers[22]} <= GetMandatory()
  {
    MandatoryIndexes();
    assert 22 in {0, 1, 2, 22};
  }

  /** The members at the mandatory indexes. */
  lemma MandatoryMembers()
    ensures Headers[0] == NUMBER_TRACES && Headers[1] == NUMBER_SAMPLES && Headers[2] == SAMPLE_CODING && Headers[22] == TRACE_BLOCK
  {
    QuarterIndex(0);
    QuarterIndex(1);
    QuarterIndex(2);
    QuarterIndex(22);
  }

  /** The mandatory headers in declaration order, the order this model adds missing ones in. */
  const Mandatory: seq<Header> := [NUMBER_TRACES, NUMBER_SAMPLES, SAMPLE_CODING, TRACE_BLOCK]

  /**
   * The lengths the table fixes: int headers take 1, 2 or 4 bytes, float
   * headers 4 and bool headers 1; str, bytes and the two parameter maps have
   * a variable length.
   */
  predicate FixedLengths(h: Header)
  {
    (h.hType == IntType ==> h.length in {Some(1), Some(2), Some(4)})
    && (h.hType == FloatType ==> h.length == Some(4))
    && (h.hType == BoolType ==> h.length == Some(1))
    && (h.hType in {StrType, BytesType, SetParameterMapType, DefinitionMapType} ==> h.length.None?)
  }

  lemma QuarterLengths()
    ensures forall i :: 0 <= i < |HeadersA| ==> FixedLengths(HeadersA[i])
    ensures forall i :: 0 <= i < |HeadersB| ==> FixedLengths(HeadersB[i])
    ensures forall i :: 0 <= i < |HeadersC| ==> FixedLengths(HeadersC[i])
    ensures forall i :: 0 <= i < |HeadersD| ==> FixedLengths(HeadersD[i])
  {
  }

  /** Every member has the length its type calls for; TRACE_BLOCK is the tag 0x5F with length 0. */
  lemma HeaderLengths()
    ensures forall i :: 0 <= i < |Headers| ==> FixedLengths(Headers[i])
    ensures TRACE_BLOCK.tag == 0x5F && TRACE_BLOCK.length == Some(0) && TRACE_BLOCK.hType == NoType
  {
    QuarterLengths();
    forall i | 0 <= i < |Headers|
      ensures FixedLengths(Headers[i])
    {
      QuarterIndex(i);
    }
  }

  /**
   * `equivalent_std_param`: the standard trace-set parameter that holds the
   * same information as a header, which `fill_from_headers` copies the
   * header's value into.  The pairs are those the library's own tests expect.
   */
  function EquivalentStdParam(h: Header): (r: Option<Std.StandardTraceSetParameter>)
  {
    match h.tag
    case 0x49 => Some(Std.DISPLAY_HINT_X_LABEL)
    case 0x4A => Some(Std.DISPLAY_HINT_Y_LABEL)
    case 0x48 => Some(Std.X_OFFSET)
    case 0x4B => Some(Std.X_SCALE)
    case 0x4C => Some(Std.Y_SCALE)
    case 0x4D => Some(Std.TRACE_OFFSET)
    case 0x4E => Some(Std.DISPLAY_HINT_USE_LOG_SCALE)
    case 0x55 => Some(Std.SETUP_OSCILLOSCOPE_RANGE)
    case 0x56 => Some(Std.SETUP_OSCILLOSCOPE_COUPLING)
    case 0x57 => Some(Std.SETUP_OSCILLOSCOPE_OFFSET)
    case 0x58 => Some(Std.SETUP_OSCILLOSCOPE_INPUT_IMPEDANCE)
    case 0x59 => Some(Std.SETUP_OSCILLOSCOPE_DEVICE_IDENTIFIER)
    case 0x5A => Some(Std.SETUP_ICWAVES_FILTER_TYPE)
    case 0x5B => Some(Std.SETUP_ICWAVES_FILTER_FREQUENCY)
    case 0x5C => Some(Std.SETUP_ICWAVES_FILTER_RANGE)
    case 0x60 => Some(Std.SETUP_ICWAVES_EXT_CLK_ENABLED)
    case 0x61 => Some(Std.SETUP_ICWAVES_EXT_CLK_THRESHOLD)
    case 0x62 => Some(Std.SETUP_ICWAVES_EXT_CLK_MULTIPLIER)
    case 0x63 => Some(Std.SETUP_ICWAVES_EXT_CLK_PHASESHIFT)
    case 0x64 => Some(Std.SETUP_ICWAVES_EXT_CLK_RESAMPLER_MASK)
    case 0x65 => Some(Std.SETUP_ICWAVES_EXT_CLK_RESAMPLER_MASK_ENABLED)
    case 0x66 => Some(Std.SETUP_ICWAVES_EXT_CLK_FREQUENCY)
    case 0x67 => Some(Std.SETUP_ICWAVES_EXT_CLK_TIMEBASE)
    case 0x68 => Some(Std.DISPLAY_HINT_NUM_TRACES_SHOWN)
    case 0x69 => Some(Std.DISPLAY_HINT_TRACES_OVERLAP)
    case 0x71 => Some(Std.SETUP_OSCILLOSCOPE_ACTIVE_CHANNEL_COUNT)
    case 0x72 => Some(Std.SETUP_OSCILLOSCOPE_COUNT)
    case 0x73 => Some(Std.SETUP_XYZ_GRID_COUNT_X)
    case 0x74 => Some(Std.SETUP_XYZ_GRID_COUNT_Y)
    case 0x75 => Some(Std.SETUP_XYZ_MEASUREMENTS_PER_SPOT)
    case _ => None
  }

  /**
   * The headers the engine itself manages (the mandatory ones, the stride
   * headers, the version and the two parameter maps) have no equivalent, so
   * filling a trace-set parameter map never copies them.
   */
  lemma StructuralHeadersHaveNoEquivalent(h: Header)
    requires h in {NUMBER_TRACES, NUMBER_SAMPLES, SAMPLE_CODING, TRACE_BLOCK, LENGTH_DATA, TITLE_SPACE,
                   TRS_VERSION, TRACE_SET_PARAMETERS, TRACE_PARAMETER_DEFINITIONS}
    ensures EquivalentStdParam(h).None?
  {
  }

  /** LABEL_X is carried over as DISPLAY_HINT:X_LABEL and OFFSET_X as X_OFFSET. */
  lemma LabelAndOffsetEquivalents()
    ensures EquivalentStdParam(LABEL_X) == Some(Std.DISPLAY_HINT_X_LABEL)
    ensures EquivalentStdParam(OFFSET_X) == Some(Std.X_OFFSET)
  {
  }
}
