# A verified model of the trsfile core

This project models the core of `trsfile`, the Python library that reads and
writes Riscure `.trs` trace-set files, and proves properties of the model.
It covers three layers.

- **Binary primitives and tables.** The 16-bit little-endian codec and the
  length-prefixed names of `trsfile/utils.py` (`Utils`), including a
  `BytesIO` cursor class. The `SampleCoding`, `TracePadding` and `Header`
  tables of `trsfile/common.py` (`Common`). The trace parameter variants,
  their construction checks, codecs and equality, the `ParameterType` table
  and the 5-byte `TraceParameterDefinition` of `trsfile/traceparameter.py`
  (`TraceParameters`). The two registries of `trsfile/standardparameters.py`
  (`StandardTraceSetParameters`, `StandardTraceParameters`, over the shared
  first-match search in `Registries`).
- **Parameter maps** of `trsfile/parametermap.py`. Ordered dictionaries are
  sequences of distinct-keyed pairs (`OrderedDicts`). `LockableDict` is a class
  with its one-way lock. Value-type inference is in `ParameterTyping`. The
  trace set parameter map and its nested byte format are in
  `TraceSetParameterMaps`. The definition map, with `append`, `insert` and
  the offset arithmetic, is in `TraceParameterDefinitionMaps`.
  `TraceParameterMap` and `RawTraceData`, with `matches`, are in
  `TraceParameterMaps`. The read loops the two `deserialize` methods share are
  in `EntryStreams`.
- **The storage engine.** `Engine.update_headers` of
  `trsfile/engine/engine.py` is in `Engines`. `TrsEngine` of
  `trsfile/engine/trs.py` is split over several modules:
  - the tag-length-value records and the header value codecs (`Tlvs`);
  - `__write_headers` / `__read_headers` with the layout they keep
    (`TrsHeaders`);
  - the trace records (`TrsTraces`);
  - opening, header creation, `set_traces`, `get_traces` and `close`
    (`TrsEngines`);
  - the `TrsEngine` class itself (`TrsEngineObjects`).

The engine's attributes form one value, `TrsHeaders.Engine`. The file is a
byte sequence; the memory map covers its first `mapped` bytes (`MapLen`).
Header writes go through the map, which grows with the file when a write
runs past its end. Trace records are written through the file handle and
leave the map behind until `get_traces` resizes it. The `TrsEngine` class has these
attributes as fields. Each of its methods updates them in place, and is proved
to leave the state the matching function of `TrsEngines` or `TrsHeaders`
computes. The properties are proved about those functions:

- the header block stays well laid out (`Laid`);
- headers read back as written;
- traces written by `set_traces` read back;
- a file is accepted on reading only when its length is the trace block
  offset plus NUMBER_TRACES records.

`length()` is `IntOrZero(headers, NUMBER_TRACES)`. `has_trace_data()` is the
predicate `TrsHeaders.HasTraceData`. `is_read_only()` is the `readOnly`
attribute.

Errors are values. `PyErrors.Result` carries the Python exception class that
the source raises (`TypeError`, `ValueError`, `IndexError`, `KeyError`,
`IOError`, `OverflowError`, `struct.error`, ...). Python values handed to the
library are the datatype `PyValues.PyValue`.

Where the docstrings and the code disagree, the model follows the code:

- the default padding mode is AUTO (`trsfile/engine/trs.py:63`), although the
  class docstring says NONE;
- `read_short` reads unsigned while `encode_as_short` writes signed, so a
  negative short reads back 65536 higher.

`common.py` lacks three headers that `trs.py` and `parametermap.py` use:
TRS_VERSION, TRACE_SET_PARAMETERS and TRACE_PARAMETER_DEFINITIONS. The model
adds them to the Header table with the distinct tags 0x76, 0x77 and 0x78.
TRS_VERSION is a 1-byte int. The mapping `equivalent_std_param`, also missing
from `common.py`, follows `tests/test_creation.py`. `trsfile/trace.py` is not
part of this model. A trace is the record `TrsTraces.Trace`: coding, samples,
parameters and title.

## Model

| member | source | states |
|---|---|---|
| Utils.ToBytes | trsfile/engine/trs.py:449 | `int.to_bytes(v, n, 'little')` succeeds exactly for 0 <= v < 256^n, gives n bytes whose little-endian value is v, and is an OverflowError otherwise |
| Utils.FromLEOfToLE | trsfile/utils.py:20 | reading back the n little-endian bytes of any v < 256^n gives v |
| Utils.ToLEOfFromLE | trsfile/utils.py:20 | the little-endian value of any byte string, written back in as many bytes, is that byte string |
| Utils.PackSigned | trsfile/traceparameter.py:237-241 | `struct.pack('<h'/'<i'/'<q')` succeeds exactly for values within the signed range of the width, gives that many bytes holding the two's complement, and is a struct.error otherwise |
| Utils.UnpackSigned | trsfile/traceparameter.py:232-235 | `struct.unpack` of a signed word gives a value within the signed range of its width |
| Utils.UnpackPackSigned | trsfile/traceparameter.py:232-241 | unpacking what `struct.pack` made of an in-range value gives the value back |
| Utils.PackUnpackSigned | trsfile/traceparameter.py:232-241 | packing what was unpacked from any word gives the word back |
| Utils.EncodeAsShort | trsfile/utils.py:9-10 | succeeds exactly for -32768..32767 and gives two bytes whose unsigned value is v, or v + 65536 for negative v; struct.error otherwise |
| Utils.Cursor.Read | trsfile/utils.py:15 | `read(n)` gives at most n bytes, exactly the next n when they are there and the rest of the buffer otherwise, and moves the position past what it gave |
| Utils.Cursor.ReadByte | trsfile/traceparameter.py:73 | `read(1)[0]` succeeds exactly when a byte is left, gives it and moves past it; IndexError on an empty read |
| Utils.Cursor.ReadShort | trsfile/utils.py:19-21 | `read_short` gives a value below 65536, the unsigned little-endian value of the next two bytes when there are two |
| Utils.Cursor.ReadParameterName | trsfile/utils.py:13-16 | `read_parameter_name` reads a u16 length and then that many name bytes, leaving the buffer unchanged |
| Utils.ReadShortOfEncodeAsShort | trsfile/utils.py:9-21 | a short written by `encode_as_short` and read by `read_short`, wherever it sits, comes back unchanged for non-negative values and 65536 higher for negative ones |
| Utils.ReadParameterNameAt | trsfile/utils.py:13-16 | a name written as its u16 length and its bytes reads back through `read_parameter_name`, which stops right after it |
| Utils.BytesIO.constructor | trsfile/utils.py:13 | a new stream over the raw bytes at position 0 |
| Utils.BytesIO.Read | trsfile/utils.py:15 | the stream's `read(n)` gives and consumes what `Cursor.Read` does |
| Utils.BytesIO.Seek | trsfile/parametermap.py:475 | `seek(p)` moves the position to p and keeps the bytes |
| Utils.BytesIO.ReadShort | trsfile/utils.py:19-21 | `read_short` on the stream gives and consumes what `Cursor.ReadShort` does |
| Utils.BytesIO.ReadParameterName | trsfile/utils.py:13-16 | `read_parameter_name` on the stream gives and consumes what `Cursor.ReadParameterName` does |
| Utils.BytesIO.ReadByte | trsfile/traceparameter.py:73 | `read(1)[0]` on the stream: the byte and the new position of `Cursor.ReadByte`, or its IndexError |
| Common.IsFloatOnlyFloat | trsfile/common.py:51-53 | `is_float` (bit 4 of the coding's value) holds for FLOAT and for no other coding |
| Common.LowNibbleIsSize | trsfile/common.py:30-49 | the low four bits of every coding's value are its size in bytes and the value stays below 0x20 |
| Common.SampleCodingOf | trsfile/common.py:30-49 | `SampleCoding(v)` gives a coding whose value is v, and a ValueError exactly when no coding has value v |
| Common.FromTag | trsfile/common.py:113-126 | `Header(tag)` succeeds exactly when `has_value(tag)`, giving the table member with that tag; ValueError otherwise |
| Common.TagsAscend | trsfile/common.py:66-111 | the tags of the table rise strictly in declaration order, so no two members share a tag |
| Common.FromTagOfMember | trsfile/common.py:113-126 | every member's tag leads back to that member through `Header(tag)` |
| Common.MandatoryOf | trsfile/common.py:128-130 | the members kept by `get_mandatory` are exactly those of the list flagged mandatory |
| Common.MandatoryHeaders | trsfile/common.py:128-130 | `get_mandatory()` is exactly {NUMBER_TRACES, NUMBER_SAMPLES, SAMPLE_CODING, TRACE_BLOCK} |
| Common.HeaderLengths | trsfile/common.py:66-111 | every int header is 1, 2 or 4 bytes, float 4, bool 1, str/bytes variable; TRACE_BLOCK is tag 0x5F with length 0 and no type |
| Common.StructuralHeadersHaveNoEquivalent | tests/test_creation.py:100-163 | the headers the engine manages itself have no equivalent standard parameter, so filling a trace-set map never copies them |
| Common.LabelAndOffsetEquivalents | tests/test_creation.py:100-163 | LABEL_X is carried over as DISPLAY_HINT:X_LABEL and OFFSET_X as X_OFFSET |
| TraceParameters.FromTag | trsfile/traceparameter.py:278-300 | `ParameterType(tag)` gives the type with that tag, and a ValueError exactly when no type has it |
| TraceParameters.FromClass | trsfile/traceparameter.py:286-291 | `from_class(cls)` gives the type whose parameter class is cls, and a TypeError exactly when cls is no parameter class |
| TraceParameters.FromTagOfTag | trsfile/traceparameter.py:278-300 | every type's tag leads back to that type |
| TraceParameters.FromClassOfParamClass | trsfile/traceparameter.py:286-300 | every type's class leads back to that type through `from_class` |
| TraceParameters.ParamClassInjective | trsfile/traceparameter.py:293-300 | no two types share a parameter class |
| TraceParameters.TypeMatchesClass | trsfile/traceparameter.py:286-300 | the type found from any parameter's class is that parameter's own type |
| TraceParameters.Construct | trsfile/traceparameter.py:41-51 | the constructor rejects an empty value with ValueError and a value its class does not take with TypeError, and otherwise gives a well-formed parameter of the class's type holding as many elements as the value; here FLOAT takes only 4-byte float words and DOUBLE only 8-byte ones (see Left out) |
| TraceParameters.EqualIsIdentity | trsfile/traceparameter.py:56-64 | `__eq__` (same class, same length, elements equal in order under Python's `==`) holds exactly when the first parameter has no NaN and both are the same once -0.0 is made +0.0 |
| TraceParameters.FloatParametersNotIdentity | trsfile/traceparameter.py:56-64 | a float parameter holding NaN is not equal to itself, and one holding -0.0 equals one holding +0.0 |
| PyValues.FloatEqCanon | trsfile/traceparameter.py:64 | Python's `==` on two floats of one width holds exactly when the first is not a NaN and the two words agree once -0.0 is made +0.0 |
| PyValues.FloatEqNotIdentity | trsfile/traceparameter.py:64 | 0.0 == -0.0 although their words differ, and a NaN word is not equal to itself |
| TraceParameters.EqualNeedsSameType | trsfile/traceparameter.py:56-64 | equal parameters have the same type and the same length |
| TraceParameters.BoolBytes | trsfile/traceparameter.py:90-93 | `bytes(list_of_bools)` gives one byte per element, 1 for true and 0 for false |
| TraceParameters.SerializeSucceeds | trsfile/traceparameter.py:90-271 | `serialize` of a well-formed parameter cannot fail, except for a long outside the 64-bit signed range |
| TraceParameters.SerializeLength | trsfile/traceparameter.py:90-271 | the serialized bytes are `len(p) * byte_size` long |
| TraceParameters.SerializeParameter | trsfile/traceparameter.py:90-271 | the loops that build the serialized bytes give exactly what the specification of `serialize` gives |
| TraceParameters.PackLoop | trsfile/traceparameter.py:191-195 | the loop of `struct.pack` calls gives the concatenated words, or the struct.error of the first value out of range |
| TraceParameters.PackAllErrorIsStruct | trsfile/traceparameter.py:191-195 | the only way packing a list fails is a struct.error |
| TraceParameters.ConcatLoop | trsfile/traceparameter.py:145-149 | extending a bytearray word by word gives the concatenation of the words |
| TraceParameters.ReadWords | trsfile/traceparameter.py:142 | reading n words of a width gives n words of exactly that width from the same buffer, or the struct.error of a short read |
| TraceParameters.UnpackAll | trsfile/traceparameter.py:188 | unpacking a list of words gives one signed value per word, in order |
| TraceParameters.ReadSigned | trsfile/traceparameter.py:187-189 | reading n signed words gives n values from the same buffer |
| TraceParameters.DeserializeBools | trsfile/traceparameter.py:85-88 | `BooleanArrayParameter.deserialize` reads at most n bytes and gives a BOOL parameter of at most n elements |
| TraceParameters.DeserializeBytes | trsfile/traceparameter.py:114-116 | `ByteArrayParameter.deserialize` gives a BYTE parameter of at most n bytes |
| TraceParameters.DeserializeString | trsfile/traceparameter.py:262-265 | `StringParameter.deserialize` gives a STRING parameter of at most n bytes |
| TraceParameters.DeserializeShorts | trsfile/traceparameter.py:233-235 | `ShortArrayParameter.deserialize` gives a SHORT parameter of exactly n values |
| TraceParameters.DeserializeInts | trsfile/traceparameter.py:187-189 | `IntegerArrayParameter.deserialize` gives an INT parameter of exactly n values |
| TraceParameters.DeserializeLongs | trsfile/traceparameter.py:210-212 | `LongArrayParameter.deserialize` gives a LONG parameter of exactly n values |
| TraceParameters.DeserializeFloats | trsfile/traceparameter.py:164-166 | `FloatArrayParameter.deserialize` gives a FLOAT parameter of exactly n words |
| TraceParameters.DeserializeDoubles | trsfile/traceparameter.py:141-143 | `DoubleArrayParameter.deserialize` gives a DOUBLE parameter of exactly n words |
| TraceParameters.Deserialize | trsfile/traceparameter.py:75 | `param_class.deserialize(io, n)` gives a parameter of the requested type with at most n elements, exactly n for the numeric types |
| TraceParameters.SignedRoundTrip | trsfile/traceparameter.py:187-195 | the words packed from a list, wherever they sit in a buffer, read and unpack back to that list and stop right after them |
| TraceParameters.WordsRoundTrip | trsfile/traceparameter.py:141-172 | concatenated words of one width read back as the same words and stop right after them |
| TraceParameters.ShortParameterRoundTrip | trsfile/traceparameter.py:233-241 | a serialized non-empty SHORT parameter, wherever it sits, deserializes to itself and stops right after its bytes |
| TraceParameters.IntParameterRoundTrip | trsfile/traceparameter.py:187-195 | the same round trip for INT parameters |
| TraceParameters.LongParameterRoundTrip | trsfile/traceparameter.py:210-218 | the same round trip for LONG parameters |
| TraceParameters.FloatParameterRoundTrip | trsfile/traceparameter.py:164-172 | the same round trip for FLOAT parameters |
| TraceParameters.DoubleParameterRoundTrip | trsfile/traceparameter.py:141-149 | the same round trip for DOUBLE parameters |
| TraceParameters.BoolParameterRoundTrip | trsfile/traceparameter.py:85-93 | the same round trip for BOOL parameters |
| TraceParameters.BytesRoundTrip | trsfile/traceparameter.py:114-124 | the same round trip for STRING parameters and non-empty BYTE parameters |
| TraceParameters.SerializeRoundTrip | trsfile/traceparameter.py:75 | every well-formed serializable parameter other than an empty byte array deserializes from its own bytes to itself, and takes `len(p) * byte_size` bytes |
| TraceParameters.DeserializeParameter | trsfile/traceparameter.py:75 | on a stream, the parameter and the new position are those of the specification of `deserialize`, and so is its error |
| TraceParameters.ReadWordsLoop | trsfile/traceparameter.py:142 | the loop of fixed-width reads on a stream gives the words and position of `ReadWords`, or its error |
| TraceParameters.DeserializeSetParameter | trsfile/traceparameter.py:70-75 | `TraceSetParameter.deserialize` reads a type tag, a u16 length and the value; ValueError for an unknown tag, IndexError at end of data |
| TraceParameters.ReadSetParameter | trsfile/traceparameter.py:70-75 | on a stream, the parameter and position of `DeserializeSetParameter`, or its error |
| TraceParameters.SerializeDefinition | trsfile/traceparameter.py:325-330 | a definition serializes to five bytes starting with its type tag, and fails exactly when length or offset falls outside the signed 16-bit range |
| TraceParameters.DeserializeDefinition | trsfile/traceparameter.py:318-323 | a definition read back has length and offset within 0..65535; IndexError at end of data |
| TraceParameters.ReadDefinition | trsfile/traceparameter.py:318-323 | on a stream, the definition and position of `DeserializeDefinition`, or its error |
| TraceParameters.DefinitionRoundTrip | trsfile/traceparameter.py:318-330 | a definition with non-negative length and offset, wherever its five bytes sit, reads back unchanged |
| TraceParameters.DefinitionNegativeLength | trsfile/traceparameter.py:318-330 | a definition with a negative length reads back with the length 65536 higher |
| OrderedDicts.Keys | trsfile/parametermap.py:510 | `list(d.keys())` lists the keys in insertion order, one per entry |
| OrderedDicts.Values | trsfile/parametermap.py:292 | `d.values()` lists the values in insertion order, one per entry |
| OrderedDicts.IndexOf | trsfile/parametermap.py:498 | the position of a present key is the first entry holding it |
| OrderedDicts.Get | trsfile/engine/engine.py:47 | `k in d` and `d[k]`: a value exactly when the key is present, and then one stored under it |
| OrderedDicts.Set | trsfile/utils.py:28 | `d[k] = v` replaces the value in place when k is present, keeping every other entry, and otherwise appends (k, v) at the end |
| OrderedDicts.SetKeepsDistinct | trsfile/utils.py:28 | setting an item keeps the keys distinct |
| OrderedDicts.GetAfterSet | trsfile/utils.py:28 | after `d[k] = v`, looking up k gives v and looking up any other key gives what it gave before |
| OrderedDicts.KeysOfSet | trsfile/utils.py:28 | setting an item keeps the key order and adds a new key at the end |
| OrderedDicts.Update | trsfile/engine/engine.py:56 | `d.update(e)` keeps the keys of d in place and only adds after them |
| OrderedDicts.GetAfterUpdate | trsfile/engine/engine.py:56 | after `d.update(e)` the keys stay distinct and each key maps to its value in e when e has it, and to its old value otherwise |
| OrderedDicts.Delete | trsfile/parametermap.py:143-145 | `del d[k]` removes exactly the entry of k, keeping the order of the rest; KeyError exactly when k is absent |
| OrderedDicts.PopItem | trsfile/parametermap.py:164-166 | `popitem(last)` removes the last (or first) entry and fails with KeyError exactly on an empty dict |
| OrderedDicts.MoveToEnd | trsfile/parametermap.py:172-174 | `move_to_end(k, last)` moves the entry of k to the end (or the front) keeping the others in order; KeyError exactly when k is absent |
| OrderedDicts.MoveToEndKeepsKeys | trsfile/parametermap.py:172-174 | moving an entry keeps the set of keys |
| OrderedDicts.MoveToEndKeepsEntries | trsfile/parametermap.py:172-174 | moving an entry is a permutation of the entries |
| OrderedDicts.StringKeyOrderedDict.constructor | trsfile/utils.py:24 | a new dict is empty |
| OrderedDicts.StringKeyOrderedDict.SetItem | trsfile/utils.py:25-28 | a non-str key is a TypeError that leaves the dict unchanged; a str key is stored as `Set` does |
| LockableDicts.Guarded | trsfile/parametermap.py:139-141 | `_stop_if_locked`: a locked dict refuses the change with TypeError; an unlocked one takes the change or its error and stays unlocked |
| LockableDicts.LockedRefusesChanges | trsfile/parametermap.py:139-174 | once `lock_content` has run, `__setitem__`, `__delitem__`, `pop`, `popitem`, `clear` and `move_to_end` all fail with TypeError whatever their arguments |
| LockableDicts.SetItemKeepsValid | trsfile/parametermap.py:194-199 | on an unlocked dict, setting an item succeeds, keeps the keys distinct and stores the value under the key |
| LockableDicts.DelItemKeepsValid | trsfile/parametermap.py:143-145 | on an unlocked dict, `del d[k]` succeeds exactly when k is present (KeyError otherwise), removes that key only and keeps the keys distinct |
| LockableDicts.PopItemKeepsValid | trsfile/parametermap.py:164-166 | on an unlocked dict, `popitem` succeeds exactly when the dict is not empty (KeyError otherwise) and removes one entry |
| LockableDicts.MoveToEndKeepsValid | trsfile/parametermap.py:172-174 | on an unlocked dict, `move_to_end` succeeds exactly when k is present (KeyError otherwise), and permutes the entries putting k's at the end or front |
| LockableDicts.LockableDict.constructor | trsfile/parametermap.py:133-137 | a new dict holds the given entries and is unlocked |
| LockableDicts.LockableDict.SetItem | trsfile/parametermap.py:194-199 | the stored dict becomes the result of `AfterSetItem`, or stays as it was and the TypeError is returned |
| LockableDicts.LockableDict.DelItem | trsfile/parametermap.py:143-145 | the stored dict becomes the result of `AfterDelItem`, or stays as it was and the error is returned |
| LockableDicts.LockableDict.Pop | trsfile/parametermap.py:160-162 | the stored dict becomes the result of `AfterPop`, or stays as it was and the error is returned |
| LockableDicts.LockableDict.PopItem | trsfile/parametermap.py:164-166 | the stored dict becomes the result of `AfterPopItem`, or stays as it was and the error is returned |
| LockableDicts.LockableDict.Clear | trsfile/parametermap.py:168-170 | the stored dict becomes empty, or stays as it was with TypeError when locked |
| LockableDicts.LockableDict.MoveToEnd | trsfile/parametermap.py:172-174 | the stored dict becomes the result of `AfterMoveToEnd`, or stays as it was and the error is returned |
| LockableDicts.LockableDict.LockContent | trsfile/parametermap.py:176-177 | `lock_content` sets the lock and changes nothing else |
| LockableDicts.LockableDict.Copy | trsfile/parametermap.py:147-158 | `copy` gives a new dict with the same entries and the same lock |
| LockableDicts.LockableDict.DeepCopy | trsfile/parametermap.py:152-153 | `deepcopy` gives a new dict with the same entries that is unlocked |
| ParameterTyping.GetType | trsfile/parametermap.py:72-82 | `_get_type` fails (TypeError) exactly on None; ints and floats map to the rational types, with short exactly for -32768..32767 and long exactly outside the 32-bit signed range; bools and lists keep their own type |
| ParameterTyping.FirstOf | trsfile/parametermap.py:84-91 | the scan of the priority list gives the first of the two types it holds, or a TypeError when it holds neither |
| ParameterTyping.HighestPriorityIsWider | trsfile/parametermap.py:84-91 | `_highest_priority_rational_type` succeeds exactly when one of the two types is rational, and for two rational types gives the wider one (float > long > int > short) |
| ParameterTyping.Scan | trsfile/parametermap.py:99-111 | the element loop only fails with TypeError |
| ParameterTyping.TypeOfListElems | trsfile/parametermap.py:93-116 | `_get_type_of_list_elems` gives a listable type or a TypeError |
| ParameterTyping.WidestType | trsfile/parametermap.py:93-116 | the widest element type of an all-rational list is rational, at least as wide as every element's type and the type of one of them |
| ParameterTyping.TypeOfListElemsIs | trsfile/parametermap.py:93-116 | a non-empty all-number list gets its widest element type, a non-empty all-bool list bool, and every other list (empty, mixed, of str, bytes or lists) a TypeError |
| ParameterTyping.ScanOfRational | trsfile/parametermap.py:99-111 | the loop over an all-number list ends with its widest element type |
| ParameterTyping.ScanOfBools | trsfile/parametermap.py:99-111 | the loop over an all-bool list ends with bool |
| ParameterTyping.ScanShared | trsfile/parametermap.py:99-111 | when the loop ends with a type, every element has that type, or all are numbers when it is rational |
| ParameterTyping.GetTypeOfListElems | trsfile/parametermap.py:93-116 | the loop gives exactly the type (or TypeError) that `TypeOfListElems` specifies |
| ParameterTyping.GetTypedParameter | trsfile/parametermap.py:118-125 | `get_typed_parameter` fails only with TypeError |
| ParameterTyping.ToListIfListable | trsfile/parametermap.py:127-129 | `to_list_if_listable` wraps an int, float or bool in a one-element list and leaves every other value as it is |
| ParameterTyping.InferredTypeAccepts | trsfile/parametermap.py:118-129 | the parameter class `get_typed_parameter` picks accepts the value `to_list_if_listable` makes of it |
| ParameterTyping.ScalarAccepted | trsfile/parametermap.py:118-129 | for a scalar, the picked class's type check accepts the wrapped value |
| ParameterTyping.RationalListAccepted | trsfile/parametermap.py:113-125 | a number list's widest type is a class whose type check accepts the whole list |
| Registries.FirstMatch | trsfile/standardparameters.py:21-23 | the loop stops at the first member whose identifier or name equals the key under `str.lower`, the Kelvin sign folding to 'k', and finds none exactly when no member matches |
| Registries.FirstMatchAt | trsfile/standardparameters.py:21-23 | a matching member that no earlier member matches is the one the loop stops at |
| Registries.AsciiSameUpToCase | trsfile/standardparameters.py:22 | for an ASCII key the comparison of `lower()` forms is letter by letter: the same length and the same letters up to case |
| Registries.NoMatchByLength | trsfile/standardparameters.py:21-24 | a key whose lowered length is that of no identifier or name matches no member |
| Registries.FirstMatchByLength | trsfile/standardparameters.py:21-23 | a matching member is the one found when no earlier identifier or name has the key's lowered length |
| StandardTraceSetParameters.Labels | trsfile/standardparameters.py:26-64 | one (name, identifier) pair per member, in declaration order |
| StandardTraceSetParameters.FromIdentifier | trsfile/standardparameters.py:19-24 | `from_identifier` gives the first member whose identifier or name equals the key under `str.lower` (the Kelvin sign lowering to 'k'), and a ValueError exactly when none does |
| StandardTraceSetParameters.TagsAscend | trsfile/standardparameters.py:26-64 | the tags rise strictly in declaration order |
| StandardTraceSetParameters.TagsDistinct | trsfile/standardparameters.py:26-64 | no two members share a tag |
| StandardTraceSetParameters.LookupByMemberName | trsfile/standardparameters.py:19-24 | the member name "DISPLAY_HINT_X_LABEL" in any case finds that member, not only its identifier |
| StandardTraceSetParameters.CrossedFilterIdentifiers | trsfile/standardparameters.py:40-42 | the identifier "SETUP:ICWAVES:FILTER:FREQUENCY" finds SETUP_ICWAVES_FILTER_TYPE, an INT parameter, as the table is written |
| StandardTraceSetParameters.UnknownIdentifier | trsfile/standardparameters.py:24 | an identifier no member has is a ValueError |
| StandardTraceSetParameters.KelvinSignFindsKey | trsfile/standardparameters.py:19-24 | 'KEY' spelled with the Kelvin sign U+212A lowers to 'key' and finds KEY |
| StandardTraceParameters.Labels | trsfile/standardparameters.py:86-106 | one (name, identifier) pair per member, in declaration order |
| StandardTraceParameters.FromIdentifier | trsfile/standardparameters.py:79-84 | `from_identifier` gives the first member whose identifier or name equals the key under `str.lower` (the Kelvin sign lowering to 'k'), and a ValueError exactly when none does |
| StandardTraceParameters.TagsAscend | trsfile/standardparameters.py:86-106 | the tags rise strictly in declaration order |
| StandardTraceParameters.TagsDistinct | trsfile/standardparameters.py:86-106 | no two members share a tag |
| StandardTraceParameters.LookupByIdentifier | trsfile/standardparameters.py:79-96 | "tvla:set_index" in any case finds TVLA_SET_INDEX, a SHORT parameter |
| StandardTraceParameters.UnknownIdentifier | trsfile/standardparameters.py:84 | an identifier no member has is a ValueError |
| TraceSetParameterMaps.AddStandardParameterStores | trsfile/parametermap.py:228-239 | `add_standard_parameter` fails with the constructor's error or, on a locked map, TypeError; otherwise the identifier maps to a parameter of the standard type holding the value and every other entry is unchanged |
| TraceSetParameterMaps.AddParameterStandardName | trsfile/parametermap.py:213-217 | `add_parameter` with a standard parameter's name or identifier and a value of its type stores it under the standard identifier, exactly as `add_standard_parameter` does |
| TraceSetParameterMaps.AddParameterInferred | trsfile/parametermap.py:220-226 | with any other name, or a value the standard class does not take as modelled by `TraceParameters.Construct`, the value is stored under the name as given in the class `get_typed_parameter` infers, and this fails (TypeError) exactly when no class can be inferred |
| TraceSetParameterMaps.AddParameterLocked | trsfile/parametermap.py:194-226 | a locked map refuses `add_parameter` with TypeError on both paths |
| TraceSetParameterMaps.AddMissingKeeps | trsfile/parametermap.py:248-258 | adding missing standard parameters keeps the keys distinct, keeps the lock, and never overwrites an entry already present |
| TraceSetParameterMaps.AddMissingCovers | trsfile/parametermap.py:248-258 | afterwards every standard parameter that was offered is present |
| TraceSetParameterMaps.AddMissingSucceeds | trsfile/parametermap.py:248-258 | on an unlocked map, with values that fit their standard types, adding missing parameters cannot fail |
| TraceSetParameterMaps.EquivalentPairs | trsfile/parametermap.py:248-250 | the headers with an equivalent standard parameter, paired with their values, at most one per header |
| TraceSetParameterMaps.FillFromHeadersStep | trsfile/parametermap.py:248-251 | `fill_from_headers` takes the headers one at a time, in order |
| TraceSetParameterMaps.FillFromHeadersCovers | trsfile/parametermap.py:241-251 | after `fill_from_headers`, every header with an equivalent standard parameter has that parameter in the map, and entries already present keep their values |
| TraceSetParameterMaps.AddDefaultsComplete | trsfile/parametermap.py:182-192 | on an unlocked map `add_defaults` succeeds, every default parameter is then present, and entries already present keep their values |
| TraceSetParameterMaps.AddIfMissingTo | trsfile/parametermap.py:250-251 | one step of the loops: the map becomes the result of adding the parameter when its identifier is missing, or the error is returned |
| TraceSetParameterMaps.FillFromHeadersLoop | trsfile/parametermap.py:241-251 | the loop leaves the map as `FillFromHeaders` specifies, or returns its error |
| TraceSetParameterMaps.AddDefaultsLoop | trsfile/parametermap.py:253-258 | the loop leaves the map as `AddDefaults` specifies, or returns its error |
| TraceSetParameterMaps.SerializeName | trsfile/parametermap.py:275-277 | a name serializes as its length as a short followed by its bytes, and fails exactly when it is longer than 32767 bytes |
| TraceSetParameterMaps.SerializeSetParameter | trsfile/parametermap.py:279-285 | a parameter serializes as its type tag, its length as a short and its value bytes, and fails exactly when its value does not pack or its length exceeds 32767 |
| TraceSetParameterMaps.SerializeEntry | trsfile/parametermap.py:274-285 | an entry serializes as its name followed by its parameter, and fails exactly when either does |
| TraceSetParameterMaps.ReadEntry | trsfile/parametermap.py:265-267 | reading one entry stays on the same buffer |
| TraceSetParameterMaps.DeserializeMapWith | trsfile/parametermap.py:261-268 | `deserialize` gives a new, unlocked map |
| TraceSetParameterMaps.SetParameterRoundTrip | trsfile/traceparameter.py:70-75 | a serialized set parameter, wherever it sits, reads back through `TraceSetParameter.deserialize` as itself and stops right after it |
| TraceSetParameterMaps.SerializeMapRoundTrip | trsfile/parametermap.py:261-286 | the bytes of `serialize()` of a map whose parameters are well formed and not empty byte arrays read back through `deserialize` as the same entries in the same order, unlocked, and stop right after them |
| TraceSetParameterMaps.ReadEntryReadsBack | trsfile/parametermap.py:265-266 | every serialized entry reads back as itself through `read_parameter_name` and `TraceSetParameter.deserialize` |
| TraceSetParameterMaps.SerializeLoop | trsfile/parametermap.py:270-286 | the loop over the items gives exactly the bytes (or struct.error) `SerializeMap` specifies |
| TraceSetParameterMaps.DeserializeLoop | trsfile/parametermap.py:260-268 | the loop gives a new map holding exactly the entries `DeserializeMap` specifies and moves the stream to where it stops, or returns its error |
| TraceSetParameterMaps.ReadEntriesInto | trsfile/parametermap.py:264-267 | reading n entries into an unlocked map gives the entries and stream position the entry-by-entry reading specifies |
| TraceSetParameterMaps.ReadSetEntriesIs | trsfile/parametermap.py:264-267 | the first-order reading loop equals the generic entry reader applied to one entry read |
| TraceSetParameterMaps.ReadOneEntry | trsfile/parametermap.py:265-266 | on a stream, one entry and the new position as `ReadEntry` specifies, or its error |
| TraceParameterDefinitionMaps.TotalSize | trsfile/parametermap.py:290-294 | `get_total_size` is never negative for definitions with non-negative lengths |
| TraceParameterDefinitionMaps.TotalSizeConcat | trsfile/parametermap.py:290-294 | the total size of two runs of definitions is the sum of their total sizes |
| TraceParameterDefinitionMaps.GetTotalSize | trsfile/parametermap.py:290-294 | the loop sums `length * byte_size` over all definitions, giving `TotalSize` |
| TraceParameterDefinitionMaps.AppendGoesLast | trsfile/parametermap.py:367-377 | `append` on a locked map is a TypeError; on an unlocked map a new name goes last with offset the old total size, the total size grows by its bytes, and a packed map stays packed |
| TraceParameterDefinitionMaps.AppendStdUnknown | trsfile/parametermap.py:352-365 | `append_std` with a name no standard trace parameter carries is a ValueError |
| TraceParameterDefinitionMaps.AppendStdTvlaSetIndex | trsfile/parametermap.py:352-377 | `append_std` with the TVLA set index, in any case, appends a SHORT definition at the old total size |
| TraceParameterDefinitionMaps.AppendTo | trsfile/parametermap.py:367-377 | on the map object, the stored map becomes the result of `Append`, or stays and the error is returned |
| TraceParameterDefinitionMaps.InsertStdUnknown | trsfile/parametermap.py:303-321 | `insert_std` with a name no standard trace parameter carries is a ValueError |
| TraceParameterDefinitionMaps.Past | trsfile/parametermap.py:341-342 | the insertion offset only moves up, and only to the end of a definition that straddles it |
| TraceParameterDefinitionMaps.FinalOffset | trsfile/parametermap.py:337-344 | the final insertion offset is at least the offset asked for |
| TraceParameterDefinitionMaps.InterleavesEntries | trsfile/parametermap.py:337-340 | the entries seen by the loop are exactly the kept ones plus the shifted ones |
| TraceParameterDefinitionMaps.MoveAllOfInterleaved | trsfile/parametermap.py:348-349 | moving the shifted keys to the end, in order, leaves the kept entries, then the rest, then the shifted ones |
| TraceParameterDefinitionMaps.InsertLayout | trsfile/parametermap.py:323-350 | `insert` of a new name on an unlocked map gives the definitions before the insertion offset, then the new one at the offset moved past any straddling definition, then the ones at or after the offset moved up by the new definition's bytes |
| TraceParameterDefinitionMaps.InsertLocked | trsfile/parametermap.py:335 | `insert` on a locked map is a TypeError |
| TraceParameterDefinitionMaps.KeptShiftedCount | trsfile/parametermap.py:337-340 | every definition is either kept or shifted |
| TraceParameterDefinitionMaps.KeptEndsBefore | trsfile/parametermap.py:341-344 | every kept definition ends at or before the final insertion offset |
| TraceParameterDefinitionMaps.ShiftedFromAfter | trsfile/parametermap.py:338-339 | every shifted definition started at or after the offset asked for and moved up by exactly the new definition's bytes |
| TraceParameterDefinitionMaps.InsertTotalSize | trsfile/parametermap.py:323-350 | `insert` of a new name on an unlocked map succeeds and grows the total size by exactly the new definition's bytes |
| TraceParameterDefinitionMaps.ShiftAll | trsfile/parametermap.py:339 | every definition keeps its name, type and length and moves up by the shift |
| TraceParameterDefinitionMaps.InsertKeepsPacked | trsfile/parametermap.py:303-350 | on a packed map (each definition starting where the previous one ends) an insert within its bytes puts the new definition where a kept prefix ends and the rest behind it, moved up, so the map stays packed |
| TraceParameterDefinitionMaps.InsertSucceeds | trsfile/parametermap.py:335-350 | `insert` fails exactly on a locked map: every key it moves to the end is in the map |
| TraceParameterDefinitionMaps.InsertInto | trsfile/parametermap.py:323-350 | on the map object, the loop, the new entry and the `move_to_end` calls leave the map as `Insert` specifies, or leave it unchanged with TypeError when locked |
| TraceParameterDefinitionMaps.ShiftInPlace | trsfile/parametermap.py:337-344 | the loop that shifts offsets in place leaves the entries, moved keys and final offset of `ScanAll`, and keeps the lock |
| TraceParameterDefinitionMaps.MoveBack | trsfile/parametermap.py:348-349 | the `move_to_end` loop leaves the entries `MoveAll` gives |
| TraceParameterDefinitionMaps.SerializeDefEntry | trsfile/parametermap.py:393-396 | an entry serializes as its name and its five definition bytes, and fails with struct.error exactly when the name, length or offset does not fit a short |
| TraceParameterDefinitionMaps.SerializeDefEntries | trsfile/parametermap.py:392-396 | the entries serialize exactly when each does; struct.error otherwise |
| TraceParameterDefinitionMaps.SerializeDefMap | trsfile/parametermap.py:389-397 | `serialize` succeeds exactly when the count fits a short and every entry serializes; struct.error otherwise |
| TraceParameterDefinitionMaps.DeserializeDefMapWith | trsfile/parametermap.py:379-387 | `deserialize` gives a new, unlocked map with distinct keys |
| TraceParameterDefinitionMaps.DefinitionAt | trsfile/traceparameter.py:318-330 | a definition with non-negative length and offset reads back from its bytes wherever they sit |
| TraceParameterDefinitionMaps.ReadDefEntryReadsBack | trsfile/parametermap.py:384-385 | every serialized entry reads back as itself through `read_parameter_name` and `TraceParameterDefinition.deserialize` |
| TraceParameterDefinitionMaps.SerializeDefMapRoundTrip | trsfile/parametermap.py:379-397 | the bytes of `serialize()` of a map with distinct keys and non-negative lengths and offsets read back through `deserialize` as the same entries in the same order, unlocked, stopping right after them |
| TraceParameterMaps.TraceParameterMap.Items | trsfile/parametermap.py:514-517 | a RawTraceData holds exactly one byte array parameter under LEGACY_DATA; a TraceParameterMap holds its own entries |
| TraceParameterMaps.Store | trsfile/parametermap.py:424-428 | `__setitem__` on a RawTraceData is a KeyError; on a TraceParameterMap it always succeeds and keeps a TraceParameterMap |
| TraceParameterMaps.StoreBinds | trsfile/parametermap.py:424-428 | after `m[key] = p` the key maps to p, every other key keeps its value, and keys stay distinct |
| TraceParameterMaps.AddStandardParameterStores | trsfile/parametermap.py:457-468 | `add_standard_parameter` fails exactly when the standard class refuses the value, with that error; otherwise the identifier maps to a parameter of the standard type and every other entry is unchanged |
| TraceParameterMaps.AddToRawFails | trsfile/parametermap.py:519-520 | adding any parameter to a RawTraceData fails, with KeyError once the value is accepted |
| TraceParameterMaps.AddParameterStandardName | trsfile/parametermap.py:430-455 | a name of a standard trace parameter whose class accepts the value goes through `add_standard_parameter` and is stored under the standard identifier |
| TraceParameterMaps.AddParameterInferred | trsfile/parametermap.py:430-455 | with any other name, or a value the standard class does not take as modelled by `TraceParameters.Construct`, the value is stored under the name as given, in the inferred class; the call fails, with TypeError, exactly when no class can be inferred |
| TraceParameterMaps.ParameterMap.constructor | trsfile/parametermap.py:422 | a new TraceParameterMap is empty |
| TraceParameterMaps.ParameterMap.FromRaw | trsfile/parametermap.py:514-517 | `RawTraceData(data)` holds the data under LEGACY_DATA as a byte array |
| TraceParameterMaps.ParameterMap.SetItem | trsfile/parametermap.py:424-428 | the in-place `__setitem__` leaves the map as `Store` says, and unchanged on KeyError |
| TraceParameterMaps.ParameterMap.AddStandardParameter | trsfile/parametermap.py:457-468 | the in-place `add_standard_parameter` leaves the map as `AddStandard` says, and unchanged on error |
| TraceParameterMaps.ParameterMap.AddParameter | trsfile/parametermap.py:430-455 | the in-place `add_parameter`, with its fallback on TypeError and ValueError, leaves the map as `Add` says, and unchanged on error |
| TraceParameterMaps.ParameterMap.Serialize | trsfile/parametermap.py:480-484 | the loop concatenates the serialized values as `SerializeMap` does, giving as many bytes as the values take |
| TraceParameterMaps.ParameterMap.Matches | trsfile/parametermap.py:486-511 | the loop stops at the first key missing from the definitions or defined with another type, length or offset, and then compares the keys seen with the definitions' keys (`MapMatches`) |
| TraceParameterMaps.SerializeValues | trsfile/parametermap.py:480-484 | the serialized values take exactly the bytes `len * byte_size` summed over the parameters |
| TraceParameterMaps.SerializeRaw | trsfile/parametermap.py:514-517 | a RawTraceData serializes to its own bytes |
| TraceParameterMaps.ElementCount | trsfile/parametermap.py:470-478 | a definition's non-negative length is the number of elements read |
| TraceParameterMaps.ReadParam | trsfile/parametermap.py:470-478 | a negative offset is a ValueError from seek, and a parameter read has the definition's type |
| TraceParameterMaps.DeserializeMap | trsfile/parametermap.py:470-478 | `deserialize` always gives a TraceParameterMap, never a RawTraceData |
| TraceParameterMaps.FromTraceParameterMap | trsfile/parametermap.py:399-419 | `from_trace_parameter_map` gives a new, unlocked definition map |
| TraceParameterMaps.DescribeAllDescribes | trsfile/parametermap.py:399-419 | each definition built has the entry's key, type and length, at an offset equal to the bytes of the entries before it |
| TraceParameterMaps.DescribesKeys | trsfile/parametermap.py:399-419 | the definitions built have the map's keys, in the same order |
| TraceParameterMaps.DescribesTotal | trsfile/parametermap.py:290-294 | the total size of the definitions built is the number of bytes the values serialize to |
| TraceParameterMaps.FromMapPacked | trsfile/parametermap.py:399-419 | the definitions built are packed from offset 0, non-negative and valid, and their total size is the size of the serialized values |
| TraceParameterMaps.MatchScanFits | trsfile/parametermap.py:486-511 | the matches loop runs to the end exactly when every key is defined with its value's type and length at the running offset, and then it has seen the map's keys |
| TraceParameterMaps.DescribesFits | trsfile/parametermap.py:486-511 | definitions describe a map exactly when every entry fits at its running offset and the keys are the same, in order |
| TraceParameterMaps.DescribesUnique | trsfile/parametermap.py:399-419 | at most one definition map describes a parameter map |
| TraceParameterMaps.MatchesIff | trsfile/parametermap.py:486-511 | a TraceParameterMap matches valid definitions exactly when they are the ones `from_trace_parameter_map` builds |
| TraceParameterMaps.MatchesOwnDefinitions | trsfile/parametermap.py:522-528 | a map matches the definitions built from it; a RawTraceData matches definitions exactly when their total size is its byte length |
| TraceParameterMaps.ValueAt | trsfile/parametermap.py:480-484 | each value's bytes sit in the serialized data at the offset of the bytes before it |
| TraceParameterMaps.ReadParamAt | trsfile/parametermap.py:470-478 | reading the serialized data at a value's described offset gives back that value |
| TraceParameterMaps.ReadParamsDescribed | trsfile/parametermap.py:470-478 | the deserialize loop over describing definitions rebuilds the map entry by entry |
| TraceParameterMaps.SerializeMapRoundTrip | trsfile/parametermap.py:470-484 | deserializing the serialized values with the map's own definitions, or any valid definitions it matches, gives the map back |
| TraceParameterMaps.DeserializeParameters | trsfile/parametermap.py:470-478 | the seek-and-read loop over a BytesIO gives a fresh map equal to `DeserializeMap`, or its error |
| TraceParameterMaps.DefinitionsFrom | trsfile/parametermap.py:399-419 | the loop with a running offset gives a fresh definition map equal to `FromTraceParameterMap` |
| Tlvs.BitLength | trsfile/engine/trs.py:487 | `n.bit_length()`: the least number of bits that holds n |
| Tlvs.LengthBytes | trsfile/engine/trs.py:487 | `tag_length_length` is the least number of bytes that holds the length |
| Tlvs.LengthBytesBounds | trsfile/engine/trs.py:487 | the bit-length formula rounded up to whole bytes is that least number of bytes |
| Tlvs.EncodeLength | trsfile/engine/trs.py:486-490 | a length below 0x80 is one byte; a longer one is `0x80 \| k` followed by k little-endian bytes that decode to it; only a k of 256 bytes or more fails, with ValueError from `bytes([...])` |
| Tlvs.EncodeTlv | trsfile/engine/trs.py:485-491 | a record starts with the tag, ends with the value, and has at least one length byte |
| Tlvs.ReadTlv | trsfile/engine/trs.py:530-540 | reading a record moves the cursor past the tag and length bytes and stays within the data |
| Tlvs.TlvRoundTrip | trsfile/engine/trs.py:485-491 | a record written for a value shorter than 256^127 bytes reads back with its tag, its length, the position of its value and the value (None for an empty value), and ends where it was written to end |
| Tlvs.LongLength | trsfile/engine/trs.py:486-488 | a long length field carries the flag bit, the count of the bytes that follow, and bytes that decode to the length |
| Tlvs.FillHeadersIsFillFromHeaders | trsfile/engine/trs.py:462 | filling from the engine's header dictionary is `TraceSetParameterMap.fill_from_headers` over its headers and plain values |
| Tlvs.DecodeValue | trsfile/engine/trs.py:543-559 | a bytes header keeps the raw value; an int, float, bool or sample coding header without a value is a TypeError |
| Tlvs.DecodeHeaderValue | trsfile/engine/trs.py:543-569 | a tag of the Header table is decoded under its header; an unknown tag is a NotImplementedError, or with ignore_unknown_tags its raw value stored under its number |
| Tlvs.ReadOwnTag | trsfile/engine/trs.py:544-545 | the record of a header of the table is read back under that header |
| Tlvs.IntHeaderRoundTrip | trsfile/engine/trs.py:448-449 | an int header reads back the int it was written with |
| Tlvs.IntHeaderOverflow | trsfile/engine/trs.py:448-449 | writing an int header fails, with OverflowError, exactly when the int is negative or does not fit the header's length |
| Tlvs.UnsetIntHeaderReadsAllOnes | trsfile/engine/trs.py:448-449 | an int header set to None is written as all 0xFF bytes, which read back as 256^n - 1 |
| Tlvs.DecodeAllOnes | trsfile/engine/trs.py:546-547 | all 0xFF bytes decode as 256^n - 1 |
| Tlvs.BoolHeaderRoundTrip | trsfile/engine/trs.py:452-453 | a bool header is always written, and reads back as the truth of its value |
| Tlvs.FloatHeaderRoundTrip | trsfile/engine/trs.py:450-451 | a float header reads back the packed word it was written with; one set to None reads back as +0.0 |
| Tlvs.StrHeaderRoundTrip | trsfile/engine/trs.py:454-455 | a non-empty string header reads back as written; an empty one has no value, and decoding None is an AttributeError |
| Tlvs.CodingHeaderRoundTrip | trsfile/engine/trs.py:456-457 | a sample coding reads back as itself; one set to None is written as 0xFF, which is no sample coding (ValueError) |
| Tlvs.SetParametersRoundTrip | trsfile/engine/trs.py:460-465 | the filled trace set parameter map is written, stays locked in the dictionary, and reads back unlocked |
| Tlvs.DefinitionsRoundTrip | trsfile/engine/trs.py:466-468 | the definition map is written as it is, stays locked in the dictionary, and reads back unlocked |
| Tlvs.EmptyMapRecords | trsfile/engine/trs.py:556-559 | a parameter map record without a value reads as an empty map |
| Tlvs.PackFloat | trsfile/engine/trs.py:450-451 | `struct.pack('<f')` gives 4 bytes; a 4-byte float word is kept; an int too large for a float is an OverflowError, any other value a struct.error |
| Tlvs.EncodeHeaderValue | trsfile/engine/trs.py:447-470 | an int header is written in exactly its length and fails unless 0 <= value < 256^length; float words are 4 bytes, bools and sample codings 1; a header of no type is a TypeError; parameter maps are stored back locked and other values unchanged |
| Tlvs.IntIntoFloatHeader | trsfile/engine/trs.py:450-451 | an int given for a float header is packed as the nearest single-precision float, or fails with OverflowError |
| Tlvs.IntFloatHeaderRoundTrip | trsfile/engine/trs.py:450-451 | an int below 2^24 in magnitude written into a float header reads back as a float word of the same sign and exactly its magnitude; 0 is four zero bytes |
| FloatPacking.PackInt | trsfile/engine/trs.py:451 | packing an int as a 32-bit float gives 4 bytes: 0 is all zeros, otherwise the sign bit is the int's sign and the word stands for its magnitude rounded twice (to 53 bits, then 24); too large a magnitude is an OverflowError |
| FloatPacking.SmallIntsExact | trsfile/engine/trs.py:451 | an int below 2^24 in magnitude is packed exactly |
| FloatPacking.HugeIntOverflows | trsfile/engine/trs.py:451 | 2^128 does not fit a 32-bit float and is an OverflowError |
| FloatPacking.RoundExact | trsfile/engine/trs.py:451 | rounding to p bits keeps a number below 2^p as it is |
| FloatPacking.RoundNear | trsfile/engine/trs.py:451 | rounding to p bits is off by at most n / 2^p |
| FloatPacking.RoundedNear | trsfile/engine/trs.py:451 | the double-precision value is within n / 2^53 of n, and the single-precision one within d / 2^24 of that |
| Engines.Changed | trsfile/engine/engine.py:44-49 | the change set has no more entries than the input |
| Engines.ChangedExactly | trsfile/engine/engine.py:44-49 | a key is in the change set exactly when the input has it with a value that differs from the current one, and then it carries the input's value |
| Engines.ChangedHeaders | trsfile/engine/engine.py:44-49 | the loop that skips unchanged entries builds the change set `Changed` |
| Engines.UpdateHeaders | trsfile/engine/engine.py:32-59 | as written: read-only engines refuse with TypeError; None changes nothing; otherwise the update succeeds exactly when every key of the CURRENT headers is a Header, fails only with TypeError, and merges the input's changes |
| Engines.UpdateHeadersIntended | trsfile/engine/engine.py:41-42 | with the guard on the argument, as its error message means: the update succeeds exactly when every key of the input is a Header, and merges the same changes |
| Engines.Merge | trsfile/engine/engine.py:44-56 | the merge reports the change set `Changed`, and an input that changes nothing leaves the headers as they were |
| Engines.MergeResult | trsfile/engine/engine.py:44-56 | after the merge keys stay distinct, each header holds the input's value when it changed and its old value otherwise, and keys not in the input keep their values |
| Engines.MergeApplies | trsfile/engine/engine.py:44-56 | every key of the input ends up in the headers with the input's value or one equal to it |
| Engines.UpdateHeaderChanges | trsfile/engine/engine.py:61-63 | `update_header` of a Header succeeds exactly when every current key is a Header (the guard as written), and then reports a change exactly when the value differs from the current one |
| Engines.UpdateKeepsKnownKeys | trsfile/engine/engine.py:41-42 | with the guard on the input, no key that is not a Header is brought into the headers |
| Engines.GuardChecksCurrentHeaders | trsfile/engine/engine.py:41-42 | as written, a current header under an unknown tag makes a valid update fail, and an unknown key in the input is merged in; the corrected guard does the opposite in both cases |
| TrsHeaders.WriteAt | trsfile/engine/trs.py:500-502 | writing through the memory map, resized first when needed, puts the bytes at the position, keeps what is before them, and keeps what is after them when the file was long enough |
| TrsHeaders.MapLen | trsfile/engine/trs.py:499-503 | the memory map covers `mapped` bytes of the file, never more than the file holds |
| TrsHeaders.MapWrite | trsfile/engine/trs.py:499-503 | a write through the map starts within the map, puts the bytes there and moves the position past them, changing nothing but the file, the map and the position |
| TrsHeaders.Place | trsfile/engine/trs.py:475-503 | placing a header's value never changes the header dictionary, the read-only flag, the padding, the trace length, the live update or the closed flag |
| TrsHeaders.FinishWrite | trsfile/engine/trs.py:505-517 | the end of `__write_headers` never changes the header dictionary or those settings |
| TrsHeaders.LocationBelowLimit | trsfile/engine/trs.py:499-503 | in a well-laid header block every value other than the TRACE_BLOCK's ends before the TRACE_BLOCK record, or at the position when there is none |
| TrsHeaders.RewriteLaid | trsfile/engine/trs.py:480-482 | rewriting bytes below that limit keeps the header block well laid and the file's length |
| TrsHeaders.AppendLaid | trsfile/engine/trs.py:499-503 | appending a new record at the position keeps the header block well laid |
| TrsHeaders.ReopenLaid | trsfile/engine/trs.py:493-497 | seeking back over the TRACE_BLOCK record and forgetting its location keeps the header block well laid |
| TrsHeaders.PlaceLaid | trsfile/engine/trs.py:475-503 | placing any header other than TRACE_BLOCK keeps the header block well laid |
| TrsHeaders.PlaceNew | trsfile/engine/trs.py:484-503 | a header without a location is encoded as a record, written after reopening the trace block when there is one, and its value's location remembered |
| TrsHeaders.WriteOneIsPlace | trsfile/engine/trs.py:447-470 | one pass of the loop places the encoded value, after storing the completed and locked map in the dictionary for the two map types |
| TrsHeaders.WriteOneLaid | trsfile/engine/trs.py:438-503 | one pass of the loop keeps the header block well laid |
| TrsHeaders.WriteAllLaid | trsfile/engine/trs.py:438-503 | the whole loop keeps the header block well laid |
| TrsHeaders.FinishLaid | trsfile/engine/trs.py:505-514 | writing the TRACE_BLOCK record keeps the header block well laid and gives TRACE_BLOCK a location |
| TrsHeaders.WriteHeadersLaid | trsfile/engine/trs.py:417-517 | `__write_headers` keeps the header block well laid, and after writing any header TRACE_BLOCK has a location |
| TrsHeaders.RewriteInPlace | trsfile/engine/trs.py:475-482 | a header with a location is rewritten in place when its new value has the old length, and refused with TypeError otherwise |
| TrsHeaders.PlaceInPlace | trsfile/engine/trs.py:475-482 | rewriting a header in place changes neither the locations, nor the trace block offset, nor the position, nor the file's length, nor anything from the TRACE_BLOCK record on |
| TrsHeaders.WriteOneInPlace | trsfile/engine/trs.py:438-482 | so does one pass of the loop over a header that has a location |
| TrsHeaders.WriteAllInPlace | trsfile/engine/trs.py:438-482 | so does the loop over headers that all have a location |
| TrsHeaders.RewriteKeepsTraceBlock | trsfile/engine/trs.py:417-517 | updating headers that were all written before leaves the trace block and the traces untouched |
| TrsHeaders.NoNewHeaderAfterTraceData | trsfile/engine/trs.py:425-431 | once the file has trace data, a header that was never written is refused with IOError |
| TrsHeaders.ReopenAtEnd | trsfile/engine/trs.py:493-497 | before any trace data the TRACE_BLOCK record ends the file, and reopening it seeks to its start |
| TrsHeaders.PlaceAfterReopen | trsfile/engine/trs.py:484-503 | a new header's record is written where the TRACE_BLOCK record began, and its value's location is the end of the record less the value's length |
| TrsHeaders.PlaceBeforeTraceBlock | trsfile/engine/trs.py:484-503 | before any trace data a new header's record replaces the TRACE_BLOCK record at the end of the file |
| TrsHeaders.AppendAtEnd | trsfile/engine/trs.py:499-503 | appending a record keeps the header block well laid and gives the header the location of its value |
| TrsHeaders.FinishAtEnd | trsfile/engine/trs.py:505-514 | at the end of the file the TRACE_BLOCK record is appended and the trace block starts right after it |
| TrsHeaders.AppendBeforeTraceBlock | trsfile/engine/trs.py:417-517 | adding one new header before any trace data gives the old file up to the TRACE_BLOCK record, the new record, then the TRACE_BLOCK record, with the trace block offset moved by the record's length |
| TrsHeaders.WriteSingle | trsfile/engine/trs.py:417-517 | writing a one-entry dictionary before any trace data is one pass of the loop and the end step |
| TrsHeaders.ReadLoop | trsfile/engine/trs.py:528-570 | the loop stops only once TRACE_BLOCK is read, within the file, with a location for every header read and keys kept distinct |
| TrsHeaders.ReadEntry | trsfile/engine/trs.py:530-570 | one record read moves past at least its tag and length bytes, within the file |
| TrsHeaders.IntOrZero | trsfile/engine/trs.py:579-580 | a missing LENGTH_DATA or TITLE_SPACE counts as 0 |
| TrsHeaders.CodingOf | trsfile/engine/trs.py:578 | the sample coding's size is found exactly when SAMPLE_CODING holds a sample coding |
| TrsHeaders.TraceBlockLayout | trsfile/engine/trs.py:572-580 | the layout is computed only when every mandatory header is there, with NUMBER_TRACES an int |
| TrsHeaders.CheckHeaders | trsfile/engine/trs.py:572-586 | the checks accept only a file with every mandatory header whose length is the trace block offset plus NUMBER_TRACES traces of trace_length bytes |
| TrsHeaders.ReadHeaders | trsfile/engine/trs.py:519-586 | a file read successfully has every mandatory header, a location for each, a known trace length, and a length equal to the trace block offset plus NUMBER_TRACES times the trace length |
| TrsHeaders.CheckHeadersCount | trsfile/engine/trs.py:582-586 | an accepted file's length is the trace block offset plus NUMBER_TRACES traces |
| TrsHeaders.CheckHeadersOtherLength | trsfile/engine/trs.py:582-586 | a file of any other length with the same headers is refused with IOError |
| TrsHeaders.CheckHeadersLayout | trsfile/engine/trs.py:572-586 | accepted headers have a layout whose trace block fills the rest of the file |
| TrsHeaders.CheckHeadersAccepts | trsfile/engine/trs.py:572-586 | headers with a layout whose trace block fills the rest of the file are accepted |
| TrsHeaders.UnknownFirstTagRefused | trsfile/engine/trs.py:561-567 | a file whose first byte is not a known tag is refused with NotImplementedError unless unknown tags are ignored |
| TrsEngines.PyMod | trsfile/engine/trs.py:305-306 | Python's `%` takes the sign of the divisor: its result lies between 0 and the divisor |
| TrsEngines.MaxOf | trsfile/engine/trs.py:170 | `max` of a non-empty list is one of its elements and no element exceeds it |
| TrsEngines.DeepCopyHeaders | trsfile/engine/trs.py:389-390 | the deep copy keeps every key in place and copies each value, parameter maps coming out unlocked |
| TrsEngines.DataLengths | trsfile/engine/trs.py:173 | one serialized parameter length per trace |
| TrsEngines.SamplesUpdate | trsfile/engine/trs.py:166-170 | only an unset NUMBER_SAMPLES is updated, and at most one entry is added |
| TrsEngines.DataLengthUpdate | trsfile/engine/trs.py:172-176 | at most one LENGTH_DATA entry is added |
| TrsEngines.DefinitionsUpdate | trsfile/engine/trs.py:178-187 | definitions are added only when none are present, and at most one entry is added |
| TrsEngines.CodingUpdate | trsfile/engine/trs.py:189-192 | only an unset SAMPLE_CODING is updated, and at most one entry is added |
| TrsEngines.TitleSpaceUpdate | trsfile/engine/trs.py:194-195 | only an unset TITLE_SPACE is updated, and at most one entry is added |
| TrsEngines.MetadataKeys | trsfile/engine/trs.py:158-198 | the metadata update touches only NUMBER_SAMPLES, LENGTH_DATA, TRACE_PARAMETER_DEFINITIONS, SAMPLE_CODING and TITLE_SPACE |
| TrsEngines.MetadataSampleCount | trsfile/engine/trs.py:166-170 | an unset NUMBER_SAMPLES becomes the largest sample count of the batch |
| TrsEngines.MetadataDataLength | trsfile/engine/trs.py:172-176 | an unset LENGTH_DATA is set only when every trace's parameters serialize to the same length, and becomes that length |
| TrsEngines.MetadataDefinitions | trsfile/engine/trs.py:178-187 | missing definitions become those of the first trace; present ones pass only when every trace's parameters match them |
| TrsEngines.MetadataCoding | trsfile/engine/trs.py:189-192 | an unset SAMPLE_CODING is set only when all traces share a coding, and becomes that coding |
| TrsEngines.MetadataTitleSpace | trsfile/engine/trs.py:194-195 | an unset TITLE_SPACE becomes the length, in characters, of the longest title, which bounds every title's byte length when no title holds a multi-byte character |
| TrsEngines.MetadataOnlyDataLength | trsfile/engine/trs.py:158-198 | when the other four headers are set and definitions are present, only LENGTH_DATA can change |
| TrsEngines.SetIndexes | trsfile/engine/trs.py:202-206 | the indexes of set_traces always have a non-zero step |
| TrsEngines.AppendIndexes | trsfile/engine/trs.py:202-206 | the slice `n:n` with k traces writes at indexes n to n+k-1 |
| TrsEngines.SetIndexAt | trsfile/engine/trs.py:205-206 | an int index writes one trace at that index |
| TrsEngines.SetTracesRefusals | trsfile/engine/trs.py:208-233 | a start past NUMBER_TRACES is an IndexError, a trace count other than the index count a TypeError, an empty batch changes nothing, padding NONE with a required header unset a ValueError, another padding mode NotImplementedError |
| TrsEngines.Stride | trsfile/engine/trs.py:240-245 | sample_length and trace_length are computed once, and nothing else changes |
| TrsEngines.StrideKeeps | trsfile/engine/trs.py:240-245 | a trace length already known is kept, and the headers and settings are untouched |
| TrsEngines.WriteFile | trsfile/engine/trs.py:257-277 | writing at an offset, past the end if need be, puts the bytes there and keeps every other byte |
| TrsEngines.RecordOffset | trsfile/engine/trs.py:257 | a trace's record starts at `traceblock_offset + i * trace_length` |
| TrsEngines.WriteRecord | trsfile/engine/trs.py:249-277 | writing one trace changes only the file |
| TrsEngines.WriteFrom | trsfile/engine/trs.py:248-277 | the write loop changes only the file |
| TrsEngines.WriteRecordPlaces | trsfile/engine/trs.py:256-277 | one pass writes the trace's record at its offset, so that the file holds it there |
| TrsEngines.WriteKeepsPlaced | trsfile/engine/trs.py:256-277 | writing one trace's record leaves the record of every other index intact |
| TrsEngines.WriteStepPlaces | trsfile/engine/trs.py:248-277 | after each pass every trace written so far is still in place |
| TrsEngines.WriteFromPlaces | trsfile/engine/trs.py:248-277 | after the loop every trace of the batch is in place at its index |
| TrsEngines.CountSets | trsfile/engine/trs.py:282-296 | the trace count becomes `max(NUMBER_TRACES, max(indexes) + 1)` |
| TrsEngines.UpdateCountSets | trsfile/engine/trs.py:287-289 | a live update writes the new count through update_header |
| TrsEngines.SetCountSets | trsfile/engine/trs.py:296 | without live update the new count is stored in the dictionary |
| TrsEngines.CountWithoutLiveUpdate | trsfile/engine/trs.py:282-296 | without live update only NUMBER_TRACES can change, and the file, the trace block offset and the trace length are untouched |
| TrsEngines.CountKeepsLayout | trsfile/engine/trs.py:282-296 | without live update the count changes nothing that lays out the records |
| TrsEngines.SetTracesCount | trsfile/engine/trs.py:200-296 | after set_traces NUMBER_TRACES is `max(NUMBER_TRACES, max(indexes) + 1)`, or unchanged for an empty batch |
| TrsEngines.PadKeeps | trsfile/engine/trs.py:222-233 | the padding step changes no header other than the five it derives |
| TrsEngines.PrepareKeeps | trsfile/engine/trs.py:222-245 | the steps before the loop change no header other than the five derived, TRACE_SET_PARAMETERS and TRS_VERSION |
| TrsEngines.FirstTraceKeepsLayout | trsfile/engine/trs.py:235-238 | adding TRACE_SET_PARAMETERS and TRS_VERSION before the first trace changes nothing that lays out the records |
| TrsEngines.PadKeepsLayout | trsfile/engine/trs.py:222-233 | when the layout headers are set, padding changes nothing that lays out the records |
| TrsEngines.PrepareKeepsLayout | trsfile/engine/trs.py:222-245 | so do all the steps before the loop, which keep the settings and a known trace length |
| TrsEngines.SetTracesPlaces | trsfile/engine/trs.py:200-296 | after set_traces every trace of the batch is in place at its index under the same layout |
| TrsEngines.AsRead | trsfile/engine/trs.py:336-340 | a trace as read back has the title, the file's sample coding, and NUMBER_SAMPLES samples: its own cut to that many, or padded with zero samples |
| TrsEngines.PlacedReadsBack | trsfile/engine/trs.py:324-340 | a record in place, within the map, reads back as the trace it was written from, with its samples cut or padded |
| TrsEngines.SetTracesThenGet | trsfile/engine/trs.py:200-342 | reading an index just written by set_traces, after the resize, gives back the trace written there, its samples cut or padded to NUMBER_SAMPLES |
| TrsEngines.GetIndexAt | trsfile/engine/trs.py:304-312 | an int index at or past the length is an IndexError, a negative one wraps once, with a length of 0 it is a ZeroDivisionError, and the result is one index below the length |
| TrsEngines.GetIndexesInRange | trsfile/engine/trs.py:300-312 | every index get_traces reads lies below the length |
| TrsEngines.PyModWraps | trsfile/engine/trs.py:305-306 | a negative index no smaller than minus the length wraps to index + length |
| TrsEngines.GrowsByOneTrace | trsfile/engine/trs.py:316-320 | as written, the resize grows a file holding NUMBER_TRACES traces by one trace more |
| TrsEngines.ResizeAsWrittenBreaksReopen | trsfile/engine/trs.py:316-320 | as written, the grown file no longer passes the length check of `__read_headers` |
| TrsEngines.SyncFull | trsfile/engine/trs.py:316-320 | the corrected resize leaves a file that already holds NUMBER_TRACES traces as it is, with the map then covering all of it |
| TrsEngines.ResizeKeepsReopen | trsfile/engine/trs.py:316-320 | with the corrected resize the file still passes the length check of `__read_headers` |
| TrsEngines.CloseKeepsTraceBlock | trsfile/engine/trs.py:361-374 | closing writes NUMBER_TRACES in place, leaves the trace block untouched, and closing twice does nothing |
| TrsEngines.WriteOneKeeps | trsfile/engine/trs.py:460-468 | writing one header changes the dictionary only under its own key, and only for a parameter map |
| TrsEngines.WriteAllKeeps | trsfile/engine/trs.py:438-503 | the write loop changes the dictionary only under the keys of parameter maps it writes |
| TrsEngines.WriteHeadersKeeps | trsfile/engine/trs.py:417-517 | so does `__write_headers` |
| TrsEngines.AfterUpdateHeadersKeeps | trsfile/engine/trs.py:376-379 | `update_headers` leaves every key not in its input as it was, and keeps the settings |
| TrsEngines.AfterUpdateHeadersPlain | trsfile/engine/trs.py:376-379 | a plain value in the input ends up in the dictionary, or the old value stays when it was equal |
| TrsEngines.GetDeepCopy | trsfile/engine/trs.py:389-390 | the deep copy has the same keys, each mapped to a copy of its value |
| TrsEngines.SetIfMissingKeeps | trsfile/engine/trs.py:393-394 | a header is added with the value only when missing, and every present key keeps its value |
| TrsEngines.AddMissingKeeps | trsfile/engine/trs.py:396-399 | every mandatory header is present afterwards, and every header given keeps its value |
| TrsEngines.CompleteHeadersHas | trsfile/engine/trs.py:388-412 | the created headers hold every mandatory header, TITLE_SPACE and LENGTH_DATA, with distinct keys |
| TrsEngines.CompleteHeadersVersion | trsfile/engine/trs.py:401-405 | with a parameter map header present, TRS_VERSION is an int of at least 2 |
| TrsEngines.VersionRaised | trsfile/engine/trs.py:401-405 | the version step leaves TRS_VERSION at 2 or more when a parameter map header is present |
| TrsEngines.CarriedBack | trsfile/engine/trs.py:407-412 | the last two steps add no header other than TITLE_SPACE and LENGTH_DATA |
| TrsEngines.CreateHeadersLaid | trsfile/engine/trs.py:388-415 | creating the headers writes a well-laid header block ending with the TRACE_BLOCK record, and keeps the settings |
| TrsEngines.WriteEveryHeaderLaid | trsfile/engine/trs.py:414-415 | writing all headers keeps the header block well laid and gives TRACE_BLOCK a location |
| TrsEngines.OpenForWriting | trsfile/engine/trs.py:83-142 | opening in modes w and x, or a on a missing file, gives a writable engine with the options given, a well-laid header block and a trace block offset |
| TrsEngines.OpenForReading | trsfile/engine/trs.py:70-81 | opening in mode r needs an existing non-empty file; the engine is read-only, has every mandatory header and a file of the length they promise, and refuses update_headers with TypeError |
| TrsEngines.Opened | trsfile/engine/trs.py:43-147 | a padding mode other than NONE and AUTO is a ValueError; an opened engine is read-only exactly in mode r, keeps the padding given and is open; mode r needs no headers and an existing non-empty file, which it keeps; headers given must all be Headers, in a mode other than r, and not with mode a on an existing file; mode x needs a missing file, and an unknown mode fails |
| TrsEngines.AfterCreateHeaders | trsfile/engine/trs.py:388-415 | creating headers fails with TypeError exactly when completing them does, and keeps the engine's settings |
| TrsEngines.AfterUpdateHeaders | trsfile/engine/trs.py:376-379 | a read-only engine refuses with TypeError; None, or an input that changes nothing, leaves the engine as it is; with a current key that is not a Header the update fails with TypeError (the guard as written); the settings are kept |
| TrsEngines.AfterMetadata | trsfile/engine/trs.py:158-198 | a read-only engine fails; a successful update had only Header keys and derivable metadata, and keeps the settings |
| TrsEngines.Pad | trsfile/engine/trs.py:222-233 | with padding NONE the step passes, changing nothing, exactly when the five derived headers are set, and is a ValueError otherwise; a mode other than NONE and AUTO is a NotImplementedError; the settings are kept |
| TrsEngines.Prepare | trsfile/engine/trs.py:222-245 | the steps before the loop pass the padding step, leave a known sample and trace length, keep a trace length already known, and keep the settings |
| TrsEngines.AfterSetTraces | trsfile/engine/trs.py:200-296 | `set_traces` succeeds only with valid indexes, as many as the traces, starting at or below NUMBER_TRACES; an empty batch changes nothing |
| TrsEngines.Sync | trsfile/engine/trs.py:314-320 | as written: a synched or read-only engine is left as it is; otherwise the resize fails with TypeError exactly when the layout is unknown, keeps the file's bytes, and leaves room for `length() + 1` records, changing only the file, the map and the flag |
| TrsEngines.SyncIntended | trsfile/engine/trs.py:314-320 | the corrected resize: the same cases and errors, the map then covers `length()` records, and a file the map already covers far enough is left as it is |
| TrsEngines.ReadFrom | trsfile/engine/trs.py:322-342 | the read loop returns one trace per index of the range, after those already read |
| TrsEngines.AfterGetTraces | trsfile/engine/trs.py:298-342 | `get_traces` fails when the index does, and otherwise returns one trace per index, changing only the file, the map and the synched flag |
| TrsEngines.AfterGetTracesIntended | trsfile/engine/trs.py:298-342 | the same, over the corrected resize |
| TrsEngines.AfterClose | trsfile/engine/trs.py:361-374 | closing a closed engine does nothing; a read-only one is only marked closed; a writable one without NUMBER_TRACES is a KeyError; a closed engine keeps its settings and trace length |
| TrsEngines.Resized | trsfile/engine/trs.py:318-320 | `mmap.resize(n)` leaves n bytes: the old ones first, then zeros |
| TrsEngines.SyncShows | trsfile/engine/trs.py:314-320 | after the resize as written a record placed in the file lies within the map |
| TrsEngines.SyncIntendedShows | trsfile/engine/trs.py:314-320 | so it does after the corrected resize, whenever the file holds at most `length()` records |
| TrsEngines.SyncsReadBack | trsfile/engine/trs.py:314-342 | a record placed before either resize reads back, after it, as the trace written, padded |
| TrsEngines.PlacedExtended | trsfile/engine/trs.py:314-320 | growing the file while keeping its bytes keeps every record in place |
| TrsEngines.AccentedTitleRefused | trsfile/engine/trs.py:195 | a one-character title of two UTF-8 bytes sets TITLE_SPACE to 1, and its record is then refused with TypeError |
| TrsEngines.TitleSpaceIntended | trsfile/engine/trs.py:195 | the intended TITLE_SPACE is the byte length of the longest title: every title fits and one fills it |
| TrsEngines.TitleSpaceIntendedFits | trsfile/engine/trs.py:259-262 | under that TITLE_SPACE a trace's record is refused only when its parameters cannot be serialized |
| TrsTraces.SliceIndices | trsfile/engine/trs.py:300-302 | `slice.indices(length)`: a step of 0 is refused; with a positive step start and stop are clamped to 0..length, with a negative step to -1..length-1 |
| TrsTraces.SliceIndicesInRange | trsfile/engine/trs.py:300-302 | every index of the range of a slice lies in 0..length-1 |
| TrsTraces.PyPrefix | trsfile/engine/trs.py:271 | `samples[:n]` is the first n samples, or all of them when there are fewer |
| TrsTraces.EncodeRecord | trsfile/engine/trs.py:259-262 | a title longer than TITLE_SPACE is a TypeError |
| TrsTraces.RecordLayout | trsfile/engine/trs.py:259-277 | a trace's record is its title padded with zero bytes to TITLE_SPACE, its serialized parameters, then its samples padded with zero samples to NUMBER_SAMPLES |
| TrsTraces.Padded | trsfile/engine/trs.py:270-277 | the samples written number NUMBER_SAMPLES: a longer trace is cut to its first NUMBER_SAMPLES, a shorter one keeps its own and is padded with zero samples |
| TrsTraces.PaddedBytes | trsfile/engine/trs.py:271-277 | the truncated samples followed by the zero padding are the bytes of the padded samples |
| TrsTraces.ReadUpTo | trsfile/engine/trs.py:330 | a read of a non-negative count reads that many bytes, or what is left |
| TrsTraces.StripZeros | trsfile/engine/trs.py:330 | `rstrip(b'\x00')` removes exactly the trailing zero bytes |
| TrsTraces.StripPadded | trsfile/engine/trs.py:264-265 | a title without trailing zero bytes, padded with zeros, strips back to itself |
| TrsTraces.Chunks | trsfile/engine/trs.py:337-338 | `numpy.frombuffer` with a count gives that many samples of the coding's size |
| TrsTraces.ChunksOfFlatten | trsfile/engine/trs.py:337-338 | splitting the bytes of samples of one size gives those samples back |
| TrsTraces.ParamsReadBack | trsfile/engine/trs.py:344-351 | the definitions built from a parameter map reserve exactly its serialized bytes, which deserialize back to the map |
| TrsTraces.ParameterDataFrom | trsfile/engine/trs.py:346-351 | with TRS_VERSION above 1 and definitions present, `read_parameter_data` reads the bytes the definitions reserve and deserializes them |
| TrsTraces.RecordRoundTrip | trsfile/engine/trs.py:248-340 | a record written by set_traces reads back with the file's coding, the trace's samples padded to NUMBER_SAMPLES, its parameters and its title |
| TrsTraces.CharCount | trsfile/engine/trs.py:195 | `len(trace.title)` counts characters: never more than the UTF-8 bytes, and as many exactly when no byte continues a character |
| TrsTraces.ReadTrace | trsfile/engine/trs.py:324-340 | a trace read from a record has the file's sample coding, a title without trailing zero bytes, NUMBER_SAMPLES samples when that is not negative, each of the coding's size |
| TrsTraces.ReadTraceNegativeCount | trsfile/engine/trs.py:337-338 | a negative NUMBER_SAMPLES makes `numpy.frombuffer` take every byte read for the samples; the read fails with ValueError exactly when those bytes are not a whole number of samples |
| TrsTraces.ReadParameterData | trsfile/engine/trs.py:344-359 | reading the parameter data moves the cursor forward only; without definitions or LENGTH_DATA it reads nothing, and with LENGTH_DATA only it reads that many bytes as LEGACY_DATA |
| TrsEngineObjects.TrsEngine.constructor | trsfile/engine/trs.py:43-67 | the attributes `__init__` sets before the headers: no headers, no locations, no trace block offset, position 0, and the options given |
| TrsEngineObjects.TrsEngine.Open | trsfile/engine/trs.py:43-147 | opening checks the padding mode and the mode's conditions, then reads or creates the headers, giving a fresh engine in the state `Opened` describes (see `OpenForReading`, `OpenForWriting`) or its error |
| TrsEngineObjects.TrsEngine.CreateHeaders | trsfile/engine/trs.py:388-415 | the in-place `__create_headers` leaves the state `AfterCreateHeaders` computes (see `CompleteHeadersHas`, `CreateHeadersLaid`) or reports its error |
| TrsEngineObjects.TrsEngine.PlaceHeader | trsfile/engine/trs.py:475-503 | placing one header's value updates the file, the position and the locations as `Place` does |
| TrsEngineObjects.TrsEngine.RewriteHeader | trsfile/engine/trs.py:476-482 | rewriting a value in place needs the old length (TypeError otherwise) and changes only the file |
| TrsEngineObjects.TrsEngine.ReopenTraceBlock | trsfile/engine/trs.py:493-497 | seeking back over the TRACE_BLOCK record forgets its location and the trace block offset |
| TrsEngineObjects.TrsEngine.AppendRecord | trsfile/engine/trs.py:499-503 | a new record is written at the position, which moves past it, and the value's location is stored |
| TrsEngineObjects.TrsEngine.WriteThroughMap | trsfile/engine/trs.py:499-503 | a write through the map, resizing file and map when the file is too short, leaves the state `MapWrite` computes or its error |
| TrsEngineObjects.TrsEngine.WriteHeader | trsfile/engine/trs.py:439-503 | one pass of the loop of `__write_headers` leaves the state `WriteOne` computes |
| TrsEngineObjects.TrsEngine.WriteEntries | trsfile/engine/trs.py:438-503 | the loop of `__write_headers` leaves the state `WriteAll` computes, stopping at the first error |
| TrsEngineObjects.TrsEngine.FinishWriting | trsfile/engine/trs.py:505-517 | the TRACE_BLOCK record is written unless it has a location, as `FinishWrite` computes |
| TrsEngineObjects.TrsEngine.WriteHeaders | trsfile/engine/trs.py:417-517 | the in-place `__write_headers` leaves the state `TrsHeaders.WriteHeaders` computes, which keeps the header block well laid (`WriteHeadersLaid`) |
| TrsEngineObjects.TrsEngine.ReadRecords | trsfile/engine/trs.py:521-570 | the loop over the records of the file gives what `ReadLoop` computes, and changes nothing |
| TrsEngineObjects.TrsEngine.AcceptHeaders | trsfile/engine/trs.py:572-586 | the checks after the loop leave the state `CheckHeaders` computes, or report IOError |
| TrsEngineObjects.TrsEngine.SetLayout | trsfile/engine/trs.py:577-580 | the headers, their locations, the trace block offset and the record lengths are stored, and the position moves to the end of the file |
| TrsEngineObjects.TrsEngine.ReadHeaders | trsfile/engine/trs.py:519-586 | the in-place `__read_headers` leaves the state `TrsHeaders.ReadHeaders` computes, which has every mandatory header and a consistent file length |
| TrsEngineObjects.TrsEngine.UpdateHeaders | trsfile/engine/trs.py:376-379 | with the guard as written (on the current keys), the changed headers are merged and written, as `AfterUpdateHeaders` computes (see `AfterUpdateHeadersKeeps`) |
| TrsEngineObjects.TrsEngine.UpdateHeader | trsfile/engine/engine.py:61-63 | `update_header` is `update_headers`, as written, with one entry |
| TrsEngineObjects.TrsEngine.UpdateHeadersWithTracesMetadata | trsfile/engine/trs.py:158-198 | the derived headers are applied with `update_headers`, as `AfterMetadata` computes (see the `Metadata` lemmas) |
| TrsEngineObjects.TrsEngine.PadHeaders | trsfile/engine/trs.py:222-233 | the padding step leaves the state `Pad` computes |
| TrsEngineObjects.TrsEngine.SetStride | trsfile/engine/trs.py:240-245 | sample_length and trace_length are computed when still unknown |
| TrsEngineObjects.TrsEngine.PrepareTraces | trsfile/engine/trs.py:222-245 | the steps before the write loop leave the state `Prepare` computes |
| TrsEngineObjects.TrsEngine.WriteTrace | trsfile/engine/trs.py:249-277 | one trace's record is written at its offset, changing only the file |
| TrsEngineObjects.TrsEngine.WriteTraces | trsfile/engine/trs.py:248-277 | the write loop leaves the state `WriteFrom` computes, stopping at the first error |
| TrsEngineObjects.TrsEngine.GrowCount | trsfile/engine/trs.py:283-296 | a grown count is written at once under live update, or only stored in the dictionary |
| TrsEngineObjects.TrsEngine.CountTraces | trsfile/engine/trs.py:282-296 | the trace count becomes `max(NUMBER_TRACES, max(indexes) + 1)` (see `CountSets`) |
| TrsEngineObjects.TrsEngine.SetTraces | trsfile/engine/trs.py:200-296 | the in-place `set_traces` leaves the state `AfterSetTraces` computes, whose traces read back (`SetTracesThenGet`) |
| TrsEngineObjects.TrsEngine.SyncFile | trsfile/engine/trs.py:316-320 | as written, the file and the map are resized to room for `length() + 1` records, as `Sync` computes |
| TrsEngineObjects.TrsEngine.ReadTraces | trsfile/engine/trs.py:322-342 | the read loop gives the traces `ReadFrom` computes and changes nothing |
| TrsEngineObjects.TrsEngine.GetTraces | trsfile/engine/trs.py:298-342 | `get_traces` checks the index, resizes as written and reads, as `AfterGetTraces` computes |
| TrsEngineObjects.TrsEngine.Close | trsfile/engine/trs.py:361-374 | a writable engine writes NUMBER_TRACES before closing, and closing twice does nothing (`CloseKeepsTraceBlock`) |
| EntryStreams.ReadEntriesStep | trsfile/parametermap.py:264-267 | a pass of the read loop reads one entry and stores it with `result[name] = value` before the rest |
| EntryStreams.ReadEntriesFails | trsfile/parametermap.py:264-267 | an entry that cannot be read stops the loop with its error |
| EntryStreams.ReadEntriesDistinct | trsfile/parametermap.py:264-267 | the entries read into a dictionary keep distinct names |
| EntryStreams.EntriesFromChunks | trsfile/parametermap.py:264-267 | entries serialized one after the other read back, in order, and the cursor ends after the last one |

## Left out

- File I/O is not modelled: opening, `flush`, `fsync`, the operating system's view of the file. The file is a byte sequence and the memory map a length over it. Whether the path exists is an input of `TrsEngines.Opened`.
- Floating point: a float is a packed word (`PyValues`). Python's `==` on floats (NaN, -0.0) and the packing of an int into a 32-bit float (`FloatPacking`) are modelled; other arithmetic and the conversion of a 64-bit float word into a 32-bit float header are not. An 8-byte float word given for a float header is refused with struct.error (`Tlvs.PackFloat`).
- TraceParameters.Construct: FloatArrayParameter and DoubleArrayParameter take any list of Python floats and ints (`trsfile/traceparameter.py:152-157`, `trsfile/traceparameter.py:175-180`) and convert them to the class's width only in `serialize`. Here a float parameter holds packed words of its own width, so FLOAT refuses an 8-byte float word (a Python float) and DOUBLE a 4-byte one, and both refuse ints, with TypeError. `FloatArrayParameter([2.0])` and `DoubleArrayParameter([1])` are therefore TypeErrors here. The reason is that the model has no conversion between the two float widths.
- TraceSetParameterMaps.AddParameterInferred: because of the gap in `TraceParameters.Construct`, `add_parameter("X_SCALE", 2.0)`, or any FLOAT standard parameter given a Python float or an int, does not fit the standard class here. The value is then stored under the name as given, as a DOUBLE parameter, where the source stores a FloatArrayParameter under the standard identifier (`trsfile/parametermap.py:213-217`). `add_standard_parameter` with such a value fails here (`TraceSetParameterMaps.AddStandardParameterStores`).
- TraceParameterMaps.AddParameterInferred: the same gap for the FLOAT standard trace parameters, such as FILTER:LOW_BOUND and FILTER:HIGH_BOUND (`trsfile/parametermap.py:442-445`, `trsfile/parametermap.py:457-468`).
- Engines.PyEq: an int and a float compare unequal; Python's `1 == 1.0` across the two types is not modelled, because a float is a packed word without arithmetic.
- TraceParameterDefinitionMaps.Insert: the in-place `param.offset +=` (`trsfile/parametermap.py:339`) also shifts the definitions that a shallow `copy()` (`trsfile/parametermap.py:155-158`) shares with the map; here definitions are values, so no copy sees that change.
- numpy arrays and dtypes: samples are byte sequences of the coding's width.
- `warnings.warn`: the model has no effect where the source only warns.
- UTF-8 decoding errors: strings are the byte sequences they encode.
- `str.strip` of the trace title (`trsfile/engine/trs.py:260`): the title bytes are kept as read.
- The mandatory headers are added in declaration order of `Header`, not in the iteration order of the Python set `Header.get_mandatory()`. The order affects only where they sit in the header block.
- The tags of TRS_VERSION, TRACE_SET_PARAMETERS and TRACE_PARAMETER_DEFINITIONS are assumed to be 0x76, 0x77 and 0x78 because `trsfile/common.py` lacks them.
- TrsEngines.SetTracesThenGet: stated only when the trace length is known and live update is off. Otherwise the headers that `set_traces` may rewrite are not related to the traces read back.
- TrsEngines.CloseKeepsTraceBlock: states that the trace block survives `close`, not what the header block then holds. `TrsHeaders` states the header round trip separately.
- The state an operation leaves behind when it raises is not stated. Only the exception is.
- The base `Engine`'s abstract methods and its `set_traces`, `get_traces` and `del_traces`, which raise TypeError (`trsfile/engine/engine.py:3-29`), are not modelled. Only `update_headers` has behaviour there.
- `trsfile/trace_set.py`, `trsfile/trace.py`, `trsfile/file.py`, `trsfile/trsfile.py`, the other engines and the converters are not part of this model.

## Findings

| source | as written | input that shows it | evidently intended | confidence | as-written member | corrected member |
|---|---|---|---|---|---|---|
| trsfile/engine/engine.py:41 | the check that every updated header is a known `Header` tests the keys of the engine's current headers, not the keys of the headers passed in | current headers that hold an unknown tag (kept when reading with `ignore_unknown_tags`), updated with `{DESCRIPTION: "a"}`: TypeError, although the argument is valid; and with current headers all known, an argument holding an unknown tag is merged unchecked | check the keys of the argument | not executed | Engines.GuardChecksCurrentHeaders | Engines.UpdateHeadersIntended |
| trsfile/engine/trs.py:317 | `get_traces` on a writable engine whose memory map is not in step with the file compares the file's size with the trace block offset plus `length() + 1` records, and grows file and map to that size | a new file with NUMBER_TRACES = n written by `set_traces`, then `get_traces` before `close`: the file holds n + 1 records, and reopening it raises IOError because its length does not match n records | compare the map's size with exactly NUMBER_TRACES records, and resize file and map to that | not executed | TrsEngines.ResizeAsWrittenBreaksReopen | TrsEngines.ResizeKeepsReopen |
| trsfile/engine/trs.py:195 | `update_headers_with_traces_metadata` sets TITLE_SPACE to the longest title's length in characters, while the record (lines 259-262) checks the title's UTF-8 byte length against it | one trace titled "é" (two UTF-8 bytes) on a new file: TITLE_SPACE becomes 1 and `set_traces` raises TypeError 'Trace title is longer than available title space' | TITLE_SPACE as the longest encoded title, in bytes | not executed | TrsEngines.AccentedTitleRefused | TrsEngines.TitleSpaceIntendedFits |
