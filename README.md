# th2-codec-fix-orchestra, modelled in Dafny

This project models the schema-driven FIX codec of th2-codec-fix-orchestra
and proves properties of the model. The codec has four parts:

- **Schema resolution** (`RepositoryUtil.kt`) turns the references of a FIX
  Orchestra repository into trees of `FixField` nodes: fields, components and
  groups.
  - Components are inlined or kept nested.
  - Groups are keyed by their NumInGroup counter.
  - Each message's `StandardHeader` and `StandardTrailer` are lifted out of its
    body.
  - Each section carries the pre-order list of its positive tags.
- **The encode engine** (`EncodeUtil.kt`) walks the schema keys and the input
  keys of a th2 message. It writes a FIX message (header, body, trailer, with
  group repetitions) and collects errors instead of throwing.
- **The decode engine** (`DecodeUtil.kt`) walks only the schema. It reads a
  parsed FIX message back into a th2 message, mapping enum codes back to
  symbolic names and groups to lists.
- **The pipeline codec** (`FixOrchestraCodec.kt`) walks a message group.
  - Messages of another kind or protocol pass through in place.
  - Every other message is encoded or decoded and then validated.
  - Its errors go to one of three error holders (`DummyHolder`, `ListHolder`,
    `ContextHolder`), chosen from the settings and from whether th2 itself sent
    the message.
  - A holder that reports errors fails the whole call.

## Modules

- `wrappers.dfy` (`Wrappers`): `Option` and `Result`.
- `text.dfy` (`Text`): decimal rendering, `isBlank`, `joinToString`.
- `linked_maps.dfy` (`LinkedMaps`): Kotlin's `LinkedHashMap` as an association
  list. A put keeps a key's first position and its last value, as
  `associateBy`/`associateByTo` do.
- `orchestra.dfy` (`Orchestra`): the repository records the codec reads.
- `schema.dfy` (`Schema`): `FixField`, `FixMessage`, `getFieldOrder` and
  resolution as functions, with their lemmas.
- `resolver.dfy` (`Resolution`): the class `Resolver`, resolution as the codec
  runs it through its memo maps. Each method is proved equal to the `Schema`
  function.
- `th2.dfy`, `wire.dfy`, `errors.dfy`: th2 values and builders, FIX field maps
  and builders, and the engine's error messages with their exact texts.
- `scalars.dfy` (`Scalars`): scalar types, the boolean helpers and the time
  precision.
- `fields.dfy` (`Fields`): `encodeField` and `decodeField`.
- `encode.dfy` (`Encoding`) and `decode.dfy` (`Decoding`): each engine as
  recursive functions, and as imperative methods over builder classes proved
  equal to those functions.
- `holders.dfy` (`Holders`): the error holders, as a class, and the reporting
  context.
- `codec.dfy` (`Codec`): construction of the codec, holder selection,
  per-message encode and decode, and the batch loops, each both as a function
  and as a method.

Collaborators this model does not describe are parameters:

- the scalar converters of QuickFIX/J and `java.time`, as the record
  `Converters`;
- QuickFIX/J's parser and serialiser, the scenario lookup and the validators,
  as the record `Environment`.

## Model

| member | source | states |
|---|---|---|
| Schema.BeginString | src/main/kotlin/com/exactpro/th2/codec/fix/orchestra/util/RepositoryUtil.kt:43-44 | the begin string differs from the version exactly when the version starts with "FIX.5", and then it is "FIXT.1.1" |
| Schema.ToInt32 | src/main/kotlin/com/exactpro/th2/codec/fix/orchestra/util/RepositoryUtil.kt:97 | `BigInteger.toInt` gives a signed 32-bit value congruent to the id modulo 2^32, and the id itself when it fits |
| Schema.ReversedValuesInverse | src/main/kotlin/com/exactpro/th2/codec/fix/orchestra/util/RepositoryUtil.kt:75-76 | `reversedValues` has an entry for a code exactly when the code is one of `values`' values, and that entry names a symbol that `values` maps to the code: the symbol of the last entry with that code, as `associate` keeps |
| Schema.PositiveTags | src/main/kotlin/com/exactpro/th2/codec/fix/orchestra/util/RepositoryUtil.kt:81 | only tags above zero are emitted, at most one per node |
| Schema.FieldOrderIsPreOrder | src/main/kotlin/com/exactpro/th2/codec/fix/orchestra/util/RepositoryUtil.kt:79-84 | `getFieldOrder` is the positive tags of the pre-order walk of the tree: each node's tag comes before its children's |
| Schema.FieldOrderPositive | src/main/kotlin/com/exactpro/th2/codec/fix/orchestra/util/RepositoryUtil.kt:79-84 | every tag of the field order is positive, and its length is the number of nodes with a positive tag |
| Schema.SingleFrom | src/main/kotlin/com/exactpro/th2/codec/fix/orchestra/util/RepositoryUtil.kt:88 | `single` succeeds exactly when one element matches the id, and then returns it; with none or several it fails with Kotlin's two messages |
| Schema.Single | src/main/kotlin/com/exactpro/th2/codec/fix/orchestra/util/RepositoryUtil.kt:106-108 | a found component, group or field is an element of the repository list with the requested id |
| Schema.FindCodeSet | src/main/kotlin/com/exactpro/th2/codec/fix/orchestra/util/RepositoryUtil.kt:91-93 | `find` returns a code set of the list with that name, and nothing exactly when no code set has that name |
| Schema.CodeTableGet | src/main/kotlin/com/exactpro/th2/codec/fix/orchestra/util/RepositoryUtil.kt:99 | the enum table maps each code name to the value of the last code with that name, and is non-empty exactly when the code set has codes |
| Schema.ResolveField | src/main/kotlin/com/exactpro/th2/codec/fix/orchestra/util/RepositoryUtil.kt:86-103 | a field reference resolves exactly when its field id is found, and gives a well-formed field node |
| Schema.ResolvedFieldReference | src/main/kotlin/com/exactpro/th2/codec/fix/orchestra/util/RepositoryUtil.kt:86-103 | the node carries the field's name and tag and is a field. It is required iff the presence is REQUIRED. Its type is the code set's type if a code set of that name exists, else the declared type. It is an enum iff that code set has codes |
| Schema.ResolveComponent | src/main/kotlin/com/exactpro/th2/codec/fix/orchestra/util/RepositoryUtil.kt:105-126 | a resolved component reference gives well-formed nodes |
| Schema.ComponentReference | src/main/kotlin/com/exactpro/th2/codec/fix/orchestra/util/RepositoryUtil.kt:105-126 | when inlining a component other than StandardHeader/StandardTrailer, its children are returned. Otherwise a single component node named after it holds the children, required iff the presence is REQUIRED and some child is required |
| Schema.ResolveComponentOf | src/main/kotlin/com/exactpro/th2/codec/fix/orchestra/util/RepositoryUtil.kt:110-125 | a found component resolves to well-formed nodes |
| Schema.ComponentNodes | src/main/kotlin/com/exactpro/th2/codec/fix/orchestra/util/RepositoryUtil.kt:110-125 | an inlined component other than StandardHeader and StandardTrailer contributes its own fields; otherwise one component node named after it, required iff the reference is required and one of its fields is |
| Schema.ResolveGroup | src/main/kotlin/com/exactpro/th2/codec/fix/orchestra/util/RepositoryUtil.kt:128-154 | a resolved group reference gives a well-formed node |
| Schema.GroupReference | src/main/kotlin/com/exactpro/th2/codec/fix/orchestra/util/RepositoryUtil.kt:128-154 | the group node carries the counter field's name and tag, is required iff REQUIRED, and holds the members' field map. It is returned when inlining; otherwise it is wrapped in a component named after the group that holds exactly that node |
| Schema.ResolveGroupOf | src/main/kotlin/com/exactpro/th2/codec/fix/orchestra/util/RepositoryUtil.kt:133-153 | a found group resolves to a well-formed node |
| Schema.GroupNode | src/main/kotlin/com/exactpro/th2/codec/fix/orchestra/util/RepositoryUtil.kt:137-153 | the group node is named after the counter, tagged with its 32-bit id, required iff the reference is, and holds the group's fields; without inlining it is wrapped in one component named after the group |
| Schema.ResolveRef | src/main/kotlin/com/exactpro/th2/codec/fix/orchestra/util/RepositoryUtil.kt:156-161 | the dispatcher over field, group and component references gives well-formed nodes |
| Schema.ResolveFieldMap | src/main/kotlin/com/exactpro/th2/codec/fix/orchestra/util/RepositoryUtil.kt:163-167 | `toFieldMap` gives a field map of well-formed nodes keyed by name without repeats |
| Schema.ResolveOntoIsAssociate | src/main/kotlin/com/exactpro/th2/codec/fix/orchestra/util/RepositoryUtil.kt:163-167 | resolving references one by one onto a map succeeds iff resolving all of them does, and equals putting the flattened node list into the map |
| Schema.FieldMapKeepsLast | src/main/kotlin/com/exactpro/th2/codec/fix/orchestra/util/RepositoryUtil.kt:163-167 | for a duplicated name the field map holds the last node declared, and names appear in order of first occurrence |
| Schema.FirstMsgType | src/main/kotlin/com/exactpro/th2/codec/fix/orchestra/util/RepositoryUtil.kt:185 | `first { it.name == name }` succeeds exactly when some message has that name, and fails with Kotlin's message otherwise |
| Schema.MergeMessages | src/main/kotlin/com/exactpro/th2/codec/fix/orchestra/util/RepositoryUtil.kt:170-180 | the `forEach` over the messages keeps every merged field map well-formed: one well-formed node per name |
| Schema.MergeMessage | src/main/kotlin/com/exactpro/th2/codec/fix/orchestra/util/RepositoryUtil.kt:171-179 | one message of the `forEach`: the field maps stay well-formed, and the message name joins the keys only when it is new (`getOrPut` keeps the first position) |
| Schema.HeaderAndTrailerLifted | src/main/kotlin/com/exactpro/th2/codec/fix/orchestra/util/RepositoryUtil.kt:182-190 | a structure is built iff the name has a message and its map has StandardHeader and StandardTrailer entries. Otherwise it fails with "No header in message: " or "No trailer in message: ". Header and trailer are those entries' children, the body is the rest, and neither entry remains in the body |
| Schema.BuildMessages | src/main/kotlin/com/exactpro/th2/codec/fix/orchestra/util/RepositoryUtil.kt:182-190 | `mapValues` builds entry `i` of the result from merged entry `i`, under the same name and in the same order; it fails exactly when some entry fails to build, and then with the first such failure in map order |
| Schema.MapAll | src/main/kotlin/com/exactpro/th2/codec/fix/orchestra/util/RepositoryUtil.kt:182-190 | a map whose lambda may throw: element `i` is the lambda's result on input `i`, and the whole fails exactly when some element does, with the first failure |
| Schema.BuildNamed | src/main/kotlin/com/exactpro/th2/codec/fix/orchestra/util/RepositoryUtil.kt:182-190 | one entry of `mapValues` succeeds exactly when its message builds, and then pairs the entry's name with that message |
| Resolution.Resolver.FieldById | src/main/kotlin/com/exactpro/th2/codec/fix/orchestra/util/RepositoryUtil.kt:87-89 | `FIELDS.computeIfAbsent` returns what the uncached `single` returns, and the cache gains the entry only on success |
| Resolution.Resolver.ComponentById | src/main/kotlin/com/exactpro/th2/codec/fix/orchestra/util/RepositoryUtil.kt:106-108 | `COMPONENTS.computeIfAbsent` returns the uncached lookup and caches only a success |
| Resolution.Resolver.GroupById | src/main/kotlin/com/exactpro/th2/codec/fix/orchestra/util/RepositoryUtil.kt:129-131 | `GROUPS.computeIfAbsent` returns the uncached lookup and caches only a success |
| Resolution.Resolver.CodeSetByType | src/main/kotlin/com/exactpro/th2/codec/fix/orchestra/util/RepositoryUtil.kt:91-93 | `CODE_SETS.computeIfAbsent` returns the uncached `find`, and a failed `find` stores nothing |
| Resolution.Resolver.ToField | src/main/kotlin/com/exactpro/th2/codec/fix/orchestra/util/RepositoryUtil.kt:86-103 | the cached resolution of a field reference equals `Schema.ResolveField`, and the caches stay faithful and only grow |
| Resolution.Resolver.ToComponent | src/main/kotlin/com/exactpro/th2/codec/fix/orchestra/util/RepositoryUtil.kt:105-126 | the cached resolution of a component reference equals `Schema.ResolveComponent` |
| Resolution.Resolver.ToComponentOf | src/main/kotlin/com/exactpro/th2/codec/fix/orchestra/util/RepositoryUtil.kt:110-125 | the cached resolution of a found component equals `Schema.ResolveComponentOf` and only adds cache entries |
| Resolution.Resolver.ToGroup | src/main/kotlin/com/exactpro/th2/codec/fix/orchestra/util/RepositoryUtil.kt:128-154 | the cached resolution of a group reference equals `Schema.ResolveGroup` |
| Resolution.Resolver.ToGroupOf | src/main/kotlin/com/exactpro/th2/codec/fix/orchestra/util/RepositoryUtil.kt:133-153 | the cached resolution of a found group equals `Schema.ResolveGroupOf` and only adds cache entries |
| Resolution.Resolver.ToFields | src/main/kotlin/com/exactpro/th2/codec/fix/orchestra/util/RepositoryUtil.kt:156-161 | the cached dispatcher equals `Schema.ResolveRef` |
| Resolution.Resolver.AssociateOnto | src/main/kotlin/com/exactpro/th2/codec/fix/orchestra/util/RepositoryUtil.kt:175-179 | the `associateByTo` loop equals `Schema.ResolveOnto` |
| Resolution.Resolver.ToFieldMap | src/main/kotlin/com/exactpro/th2/codec/fix/orchestra/util/RepositoryUtil.kt:163-167 | the cached `toFieldMap` equals `Schema.ResolveFieldMap` |
| Resolution.Resolver.MergeFieldMaps | src/main/kotlin/com/exactpro/th2/codec/fix/orchestra/util/RepositoryUtil.kt:170-180 | the `forEach` over the messages equals `Schema.MergeMessages` |
| Resolution.Resolver.MergeOne | src/main/kotlin/com/exactpro/th2/codec/fix/orchestra/util/RepositoryUtil.kt:171-179 | one `getOrPut` plus `associateByTo` equals `Schema.MergeMessage` |
| Resolution.Resolver.BuildAll | src/main/kotlin/com/exactpro/th2/codec/fix/orchestra/util/RepositoryUtil.kt:182-190 | the `mapValues` loop equals `Schema.BuildMessages` and stops at the first failure |
| Resolution.Resolver.LoadMessageStructures | src/main/kotlin/com/exactpro/th2/codec/fix/orchestra/util/RepositoryUtil.kt:169-191 | `loadMessageStructures` with the caches equals `Schema.LoadMessageStructures` |
| LinkedMaps.Get | src/main/kotlin/com/exactpro/th2/codec/fix/orchestra/util/EncodeUtil.kt:83 | a lookup finds an entry exactly when the key is one of the map's keys, and the entry carries that key |
| LinkedMaps.Put | src/main/kotlin/com/exactpro/th2/codec/fix/orchestra/util/RepositoryUtil.kt:179 | a put keeps an existing key in its place and appends a new one last; the key then maps to the new entry and every other key is unaffected |
| LinkedMaps.PutAllGet | src/main/kotlin/com/exactpro/th2/codec/fix/orchestra/util/RepositoryUtil.kt:175-179 | after `associateByTo`, each key maps to the last element carrying it, or keeps its old entry when no element carries it |
| LinkedMaps.PutAllKeys | src/main/kotlin/com/exactpro/th2/codec/fix/orchestra/util/RepositoryUtil.kt:175-179 | after `associateByTo`, the keys are the old keys followed by the new ones in order of first occurrence |
| LinkedMaps.AssociateByKeys | src/main/kotlin/com/exactpro/th2/codec/fix/orchestra/FixOrchestraCodec.kt:60 | the keys of an `associateBy` map are the element keys in order of first occurrence, without repeats |
| LinkedMaps.AssociateByGet | src/main/kotlin/com/exactpro/th2/codec/fix/orchestra/FixOrchestraCodec.kt:60 | an `associateBy` map holds, for each key, the last element carrying it |
| LinkedMaps.Union | src/main/kotlin/com/exactpro/th2/codec/fix/orchestra/util/EncodeUtil.kt:78 | `keys + message.keys` holds each name of either set exactly once: the schema's names first, in their order, then the message's other names in the order they first occur |
| LinkedMaps.Remove | src/main/kotlin/com/exactpro/th2/codec/fix/orchestra/util/RepositoryUtil.kt:186-187 | `remove` drops the key, keeps every other key's entry and adds nothing |
| Scalars.TypeOf | src/main/kotlin/com/exactpro/th2/codec/fix/orchestra/util/EncodeUtil.kt:132-167 | a value is passed through as a string exactly when its type has no converter branch |
| Scalars.ToBooleanExact | src/main/kotlin/com/exactpro/th2/codec/fix/orchestra/util/EncodeUtil.kt:211-215 | only "true" and "false" are accepted, as true and false |
| Scalars.FixBooleanOf | src/main/kotlin/com/exactpro/th2/codec/fix/orchestra/util/DecodeUtil.kt:110 | QuickFIX/J's boolean converter accepts exactly "Y" and "N", and reads "Y" as true and "N" as false |
| Scalars.FixBoolean | src/main/kotlin/com/exactpro/th2/codec/fix/orchestra/util/EncodeUtil.kt:136 | `setBoolean` writes a code the boolean converter reads back as the same boolean |
| Scalars.Truncated | src/main/kotlin/com/exactpro/th2/codec/fix/orchestra/util/EncodeUtil.kt:158 | a time written with a precision keeps its nanoseconds rounded down to a multiple of that precision's unit |
| Scalars.CalculateTimePrecision | src/main/kotlin/com/exactpro/th2/codec/fix/orchestra/util/EncodeUtil.kt:179-187 | as written: failure with "nanos part is negative" exactly outside 0..999 999 999, SECONDS exactly for 0, and otherwise the unit is the largest of 1, 10^3, 10^6 ns not above the nanoseconds |
| Scalars.CalculatedPrecisionTruncates | src/main/kotlin/com/exactpro/th2/codec/fix/orchestra/util/EncodeUtil.kt:179-187 | the nanoseconds 123 456 789 get MILLIS as written, which writes them as 123 000 000 and loses digits |
| Scalars.TimePrecision | src/main/kotlin/com/exactpro/th2/codec/fix/orchestra/util/EncodeUtil.kt:179-187 | the corrected reference for `calculateTimePrecision`, used by nothing in the codec: the precision keeps every digit of the time and has the fewest fraction digits that do |
| Scalars.EncoderPrecision | src/main/kotlin/com/exactpro/th2/codec/fix/orchestra/util/EncodeUtil.kt:171-177 | the precision the encoder passes to QuickFIX/J is `calculateTimePrecision` of the nanoseconds, which never fails on them: SECONDS exactly for 0, and otherwise the unit within three digits of the nanoseconds |
| Scalars.TimePrecisionAgrees | src/main/kotlin/com/exactpro/th2/codec/fix/orchestra/util/EncodeUtil.kt:179-187 | inside its range the function as written never fails, and wherever it loses nothing it picks the corrected precision |
| Fields.EncodeField | src/main/kotlin/com/exactpro/th2/codec/fix/orchestra/util/EncodeUtil.kt:117-169 | errors name the field's path and are never presence or unknown-name errors. An enum writes only a code of its table. A known symbolic name is always written as its own code, the one `values` stores under it. A literal code is written as itself, and the encoder gives "Out of range" for a value that is neither name nor code. Untyped values pass through. Booleans are accepted exactly for true/false/Y/N and written as "Y" for true/Y and "N" for false/N. Integers, decimals and dates are written exactly when their converter accepts them, as the converter's rendering. Times and timestamps are written exactly when they parse. Any other rejection is "Invalid value" of the type's family |
| Fields.EncodedTimePrecision | src/main/kotlin/com/exactpro/th2/codec/fix/orchestra/util/EncodeUtil.kt:155-177 | a time or timestamp that parses is written with the precision `calculateTimePrecision` picks from its nanoseconds |
| Fields.EncodedTimeTruncates | src/main/kotlin/com/exactpro/th2/codec/fix/orchestra/util/EncodeUtil.kt:155-187 | as written, a time with nanoseconds 123 456 789 is written with milliseconds, keeping 123 000 000, while the corrected precision is nanoseconds |
| Fields.DecodeField | src/main/kotlin/com/exactpro/th2/codec/fix/orchestra/util/DecodeUtil.kt:93-141 | errors name the field's path. An enum only ever yields a symbolic name of its table. A known code yields the name of the last table entry with that code, and a value that is neither code nor name gives "Out of range". Untyped values pass through. A boolean is read exactly from Y/N, and yields "true" exactly for "Y". Integers, decimals, dates, times and timestamps are added exactly when QuickFIX/J's converter accepts them, as the converted value. Any other rejection is "Invalid value" of the type's family |
| Fields.ReversedNamesAreNames | src/main/kotlin/com/exactpro/th2/codec/fix/orchestra/util/DecodeUtil.kt:99-105 | every name the reversed enum table yields is a symbolic name of the enum |
| Fields.FieldRoundTrip | src/main/kotlin/com/exactpro/th2/codec/fix/orchestra/util/DecodeUtil.kt:93-141 | decoding what `encodeField` wrote gives back the input, for enum names with distinct codes, for booleans and for untyped strings |
| Fields.EnumCodeRoundTrip | src/main/kotlin/com/exactpro/th2/codec/fix/orchestra/util/DecodeUtil.kt:99-105 | encoding the name decoded from a known code writes that code again, when the table's names are distinct |
| Encoding.EncodeMessage | src/main/kotlin/com/exactpro/th2/codec/fix/orchestra/util/EncodeUtil.kt:71-115 | errors are only appended. Without presence checks no "Missing required field" is added. Only tags of the schema are written. The only fatal failure is the empty group order |
| Encoding.EncodeNames | src/main/kotlin/com/exactpro/th2/codec/fix/orchestra/util/EncodeUtil.kt:78-114 | the loop over the union of names keeps the same guarantees |
| Encoding.EncodeName | src/main/kotlin/com/exactpro/th2/codec/fix/orchestra/util/EncodeUtil.kt:79-113 | one name: a reserved name leaves the state as it is. A name outside the schema adds exactly "Unexpected field". An absent schema name adds exactly "Missing required field" when presence is checked and the field is required, and nothing otherwise. A present schema name is encoded by `EncodeEntry` |
| Encoding.EncodeEntry | src/main/kotlin/com/exactpro/th2/codec/fix/orchestra/util/EncodeUtil.kt:100-112 | a value whose shape does not match its field (simple, message, list) adds exactly the wrong-kind error and writes nothing. A simple value writes `encodeField`'s text under its tag or adds exactly its error. A component message is encoded into the same field map under path `path.name`. A group list is encoded by `EncodeGroups` |
| Encoding.EncodeGroups | src/main/kotlin/com/exactpro/th2/codec/fix/orchestra/util/EncodeUtil.kt:189-209 | each message element adds exactly one repetition after those already there, and the counter field holds their number. Repetitions of other tags and every other field are left as they are. With no message element the target is unchanged. A group with an empty field order fails exactly when it has a message element |
| Encoding.EncodeGroup | src/main/kotlin/com/exactpro/th2/codec/fix/orchestra/util/EncodeUtil.kt:199-208 | an element that is not a message adds exactly the wrong-kind error. A message element adds exactly one repetition, which is the element encoded on its own against the group's fields, with that encoding's errors. Other tags and fields are left as they are |
| Encoding.EncodeGroupsInOrder | src/main/kotlin/com/exactpro/th2/codec/fix/orchestra/util/EncodeUtil.kt:189-209 | the repetitions are the list's message elements in order: element `n` is encoded at path `path.name[n]` into the repetition whose number is the count of message elements before it |
| Encoding.EncodeGroupsStep | src/main/kotlin/com/exactpro/th2/codec/fix/orchestra/util/EncodeUtil.kt:199-208 | one element of the loop, as a step: the rest of the list finishes the same encoding, and a message element becomes the next repetition |
| Encoding.Encode | src/main/kotlin/com/exactpro/th2/codec/fix/orchestra/util/EncodeUtil.kt:44-69 | the header always holds BeginString = the given begin string and MsgType = the schema type. Each section holds only its schema's tags. Without a header sub-message the header holds exactly those two tags |
| Encoding.EncodeHeader | src/main/kotlin/com/exactpro/th2/codec/fix/orchestra/util/EncodeUtil.kt:48-60 | the header is encoded without presence checks, so it adds no "Missing required field"; it writes only header tags, fails only on the empty group order, and without a header sub-message is the empty header |
| Encoding.EncodeSections | src/main/kotlin/com/exactpro/th2/codec/fix/orchestra/util/EncodeUtil.kt:62-68 | body and trailer are encoded after the header, which is kept as it is. The body is encoded with presence checks, and the trailer adds no "Missing required field". Only schema tags are written, and the only failure is the empty group order |
| Encoding.EncodeMissingFromBody | src/main/kotlin/com/exactpro/th2/codec/fix/orchestra/util/EncodeUtil.kt:44-69 | the "Missing required field" errors of `encode` are exactly those the body adds: the header and trailer are encoded without presence checks |
| Encoding.NamesReport | src/main/kotlin/com/exactpro/th2/codec/fix/orchestra/util/EncodeUtil.kt:78-114 | an error one name always adds is among the errors of the whole loop |
| Encoding.UnexpectedReported | src/main/kotlin/com/exactpro/th2/codec/fix/orchestra/util/EncodeUtil.kt:83-88 | an input name outside the schema (and not reserved) is reported as "Unexpected field: path.name" |
| Encoding.MissingReported | src/main/kotlin/com/exactpro/th2/codec/fix/orchestra/util/EncodeUtil.kt:90-98 | a required schema field absent from the input is reported as "Missing required field: path.name" when presence is checked; without presence checks the loop adds no such error for it |
| Encoding.EncodeMessageInto | src/main/kotlin/com/exactpro/th2/codec/fix/orchestra/util/EncodeUtil.kt:71-115 | the loop over the target field map and error list leaves exactly the state `EncodeMessage` computes, or the same crash |
| Encoding.EncodeNameInto | src/main/kotlin/com/exactpro/th2/codec/fix/orchestra/util/EncodeUtil.kt:79-113 | one turn of the loop over the builder and error list gives what `EncodeName` computes |
| Encoding.EncodeEntryInto | src/main/kotlin/com/exactpro/th2/codec/fix/orchestra/util/EncodeUtil.kt:100-112 | the in-place handling of one value leaves the state `EncodeEntry` computes |
| Encoding.EncodeFieldInto | src/main/kotlin/com/exactpro/th2/codec/fix/orchestra/util/EncodeUtil.kt:117-169 | `encodeField` either sets the written text under the tag or appends exactly its error, as `EncodeField` says |
| Encoding.EncodeGroupsInto | src/main/kotlin/com/exactpro/th2/codec/fix/orchestra/util/EncodeUtil.kt:189-209 | the loop over the list leaves the state `EncodeGroups` computes |
| Encoding.EncodeGroupInto | src/main/kotlin/com/exactpro/th2/codec/fix/orchestra/util/EncodeUtil.kt:199-208 | one element of the loop leaves what `EncodeGroup` computes |
| Encoding.EncodeInto | src/main/kotlin/com/exactpro/th2/codec/fix/orchestra/util/EncodeUtil.kt:44-69 | `FixMessage.encode` over builders returns exactly `Encode` |
| Encoding.EncodeSectionsInto | src/main/kotlin/com/exactpro/th2/codec/fix/orchestra/util/EncodeUtil.kt:62-68 | encoding body and trailer into builders gives what `EncodeSections` computes |
| Decoding.DecodeMessage | src/main/kotlin/com/exactpro/th2/codec/fix/orchestra/util/DecodeUtil.kt:61-91 | fields and errors are only extended, and no "Unexpected field" is ever reported |
| Decoding.DecodeEntry | src/main/kotlin/com/exactpro/th2/codec/fix/orchestra/util/DecodeUtil.kt:68-89 | one schema entry: a reserved entry leaves the state as it is. An absent entry adds exactly "Missing required field" when presence is checked and the field is required, and nothing otherwise. A present entry is decoded by `DecodePresent` |
| Decoding.DecodePresent | src/main/kotlin/com/exactpro/th2/codec/fix/orchestra/util/DecodeUtil.kt:81-89 | a present field takes the value `decodeField` gives, or adds exactly its error. A present component takes the message its fields decode to at path `path.name`. A present group takes the list `DecodeGroups` builds, one element per wire repetition. Every other name keeps its value, and the errors are those of the nested walk |
| Decoding.DecodeGroups | src/main/kotlin/com/exactpro/th2/codec/fix/orchestra/util/DecodeUtil.kt:143-157 | one message per repetition is appended after the earlier elements, and errors are only appended and never "Unexpected field" |
| Decoding.DecodeRepetition | src/main/kotlin/com/exactpro/th2/codec/fix/orchestra/util/DecodeUtil.kt:149-156 | one repetition appends exactly one message: the repetition decoded on its own against the group's fields at path `path.name[index]`, with that decoding's errors |
| Decoding.DecodeGroupsInOrder | src/main/kotlin/com/exactpro/th2/codec/fix/orchestra/util/DecodeUtil.kt:143-157 | the list holds the decodings of the repetitions in wire order: repetition `n` is decoded at path `path.name[n]` into the element at its position |
| Decoding.WithSections | src/main/kotlin/com/exactpro/th2/codec/fix/orchestra/util/DecodeUtil.kt:48-49 | the decoded header and trailer are put as messages under their own field names |
| Decoding.Decode | src/main/kotlin/com/exactpro/th2/codec/fix/orchestra/util/DecodeUtil.kt:37-53 | the message type is the schema name, the result always has header and trailer sub-messages, and no error is "Unexpected field" |
| Decoding.DecodedNamesArePresent | src/main/kotlin/com/exactpro/th2/codec/fix/orchestra/util/DecodeUtil.kt:68-79 | every name in the decoded message was already there or is a non-reserved schema entry present on the wire |
| Decoding.DecodeEntryNames | src/main/kotlin/com/exactpro/th2/codec/fix/orchestra/util/DecodeUtil.kt:68-89 | one entry adds at most its own name, and only when it is not reserved and is present |
| Decoding.MissingReportedOnDecode | src/main/kotlin/com/exactpro/th2/codec/fix/orchestra/util/DecodeUtil.kt:73-79 | a required schema entry not present on the wire is reported as "Missing required field: path.name" when presence is checked |
| Decoding.DecodeMessageInto | src/main/kotlin/com/exactpro/th2/codec/fix/orchestra/util/DecodeUtil.kt:61-91 | the loop over the builder and error list leaves exactly the state `DecodeMessage` computes |
| Decoding.DecodePresentInto | src/main/kotlin/com/exactpro/th2/codec/fix/orchestra/util/DecodeUtil.kt:81-89 | one present entry is decoded into the builder as `DecodePresent` says |
| Decoding.DecodeFieldInto | src/main/kotlin/com/exactpro/th2/codec/fix/orchestra/util/DecodeUtil.kt:93-141 | `decodeField` either adds the field or appends exactly its error, as `DecodeField` says |
| Decoding.DecodeGroupsInto | src/main/kotlin/com/exactpro/th2/codec/fix/orchestra/util/DecodeUtil.kt:143-157 | the loop over the repetitions leaves the list `DecodeGroups` computes |
| Decoding.DecodeRepetitionInto | src/main/kotlin/com/exactpro/th2/codec/fix/orchestra/util/DecodeUtil.kt:149-156 | one repetition decoded into a fresh builder leaves what `DecodeRepetition` computes |
| Decoding.DecodeInto | src/main/kotlin/com/exactpro/th2/codec/fix/orchestra/util/DecodeUtil.kt:37-53 | `FixMessage.decode` over builders returns exactly `Decode` |
| Th2.MessageBuilder.Set | src/main/kotlin/com/exactpro/th2/codec/fix/orchestra/util/DecodeUtil.kt:83 | `target[name] = value` puts the field in map order, and the field then holds the value |
| Th2.ListBuilder.Add | src/main/kotlin/com/exactpro/th2/codec/fix/orchestra/util/DecodeUtil.kt:152 | `addValuesBuilder` appends one value at the end |
| Wire.WithString | src/main/kotlin/com/exactpro/th2/codec/fix/orchestra/util/EncodeUtil.kt:125 | `setString` sets one tag and leaves every other tag and the groups alone |
| Wire.WithGroup | src/main/kotlin/com/exactpro/th2/codec/fix/orchestra/util/EncodeUtil.kt:207 | `addGroup` appends one repetition under the counter tag, sets the counter to the new count, and leaves other groups alone |
| Wire.FieldMapBuilder.SetString | src/main/kotlin/com/exactpro/th2/codec/fix/orchestra/util/EncodeUtil.kt:125 | the builder's content becomes `WithString` of the old content |
| Wire.FieldMapBuilder.AddGroup | src/main/kotlin/com/exactpro/th2/codec/fix/orchestra/util/EncodeUtil.kt:207 | the builder's content becomes `WithGroup` of the old content |
| Errors.ErrorList.Add | src/main/kotlin/com/exactpro/th2/codec/fix/orchestra/util/EncodeUtil.kt:86 | `errors += message` appends exactly one error |
| Holders.Kept | src/main/kotlin/com/exactpro/th2/codec/fix/orchestra/FixOrchestraCodec.kt:204-249 | only a list holder keeps what is appended to it |
| Holders.Warned | src/main/kotlin/com/exactpro/th2/codec/fix/orchestra/FixOrchestraCodec.kt:240-243 | only a context holder passes what is appended on to the reporting context |
| Holders.HolderRoutes | src/main/kotlin/com/exactpro/th2/codec/fix/orchestra/FixOrchestraCodec.kt:210-249 | every message goes to at most one place: all of them to one place for a list or context holder, none anywhere for a dummy holder |
| Holders.KeptAppend | src/main/kotlin/com/exactpro/th2/codec/fix/orchestra/FixOrchestraCodec.kt:228-233 | appending two lists in turn keeps and reports them in that order |
| Holders.ReportingContext.Warn | src/main/kotlin/com/exactpro/th2/codec/fix/orchestra/FixOrchestraCodec.kt:241-243 | the context's warnings are extended by exactly the messages reported |
| Holders.ErrorHolder.Add | src/main/kotlin/com/exactpro/th2/codec/fix/orchestra/FixOrchestraCodec.kt:204-249 | `plusAssign` extends a list holder's errors, or the context's warnings for a context holder, and nothing for a dummy holder |
| Holders.ErrorHolder.HasErrors | src/main/kotlin/com/exactpro/th2/codec/fix/orchestra/FixOrchestraCodec.kt:234-235 | `hasErrors` holds iff the holder iterates over something, and only for a list holder |
| Holders.ErrorHolder.Items | src/main/kotlin/com/exactpro/th2/codec/fix/orchestra/FixOrchestraCodec.kt:222 | dummy and context holders iterate as empty |
| Codec.NewCodec | src/main/kotlin/com/exactpro/th2/codec/fix/orchestra/FixOrchestraCodec.kt:59-62 | the codec keeps its settings and the repository's begin string, and its structures by type have no repeated type |
| Codec.StructureByType | src/main/kotlin/com/exactpro/th2/codec/fix/orchestra/FixOrchestraCodec.kt:60 | the structure found for a type is the last structure of that type |
| Codec.EncodeHolder | src/main/kotlin/com/exactpro/th2/codec/fix/orchestra/FixOrchestraCodec.kt:97 | `encode` never uses a dummy holder |
| Codec.DecodeHolder | src/main/kotlin/com/exactpro/th2/codec/fix/orchestra/FixOrchestraCodec.kt:168-172 | `decode` uses a list holder exactly when decode errors are not warnings and the message is not one th2 sent while encode errors are warnings |
| Codec.OwnMessagesNotFailed | src/main/kotlin/com/exactpro/th2/codec/fix/orchestra/FixOrchestraCodec.kt:255-256 | with encode errors as warnings, a message with a parent event id in direction SECOND gets the dummy holder, which neither keeps nor reports anything |
| Codec.EncodeParsed | src/main/kotlin/com/exactpro/th2/codec/fix/orchestra/FixOrchestraCodec.kt:93-126 | an unknown name fails with "Unknown message type: name ", and an engine crash fails with its message. A message that encodes gives exactly `EncodeChecked` of the engine's result. A result is a raw FIX message with the parsed message's id, properties and parent event. With encode errors as warnings no collected error fails the message; without, nothing is warned |
| Codec.EncodeChecked | src/main/kotlin/com/exactpro/th2/codec/fix/orchestra/FixOrchestraCodec.kt:100-126 | after the engine, the same guarantees for validation, the holder's verdict and the raw message |
| Codec.DecodeRaw | src/main/kotlin/com/exactpro/th2/codec/fix/orchestra/FixOrchestraCodec.kt:157-198 | an unparsable body fails with "Failed to decode message", a missing MsgType(35) with FieldNotFound, and an unknown type with "Unknown message type: t". A known type gives exactly `DecodeChecked`. A result is a parsed FIX message with the raw message's id, properties and parent event, and with header and trailer. Without a list holder the only `IllegalStateException` is the parse failure; without a context holder nothing is warned |
| Codec.DecodeChecked | src/main/kotlin/com/exactpro/th2/codec/fix/orchestra/FixOrchestraCodec.kt:167-198 | a violated scenario fails with a validation failure and no warning. Otherwise the holder's verdict is taken over the validation failures and the decode errors, and a result carries the fields and message type `Decode` produced |
| Codec.DecodeReported | src/main/kotlin/com/exactpro/th2/codec/fix/orchestra/FixOrchestraCodec.kt:185-198 | the decoded fields are returned unless a list holder has errors, and every error is warned by a context holder |
| Codec.BatchFrom | src/main/kotlin/com/exactpro/th2/codec/fix/orchestra/FixOrchestraCodec.kt:77-129 | on success the output group has one message per input message and starts with what was built before |
| Codec.Batch | src/main/kotlin/com/exactpro/th2/codec/fix/orchestra/FixOrchestraCodec.kt:73-75 | an empty group is returned as it is, with no warning |
| Codec.BatchKeepsPlaces | src/main/kotlin/com/exactpro/th2/codec/fix/orchestra/FixOrchestraCodec.kt:79-91 | on success every message keeps its position: an unhandled one unchanged, a handled one replaced by its own result |
| Codec.BatchSkips | src/main/kotlin/com/exactpro/th2/codec/fix/orchestra/FixOrchestraCodec.kt:80-91 | a message the codec does not handle is copied to the output and the loop goes on |
| Codec.BatchStops | src/main/kotlin/com/exactpro/th2/codec/fix/orchestra/FixOrchestraCodec.kt:114-116 | the first handled message that fails ends the call with its failure and its warnings |
| Codec.BatchAdvances | src/main/kotlin/com/exactpro/th2/codec/fix/orchestra/FixOrchestraCodec.kt:98-126 | a handled message that succeeds puts its result in the output; its warnings come before those of the rest |
| Codec.BatchUnchanged | src/main/kotlin/com/exactpro/th2/codec/fix/orchestra/FixOrchestraCodec.kt:79-91 | a group with nothing to handle is returned unchanged with no warning |
| Codec.BatchFailures | src/main/kotlin/com/exactpro/th2/codec/fix/orchestra/FixOrchestraCodec.kt:114-116 | a group fails only as one of its handled messages fails |
| Codec.BatchSilent | src/main/kotlin/com/exactpro/th2/codec/fix/orchestra/FixOrchestraCodec.kt:77-129 | a group warns nothing when none of its handled messages does |
| Codec.EncodedBatchPlaces | src/main/kotlin/com/exactpro/th2/codec/fix/orchestra/FixOrchestraCodec.kt:79-127 | in an encoded group, foreign messages stay in place and each parsed FIX message is replaced, in place, by a raw FIX message with its id |
| Codec.DecodedBatchPlaces | src/main/kotlin/com/exactpro/th2/codec/fix/orchestra/FixOrchestraCodec.kt:143-198 | in a decoded group, foreign messages stay in place and each raw FIX message is replaced, in place, by a parsed FIX message with its id |
| Codec.ForeignBatchUnchanged | src/main/kotlin/com/exactpro/th2/codec/fix/orchestra/FixOrchestraCodec.kt:143-155 | a group of messages of another kind or protocol comes out of both `encode` and `decode` unchanged |
| Codec.EncodeBatchErrors | src/main/kotlin/com/exactpro/th2/codec/fix/orchestra/FixOrchestraCodec.kt:97-116 | with encode errors as warnings collected errors never fail `encode`; without, `encode` reports no warning |
| Codec.DecodeBatchErrors | src/main/kotlin/com/exactpro/th2/codec/fix/orchestra/FixOrchestraCodec.kt:159-189 | with decode errors as warnings the only `IllegalStateException` of `decode` is an unparsable message; without, `decode` reports no warning |
| Codec.EncodeParsedInto | src/main/kotlin/com/exactpro/th2/codec/fix/orchestra/FixOrchestraCodec.kt:93-126 | the loop body with its error holder returns `EncodeParsed`'s outcome and adds exactly its warnings to the context |
| Codec.EncodeCheckedInto | src/main/kotlin/com/exactpro/th2/codec/fix/orchestra/FixOrchestraCodec.kt:97-126 | the holder, validation and verdict return `EncodeChecked`'s outcome and add exactly its warnings |
| Codec.DecodeRawInto | src/main/kotlin/com/exactpro/th2/codec/fix/orchestra/FixOrchestraCodec.kt:157-198 | the loop body returns `DecodeRaw`'s outcome and adds exactly its warnings to the context |
| Codec.DecodeCheckedInto | src/main/kotlin/com/exactpro/th2/codec/fix/orchestra/FixOrchestraCodec.kt:174-198 | validation and decoding return `DecodeChecked`'s outcome and add exactly its warnings |
| Codec.DecodeReportedInto | src/main/kotlin/com/exactpro/th2/codec/fix/orchestra/FixOrchestraCodec.kt:185-198 | the holder fed with the validation and decode errors returns `DecodeReported`'s outcome and adds exactly its warnings |
| Codec.EncodeBatchInto | src/main/kotlin/com/exactpro/th2/codec/fix/orchestra/FixOrchestraCodec.kt:70-130 | `encode(messageGroup, context)` returns `EncodeBatch`'s outcome and reports exactly its warnings |
| Codec.EncodeOne | src/main/kotlin/com/exactpro/th2/codec/fix/orchestra/FixOrchestraCodec.kt:93-126 | one handled message of `encode` returns its step's outcome and adds its step's warnings |
| Codec.DecodeBatchInto | src/main/kotlin/com/exactpro/th2/codec/fix/orchestra/FixOrchestraCodec.kt:134-202 | `decode(messageGroup, context)` returns `DecodeBatch`'s outcome and reports exactly its warnings |
| Codec.DecodeOne | src/main/kotlin/com/exactpro/th2/codec/fix/orchestra/FixOrchestraCodec.kt:157-198 | one handled message of `decode` returns its step's outcome and adds its step's warnings |

## Left out

- The validators are not modelled; `Environment` passes them in. These are
  `ValidatorQfj`, `dictionary.validate` and the scenario lookup
  `cacheAccessor.getMessage`. Their rule evaluation lives in the orchestra DSL,
  which is not part of this model.
  - A `TestExceptionImpl` is the result `Violated`.
  - Any other exception is `Failed` with its message.
  - The `details` a `ValidateException` carries are not modelled.
- QuickFIX/J's `fromString` parser and the serialiser are parameters, and so
  are the scalar converters of QuickFIX/J and `java.time`. A parser that
  throws returns `None`.
- Serialising a FIX message is a parameter, so the model only carries the wire
  field order of `Th2QfjMessage` and `Group`; the ordering itself is not
  checked.
- `FieldNotFound` for a missing MsgType(35): the failure kind is modelled, but
  its text is QuickFIX/J's and is approximated by the tag number.
- Logging is not modelled: `DummyHolder`'s warnings, the trace of each message,
  and the error logs of failed validations.
- `encode(messageGroup)` and `decode(messageGroup)` without a context only
  throw `UnsupportedOperationException`, so they are not modelled.
- `loadRepository` (JAXB unmarshalling) and the UTF-8 charset setup are I/O and
  are not modelled.
- The caches `FIELDS`, `COMPONENTS`, `GROUPS` and `CODE_SETS` are process-wide
  concurrent maps. The model gives them to one `Resolver` over one repository
  and runs sequentially.
- `loadMessageStructures` keeps its merged maps in a `HashMap`, whose iteration
  order is unspecified. The model uses the order of first occurrence.
- Resolution takes a `fuel` bound on its depth. A cyclic repository overflows
  the stack in the source; the model fails with `StackOverflowError` once the
  fuel is spent. Repositories deeper than the fuel are not modelled. The fuel
  is checked before a component or group is looked up, so a missing entry at
  the depth limit reports the depth, not the missing entry.
- Fields.FieldRoundTrip: covers only enum, boolean and untyped string values.
  Integers, decimals, dates and times go through QuickFIX/J and `java.time`
  converters, which are parameters. A round trip for them would depend on
  how those parsers and printers relate, and the model leaves that open.
  What is stated for them is in terms of the converters: `EncodeField` and
  `DecodeField` accept a value exactly when its converter does, and give the
  converter's rendering as the text.
- Codec.EncodeCheckedInto: the holder is created before the engine runs in the
  source and after it in the model. Creating a holder has no effect, so the
  outcome is the same.
- Codec.DecodeReportedInto: the holder is created after validation rather
  than before it. Creating a holder has no effect, so the outcome is the same.

## Findings

| source | as written | input that shows it | evidently intended | confidence | as-written member | corrected member |
|---|---|---|---|---|---|---|
| src/main/kotlin/com/exactpro/th2/codec/fix/orchestra/util/EncodeUtil.kt:179-187 | the timestamp precision is chosen by the magnitude of the nano-of-second: every value from 1 000 000 up gets MILLIS, and every value from 1 000 up gets MICROS | a UTCTimestamp or UTCTimeOnly value with nano part 123 456 789 (12:00:00.123456789) is written with MILLIS as 12:00:00.123 | the fewest fraction digits that keep every digit: MILLIS only for multiples of 10^6, MICROS only for multiples of 10^3, NANOS otherwise | medium, not executed | Scalars.CalculateTimePrecision, Scalars.CalculatedPrecisionTruncates, Fields.EncodedTimeTruncates | Scalars.TimePrecision |

The encoder in the model follows the code as written: `Fields.EncodeField`
writes times with `Scalars.EncoderPrecision`, which is
`calculateTimePrecision`. `Scalars.TimePrecision` is the corrected
reference. `Scalars.TimePrecisionAgrees` proves that the two agree wherever
the precision as written loses no digit.
