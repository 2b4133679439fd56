/**
  `FixOrchestraCodec`: the pipeline codec around the two engines. A batch
  is walked message by message; messages that are not of the codec's kind or
  protocol pass through in place, the others are encoded or decoded, checked
  by the validators, and fail the whole call when their error holder reports
  errors.
 */
module Codec {
  import opened Wrappers
  import opened LinkedMaps
  import opened Text
  import opened Orchestra
  import opened Schema
  import opened Th2
  import opened Wire
  import opened Errors
  import opened Scalars
  import opened Encoding
  import opened Decoding
  import opened Holders

  const Protocol := "FIX"
  const ScenarioProperty := "th2.codec.orchestra.scenario"
  const EncodeErrorsHeader := "Failed to encode message due to following errors:\n"
  const DecodeErrorsHeader := "Failed to decode message due to following errors:\n"
  const ParseFailure := "Failed to decode message"

  /** The settings the codec reads. */
  datatype Settings = Settings(defaultScenario: string, encodeErrorAsWarning: bool, decodeErrorAsWarning: bool, inlineComponents: bool)

  const DefaultSettings := Settings("base", false, false, false)

  datatype Direction = First | Second
  datatype MessageId = MessageId(sessionAlias: string, direction: Direction, sequence: int)
  datatype ParsedMetadata = ParsedMetadata(id: MessageId, messageType: string, protocol: string, properties: seq<(string, string)>)
  datatype RawMetadata = RawMetadata(id: MessageId, protocol: string, properties: seq<(string, string)>)
  datatype ParsedMessage = ParsedMessage(parentEventId: Option<string>, metadata: ParsedMetadata, fields: seq<(string, Value)>)
  datatype RawMessage = RawMessage(parentEventId: Option<string>, metadata: RawMetadata, body: string)

  /** An element of a `MessageGroup`: a parsed message, a raw one, or neither. */
  datatype AnyMessage = Parsed(parsed: ParsedMessage) | Raw(raw: RawMessage) | Unset

  /** What the validators make of a message: pass, a rule violation (`TestExceptionImpl`) or another exception. */
  datatype Validation = Passed | Violated(msgType: string, tags: seq<int>, scenario: string) | Failed(message: string)

  /**
    The collaborators the codec calls and this model does not describe: the
    repository's scenario lookup, the rule and dictionary validators, and
    QuickFIX/J's parser and serialiser.
   */
  datatype Environment = Environment(
    hasScenario: (string, string) -> bool,
    validateEncoded: (WireMessage, string, string) -> Validation,
    validateDecoded: (WireMessage, string, string) -> Validation,
    serialize: WireMessage -> string,
    parse: string -> Option<WireMessage>,
    converters: Converters)

  datatype ExceptionKind = IllegalArgument | IllegalState | ValidateFailure | IndexOutOfBounds | FieldNotFound
  datatype Failure = Failure(kind: ExceptionKind, message: string)
  datatype Outcome<T> = Done(value: T) | Thrown(failure: Failure)

  /** An outcome together with the warnings reported to the context on the way. */
  datatype Step<T> = Step(outcome: Outcome<T>, warnings: seq<string>)

  /** A constructed codec: its settings, the message structures by name and by type, and the begin string. */
  datatype FixCodec = FixCodec(
    settings: Settings,
    structuresByName: seq<(string, FixMessage)>,
    structuresByType: seq<FixMessage>,
    beginString: string,
    env: Environment)

  function MsgTypeOf(m: FixMessage): string {
    m.msgType
  }

  /** The constructor's fields: the structures of every message, indexed by name and by type. */
  function NewCodec(settings: Settings, repo: Repository, env: Environment, fuel: nat): (r: Result<FixCodec>)
    ensures r.Ok? ==> r.value.settings == settings && r.value.beginString == BeginString(repo.version) && r.value.env == env
    ensures r.Ok? ==> Distinct(Keys(r.value.structuresByType, MsgTypeOf))
  {
    var byName :- LoadMessageStructures(repo, settings.inlineComponents, fuel);
    AssociateByKeys(Values(byName), MsgTypeOf);
    Ok(FixCodec(settings, byName, AssociateBy(Values(byName), MsgTypeOf), BeginString(repo.version), env))
  }

  /** The structure found for a type is the last message structure of that type. */
  lemma StructureByType(settings: Settings, repo: Repository, env: Environment, fuel: nat, msgType: string)
    requires NewCodec(settings, repo, env, fuel).Ok?
    ensures var codec := NewCodec(settings, repo, env, fuel).value;
            var all := Values(codec.structuresByName);
            var i := LastIndexOf(all, MsgTypeOf, msgType);
            Get(codec.structuresByType, MsgTypeOf, msgType) == if 0 <= i then Some(all[i]) else None
  {
    var codec := NewCodec(settings, repo, env, fuel).value;
    AssociateByGet(Values(codec.structuresByName), MsgTypeOf, msgType);
  }

  /** A protocol the codec handles: blank or `FIX`. */
  predicate OwnProtocol(protocol: string) {
    IsBlank(protocol) || protocol == Protocol
  }

  /** `wasSentByTh2`. */
  predicate WasSentByTh2(raw: RawMessage) {
    raw.parentEventId.Some? && raw.metadata.id.direction == Second
  }

  /** The holder of `encode`. */
  function EncodeHolder(settings: Settings): (k: HolderKind)
    ensures k != Dummy
  {
    if settings.encodeErrorAsWarning then Reporting else Listing
  }

  /** The holder of `decode`. */
  function DecodeHolder(settings: Settings, raw: RawMessage): (k: HolderKind)
    ensures k == Listing <==> !settings.decodeErrorAsWarning && !(settings.encodeErrorAsWarning && WasSentByTh2(raw))
  {
    if settings.encodeErrorAsWarning && WasSentByTh2(raw) then Dummy
    else if settings.decodeErrorAsWarning then Reporting
    else Listing
  }

  /** Messages the codec itself sent out are never failed on the way back when encode errors are warnings. */
  lemma OwnMessagesNotFailed(settings: Settings, raw: RawMessage)
    requires settings.encodeErrorAsWarning && raw.parentEventId.Some? && raw.metadata.id.direction == Second
    ensures DecodeHolder(settings, raw) == Dummy
    ensures forall ms :: Kept(DecodeHolder(settings, raw), ms) == [] && Warned(DecodeHolder(settings, raw), ms) == []
  {
  }

  /** `getPropertiesOrDefault(SCENARIO_PROPERTY, defaultScenario)`. */
  function Scenario(properties: seq<(string, string)>, default: string): string {
    match Get(properties, Fst, ScenarioProperty)
    case Some(p) => p.1
    case None => default
  }

  /** The `try` block: the scenario lookup, whose failure is an ordinary exception, then the validators. */
  function Validate(hasScenario: (string, string) -> bool, validator: (WireMessage, string, string) -> Validation,
                    wire: WireMessage, name: string, scenario: string): Validation
  {
    if !hasScenario(name, scenario) then Failed("No scenario " + scenario + " for message: " + name)
    else validator(wire, name, scenario)
  }

  function TagList(tags: seq<int>): string {
    Join(seq(|tags|, i requires 0 <= i < |tags| => IntToString(tags[i])), ", ")
  }

  function Texts(errors: seq<CodecError>): seq<string> {
    seq(|errors|, i requires 0 <= i < |errors| => errors[i].Text())
  }

  /** The text of the failure: the header line, then one indented dash line per error. */
  function ErrorReport(header: string, errors: seq<string>): string {
    header + Join(seq(|errors|, i requires 0 <= i < |errors| => " - " + errors[i]), "\n")
  }

  /**
    The holder's verdict: the call fails exactly when the holder keeps some of
    `issues`, and then with an IllegalState report of the kept ones under
    `header`.
   */
  predicate FailsOnKept(r: Step<AnyMessage>, kind: HolderKind, issues: seq<string>, header: string) {
    && (r.outcome.Thrown? <==> Kept(kind, issues) != [])
    && (r.outcome.Thrown? ==> r.outcome.failure == Failure(IllegalState, ErrorReport(header, Kept(kind, issues))))
  }

  /** The validators' verdict on an encoded message, under the message's scenario. */
  function EncodeValidation(codec: FixCodec, parsed: ParsedMessage, encoded: EncodeResult): Validation {
    var scenario := Scenario(parsed.metadata.properties, codec.settings.defaultScenario);
    Validate(codec.env.hasScenario, codec.env.validateEncoded, encoded.message, parsed.metadata.messageType, scenario)
  }

  /** What the encode holder is given: the engine's errors, then an ordinary validation failure. */
  function EncodeIssues(codec: FixCodec, parsed: ParsedMessage, encoded: EncodeResult): seq<string> {
    var validation := EncodeValidation(codec, parsed, encoded);
    Texts(encoded.errors) + (if validation.Failed? then ["Encoded message validation error: " + validation.message] else [])
  }

  /** The validators' verdict on a parsed wire message, under the message's scenario. */
  function DecodeValidation(codec: FixCodec, raw: RawMessage, structure: FixMessage, wire: WireMessage): Validation {
    var scenario := Scenario(raw.metadata.properties, codec.settings.defaultScenario);
    Validate(codec.env.hasScenario, codec.env.validateDecoded, wire, structure.name, scenario)
  }

  /** An ordinary validation failure of a parsed wire message, as the decode holder is given it. */
  function DecodeFailed(codec: FixCodec, raw: RawMessage, structure: FixMessage, wire: WireMessage): seq<string> {
    var validation := DecodeValidation(codec, raw, structure, wire);
    if validation.Failed? then ["Decoded message validation error: " + validation.message] else []
  }

  /** The body of the loop of `encode` for a parsed message of the codec's protocol. */
  function EncodeParsed(codec: FixCodec, parsed: ParsedMessage): (r: Step<AnyMessage>)
    ensures Get(codec.structuresByName, Fst, parsed.metadata.messageType).None? ==>
              r == Step(Thrown(Failure(IllegalArgument, "Unknown message type: " + parsed.metadata.messageType + " ")), [])
    ensures r.outcome.Done? ==>
              && r.outcome.value.Raw?
              && r.outcome.value.raw.metadata == RawMetadata(parsed.metadata.id, Protocol, parsed.metadata.properties)
              && r.outcome.value.raw.parentEventId == parsed.parentEventId
    ensures codec.settings.encodeErrorAsWarning ==> !(r.outcome.Thrown? && r.outcome.failure.kind == IllegalState)
    ensures !codec.settings.encodeErrorAsWarning ==> r.warnings == []
    ensures Get(codec.structuresByName, Fst, parsed.metadata.messageType).Some? ==>
              match Encode(Get(codec.structuresByName, Fst, parsed.metadata.messageType).value.1, parsed.fields, codec.beginString, codec.env.converters)
              case Err(e) => r == Step(Thrown(Failure(IndexOutOfBounds, e)), [])
              case Ok(encoded) =>
                && r == EncodeChecked(codec, parsed, encoded)
                && (!EncodeValidation(codec, parsed, encoded).Violated? ==>
                      FailsOnKept(r, EncodeHolder(codec.settings), EncodeIssues(codec, parsed, encoded), EncodeErrorsHeader))
  {
    var name := parsed.metadata.messageType;
    match Get(codec.structuresByName, Fst, name)
    case None => Step(Thrown(Failure(IllegalArgument, "Unknown message type: " + name + " ")), [])
    case Some(entry) =>
      match Encode(entry.1, parsed.fields, codec.beginString, codec.env.converters)
      case Err(e) => Step(Thrown(Failure(IndexOutOfBounds, e)), [])
      case Ok(encoded) => EncodeChecked(codec, parsed, encoded)
  }

  /** What `encode` makes of one message once the engine has run: validation, the holder's verdict and the raw message. */
  function EncodeChecked(codec: FixCodec, parsed: ParsedMessage, encoded: EncodeResult): (r: Step<AnyMessage>)
    ensures r.outcome.Done? ==>
              && r.outcome.value.Raw?
              && r.outcome.value.raw.metadata == RawMetadata(parsed.metadata.id, Protocol, parsed.metadata.properties)
              && r.outcome.value.raw.parentEventId == parsed.parentEventId
    ensures codec.settings.encodeErrorAsWarning ==> !(r.outcome.Thrown? && r.outcome.failure.kind == IllegalState)
    ensures !codec.settings.encodeErrorAsWarning ==> r.warnings == []
    ensures EncodeValidation(codec, parsed, encoded).Violated? ==>
              r.outcome.Thrown? && r.outcome.failure.kind == ValidateFailure && r.warnings == Warned(EncodeHolder(codec.settings), Texts(encoded.errors))
    ensures !EncodeValidation(codec, parsed, encoded).Violated? ==>
              && FailsOnKept(r, EncodeHolder(codec.settings), EncodeIssues(codec, parsed, encoded), EncodeErrorsHeader)
              && r.warnings == Warned(EncodeHolder(codec.settings), EncodeIssues(codec, parsed, encoded))
    ensures r.outcome.Done? ==> r.outcome.value.raw.body == codec.env.serialize(encoded.message)
  {
    var kind := EncodeHolder(codec.settings);
    var validation := EncodeValidation(codec, parsed, encoded);
    if validation.Violated? then
      var text := "msgType [" + validation.msgType + "] tags [" + TagList(validation.tags) + "], scenario [" + validation.scenario + "]";
      Step(Thrown(Failure(ValidateFailure, text)), Warned(kind, Texts(encoded.errors)))
    else
      var all := EncodeIssues(codec, parsed, encoded);
      if Kept(kind, all) != [] then
        Step(Thrown(Failure(IllegalState, ErrorReport(EncodeErrorsHeader, Kept(kind, all)))), Warned(kind, all))
      else
        var metadata := RawMetadata(parsed.metadata.id, Protocol, parsed.metadata.properties);
        Step(Done(Raw(RawMessage(parsed.parentEventId, metadata, codec.env.serialize(encoded.message)))), Warned(kind, all))
  }

  /** The body of the loop of `decode` for a raw message of the codec's protocol. */
  function DecodeRaw(codec: FixCodec, raw: RawMessage): (r: Step<AnyMessage>)
    ensures codec.env.parse(raw.body).None? ==> r == Step(Thrown(Failure(IllegalState, ParseFailure)), [])
    ensures r.outcome.Done? ==>
              && r.outcome.value.Parsed?
              && r.outcome.value.parsed.metadata.id == raw.metadata.id
              && r.outcome.value.parsed.metadata.protocol == Protocol
              && r.outcome.value.parsed.metadata.properties == raw.metadata.properties
              && r.outcome.value.parsed.parentEventId == raw.parentEventId
              && FieldValue(r.outcome.value.parsed.fields, HeaderField).Some?
              && FieldValue(r.outcome.value.parsed.fields, TrailerField).Some?
    ensures DecodeHolder(codec.settings, raw) != Listing && r.outcome.Thrown? && r.outcome.failure.kind == IllegalState ==>
              r.outcome.failure.message == ParseFailure
    ensures DecodeHolder(codec.settings, raw) != Reporting ==> r.warnings == []
    ensures codec.env.parse(raw.body).Some? ==>
              var wire := codec.env.parse(raw.body).value;
              if MsgTypeTag !in wire.header.fields then
                r == Step(Thrown(Failure(FieldNotFound, IntToString(MsgTypeTag))), [])
              else match Get(codec.structuresByType, MsgTypeOf, wire.header.fields[MsgTypeTag])
                case None => r == Step(Thrown(Failure(IllegalArgument, "Unknown message type: " + wire.header.fields[MsgTypeTag])), [])
                case Some(structure) =>
                  && r == DecodeChecked(codec, raw, structure, wire)
                  && (!DecodeValidation(codec, raw, structure, wire).Violated? ==>
                        FailsOnKept(r, DecodeHolder(codec.settings, raw),
                                    DecodeFailed(codec, raw, structure, wire) + Texts(Decoding.Decode(structure, wire, codec.env.converters).errors),
                                    DecodeErrorsHeader))
  {
    match codec.env.parse(raw.body)
    case None => Step(Thrown(Failure(IllegalState, ParseFailure)), [])
    case Some(wire) =>
      if MsgTypeTag !in wire.header.fields then Step(Thrown(Failure(FieldNotFound, IntToString(MsgTypeTag))), [])
      else
        var messageType := wire.header.fields[MsgTypeTag];
        match Get(codec.structuresByType, MsgTypeOf, messageType)
        case None => Step(Thrown(Failure(IllegalArgument, "Unknown message type: " + messageType)), [])
        case Some(structure) => DecodeChecked(codec, raw, structure, wire)
  }

  /** What `decode` makes of one parsed wire message of a known type: validation, the engine, the holder's verdict and the parsed message. */
  function DecodeChecked(codec: FixCodec, raw: RawMessage, structure: FixMessage, wire: WireMessage): (r: Step<AnyMessage>)
    ensures r.outcome.Done? ==>
              && r.outcome.value.Parsed?
              && r.outcome.value.parsed.metadata.id == raw.metadata.id
              && r.outcome.value.parsed.metadata.protocol == Protocol
              && r.outcome.value.parsed.metadata.properties == raw.metadata.properties
              && r.outcome.value.parsed.parentEventId == raw.parentEventId
              && FieldValue(r.outcome.value.parsed.fields, HeaderField).Some?
              && FieldValue(r.outcome.value.parsed.fields, TrailerField).Some?
    ensures DecodeHolder(codec.settings, raw) != Listing ==> !(r.outcome.Thrown? && r.outcome.failure.kind == IllegalState)
    ensures DecodeHolder(codec.settings, raw) != Reporting ==> r.warnings == []
    ensures DecodeValidation(codec, raw, structure, wire).Violated? ==>
              r.outcome.Thrown? && r.outcome.failure.kind == ValidateFailure && r.warnings == []
    ensures !DecodeValidation(codec, raw, structure, wire).Violated? ==>
              FailsOnKept(r, DecodeHolder(codec.settings, raw),
                          DecodeFailed(codec, raw, structure, wire) + Texts(Decoding.Decode(structure, wire, codec.env.converters).errors),
                          DecodeErrorsHeader)
    ensures r.outcome.Done? ==>
              var decoded := Decoding.Decode(structure, wire, codec.env.converters);
              r.outcome.value.parsed.fields == decoded.fields && r.outcome.value.parsed.metadata.messageType == decoded.messageType
  {
    var kind := DecodeHolder(codec.settings, raw);
    var validation := DecodeValidation(codec, raw, structure, wire);
    if validation.Violated? then
      var text := "msgType [" + validation.msgType + "], tags [" + TagList(validation.tags) + "], scenario [" + validation.scenario + "]";
      Step(Thrown(Failure(ValidateFailure, text)), [])
    else
      DecodeReported(kind, raw, DecodeFailed(codec, raw, structure, wire), Decoding.Decode(structure, wire, codec.env.converters))
  }

  /** The holder's verdict on the validation and decode errors, and the parsed message when there is none. */
  function DecodeReported(kind: HolderKind, raw: RawMessage, failed: seq<string>, decoded: DecodeResult): (r: Step<AnyMessage>)
    ensures r.outcome.Done? ==>
              && r.outcome.value.Parsed?
              && r.outcome.value.parsed.metadata.id == raw.metadata.id
              && r.outcome.value.parsed.metadata.protocol == Protocol
              && r.outcome.value.parsed.metadata.properties == raw.metadata.properties
              && r.outcome.value.parsed.parentEventId == raw.parentEventId
              && r.outcome.value.parsed.fields == decoded.fields
    ensures kind != Listing ==> r.outcome.Done?
    ensures r.warnings == Warned(kind, failed + Texts(decoded.errors))
    ensures FailsOnKept(r, kind, failed + Texts(decoded.errors), DecodeErrorsHeader)
  {
    var all := failed + Texts(decoded.errors);
    if Kept(kind, all) != [] then
      Step(Thrown(Failure(IllegalState, ErrorReport(DecodeErrorsHeader, Kept(kind, all)))), Warned(kind, all))
    else
      var metadata := ParsedMetadata(raw.metadata.id, decoded.messageType, Protocol, raw.metadata.properties);
      Step(Done(Parsed(ParsedMessage(raw.parentEventId, metadata, decoded.fields))), Warned(kind, all))
  }

  /** A message `encode` handles: parsed, of the codec's protocol. Every other message is copied as it is. */
  predicate EncodeHandles(m: AnyMessage) {
    m.Parsed? && OwnProtocol(m.parsed.metadata.protocol)
  }

  /** A message `decode` handles: raw, of the codec's protocol. Every other message is copied as it is. */
  predicate DecodeHandles(m: AnyMessage) {
    m.Raw? && OwnProtocol(m.raw.metadata.protocol)
  }

  function EncodeStep(codec: FixCodec, m: AnyMessage): Step<AnyMessage> {
    if m.Parsed? then EncodeParsed(codec, m.parsed) else Step(Done(m), [])
  }

  function DecodeStep(codec: FixCodec, m: AnyMessage): Step<AnyMessage> {
    if m.Raw? then DecodeRaw(codec, m.raw) else Step(Done(m), [])
  }

  function EncodeSteps(codec: FixCodec): AnyMessage -> Step<AnyMessage> {
    m => EncodeStep(codec, m)
  }

  function DecodeSteps(codec: FixCodec): AnyMessage -> Step<AnyMessage> {
    m => DecodeStep(codec, m)
  }

  /** A sequence that starts with `built + [x]` starts with `built`. */
  lemma PrefixOfLonger<T>(s: seq<T>, built: seq<T>, x: T)
    requires |built| + 1 <= |s| && s[..|built| + 1] == built + [x]
    ensures s[..|built|] == built
  {
    assert s[..|built|] == s[..|built| + 1][..|built|];
  }

  /**
    The loop of `encode` and of `decode` from the message `rest[0]` on, with
    `built` already in the output group: a message the codec does not handle
    is copied, a handled one is replaced by the result of `step`, and the
    first failure ends the call.
   */
  function BatchFrom(handles: AnyMessage -> bool, step: AnyMessage -> Step<AnyMessage>,
                     rest: seq<AnyMessage>, built: seq<AnyMessage>): (r: Step<seq<AnyMessage>>)
    ensures r.outcome.Done? ==> |r.outcome.value| == |built| + |rest| && r.outcome.value[..|built|] == built
    decreases |rest|
  {
    if rest == [] then Step(Done(built), [])
    else
      var first := if handles(rest[0]) then step(rest[0]) else Step(Done(rest[0]), []);
      match first.outcome
      case Thrown(f) => Step(Thrown(f), first.warnings)
      case Done(out) =>
        var r := BatchFrom(handles, step, rest[1..], built + [out]);
        if r.outcome.Done? then PrefixOfLonger(r.outcome.value, built, out); Step(r.outcome, first.warnings + r.warnings)
        else Step(r.outcome, first.warnings + r.warnings)
  }

  /** `encode(messageGroup, context)` and `decode(messageGroup, context)`: an empty group is returned as it is. */
  function Batch(handles: AnyMessage -> bool, step: AnyMessage -> Step<AnyMessage>, messages: seq<AnyMessage>): (r: Step<seq<AnyMessage>>)
    ensures messages == [] ==> r == Step(Done(messages), [])
  {
    if messages == [] then Step(Done(messages), []) else BatchFrom(handles, step, messages, [])
  }

  function EncodeBatch(codec: FixCodec, messages: seq<AnyMessage>): Step<seq<AnyMessage>> {
    Batch(EncodeHandles, EncodeSteps(codec), messages)
  }

  function DecodeBatch(codec: FixCodec, messages: seq<AnyMessage>): Step<seq<AnyMessage>> {
    Batch(DecodeHandles, DecodeSteps(codec), messages)
  }

  lemma AppendAssociates<T>(a: seq<T>, b: seq<T>, c: seq<T>)
    ensures a + b + c == a + (b + c)
  {
  }

  /** A message the codec does not handle is copied to the output group. */
  lemma BatchSkips(handles: AnyMessage -> bool, step: AnyMessage -> Step<AnyMessage>, rest: seq<AnyMessage>, built: seq<AnyMessage>)
    requires rest != [] && !handles(rest[0])
    ensures BatchFrom(handles, step, rest, built) == BatchFrom(handles, step, rest[1..], built + [rest[0]])
  {
  }

  /** The first handled message that fails ends the call with its failure and its warnings. */
  lemma BatchStops(handles: AnyMessage -> bool, step: AnyMessage -> Step<AnyMessage>, rest: seq<AnyMessage>, built: seq<AnyMessage>)
    requires rest != [] && handles(rest[0]) && step(rest[0]).outcome.Thrown?
    ensures BatchFrom(handles, step, rest, built) == Step(Thrown(step(rest[0]).outcome.failure), step(rest[0]).warnings)
  {
  }

  /** A handled message that succeeds puts its result in the output group; its warnings come before the rest's. */
  lemma BatchAdvances(handles: AnyMessage -> bool, step: AnyMessage -> Step<AnyMessage>, rest: seq<AnyMessage>, built: seq<AnyMessage>,
                      before: seq<string>)
    requires rest != [] && handles(rest[0]) && step(rest[0]).outcome.Done?
    ensures var tail := BatchFrom(handles, step, rest[1..], built + [step(rest[0]).outcome.value]);
            && BatchFrom(handles, step, rest, built).outcome == tail.outcome
            && before + BatchFrom(handles, step, rest, built).warnings == before + step(rest[0]).warnings + tail.warnings
  {
    var tail := BatchFrom(handles, step, rest[1..], built + [step(rest[0]).outcome.value]);
    AppendAssociates(before, step(rest[0]).warnings, tail.warnings);
  }

  /** On success every message keeps its place: an unhandled one unchanged, a handled one replaced by its result. */
  lemma {:induction false} BatchKeepsPlaces(handles: AnyMessage -> bool, step: AnyMessage -> Step<AnyMessage>,
                                            rest: seq<AnyMessage>, built: seq<AnyMessage>, i: nat)
    requires i < |rest| && BatchFrom(handles, step, rest, built).outcome.Done?
    ensures var out := BatchFrom(handles, step, rest, built).outcome.value;
            && (!handles(rest[i]) ==> out[|built| + i] == rest[i])
            && (handles(rest[i]) ==> step(rest[i]).outcome == Done(out[|built| + i]))
    decreases |rest|
  {
    var first := if handles(rest[0]) then step(rest[0]) else Step(Done(rest[0]), []);
    var next := first.outcome.value;
    var r := BatchFrom(handles, step, rest[1..], built + [next]);
    assert BatchFrom(handles, step, rest, built).outcome == r.outcome;
    if i == 0 {
      assert r.outcome.value[..|built| + 1] == built + [next];
      assert r.outcome.value[|built|] == r.outcome.value[..|built| + 1][|built|];
    } else {
      BatchKeepsPlaces(handles, step, rest[1..], built + [next], i - 1);
      assert rest[1..][i - 1] == rest[i];
    }
  }

  /** A batch with nothing the codec handles is returned unchanged and reports nothing. */
  lemma {:induction false} BatchUnchanged(handles: AnyMessage -> bool, step: AnyMessage -> Step<AnyMessage>,
                                          rest: seq<AnyMessage>, built: seq<AnyMessage>)
    requires forall i :: 0 <= i < |rest| ==> !handles(rest[i])
    ensures BatchFrom(handles, step, rest, built) == Step(Done(built + rest), [])
    decreases |rest|
  {
    if rest == [] {
      assert built + rest == built;
    } else {
      BatchUnchanged(handles, step, rest[1..], built + [rest[0]]);
      assert built + [rest[0]] + rest[1..] == built + rest;
    }
  }

  /** A batch fails only as one of its handled messages fails. */
  lemma {:induction false} BatchFailures(handles: AnyMessage -> bool, step: AnyMessage -> Step<AnyMessage>, allowed: Failure -> bool,
                                         rest: seq<AnyMessage>, built: seq<AnyMessage>)
    requires forall m :: handles(m) && step(m).outcome.Thrown? ==> allowed(step(m).outcome.failure)
    ensures var r := BatchFrom(handles, step, rest, built);
            r.outcome.Thrown? ==> allowed(r.outcome.failure)
    decreases |rest|
  {
    if rest != [] {
      var first := if handles(rest[0]) then step(rest[0]) else Step(Done(rest[0]), []);
      if first.outcome.Done? {
        BatchFailures(handles, step, allowed, rest[1..], built + [first.outcome.value]);
      }
    }
  }

  /** A batch reports no warning when none of its handled messages does. */
  lemma {:induction false} BatchSilent(handles: AnyMessage -> bool, step: AnyMessage -> Step<AnyMessage>,
                                       rest: seq<AnyMessage>, built: seq<AnyMessage>)
    requires forall m :: handles(m) ==> step(m).warnings == []
    ensures BatchFrom(handles, step, rest, built).warnings == []
    decreases |rest|
  {
    if rest != [] {
      var first := if handles(rest[0]) then step(rest[0]) else Step(Done(rest[0]), []);
      if first.outcome.Done? {
        BatchSilent(handles, step, rest[1..], built + [first.outcome.value]);
      }
    }
  }

  /** An encoded batch: foreign messages in place, each parsed `FIX` message replaced by a raw `FIX` message with its id. */
  lemma EncodedBatchPlaces(codec: FixCodec, messages: seq<AnyMessage>, i: nat)
    requires i < |messages| && EncodeBatch(codec, messages).outcome.Done?
    ensures var out := EncodeBatch(codec, messages).outcome.value;
            && |out| == |messages|
            && (!EncodeHandles(messages[i]) ==> out[i] == messages[i])
            && (EncodeHandles(messages[i]) ==>
                  out[i].Raw? && out[i].raw.metadata.protocol == Protocol && out[i].raw.metadata.id == messages[i].parsed.metadata.id)
  {
    BatchKeepsPlaces(EncodeHandles, EncodeSteps(codec), messages, [], i);
  }

  /** A decoded batch: foreign messages in place, each raw `FIX` message replaced by a parsed `FIX` message with its id. */
  lemma DecodedBatchPlaces(codec: FixCodec, messages: seq<AnyMessage>, i: nat)
    requires i < |messages| && DecodeBatch(codec, messages).outcome.Done?
    ensures var out := DecodeBatch(codec, messages).outcome.value;
            && |out| == |messages|
            && (!DecodeHandles(messages[i]) ==> out[i] == messages[i])
            && (DecodeHandles(messages[i]) ==>
                  out[i].Parsed? && out[i].parsed.metadata.protocol == Protocol && out[i].parsed.metadata.id == messages[i].raw.metadata.id)
  {
    BatchKeepsPlaces(DecodeHandles, DecodeSteps(codec), messages, [], i);
  }

  /** A batch of foreign messages passes through both directions unchanged. */
  lemma ForeignBatchUnchanged(codec: FixCodec, messages: seq<AnyMessage>)
    requires forall i :: 0 <= i < |messages| ==> !EncodeHandles(messages[i]) && !DecodeHandles(messages[i])
    ensures EncodeBatch(codec, messages) == Step(Done(messages), [])
    ensures DecodeBatch(codec, messages) == Step(Done(messages), [])
  {
    if messages != [] {
      BatchUnchanged(EncodeHandles, EncodeSteps(codec), messages, []);
      BatchUnchanged(DecodeHandles, DecodeSteps(codec), messages, []);
      assert [] + messages == messages;
    }
  }

  /** With encode errors as warnings, collected errors never fail a batch; without, nothing is reported to the context. */
  lemma EncodeBatchErrors(codec: FixCodec, messages: seq<AnyMessage>)
    ensures var r := EncodeBatch(codec, messages);
            && (codec.settings.encodeErrorAsWarning && r.outcome.Thrown? ==> r.outcome.failure.kind != IllegalState)
            && (!codec.settings.encodeErrorAsWarning ==> r.warnings == [])
  {
    if messages != [] {
      if codec.settings.encodeErrorAsWarning {
        BatchFailures(EncodeHandles, EncodeSteps(codec), (f: Failure) => f.kind != IllegalState, messages, []);
      } else {
        BatchSilent(EncodeHandles, EncodeSteps(codec), messages, []);
      }
    }
  }

  /** With decode errors as warnings, the only `IllegalStateException` of a batch is an unparsable message; without, nothing is reported to the context. */
  lemma DecodeBatchErrors(codec: FixCodec, messages: seq<AnyMessage>)
    ensures var r := DecodeBatch(codec, messages);
            && (codec.settings.decodeErrorAsWarning && r.outcome.Thrown? && r.outcome.failure.kind == IllegalState ==>
                  r.outcome.failure.message == ParseFailure)
            && (!codec.settings.decodeErrorAsWarning ==> r.warnings == [])
  {
    if messages != [] {
      if codec.settings.decodeErrorAsWarning {
        BatchFailures(DecodeHandles, DecodeSteps(codec), (f: Failure) => f.kind == IllegalState ==> f.message == ParseFailure, messages, []);
      } else {
        BatchSilent(DecodeHandles, DecodeSteps(codec), messages, []);
      }
    }
  }

  /** The loop body of `encode` for one parsed message, with its error holder and the reporting context. */
  method EncodeParsedInto(codec: FixCodec, parsed: ParsedMessage, context: ReportingContext) returns (r: Outcome<AnyMessage>)
    modifies context
    ensures r == EncodeParsed(codec, parsed).outcome
    ensures context.warnings == old(context.warnings) + EncodeParsed(codec, parsed).warnings
  {
    var name := parsed.metadata.messageType;
    var entry := Get(codec.structuresByName, Fst, name);
    if entry.None? {
      return Thrown(Failure(IllegalArgument, "Unknown message type: " + name + " "));
    }
    var encoded := EncodeInto(entry.value.1, parsed.fields, codec.beginString, codec.env.converters);
    if encoded.Err? {
      return Thrown(Failure(IndexOutOfBounds, encoded.error));
    }
    r := EncodeCheckedInto(codec, parsed, encoded.value, context);
  }

  method EncodeCheckedInto(codec: FixCodec, parsed: ParsedMessage, encoded: EncodeResult, context: ReportingContext) returns (r: Outcome<AnyMessage>)
    modifies context
    ensures r == EncodeChecked(codec, parsed, encoded).outcome
    ensures context.warnings == old(context.warnings) + EncodeChecked(codec, parsed, encoded).warnings
  {
    var holder := new ErrorHolder(EncodeHolder(codec.settings), context);
    var encodeErrors := Texts(encoded.errors);
    holder.Add(encodeErrors);
    var validation := EncodeValidation(codec, parsed, encoded);
    if validation.Violated? {
      return Thrown(Failure(ValidateFailure, "msgType [" + validation.msgType + "] tags [" + TagList(validation.tags) + "], scenario [" + validation.scenario + "]"));
    }
    var failed := if validation.Failed? then ["Encoded message validation error: " + validation.message] else [];
    holder.Add(failed);
    KeptAppend(holder.kind, encodeErrors, failed);
    assert holder.Items() == Kept(EncodeHolder(codec.settings), encodeErrors + failed);
    if holder.HasErrors() {
      return Thrown(Failure(IllegalState, ErrorReport(EncodeErrorsHeader, holder.Items())));
    }
    var metadata := RawMetadata(parsed.metadata.id, Protocol, parsed.metadata.properties);
    r := Done(Raw(RawMessage(parsed.parentEventId, metadata, codec.env.serialize(encoded.message))));
  }

  /** The loop body of `decode` for one raw message, with its error holder and the reporting context. */
  method DecodeRawInto(codec: FixCodec, raw: RawMessage, context: ReportingContext) returns (r: Outcome<AnyMessage>)
    modifies context
    ensures r == DecodeRaw(codec, raw).outcome
    ensures context.warnings == old(context.warnings) + DecodeRaw(codec, raw).warnings
  {
    var parsed := codec.env.parse(raw.body);
    if parsed.None? {
      return Thrown(Failure(IllegalState, ParseFailure));
    }
    var wire := parsed.value;
    if MsgTypeTag !in wire.header.fields {
      return Thrown(Failure(FieldNotFound, IntToString(MsgTypeTag)));
    }
    var messageType := wire.header.fields[MsgTypeTag];
    var structure := Get(codec.structuresByType, MsgTypeOf, messageType);
    if structure.None? {
      return Thrown(Failure(IllegalArgument, "Unknown message type: " + messageType));
    }
    r := DecodeCheckedInto(codec, raw, structure.value, wire, context);
  }

  method DecodeCheckedInto(codec: FixCodec, raw: RawMessage, structure: FixMessage, wire: WireMessage, context: ReportingContext)
    returns (r: Outcome<AnyMessage>)
    modifies context
    ensures r == DecodeChecked(codec, raw, structure, wire).outcome
    ensures context.warnings == old(context.warnings) + DecodeChecked(codec, raw, structure, wire).warnings
  {
    var validation := DecodeValidation(codec, raw, structure, wire);
    if validation.Violated? {
      return Thrown(Failure(ValidateFailure, "msgType [" + validation.msgType + "], tags [" + TagList(validation.tags) + "], scenario [" + validation.scenario + "]"));
    }
    var failed := if validation.Failed? then ["Decoded message validation error: " + validation.message] else [];
    var decoded := DecodeInto(structure, wire, codec.env.converters);
    r := DecodeReportedInto(DecodeHolder(codec.settings, raw), raw, failed, decoded, context);
  }

  /** The holder of one decoded message, fed with the validation error and then the decode errors. */
  method DecodeReportedInto(kind: HolderKind, raw: RawMessage, failed: seq<string>, decoded: DecodeResult, context: ReportingContext)
    returns (r: Outcome<AnyMessage>)
    modifies context
    ensures r == DecodeReported(kind, raw, failed, decoded).outcome
    ensures context.warnings == old(context.warnings) + DecodeReported(kind, raw, failed, decoded).warnings
  {
    var holder := new ErrorHolder(kind, context);
    ghost var start := context.warnings;
    holder.Add(failed);
    var decodeErrors := Texts(decoded.errors);
    holder.Add(decodeErrors);
    KeptAppend(kind, failed, decodeErrors);
    AppendAssociates(start, Warned(kind, failed), Warned(kind, decodeErrors));
    assert holder.Items() == Kept(kind, failed + decodeErrors);
    if holder.HasErrors() {
      return Thrown(Failure(IllegalState, ErrorReport(DecodeErrorsHeader, holder.Items())));
    }
    var metadata := ParsedMetadata(raw.metadata.id, decoded.messageType, Protocol, raw.metadata.properties);
    r := Done(Parsed(ParsedMessage(raw.parentEventId, metadata, decoded.fields)));
  }

  /** One message the codec handles, as the batch loop sees it. */
  method EncodeOne(codec: FixCodec, m: AnyMessage, context: ReportingContext) returns (r: Outcome<AnyMessage>)
    requires EncodeHandles(m)
    modifies context
    ensures r == EncodeSteps(codec)(m).outcome
    ensures context.warnings == old(context.warnings) + EncodeSteps(codec)(m).warnings
  {
    assert EncodeSteps(codec)(m) == EncodeStep(codec, m);
    r := EncodeParsedInto(codec, m.parsed, context);
  }

  /** `encode(messageGroup, context)`: the output group, built message by message. */
  method EncodeBatchInto(codec: FixCodec, messages: seq<AnyMessage>, context: ReportingContext) returns (r: Outcome<seq<AnyMessage>>)
    modifies context
    ensures r == EncodeBatch(codec, messages).outcome
    ensures context.warnings == old(context.warnings) + EncodeBatch(codec, messages).warnings
  {
    if messages == [] {
      return Done(messages);
    }
    var built: seq<AnyMessage> := [];
    assert messages[0..] == messages;
    for i := 0 to |messages|
      invariant BatchFrom(EncodeHandles, EncodeSteps(codec), messages[i..], built).outcome == EncodeBatch(codec, messages).outcome
      invariant context.warnings + BatchFrom(EncodeHandles, EncodeSteps(codec), messages[i..], built).warnings
                == old(context.warnings) + EncodeBatch(codec, messages).warnings
    {
      var m := messages[i];
      assert messages[i..][0] == m && messages[i..][1..] == messages[i + 1..];
      if !EncodeHandles(m) {
        BatchSkips(EncodeHandles, EncodeSteps(codec), messages[i..], built);
        built := built + [m];
        continue;
      }
      ghost var before := context.warnings;
      var out := EncodeOne(codec, m, context);
      if out.Thrown? {
        BatchStops(EncodeHandles, EncodeSteps(codec), messages[i..], built);
        return Thrown(out.failure);
      }
      BatchAdvances(EncodeHandles, EncodeSteps(codec), messages[i..], built, before);
      built := built + [out.value];
    }
    assert messages[|messages|..] == [];
    r := Done(built);
  }

  /** One message the codec handles, as the batch loop sees it. */
  method DecodeOne(codec: FixCodec, m: AnyMessage, context: ReportingContext) returns (r: Outcome<AnyMessage>)
    requires DecodeHandles(m)
    modifies context
    ensures r == DecodeSteps(codec)(m).outcome
    ensures context.warnings == old(context.warnings) + DecodeSteps(codec)(m).warnings
  {
    assert DecodeSteps(codec)(m) == DecodeStep(codec, m);
    r := DecodeRawInto(codec, m.raw, context);
  }

  /** `decode(messageGroup, context)`: the output group, built message by message. */
  method DecodeBatchInto(codec: FixCodec, messages: seq<AnyMessage>, context: ReportingContext) returns (r: Outcome<seq<AnyMessage>>)
    modifies context
    ensures r == DecodeBatch(codec, messages).outcome
    ensures context.warnings == old(context.warnings) + DecodeBatch(codec, messages).warnings
  {
    if messages == [] {
      return Done(messages);
    }
    var built: seq<AnyMessage> := [];
    assert messages[0..] == messages;
    for i := 0 to |messages|
      invariant BatchFrom(DecodeHandles, DecodeSteps(codec), messages[i..], built).outcome == DecodeBatch(codec, messages).outcome
      invariant context.warnings + BatchFrom(DecodeHandles, DecodeSteps(codec), messages[i..], built).warnings
                == old(context.warnings) + DecodeBatch(codec, messages).warnings
    {
      var m := messages[i];
      assert messages[i..][0] == m && messages[i..][1..] == messages[i + 1..];
      if !DecodeHandles(m) {
        BatchSkips(DecodeHandles, DecodeSteps(codec), messages[i..], built);
        built := built + [m];
        continue;
      }
      ghost var before := context.warnings;
      var out := DecodeOne(codec, m, context);
      if out.Thrown? {
        BatchStops(DecodeHandles, DecodeSteps(codec), messages[i..], built);
        return Thrown(out.failure);
      }
      BatchAdvances(DecodeHandles, DecodeSteps(codec), messages[i..], built, before);
      built := built + [out.value];
    }
    assert messages[|messages|..] == [];
    r := Done(built);
  }
}
