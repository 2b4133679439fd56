/**
  The encoder (`FixMessage.encode`): a th2 message, walked against the
  resolved schema, becomes a QuickFIX/J message plus the list of errors met
  on the way. Unknown names, missing required fields and values of the wrong
  kind are collected, not thrown; the only failure is a repeating group whose
  field order is empty.
 */
module Encoding {
  import opened Wrappers
  import opened LinkedMaps
  import opened Text
  import opened Schema
  import opened Th2
  import opened Wire
  import opened Errors
  import opened Scalars
  import opened Fields

  /** `fieldOrder[0]` on an empty `IntArray`. */
  const EmptyGroupOrder := "Index 0 out of bounds for length 0"

  /** The field map being written and the errors collected so far. */
  datatype EncodeState = EncodeState(target: WireMap, errors: seq<CodecError>)

  function AddError(st: EncodeState, e: CodecError): EncodeState {
    st.(errors := st.errors + [e])
  }

  /** Every tag of a field map, at any depth. */
  function Tags(m: seq<FixField>): set<int>
    decreases m
  {
    if m == [] then {} else {m[0].tag} + Tags(m[0].fields) + Tags(m[1..])
  }

  lemma {:induction false} MemberTags(m: seq<FixField>, f: FixField)
    requires f in m
    ensures f.tag in Tags(m) && Tags(f.fields) <= Tags(m)
    decreases m
  {
    if f != m[0] {
      MemberTags(m[1..], f);
    }
  }

  /** The tags a field map holds a value or a group for. */
  function WrittenTags(m: WireMap): set<int> {
    m.fields.Keys + m.groups.Keys
  }

  /** A value the encoder treats as not given: absent or `NULL_VALUE`. */
  predicate Absent(message: seq<(string, Value)>, name: string) {
    FieldValue(message, name).None? || FieldValue(message, name).value.NullValue?
  }

  /** The number of repetitions of a group: the elements that are messages. */
  function MessageCount(groups: seq<Value>): nat {
    if groups == [] then 0 else (if groups[0].MessageValue? then 1 else 0) + MessageCount(groups[1..])
  }

  /** What encoding keeps about every result: errors are only appended, and the only failure is the empty group order. */
  predicate Extends(st: EncodeState, r: Result<EncodeState>, checkPresence: bool) {
    match r
    case Ok(s) => st.errors <= s.errors && (!checkPresence ==> NoMissingSince(s.errors, |st.errors|))
    case Err(e) => e == EmptyGroupOrder
  }

  /** `Map<String, FixField>.encodeMessage`: every name of the schema or the message, schema names first. */
  function EncodeMessage(schema: seq<FixField>, message: seq<(string, Value)>, st: EncodeState, path: string,
                         checkPresence: bool, cv: Converters): (r: Result<EncodeState>)
    ensures Extends(st, r, checkPresence)
    ensures r.Ok? ==> WrittenTags(r.value.target) <= WrittenTags(st.target) + Tags(schema)
    decreases schema, 3
  {
    EncodeNames(schema, message, Union(Keys(schema, Name), Keys(message, Fst)), st, path, checkPresence, cv)
  }

  function EncodeNames(schema: seq<FixField>, message: seq<(string, Value)>, names: seq<string>, st: EncodeState,
                       path: string, checkPresence: bool, cv: Converters): (r: Result<EncodeState>)
    ensures Extends(st, r, checkPresence)
    ensures r.Ok? ==> WrittenTags(r.value.target) <= WrittenTags(st.target) + Tags(schema)
    decreases schema, 2, |names|
  {
    if names == [] then Ok(st)
    else
      var st' :- EncodeName(schema, message, names[0], st, path, checkPresence, cv);
      EncodeNames(schema, message, names[1..], st', path, checkPresence, cv)
  }

  /** One turn of the loop of `encodeMessage`. */
  function EncodeName(schema: seq<FixField>, message: seq<(string, Value)>, name: string, st: EncodeState,
                      path: string, checkPresence: bool, cv: Converters): (r: Result<EncodeState>)
    ensures Extends(st, r, checkPresence)
    ensures r.Ok? ==> WrittenTags(r.value.target) <= WrittenTags(st.target) + Tags(schema)
    ensures IsReserved(name) ==> r == Ok(st)
    ensures !IsReserved(name) && name !in Keys(schema, Name) ==> r == Ok(AddError(st, Unexpected(FieldPath(path, name))))
    ensures !IsReserved(name) && name in Keys(schema, Name) && Absent(message, name) ==>
              r == Ok(if checkPresence && Get(schema, Name, name).value.isRequired then AddError(st, MissingRequired(FieldPath(path, name))) else st)
    ensures !IsReserved(name) && name in Keys(schema, Name) && !Absent(message, name) ==>
              r == EncodeEntry(Get(schema, Name, name).value, FieldValue(message, name).value, st, path, checkPresence, cv)
    decreases schema, 1
  {
    if IsReserved(name) then Ok(st)
    else match Get(schema, Name, name)
      case None => Ok(AddError(st, Unexpected(FieldPath(path, name))))
      case Some(field) =>
        if Absent(message, name) then
          if checkPresence && field.isRequired then Ok(AddError(st, MissingRequired(FieldPath(path, name)))) else Ok(st)
        else
          MemberTags(schema, field);
          EncodeEntry(field, FieldValue(message, name).value, st, path, checkPresence, cv)
  }

  /** The `when` of `encodeMessage` on the kind of the schema node and of the value. */
  function EncodeEntry(field: FixField, value: Value, st: EncodeState, path: string, checkPresence: bool,
                       cv: Converters): (r: Result<EncodeState>)
    ensures Extends(st, r, checkPresence)
    ensures r.Ok? ==> WrittenTags(r.value.target) <= WrittenTags(st.target) + {field.tag} + Tags(field.fields)
    ensures field.kind == FieldKind && !value.SimpleValue? ==>
              r == Ok(AddError(st, WrongKind(SimpleKind, KindOf(value), FieldPath(path, field.name))))
    ensures field.kind == ComponentKind && !value.MessageValue? ==>
              r == Ok(AddError(st, WrongKind(MessageKind, KindOf(value), FieldPath(path, field.name))))
    ensures field.kind == GroupKind && !value.ListValue? ==>
              r == Ok(AddError(st, WrongKind(ListKind, KindOf(value), FieldPath(path, field.name))))
    ensures field.kind == FieldKind && value.SimpleValue? ==>
              match EncodeField(field, value.simple, path, cv)
              case Written(text) => r == Ok(EncodeState(WithString(st.target, field.tag, text), st.errors))
              case Rejected(e) => r == Ok(AddError(st, e))
    ensures field.kind == ComponentKind && value.MessageValue? ==>
              r == EncodeMessage(field.fields, value.fields, st, FieldPath(path, field.name), checkPresence, cv)
    ensures field.kind == GroupKind && value.ListValue? ==>
              r == EncodeGroups(field, value.values, 0, st, path, checkPresence, cv)
    decreases field, 1
  {
    var at := FieldPath(path, field.name);
    match field.kind
    case FieldKind =>
      if value.SimpleValue? then
        match EncodeField(field, value.simple, path, cv)
        case Written(text) => Ok(st.(target := WithString(st.target, field.tag, text)))
        case Rejected(e) => Ok(AddError(st, e))
      else Ok(AddError(st, WrongKind(SimpleKind, KindOf(value), at)))
    case ComponentKind =>
      if value.MessageValue? then EncodeMessage(field.fields, value.fields, st, at, checkPresence, cv)
      else Ok(AddError(st, WrongKind(MessageKind, KindOf(value), at)))
    case GroupKind =>
      if value.ListValue? then EncodeGroups(field, value.values, 0, st, path, checkPresence, cv)
      else Ok(AddError(st, WrongKind(ListKind, KindOf(value), at)))
  }

  /** `encodeGroups` from repetition `index` on: each message element becomes one repetition of the group. */
  function EncodeGroups(field: FixField, groups: seq<Value>, index: nat, st: EncodeState, path: string,
                        checkPresence: bool, cv: Converters): (r: Result<EncodeState>)
    ensures Extends(st, r, checkPresence)
    ensures r.Ok? ==> WrittenTags(r.value.target) <= WrittenTags(st.target) + {field.tag}
    ensures r.Ok? ==> GroupCount(r.value.target, field.tag) == GroupCount(st.target, field.tag) + MessageCount(groups)
    ensures r.Ok? && MessageCount(groups) == 0 ==> r.value.target == st.target
    ensures r.Ok? && MessageCount(groups) > 0 ==> field.tag in r.value.target.fields && r.value.target.fields[field.tag] == NatToString(GroupCount(r.value.target, field.tag))
    ensures FieldOrderOf(field.fields) == [] ==> (r.Err? <==> MessageCount(groups) > 0)
    ensures r.Ok? ==> Groups(st.target, field.tag) <= Groups(r.value.target, field.tag)
    ensures r.Ok? ==> forall t :: t != field.tag ==> Groups(r.value.target, t) == Groups(st.target, t)
    ensures r.Ok? ==> r.value.target.fields - {field.tag} == st.target.fields - {field.tag}
    decreases field, 0, |groups|
  {
    if groups == [] then Ok(st)
    else
      var st' :- EncodeGroup(field, groups[0], ElementPath(path, field.name, index), st, checkPresence, cv);
      EncodeGroups(field, groups[1..], index + 1, st', path, checkPresence, cv)
  }

  /** One element of `encodeGroups`: a message becomes one repetition, anything else is reported at `at`. */
  function EncodeGroup(field: FixField, value: Value, at: string, st: EncodeState, checkPresence: bool, cv: Converters): (r: Result<EncodeState>)
    ensures Extends(st, r, checkPresence)
    ensures r.Ok? ==> GroupCount(r.value.target, field.tag) == GroupCount(st.target, field.tag) + (if value.MessageValue? then 1 else 0)
    ensures !value.MessageValue? ==> r == Ok(AddError(st, WrongKind(MessageKind, KindOf(value), at)))
    ensures FieldOrderOf(field.fields) == [] ==> (r.Err? <==> value.MessageValue?)
    ensures r.Ok? && value.MessageValue? ==>
              var inner := Repetition(field, value.fields, at, st.errors, checkPresence, cv);
              && inner.Ok?
              && Groups(r.value.target, field.tag) == Groups(st.target, field.tag) + [inner.value.target]
              && r.value.errors == inner.value.errors
    ensures r.Ok? ==> forall t :: t != field.tag ==> Groups(r.value.target, t) == Groups(st.target, t)
    ensures r.Ok? ==> r.value.target.fields - {field.tag} == st.target.fields - {field.tag}
    decreases field, 0, 0
  {
    if !value.MessageValue? then Ok(AddError(st, WrongKind(MessageKind, KindOf(value), at)))
    else if FieldOrderOf(field.fields) == [] then Err(EmptyGroupOrder)
    else
      var inner :- Repetition(field, value.fields, at, st.errors, checkPresence, cv);
      Ok(EncodeState(WithGroup(st.target, field.tag, inner.target), inner.errors))
  }

  /** One repetition of a group: a message encoded into a new field map with the group's field order, at path `at`. */
  function Repetition(field: FixField, fields: seq<(string, Value)>, at: string, errors: seq<CodecError>, checkPresence: bool,
                      cv: Converters): (r: Result<EncodeState>)
    decreases field, 0, 0, 0
  {
    EncodeMessage(field.fields, fields, EncodeState(EmptyMap(FieldOrderOf(field.fields)), errors), at, checkPresence, cv)
  }

  /**
    The repetitions a group gets are the encodings of its message elements,
    in list order: element `n` of the list (counted from `index`, the number
    of the first element of `groups`) becomes the repetition after those of
    the message elements before it, encoded at path `path.name[n]` with
    `before` reported ahead of it and `after` once it is done.
   */
  lemma {:induction false} EncodeGroupsInOrder(field: FixField, groups: seq<Value>, index: nat, st: EncodeState, path: string,
                                               checkPresence: bool, cv: Converters, r: EncodeState, n: nat)
    returns (before: seq<CodecError>, after: seq<CodecError>)
    requires EncodeGroups(field, groups, index, st, path, checkPresence, cv) == Ok(r)
    requires index <= n < index + |groups| && groups[n - index].MessageValue?
    ensures CountAfter(st.target, field.tag, groups[..n - index]) < GroupCount(r.target, field.tag)
    ensures Repetition(field, groups[n - index].fields, ElementPath(path, field.name, n), before, checkPresence, cv)
            == Ok(EncodeState(Groups(r.target, field.tag)[CountAfter(st.target, field.tag, groups[..n - index])], after))
    decreases |groups|
  {
    var st' := EncodeGroupsStep(field, groups, index, st, path, checkPresence, cv, r);
    if n == index {
      assert MessageCount(groups[..0]) == 0 by { assert groups[..0] == []; }
      before, after := st.errors, st'.errors;
    } else {
      before, after := EncodeGroupsInOrder(field, groups[1..], index + 1, st', path, checkPresence, cv, r, n);
      ShiftElement(groups, index, n, st'.target, st.target, field.tag);
    }
  }

  /** The repetitions of `tag` in `target` once the message elements of `prefix` have been added to it. */
  function CountAfter(target: WireMap, tag: int, prefix: seq<Value>): nat {
    GroupCount(target, tag) + MessageCount(prefix)
  }

  /** Element `n` and the repetitions before it, seen from the list and from its tail. */
  lemma ShiftElement(groups: seq<Value>, index: nat, n: nat, target': WireMap, target: WireMap, tag: int)
    requires index < n < index + |groups|
    requires GroupCount(target', tag) == GroupCount(target, tag) + (if groups[0].MessageValue? then 1 else 0)
    ensures groups[1..][n - (index + 1)] == groups[n - index]
    ensures CountAfter(target', tag, groups[1..][..n - (index + 1)]) == CountAfter(target, tag, groups[..n - index])
  {
    assert groups[..n - index][1..] == groups[1..][..n - (index + 1)];
  }

  /** The first element's step of `EncodeGroups`: the state after it, and, for a message, where its repetition lands. */
  lemma EncodeGroupsStep(field: FixField, groups: seq<Value>, index: nat, st: EncodeState, path: string,
                         checkPresence: bool, cv: Converters, r: EncodeState)
    returns (st': EncodeState)
    requires EncodeGroups(field, groups, index, st, path, checkPresence, cv) == Ok(r) && groups != []
    ensures EncodeGroups(field, groups[1..], index + 1, st', path, checkPresence, cv) == Ok(r)
    ensures GroupCount(st'.target, field.tag) == GroupCount(st.target, field.tag) + (if groups[0].MessageValue? then 1 else 0)
    ensures groups[0].MessageValue? ==>
              && GroupCount(st.target, field.tag) < GroupCount(r.target, field.tag)
              && Repetition(field, groups[0].fields, ElementPath(path, field.name, index), st.errors, checkPresence, cv)
                 == Ok(EncodeState(Groups(r.target, field.tag)[GroupCount(st.target, field.tag)], st'.errors))
  {
    var at := ElementPath(path, field.name, index);
    st' := EncodeGroup(field, groups[0], at, st, checkPresence, cv).value;
    if groups[0].MessageValue? {
      var inner := Repetition(field, groups[0].fields, at, st.errors, checkPresence, cv);
      assert Groups(st'.target, field.tag) == Groups(st.target, field.tag) + [inner.value.target];
      assert Groups(st'.target, field.tag) <= Groups(r.target, field.tag);
    }
  }

  const BeginStringTag := 8
  const MsgTypeTag := 35

  datatype EncodeResult = EncodeResult(message: WireMessage, errors: seq<CodecError>)

  /** The fields of the named sub-message, when the message has that name and its value is a message. */
  function SubMessage(message: seq<(string, Value)>, name: string): Option<seq<(string, Value)>> {
    match FieldValue(message, name)
    case Some(MessageValue(fields)) => Some(fields)
    case _ => None
  }

  /**
    `FixMessage.encode`: the header (when the message has one), then tags 8
    and 35, then the body, then the trailer (when the message has one).
    Presence is checked in the body only.
   */
  function Encode(fm: FixMessage, message: seq<(string, Value)>, beginString: string, cv: Converters): (r: Result<EncodeResult>)
    ensures r.Err? ==> r.error == EmptyGroupOrder
    ensures r.Ok? ==>
      var h := r.value.message.header;
      && BeginStringTag in h.fields && h.fields[BeginStringTag] == beginString
      && MsgTypeTag in h.fields && h.fields[MsgTypeTag] == fm.msgType
    ensures r.Ok? ==> WrittenTags(r.value.message.header) <= Tags(fm.header) + {BeginStringTag, MsgTypeTag}
    ensures r.Ok? ==> WrittenTags(r.value.message.body) <= Tags(fm.body)
    ensures r.Ok? ==> WrittenTags(r.value.message.trailer) <= Tags(fm.trailer)
    ensures r.Ok? && SubMessage(message, HeaderField).None? ==> r.value.message.header.fields.Keys == {BeginStringTag, MsgTypeTag}
  {
    var h :- EncodeHeader(fm, message, cv);
    EncodeSections(fm, message, WithString(WithString(h.target, BeginStringTag, beginString), MsgTypeTag, fm.msgType), h.errors, cv)
  }

  /** The header section: the `header` sub-message encoded without presence checks, or nothing when there is none. */
  function EncodeHeader(fm: FixMessage, message: seq<(string, Value)>, cv: Converters): (r: Result<EncodeState>)
    ensures r.Err? ==> r.error == EmptyGroupOrder
    ensures r.Ok? ==> NoMissingSince(r.value.errors, 0)
    ensures r.Ok? ==> WrittenTags(r.value.target) <= Tags(fm.header)
    ensures SubMessage(message, HeaderField).None? ==> r == Ok(EncodeState(EmptyMap(fm.HeaderFieldOrder()), []))
  {
    var h0 := EncodeState(EmptyMap(fm.HeaderFieldOrder()), []);
    match SubMessage(message, HeaderField)
    case Some(fields) => EncodeMessage(fm.header, fields, h0, FieldPath(fm.name, HeaderField), false, cv)
    case None => Ok(h0)
  }

  /** The rest of `FixMessage.encode` once the header is written: the body, then the trailer sub-message if any. */
  function EncodeSections(fm: FixMessage, message: seq<(string, Value)>, header: WireMap, errors: seq<CodecError>, cv: Converters): (r: Result<EncodeResult>)
    ensures r.Err? ==> r.error == EmptyGroupOrder
    ensures r.Ok? ==> r.value.message.header == header
    ensures r.Ok? ==> WrittenTags(r.value.message.body) <= Tags(fm.body)
    ensures r.Ok? ==> WrittenTags(r.value.message.trailer) <= Tags(fm.trailer)
    ensures r.Ok? ==>
              var b := EncodeMessage(fm.body, message, EncodeState(EmptyMap(fm.BodyFieldOrder()), errors), fm.name, true, cv);
              && b.Ok? && b.value.errors <= r.value.errors && NoMissingSince(r.value.errors, |b.value.errors|)
  {
    var b :- EncodeMessage(fm.body, message, EncodeState(EmptyMap(fm.BodyFieldOrder()), errors), fm.name, true, cv);
    var t0 := EncodeState(EmptyMap(fm.TrailerFieldOrder()), b.errors);
    var t :-
      match SubMessage(message, TrailerField)
      case Some(fields) => EncodeMessage(fm.trailer, fields, t0, FieldPath(fm.name, TrailerField), false, cv)
      case None => Ok(t0);
    Ok(EncodeResult(WireMessage(header, b.target, t.target), t.errors))
  }

  /** A name whose turn adds exactly the error `e` and writes nothing is reported by the whole walk, unless it fails. */
  lemma {:induction false} NamesReport(schema: seq<FixField>, message: seq<(string, Value)>, names: seq<string>,
                                       st: EncodeState, path: string, checkPresence: bool, cv: Converters,
                                       name: string, e: CodecError)
    requires name in names
    requires forall s :: EncodeName(schema, message, name, s, path, checkPresence, cv) == Ok(AddError(s, e))
    ensures var r := EncodeNames(schema, message, names, st, path, checkPresence, cv);
            r.Ok? ==> e in r.value.errors
    decreases |names|
  {
    var first := EncodeName(schema, message, names[0], st, path, checkPresence, cv);
    if first.Ok? {
      var r := EncodeNames(schema, message, names[1..], first.value, path, checkPresence, cv);
      if names[0] == name {
        assert e in first.value.errors;
        if r.Ok? {
          assert r.value.errors[..|first.value.errors|] == first.value.errors;
        }
      } else {
        NamesReport(schema, message, names[1..], first.value, path, checkPresence, cv, name, e);
      }
    }
  }

  /**
    Only the body is checked for presence: the MissingRequired errors of an
    encoding are exactly those the walk over the body reports.
   */
  lemma EncodeMissingFromBody(fm: FixMessage, message: seq<(string, Value)>, beginString: string, cv: Converters)
    requires Encode(fm, message, beginString, cv).Ok?
    ensures var h := EncodeHeader(fm, message, cv);
            var b := EncodeMessage(fm.body, message, EncodeState(EmptyMap(fm.BodyFieldOrder()), h.value.errors), fm.name, true, cv);
            && h.Ok? && b.Ok? && |h.value.errors| <= |b.value.errors|
            && forall e: CodecError :: e.MissingRequired? ==> (e in Encode(fm, message, beginString, cv).value.errors <==> e in b.value.errors[|h.value.errors|..])
  {
    var r := Encode(fm, message, beginString, cv).value;
    var h := EncodeHeader(fm, message, cv).value;
    var b := EncodeMessage(fm.body, message, EncodeState(EmptyMap(fm.BodyFieldOrder()), h.errors), fm.name, true, cv).value;
    MissingBetween(h.errors, b.errors, r.errors);
  }

  /** A name the message has and the schema does not is reported as unexpected. */
  lemma UnexpectedReported(schema: seq<FixField>, message: seq<(string, Value)>, st: EncodeState, path: string,
                           checkPresence: bool, cv: Converters, name: string)
    requires name in Keys(message, Fst) && !IsReserved(name) && name !in Keys(schema, Name)
    ensures var r := EncodeMessage(schema, message, st, path, checkPresence, cv);
            r.Ok? ==> Unexpected(FieldPath(path, name)) in r.value.errors
  {
    NamesReport(schema, message, Union(Keys(schema, Name), Keys(message, Fst)), st, path, checkPresence, cv,
                name, Unexpected(FieldPath(path, name)));
  }

  /**
    A schema field absent from the input: reported as missing when presence
    is checked and the field is required; with presence unchecked nothing at
    all is reported missing. (Its own step reports it exactly in the first
    case: see `EncodeName`.)
   */
  lemma MissingReported(schema: seq<FixField>, message: seq<(string, Value)>, st: EncodeState, path: string,
                        checkPresence: bool, cv: Converters, name: string)
    requires name in Keys(schema, Name) && !IsReserved(name) && Absent(message, name)
    ensures var r := EncodeMessage(schema, message, st, path, checkPresence, cv);
            r.Ok? && checkPresence && Get(schema, Name, name).value.isRequired ==> MissingRequired(FieldPath(path, name)) in r.value.errors
    ensures var r := EncodeMessage(schema, message, st, path, checkPresence, cv);
            r.Ok? && !checkPresence ==> MissingRequired(FieldPath(path, name)) !in r.value.errors[|st.errors|..]
  {
    if checkPresence && Get(schema, Name, name).value.isRequired {
      NamesReport(schema, message, Union(Keys(schema, Name), Keys(message, Fst)), st, path, checkPresence, cv,
                  name, MissingRequired(FieldPath(path, name)));
    }
  }

  /** The state of a target and an error list matches a specified result: the same map and errors, or the same failure. */
  predicate Reflects(crash: Option<string>, content: WireMap, errors: seq<CodecError>, r: Result<EncodeState>) {
    match r
    case Ok(s) => crash.None? && content == s.target && errors == s.errors
    case Err(e) => crash == Some(e)
  }

  /** `encodeMessage`, writing into `target` and appending to `errors`; `crash` is the exception that escapes. */
  method EncodeMessageInto(schema: seq<FixField>, message: seq<(string, Value)>, target: FieldMapBuilder, errors: ErrorList,
                           path: string, checkPresence: bool, cv: Converters) returns (crash: Option<string>)
    modifies target, errors
    ensures Reflects(crash, target.content, errors.items,
                     EncodeMessage(schema, message, EncodeState(old(target.content), old(errors.items)), path, checkPresence, cv))
    decreases schema, 3
  {
    ghost var spec := EncodeMessage(schema, message, EncodeState(target.content, errors.items), path, checkPresence, cv);
    var names := Union(Keys(schema, Name), Keys(message, Fst));
    assert names[0..] == names;
    crash := None;
    for i := 0 to |names|
      invariant crash.None?
      invariant spec == EncodeNames(schema, message, names[i..], EncodeState(target.content, errors.items), path, checkPresence, cv)
    {
      assert names[i..][0] == names[i] && names[i..][1..] == names[i + 1..];
      crash := EncodeNameInto(schema, message, names[i], target, errors, path, checkPresence, cv);
      if crash.Some? {
        return;
      }
    }
    assert names[|names|..] == [];
  }

  /** One turn of the loop of `encodeMessage`: skip, report or encode the entry `name`. */
  method EncodeNameInto(schema: seq<FixField>, message: seq<(string, Value)>, name: string, target: FieldMapBuilder, errors: ErrorList,
                        path: string, checkPresence: bool, cv: Converters) returns (crash: Option<string>)
    modifies target, errors
    ensures Reflects(crash, target.content, errors.items,
                     EncodeName(schema, message, name, EncodeState(old(target.content), old(errors.items)), path, checkPresence, cv))
    decreases schema, 2
  {
    crash := None;
    if IsReserved(name) {
      return;
    }
    var field := Get(schema, Name, name);
    if field.None? {
      errors.Add(Unexpected(FieldPath(path, name)));
      return;
    }
    var value := FieldValue(message, name);
    if value.None? || value.value.NullValue? {
      if checkPresence && field.value.isRequired {
        errors.Add(MissingRequired(FieldPath(path, name)));
      }
      return;
    }
    crash := EncodeEntryInto(field.value, value.value, target, errors, path, checkPresence, cv);
  }

  method EncodeEntryInto(field: FixField, value: Value, target: FieldMapBuilder, errors: ErrorList, path: string,
                         checkPresence: bool, cv: Converters) returns (crash: Option<string>)
    modifies target, errors
    ensures Reflects(crash, target.content, errors.items,
                     EncodeEntry(field, value, EncodeState(old(target.content), old(errors.items)), path, checkPresence, cv))
    decreases field, 1
  {
    crash := None;
    var at := FieldPath(path, field.name);
    match field.kind
    case FieldKind =>
      if value.SimpleValue? {
        EncodeFieldInto(field, value.simple, target, errors, path, cv);
      } else {
        errors.Add(WrongKind(SimpleKind, KindOf(value), at));
      }
    case ComponentKind =>
      if value.MessageValue? {
        crash := EncodeMessageInto(field.fields, value.fields, target, errors, at, checkPresence, cv);
      } else {
        errors.Add(WrongKind(MessageKind, KindOf(value), at));
      }
    case GroupKind =>
      if value.ListValue? {
        crash := EncodeGroupsInto(field, value.values, target, errors, path, checkPresence, cv);
      } else {
        errors.Add(WrongKind(ListKind, KindOf(value), at));
      }
  }

  /** `encodeField`: the converted text is stored under the field's tag, or the error is appended. */
  method EncodeFieldInto(field: FixField, value: string, target: FieldMapBuilder, errors: ErrorList, path: string, cv: Converters)
    modifies target, errors
    ensures match EncodeField(field, value, path, cv)
            case Written(text) => target.content == WithString(old(target.content), field.tag, text) && errors.items == old(errors.items)
            case Rejected(e) => target.content == old(target.content) && errors.items == old(errors.items) + [e]
  {
    match EncodeField(field, value, path, cv)
    case Written(text) => target.SetString(field.tag, text);
    case Rejected(e) => errors.Add(e);
  }

  /** `encodeGroups`: each message element is encoded into a new `Group` that is then added to `target`. */
  method EncodeGroupsInto(field: FixField, groups: seq<Value>, target: FieldMapBuilder, errors: ErrorList, path: string,
                          checkPresence: bool, cv: Converters) returns (crash: Option<string>)
    modifies target, errors
    ensures Reflects(crash, target.content, errors.items,
                     EncodeGroups(field, groups, 0, EncodeState(old(target.content), old(errors.items)), path, checkPresence, cv))
    decreases field, 0
  {
    ghost var spec := EncodeGroups(field, groups, 0, EncodeState(target.content, errors.items), path, checkPresence, cv);
    assert groups[0..] == groups;
    crash := None;
    for index := 0 to |groups|
      invariant crash.None?
      invariant spec == EncodeGroups(field, groups[index..], index, EncodeState(target.content, errors.items), path, checkPresence, cv)
    {
      assert groups[index..][0] == groups[index] && groups[index..][1..] == groups[index + 1..];
      crash := EncodeGroupInto(field, groups[index], ElementPath(path, field.name, index), target, errors, checkPresence, cv);
      if crash.Some? {
        return;
      }
    }
    assert groups[|groups|..] == [];
  }

  /** One element of the loop of `encodeGroups`. */
  method EncodeGroupInto(field: FixField, value: Value, at: string, target: FieldMapBuilder, errors: ErrorList,
                         checkPresence: bool, cv: Converters) returns (crash: Option<string>)
    modifies target, errors
    ensures Reflects(crash, target.content, errors.items,
                     EncodeGroup(field, value, at, EncodeState(old(target.content), old(errors.items)), checkPresence, cv))
    decreases field, 0, 0
  {
    if !value.MessageValue? {
      errors.Add(WrongKind(MessageKind, KindOf(value), at));
      return None;
    }
    var fieldOrder := FieldOrderOf(field.fields);
    if fieldOrder == [] {
      return Some(EmptyGroupOrder);
    }
    var group := new FieldMapBuilder(fieldOrder);
    crash := EncodeMessageInto(field.fields, value.fields, group, errors, at, checkPresence, cv);
    if crash.Some? {
      return;
    }
    target.AddGroup(field.tag, group.content);
  }

  /** `FixMessage.encode` on fresh QuickFIX/J maps and a fresh error list. */
  method EncodeInto(fm: FixMessage, message: seq<(string, Value)>, beginString: string, cv: Converters) returns (r: Result<EncodeResult>)
    ensures r == Encode(fm, message, beginString, cv)
  {
    var errors := new ErrorList();
    var header := new FieldMapBuilder(fm.HeaderFieldOrder());
    var headerFields := SubMessage(message, HeaderField);
    var crash: Option<string>;
    if headerFields.Some? {
      crash := EncodeMessageInto(fm.header, headerFields.value, header, errors, FieldPath(fm.name, HeaderField), false, cv);
      if crash.Some? {
        return Err(crash.value);
      }
    }
    header.SetString(BeginStringTag, beginString);
    header.SetString(MsgTypeTag, fm.msgType);
    r := EncodeSectionsInto(fm, message, header.content, errors, cv);
  }

  /** The body and the trailer of `FixMessage.encode`, on fresh maps, appending to `errors`. */
  method EncodeSectionsInto(fm: FixMessage, message: seq<(string, Value)>, header: WireMap, errors: ErrorList, cv: Converters)
    returns (r: Result<EncodeResult>)
    modifies errors
    ensures r == EncodeSections(fm, message, header, old(errors.items), cv)
  {
    var body := new FieldMapBuilder(fm.BodyFieldOrder());
    var trailer := new FieldMapBuilder(fm.TrailerFieldOrder());
    var trailerFields := SubMessage(message, TrailerField);
    var crash := EncodeMessageInto(fm.body, message, body, errors, fm.name, true, cv);
    if crash.Some? {
      return Err(crash.value);
    }
    if trailerFields.Some? {
      crash := EncodeMessageInto(fm.trailer, trailerFields.value, trailer, errors, FieldPath(fm.name, TrailerField), false, cv);
      if crash.Some? {
        return Err(crash.value);
      }
    }
    r := Ok(EncodeResult(WireMessage(header, body.content, trailer.content), errors.items));
  }
}
