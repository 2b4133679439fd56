/**
  The decoder (`FixMessage.decode`): a QuickFIX/J message, walked against
  the resolved schema, becomes a th2 message plus the list of errors met on
  the way. Only schema entries are visited, so names the schema does not
  know are never reported and never produced; decoding never fails.
 */
module Decoding {
  import opened Wrappers
  import opened LinkedMaps
  import opened Schema
  import opened Th2
  import opened Wire
  import opened Errors
  import opened Scalars
  import opened Fields

  /** The message being built and the errors collected so far. */
  datatype DecodeState = DecodeState(fields: seq<(string, Value)>, errors: seq<CodecError>)

  /** The repetitions of a group decoded so far and the errors collected so far. */
  datatype ListState = ListState(values: seq<Value>, errors: seq<CodecError>)

  function AddError(st: DecodeState, e: CodecError): DecodeState {
    st.(errors := st.errors + [e])
  }

  /** `FieldMap.isPresent`: a field is set, a group has a repetition, a component has a present member. */
  predicate IsPresent(message: WireMap, field: FixField)
    decreases field
  {
    match field.kind
    case FieldKind => field.tag in message.fields
    case GroupKind => GroupCount(message, field.tag) >= 1
    case ComponentKind => AnyPresent(message, field.fields)
  }

  predicate AnyPresent(message: WireMap, m: seq<FixField>)
    decreases m
  {
    m != [] && (IsPresent(message, m[0]) || AnyPresent(message, m[1..]))
  }

  /** What decoding keeps about every result: names and errors are only added, and never an unexpected-field error. */
  predicate Extends(st: DecodeState, r: DecodeState) {
    && Keys(st.fields, Fst) <= Keys(r.fields, Fst)
    && st.errors <= r.errors
    && NoUnexpectedSince(r.errors, |st.errors|)
  }

  /** `Map<String, FixField>.decodeMessage`: the schema entries in order. */
  function DecodeMessage(schema: seq<FixField>, message: WireMap, st: DecodeState, path: string,
                         checkPresence: bool, cv: Converters): (r: DecodeState)
    ensures Extends(st, r)
    decreases schema, 1
  {
    if schema == [] then st
    else DecodeMessage(schema[1..], message, DecodeEntry(schema[0], message, st, path, checkPresence, cv), path, checkPresence, cv)
  }

  /** One turn of the loop of `decodeMessage`. */
  function DecodeEntry(field: FixField, message: WireMap, st: DecodeState, path: string,
                       checkPresence: bool, cv: Converters): (r: DecodeState)
    ensures Extends(st, r)
    ensures IsReserved(field.name) ==> r == st
    ensures !IsReserved(field.name) && !IsPresent(message, field) ==>
              r == if checkPresence && field.isRequired then AddError(st, MissingRequired(FieldPath(path, field.name))) else st
    ensures !IsReserved(field.name) && IsPresent(message, field) ==> r == DecodePresent(field, message, st, path, checkPresence, cv)
    decreases field, 2
  {
    if IsReserved(field.name) then st
    else if !IsPresent(message, field) then
      if checkPresence && field.isRequired then AddError(st, MissingRequired(FieldPath(path, field.name))) else st
    else DecodePresent(field, message, st, path, checkPresence, cv)
  }

  /**
    The `when` of `decodeMessage` on the kind of a present schema node: a
    field is decoded by `decodeField`, a component into a message of its own
    at path `path.name`, a group into a list of its repetitions; the result
    goes under the node's name and every other name keeps its value.
   */
  function DecodePresent(field: FixField, message: WireMap, st: DecodeState, path: string,
                         checkPresence: bool, cv: Converters): (r: DecodeState)
    requires !IsReserved(field.name) && IsPresent(message, field)
    ensures Extends(st, r)
    ensures field.kind == GroupKind ==>
              && FieldValue(r.fields, field.name).Some?
              && FieldValue(r.fields, field.name).value.ListValue?
              && |FieldValue(r.fields, field.name).value.values| == GroupCount(message, field.tag)
    ensures field.kind == ComponentKind ==>
              FieldValue(r.fields, field.name).Some? && FieldValue(r.fields, field.name).value.MessageValue?
    ensures OthersKept(st.fields, r.fields, field.name)
    ensures field.kind == FieldKind ==>
              match DecodeField(field, message.fields[field.tag], path, cv)
              case Written(text) => FieldValue(r.fields, field.name) == Some(SimpleValue(text)) && r.errors == st.errors
              case Rejected(e) => r == AddError(st, e)
    ensures field.kind == ComponentKind ==>
              var inner := DecodeMessage(field.fields, message, DecodeState([], st.errors), FieldPath(path, field.name), checkPresence, cv);
              FieldValue(r.fields, field.name) == Some(MessageValue(inner.fields)) && r.errors == inner.errors
    ensures field.kind == GroupKind ==>
              var list := DecodeGroups(field, Groups(message, field.tag), 0, ListState([], st.errors), path, checkPresence, cv);
              FieldValue(r.fields, field.name) == Some(ListValue(list.values)) && r.errors == list.errors
    decreases field, 1
  {
    match field.kind
    case FieldKind =>
      (match DecodeField(field, message.fields[field.tag], path, cv)
       case Written(text) =>
         PutDecoded(st, field.name, SimpleValue(text), st.errors);
         st.(fields := Put(st.fields, Fst, (field.name, SimpleValue(text))))
       case Rejected(e) => AddError(st, e))
    case ComponentKind =>
      var inner := DecodeMessage(field.fields, message, DecodeState([], st.errors), FieldPath(path, field.name), checkPresence, cv);
      PutDecoded(st, field.name, MessageValue(inner.fields), inner.errors);
      DecodeState(Put(st.fields, Fst, (field.name, MessageValue(inner.fields))), inner.errors)
    case GroupKind =>
      var list := DecodeGroups(field, Groups(message, field.tag), 0, ListState([], st.errors), path, checkPresence, cv);
      PutDecoded(st, field.name, ListValue(list.values), list.errors);
      DecodeState(Put(st.fields, Fst, (field.name, ListValue(list.values))), list.errors)
  }

  /**
    After `target[name] = v`, with `errors` extending the old ones, `name`
    holds `v`, every other name keeps its value, and the state extends the old.
   */
  lemma PutDecoded(st: DecodeState, name: string, v: Value, errors: seq<CodecError>)
    requires st.errors <= errors && NoUnexpectedSince(errors, |st.errors|)
    ensures var r := DecodeState(Put(st.fields, Fst, (name, v)), errors);
            && Extends(st, r)
            && FieldValue(r.fields, name) == Some(v)
            && OthersKept(st.fields, r.fields, name)
  {
  }

  /** Every name other than `name` has the same value in `after` as in `before`. */
  ghost predicate OthersKept(before: seq<(string, Value)>, after: seq<(string, Value)>, name: string) {
    forall k :: k != name ==> FieldValue(after, k) == FieldValue(before, k)
  }

  /** `decodeGroups` from repetition `index` on: each repetition becomes one message of the list. */
  function DecodeGroups(field: FixField, groups: seq<WireMap>, index: nat, st: ListState, path: string,
                        checkPresence: bool, cv: Converters): (r: ListState)
    ensures |r.values| == |st.values| + |groups| && r.values[..|st.values|] == st.values
    ensures forall i :: |st.values| <= i < |r.values| ==> r.values[i].MessageValue?
    ensures st.errors <= r.errors && NoUnexpectedSince(r.errors, |st.errors|)
    decreases field, 0, |groups|
  {
    if groups == [] then st
    else
      DecodeGroups(field, groups[1..], index + 1, DecodeRepetition(field, groups[0], index, st, path, checkPresence, cv), path, checkPresence, cv)
  }

  /** One repetition of `decodeGroups`: a new message is appended to the list. */
  function DecodeRepetition(field: FixField, group: WireMap, index: nat, st: ListState, path: string,
                            checkPresence: bool, cv: Converters): (r: ListState)
    ensures |r.values| == |st.values| + 1 && r.values[..|st.values|] == st.values && r.values[|st.values|].MessageValue?
    ensures st.errors <= r.errors && NoUnexpectedSince(r.errors, |st.errors|)
    ensures var inner := DecodeMessage(field.fields, group, DecodeState([], st.errors), ElementPath(path, field.name, index), checkPresence, cv);
            r.values[|st.values|] == MessageValue(inner.fields) && r.errors == inner.errors
    decreases field, 0, 0
  {
    var inner := DecodeMessage(field.fields, group, DecodeState([], st.errors), ElementPath(path, field.name, index), checkPresence, cv);
    ListState(st.values + [MessageValue(inner.fields)], inner.errors)
  }

  /** Where repetition `k` of a list lands once `values` are already there. */
  function Position(values: seq<Value>, k: nat): nat {
    |values| + k
  }

  /**
    The list a group decodes to holds the decodings of its repetitions, in
    wire order: repetition `n` (counted from `index`, the number of the first
    of `groups`) is decoded at path `path.name[n]`, with `before` reported
    ahead of it, into the element at its position.
   */
  lemma {:induction false} DecodeGroupsInOrder(field: FixField, groups: seq<WireMap>, index: nat, st: ListState, path: string,
                                               checkPresence: bool, cv: Converters, r: ListState, n: nat)
    returns (before: seq<CodecError>)
    requires DecodeGroups(field, groups, index, st, path, checkPresence, cv) == r
    requires index <= n < index + |groups|
    ensures Position(st.values, n - index) < |r.values|
    ensures r.values[Position(st.values, n - index)]
            == MessageValue(DecodeMessage(field.fields, groups[n - index], DecodeState([], before), ElementPath(path, field.name, n), checkPresence, cv).fields)
    decreases |groups|
  {
    var st' := DecodeRepetition(field, groups[0], index, st, path, checkPresence, cv);
    assert DecodeGroups(field, groups[1..], index + 1, st', path, checkPresence, cv) == r;
    if n == index {
      before := st.errors;
      assert r.values[..|st'.values|] == st'.values;
      assert r.values[|st.values|] == st'.values[|st.values|];
    } else {
      before := DecodeGroupsInOrder(field, groups[1..], index + 1, st', path, checkPresence, cv, r, n);
      ShiftRepetition(groups, index, n, st'.values, st.values);
    }
  }

  /** Repetition `n` and its position, seen from the list and from its tail. */
  lemma ShiftRepetition(groups: seq<WireMap>, index: nat, n: nat, values': seq<Value>, values: seq<Value>)
    requires index < n < index + |groups|
    requires |values'| == |values| + 1
    ensures groups[1..][n - (index + 1)] == groups[n - index]
    ensures Position(values', n - (index + 1)) == Position(values, n - index)
  {
  }

  datatype DecodeResult = DecodeResult(messageType: string, fields: seq<(string, Value)>, errors: seq<CodecError>)

  /**
    `FixMessage.decode`: header, then trailer, then body, all with presence
    checked; the header and trailer become the body's `header` and `trailer`
    sub-messages and the message type is the schema message's name.
   */
  function Decode(fm: FixMessage, message: WireMessage, cv: Converters): (r: DecodeResult)
    ensures r.messageType == fm.name
    ensures FieldValue(r.fields, HeaderField).Some? && FieldValue(r.fields, HeaderField).value.MessageValue?
    ensures FieldValue(r.fields, TrailerField).Some? && FieldValue(r.fields, TrailerField).value.MessageValue?
    ensures NoUnexpectedSince(r.errors, 0)
  {
    var h := DecodeMessage(fm.header, message.header, DecodeState([], []), FieldPath(fm.name, HeaderField), true, cv);
    var t := DecodeMessage(fm.trailer, message.trailer, DecodeState([], h.errors), FieldPath(fm.name, TrailerField), true, cv);
    var b := DecodeMessage(fm.body, message.body, DecodeState([], t.errors), fm.name, true, cv);
    NoUnexpectedAcross(h.errors, t.errors, 0);
    NoUnexpectedAcross(t.errors, b.errors, 0);
    DecodeResult(fm.name, WithSections(b.fields, h.fields, t.fields), b.errors)
  }

  /** `body[HEADER] = header`, then `body[TRAILER] = trailer`. */
  function WithSections(body: seq<(string, Value)>, header: seq<(string, Value)>, trailer: seq<(string, Value)>): (r: seq<(string, Value)>)
    ensures FieldValue(r, HeaderField) == Some(MessageValue(header))
    ensures FieldValue(r, TrailerField) == Some(MessageValue(trailer))
  {
    assert HeaderField[0] != TrailerField[0];
    Put(Put(body, Fst, (HeaderField, MessageValue(header))), Fst, (TrailerField, MessageValue(trailer)))
  }

  /** The schema holds a non-reserved entry named `name` that is present in `message`. */
  predicate PresentEntry(schema: seq<FixField>, message: WireMap, name: string) {
    exists i :: 0 <= i < |schema| && schema[i].name == name && !IsReserved(name) && IsPresent(message, schema[i])
  }

  /** Every name the decoder produces was there before or is a present schema entry: nothing is invented. */
  lemma {:induction false} DecodedNamesArePresent(schema: seq<FixField>, message: WireMap, st: DecodeState, path: string,
                                                  checkPresence: bool, cv: Converters, name: string)
    requires name in Keys(DecodeMessage(schema, message, st, path, checkPresence, cv).fields, Fst)
    ensures name in Keys(st.fields, Fst) || PresentEntry(schema, message, name)
    decreases schema
  {
    if schema != [] {
      var st' := DecodeEntry(schema[0], message, st, path, checkPresence, cv);
      DecodedNamesArePresent(schema[1..], message, st', path, checkPresence, cv, name);
      if PresentEntry(schema[1..], message, name) {
        var i :| 0 <= i < |schema[1..]| && schema[1..][i].name == name && !IsReserved(name) && IsPresent(message, schema[1..][i]);
        assert schema[i + 1] == schema[1..][i];
      } else if name !in Keys(st.fields, Fst) {
        DecodeEntryNames(schema[0], message, st, path, checkPresence, cv, name);
        assert schema[0].name == name && !IsReserved(name) && IsPresent(message, schema[0]);
      }
    }
  }

  /** One entry adds at most its own name, and only when it is not reserved and is present. */
  lemma DecodeEntryNames(field: FixField, message: WireMap, st: DecodeState, path: string, checkPresence: bool, cv: Converters, name: string)
    requires name in Keys(DecodeEntry(field, message, st, path, checkPresence, cv).fields, Fst)
    ensures name in Keys(st.fields, Fst) || (name == field.name && !IsReserved(name) && IsPresent(message, field))
  {
    if !IsReserved(field.name) && IsPresent(message, field) {
      var r := DecodePresent(field, message, st, path, checkPresence, cv);
      match field.kind
      case FieldKind =>
        match DecodeField(field, message.fields[field.tag], path, cv) {
          case Written(text) =>
            assert r.fields == Put(st.fields, Fst, (field.name, SimpleValue(text)));
          case Rejected(e) =>
            assert r.fields == st.fields;
        }
      case ComponentKind =>
        var inner := DecodeMessage(field.fields, message, DecodeState([], st.errors), FieldPath(path, field.name), checkPresence, cv);
        assert r.fields == Put(st.fields, Fst, (field.name, MessageValue(inner.fields)));
      case GroupKind =>
        var list := DecodeGroups(field, Groups(message, field.tag), 0, ListState([], st.errors), path, checkPresence, cv);
        assert r.fields == Put(st.fields, Fst, (field.name, ListValue(list.values)));
    }
  }

  /** A required entry missing from the message is reported when presence is checked. */
  lemma {:induction false} MissingReportedOnDecode(schema: seq<FixField>, message: WireMap, st: DecodeState, path: string,
                                                   cv: Converters, field: FixField)
    requires field in schema && !IsReserved(field.name) && field.isRequired && !IsPresent(message, field)
    ensures MissingRequired(FieldPath(path, field.name)) in DecodeMessage(schema, message, st, path, true, cv).errors
    decreases schema
  {
    var st' := DecodeEntry(schema[0], message, st, path, true, cv);
    var r := DecodeMessage(schema[1..], message, st', path, true, cv);
    if schema[0] == field {
      assert MissingRequired(FieldPath(path, field.name)) in st'.errors;
      assert r.errors[..|st'.errors|] == st'.errors;
    } else {
      MissingReportedOnDecode(schema[1..], message, st', path, cv, field);
    }
  }

  /** `decodeMessage`, putting fields into `target` and appending to `errors`. */
  method DecodeMessageInto(schema: seq<FixField>, message: WireMap, target: MessageBuilder, errors: ErrorList,
                           path: string, checkPresence: bool, cv: Converters)
    modifies target, errors
    ensures DecodeState(target.fields, errors.items) ==
            DecodeMessage(schema, message, DecodeState(old(target.fields), old(errors.items)), path, checkPresence, cv)
    decreases schema, 1
  {
    ghost var spec := DecodeMessage(schema, message, DecodeState(target.fields, errors.items), path, checkPresence, cv);
    assert schema[0..] == schema;
    for i := 0 to |schema|
      invariant spec == DecodeMessage(schema[i..], message, DecodeState(target.fields, errors.items), path, checkPresence, cv)
    {
      var field := schema[i];
      assert schema[i..][0] == field && schema[i..][1..] == schema[i + 1..];
      if IsReserved(field.name) {
        continue;
      }
      if !IsPresent(message, field) {
        if checkPresence && field.isRequired {
          errors.Add(MissingRequired(FieldPath(path, field.name)));
        }
        continue;
      }
      DecodePresentInto(field, message, target, errors, path, checkPresence, cv);
    }
    assert schema[|schema|..] == [];
  }

  /**
    The `when` of `decodeMessage` on the kind of a present schema node: a
    field is decoded by `decodeField`, a component into a message of its own
    at path `path.name`, a group into a list of its repetitions; the result
    goes under the node's name and every other name keeps its value.
   */
  method DecodePresentInto(field: FixField, message: WireMap, target: MessageBuilder, errors: ErrorList,
                           path: string, checkPresence: bool, cv: Converters)
    requires !IsReserved(field.name) && IsPresent(message, field)
    modifies target, errors
    ensures DecodeState(target.fields, errors.items) ==
            DecodePresent(field, message, DecodeState(old(target.fields), old(errors.items)), path, checkPresence, cv)
    decreases field, 1
  {
    match field.kind
    case FieldKind =>
      DecodeFieldInto(field, message.fields[field.tag], target, errors, path, cv);
    case ComponentKind =>
      var component := new MessageBuilder();
      DecodeMessageInto(field.fields, message, component, errors, FieldPath(path, field.name), checkPresence, cv);
      target.Set(field.name, MessageValue(component.fields));
    case GroupKind =>
      var list := new ListBuilder();
      DecodeGroupsInto(field, Groups(message, field.tag), list, errors, path, checkPresence, cv);
      target.Set(field.name, ListValue(list.values));
  }

  /** `decodeField`: the converted value is put under the field's name, or the error is appended. */
  method DecodeFieldInto(field: FixField, value: string, target: MessageBuilder, errors: ErrorList, path: string, cv: Converters)
    modifies target, errors
    ensures match DecodeField(field, value, path, cv)
            case Written(text) => target.fields == Put(old(target.fields), Fst, (field.name, SimpleValue(text))) && errors.items == old(errors.items)
            case Rejected(e) => target.fields == old(target.fields) && errors.items == old(errors.items) + [e]
  {
    match DecodeField(field, value, path, cv)
    case Written(text) => target.Set(field.name, SimpleValue(text));
    case Rejected(e) => errors.Add(e);
  }

  /** `decodeGroups`: each repetition is decoded into a new message of the list. */
  method DecodeGroupsInto(field: FixField, groups: seq<WireMap>, target: ListBuilder, errors: ErrorList, path: string,
                          checkPresence: bool, cv: Converters)
    modifies target, errors
    ensures ListState(target.values, errors.items) ==
            DecodeGroups(field, groups, 0, ListState(old(target.values), old(errors.items)), path, checkPresence, cv)
    decreases field, 0
  {
    ghost var spec := DecodeGroups(field, groups, 0, ListState(target.values, errors.items), path, checkPresence, cv);
    assert groups[0..] == groups;
    for index := 0 to |groups|
      invariant spec == DecodeGroups(field, groups[index..], index, ListState(target.values, errors.items), path, checkPresence, cv)
    {
      assert groups[index..][0] == groups[index] && groups[index..][1..] == groups[index + 1..];
      DecodeRepetitionInto(field, groups[index], index, target, errors, path, checkPresence, cv);
    }
    assert groups[|groups|..] == [];
  }

  /** One repetition of the loop of `decodeGroups`. */
  method DecodeRepetitionInto(field: FixField, group: WireMap, index: nat, target: ListBuilder, errors: ErrorList, path: string,
                              checkPresence: bool, cv: Converters)
    modifies target, errors
    ensures ListState(target.values, errors.items) ==
            DecodeRepetition(field, group, index, ListState(old(target.values), old(errors.items)), path, checkPresence, cv)
    decreases field, 0, 0
  {
    var repetition := new MessageBuilder();
    DecodeMessageInto(field.fields, group, repetition, errors, ElementPath(path, field.name, index), checkPresence, cv);
    target.Add(MessageValue(repetition.fields));
  }

  /** `FixMessage.decode` on fresh builders and a fresh error list. */
  method DecodeInto(fm: FixMessage, message: WireMessage, cv: Converters) returns (r: DecodeResult)
    ensures r == Decode(fm, message, cv)
  {
    var errors := new ErrorList();
    var body := new MessageBuilder();
    var header := new MessageBuilder();
    var trailer := new MessageBuilder();
    DecodeMessageInto(fm.header, message.header, header, errors, FieldPath(fm.name, HeaderField), true, cv);
    ghost var h := DecodeState(header.fields, errors.items);
    assert h == DecodeMessage(fm.header, message.header, DecodeState([], []), FieldPath(fm.name, HeaderField), true, cv);
    DecodeMessageInto(fm.trailer, message.trailer, trailer, errors, FieldPath(fm.name, TrailerField), true, cv);
    ghost var t := DecodeState(trailer.fields, errors.items);
    assert t == DecodeMessage(fm.trailer, message.trailer, DecodeState([], h.errors), FieldPath(fm.name, TrailerField), true, cv);
    DecodeMessageInto(fm.body, message.body, body, errors, fm.name, true, cv);
    assert DecodeState(body.fields, errors.items) == DecodeMessage(fm.body, message.body, DecodeState([], t.errors), fm.name, true, cv);
    assert header.fields == h.fields && trailer.fields == t.fields;
    body.Set(HeaderField, MessageValue(header.fields));
    body.Set(TrailerField, MessageValue(trailer.fields));
    r := DecodeResult(fm.name, body.fields, errors.items);
  }
}
