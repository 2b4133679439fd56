/**
  The th2 side of the codec: protobuf `Value`s and the message builders the
  decoder fills. A message's `fieldsMap` is an association list from field
  name to value.
 */
module Th2 {
  import opened LinkedMaps
  import opened Wrappers

  /** `Value.KindCase`. */
  datatype ValueKind = KindNotSet | NullKind | SimpleKind | MessageKind | ListKind

  datatype Value =
    | NotSetValue
    | NullValue
    | SimpleValue(simple: string)
    | MessageValue(fields: seq<(string, Value)>)
    | ListValue(values: seq<Value>)

  function KindOf(v: Value): ValueKind {
    match v
    case NotSetValue => KindNotSet
    case NullValue => NullKind
    case SimpleValue(_) => SimpleKind
    case MessageValue(_) => MessageKind
    case ListValue(_) => ListKind
  }

  /** The constant names Kotlin prints for a `KindCase`. */
  function KindName(k: ValueKind): string {
    match k
    case KindNotSet => "KIND_NOT_SET"
    case NullKind => "NULL_VALUE"
    case SimpleKind => "SIMPLE_VALUE"
    case MessageKind => "MESSAGE_VALUE"
    case ListKind => "LIST_VALUE"
  }

  /** `fieldsMap[name]`. */
  function FieldValue(fields: seq<(string, Value)>, name: string): Option<Value> {
    match Get(fields, Fst, name)
    case Some(p) => Some(p.1)
    case None => None
  }

  /** `Message.Builder`: `target[name] = value` and `addField(name, value)` replace an existing entry. */
  class MessageBuilder {
    var fields: seq<(string, Value)>

    constructor ()
      ensures fields == []
    {
      fields := [];
    }

    method Set(name: string, value: Value)
      modifies this
      ensures fields == Put(old(fields), Fst, (name, value))
      ensures FieldValue(fields, name) == Some(value)
    {
      fields := Put(fields, Fst, (name, value));
    }
  }

  /** `ListValue.Builder`: values are added at the end. */
  class ListBuilder {
    var values: seq<Value>

    constructor ()
      ensures values == []
    {
      values := [];
    }

    method Add(value: Value)
      modifies this
      ensures values == old(values) + [value]
    {
      values := values + [value];
    }
  }
}
