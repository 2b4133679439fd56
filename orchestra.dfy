/**
  The part of a FIX Orchestra repository that the codec reads: fields, code
  sets, components, groups and messages, each referring to the others by
  numeric id.
 */
module Orchestra {
  import opened Wrappers

  /** An Orchestra `presence` attribute; only `Required` matters to the codec. */
  datatype Presence = Required | Optional | Forbidden | Ignored | Constant

  /** A member of a component, group or message structure: a reference by id. */
  datatype MemberRef =
    | FieldRef(id: int, presence: Presence)
    | GroupRef(id: int, presence: Presence)
    | ComponentRef(id: int, presence: Presence)

  /** A field: its tag (`id`), name and data type name. */
  datatype FieldType = FieldType(id: int, name: string, typ: string)

  /** One code of a code set: its symbolic name and its wire value. */
  datatype Code = Code(name: string, value: string)

  /** A code set, named like the data type of the fields that use it. */
  datatype CodeSetType = CodeSetType(name: string, typ: Option<string>, codes: seq<Code>)

  datatype ComponentType = ComponentType(id: int, name: string, members: seq<MemberRef>)

  /** A repeating group; `numInGroup` is the id of its counter field. */
  datatype GroupType = GroupType(id: int, name: string, numInGroup: int, members: seq<MemberRef>)

  datatype MessageType = MessageType(name: string, msgType: string, members: seq<MemberRef>)

  datatype Repository = Repository(
    version: string,
    fields: seq<FieldType>,
    codeSets: seq<CodeSetType>,
    components: seq<ComponentType>,
    groups: seq<GroupType>,
    messages: seq<MessageType>)

  function FieldTypeId(f: FieldType): int { f.id }
  function ComponentTypeId(c: ComponentType): int { c.id }
  function GroupTypeId(g: GroupType): int { g.id }
}
