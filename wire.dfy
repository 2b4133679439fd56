/**
  The QuickFIX/J side of the codec: a `FieldMap` as tag-to-text fields plus
  the repetitions of each repeating group, and a message as header, body and
  trailer maps.
 */
module Wire {
  import opened Text

  /**
    A `FieldMap`. `order` is the field order it was created with (it decides
    the serialised order only), `fields` the value of each set tag and
    `groups` the repetitions of each group, by counter tag.
   */
  datatype WireMap = WireMap(order: seq<int>, fields: map<int, string>, groups: map<int, seq<WireMap>>)

  function EmptyMap(order: seq<int>): (m: WireMap)
    ensures m.order == order && m.fields == map[] && m.groups == map[]
  {
    WireMap(order, map[], map[])
  }

  /** `getGroupCount(tag)`. */
  function GroupCount(m: WireMap, tag: int): nat {
    if tag in m.groups then |m.groups[tag]| else 0
  }

  /** `getGroups(tag)`. */
  function Groups(m: WireMap, tag: int): seq<WireMap> {
    if tag in m.groups then m.groups[tag] else []
  }

  /** `setString(tag, value)`: the last write to a tag wins. */
  function WithString(m: WireMap, tag: int, value: string): (r: WireMap)
    ensures r.fields.Keys == m.fields.Keys + {tag} && r.fields[tag] == value
    ensures forall t :: t in m.fields && t != tag ==> r.fields[t] == m.fields[t]
    ensures r.groups == m.groups && r.order == m.order
  {
    m.(fields := m.fields[tag := value])
  }

  /** `addGroup(group)`: one more repetition, and the counter field set to the new count. */
  function WithGroup(m: WireMap, tag: int, group: WireMap): (r: WireMap)
    ensures Groups(r, tag) == Groups(m, tag) + [group]
    ensures GroupCount(r, tag) == GroupCount(m, tag) + 1
    ensures r.fields == m.fields[tag := NatToString(GroupCount(r, tag))]
    ensures forall t :: t != tag ==> Groups(r, t) == Groups(m, t)
    ensures r.fields.Keys == m.fields.Keys + {tag} && r.groups.Keys == m.groups.Keys + {tag} && r.order == m.order
  {
    var repetitions := Groups(m, tag) + [group];
    WireMap(m.order, m.fields[tag := NatToString(|repetitions|)], m.groups[tag := repetitions])
  }

  /** A message: the header, body and trailer field maps. */
  datatype WireMessage = WireMessage(header: WireMap, body: WireMap, trailer: WireMap)

  /** A `FieldMap` being filled in place. */
  class FieldMapBuilder {
    var content: WireMap

    constructor (order: seq<int>)
      ensures content == EmptyMap(order)
    {
      content := EmptyMap(order);
    }

    method SetString(tag: int, value: string)
      modifies this
      ensures content == WithString(old(content), tag, value)
    {
      content := WithString(content, tag, value);
    }

    method AddGroup(tag: int, group: WireMap)
      modifies this
      ensures content == WithGroup(old(content), tag, group)
    {
      content := WithGroup(content, tag, group);
    }
  }
}
