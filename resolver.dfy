/**
  Schema resolution as the codec runs it: the lookups go through the
  memoising maps `FIELDS`, `COMPONENTS`, `GROUPS` and `CODE_SETS`, and
  `loadMessageStructures` fills a map of field maps message by message.
  Each method computes exactly what the matching function of `Schema`
  specifies; the caches never change a result.
 */
module Resolution {
  import opened Wrappers
  import opened LinkedMaps
  import opened Orchestra
  import opened Schema

  class Resolver {
    const repo: Repository
    /** `FIELDS`, `COMPONENTS` and `GROUPS`: id to repository entry. */
    var fields: map<int, FieldType>
    var components: map<int, ComponentType>
    var groups: map<int, GroupType>
    /** `CODE_SETS`: type name to code set; a failed `find` stores nothing. */
    var codeSets: map<string, CodeSetType>

    /** Every cached entry is what the uncached lookup in this repository gives. */
    ghost predicate Valid()
      reads this
    {
      && (forall id | id in fields :: Single(repo.fields, FieldTypeId, id) == Ok(fields[id]))
      && (forall id | id in components :: Single(repo.components, ComponentTypeId, id) == Ok(components[id]))
      && (forall id | id in groups :: Single(repo.groups, GroupTypeId, id) == Ok(groups[id]))
      && (forall t | t in codeSets :: FindCodeSet(repo.codeSets, t) == Some(codeSets[t]))
    }

    /** The caches only ever gain entries. */
    twostate predicate Grown()
      reads this
    {
      && old(fields).Keys <= fields.Keys
      && old(components).Keys <= components.Keys
      && old(groups).Keys <= groups.Keys
      && old(codeSets).Keys <= codeSets.Keys
    }

    constructor (repo: Repository)
      ensures Valid() && this.repo == repo
      ensures fields == map[] && components == map[] && groups == map[] && codeSets == map[]
    {
      this.repo := repo;
      fields, components, groups, codeSets := map[], map[], map[], map[];
    }

    /** The field cache: the one field with this id, looked up once and remembered. */
    method FieldById(id: int) returns (r: Result<FieldType>)
      requires Valid()
      modifies this`fields
      ensures Valid() && Grown()
      ensures r == Single(repo.fields, FieldTypeId, id)
      ensures fields == if r.Ok? then old(fields)[id := r.value] else old(fields)
    {
      if id in fields {
        r := Ok(fields[id]);
      } else {
        r := Single(repo.fields, FieldTypeId, id);
        if r.Ok? {
          fields := fields[id := r.value];
        }
      }
    }

    method ComponentById(id: int) returns (r: Result<ComponentType>)
      requires Valid()
      modifies this`components
      ensures Valid() && Grown()
      ensures r == Single(repo.components, ComponentTypeId, id)
      ensures components == if r.Ok? then old(components)[id := r.value] else old(components)
    {
      if id in components {
        r := Ok(components[id]);
      } else {
        r := Single(repo.components, ComponentTypeId, id);
        if r.Ok? {
          components := components[id := r.value];
        }
      }
    }

    method GroupById(id: int) returns (r: Result<GroupType>)
      requires Valid()
      modifies this`groups
      ensures Valid() && Grown()
      ensures r == Single(repo.groups, GroupTypeId, id)
      ensures groups == if r.Ok? then old(groups)[id := r.value] else old(groups)
    {
      if id in groups {
        r := Ok(groups[id]);
      } else {
        r := Single(repo.groups, GroupTypeId, id);
        if r.Ok? {
          groups := groups[id := r.value];
        }
      }
    }

    /** The code set cache: the first code set named after the type, looked up once and remembered. */
    method CodeSetByType(typ: string) returns (r: Option<CodeSetType>)
      requires Valid()
      modifies this`codeSets
      ensures Valid() && Grown()
      ensures r == FindCodeSet(repo.codeSets, typ)
      ensures codeSets == if r.Some? then old(codeSets)[typ := r.value] else old(codeSets)
    {
      if typ in codeSets {
        r := Some(codeSets[typ]);
      } else {
        r := FindCodeSet(repo.codeSets, typ);
        if r.Some? {
          codeSets := codeSets[typ := r.value];
        }
      }
    }

    /** `toField(FieldRefType)`. */
    method ToField(id: int, presence: Presence) returns (r: Result<FixField>)
      requires Valid()
      modifies this
      ensures Valid() && Grown()
      ensures r == ResolveField(repo, id, presence)
    {
      var field :- FieldById(id);
      var codeSet := CodeSetByType(field.typ);
      var typ := if codeSet.Some? && codeSet.value.typ.Some? then codeSet.value.typ.value else field.typ;
      var values := if codeSet.Some? then CodeTable(codeSet.value.codes) else [];
      r := Ok(FixField(field.name, ToInt32(field.id), Some(typ), [], values, presence == Required, FieldKind));
    }

    /** `toField(ComponentRefType, inlineComponents)`. */
    method ToComponent(id: int, presence: Presence, inline: bool, fuel: nat) returns (r: Result<seq<FixField>>)
      requires Valid()
      modifies this
      ensures Valid() && Grown()
      ensures r == ResolveComponent(repo, id, presence, inline, fuel)
      decreases fuel, 1
    {
      if fuel == 0 {
        return Err(DepthExceeded);
      }
      var component :- ComponentById(id);
      r := ToComponentOf(component, presence, inline, fuel - 1);
    }

    /** The body of `toField(ComponentRefType)` once the component is found. */
    method ToComponentOf(component: ComponentType, presence: Presence, inline: bool, fuel: nat) returns (r: Result<seq<FixField>>)
      requires Valid()
      modifies this
      ensures Valid() && Grown()
      ensures r == ResolveComponentOf(repo, component, presence, inline, fuel)
      decreases fuel, 5
    {
      var children :- ToFieldMap(component.members, inline, fuel);
      r := Ok(ComponentNodes(component, children, presence, inline));
    }

    /** `toField(GroupRefType, inlineComponents)`. */
    method ToGroup(id: int, presence: Presence, inline: bool, fuel: nat) returns (r: Result<FixField>)
      requires Valid()
      modifies this
      ensures Valid() && Grown()
      ensures r == ResolveGroup(repo, id, presence, inline, fuel)
      decreases fuel, 1
    {
      if fuel == 0 {
        return Err(DepthExceeded);
      }
      var group :- GroupById(id);
      r := ToGroupOf(group, presence, inline, fuel - 1);
    }

    /** The body of `toField(GroupRefType)` once the group is found. */
    method ToGroupOf(group: GroupType, presence: Presence, inline: bool, fuel: nat) returns (r: Result<FixField>)
      requires Valid()
      modifies this
      ensures Valid() && Grown()
      ensures r == ResolveGroupOf(repo, group, presence, inline, fuel)
      decreases fuel, 5
    {
      var counter :- FieldById(group.numInGroup);
      var children :- ToFieldMap(group.members, inline, fuel);
      r := Ok(GroupNode(group, counter, children, presence, inline));
    }

    /** The dispatcher `toField(Any, inlineComponents)`. */
    method ToFields(ref: MemberRef, inline: bool, fuel: nat) returns (r: Result<seq<FixField>>)
      requires Valid()
      modifies this
      ensures Valid() && Grown()
      ensures r == ResolveRef(repo, ref, inline, fuel)
      decreases fuel, 2
    {
      match ref
      case FieldRef(id, presence) =>
        var f :- ToField(id, presence);
        r := Ok([f]);
      case GroupRef(id, presence) =>
        var g :- ToGroup(id, presence, inline, fuel);
        r := Ok([g]);
      case ComponentRef(id, presence) =>
        r := ToComponent(id, presence, inline, fuel);
    }

    /** The references' nodes put into the accumulated map, keyed by name, reference after reference. */
    method AssociateOnto(acc: seq<FixField>, refs: seq<MemberRef>, inline: bool, fuel: nat) returns (r: Result<seq<FixField>>)
      requires Valid() && WellFormedMap(acc)
      modifies this
      ensures Valid() && Grown()
      ensures r == ResolveOnto(repo, acc, refs, inline, fuel)
      decreases fuel, 3
    {
      var m := acc;
      var i := 0;
      assert refs[0..] == refs;
      while i < |refs|
        invariant 0 <= i <= |refs|
        invariant Valid() && Grown() && WellFormedMap(m)
        invariant ResolveOnto(repo, acc, refs, inline, fuel) == ResolveOnto(repo, m, refs[i..], inline, fuel)
      {
        assert refs[i..][0] == refs[i] && refs[i..][1..] == refs[i + 1..];
        var nodes :- ToFields(refs[i], inline, fuel);
        PutAllWellFormed(m, nodes);
        m := PutAll(m, Name, nodes);
        i := i + 1;
      }
      assert refs[i..] == [];
      r := Ok(m);
    }

    /** `toFieldMap`. */
    method ToFieldMap(refs: seq<MemberRef>, inline: bool, fuel: nat) returns (r: Result<seq<FixField>>)
      requires Valid()
      modifies this
      ensures Valid() && Grown()
      ensures r == ResolveFieldMap(repo, refs, inline, fuel)
      decreases fuel, 4
    {
      assert Keys([], Name) == [];
      r := AssociateOnto([], refs, inline, fuel);
    }

    /** The `forEach` of `loadMessageStructures`: one merged field map per message name, in order of first occurrence. */
    method MergeFieldMaps(inline: bool, fuel: nat) returns (r: Result<seq<(string, seq<FixField>)>>)
      requires Valid()
      modifies this
      ensures Valid() && Grown()
      ensures r == MergeMessages(repo, repo.messages, [], inline, fuel)
    {
      var merged: seq<(string, seq<FixField>)> := [];
      var i := 0;
      assert repo.messages[0..] == repo.messages;
      while i < |repo.messages|
        invariant 0 <= i <= |repo.messages|
        invariant Valid() && Grown()
        invariant forall p | p in merged :: WellFormedMap(p.1)
        invariant MergeMessages(repo, repo.messages, [], inline, fuel) == MergeMessages(repo, repo.messages[i..], merged, inline, fuel)
      {
        assert repo.messages[i..][0] == repo.messages[i] && repo.messages[i..][1..] == repo.messages[i + 1..];
        merged :- MergeOne(repo.messages[i], merged, inline, fuel);
        i := i + 1;
      }
      assert repo.messages[i..] == [];
      r := Ok(merged);
    }

    /** One message of the `forEach`: `getOrPut` its name's field map and `associateByTo` its members into it. */
    method MergeOne(message: MessageType, merged: seq<(string, seq<FixField>)>, inline: bool, fuel: nat)
      returns (r: Result<seq<(string, seq<FixField>)>>)
      requires Valid() && forall p | p in merged :: WellFormedMap(p.1)
      modifies this
      ensures Valid() && Grown()
      ensures r == MergeMessage(repo, message, merged, inline, fuel)
    {
      var found := Get(merged, Fst, message.name);
      var fields := match found case Some(p) => p.1 case None => [];
      assert Keys([], Name) == [];
      var fields' :- AssociateOnto(fields, message.members, inline, fuel);
      r := Ok(Put(merged, Fst, (message.name, fields')));
    }

    /** The `mapValues` of `loadMessageStructures`. */
    method BuildAll(merged: seq<(string, seq<FixField>)>) returns (r: Result<seq<(string, FixMessage)>>)
      ensures r == BuildMessages(repo, merged)
    {
      var built: seq<(string, FixMessage)> := [];
      var j := 0;
      assert merged[0..] == merged;
      assert forall x: seq<(string, FixMessage)> :: [] + x == x;
      while j < |merged|
        invariant 0 <= j <= |merged|
        invariant BuildMessages(repo, merged) == Prepend(built, BuildMessages(repo, merged[j..]))
      {
        var rest := merged[j..];
        assert rest[0] == merged[j] && rest[1..] == merged[j + 1..];
        var m := BuildMessage(repo, merged[j].0, merged[j].1);
        if m.Err? {
          return Err(m.error);
        }
        PrependTwice(built, [(merged[j].0, m.value)], BuildMessages(repo, merged[j + 1..]));
        built := built + [(merged[j].0, m.value)];
        j := j + 1;
      }
      assert merged[j..] == [];
      assert built + [] == built;
      r := Ok(built);
    }

    /** `loadMessageStructures`. */
    method LoadMessageStructures(inline: bool, fuel: nat) returns (r: Result<seq<(string, FixMessage)>>)
      requires Valid()
      modifies this
      ensures Valid() && Grown()
      ensures r == Schema.LoadMessageStructures(repo, inline, fuel)
    {
      var merged :- MergeFieldMaps(inline, fuel);
      r := BuildAll(merged);
    }
  }
}
