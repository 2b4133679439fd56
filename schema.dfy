/**
  The codec's view of an Orchestra repository: a tree of `FixField` nodes per
  message section, built by resolving the repository's references, and the
  wire order of the tags in each section.
 */
module Schema {
  import opened Wrappers
  import opened Text
  import opened LinkedMaps
  import opened Orchestra

  const HeaderComponent := "StandardHeader"
  const HeaderField := "header"
  const TrailerComponent := "StandardTrailer"
  const TrailerField := "trailer"

  /** Kotlin's `single` on an empty match, and on a second match. */
  const NoMatch := "Collection contains no element matching the predicate."
  const ManyMatches := "Collection contains more than one matching element."

  /** The failure of a resolution deeper than the fuel allows (a cyclic repository overflows the stack). */
  const DepthExceeded := "StackOverflowError"

  /** The four names that encode and decode never treat as fields. */
  predicate IsReserved(name: string) {
    name == HeaderComponent || name == HeaderField || name == TrailerComponent || name == TrailerField
  }

  /** The BeginString (tag 8) of messages built from a repository of this version. */
  function BeginString(version: string): (r: string)
    ensures r == version <==> !StartsWith(version, "FIX.5")
    ensures r != version ==> r == "FIXT.1.1"
    ensures !StartsWith(r, "FIX.5")
  {
    assert "FIXT.1.1"[..5][3] != "FIX.5"[3];
    if StartsWith(version, "FIX.5") then "FIXT.1.1" else version
  }

  /** `BigInteger.toInt()`: the low 32 bits, read as a two's-complement `Int`. */
  function ToInt32(n: int): (r: int)
    ensures -0x8000_0000 <= r < 0x8000_0000
    ensures (r - n) % 0x1_0000_0000 == 0
    ensures -0x8000_0000 <= n < 0x8000_0000 ==> r == n
  {
    var low := n % 0x1_0000_0000;
    if low >= 0x8000_0000 then low - 0x1_0000_0000 else low
  }

  /** Which of `isField`, `isGroup` and `isComponent` a node has; resolution sets exactly one. */
  datatype Kind = FieldKind | GroupKind | ComponentKind

  /**
    A node of the resolved schema. `fields` is the node's own field map (keyed
    by `name`), `values` its enum table from symbolic name to wire code.
   */
  datatype FixField = FixField(
    name: string,
    tag: int,
    typ: Option<string>,
    fields: seq<FixField>,
    values: seq<(string, string)>,
    isRequired: bool,
    kind: Kind)
  {
    predicate IsEnum() {
      |values| > 0
    }

    /** The enum table read backwards: wire code to symbolic name. */
    function ReversedValues(): seq<(string, string)> {
      AssociateBy(Inverted(values), Fst)
    }

    function FieldOrder(): seq<int> {
      FieldOrderOf(fields)
    }
  }

  /** The key of a field map. */
  function Name(f: FixField): string {
    f.name
  }

  function Inverted(values: seq<(string, string)>): (r: seq<(string, string)>)
    ensures |r| == |values|
    ensures forall i :: 0 <= i < |values| ==> r[i] == (values[i].1, values[i].0)
  {
    seq(|values|, i requires 0 <= i < |values| => (values[i].1, values[i].0))
  }

  /** The reversed table maps a code to a name exactly when that name maps to the code; the last such name wins. */
  lemma ReversedValuesInverse(f: FixField, code: string)
    ensures var r := Get(f.ReversedValues(), Fst, code);
            && (r.Some? <==> code in Values(f.values))
            && (r.Some? ==> r.value.0 == code && (r.value.1, code) in f.values)
            && (var i := LastIndexOf(Inverted(f.values), Fst, code);
                r == if 0 <= i then Some((code, f.values[i].0)) else None)
  {
    var inv := Inverted(f.values);
    AssociateByGet(inv, Fst, code);
    var i := LastIndexOf(inv, Fst, code);
    if code in Values(f.values) {
      var j :| 0 <= j < |f.values| && Values(f.values)[j] == code;
      assert Fst(inv[j]) == code;
    }
    if 0 <= i {
      assert f.values[i] == (inv[i].1, code);
    }
  }

  /** The wire order of a field map: each node's positive tag, then its children's order. */
  function FieldOrderOf(m: seq<FixField>): seq<int>
    decreases m, 1
  {
    if m == [] then [] else NodeOrder(m[0]) + FieldOrderOf(m[1..])
  }

  function NodeOrder(f: FixField): seq<int>
    decreases f, 0
  {
    (if f.tag > 0 then [f.tag] else []) + FieldOrderOf(f.fields)
  }

  /** Every node of a field map in pre-order: each node before its descendants. */
  function PreOrder(m: seq<FixField>): seq<FixField>
    decreases m
  {
    if m == [] then [] else [m[0]] + PreOrder(m[0].fields) + PreOrder(m[1..])
  }

  /** The positive tags of a list of nodes, in list order. */
  function PositiveTags(ns: seq<FixField>): (r: seq<int>)
    ensures |r| <= |ns|
    ensures forall i :: 0 <= i < |r| ==> r[i] > 0
  {
    if ns == [] then []
    else (if ns[0].tag > 0 then [ns[0].tag] else []) + PositiveTags(ns[1..])
  }

  lemma {:induction false} PositiveTagsAppend(a: seq<FixField>, b: seq<FixField>)
    ensures PositiveTags(a + b) == PositiveTags(a) + PositiveTags(b)
    decreases |a|
  {
    if a == [] {
      assert a + b == b;
    } else {
      assert (a + b)[0] == a[0] && (a + b)[1..] == a[1..] + b;
      PositiveTagsAppend(a[1..], b);
    }
  }

  /** The wire order is exactly the positive tags of the tree read in pre-order. */
  lemma {:induction false} FieldOrderIsPreOrder(m: seq<FixField>)
    ensures FieldOrderOf(m) == PositiveTags(PreOrder(m))
    decreases m
  {
    if m != [] {
      FieldOrderIsPreOrder(m[0].fields);
      FieldOrderIsPreOrder(m[1..]);
      PositiveTagsAppend([m[0]] + PreOrder(m[0].fields), PreOrder(m[1..]));
      PositiveTagsAppend([m[0]], PreOrder(m[0].fields));
    }
  }

  /** The wire order holds only positive tags, one per node of the tree with a positive tag. */
  lemma FieldOrderPositive(m: seq<FixField>)
    ensures forall i :: 0 <= i < |FieldOrderOf(m)| ==> FieldOrderOf(m)[i] > 0
    ensures |FieldOrderOf(m)| == |PositiveTags(PreOrder(m))|
  {
    FieldOrderIsPreOrder(m);
  }

  predicate AnyRequired(m: seq<FixField>) {
    exists i :: 0 <= i < |m| && m[i].isRequired
  }

  /**
    The shape resolution gives every node: names are unique in each field map,
    a field has no children, groups and components carry no type or enum table,
    components have no tag, and a required component has a required child.
   */
  predicate WellFormed(f: FixField)
    decreases f, 0
  {
    && Distinct(Keys(f.fields, Name))
    && (match f.kind
        case FieldKind => f.fields == []
        case GroupKind => f.values == [] && f.typ.None?
        case ComponentKind => f.tag == 0 && f.values == [] && f.typ.None? && (f.isRequired ==> AnyRequired(f.fields)))
    && AllWellFormed(f.fields)
  }

  predicate AllWellFormed(m: seq<FixField>)
    decreases m, 1
  {
    forall x | x in m :: WellFormed(x)
  }

  /** A well-formed field map has unique names and well-formed nodes. */
  predicate WellFormedMap(m: seq<FixField>) {
    Distinct(Keys(m, Name)) && AllWellFormed(m)
  }

  /** The one element whose id matches, scanning with the match found so far; none or two is an error. */
  function SingleFrom<T>(xs: seq<T>, idOf: T -> int, id: int, found: Option<T>): (r: Result<T>)
    ensures r.Ok? <==> |Matches(xs, idOf, id)| + (if found.Some? then 1 else 0) == 1
    ensures r.Ok? ==> r.value == if found.Some? then found.value else Matches(xs, idOf, id)[0]
    ensures r.Err? ==> r.error == if found.None? && Matches(xs, idOf, id) == [] then NoMatch else ManyMatches
    decreases |xs|
  {
    if xs == [] then
      if found.None? then Err(NoMatch) else Ok(found.value)
    else if idOf(xs[0]) == id then
      if found.Some? then Err(ManyMatches) else SingleFrom(xs[1..], idOf, id, Some(xs[0]))
    else
      SingleFrom(xs[1..], idOf, id, found)
  }

  /** The elements whose id is `id`, in order. */
  function Matches<T>(xs: seq<T>, idOf: T -> int, id: int): (r: seq<T>)
    ensures forall x :: x in r ==> x in xs && idOf(x) == id
    decreases |xs|
  {
    if xs == [] then []
    else (if idOf(xs[0]) == id then [xs[0]] else []) + Matches(xs[1..], idOf, id)
  }

  function Single<T>(xs: seq<T>, idOf: T -> int, id: int): (r: Result<T>)
    ensures r.Ok? ==> r.value in xs && idOf(r.value) == id
  {
    SingleFrom(xs, idOf, id, None)
  }

  /** The first code set of that name, if any. */
  function FindCodeSet(codeSets: seq<CodeSetType>, typ: string): (r: Option<CodeSetType>)
    ensures r.Some? ==> r.value in codeSets && r.value.name == typ
    ensures r.None? <==> forall i :: 0 <= i < |codeSets| ==> codeSets[i].name != typ
    decreases |codeSets|
  {
    if codeSets == [] then None
    else if codeSets[0].name == typ then Some(codeSets[0])
    else FindCodeSet(codeSets[1..], typ)
  }

  function CodePairs(codes: seq<Code>): (r: seq<(string, string)>)
    ensures |r| == |codes|
    ensures forall i :: 0 <= i < |codes| ==> r[i] == (codes[i].name, codes[i].value)
  {
    seq(|codes|, i requires 0 <= i < |codes| => (codes[i].name, codes[i].value))
  }

  /** The codes of a code set as a name-to-value map; a later code of the same name wins. */
  function CodeTable(codes: seq<Code>): seq<(string, string)> {
    AssociateBy(CodePairs(codes), Fst)
  }

  /** The enum table maps each code name to the value of the last code of that name, and is empty only for no codes. */
  lemma CodeTableGet(codes: seq<Code>, name: string)
    ensures var i := LastIndexOf(CodePairs(codes), Fst, name);
            Get(CodeTable(codes), Fst, name) == if 0 <= i then Some((name, codes[i].value)) else None
    ensures |CodeTable(codes)| > 0 <==> |codes| > 0
  {
    AssociateByGet(CodePairs(codes), Fst, name);
    AssociateByKeys(CodePairs(codes), Fst);
    if |codes| > 0 {
      assert Fst(CodePairs(codes)[0]) in Keys(CodePairs(codes), Fst);
      assert |Keys(CodeTable(codes), Fst)| > 0;
    }
  }

  /** `toField(FieldRefType)`: a field node, typed by its code set when one is named after its type. */
  function ResolveField(repo: Repository, id: int, presence: Presence): (r: Result<FixField>)
    ensures r.Ok? <==> Single(repo.fields, FieldTypeId, id).Ok?
    ensures r.Ok? ==> WellFormed(r.value) && r.value.kind == FieldKind
  {
    var field :- Single(repo.fields, FieldTypeId, id);
    var codeSet := FindCodeSet(repo.codeSets, field.typ);
    var typ := if codeSet.Some? && codeSet.value.typ.Some? then codeSet.value.typ.value else field.typ;
    var values := if codeSet.Some? then CodeTable(codeSet.value.codes) else [];
    Ok(FixField(field.name, ToInt32(field.id), Some(typ), [], values, presence == Required, FieldKind))
  }

  /**
    A field reference resolves to a field node with the field's name and tag,
    required exactly when the reference says so, typed by the code set named
    after the field's type when there is one, and an enum exactly when that
    code set has codes.
   */
  lemma ResolvedFieldReference(repo: Repository, id: int, presence: Presence)
    requires Single(repo.fields, FieldTypeId, id).Ok?
    ensures var field := Single(repo.fields, FieldTypeId, id).value;
            var codeSet := FindCodeSet(repo.codeSets, field.typ);
            var f := ResolveField(repo, id, presence).value;
            && field.id == id
            && f.name == field.name && f.tag == ToInt32(id) && f.kind == FieldKind
            && (f.isRequired <==> presence == Required)
            && (codeSet.None? ==> f.typ == Some(field.typ) && !f.IsEnum())
            && (codeSet.Some? ==> f.typ == Some(if codeSet.value.typ.Some? then codeSet.value.typ.value else field.typ))
            && (codeSet.Some? ==> (f.IsEnum() <==> |codeSet.value.codes| > 0))
  {
    var field := Single(repo.fields, FieldTypeId, id).value;
    var codeSet := FindCodeSet(repo.codeSets, field.typ);
    if codeSet.Some? {
      CodeTableGet(codeSet.value.codes, "");
    }
  }

  /**
    `toField(ComponentRefType)`: the component's children directly when
    inlining (except for the header and trailer components), otherwise one
    component node around them.
   */
  function ResolveComponent(repo: Repository, id: int, presence: Presence, inline: bool, fuel: nat): (r: Result<seq<FixField>>)
    ensures r.Ok? ==> AllWellFormed(r.value)
    decreases fuel, 1
  {
    if fuel == 0 then Err(DepthExceeded)
    else
      var component :- Single(repo.components, ComponentTypeId, id);
      ResolveComponentOf(repo, component, presence, inline, fuel - 1)
  }

  /** A found component: its members resolved with the fuel left, then `ComponentNodes` around them. */
  function ResolveComponentOf(repo: Repository, component: ComponentType, presence: Presence, inline: bool, fuel: nat): (r: Result<seq<FixField>>)
    ensures r.Ok? ==> AllWellFormed(r.value)
    decreases fuel, 5
  {
    var fields :- ResolveFieldMap(repo, component.members, inline, fuel);
    Ok(ComponentNodes(component, fields, presence, inline))
  }

  /** The nodes a resolved component stands for: its children when inlining it, else one component node around them. */
  function ComponentNodes(component: ComponentType, fields: seq<FixField>, presence: Presence, inline: bool): (r: seq<FixField>)
    requires WellFormedMap(fields)
    ensures AllWellFormed(r)
    ensures inline && component.name != HeaderComponent && component.name != TrailerComponent ==> r == fields
    ensures !inline || component.name == HeaderComponent || component.name == TrailerComponent ==>
              |r| == 1 && r[0].kind == ComponentKind && r[0].name == component.name && r[0].fields == fields
              && (r[0].isRequired <==> presence == Required && AnyRequired(fields))
  {
    if inline && component.name != HeaderComponent && component.name != TrailerComponent then fields
    else [FixField(component.name, 0, None, fields, [], presence == Required && AnyRequired(fields), ComponentKind)]
  }

  /**
    `toField(GroupRefType)`: a group node named and tagged after the group's
    counter field, wrapped in a component named after the group unless
    inlining.
   */
  function ResolveGroup(repo: Repository, id: int, presence: Presence, inline: bool, fuel: nat): (r: Result<FixField>)
    ensures r.Ok? ==> WellFormed(r.value)
    decreases fuel, 1
  {
    if fuel == 0 then Err(DepthExceeded)
    else
      var group :- Single(repo.groups, GroupTypeId, id);
      ResolveGroupOf(repo, group, presence, inline, fuel - 1)
  }

  /** A found group: its counter field, then its members resolved with the fuel left, then `GroupNode` around them. */
  function ResolveGroupOf(repo: Repository, group: GroupType, presence: Presence, inline: bool, fuel: nat): (r: Result<FixField>)
    ensures r.Ok? ==> WellFormed(r.value)
    decreases fuel, 5
  {
    var counter :- Single(repo.fields, FieldTypeId, group.numInGroup);
    var fields :- ResolveFieldMap(repo, group.members, inline, fuel);
    Ok(GroupNode(group, counter, fields, presence, inline))
  }

  /** The node a resolved group stands for: the counter's group node, wrapped in a component unless inlining. */
  function GroupNode(group: GroupType, counter: FieldType, fields: seq<FixField>, presence: Presence, inline: bool): (r: FixField)
    requires WellFormedMap(fields)
    ensures WellFormed(r)
    ensures !inline ==> |r.fields| == 1
    ensures var node := if inline then r else r.fields[0];
            && node.kind == GroupKind && node.name == counter.name && node.tag == ToInt32(counter.id)
            && (node.isRequired <==> presence == Required) && node.fields == fields
            && (!inline ==> r.kind == ComponentKind && r.name == group.name && r.fields == [node] && r.isRequired == node.isRequired)
  {
    var node := FixField(counter.name, ToInt32(counter.id), None, fields, [], presence == Required, GroupKind);
    if inline then node
    else
      assert Keys([node], Name) == [node.name];
      assert WellFormed(node);
      assert node.isRequired ==> [node][0].isRequired;
      FixField(group.name, 0, None, [node], [], presence == Required, ComponentKind)
  }

  /** The dispatcher `toField(Any)`: the nodes one member reference stands for. */
  function ResolveRef(repo: Repository, ref: MemberRef, inline: bool, fuel: nat): (r: Result<seq<FixField>>)
    ensures r.Ok? ==> AllWellFormed(r.value)
    decreases fuel, 2
  {
    match ref
    case FieldRef(id, presence) =>
      var f :- ResolveField(repo, id, presence);
      Ok([f])
    case GroupRef(id, presence) =>
      var g :- ResolveGroup(repo, id, presence, inline, fuel);
      Ok([g])
    case ComponentRef(id, presence) =>
      ResolveComponent(repo, id, presence, inline, fuel)
  }

  /** The nodes of each reference put into the accumulated map by name, reference after reference. */
  function ResolveOnto(repo: Repository, acc: seq<FixField>, refs: seq<MemberRef>, inline: bool, fuel: nat): (r: Result<seq<FixField>>)
    requires WellFormedMap(acc)
    ensures r.Ok? ==> WellFormedMap(r.value)
    decreases fuel, 3, |refs|
  {
    if refs == [] then Ok(acc)
    else
      var nodes :- ResolveRef(repo, refs[0], inline, fuel);
      PutAllWellFormed(acc, nodes);
      ResolveOnto(repo, PutAll(acc, Name, nodes), refs[1..], inline, fuel)
  }

  /** `toFieldMap`: the field map of a list of member references. */
  function ResolveFieldMap(repo: Repository, refs: seq<MemberRef>, inline: bool, fuel: nat): (r: Result<seq<FixField>>)
    ensures r.Ok? ==> WellFormedMap(r.value)
    decreases fuel, 4
  {
    assert Keys([], Name) == [];
    ResolveOnto(repo, [], refs, inline, fuel)
  }

  lemma PutAllWellFormed(m: seq<FixField>, nodes: seq<FixField>)
    requires WellFormedMap(m) && AllWellFormed(nodes)
    ensures WellFormedMap(PutAll(m, Name, nodes))
  {
    PutAllFrom(m, Name, nodes);
    PutAllKeys(m, Name, nodes);
  }

  /** The nodes of a list of references, concatenated: the `flatMap` before `associateBy`. */
  function ResolveRefs(repo: Repository, refs: seq<MemberRef>, inline: bool, fuel: nat): Result<seq<FixField>>
    decreases |refs|
  {
    if refs == [] then Ok([])
    else
      var nodes :- ResolveRef(repo, refs[0], inline, fuel);
      var rest :- ResolveRefs(repo, refs[1..], inline, fuel);
      Ok(nodes + rest)
  }

  /** Putting the references one by one is `associateBy` on the concatenation of their nodes. */
  lemma {:induction false} ResolveOntoIsAssociate(repo: Repository, acc: seq<FixField>, refs: seq<MemberRef>, inline: bool, fuel: nat)
    requires WellFormedMap(acc)
    ensures ResolveOnto(repo, acc, refs, inline, fuel).Ok? <==> ResolveRefs(repo, refs, inline, fuel).Ok?
    ensures ResolveOnto(repo, acc, refs, inline, fuel).Ok? ==>
              ResolveOnto(repo, acc, refs, inline, fuel).value == PutAll(acc, Name, ResolveRefs(repo, refs, inline, fuel).value)
    decreases |refs|
  {
    if refs != [] {
      var nodes := ResolveRef(repo, refs[0], inline, fuel);
      if nodes.Ok? {
        PutAllWellFormed(acc, nodes.value);
        ResolveOntoIsAssociate(repo, PutAll(acc, Name, nodes.value), refs[1..], inline, fuel);
        var rest := ResolveRefs(repo, refs[1..], inline, fuel);
        if rest.Ok? {
          PutAllAppend(acc, Name, nodes.value, rest.value);
        }
      }
    }
  }

  /**
    On duplicate names the field map keeps the LAST node resolved under that
    name, at the position of the first.
   */
  lemma FieldMapKeepsLast(repo: Repository, refs: seq<MemberRef>, inline: bool, fuel: nat, name: string)
    requires ResolveRefs(repo, refs, inline, fuel).Ok?
    ensures ResolveFieldMap(repo, refs, inline, fuel).Ok?
    ensures var nodes := ResolveRefs(repo, refs, inline, fuel).value;
            var i := LastIndexOf(nodes, Name, name);
            && Get(ResolveFieldMap(repo, refs, inline, fuel).value, Name, name) == (if 0 <= i then Some(nodes[i]) else None)
            && Keys(ResolveFieldMap(repo, refs, inline, fuel).value, Name) == DedupOnto([], Keys(nodes, Name))
  {
    assert Keys([], Name) == [];
    ResolveOntoIsAssociate(repo, [], refs, inline, fuel);
    var nodes := ResolveRefs(repo, refs, inline, fuel).value;
    AssociateByGet(nodes, Name, name);
    AssociateByKeys(nodes, Name);
  }

  /**
    A component reference yields the component's children when inlining a
    component other than the header or trailer; otherwise it yields one
    component node holding them, required exactly when the reference is
    required and some child is.
   */
  lemma ComponentReference(repo: Repository, id: int, presence: Presence, inline: bool, fuel: nat)
    requires ResolveComponent(repo, id, presence, inline, fuel).Ok?
    ensures fuel > 0 && Single(repo.components, ComponentTypeId, id).Ok?
    ensures ResolveFieldMap(repo, Single(repo.components, ComponentTypeId, id).value.members, inline, fuel - 1).Ok?
    ensures var component := Single(repo.components, ComponentTypeId, id).value;
            var children := ResolveFieldMap(repo, component.members, inline, fuel - 1).value;
            var r := ResolveComponent(repo, id, presence, inline, fuel).value;
            && fuel > 0
            && (inline && component.name != HeaderComponent && component.name != TrailerComponent ==> r == children)
            && (!inline || component.name == HeaderComponent || component.name == TrailerComponent ==>
                  |r| == 1 && r[0].kind == ComponentKind && r[0].name == component.name && r[0].fields == children
                  && (r[0].isRequired <==> presence == Required && exists c :: c in children && c.isRequired))
  {
    var component := Single(repo.components, ComponentTypeId, id).value;
    var children := ResolveFieldMap(repo, component.members, inline, fuel - 1).value;
    if AnyRequired(children) {
      var i :| 0 <= i < |children| && children[i].isRequired;
      assert children[i] in children;
    }
  }

  /**
    A group reference yields a group node named and tagged after the counter
    field; when not inlining, it is wrapped in a component named after the
    group whose only entry is that node.
   */
  lemma GroupReference(repo: Repository, id: int, presence: Presence, inline: bool, fuel: nat)
    requires ResolveGroup(repo, id, presence, inline, fuel).Ok?
    ensures fuel > 0 && Single(repo.groups, GroupTypeId, id).Ok?
    ensures Single(repo.fields, FieldTypeId, Single(repo.groups, GroupTypeId, id).value.numInGroup).Ok?
    ensures ResolveFieldMap(repo, Single(repo.groups, GroupTypeId, id).value.members, inline, fuel - 1).Ok?
    ensures !inline ==> |ResolveGroup(repo, id, presence, inline, fuel).value.fields| == 1
    ensures var group := Single(repo.groups, GroupTypeId, id).value;
            var counter := Single(repo.fields, FieldTypeId, group.numInGroup).value;
            var r := ResolveGroup(repo, id, presence, inline, fuel).value;
            var node := if inline then r else r.fields[0];
            && fuel > 0
            && counter.id == group.numInGroup
            && node.kind == GroupKind && node.name == counter.name && node.tag == ToInt32(counter.id)
            && (node.isRequired <==> presence == Required)
            && node.fields == ResolveFieldMap(repo, group.members, inline, fuel - 1).value
            && (!inline ==> r.kind == ComponentKind && r.name == group.name && r.fields == [node] && r.isRequired == node.isRequired)
  {
  }

  /** A section of a message: a field map and its wire order. */
  datatype FixMessage = FixMessage(
    name: string,
    msgType: string,
    header: seq<FixField>,
    body: seq<FixField>,
    trailer: seq<FixField>)
  {
    function HeaderFieldOrder(): seq<int> { FieldOrderOf(header) }
    function BodyFieldOrder(): seq<int> { FieldOrderOf(body) }
    function TrailerFieldOrder(): seq<int> { FieldOrderOf(trailer) }
  }

  function MessageTypeName(m: MessageType): string {
    m.name
  }

  /** The message type of the first message of that name; no such message is an error. */
  function FirstMsgType(messages: seq<MessageType>, name: string): (r: Result<string>)
    ensures r.Ok? <==> exists i :: 0 <= i < |messages| && messages[i].name == name
    ensures r.Err? ==> r.error == NoMatch
    decreases |messages|
  {
    if messages == [] then Err(NoMatch)
    else if messages[0].name == name then Ok(messages[0].msgType)
    else
      var r := FirstMsgType(messages[1..], name);
      assert r.Ok? ==> exists i :: 0 <= i < |messages| && messages[i].name == name by {
        if r.Ok? {
          var i :| 0 <= i < |messages[1..]| && messages[1..][i].name == name;
          assert messages[i + 1].name == name;
        }
      }
      r
  }

  /** The merged field map of every message with a given name: `messageFields` after the `forEach`. */
  function MergeMessages(repo: Repository, messages: seq<MessageType>, merged: seq<(string, seq<FixField>)>, inline: bool, fuel: nat): (r: Result<seq<(string, seq<FixField>)>>)
    requires forall p | p in merged :: WellFormedMap(p.1)
    ensures r.Ok? ==> forall p | p in r.value :: WellFormedMap(p.1)
    decreases |messages|
  {
    if messages == [] then Ok(merged)
    else
      var merged' :- MergeMessage(repo, messages[0], merged, inline, fuel);
      MergeMessages(repo, messages[1..], merged', inline, fuel)
  }

  /** One step of the `forEach`: resolve a message's members onto the field map kept for its name. */
  function MergeMessage(repo: Repository, message: MessageType, merged: seq<(string, seq<FixField>)>, inline: bool, fuel: nat): (r: Result<seq<(string, seq<FixField>)>>)
    requires forall p | p in merged :: WellFormedMap(p.1)
    ensures r.Ok? ==> forall p | p in r.value :: WellFormedMap(p.1)
    ensures r.Ok? ==> Keys(r.value, Fst) == if message.name in Keys(merged, Fst) then Keys(merged, Fst) else Keys(merged, Fst) + [message.name]
  {
    var found := Get(merged, Fst, message.name);
    var fields := match found case Some(p) => p.1 case None => [];
    assert Keys([], Name) == [];
    var fields' :- ResolveOnto(repo, fields, message.members, inline, fuel);
    Ok(Put(merged, Fst, (message.name, fields')))
  }

  /** One entry of `mapValues`: lift the header and trailer components out of a merged field map. */
  function BuildMessage(repo: Repository, name: string, fields: seq<FixField>): Result<FixMessage> {
    var msgType :- FirstMsgType(repo.messages, name);
    match Get(fields, Name, HeaderComponent)
    case None => Err("No header in message: " + name)
    case Some(header) =>
      var rest := Remove(fields, Name, HeaderComponent);
      match Get(rest, Name, TrailerComponent)
      case None => Err("No trailer in message: " + name)
      case Some(trailer) =>
        var body := Remove(rest, Name, TrailerComponent);
        Ok(FixMessage(name, msgType, header.fields, body, trailer.fields))
  }

  /**
    A message structure is built exactly when the merged field map has both a
    header and a trailer component; the header and trailer are their children
    and the body is everything else, in the same order.
   */
  lemma HeaderAndTrailerLifted(repo: Repository, name: string, fields: seq<FixField>)
    ensures var r := BuildMessage(repo, name, fields);
            && (r.Ok? <==> FirstMsgType(repo.messages, name).Ok? && HeaderComponent in Keys(fields, Name) && TrailerComponent in Keys(fields, Name))
            && (FirstMsgType(repo.messages, name).Ok? && HeaderComponent !in Keys(fields, Name) ==> r == Err("No header in message: " + name))
            && (FirstMsgType(repo.messages, name).Ok? && HeaderComponent in Keys(fields, Name) && TrailerComponent !in Keys(fields, Name) ==>
                  r == Err("No trailer in message: " + name))
            && (r.Ok? ==>
                  && r.value.name == name && r.value.msgType == FirstMsgType(repo.messages, name).value
                  && r.value.header == Get(fields, Name, HeaderComponent).value.fields
                  && r.value.trailer == Get(fields, Name, TrailerComponent).value.fields
                  && (forall k :: k != HeaderComponent && k != TrailerComponent ==> Get(r.value.body, Name, k) == Get(fields, Name, k))
                  && (Distinct(Keys(fields, Name)) ==> HeaderComponent !in Keys(r.value.body, Name) && TrailerComponent !in Keys(r.value.body, Name)))
  {
  }

  /**
    `f` applied to every element in order, stopping at the first failure, as
    a Kotlin `map` whose lambda may throw: element `i` of the result is
    `f(xs[i])`, and the whole fails, with the first failure, exactly when
    some element fails.
   */
  function MapAll<X, Y>(f: X -> Result<Y>, xs: seq<X>): (r: Result<seq<Y>>)
    ensures r.Ok? ==> |r.value| == |xs| && forall i :: 0 <= i < |xs| ==> f(xs[i]) == Ok(r.value[i])
    ensures r.Ok? <==> forall i :: 0 <= i < |xs| ==> f(xs[i]).Ok?
    ensures r.Err? ==> exists i :: 0 <= i < |xs| && f(xs[i]) == Err(r.error) && forall j :: 0 <= j < i ==> f(xs[j]).Ok?
    decreases |xs|
  {
    if xs == [] then Ok([])
    else
      var y :- f(xs[0]);
      var rest :- MapAll(f, xs[1..]);
      assert forall i :: 0 < i < |xs| ==> xs[1..][i - 1] == xs[i];
      Ok([y] + rest)
  }

  /** One entry of `mapValues`: the name with its built message. */
  function BuildNamed(repo: Repository, entry: (string, seq<FixField>)): (r: Result<(string, FixMessage)>)
    ensures r.Ok? <==> BuildMessage(repo, entry.0, entry.1).Ok?
    ensures r.Ok? ==> r.value == (entry.0, BuildMessage(repo, entry.0, entry.1).value)
    ensures r.Err? ==> r.error == BuildMessage(repo, entry.0, entry.1).error
  {
    var m :- BuildMessage(repo, entry.0, entry.1);
    Ok((entry.0, m))
  }

  /**
    `mapValues` over the merged field maps, in map order: entry `i` of the
    result is the name of merged entry `i` with the message built from it,
    and the whole fails, with the first failure in map order, exactly when
    one of the entries fails to build.
   */
  function BuildMessages(repo: Repository, merged: seq<(string, seq<FixField>)>): (r: Result<seq<(string, FixMessage)>>)
    ensures r.Ok? ==> |r.value| == |merged| && forall i :: 0 <= i < |merged| ==> BuildNamed(repo, merged[i]) == Ok(r.value[i])
    ensures r.Ok? <==> forall i :: 0 <= i < |merged| ==> BuildNamed(repo, merged[i]).Ok?
    ensures r.Err? ==> exists i :: 0 <= i < |merged| && BuildNamed(repo, merged[i]) == Err(r.error) &&
                                  forall j :: 0 <= j < i ==> BuildNamed(repo, merged[j]).Ok?
  {
    MapAll(e => BuildNamed(repo, e), merged)
  }

  /** `prefix` in front of a successful list; a failure unchanged. */
  function Prepend<T>(prefix: seq<T>, r: Result<seq<T>>): Result<seq<T>> {
    match r
    case Ok(rest) => Ok(prefix + rest)
    case Err(e) => Err(e)
  }

  lemma PrependTwice<T>(a: seq<T>, b: seq<T>, r: Result<seq<T>>)
    ensures Prepend(a, Prepend(b, r)) == Prepend(a + b, r)
  {
    if r.Ok? {
      assert a + (b + r.value) == (a + b) + r.value;
    }
  }

  /** `loadMessageStructures`: every message of the repository by name, with header and trailer lifted out. */
  function LoadMessageStructures(repo: Repository, inline: bool, fuel: nat): Result<seq<(string, FixMessage)>> {
    var merged :- MergeMessages(repo, repo.messages, [], inline, fuel);
    BuildMessages(repo, merged)
  }
}
