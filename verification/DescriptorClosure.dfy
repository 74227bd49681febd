/**
 Which top-level messages and enums a service profile keeps.

 Type names are resolved through three dictionaries built from one file, and a
 worklist follows field references from the selected services' method types.

 A reference to a nested message or enum keeps the top-level message around it,
 and everything within that message is then followed too.  The worklist is
 proved to end with the least selection that is closed in this way.
 */
module DescriptorClosure {
  import opened Results

  datatype FieldKind = MessageField | GroupField | EnumField | ScalarField

  datatype Field = Field(name: string, kind: FieldKind, typeName: string)

  datatype EnumValue = EnumValue(name: string, number: int)

  datatype EnumDecl = EnumDecl(name: string, values: seq<EnumValue>)

  /** A field that a file declares for a message of its own or of another file. */
  datatype Extension = Extension(name: string, extendee: string, kind: FieldKind, typeName: string)

  datatype Message = Message(name: string, fields: seq<Field>, enums: seq<EnumDecl>,
                             nested: seq<Message>, extensions: seq<Extension>)

  /** The message and enum declarations of one file, and the prefix of their qualified names. */
  datatype Types = Types(prefix: string, messages: seq<Message>, enums: seq<EnumDecl>)

  // ---------------------------------------------------------------------------
  // Declared names and references
  // ---------------------------------------------------------------------------

  function MessageNames(m: Message, qualified: string): set<string>
    decreases m
  {
    {qualified} + NestedNames(m.nested, qualified)
  }

  function NestedNames(children: seq<Message>, qualified: string): set<string>
    decreases children
  {
    if children == [] then {}
    else MessageNames(children[0], qualified + "." + children[0].name) + NestedNames(children[1..], qualified)
  }

  function OwnEnumNames(enums: seq<EnumDecl>, qualified: string): set<string> {
    if enums == [] then {}
    else OwnEnumNames(enums[..|enums| - 1], qualified) + {qualified + "." + enums[|enums| - 1].name}
  }

  function EnumNames(m: Message, qualified: string): set<string>
    decreases m
  {
    OwnEnumNames(m.enums, qualified) + NestedEnumNames(m.nested, qualified)
  }

  function NestedEnumNames(children: seq<Message>, qualified: string): set<string>
    decreases children
  {
    if children == [] then {}
    else EnumNames(children[0], qualified + "." + children[0].name) + NestedEnumNames(children[1..], qualified)
  }

  function FieldRefs(fields: seq<Field>): seq<string> {
    if fields == [] then []
    else (if fields[0].kind.ScalarField? then [] else [fields[0].typeName]) + FieldRefs(fields[1..])
  }

  /** The type names that fields of a message and of all messages below it mention. */
  function Refs(m: Message): seq<string>
    decreases m
  {
    FieldRefs(m.fields) + NestedRefs(m.nested)
  }

  function NestedRefs(children: seq<Message>): seq<string>
    decreases children
  {
    if children == [] then [] else Refs(children[0]) + NestedRefs(children[1..])
  }

  function ExtensionRefs(extensions: seq<Extension>): set<string> {
    (set e | e in extensions :: e.extendee) + (set e | e in extensions && !e.kind.ScalarField? :: e.typeName)
  }

  /** The type names that extensions declared within a message mention. */
  function InnerExtensionRefs(m: Message): set<string>
    decreases m
  {
    ExtensionRefs(m.extensions) + NestedExtensionRefs(m.nested)
  }

  function NestedExtensionRefs(children: seq<Message>): set<string>
    decreases children
  {
    if children == [] then {} else InnerExtensionRefs(children[0]) + NestedExtensionRefs(children[1..])
  }

  function TopName(types: Types, i: nat): string
    requires i < |types.messages|
  {
    types.prefix + types.messages[i].name
  }

  function MessageDecls(types: Types): seq<set<string>> {
    seq(|types.messages|, i requires 0 <= i < |types.messages| => MessageNames(types.messages[i], TopName(types, i)))
  }

  function NestedEnumDecls(types: Types): seq<set<string>> {
    seq(|types.messages|, i requires 0 <= i < |types.messages| => EnumNames(types.messages[i], TopName(types, i)))
  }

  function TopEnumDecls(types: Types): seq<set<string>> {
    seq(|types.enums|, i requires 0 <= i < |types.enums| => {types.prefix + types.enums[i].name})
  }

  /** A dictionary filled in declaration order keeps the last declaration of a name. */
  function Owner(decls: seq<set<string>>, name: string): (owner: Option<nat>)
    ensures owner.Some? ==> owner.value < |decls| && name in decls[owner.value]
    ensures owner.Some? ==> forall i :: owner.value < i < |decls| ==> name !in decls[i]
    ensures owner.None? ==> forall i :: 0 <= i < |decls| ==> name !in decls[i]
  {
    if decls == [] then None
    else if name in decls[|decls| - 1] then Some(|decls| - 1)
    else Owner(decls[..|decls| - 1], name)
  }

  datatype Target = TopMessage(index: nat) | TopEnum(index: nat) | Imported

  /** The top-level declaration a type name keeps alive. */
  function Resolve(types: Types, name: string): (target: Target)
    ensures target.TopMessage? ==> target.index < |types.messages|
    ensures target.TopEnum? ==> target.index < |types.enums|
  {
    var message := Owner(MessageDecls(types), name);
    if message.Some? then TopMessage(message.value)
    else
      var owner := Owner(NestedEnumDecls(types), name);
      if owner.Some? then
        var top := Owner(MessageDecls(types), TopName(types, owner.value));
        if top.Some? then TopMessage(top.value) else Imported
      else
        var enum := Owner(TopEnumDecls(types), name);
        if enum.Some? then TopEnum(enum.value) else Imported
  }

  // ---------------------------------------------------------------------------
  // The least closed selection
  // ---------------------------------------------------------------------------

  datatype Selection = Selection(messages: set<nat>, enums: set<nat>)

  ghost predicate Covered(types: Types, name: string, s: Selection) {
    match Resolve(types, name)
    case TopMessage(i) => i in s.messages
    case TopEnum(i) => i in s.enums
    case Imported => true
  }

  /** A name the profile needs: a method type, or a reference inside a kept message. */
  ghost predicate Needed(types: Types, roots: set<string>, s: Selection, name: string) {
    || name in roots
    || exists i :: i in s.messages && i < |types.messages| && name in Refs(types.messages[i])
  }

  ghost predicate Closed(types: Types, roots: set<string>, s: Selection) {
    forall name :: Needed(types, roots, s, name) ==> Covered(types, name, s)
  }

  ghost predicate Within(types: Types, s: Selection) {
    && (forall i :: i in s.messages ==> i < |types.messages|)
    && (forall i :: i in s.enums ==> i < |types.enums|)
  }

  ghost predicate Least(types: Types, roots: set<string>, s: Selection) {
    && Within(types, s)
    && Closed(types, roots, s)
    && forall other :: Closed(types, roots, other) ==> s.messages <= other.messages && s.enums <= other.enums
  }

  lemma LeastIsUnique(types: Types, roots: set<string>, s: Selection, t: Selection)
    requires Least(types, roots, s) && Least(types, roots, t)
    ensures s == t
  {
  }

  // ---------------------------------------------------------------------------
  // The dictionaries
  // ---------------------------------------------------------------------------

  function Lookup(m: map<string, nat>, name: string): Option<nat> {
    if name in m then Some(m[name]) else None
  }

  ghost function Assigned(names: set<string>, owner: nat): map<string, nat> {
    map n | n in names :: owner
  }

  lemma AssignedTwice(base: map<string, nat>, a: set<string>, b: set<string>, owner: nat)
    ensures base + Assigned(a, owner) + Assigned(b, owner) == base + Assigned(a + b, owner)
  {
  }

  lemma AssignedOne(name: string, owner: nat)
    ensures Assigned({name}, owner) == map[name := owner]
  {
  }

  /** One more enum of a message is registered. */
  lemma OwnEnumStep(base: map<string, nat>, enums: seq<EnumDecl>, qualified: string, i: nat, owner: nat)
    requires i < |enums|
    ensures base + Assigned(OwnEnumNames(enums[..i], qualified), owner) + map[qualified + "." + enums[i].name := owner]
            == base + Assigned(OwnEnumNames(enums[..i + 1], qualified), owner)
  {
    assert enums[..i + 1][..i] == enums[..i];
    AssignedOne(qualified + "." + enums[i].name, owner);
    AssignedTwice(base, OwnEnumNames(enums[..i], qualified), {qualified + "." + enums[i].name}, owner);
  }

  /** The names below one more nested message are registered. */
  lemma NestedStep(messages: map<string, nat>, enums: map<string, nat>, children: seq<Message>, qualified: string,
          i: nat, owner: nat)
    requires i < |children|
    ensures var name := qualified + "." + children[i].name;
      && messages + Assigned(NestedNames(children[..i], qualified), owner)
         + Assigned(MessageNames(children[i], name), owner)
         == messages + Assigned(NestedNames(children[..i + 1], qualified), owner)
      && enums + Assigned(NestedEnumNames(children[..i], qualified), owner)
         + Assigned(EnumNames(children[i], name), owner)
         == enums + Assigned(NestedEnumNames(children[..i + 1], qualified), owner)
  {
    var name := qualified + "." + children[i].name;
    NestedNamesStep(children, qualified, i);
    AssignedTwice(messages, NestedNames(children[..i], qualified), MessageNames(children[i], name), owner);
    AssignedTwice(enums, NestedEnumNames(children[..i], qualified), EnumNames(children[i], name), owner);
  }

  /** A message's names are its own and those below it. */
  lemma OwnStep(messages: map<string, nat>, enums: map<string, nat>, m: Message, qualified: string, owner: nat)
    ensures messages + map[qualified := owner] + Assigned(NestedNames(m.nested, qualified), owner)
            == messages + Assigned(MessageNames(m, qualified), owner)
    ensures enums + Assigned(OwnEnumNames(m.enums, qualified), owner)
            + Assigned(NestedEnumNames(m.nested, qualified), owner)
            == enums + Assigned(EnumNames(m, qualified), owner)
  {
    AssignedOne(qualified, owner);
    AssignedTwice(messages, {qualified}, NestedNames(m.nested, qualified), owner);
    AssignedTwice(enums, OwnEnumNames(m.enums, qualified), NestedEnumNames(m.nested, qualified), owner);
  }

  /** A dictionary answers as the first declarations say. */
  ghost predicate Answers(m: map<string, nat>, decls: seq<set<string>>) {
    forall t {:trigger Lookup(m, t)} :: Lookup(m, t) == Owner(decls, t)
  }

  lemma AnswersStep(m: map<string, nat>, decls: seq<set<string>>, i: nat)
    requires i < |decls| && Answers(m, decls[..i])
    ensures Answers(m + Assigned(decls[i], i), decls[..i + 1])
  {
    assert decls[..i + 1][..i] == decls[..i];
    forall t ensures Lookup(m + Assigned(decls[i], i), t) == Owner(decls[..i + 1], t) {
      assert Lookup(m, t) == Owner(decls[..i], t);
    }
  }

  class TypeIndex {
    var messageOwners: map<string, nat>
    var nestedEnumOwners: map<string, nat>
    var topLevelEnums: map<string, nat>

    constructor ()
      ensures messageOwners == map[] && nestedEnumOwners == map[] && topLevelEnums == map[]
    {
      messageOwners, nestedEnumOwners, topLevelEnums := map[], map[], map[];
    }

    /** The dictionaries answer as the declarations say. */
    ghost predicate Indexes(types: Types)
      reads this
    {
      && Answers(messageOwners, MessageDecls(types))
      && Answers(nestedEnumOwners, NestedEnumDecls(types))
      && Answers(topLevelEnums, TopEnumDecls(types))
    }

    method RegisterEnums(enums: seq<EnumDecl>, qualified: string, owner: nat)
      modifies this`nestedEnumOwners
      ensures nestedEnumOwners == old(nestedEnumOwners) + Assigned(OwnEnumNames(enums, qualified), owner)
    {
      for i := 0 to |enums|
        invariant nestedEnumOwners == old(nestedEnumOwners) + Assigned(OwnEnumNames(enums[..i], qualified), owner)
      {
        OwnEnumStep(old(nestedEnumOwners), enums, qualified, i, owner);
        var name := qualified + "." + enums[i].name;
        nestedEnumOwners := nestedEnumOwners + map[name := owner];
      }
      assert enums[..|enums|] == enums;
    }

    method RegisterMessage(m: Message, qualified: string, owner: nat)
      modifies this`messageOwners, this`nestedEnumOwners
      ensures messageOwners == old(messageOwners) + Assigned(MessageNames(m, qualified), owner)
      ensures nestedEnumOwners == old(nestedEnumOwners) + Assigned(EnumNames(m, qualified), owner)
      decreases m
    {
      ghost var messages0, enums0 := messageOwners, nestedEnumOwners;
      messageOwners := messageOwners + map[qualified := owner];
      RegisterEnums(m.enums, qualified, owner);
      ghost var messages1, enums1 := messageOwners, nestedEnumOwners;
      for i := 0 to |m.nested|
        invariant messageOwners == messages1 + Assigned(NestedNames(m.nested[..i], qualified), owner)
        invariant nestedEnumOwners == enums1 + Assigned(NestedEnumNames(m.nested[..i], qualified), owner)
      {
        var child := m.nested[i];
        var name := qualified + "." + child.name;
        NestedStep(messages1, enums1, m.nested, qualified, i, owner);
        RegisterMessage(child, name, owner);
      }
      assert m.nested[..|m.nested|] == m.nested;
      OwnStep(messages0, enums0, m, qualified, owner);
    }

    method Register(types: Types)
      requires messageOwners == map[] && nestedEnumOwners == map[] && topLevelEnums == map[]
      modifies this
      ensures Indexes(types)
    {
      ghost var messages, nested, tops := MessageDecls(types), NestedEnumDecls(types), TopEnumDecls(types);
      for i := 0 to |types.messages|
        invariant topLevelEnums == map[]
        invariant Answers(messageOwners, messages[..i])
        invariant Answers(nestedEnumOwners, nested[..i])
      {
        AnswersStep(messageOwners, messages, i);
        AnswersStep(nestedEnumOwners, nested, i);
        RegisterMessage(types.messages[i], TopName(types, i), i);
      }
      assert messages[..|types.messages|] == messages && nested[..|types.messages|] == nested;
      for i := 0 to |types.enums|
        invariant Answers(messageOwners, messages) && Answers(nestedEnumOwners, nested)
        invariant Answers(topLevelEnums, tops[..i])
      {
        AnswersStep(topLevelEnums, tops, i);
        var name := types.prefix + types.enums[i].name;
        assert Assigned(tops[i], i) == map[name := i];
        topLevelEnums := topLevelEnums + map[name := i];
      }
      assert tops[..|types.enums|] == tops;
    }
  }

  lemma {:induction false} NestedNamesStep(children: seq<Message>, qualified: string, i: nat)
    requires i < |children|
    ensures var name := qualified + "." + children[i].name;
      && NestedNames(children[..i + 1], qualified)
           == NestedNames(children[..i], qualified) + MessageNames(children[i], name)
      && NestedEnumNames(children[..i + 1], qualified)
           == NestedEnumNames(children[..i], qualified) + EnumNames(children[i], name)
  {
    if i == 0 {
      assert children[..1] == [children[0]];
    } else {
      NestedNamesStep(children[1..], qualified, i - 1);
      assert children[1..][..i] == children[..i + 1][1..];
      assert children[1..][..i - 1] == children[..i][1..];
    }
  }

  // ---------------------------------------------------------------------------
  // The worklist
  // ---------------------------------------------------------------------------

  /** A pending nested enum is replaced by its owner's name, which is a message name. */
  ghost function Weight(types: Types, name: string): nat {
    if Owner(MessageDecls(types), name).None? && Owner(NestedEnumDecls(types), name).Some? then 2 else 1
  }

  ghost function TotalWeight(types: Types, pending: seq<string>): nat {
    if pending == [] then 0
    else TotalWeight(types, pending[..|pending| - 1]) + Weight(types, pending[|pending| - 1])
  }

  /** An owner's own qualified name is registered before anything below it. */
  lemma TopNameIsDeclared(types: Types, i: nat)
    requires i < |types.messages|
    ensures Owner(MessageDecls(types), TopName(types, i)).Some?
    ensures Resolve(types, TopName(types, i)).TopMessage?
  {
    assert TopName(types, i) in MessageDecls(types)[i];
  }

  /** The owner's name a nested enum leads to, if the name is one. */
  ghost function Hop(types: Types, name: string): Option<string> {
    if Owner(MessageDecls(types), name).None? && Owner(NestedEnumDecls(types), name).Some?
    then Some(TopName(types, Owner(NestedEnumDecls(types), name).value)) else None
  }

  lemma HopResolvesAlike(types: Types, name: string)
    requires Hop(types, name).Some?
    ensures Resolve(types, name) == Resolve(types, Hop(types, name).value)
    ensures Hop(types, Hop(types, name).value).None?
  {
    TopNameIsDeclared(types, Owner(NestedEnumDecls(types), name).value);
  }

  ghost function UpTo(n: nat): (s: set<nat>)
    ensures forall i :: i in s <==> 0 <= i < n
  {
    if n == 0 then {} else UpTo(n - 1) + {n - 1}
  }

  lemma WeightOf(types: Types, pending: seq<string>, name: string)
    ensures TotalWeight(types, pending + [name]) == TotalWeight(types, pending) + Weight(types, name)
    ensures Weight(types, name) > 0
  {
    assert (pending + [name])[..|pending|] == pending;
  }

  /** Following a nested enum to its owner makes the waiting names lighter. */
  lemma OwnerIsLighter(types: Types, pending: seq<string>, name: string)
    requires Hop(types, name).Some?
    ensures TotalWeight(types, pending + [Hop(types, name).value]) < TotalWeight(types, pending + [name])
  {
    HopResolvesAlike(types, name);
    TopNameIsDeclared(types, Owner(NestedEnumDecls(types), name).value);
    WeightOf(types, pending, name);
    WeightOf(types, pending, Hop(types, name).value);
  }

  /** What is left to keep. */
  ghost function Unkept(types: Types, s: Selection): set<nat> {
    UpTo(|types.messages|) - s.messages
  }

  lemma KeepingLeavesLess(types: Types, s: Selection, i: nat)
    requires i < |types.messages| && i !in s.messages
    ensures Unkept(types, s.(messages := s.messages + {i})) < Unkept(types, s)
  {
    assert i in Unkept(types, s);
  }

  method ListOf(names: set<string>) returns (list: seq<string>)
    ensures forall n :: n in list <==> n in names
  {
    list := [];
    var left := names;
    while left != {}
      invariant left <= names
      invariant forall n :: n in list <==> n in names && n !in left
      decreases left
    {
      var n :| n in left;
      list, left := list + [n], left - {n};
    }
  }

  lemma PushedField(pending: seq<string>, fields: seq<Field>, i: nat)
    requires i < |fields|
    ensures (if fields[i].kind.ScalarField? then pending else pending + [fields[i].typeName])
            + FieldRefs(fields[i + 1..])
            == pending + FieldRefs(fields[i..])
  {
    assert fields[i..][1..] == fields[i + 1..];
  }

  lemma PushedNested(pending: seq<string>, children: seq<Message>, i: nat)
    requires i < |children|
    ensures pending + Refs(children[i]) + NestedRefs(children[i + 1..]) == pending + NestedRefs(children[i..])
  {
    assert children[i..][1..] == children[i + 1..];
  }

  /** The names of one message's fields and of everything nested in it, pushed in declaration order. */
  method PushReferences(before: seq<string>, m: Message) returns (pending: seq<string>)
    ensures pending == before + Refs(m)
    decreases m
  {
    pending := before;
    for i := 0 to |m.fields|
      invariant pending + FieldRefs(m.fields[i..]) == before + FieldRefs(m.fields)
    {
      PushedField(pending, m.fields, i);
      if !m.fields[i].kind.ScalarField? {
        pending := pending + [m.fields[i].typeName];
      }
    }
    ghost var own := pending;
    assert own == before + FieldRefs(m.fields) by {
      assert m.fields[|m.fields|..] == [];
    }
    for i := 0 to |m.nested|
      invariant pending + NestedRefs(m.nested[i..]) == own + NestedRefs(m.nested)
    {
      PushedNested(pending, m.nested, i);
      pending := PushReferences(pending, m.nested[i]);
    }
    assert m.nested[|m.nested|..] == [];
    assert pending == own + NestedRefs(m.nested);
  }

  /** Every needed name was visited or waits. */
  ghost predicate Tracked(types: Types, roots: set<string>, s: Selection, visited: set<string>, pending: seq<string>) {
    forall name :: Needed(types, roots, s, name) ==> name in visited || name in pending
  }

  /** What was visited is covered, at the latest once its owner's name is. */
  ghost predicate Handled(types: Types, s: Selection, visited: set<string>, pending: seq<string>) {
    forall name :: name in visited ==>
      || Covered(types, name, s)
      || (Hop(types, name).Some? && (Hop(types, name).value in visited || Hop(types, name).value in pending))
  }

  /** Nothing was kept, and nothing waits, that some closed selection could do without. */
  ghost predicate Forced(types: Types, roots: set<string>, s: Selection, pending: seq<string>) {
    forall other :: Closed(types, roots, other) ==> ForcedIn(types, s, pending, other)
  }

  ghost predicate ForcedIn(types: Types, s: Selection, pending: seq<string>, other: Selection) {
    && s.messages <= other.messages && s.enums <= other.enums
    && forall name :: name in pending ==> Covered(types, name, other)
  }

  ghost predicate Progress(types: Types, roots: set<string>, s: Selection, visited: set<string>, pending: seq<string>) {
    && Within(types, s)
    && Tracked(types, roots, s, visited, pending)
    && Handled(types, s, visited, pending)
    && Forced(types, roots, s, pending)
  }

  /** Keeping a message makes its references needed, in this selection and in every closed one. */
  lemma KeepMessage(types: Types, roots: set<string>, s: Selection, visited: set<string>, pending: seq<string>,
          name: string, i: nat)
    requires i < |types.messages| && Resolve(types, name) == TopMessage(i)
    requires Progress(types, roots, s, visited, pending + [name])
    ensures Progress(types, roots, s.(messages := s.messages + {i}), visited + {name},
            pending + Refs(types.messages[i]))
  {
    var next := s.(messages := s.messages + {i});
    var waiting := pending + Refs(types.messages[i]);
    forall other | Closed(types, roots, other) ensures ForcedIn(types, next, waiting, other) {
      assert ForcedIn(types, s, pending + [name], other);
      assert name in pending + [name];
      assert i in other.messages;
      forall n | n in waiting ensures Covered(types, n, other) {
        if n in pending {
          assert n in pending + [name];
        } else {
          assert Needed(types, roots, other, n);
        }
      }
    }
    forall n | Needed(types, roots, next, n) ensures n in visited + {name} || n in waiting {
      if Needed(types, roots, s, n) {
        assert n in visited || n in pending + [name];
      }
    }
    HandledStep(types, s, next, visited, pending, name, waiting);
  }

  /** Handling carries over when the visited name is covered or its owner's name waits. */
  lemma HandledStep(types: Types, s: Selection, next: Selection, visited: set<string>, pending: seq<string>,
          name: string, waiting: seq<string>)
    requires Handled(types, s, visited, pending + [name])
    requires s.messages <= next.messages && s.enums <= next.enums
    requires forall n :: n in pending ==> n in waiting
    requires Covered(types, name, next) || (Hop(types, name).Some? && Hop(types, name).value in waiting)
    ensures Handled(types, next, visited + {name}, waiting)
  {
    forall n | n in visited + {name}
      ensures Covered(types, n, next)
        || (Hop(types, n).Some? && (Hop(types, n).value in visited + {name} || Hop(types, n).value in waiting))
    {
      if n in visited && !Covered(types, n, s) {
        assert Hop(types, n).value in visited || Hop(types, n).value in pending + [name];
      }
    }
  }

  /** A name that is covered already, or a top-level enum just kept, needs nothing more. */
  lemma Settle(types: Types, roots: set<string>, s: Selection, next: Selection, visited: set<string>,
          pending: seq<string>, name: string)
    requires Progress(types, roots, s, visited, pending + [name])
    requires Within(types, next) && next.messages == s.messages && s.enums <= next.enums
    requires forall k :: k in next.enums && k !in s.enums ==> Resolve(types, name) == TopEnum(k)
    requires Covered(types, name, next)
    ensures Progress(types, roots, next, visited + {name}, pending)
  {
    forall other | Closed(types, roots, other) ensures ForcedIn(types, next, pending, other) {
      assert ForcedIn(types, s, pending + [name], other);
      assert name in pending + [name];
      assert forall n :: n in pending ==> n in pending + [name];
    }
    forall n | Needed(types, roots, next, n) ensures n in visited + {name} || n in pending {
      assert Needed(types, roots, s, n);
      assert n in visited || n in pending + [name];
    }
    HandledStep(types, s, next, visited, pending, name, pending);
  }

  /** A name that is neither a message's nor a nested enum's is a top-level enum's, or not of the file. */
  lemma SettleTop(types: Types, roots: set<string>, s: Selection, visited: set<string>, pending: seq<string>,
          name: string)
    requires Progress(types, roots, s, visited, pending + [name])
    requires Owner(MessageDecls(types), name).None? && Owner(NestedEnumDecls(types), name).None?
    ensures Progress(types, roots, WithEnum(s, Owner(TopEnumDecls(types), name)), visited + {name}, pending)
  {
    Settle(types, roots, s, WithEnum(s, Owner(TopEnumDecls(types), name)), visited, pending, name);
  }

  function WithEnum(s: Selection, enum: Option<nat>): Selection {
    if enum.Some? then s.(enums := s.enums + {enum.value}) else s
  }

  lemma FollowOwner(types: Types, roots: set<string>, s: Selection, visited: set<string>, pending: seq<string>,
          name: string)
    requires Progress(types, roots, s, visited, pending + [name]) && Hop(types, name).Some?
    ensures Progress(types, roots, s, visited + {name}, pending + [Hop(types, name).value])
  {
    var owner := Hop(types, name).value;
    HopResolvesAlike(types, name);
    forall other | Closed(types, roots, other) ensures ForcedIn(types, s, pending + [owner], other) {
      assert ForcedIn(types, s, pending + [name], other);
      assert name in pending + [name];
      assert forall n :: n in pending ==> n in pending + [name];
    }
    forall n | Needed(types, roots, s, n) ensures n in visited + {name} || n in pending + [owner] {
      assert n in visited || n in pending + [name];
    }
    HandledStep(types, s, s, visited, pending, name, pending + [owner]);
  }

  lemma AlreadyVisited(types: Types, roots: set<string>, s: Selection, visited: set<string>, pending: seq<string>,
          name: string)
    requires Progress(types, roots, s, visited, pending + [name]) && name in visited
    ensures Progress(types, roots, s, visited, pending)
  {
    forall other | Closed(types, roots, other) ensures ForcedIn(types, s, pending, other) {
      assert ForcedIn(types, s, pending + [name], other);
      assert forall n :: n in pending ==> n in pending + [name];
    }
    forall n | Needed(types, roots, s, n) ensures n in visited || n in pending {
      assert n in visited || n in pending + [name];
    }
    forall n | n in visited
      ensures Covered(types, n, s)
        || (Hop(types, n).Some? && (Hop(types, n).value in visited || Hop(types, n).value in pending))
    {
      if !Covered(types, n, s) {
        assert Hop(types, n).value in visited || Hop(types, n).value in pending + [name];
      }
    }
  }

  /** When nothing waits any more the selection is the least closed one. */
  lemma Finished(types: Types, roots: set<string>, s: Selection, visited: set<string>)
    requires Progress(types, roots, s, visited, [])
    ensures Least(types, roots, s)
  {
    forall name | Needed(types, roots, s, name) ensures Covered(types, name, s) {
      assert name in visited;
      if !Covered(types, name, s) {
        HopResolvesAlike(types, name);
        assert Covered(types, Hop(types, name).value, s);
      }
    }
    forall other | Closed(types, roots, other) ensures s.messages <= other.messages && s.enums <= other.enums {
      assert ForcedIn(types, s, [], other);
    }
  }

  lemma Begin(types: Types, roots: set<string>, pending: seq<string>)
    requires forall n :: n in pending <==> n in roots
    ensures Progress(types, roots, Selection({}, {}), {}, pending)
  {
    var s := Selection({}, {});
    forall other | Closed(types, roots, other) ensures ForcedIn(types, s, pending, other) {
      forall n | n in pending ensures Covered(types, n, other) {
        assert Needed(types, roots, other, n);
      }
    }
  }

  /**
   The worklist of the filter.  It terminates although references may be cyclic,
   and keeps exactly the least selection closed under references.
   */
  method Retain(types: Types, index: TypeIndex, roots: set<string>) returns (s: Selection)
    requires index.Indexes(types)
    ensures Least(types, roots, s)
  {
    s := Selection({}, {});
    var visited: set<string> := {};
    var pending := ListOf(roots);
    Begin(types, roots, pending);
    while pending != []
      invariant Progress(types, roots, s, visited, pending)
      decreases Unkept(types, s), TotalWeight(types, pending)
    {
      var name := pending[|pending| - 1];
      ghost var before := pending;
      pending := pending[..|pending| - 1];
      assert before == pending + [name];
      WeightOf(types, pending, name);
      if name in visited {
        AlreadyVisited(types, roots, s, visited, pending, name);
        continue;
      }
      ghost var previous := visited;
      visited := visited + {name};
      assert Lookup(index.messageOwners, name) == Owner(MessageDecls(types), name);
      if name in index.messageOwners {
        var i := index.messageOwners[name];
        if i in s.messages {
          Settle(types, roots, s, s, previous, pending, name);
          continue;
        }
        KeepMessage(types, roots, s, previous, pending, name, i);
        KeepingLeavesLess(types, s, i);
        s := s.(messages := s.messages + {i});
        pending := PushReferences(pending, types.messages[i]);
        continue;
      }
      assert Lookup(index.nestedEnumOwners, name) == Owner(NestedEnumDecls(types), name);
      if name in index.nestedEnumOwners {
        var owner := TopName(types, index.nestedEnumOwners[name]);
        FollowOwner(types, roots, s, previous, pending, name);
        OwnerIsLighter(types, pending, name);
        pending := pending + [owner];
        continue;
      }
      SettleTop(types, roots, s, previous, pending, name);
      assert Lookup(index.topLevelEnums, name) == Owner(TopEnumDecls(types), name);
      if name in index.topLevelEnums {
        s := s.(enums := s.enums + {index.topLevelEnums[name]});
      }
    }
    Finished(types, roots, s, visited);
  }
}
