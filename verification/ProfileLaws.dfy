/**
 What a service profile keeps, in terms of the declarations, methods and fields of the
 file alone: the messages and enums that a chain of mentions from an allowed method
 leads to, and no others.
 */
module ProfileLaws {
  import opened Results
  import opened DescriptorClosure
  import opened DescriptorFilter

  // ---------------------------------------------------------------------------
  // Messages within a message
  // ---------------------------------------------------------------------------

  /** The message that a path of positions leads to. */
  function Below(m: Message, path: seq<nat>): Option<Message>
    decreases |path|
  {
    if path == [] then Some(m)
    else if path[0] >= |m.nested| then None
    else Below(m.nested[path[0]], path[1..])
  }

  /** Its qualified name, if that of `m` is `qualified`. */
  function NameBelow(m: Message, qualified: string, path: seq<nat>): string
    decreases |path|
  {
    if path == [] || path[0] >= |m.nested| then qualified
    else NameBelow(m.nested[path[0]], qualified + "." + m.nested[path[0]].name, path[1..])
  }

  ghost predicate MentionsAt(m: Message, name: string, path: seq<nat>, k: nat) {
    Below(m, path).Some? &&
    var inner := Below(m, path).value;
    && k < |inner.fields| && inner.fields[k].typeName == name
    && (inner.fields[k].kind == MessageField || inner.fields[k].kind == GroupField || inner.fields[k].kind == EnumField)
  }

  /** A field of the message, or of one at any depth within it, is of the type of this name. */
  ghost predicate Mentions(m: Message, name: string) {
    exists path, k: nat :: MentionsAt(m, name, path, k)
  }

  ghost predicate MessageAt(m: Message, qualified: string, name: string, path: seq<nat>) {
    Below(m, path).Some? && NameBelow(m, qualified, path) == name
  }

  ghost predicate EnumAt(m: Message, qualified: string, name: string, path: seq<nat>, k: nat) {
    Below(m, path).Some? && k < |Below(m, path).value.enums|
    && NameBelow(m, qualified, path) + "." + Below(m, path).value.enums[k].name == name
  }

  /** The name is that of the message, of one within it, or of an enum of one of these. */
  ghost predicate Owns(m: Message, qualified: string, name: string) {
    || (exists path :: MessageAt(m, qualified, name, path))
    || (exists path, k: nat :: EnumAt(m, qualified, name, path, k))
  }

  // ---------------------------------------------------------------------------
  // The names of a file
  // ---------------------------------------------------------------------------

  function Start(f: File): string {
    if f.package == "" then "." else "." + f.package + "."
  }

  /** The top-level message `i` of the file declares the name. */
  ghost predicate MessageDeclares(f: File, i: nat, name: string) {
    i < |f.messages| && Owns(f.messages[i], Start(f) + f.messages[i].name, name)
  }

  ghost predicate EnumDeclares(f: File, e: nat, name: string) {
    e < |f.enums| && Start(f) + f.enums[e].name == name
  }

  /** No name is declared twice at the top level, as protoc sees to it. */
  ghost predicate NamesOnce(f: File) {
    && (forall i, j, name :: MessageDeclares(f, i, name) && MessageDeclares(f, j, name) ==> i == j)
    && (forall d, e, name :: EnumDeclares(f, d, name) && EnumDeclares(f, e, name) ==> d == e)
    && (forall i, e, name :: MessageDeclares(f, i, name) ==> !EnumDeclares(f, e, name))
  }

  // ---------------------------------------------------------------------------
  // What methods need
  // ---------------------------------------------------------------------------

  /** An allowed service of the file has a method that takes or returns the name. */
  ghost predicate MethodMentions(f: File, allowed: set<string>, name: string) {
    exists s, r :: MethodMentionsAt(f, allowed, name, s, r)
  }

  /** The service is one of those allowed, by its qualified name. */
  ghost predicate IsAllowed(package: string, service: Service, allowed: set<string>) {
    (if package == "" then service.name else package + "." + service.name) in allowed
  }

  ghost predicate MethodMentionsAt(f: File, allowed: set<string>, name: string, s: nat, r: nat) {
    && s < |f.services| && r < |f.services[s].rpcs| && IsAllowed(f.package, f.services[s], allowed)
    && (f.services[s].rpcs[r].inputType == name || f.services[s].rpcs[r].outputType == name)
  }

  /** Each message of the chain has a field of a type that the next one declares. */
  ghost predicate IsChain(f: File, chain: seq<nat>) {
    && chain != [] && (forall n | 0 <= n < |chain| :: chain[n] < |f.messages|)
    && forall n | 0 <= n < |chain| - 1 :: Leads(f, chain[n], chain[n + 1])
  }

  ghost predicate Leads(f: File, i: nat, j: nat) {
    i < |f.messages| && exists name :: Mentions(f.messages[i], name) && MessageDeclares(f, j, name)
  }

  /** A method of an allowed service leads to the message. */
  ghost predicate Reached(f: File, allowed: set<string>, i: nat) {
    exists chain :: ReachedBy(f, allowed, i, chain)
  }

  ghost predicate ReachedBy(f: File, allowed: set<string>, i: nat, chain: seq<nat>) {
    IsChain(f, chain) && chain[|chain| - 1] == i && Begins(f, allowed, chain[0])
  }

  /** The message declares a type that an allowed method takes or returns. */
  ghost predicate Begins(f: File, allowed: set<string>, i: nat) {
    exists name :: MethodMentions(f, allowed, name) && MessageDeclares(f, i, name)
  }

  /** The enum is the type of such a method, or of a field of a message that is reached. */
  ghost predicate ReachedEnum(f: File, allowed: set<string>, e: nat) {
    exists name :: EnumDeclares(f, e, name) &&
      (MethodMentions(f, allowed, name) || exists i: nat :: ReachedMentions(f, allowed, i, name))
  }

  ghost predicate ReachedMentions(f: File, allowed: set<string>, i: nat, name: string) {
    i < |f.messages| && Reached(f, allowed, i) && Mentions(f.messages[i], name)
  }

  // ---------------------------------------------------------------------------
  // The dictionaries know the names
  // ---------------------------------------------------------------------------

  /** The messages within `m` are `m` and those within its children. */
  lemma {:induction false} RefsAreMentions(m: Message, name: string)
    ensures name in Refs(m) <==> Mentions(m, name)
    decreases m, 1
  {
    FieldRefsAreTypes(m.fields, name);
    NestedRefsAreMentions(m.nested, name);
    if k: nat :| k < |m.fields| && FieldOf(m.fields, k, name) {
      assert MentionsAt(m, name, [], k);
    }
    if c: nat :| c < |m.nested| && Mentions(m.nested[c], name) {
      var path, k: nat :| MentionsAt(m.nested[c], name, path, k);
      assert ([c] + path)[1..] == path;
      assert MentionsAt(m, name, [c] + path, k);
    }
    if path, k: nat :| MentionsAt(m, name, path, k) {
      if path == [] {
        assert FieldOf(m.fields, k, name);
      } else {
        assert MentionsAt(m.nested[path[0]], name, path[1..], k);
      }
    }
  }

  ghost predicate FieldOf(fields: seq<Field>, k: nat, name: string) {
    && k < |fields| && fields[k].typeName == name
    && (fields[k].kind == MessageField || fields[k].kind == GroupField || fields[k].kind == EnumField)
  }

  lemma {:induction false} FieldRefsAreTypes(fields: seq<Field>, name: string)
    ensures name in FieldRefs(fields) <==> exists k: nat :: FieldOf(fields, k, name)
  {
    if fields == [] {
    } else {
      FieldRefsAreTypes(fields[1..], name);
      if k: nat :| FieldOf(fields[1..], k, name) {
        assert FieldOf(fields, k + 1, name);
      }
      if k: nat :| FieldOf(fields, k, name) && k > 0 {
        assert FieldOf(fields[1..], k - 1, name);
      }
      assert name == fields[0].typeName && !fields[0].kind.ScalarField? ==> FieldOf(fields, 0, name);
    }
  }

  lemma {:induction false} NestedRefsAreMentions(children: seq<Message>, name: string)
    ensures name in NestedRefs(children) <==> exists c: nat :: c < |children| && Mentions(children[c], name)
    decreases children, 0
  {
    if children == [] {
    } else {
      RefsAreMentions(children[0], name);
      NestedRefsAreMentions(children[1..], name);
      if c: nat :| c < |children[1..]| && Mentions(children[1..][c], name) {
        assert Mentions(children[c + 1], name);
      }
      if c: nat :| c < |children| && Mentions(children[c], name) && c > 0 {
        assert Mentions(children[1..][c - 1], name);
      }
    }
  }

  lemma {:induction false} MessageNamesAre(m: Message, qualified: string, name: string)
    ensures name in MessageNames(m, qualified) <==> exists path :: MessageAt(m, qualified, name, path)
    decreases m, 1
  {
    NestedNamesAre(m.nested, qualified, name);
    if name == qualified {
      assert MessageAt(m, qualified, name, []);
    }
    if c: nat :| c < |m.nested| && ChildNames(m.nested[c], qualified, name) {
      var child := qualified + "." + m.nested[c].name;
      var path :| MessageAt(m.nested[c], child, name, path);
      assert ([c] + path)[1..] == path;
      assert MessageAt(m, qualified, name, [c] + path);
    }
    if path :| MessageAt(m, qualified, name, path) && path != [] {
      assert MessageAt(m.nested[path[0]], qualified + "." + m.nested[path[0]].name, name, path[1..]);
      assert ChildNames(m.nested[path[0]], qualified, name);
    }
  }

  ghost predicate ChildNames(child: Message, qualified: string, name: string) {
    exists path :: MessageAt(child, qualified + "." + child.name, name, path)
  }

  lemma {:induction false} NestedNamesAre(children: seq<Message>, qualified: string, name: string)
    ensures name in NestedNames(children, qualified)
      <==> exists c: nat :: c < |children| && ChildNames(children[c], qualified, name)
    decreases children, 0
  {
    if children == [] {
    } else {
      MessageNamesAre(children[0], qualified + "." + children[0].name, name);
      NestedNamesAre(children[1..], qualified, name);
      if c: nat :| c < |children[1..]| && ChildNames(children[1..][c], qualified, name) {
        assert ChildNames(children[c + 1], qualified, name);
      }
      if c: nat :| c < |children| && ChildNames(children[c], qualified, name) && c > 0 {
        assert ChildNames(children[1..][c - 1], qualified, name);
      }
    }
  }

  lemma {:induction false} EnumNamesAre(m: Message, qualified: string, name: string)
    ensures name in EnumNames(m, qualified) <==> exists path, k: nat :: EnumAt(m, qualified, name, path, k)
    decreases m, 1
  {
    OwnEnumNamesAre(m.enums, qualified, name);
    NestedEnumNamesAre(m.nested, qualified, name);
    if k: nat :| k < |m.enums| && qualified + "." + m.enums[k].name == name {
      assert EnumAt(m, qualified, name, [], k);
    }
    if c: nat :| c < |m.nested| && ChildEnums(m.nested[c], qualified, name) {
      var path, k: nat :| EnumAt(m.nested[c], qualified + "." + m.nested[c].name, name, path, k);
      assert ([c] + path)[1..] == path;
      assert EnumAt(m, qualified, name, [c] + path, k);
    }
    if path, k: nat :| EnumAt(m, qualified, name, path, k) && path != [] {
      assert EnumAt(m.nested[path[0]], qualified + "." + m.nested[path[0]].name, name, path[1..], k);
      assert ChildEnums(m.nested[path[0]], qualified, name);
    }
  }

  ghost predicate ChildEnums(child: Message, qualified: string, name: string) {
    exists path, k: nat :: EnumAt(child, qualified + "." + child.name, name, path, k)
  }

  lemma {:induction false} OwnEnumNamesAre(enums: seq<EnumDecl>, qualified: string, name: string)
    ensures name in OwnEnumNames(enums, qualified)
      <==> exists k: nat :: k < |enums| && qualified + "." + enums[k].name == name
  {
    if enums == [] {
    } else {
      var n := |enums| - 1;
      OwnEnumNamesAre(enums[..n], qualified, name);
      if k: nat :| k < n && qualified + "." + enums[..n][k].name == name {
        assert enums[k] == enums[..n][k];
      }
      if k: nat :| k < |enums| && qualified + "." + enums[k].name == name && k < n {
        assert enums[k] == enums[..n][k];
      }
    }
  }

  lemma {:induction false} NestedEnumNamesAre(children: seq<Message>, qualified: string, name: string)
    ensures name in NestedEnumNames(children, qualified)
      <==> exists c: nat :: c < |children| && ChildEnums(children[c], qualified, name)
    decreases children, 0
  {
    if children == [] {
    } else {
      EnumNamesAre(children[0], qualified + "." + children[0].name, name);
      NestedEnumNamesAre(children[1..], qualified, name);
      if c: nat :| c < |children[1..]| && ChildEnums(children[1..][c], qualified, name) {
        assert ChildEnums(children[c + 1], qualified, name);
      }
      if c: nat :| c < |children| && ChildEnums(children[c], qualified, name) && c > 0 {
        assert ChildEnums(children[1..][c - 1], qualified, name);
      }
    }
  }

  /** The two dictionaries of messages together have the names that the message declares. */
  lemma DeclsAreOwned(f: File, i: nat, name: string)
    requires i < |f.messages|
    ensures name in MessageDecls(TypesOf(f))[i] || name in NestedEnumDecls(TypesOf(f))[i]
            <==> MessageDeclares(f, i, name)
    ensures MessageDeclares(f, i, TopName(TypesOf(f), i))
  {
    var qualified := Start(f) + f.messages[i].name;
    assert TopName(TypesOf(f), i) == qualified;
    MessageNamesAre(f.messages[i], qualified, name);
    EnumNamesAre(f.messages[i], qualified, name);
    assert MessageAt(f.messages[i], qualified, qualified, []);
  }

  lemma OwnersDeclare(f: File, name: string)
    ensures var o := Owner(MessageDecls(TypesOf(f)), name); o.Some? ==> MessageDeclares(f, o.value, name)
    ensures var types := TypesOf(f);
      var o := Owner(NestedEnumDecls(types), name); o.Some? ==> MessageDeclares(f, o.value, name)
    ensures var types := TypesOf(f);
      (exists i: nat :: MessageDeclares(f, i, name)) ==>
        Owner(MessageDecls(types), name).Some? || Owner(NestedEnumDecls(types), name).Some?
  {
    forall i: nat | i < |f.messages|
      ensures name in MessageDecls(TypesOf(f))[i] || name in NestedEnumDecls(TypesOf(f))[i]
              <==> MessageDeclares(f, i, name)
    {
      DeclsAreOwned(f, i, name);
    }
  }

  lemma UniqueOwner(f: File, i: nat)
    requires NamesOnce(f) && i < |f.messages|
    ensures Owner(MessageDecls(TypesOf(f)), TopName(TypesOf(f), i)) == Some(i)
  {
    var name := TopName(TypesOf(f), i);
    TopNameIsDeclared(TypesOf(f), i);
    OwnersDeclare(f, name);
    DeclsAreOwned(f, i, name);
  }

  lemma NamesOnceResolve(f: File)
    requires NamesOnce(f)
    ensures OwnNamesResolve(TypesOf(f))
  {
    forall i | 0 <= i < |f.messages|
      ensures Owner(MessageDecls(TypesOf(f)), TopName(TypesOf(f), i)) == Some(i)
    {
      UniqueOwner(f, i);
    }
  }

  lemma EnumOwnerDeclares(f: File, name: string)
    ensures var o := Owner(TopEnumDecls(TypesOf(f)), name); o.Some? ==> EnumDeclares(f, o.value, name)
    ensures (exists e: nat :: EnumDeclares(f, e, name)) ==> Owner(TopEnumDecls(TypesOf(f)), name).Some?
  {
    var decls := TopEnumDecls(TypesOf(f));
    assert forall e | 0 <= e < |f.enums| :: name in decls[e] <==> EnumDeclares(f, e, name);
  }

  /** If names are declared once, a name means what declares it. */
  lemma ResolvesToMessage(f: File, name: string, i: nat)
    requires NamesOnce(f)
    ensures Resolve(TypesOf(f), name) == TopMessage(i) <==> MessageDeclares(f, i, name)
  {
    var types := TypesOf(f);
    OwnersDeclare(f, name);
    var nested := Owner(NestedEnumDecls(types), name);
    if nested.Some? {
      UniqueOwner(f, nested.value);
    }
  }

  lemma ResolvesToEnum(f: File, name: string, e: nat)
    requires NamesOnce(f)
    ensures Resolve(TypesOf(f), name) == TopEnum(e) <==> EnumDeclares(f, e, name)
  {
    OwnersDeclare(f, name);
    EnumOwnerDeclares(f, name);
    var nested := Owner(NestedEnumDecls(TypesOf(f)), name);
    if nested.Some? {
      UniqueOwner(f, nested.value);
    }
  }

  // ---------------------------------------------------------------------------
  // What is kept is what is reached
  // ---------------------------------------------------------------------------

  lemma {:induction false} RpcTypesAre(rpcs: seq<Rpc>, name: string)
    ensures name in RpcTypes(rpcs)
            <==> exists r: nat :: r < |rpcs| && (rpcs[r].inputType == name || rpcs[r].outputType == name)
  {
    if rpcs == [] {
    } else {
      var n := |rpcs| - 1;
      RpcTypesAre(rpcs[..n], name);
      if r: nat :| r < n && (rpcs[..n][r].inputType == name || rpcs[..n][r].outputType == name) {
        assert rpcs[r] == rpcs[..n][r];
      }
      if r: nat :| r < |rpcs| && (rpcs[r].inputType == name || rpcs[r].outputType == name) && r < n {
        assert rpcs[r] == rpcs[..n][r];
      }
      assert rpcs[n].inputType == name || rpcs[n].outputType == name ==> name in RpcTypes(rpcs);
    }
  }

  ghost predicate ServiceMentions(service: Service, name: string) {
    exists r: nat :: r < |service.rpcs| && (service.rpcs[r].inputType == name || service.rpcs[r].outputType == name)
  }

  lemma {:induction false} RootsAre(services: seq<Service>, name: string)
    ensures name in Roots(services) <==> exists s: nat :: s < |services| && ServiceMentions(services[s], name)
  {
    if services == [] {
    } else {
      var n := |services| - 1;
      RootsAre(services[..n], name);
      RpcTypesAre(services[n].rpcs, name);
      if s: nat :| s < n && ServiceMentions(services[..n][s], name) {
        assert services[s] == services[..n][s];
      }
      if s: nat :| s < |services| && ServiceMentions(services[s], name) && s < n {
        assert services[s] == services[..n][s];
      }
      assert ServiceMentions(services[n], name) ==> name in Roots(services);
    }
  }

  lemma {:induction false} AllowedAre(services: seq<Service>, package: string, allowed: set<string>, x: Service)
    ensures x in AllowedServices(services, package, allowed)
      <==> x in services && IsAllowed(package, x, allowed)
  {
    if services == [] {
    } else {
      AllowedAre(services[..|services| - 1], package, allowed, x);
      assert services == services[..|services| - 1] + [services[|services| - 1]];
    }
  }

  lemma ProfileRootsAre(f: File, allowed: set<string>, name: string)
    ensures name in ProfileRoots(f, allowed) <==> MethodMentions(f, allowed, name)
  {
    var kept := AllowedServices(f.services, f.package, allowed);
    RootsAre(kept, name);
    if k: nat :| k < |kept| && ServiceMentions(kept[k], name) {
      AllowedAre(f.services, f.package, allowed, kept[k]);
      assert kept[k] in kept;
      KeptServiceMentions(f, allowed, name, kept[k]);
    }
    if s: nat, r: nat :| MethodMentionsAt(f, allowed, name, s, r) {
      AllowedAre(f.services, f.package, allowed, f.services[s]);
      assert f.services[s] in f.services;
      var k :| 0 <= k < |kept| && kept[k] == f.services[s];
      assert ServiceMentions(kept[k], name);
    }
  }

  lemma KeptServiceMentions(f: File, allowed: set<string>, name: string, service: Service)
    requires service in f.services && IsAllowed(f.package, service, allowed) && ServiceMentions(service, name)
    ensures MethodMentions(f, allowed, name)
  {
    var s :| 0 <= s < |f.services| && f.services[s] == service;
    var r: nat :| r < |service.rpcs| && (service.rpcs[r].inputType == name || service.rpcs[r].outputType == name);
    assert MethodMentionsAt(f, allowed, name, s, r);
  }

  /** The messages and enums that are reached. */
  ghost function ReachedIn(f: File, allowed: set<string>): Selection {
    Selection(
      set i: nat | i < |f.messages| && Reached(f, allowed, i),
      set e: nat | e < |f.enums| && ReachedEnum(f, allowed, e))
  }

  lemma MethodReaches(f: File, allowed: set<string>, name: string, i: nat)
    requires MethodMentions(f, allowed, name) && MessageDeclares(f, i, name)
    ensures Reached(f, allowed, i)
  {
    assert ReachedBy(f, allowed, i, [i]);
  }

  lemma FieldReaches(f: File, allowed: set<string>, i: nat, name: string, j: nat)
    requires ReachedMentions(f, allowed, i, name) && MessageDeclares(f, j, name)
    ensures Reached(f, allowed, j)
  {
    var chain :| ReachedBy(f, allowed, i, chain);
    assert Leads(f, i, j);
    ChainGoesOn(f, chain, j);
    assert ReachedBy(f, allowed, j, chain + [j]);
  }

  lemma ChainGoesOn(f: File, chain: seq<nat>, j: nat)
    requires IsChain(f, chain) && Leads(f, chain[|chain| - 1], j) && j < |f.messages|
    ensures IsChain(f, chain + [j])
  {
    var longer := chain + [j];
    forall n | 0 <= n < |longer| - 1 ensures Leads(f, longer[n], longer[n + 1]) {
      if n < |chain| - 1 {
        assert Leads(f, chain[n], chain[n + 1]);
      }
    }
  }

  lemma ReachedIsClosed(f: File, allowed: set<string>)
    requires NamesOnce(f)
    ensures Closed(TypesOf(f), ProfileRoots(f, allowed), ReachedIn(f, allowed))
  {
    var types, roots, reached := TypesOf(f), ProfileRoots(f, allowed), ReachedIn(f, allowed);
    forall name | Needed(types, roots, reached, name) ensures Covered(types, name, reached) {
      if name in roots {
        ProfileRootsAre(f, allowed, name);
        MentionIsCovered(f, allowed, name, None);
      } else {
        var i: nat :| i in reached.messages && i < |types.messages| && name in Refs(types.messages[i]);
        RefsAreMentions(f.messages[i], name);
        MentionIsCovered(f, allowed, name, Some(i));
      }
    }
  }

  /** What a method mentions is reached, and what a message mentions that is. */
  lemma MentionIsCovered(f: File, allowed: set<string>, name: string, via: Option<nat>)
    requires NamesOnce(f)
    requires if via.Some? then ReachedMentions(f, allowed, via.value, name) else MethodMentions(f, allowed, name)
    ensures Covered(TypesOf(f), name, ReachedIn(f, allowed))
  {
    match Resolve(TypesOf(f), name)
    case TopMessage(j) =>
      ResolvesToMessage(f, name, j);
      if via.Some? {
        FieldReaches(f, allowed, via.value, name, j);
      } else {
        MethodReaches(f, allowed, name, j);
      }
    case TopEnum(e) =>
      ResolvesToEnum(f, name, e);
      assert ReachedEnum(f, allowed, e);
    case Imported =>
  }

  lemma BeginIsKept(f: File, allowed: set<string>, s: Selection, i: nat)
    requires NamesOnce(f) && Closed(TypesOf(f), ProfileRoots(f, allowed), s) && Begins(f, allowed, i)
    ensures i in s.messages
  {
    var name :| MethodMentions(f, allowed, name) && MessageDeclares(f, i, name);
    ProfileRootsAre(f, allowed, name);
    ResolvesToMessage(f, name, i);
    assert Needed(TypesOf(f), ProfileRoots(f, allowed), s, name);
  }

  lemma LeadIsKept(f: File, allowed: set<string>, s: Selection, i: nat, j: nat)
    requires NamesOnce(f) && Closed(TypesOf(f), ProfileRoots(f, allowed), s) && Leads(f, i, j) && i in s.messages
    ensures j in s.messages
  {
    var name :| Mentions(f.messages[i], name) && MessageDeclares(f, j, name);
    RefsAreMentions(f.messages[i], name);
    ResolvesToMessage(f, name, j);
    assert Needed(TypesOf(f), ProfileRoots(f, allowed), s, name);
  }

  lemma ChainFront(f: File, chain: seq<nat>)
    requires IsChain(f, chain) && |chain| > 1
    ensures IsChain(f, chain[..|chain| - 1]) && Leads(f, chain[|chain| - 2], chain[|chain| - 1])
    ensures chain[..|chain| - 1][0] == chain[0] && chain[..|chain| - 1][|chain| - 2] == chain[|chain| - 2]
  {
    var front := chain[..|chain| - 1];
    forall n | 0 <= n < |front| - 1 ensures Leads(f, front[n], front[n + 1]) {
      assert Leads(f, chain[n], chain[n + 1]);
    }
    var n := |chain| - 2;
    assert Leads(f, chain[n], chain[n + 1]);
  }

  lemma {:induction false} ChainIsKept(f: File, allowed: set<string>, s: Selection, chain: seq<nat>)
    requires NamesOnce(f) && Closed(TypesOf(f), ProfileRoots(f, allowed), s)
    requires IsChain(f, chain) && Begins(f, allowed, chain[0])
    ensures chain[|chain| - 1] in s.messages
    decreases |chain|
  {
    if |chain| == 1 {
      BeginIsKept(f, allowed, s, chain[0]);
    } else {
      ChainFront(f, chain);
      ChainIsKept(f, allowed, s, chain[..|chain| - 1]);
      LeadIsKept(f, allowed, s, chain[|chain| - 2], chain[|chain| - 1]);
    }
  }

  lemma ReachedIsKept(f: File, allowed: set<string>, s: Selection, i: nat)
    requires NamesOnce(f) && Closed(TypesOf(f), ProfileRoots(f, allowed), s) && Reached(f, allowed, i)
    ensures i in s.messages
  {
    var chain :| ReachedBy(f, allowed, i, chain);
    ChainIsKept(f, allowed, s, chain);
  }

  lemma ReachedEnumIsKept(f: File, allowed: set<string>, s: Selection, e: nat)
    requires NamesOnce(f) && Closed(TypesOf(f), ProfileRoots(f, allowed), s) && ReachedEnum(f, allowed, e)
    ensures e in s.enums
  {
    var name :| EnumDeclares(f, e, name)
                && (MethodMentions(f, allowed, name) || exists i: nat :: ReachedMentions(f, allowed, i, name));
    ResolvesToEnum(f, name, e);
    if MethodMentions(f, allowed, name) {
      ProfileRootsAre(f, allowed, name);
    } else {
      var i: nat :| ReachedMentions(f, allowed, i, name);
      ReachedIsKept(f, allowed, s, i);
      RefsAreMentions(f.messages[i], name);
    }
    assert Needed(TypesOf(f), ProfileRoots(f, allowed), s, name);
  }

  /** The least selection of a file is what the methods of the allowed services lead to. */
  lemma LeastIsReached(f: File, allowed: set<string>, s: Selection)
    requires NamesOnce(f) && Least(TypesOf(f), ProfileRoots(f, allowed), s)
    ensures forall i: nat :: i in s.messages <==> Reached(f, allowed, i)
    ensures forall e: nat :: e in s.enums <==> ReachedEnum(f, allowed, e)
  {
    ReachedIsClosed(f, allowed);
    forall i: nat | Reached(f, allowed, i) ensures i in s.messages {
      ReachedIsKept(f, allowed, s, i);
    }
    forall e: nat | ReachedEnum(f, allowed, e) ensures e in s.enums {
      ReachedEnumIsKept(f, allowed, s, e);
    }
  }

  // ---------------------------------------------------------------------------
  // The profile
  // ---------------------------------------------------------------------------

  /** What the name means in the file is still declared: the same message, or the enum with the values that stay. */
  ghost predicate Survives(f: File, omitted: set<string>, after: File, name: string) {
    && (forall i: nat | MessageDeclares(f, i, name) :: f.messages[i] in after.messages)
    && (forall e: nat | EnumDeclares(f, e, name) :: HasTrimmed(f, e, omitted, after))
  }

  ghost predicate HasTrimmed(f: File, e: nat, omitted: set<string>, after: File) {
    exists k :: 0 <= k < |after.enums| && IsTrimmed(f, e, omitted, after.enums[k])
  }

  /** The enum `e` without the values that are to be omitted. */
  ghost predicate IsTrimmed(f: File, e: nat, omitted: set<string>, trimmed: EnumDecl) {
    && e < |f.enums| && trimmed.name == f.enums[e].name
    && exists at: map<int, nat> :: ValuesStay(f, e, omitted, trimmed.values, at)
  }

  ghost predicate ValuesStay(f: File, e: nat, omitted: set<string>, kept: seq<EnumValue>, at: map<int, nat>)
    requires e < |f.enums|
  {
    var enum := if f.package == "" then f.enums[e].name else f.package + "." + f.enums[e].name;
    && Compacts(f.enums[e].values, kept, at)
    && forall i :: i in at <==> 0 <= i < |f.enums[e].values| && enum + "." + f.enums[e].values[i].name !in omitted
  }

  /** The places of the declarations of a profile: services that are allowed, and what their methods lead to. */
  lemma KeptExactlyReached(f: File, allowed: set<string>, omitted: set<string>, s: Selection, plan: Plan, after: File)
    requires Filtered(f, allowed, omitted, s, plan, after) && NamesOnce(f)
    ensures forall i: nat :: i in plan.messages <==> Reached(f, allowed, i)
    ensures forall e: nat :: e in plan.enums <==> ReachedEnum(f, allowed, e)
    ensures forall i :: i in plan.services <==> 0 <= i < |f.services| && IsAllowed(f.package, f.services[i], allowed)
  {
    LeastIsReached(f, allowed, s);
    KeptExactlySelected(f, allowed, omitted, s, plan, after);
  }

  lemma KeptExactlySelected(f: File, allowed: set<string>, omitted: set<string>, s: Selection, plan: Plan, after: File)
    requires Filtered(f, allowed, omitted, s, plan, after)
    ensures forall i: nat :: i in plan.messages <==> i in s.messages
    ensures forall e: nat :: e in plan.enums <==> e in s.enums
    ensures forall i :: i in plan.services <==> 0 <= i < |f.services| && IsAllowed(f.package, f.services[i], allowed)
  {
  }

  /** A profile has, in order, the messages and enums that are reached and the allowed services, and nothing else. */
  lemma ProfileIsReached(f: File, allowed: set<string>, omitted: set<string>, s: Selection, plan: Plan, after: File)
    requires Filtered(f, allowed, omitted, s, plan, after) && NamesOnce(f)
    ensures Compacts(f.messages, after.messages, plan.messages) && Compacts(f.services, after.services, plan.services)
    ensures forall m ::
      m in after.messages <==> exists i: nat :: i < |f.messages| && f.messages[i] == m && Reached(f, allowed, i)
  {
    KeptExactlyReached(f, allowed, omitted, s, plan, after);
    CompactedAre(f.messages, after.messages, plan.messages);
  }

  lemma CompactedAre<T(!new)>(items: seq<T>, kept: seq<T>, at: map<int, nat>)
    requires Compacts(items, kept, at)
    ensures forall x :: x in kept <==> exists i: nat :: i < |items| && items[i] == x && i in at
  {
    forall k | 0 <= k < |kept| ensures exists i: nat :: i < |items| && items[i] == kept[k] && i in at {
      var i := Origin(items, kept, at, k);
    }
    forall i: nat | i < |items| && i in at ensures items[i] in kept {
      assert kept[at[i]] == items[i];
    }
  }

  lemma TrimmedValuesStay(f: File, e: nat, omitted: set<string>)
    requires e < |f.enums|
    ensures IsTrimmed(f, e, omitted, Trimmed(f.enums[e], f.package, omitted))
  {
    var at := KeptValuesAre(f.enums[e].values, QualifiedName(f.package, f.enums[e].name), omitted);
    assert ValuesStay(f, e, omitted, Trimmed(f.enums[e], f.package, omitted).values, at);
  }

  lemma {:induction false} KeptValuesAre(values: seq<EnumValue>, enum: string, omitted: set<string>)
    returns (at: map<int, nat>)
    ensures Compacts(values, KeptValues(values, enum, omitted), at)
    ensures forall i :: i in at <==> 0 <= i < |values| && enum + "." + values[i].name !in omitted
  {
    if values == [] {
      at := map[];
    } else {
      var n := |values| - 1;
      at := KeptValuesAre(values[..n], enum, omitted);
      var kept := KeptValues(values[..n], enum, omitted);
      CompactsStep(values, kept, at, n);
      assert values[..n + 1] == values;
      if enum + "." + values[n].name !in omitted {
        at := at[n := |kept|];
      }
    }
  }

  lemma NeededSurvives(f: File, allowed: set<string>, omitted: set<string>, s: Selection, plan: Plan, after: File,
          name: string)
    requires Filtered(f, allowed, omitted, s, plan, after) && NamesOnce(f)
    requires MethodMentions(f, allowed, name) || exists i: nat :: ReachedMentions(f, allowed, i, name)
    ensures Survives(f, omitted, after, name)
  {
    forall i: nat | MessageDeclares(f, i, name) ensures f.messages[i] in after.messages {
      MentionReaches(f, allowed, name, i);
      ReachedIsPlaced(f, allowed, omitted, s, plan, after, i);
    }
    forall e: nat | EnumDeclares(f, e, name) ensures HasTrimmed(f, e, omitted, after) {
      assert ReachedEnum(f, allowed, e);
      ReachedEnumIsPlaced(f, allowed, omitted, s, plan, after, e);
    }
  }

  lemma ReachedEnumIsPlaced(f: File, allowed: set<string>, omitted: set<string>, s: Selection, plan: Plan,
          after: File, e: nat)
    requires Filtered(f, allowed, omitted, s, plan, after) && NamesOnce(f) && ReachedEnum(f, allowed, e)
    ensures HasTrimmed(f, e, omitted, after)
  {
    KeptExactlyReached(f, allowed, omitted, s, plan, after);
    EnumIsPlaced(f, omitted, plan, after, e);
  }

  lemma MentionReaches(f: File, allowed: set<string>, name: string, i: nat)
    requires MethodMentions(f, allowed, name) || exists j: nat :: ReachedMentions(f, allowed, j, name)
    requires MessageDeclares(f, i, name)
    ensures Reached(f, allowed, i)
  {
    if MethodMentions(f, allowed, name) {
      MethodReaches(f, allowed, name, i);
    } else {
      var j: nat :| ReachedMentions(f, allowed, j, name);
      FieldReaches(f, allowed, j, name, i);
    }
  }

  lemma ReachedIsPlaced(f: File, allowed: set<string>, omitted: set<string>, s: Selection, plan: Plan, after: File,
          i: nat)
    requires Filtered(f, allowed, omitted, s, plan, after) && NamesOnce(f)
    requires i < |f.messages| && Reached(f, allowed, i)
    ensures f.messages[i] in after.messages
  {
    KeptExactlyReached(f, allowed, omitted, s, plan, after);
    assert i in plan.messages && after.messages[plan.messages[i]] == f.messages[i];
  }

  lemma EnumIsPlaced(f: File, omitted: set<string>, plan: Plan, after: File, e: nat)
    requires PlanPlaces(f, omitted, plan, after) && e in plan.enums
    ensures HasTrimmed(f, e, omitted, after)
  {
    assert after.enums[plan.enums[e]] == TrimmedAll(f.enums, f.package, omitted)[e];
    TrimmedValuesStay(f, e, omitted);
  }

  /** The types that a method of the profile takes and returns are declared in it, if they were in the file. */
  lemma MethodTypesSurvive(f: File, allowed: set<string>, omitted: set<string>, s: Selection, plan: Plan, after: File,
          service: Service, rpc: Rpc)
    requires Filtered(f, allowed, omitted, s, plan, after) && NamesOnce(f)
    requires service in after.services && rpc in service.rpcs
    ensures Survives(f, omitted, after, rpc.inputType) && Survives(f, omitted, after, rpc.outputType)
  {
    AllowedAre(f.services, f.package, allowed, service);
    var r :| 0 <= r < |service.rpcs| && service.rpcs[r] == rpc;
    KeptServiceMentions(f, allowed, rpc.inputType, service);
    KeptServiceMentions(f, allowed, rpc.outputType, service);
    NeededSurvives(f, allowed, omitted, s, plan, after, rpc.inputType);
    NeededSurvives(f, allowed, omitted, s, plan, after, rpc.outputType);
  }

  /** ... and so are the types of the fields of its messages, at any depth. */
  lemma FieldTypesSurvive(f: File, allowed: set<string>, omitted: set<string>, s: Selection, plan: Plan, after: File,
          m: Message, name: string)
    requires Filtered(f, allowed, omitted, s, plan, after) && NamesOnce(f)
    requires m in after.messages && Mentions(m, name)
    ensures Survives(f, omitted, after, name)
  {
    ProfileIsReached(f, allowed, omitted, s, plan, after);
    var i: nat :| i < |f.messages| && f.messages[i] == m && Reached(f, allowed, i);
    assert ReachedMentions(f, allowed, i, name);
    NeededSurvives(f, allowed, omitted, s, plan, after, name);
  }
}
