/**
 Filtering one file descriptor down to a service profile.

 Services, messages, enums and enum values are compacted in order, and the
 source locations that name them are renumbered or dropped.
 */
module DescriptorFilter {
  import opened Results
  import opened DescriptorClosure

  datatype Rpc = Rpc(name: string, inputType: string, outputType: string)

  datatype Service = Service(name: string, rpcs: seq<Rpc>)

  datatype Location = Location(path: seq<int>, text: string)

  datatype File = File(name: string, package: string, services: seq<Service>, messages: seq<Message>,
                       enums: seq<EnumDecl>, extensions: seq<Extension>, locations: seq<Location>)

  const MESSAGE_FIELD: int := 4
  const ENUM_FIELD: int := 5
  const SERVICE_FIELD: int := 6
  const ENUM_VALUE_FIELD: int := 2

  function QualifiedName(package: string, name: string): string {
    if package != "" then package + "." + name else name
  }

  function Prefix(package: string): string {
    if package != "" then "." + package + "." else "."
  }

  function TypesOf(f: File): Types {
    Types(Prefix(f.package), f.messages, f.enums)
  }

  // ---------------------------------------------------------------------------
  // Order-preserving compaction
  // ---------------------------------------------------------------------------

  /** `at` is an order-preserving bijection from the kept positions onto 0..|kept|. */
  ghost predicate Compacts<T>(items: seq<T>, kept: seq<T>, at: map<int, nat>) {
    && (forall i :: i in at ==> 0 <= i < |items| && at[i] < |kept| && kept[at[i]] == items[i])
    && (forall i, j :: i in at && j in at && i < j ==> at[i] < at[j])
    && (forall k :: 0 <= k < |kept| ==> Hit(at, k))
  }

  ghost predicate Hit(at: map<int, nat>, k: nat) {
    exists i :: i in at && at[i] == k
  }

  lemma CompactsStep<T>(items: seq<T>, kept: seq<T>, at: map<int, nat>, i: nat)
    requires i < |items| && Compacts(items[..i], kept, at)
    ensures Compacts(items[..i + 1], kept, at)
    ensures Compacts(items[..i + 1], kept + [items[i]], at[i := |kept|])
  {
    var next := at[i := |kept|];
    assert forall j :: 0 <= j < i ==> items[..i + 1][j] == items[..i][j];
    forall k | 0 <= k < |kept| + 1 ensures Hit(next, k) {
      if k < |kept| {
        assert Hit(at, k);
        var j :| j in at && at[j] == k;
        assert next[j] == k;
      } else {
        assert next[i] == k;
      }
    }
  }

  lemma Origin<T>(items: seq<T>, kept: seq<T>, at: map<int, nat>, k: nat) returns (i: int)
    requires Compacts(items, kept, at) && k < |kept|
    ensures i in at && at[i] == k && 0 <= i < |items| && items[i] == kept[k]
  {
    assert Hit(at, k);
    i :| i in at && at[i] == k;
  }

  ghost predicate KeepsEach(at: map<int, nat>, n: nat) {
    forall j :: 0 <= j < n ==> j in at
  }

  /** The first `n` positions stay where they are. */
  ghost predicate Stays(at: map<int, nat>, n: nat) {
    forall j :: 0 <= j < n ==> j in at && at[j] == j
  }

  lemma {:induction false} IdentityUpTo<T>(items: seq<T>, kept: seq<T>, at: map<int, nat>, n: nat)
    requires Compacts(items, kept, at) && KeepsEach(at, |items|) && n <= |items|
    ensures Stays(at, n)
  {
    if n == 0 {
    } else {
      var last := n - 1;
      IdentityUpTo(items, kept, at, last);
      assert last in at;
      assert last > 0 ==> last - 1 in at && at[last - 1] == last - 1;
      var j := Origin(items, kept, at, last);
    }
  }

  /** Keeping every position changes nothing. */
  lemma CompactAllIsIdentity<T>(items: seq<T>, kept: seq<T>, at: map<int, nat>)
    requires Compacts(items, kept, at) && KeepsEach(at, |items|)
    ensures kept == items
    ensures Stays(at, |items|)
  {
    IdentityUpTo(items, kept, at, |items|);
    if |items| > 0 {
      assert at[|items| - 1] == |items| - 1;
    }
    if |kept| > 0 {
      assert Hit(at, |kept| - 1);
      var j :| j in at && at[j] == |kept| - 1;
    }
  }

  lemma NothingIsKept<T>(items: seq<T>, kept: seq<T>, at: map<int, nat>)
    requires Compacts(items, kept, at) && forall i :: i !in at
    ensures kept == []
  {
    assert kept != [] ==> Hit(at, 0);
  }

  // ---------------------------------------------------------------------------
  // Enum values
  // ---------------------------------------------------------------------------

  function KeptValues(values: seq<EnumValue>, enum: string, omitted: set<string>): seq<EnumValue> {
    if values == [] then []
    else
      var before := KeptValues(values[..|values| - 1], enum, omitted);
      var last := values[|values| - 1];
      if enum + "." + last.name in omitted then before else before + [last]
  }

  function Trimmed(e: EnumDecl, package: string, omitted: set<string>): EnumDecl {
    e.(values := KeptValues(e.values, QualifiedName(package, e.name), omitted))
  }

  function TrimmedAll(enums: seq<EnumDecl>, package: string, omitted: set<string>): seq<EnumDecl> {
    seq(|enums|, i requires 0 <= i < |enums| => Trimmed(enums[i], package, omitted))
  }

  predicate OmitsZero(e: EnumDecl, package: string, omitted: set<string>) {
    e.values != [] && QualifiedName(package, e.name) + "." + e.values[0].name in omitted
  }

  lemma {:induction false} NoKeptValueIsOmitted(values: seq<EnumValue>, enum: string, omitted: set<string>)
    ensures forall v :: v in KeptValues(values, enum, omitted) ==> enum + "." + v.name !in omitted
  {
    if values == [] {
    } else {
      NoKeptValueIsOmitted(values[..|values| - 1], enum, omitted);
    }
  }

  lemma {:induction false} KeepingAllValues(values: seq<EnumValue>, enum: string, omitted: set<string>)
    requires forall v :: v in values ==> enum + "." + v.name !in omitted
    ensures KeptValues(values, enum, omitted) == values
  {
    if values == [] {
    } else {
      KeepingAllValues(values[..|values| - 1], enum, omitted);
      assert values == values[..|values| - 1] + [values[|values| - 1]];
      assert values[|values| - 1] in values;
    }
  }

  lemma TrimmingTwice(e: EnumDecl, package: string, omitted: set<string>)
    ensures Trimmed(Trimmed(e, package, omitted), package, omitted) == Trimmed(e, package, omitted)
    ensures !OmitsZero(Trimmed(e, package, omitted), package, omitted)
  {
    var enum := QualifiedName(package, e.name);
    var kept := KeptValues(e.values, enum, omitted);
    NoKeptValueIsOmitted(e.values, enum, omitted);
    KeepingAllValues(kept, enum, omitted);
    if kept != [] {
      assert kept[0] in kept;
    }
  }

  function OmittedNames(values: seq<EnumValue>, enum: string, omitted: set<string>): set<string> {
    if values == [] then {}
    else OmittedNames(values[..|values| - 1], enum, omitted) + ({enum + "." + values[|values| - 1].name} * omitted)
  }

  /** The loop state after the first `i` values. */
  ghost predicate TrimmedTo(values: seq<EnumValue>, enum: string, omitted: set<string>, i: nat,
          kept: seq<EnumValue>, at: map<int, nat>, found: set<string>)
    requires i <= |values|
  {
    && kept == KeptValues(values[..i], enum, omitted)
    && found == OmittedNames(values[..i], enum, omitted)
    && Compacts(values[..i], kept, at)
    && forall k :: k in at <==> 0 <= k < i && enum + "." + values[k].name !in omitted
  }

  lemma TrimStep(values: seq<EnumValue>, enum: string, omitted: set<string>, i: nat,
          kept: seq<EnumValue>, at: map<int, nat>, found: set<string>)
    requires i < |values| && TrimmedTo(values, enum, omitted, i, kept, at, found)
    ensures var name := enum + "." + values[i].name;
      if name in omitted then TrimmedTo(values, enum, omitted, i + 1, kept, at, found + {name})
      else TrimmedTo(values, enum, omitted, i + 1, kept + [values[i]], at[i := |kept|], found)
  {
    assert values[..i + 1][..i] == values[..i];
    CompactsStep(values, kept, at, i);
  }

  /** The inner loop over one enum's values. */
  method TrimValues(values: seq<EnumValue>, enum: string, omitted: set<string>)
    returns (r: Result<(seq<EnumValue>, map<int, nat>), string>, found: set<string>)
    ensures r.Err? <==> values != [] && enum + "." + values[0].name in omitted
    ensures r.Ok? ==> r.value.0 == KeptValues(values, enum, omitted)
    ensures r.Ok? ==> Compacts(values, r.value.0, r.value.1)
    ensures r.Ok? ==> forall i :: i in r.value.1 <==> 0 <= i < |values| && enum + "." + values[i].name !in omitted
    ensures r.Ok? ==> found == OmittedNames(values, enum, omitted)
  {
    var kept: seq<EnumValue> := [];
    var at: map<int, nat> := map[];
    found := {};
    for i := 0 to |values|
      invariant i > 0 ==> enum + "." + values[0].name !in omitted
      invariant TrimmedTo(values, enum, omitted, i, kept, at, found)
    {
      var qualified := enum + "." + values[i].name;
      TrimStep(values, enum, omitted, i, kept, at, found);
      if qualified in omitted {
        if i == 0 {
          return Err(qualified), found;
        }
        found := found + {qualified};
        continue;
      }
      at := at[i := |kept|];
      kept := kept + [values[i]];
    }
    assert values[..|values|] == values;
    return Ok((kept, at)), found;
  }

  // ---------------------------------------------------------------------------
  // What filtering makes of a file
  // ---------------------------------------------------------------------------

  datatype Plan = Plan(services: map<int, nat>, messages: map<int, nat>, enums: map<int, nat>,
                       values: map<int, map<int, nat>>)

  function RpcTypes(rpcs: seq<Rpc>): set<string> {
    if rpcs == [] then {}
    else RpcTypes(rpcs[..|rpcs| - 1]) + {rpcs[|rpcs| - 1].inputType, rpcs[|rpcs| - 1].outputType}
  }

  /** The types the methods of some services take and return. */
  function Roots(services: seq<Service>): set<string> {
    if services == [] then {}
    else Roots(services[..|services| - 1]) + RpcTypes(services[|services| - 1].rpcs)
  }

  function AllowedServices(services: seq<Service>, package: string, allowed: set<string>): seq<Service> {
    if services == [] then []
    else
      var before := AllowedServices(services[..|services| - 1], package, allowed);
      var last := services[|services| - 1];
      if QualifiedName(package, last.name) in allowed then before + [last] else before
  }

  /** The type names a profile starts from. */
  function ProfileRoots(f: File, allowed: set<string>): set<string> {
    Roots(AllowedServices(f.services, f.package, allowed))
  }

  /** The table of positions a location path goes through first. */
  function TableFor(plan: Plan, field: int): Option<map<int, nat>> {
    if field == MESSAGE_FIELD then Some(plan.messages)
    else if field == ENUM_FIELD then Some(plan.enums)
    else if field == SERVICE_FIELD then Some(plan.services)
    else None
  }

  predicate NamesEnumValue(path: seq<int>) {
    |path| >= 4 && path[0] == ENUM_FIELD && path[2] == ENUM_VALUE_FIELD
  }

  function Remapped(plan: Plan, path: seq<int>): Option<seq<int>> {
    if |path| < 2 then Some(path)
    else
      var table := TableFor(plan, path[0]);
      if table.None? then Some(path)
      else if path[1] !in table.value then None
      else
        var moved := path[1 := table.value[path[1]]];
        if NamesEnumValue(path) && path[1] in plan.values then
          var values := plan.values[path[1]];
          if path[3] in values then Some(moved[3 := values[path[3]]]) else None
        else Some(moved)
  }

  function RemappedAll(plan: Plan, locations: seq<Location>): seq<Location> {
    if locations == [] then []
    else
      var before := RemappedAll(plan, locations[..|locations| - 1]);
      var last := locations[|locations| - 1];
      var path := Remapped(plan, last.path);
      if path.Some? then before + [last.(path := path.value)] else before
  }

  ghost predicate PlanKeeps(f: File, allowed: set<string>, omitted: set<string>, s: Selection, plan: Plan) {
    && (forall i ::
          i in plan.services <==> 0 <= i < |f.services| && QualifiedName(f.package, f.services[i].name) in allowed)
    && (forall i :: i in plan.messages <==> 0 <= i < |f.messages| && i in s.messages)
    && (forall i :: i in plan.enums <==> 0 <= i < |f.enums| && i in s.enums)
    && plan.values.Keys == plan.enums.Keys
    && (forall e, i :: e in plan.enums ==> (i in plan.values[e] <==>
          0 <= i < |f.enums[e].values|
          && QualifiedName(f.package, f.enums[e].name) + "." + f.enums[e].values[i].name !in omitted))
  }

  ghost predicate PlanPlaces(f: File, omitted: set<string>, plan: Plan, after: File) {
    && Compacts(f.services, after.services, plan.services)
    && Compacts(f.messages, after.messages, plan.messages)
    && Compacts(TrimmedAll(f.enums, f.package, omitted), after.enums, plan.enums)
    && (forall e :: e in plan.enums && e in plan.values && 0 <= e < |f.enums| ==>
          Compacts(f.enums[e].values, Trimmed(f.enums[e], f.package, omitted).values, plan.values[e]))
  }

  /** `after` is the profile of `f`: the allowed services and the least selection their methods need. */
  ghost predicate Filtered(f: File, allowed: set<string>, omitted: set<string>, s: Selection, plan: Plan, after: File) {
    && after.name == f.name && after.package == f.package && after.extensions == f.extensions
    && PlanKeeps(f, allowed, omitted, s, plan)
    && PlanPlaces(f, omitted, plan, after)
    && after.services == AllowedServices(f.services, f.package, allowed)
    && Least(TypesOf(f), ProfileRoots(f, allowed), s)
    && after.locations == RemappedAll(plan, f.locations)
  }

  // ---------------------------------------------------------------------------
  // The filter itself
  // ---------------------------------------------------------------------------

  method LeadingTypes(rpcs: seq<Rpc>) returns (types: set<string>)
    ensures types == RpcTypes(rpcs)
  {
    types := {};
    for i := 0 to |rpcs|
      invariant types == RpcTypes(rpcs[..i])
    {
      assert rpcs[..i + 1][..i] == rpcs[..i];
      types := types + {rpcs[i].inputType, rpcs[i].outputType};
    }
    assert rpcs[..|rpcs|] == rpcs;
  }

  function ServiceNames(services: seq<Service>, package: string): set<string> {
    if services == [] then {}
    else ServiceNames(services[..|services| - 1], package) + {QualifiedName(package, services[|services| - 1].name)}
  }

  /** The loop state after the first `i` services. */
  ghost predicate SelectedTo(f: File, allowed: set<string>, i: nat, kept: seq<Service>, at: map<int, nat>)
    requires i <= |f.services|
  {
    && kept == AllowedServices(f.services[..i], f.package, allowed)
    && Compacts(f.services[..i], kept, at)
    && forall k :: k in at <==> 0 <= k < i && QualifiedName(f.package, f.services[k].name) in allowed
  }

  lemma SelectStep(f: File, allowed: set<string>, i: nat, kept: seq<Service>, at: map<int, nat>)
    requires i < |f.services| && SelectedTo(f, allowed, i, kept, at)
    ensures if QualifiedName(f.package, f.services[i].name) in allowed
      then SelectedTo(f, allowed, i + 1, kept + [f.services[i]], at[i := |kept|])
      else SelectedTo(f, allowed, i + 1, kept, at)
  {
    assert f.services[..i + 1][..i] == f.services[..i];
    CompactsStep(f.services, kept, at, i);
  }

  /** The names of some services of the file, and where they were found. */
  function FoundIn(f: File, services: seq<Service>): map<string, string> {
    map n | n in ServiceNames(services, f.package) :: f.name
  }

  lemma FoundStep(f: File, kept: seq<Service>, service: Service)
    ensures FoundIn(f, kept + [service]) == FoundIn(f, kept)[QualifiedName(f.package, service.name) := f.name]
    ensures Roots(kept + [service]) == Roots(kept) + RpcTypes(service.rpcs)
  {
    assert (kept + [service])[..|kept|] == kept;
  }

  /** The allowed services in order, and where they are kept. */
  ghost predicate ServicesKept(f: File, allowed: set<string>, kept: seq<Service>, at: map<int, nat>) {
    && kept == AllowedServices(f.services, f.package, allowed)
    && Compacts(f.services, kept, at)
    && forall i :: i in at <==> 0 <= i < |f.services| && QualifiedName(f.package, f.services[i].name) in allowed
  }

  method SelectServices(f: File, allowed: set<string>)
    returns (kept: seq<Service>, at: map<int, nat>, found: map<string, string>, roots: set<string>)
    ensures ServicesKept(f, allowed, kept, at)
    ensures roots == Roots(kept)
    ensures found == FoundIn(f, kept)
  {
    kept, at, found, roots := [], map[], map[], {};
    for i := 0 to |f.services|
      invariant SelectedTo(f, allowed, i, kept, at)
      invariant roots == Roots(kept)
      invariant found == FoundIn(f, kept)
    {
      var service := f.services[i];
      var qualified := QualifiedName(f.package, service.name);
      SelectStep(f, allowed, i, kept, at);
      if qualified !in allowed {
        continue;
      }
      var types := LeadingTypes(service.rpcs);
      FoundStep(f, kept, service);
      at := at[i := |kept|];
      kept := kept + [service];
      found := found[qualified := f.name];
      roots := roots + types;
    }
    assert f.services[..|f.services|] == f.services;
  }

  ghost predicate MessagesKept(f: File, keep: set<nat>, kept: seq<Message>, at: map<int, nat>) {
    Compacts(f.messages, kept, at) && forall i :: i in at <==> 0 <= i < |f.messages| && i in keep
  }

  method SelectMessages(f: File, keep: set<nat>) returns (kept: seq<Message>, at: map<int, nat>)
    ensures MessagesKept(f, keep, kept, at)
  {
    kept, at := [], map[];
    for i := 0 to |f.messages|
      invariant Compacts(f.messages[..i], kept, at)
      invariant forall k :: k in at <==> 0 <= k < i && k in keep
    {
      CompactsStep(f.messages, kept, at, i);
      if i in keep {
        at := at[i := |kept|];
        kept := kept + [f.messages[i]];
      }
    }
    assert f.messages[..|f.messages|] == f.messages;
  }

  /** The filter refuses to omit a kept enum's zero value, and only that. */
  ghost predicate OmitsKeptZero(f: File, omitted: set<string>, keep: set<nat>) {
    exists i :: 0 <= i < |f.enums| && i in keep && OmitsZero(f.enums[i], f.package, omitted)
  }

  ghost predicate ValueTables(f: File, omitted: set<string>, at: map<int, nat>, values: map<int, map<int, nat>>) {
    && values.Keys == at.Keys
    && forall e {:trigger ValueTable(f, omitted, e, values[e])} ::
         e in values && 0 <= e < |f.enums| ==> ValueTable(f, omitted, e, values[e])
  }

  ghost predicate ValueTable(f: File, omitted: set<string>, e: nat, table: map<int, nat>)
    requires e < |f.enums|
  {
    var enum := QualifiedName(f.package, f.enums[e].name);
    && Compacts(f.enums[e].values, Trimmed(f.enums[e], f.package, omitted).values, table)
    && forall i :: i in table <==> 0 <= i < |f.enums[e].values| && enum + "." + f.enums[e].values[i].name !in omitted
  }

  /** The omitted values of the kept enums among the first `n`. */
  function Omissions(f: File, omitted: set<string>, keep: set<nat>, n: nat): set<string>
    requires n <= |f.enums|
  {
    if n == 0 then {}
    else Omissions(f, omitted, keep, n - 1)
         + if n - 1 !in keep then {}
           else OmittedNames(f.enums[n - 1].values, QualifiedName(f.package, f.enums[n - 1].name), omitted)
  }

  /** The loop state after the first `n` enums. */
  ghost predicate EnumsTo(f: File, keep: set<nat>, omitted: set<string>, n: nat,
          kept: seq<EnumDecl>, at: map<int, nat>, values: map<int, map<int, nat>>)
    requires n <= |f.enums|
  {
    && Compacts(TrimmedAll(f.enums, f.package, omitted)[..n], kept, at)
    && (forall k :: k in at <==> 0 <= k < n && k in keep)
    && ValueTables(f, omitted, at, values)
    && (forall k :: 0 <= k < n && k in keep ==> !OmitsZero(f.enums[k], f.package, omitted))
  }

  lemma SkipEnum(f: File, keep: set<nat>, omitted: set<string>, n: nat, kept: seq<EnumDecl>, at: map<int, nat>,
          values: map<int, map<int, nat>>)
    requires n < |f.enums| && EnumsTo(f, keep, omitted, n, kept, at, values) && n !in keep
    ensures EnumsTo(f, keep, omitted, n + 1, kept, at, values)
  {
    CompactsStep(TrimmedAll(f.enums, f.package, omitted), kept, at, n);
  }

  lemma KeepEnum(f: File, keep: set<nat>, omitted: set<string>, n: nat, kept: seq<EnumDecl>, at: map<int, nat>,
          values: map<int, map<int, nat>>, table: map<int, nat>)
    requires n < |f.enums| && EnumsTo(f, keep, omitted, n, kept, at, values)
    requires n in keep && !OmitsZero(f.enums[n], f.package, omitted) && ValueTable(f, omitted, n, table)
    ensures EnumsTo(f, keep, omitted, n + 1, kept + [Trimmed(f.enums[n], f.package, omitted)], at[n := |kept|],
            values[n := table])
  {
    var trimmed := TrimmedAll(f.enums, f.package, omitted);
    CompactsStep(trimmed, kept, at, n);
    assert trimmed[n] == Trimmed(f.enums[n], f.package, omitted);
  }

  /** One kept enum: its trimmed copy and the table of its values. */
  method TrimEnum(f: File, omitted: set<string>, i: nat)
    returns (r: Result<(EnumDecl, map<int, nat>), string>, found: set<string>)
    requires i < |f.enums|
    ensures r.Err? <==> OmitsZero(f.enums[i], f.package, omitted)
    ensures r.Ok? ==> r.value.0 == Trimmed(f.enums[i], f.package, omitted) && ValueTable(f, omitted, i, r.value.1)
    ensures r.Ok? ==> found == OmittedNames(f.enums[i].values, QualifiedName(f.package, f.enums[i].name), omitted)
  {
    var enum := f.enums[i];
    var trimming;
    trimming, found := TrimValues(enum.values, QualifiedName(f.package, enum.name), omitted);
    if trimming.Err? {
      r := Err(trimming.error);
    } else {
      r := Ok((enum.(values := trimming.value.0), trimming.value.1));
    }
  }

  /** One round of the loop over the enums. */
  method SelectEnum(f: File, keep: set<nat>, omitted: set<string>, n: nat,
          kept: seq<EnumDecl>, at: map<int, nat>, values: map<int, map<int, nat>>, found: set<string>)
    returns (r: Result<(seq<EnumDecl>, map<int, nat>, map<int, map<int, nat>>), string>, more: set<string>)
    requires n < |f.enums| && EnumsTo(f, keep, omitted, n, kept, at, values) && found == Omissions(f, omitted, keep, n)
    ensures r.Err? <==> n in keep && OmitsZero(f.enums[n], f.package, omitted)
    ensures r.Err? ==> OmitsKeptZero(f, omitted, keep)
    ensures r.Ok? ==> EnumsTo(f, keep, omitted, n + 1, r.value.0, r.value.1, r.value.2)
    ensures r.Ok? ==> more == Omissions(f, omitted, keep, n + 1)
  {
    if n !in keep {
      SkipEnum(f, keep, omitted, n, kept, at, values);
      return Ok((kept, at, values)), found;
    }
    var trimming, omissions := TrimEnum(f, omitted, n);
    more := found + omissions;
    if trimming.Err? {
      return Err(trimming.error), more;
    }
    KeepEnum(f, keep, omitted, n, kept, at, values, trimming.value.1);
    return Ok((kept + [trimming.value.0], at[n := |kept|], values[n := trimming.value.1])), more;
  }

  lemma NoKeptZeroOmitted(f: File, keep: set<nat>, omitted: set<string>, kept: seq<EnumDecl>, at: map<int, nat>,
          values: map<int, map<int, nat>>)
    requires EnumsTo(f, keep, omitted, |f.enums|, kept, at, values)
    ensures !OmitsKeptZero(f, omitted, keep)
  {
  }

  method SelectEnums(f: File, keep: set<nat>, omitted: set<string>)
    returns (r: Result<(seq<EnumDecl>, map<int, nat>, map<int, map<int, nat>>), string>, found: set<string>)
    ensures r.Err? <==> OmitsKeptZero(f, omitted, keep)
    ensures r.Ok? ==> EnumsTo(f, keep, omitted, |f.enums|, r.value.0, r.value.1, r.value.2)
    ensures r.Ok? ==> found == Omissions(f, omitted, keep, |f.enums|)
  {
    var kept: seq<EnumDecl> := [];
    var at: map<int, nat> := map[];
    var values: map<int, map<int, nat>> := map[];
    found := {};
    for i := 0 to |f.enums|
      invariant EnumsTo(f, keep, omitted, i, kept, at, values)
      invariant found == Omissions(f, omitted, keep, i)
    {
      var round, more := SelectEnum(f, keep, omitted, i, kept, at, values, found);
      if round.Err? {
        return round, more;
      }
      kept, at, values, found := round.value.0, round.value.1, round.value.2, more;
    }
    NoKeptZeroOmitted(f, keep, omitted, kept, at, values);
    return Ok((kept, at, values)), found;
  }

  method FilterLocations(locations: seq<Location>, plan: Plan) returns (kept: seq<Location>)
    ensures kept == RemappedAll(plan, locations)
  {
    kept := [];
    for i := 0 to |locations|
      invariant kept == RemappedAll(plan, locations[..i])
    {
      assert locations[..i + 1][..i] == locations[..i];
      var path := locations[i].path;
      var original := if |path| >= 2 then path[1] else -1;
      var table := if |path| >= 2 then TableFor(plan, path[0]) else None;
      if table.Some? {
        if path[1] !in table.value {
          continue;
        }
        path := path[1 := table.value[path[1]]];
      }
      if NamesEnumValue(path) && original in plan.values {
        var values := plan.values[original];
        if path[3] !in values {
          continue;
        }
        path := path[3 := values[path[3]]];
      }
      kept := kept + [locations[i].(path := path)];
    }
    assert locations[..|locations|] == locations;
  }

  /** The tables of the three selections, put together. */
  lemma TablesMakePlan(f: File, allowed: set<string>, omitted: set<string>, s: Selection, plan: Plan, after: File)
    requires forall i ::
      i in plan.services <==> 0 <= i < |f.services| && QualifiedName(f.package, f.services[i].name) in allowed
    requires forall i :: i in plan.messages <==> 0 <= i < |f.messages| && i in s.messages
    requires forall i :: i in plan.enums <==> 0 <= i < |f.enums| && i in s.enums
    requires ValueTables(f, omitted, plan.enums, plan.values)
    requires Compacts(f.services, after.services, plan.services)
    requires Compacts(f.messages, after.messages, plan.messages)
    requires Compacts(TrimmedAll(f.enums, f.package, omitted), after.enums, plan.enums)
    ensures PlanKeeps(f, allowed, omitted, s, plan) && PlanPlaces(f, omitted, plan, after)
  {
    forall e | e in plan.enums
      ensures Compacts(f.enums[e].values, Trimmed(f.enums[e], f.package, omitted).values, plan.values[e])
      ensures forall i :: i in plan.values[e] <==>
        (0 <= i < |f.enums[e].values|
         && QualifiedName(f.package, f.enums[e].name) + "." + f.enums[e].values[i].name !in omitted)
    {
      assert ValueTable(f, omitted, e, plan.values[e]);
    }
  }

  /** The parts of a profile, put together. */
  lemma PartsMakeProfile(f: File, allowed: set<string>, omitted: set<string>, s: Selection, plan: Plan, after: File)
    requires after.name == f.name && after.package == f.package && after.extensions == f.extensions
    requires ServicesKept(f, allowed, after.services, plan.services)
    requires MessagesKept(f, s.messages, after.messages, plan.messages)
    requires EnumsTo(f, s.enums, omitted, |f.enums|, after.enums, plan.enums, plan.values)
    requires Least(TypesOf(f), ProfileRoots(f, allowed), s) && after.locations == RemappedAll(plan, f.locations)
    ensures Filtered(f, allowed, omitted, s, plan, after)
  {
    assert TrimmedAll(f.enums, f.package, omitted)[..|f.enums|] == TrimmedAll(f.enums, f.package, omitted);
    TablesMakePlan(f, allowed, omitted, s, plan, after);
  }

  /** Everything the filter computes before it touches the descriptor. */
  method ComputeProfile(f: File, allowed: set<string>, omitted: set<string>)
    returns (r: Result<(File, map<string, string>), string>, omissions: set<string>, ghost s: Selection,
      ghost plan: Plan)
    ensures Least(TypesOf(f), ProfileRoots(f, allowed), s)
    ensures r.Ok? <==> !OmitsKeptZero(f, omitted, s.enums)
    ensures r.Ok? ==> Filtered(f, allowed, omitted, s, plan, r.value.0)
    ensures r.Ok? ==> r.value.1 == FoundIn(f, r.value.0.services)
    ensures r.Ok? ==> omissions == Omissions(f, omitted, s.enums, |f.enums|)
  {
    var services, serviceAt, found, roots := SelectServices(f, allowed);
    var index := new TypeIndex();
    index.Register(TypesOf(f));
    var selection := Retain(TypesOf(f), index, roots);
    s := selection;
    var messages, messageAt := SelectMessages(f, selection.messages);
    var trimming, omitting := SelectEnums(f, selection.enums, omitted);
    omissions := omitting;
    if trimming.Err? {
      plan := Plan(map[], map[], map[], map[]);
      r := Err(trimming.error);
      return;
    }
    var (enums, enumAt, values) := trimming.value;
    var tables := Plan(serviceAt, messageAt, enumAt, values);
    plan := tables;
    var locations := FilterLocations(f.locations, tables);
    var after := File(f.name, f.package, services, messages, enums, f.extensions, locations);
    PartsMakeProfile(f, allowed, omitted, s, plan, after);
    r := Ok((after, found));
  }

  /** A file descriptor as the plugin mutates it. */
  class FileDescriptor {
    const name: string
    const package: string
    const extensions: seq<Extension>
    var services: seq<Service>
    var messages: seq<Message>
    var enums: seq<EnumDecl>
    var locations: seq<Location>

    constructor (f: File)
      ensures View() == f
    {
      name, package, extensions := f.name, f.package, f.extensions;
      services, messages, enums, locations := f.services, f.messages, f.enums, f.locations;
    }

    function View(): File
      reads this
    {
      File(name, package, services, messages, enums, extensions, locations)
    }

    /** Either the descriptor becomes its profile, or an error leaves it untouched. */
    method FilterGenerated(allowed: set<string>, omitted: set<string>)
      returns (r: Result<(map<string, string>, set<string>), string>, ghost s: Selection, ghost plan: Plan)
      modifies this
      ensures Least(TypesOf(old(View())), ProfileRoots(old(View()), allowed), s)
      ensures r.Ok? <==> !OmitsKeptZero(old(View()), omitted, s.enums)
      ensures r.Ok? ==> Filtered(old(View()), allowed, omitted, s, plan, View())
      ensures r.Ok? ==> r.value.0 == FoundIn(old(View()), services)
      ensures r.Ok? ==> r.value.1 == Omissions(old(View()), omitted, s.enums, |old(View()).enums|)
      ensures r.Err? ==> View() == old(View())
    {
      var profile, omissions;
      profile, omissions, s, plan := ComputeProfile(View(), allowed, omitted);
      if profile.Err? {
        return Err(profile.error), s, plan;
      }
      var (after, found) := profile.value;
      services, messages, enums, locations := after.services, after.messages, after.enums, after.locations;
      assert View() == after;
      return Ok((found, omissions)), s, plan;
    }
  }

  // ---------------------------------------------------------------------------
  // References survive
  // ---------------------------------------------------------------------------

  /**
   Every top-level message is what its own qualified name means.  protoc rejects
   files in which two declarations share a name, so every request satisfies this.
   */
  ghost predicate OwnNamesResolve(types: Types) {
    forall i :: 0 <= i < |types.messages| ==> Owner(MessageDecls(types), TopName(types, i)) == Some(i)
  }

  /** The position a kept declaration moves to. */
  ghost function Moved(plan: Plan, t: Target): Target {
    match t
    case TopMessage(i) => if i in plan.messages then TopMessage(plan.messages[i]) else Imported
    case TopEnum(i) => if i in plan.enums then TopEnum(plan.enums[i]) else Imported
    case Imported => Imported
  }

  /** The name means the same declaration in the profile, or an imported one in both. */
  ghost predicate KeepsMeaning(f: File, plan: Plan, after: File, name: string) {
    && Resolve(TypesOf(after), name) == Moved(plan, Resolve(TypesOf(f), name))
    && (Resolve(TypesOf(f), name).Imported? <==> Resolve(TypesOf(after), name).Imported?)
  }

  lemma OwnerIs(decls: seq<set<string>>, name: string, k: nat)
    requires k < |decls| && name in decls[k] && forall j :: k < j < |decls| ==> name !in decls[j]
    ensures Owner(decls, name) == Some(k)
  {
  }

  /** Compacting declarations keeps the last declaration of a name last, if it is kept. */
  lemma OwnerMoves(decls: seq<set<string>>, kept: seq<set<string>>, at: map<int, nat>, name: string)
    requires Compacts(decls, kept, at)
    requires var owner := Owner(decls, name); owner.None? || owner.value in at
    ensures var owner := Owner(decls, name);
      Owner(kept, name) == if owner.None? then None else Some(at[owner.value])
  {
    var owner := Owner(decls, name);
    forall k | 0 <= k < |kept| && name in kept[k] ensures owner.Some? && k <= at[owner.value] {
      var i := Origin(decls, kept, at, k);
      assert i < owner.value ==> at[i] < at[owner.value];
    }
    if owner.Some? {
      assert kept[at[owner.value]] == decls[owner.value];
      OwnerIs(kept, name, at[owner.value]);
    }
  }

  /** `next` declares some of the messages and enums of `types`, in order and under their names. */
  ghost predicate Compaction(types: Types, next: Types, messages: map<int, nat>, enums: map<int, nat>) {
    && Compacts(MessageDecls(types), MessageDecls(next), messages)
    && Compacts(NestedEnumDecls(types), NestedEnumDecls(next), messages)
    && Compacts(TopEnumDecls(types), TopEnumDecls(next), enums)
    && forall i :: i in messages && i < |types.messages| && messages[i] < |next.messages| ==>
         TopName(next, messages[i]) == TopName(types, i)
  }

  lemma MessageDeclsCompact(types: Types, next: Types, at: map<int, nat>)
    requires Compacts(types.messages, next.messages, at) && types.prefix == next.prefix
    ensures Compacts(MessageDecls(types), MessageDecls(next), at)
    ensures Compacts(NestedEnumDecls(types), NestedEnumDecls(next), at)
    ensures forall i :: i in at ==> TopName(next, at[i]) == TopName(types, i)
  {
  }

  lemma EnumDeclsCompact(f: File, omitted: set<string>, next: Types, at: map<int, nat>)
    requires Compacts(TrimmedAll(f.enums, f.package, omitted), next.enums, at) && next.prefix == Prefix(f.package)
    ensures Compacts(TopEnumDecls(TypesOf(f)), TopEnumDecls(next), at)
  {
    forall i | i in at ensures TopEnumDecls(next)[at[i]] == TopEnumDecls(TypesOf(f))[i] {
      assert TrimmedAll(f.enums, f.package, omitted)[i] == Trimmed(f.enums[i], f.package, omitted);
    }
  }

  lemma DeclsCompact(f: File, allowed: set<string>, omitted: set<string>, s: Selection, plan: Plan, after: File)
    requires Filtered(f, allowed, omitted, s, plan, after)
    ensures Compaction(TypesOf(f), TypesOf(after), plan.messages, plan.enums)
  {
    MessageDeclsCompact(TypesOf(f), TypesOf(after), plan.messages);
    EnumDeclsCompact(f, omitted, TypesOf(after), plan.enums);
  }

  /** The name keeps a declaration alive that is among the compacted ones. */
  ghost predicate Places(messages: map<int, nat>, enums: map<int, nat>, target: Target) {
    match target
    case TopMessage(i) => i in messages
    case TopEnum(i) => i in enums
    case Imported => true
  }

  ghost function MovedBy(messages: map<int, nat>, enums: map<int, nat>, target: Target): Target
    requires Places(messages, enums, target)
  {
    match target
    case TopMessage(i) => TopMessage(messages[i])
    case TopEnum(i) => TopEnum(enums[i])
    case Imported => Imported
  }

  lemma PlacedNamesResolveAlike(types: Types, next: Types, messages: map<int, nat>, enums: map<int, nat>, name: string)
    requires Compaction(types, next, messages, enums) && OwnNamesResolve(types)
    requires Places(messages, enums, Resolve(types, name))
    ensures Resolve(next, name) == MovedBy(messages, enums, Resolve(types, name))
  {
    OwnerMoves(MessageDecls(types), MessageDecls(next), messages, name);
    if Owner(MessageDecls(types), name).None? {
      var owner := Owner(NestedEnumDecls(types), name);
      if owner.Some? {
        assert Owner(MessageDecls(types), TopName(types, owner.value)) == Some(owner.value);
        OwnerMoves(NestedEnumDecls(types), NestedEnumDecls(next), messages, name);
        OwnerMoves(MessageDecls(types), MessageDecls(next), messages, TopName(types, owner.value));
      } else {
        OwnerMoves(NestedEnumDecls(types), NestedEnumDecls(next), messages, name);
        OwnerMoves(TopEnumDecls(types), TopEnumDecls(next), enums, name);
      }
    }
  }

  /** Every name the profile covers means, in the profile, the same declaration at its new position. */
  lemma CoveredNamesResolveAlike(f: File, allowed: set<string>, omitted: set<string>,
          s: Selection, plan: Plan, after: File, name: string)
    requires Filtered(f, allowed, omitted, s, plan, after) && OwnNamesResolve(TypesOf(f))
    requires Covered(TypesOf(f), name, s)
    ensures KeepsMeaning(f, plan, after, name)
  {
    DeclsCompact(f, allowed, omitted, s, plan, after);
    PlacedNamesResolveAlike(TypesOf(f), TypesOf(after), plan.messages, plan.enums, name);
  }

  /** What a name means in the file is declared in the profile too: the same message, or the trimmed enum. */
  ghost predicate StillDeclared(f: File, omitted: set<string>, after: File, name: string) {
    match Resolve(TypesOf(f), name)
    case TopMessage(i) => exists k: nat ::
      Resolve(TypesOf(after), name) == TopMessage(k) && k < |after.messages| && after.messages[k] == f.messages[i]
    case TopEnum(i) => exists k: nat ::
      && Resolve(TypesOf(after), name) == TopEnum(k) && k < |after.enums|
      && after.enums[k] == Trimmed(f.enums[i], f.package, omitted)
    case Imported => Resolve(TypesOf(after), name) == Imported
  }

  lemma KeptMeaningIsDeclared(f: File, omitted: set<string>, plan: Plan, after: File, name: string)
    requires PlanPlaces(f, omitted, plan, after) && KeepsMeaning(f, plan, after, name)
    ensures StillDeclared(f, omitted, after, name)
  {
    var target := Resolve(TypesOf(f), name);
    if target.TopEnum? {
      assert TrimmedAll(f.enums, f.package, omitted)[target.index]
        == Trimmed(f.enums[target.index], f.package, omitted);
    }
  }

  /** A method type or field type of the profile. */
  ghost predicate ProfileRefers(after: File, name: string) {
    name in Roots(after.services) || exists k :: 0 <= k < |after.messages| && name in Refs(after.messages[k])
  }

  lemma ReferencesAreNeeded(f: File, allowed: set<string>, omitted: set<string>,
          s: Selection, plan: Plan, after: File, name: string)
    requires Filtered(f, allowed, omitted, s, plan, after) && ProfileRefers(after, name)
    ensures Needed(TypesOf(f), ProfileRoots(f, allowed), s, name)
  {
    if name !in Roots(after.services) {
      var k :| 0 <= k < |after.messages| && name in Refs(after.messages[k]);
      var i := Origin(f.messages, after.messages, plan.messages, k);
      assert name in Refs(TypesOf(f).messages[i]);
    }
  }

  /**
   No reference dangles: a method type or field type of the profile that was
   declared in the file is still declared, by the same message or trimmed enum.
   */
  lemma NoReferenceDangles(f: File, allowed: set<string>, omitted: set<string>,
          s: Selection, plan: Plan, after: File, name: string)
    requires Filtered(f, allowed, omitted, s, plan, after) && OwnNamesResolve(TypesOf(f))
    requires ProfileRefers(after, name)
    ensures StillDeclared(f, omitted, after, name)
  {
    ReferencesAreNeeded(f, allowed, omitted, s, plan, after, name);
    CoveredNamesResolveAlike(f, allowed, omitted, s, plan, after, name);
    KeptMeaningIsDeclared(f, omitted, plan, after, name);
  }

  // ---------------------------------------------------------------------------
  // Extensions, which the filter leaves in place and does not follow
  // ---------------------------------------------------------------------------

  /** An extension of the profile mentions the name. */
  ghost predicate ProfileMentions(after: File, name: string) {
    || name in ExtensionRefs(after.extensions)
    || exists k :: 0 <= k < |after.messages| && name in InnerExtensionRefs(after.messages[k])
  }

  /** The methods of the allowed services cannot do without the top-level message `i` of the file. */
  ghost predicate ServicesNeedMessage(f: File, allowed: set<string>, i: nat) {
    forall c :: Closed(TypesOf(f), ProfileRoots(f, allowed), c) ==> i in c.messages
  }

  /** ... nor without the declaration of the file that the name means, if it means one. */
  ghost predicate ServicesNeedName(f: File, allowed: set<string>, name: string) {
    forall c :: Closed(TypesOf(f), ProfileRoots(f, allowed), c) ==> Covered(TypesOf(f), name, c)
  }

  /** The file itself has an extension that mentions the name, or a message the services need has one. */
  ghost predicate NeededMentions(f: File, allowed: set<string>, name: string) {
    || name in ExtensionRefs(f.extensions)
    || exists i ::
         0 <= i < |f.messages| && ServicesNeedMessage(f, allowed, i) && name in InnerExtensionRefs(f.messages[i])
  }

  /** The least selection is what the services need. */
  lemma LeastIsNeeded(f: File, allowed: set<string>, s: Selection, name: string)
    requires Least(TypesOf(f), ProfileRoots(f, allowed), s)
    ensures forall i: nat :: i in s.messages <==> ServicesNeedMessage(f, allowed, i)
    ensures Covered(TypesOf(f), name, s) <==> ServicesNeedName(f, allowed, name)
  {
    var types, roots := TypesOf(f), ProfileRoots(f, allowed);
    forall c | Closed(types, roots, c) ensures s.messages <= c.messages && s.enums <= c.enums {
    }
    forall i: nat | ServicesNeedMessage(f, allowed, i) ensures i in s.messages {
      assert Closed(types, roots, s);
    }
  }

  /** An extension of the profile is one of the file's, or stands within a needed message. */
  lemma ProfileMentionsNeeded(f: File, allowed: set<string>, omitted: set<string>,
          s: Selection, plan: Plan, after: File, name: string)
    requires Filtered(f, allowed, omitted, s, plan, after)
    ensures ProfileMentions(after, name) <==> NeededMentions(f, allowed, name)
  {
    LeastIsNeeded(f, allowed, s, name);
    if k :| 0 <= k < |after.messages| && name in InnerExtensionRefs(after.messages[k]) {
      var i := Origin(f.messages, after.messages, plan.messages, k);
      assert ServicesNeedMessage(f, allowed, i);
    }
    if i :| 0 <= i < |f.messages| && ServicesNeedMessage(f, allowed, i) && name in InnerExtensionRefs(f.messages[i]) {
      assert i in plan.messages && after.messages[plan.messages[i]] == f.messages[i];
    }
  }

  lemma MeaningIsKeptExactlyWhenNeeded(f: File, allowed: set<string>, omitted: set<string>,
          s: Selection, plan: Plan, after: File, name: string)
    requires Filtered(f, allowed, omitted, s, plan, after) && OwnNamesResolve(TypesOf(f))
    ensures KeepsMeaning(f, plan, after, name) <==> ServicesNeedName(f, allowed, name)
  {
    LeastIsNeeded(f, allowed, s, name);
    if Covered(TypesOf(f), name, s) {
      CoveredNamesResolveAlike(f, allowed, omitted, s, plan, after, name);
    }
  }

  /**
   No type that an extension of the profile mentions is lost, exactly when the allowed
   services need every type that extensions of the file, and of its needed messages, mention.
   */
  lemma NoExtensionDanglesExactlyWhen(f: File, allowed: set<string>, omitted: set<string>,
          s: Selection, plan: Plan, after: File)
    requires Filtered(f, allowed, omitted, s, plan, after) && OwnNamesResolve(TypesOf(f))
    ensures (forall name | ProfileMentions(after, name) :: KeepsMeaning(f, plan, after, name))
      <==> (forall name | NeededMentions(f, allowed, name) :: ServicesNeedName(f, allowed, name))
  {
    forall name
      ensures ProfileMentions(after, name) <==> NeededMentions(f, allowed, name)
      ensures KeepsMeaning(f, plan, after, name) <==> ServicesNeedName(f, allowed, name)
    {
      ProfileMentionsNeeded(f, allowed, omitted, s, plan, after, name);
      MeaningIsKeptExactlyWhenNeeded(f, allowed, omitted, s, plan, after, name);
    }
  }

  /** A service that takes and returns `Q`, and an extension of `Q` of the type `A`. */
  const EXTENDED: File :=
    File("extended.proto", "", [Service("S", [Rpc("Get", ".Q", ".Q")])],
         [Message("Q", [], [], [], []), Message("A", [], [], [], [])], [],
         [Extension("a", ".Q", MessageField, ".A")], [])

  lemma FlatNames(m: Message, qualified: string)
    requires m.nested == [] && m.enums == []
    ensures MessageNames(m, qualified) == {qualified} && EnumNames(m, qualified) == {}
  {
  }

  lemma ExtendedNames()
    ensures Resolve(TypesOf(EXTENDED), ".Q") == TopMessage(0)
    ensures Resolve(TypesOf(EXTENDED), ".A") == TopMessage(1)
  {
    var types := TypesOf(EXTENDED);
    assert TopName(types, 0) == ".Q" && TopName(types, 1) == ".A";
    FlatNames(types.messages[0], ".Q");
    FlatNames(types.messages[1], ".A");
    var decls := MessageDecls(types);
    assert decls == [{".Q"}, {".A"}] && decls[..1] == [{".Q"}];
    assert ".Q" != ".A";
    assert Owner(decls, ".A") == Some(1);
    assert Owner(decls, ".Q") == Owner(decls[..1], ".Q") == Some(0);
  }

  lemma ExtendedRoots(allowed: set<string>)
    requires "S" in allowed
    ensures ProfileRoots(EXTENDED, allowed) == {".Q"}
    ensures AllowedServices(EXTENDED.services, "", allowed) == EXTENDED.services
  {
    var services, service := EXTENDED.services, EXTENDED.services[0];
    assert services[..0] == [] && service.rpcs[..0] == [];
    assert QualifiedName("", service.name) == "S";
    assert AllowedServices(services, "", allowed) == AllowedServices([], "", allowed) + [service] == services;
    assert Roots(services) == Roots([]) + RpcTypes(service.rpcs);
    assert RpcTypes(service.rpcs) == RpcTypes([]) + {".Q"};
  }

  lemma NoDeclaration(types: Types, name: string)
    requires types.enums == []
    requires forall k :: 0 <= k < |types.messages| ==>
      types.prefix + types.messages[k].name != name && types.messages[k].nested == [] && types.messages[k].enums == []
    ensures Resolve(types, name) == Imported
  {
    forall k | 0 <= k < |types.messages|
      ensures name !in MessageDecls(types)[k] && name !in NestedEnumDecls(types)[k]
    {
      FlatNames(types.messages[k], TopName(types, k));
    }
  }

  lemma ExtendedLeast(s: Selection)
    requires Least(TypesOf(EXTENDED), {".Q"}, s)
    ensures s.messages == {0}
  {
    var types := TypesOf(EXTENDED);
    ExtendedNames();
    assert Closed(types, {".Q"}, Selection({0}, {}));
    assert Needed(types, {".Q"}, s, ".Q");
  }

  lemma ExtendedProfile(omitted: set<string>, plan: Plan, after: File)
    requires PlanPlaces(EXTENDED, omitted, plan, after) && after.package == ""
    requires forall i :: i in plan.messages ==> i == 0
    ensures Resolve(TypesOf(after), ".A") == Imported
  {
    forall k | 0 <= k < |after.messages| ensures after.messages[k] == EXTENDED.messages[0] {
      var i := Origin(EXTENDED.messages, after.messages, plan.messages, k);
    }
    assert TrimmedAll(EXTENDED.enums, EXTENDED.package, omitted) == [];
    NothingIsKept(TrimmedAll(EXTENDED.enums, EXTENDED.package, omitted), after.enums, plan.enums);
    assert TypesOf(after).prefix + "Q" == ".Q" != ".A";
    NoDeclaration(TypesOf(after), ".A");
  }

  /** An ordinary request: the service is kept, and the type of the extension is not. */
  lemma ExtensionDangles(allowed: set<string>, omitted: set<string>, s: Selection, plan: Plan, after: File)
    requires "S" in allowed && Filtered(EXTENDED, allowed, omitted, s, plan, after)
    ensures after.services == EXTENDED.services && s.messages == {0}
    ensures ".A" in ExtensionRefs(after.extensions)
    ensures Resolve(TypesOf(EXTENDED), ".A") == TopMessage(1) && Resolve(TypesOf(after), ".A") == Imported
  {
    ExtendedNames();
    ExtendedRoots(allowed);
    ExtendedLeast(s);
    ExtendedProfile(omitted, plan, after);
    assert after.extensions[0].typeName == ".A";
  }

  // ---------------------------------------------------------------------------
  // Filtering again
  // ---------------------------------------------------------------------------

  /** What a selection of the profile's declarations keeps of the original ones. */
  ghost function PulledBack(plan: Plan, s: Selection, inner: Selection): Selection {
    Selection(set i | i in s.messages && i in plan.messages && plan.messages[i] in inner.messages,
              set i | i in s.enums && i in plan.enums && plan.enums[i] in inner.enums)
  }

  lemma NeedsPullBack(f: File, allowed: set<string>, omitted: set<string>,
          s: Selection, plan: Plan, after: File, inner: Selection, name: string)
    requires Filtered(f, allowed, omitted, s, plan, after)
    requires Needed(TypesOf(f), ProfileRoots(f, allowed), PulledBack(plan, s, inner), name)
    ensures Needed(TypesOf(after), ProfileRoots(f, allowed), inner, name)
    ensures Needed(TypesOf(f), ProfileRoots(f, allowed), s, name)
  {
    var back := PulledBack(plan, s, inner);
    if name !in ProfileRoots(f, allowed) {
      var i :| i in back.messages && i < |f.messages| && name in Refs(TypesOf(f).messages[i]);
      assert TypesOf(after).messages[plan.messages[i]] == f.messages[i];
    }
  }

  lemma CoverPullsBack(f: File, plan: Plan, after: File, s: Selection, inner: Selection, name: string)
    requires KeepsMeaning(f, plan, after, name)
    requires Covered(TypesOf(f), name, s) && Covered(TypesOf(after), name, inner)
    ensures Covered(TypesOf(f), name, PulledBack(plan, s, inner))
  {
  }

  lemma PullBackIsClosed(f: File, allowed: set<string>, omitted: set<string>,
          s: Selection, plan: Plan, after: File, inner: Selection)
    requires Filtered(f, allowed, omitted, s, plan, after) && OwnNamesResolve(TypesOf(f))
    requires Closed(TypesOf(after), ProfileRoots(f, allowed), inner)
    ensures Closed(TypesOf(f), ProfileRoots(f, allowed), PulledBack(plan, s, inner))
  {
    forall name | Needed(TypesOf(f), ProfileRoots(f, allowed), PulledBack(plan, s, inner), name)
      ensures Covered(TypesOf(f), name, PulledBack(plan, s, inner))
    {
      NeedsPullBack(f, allowed, omitted, s, plan, after, inner, name);
      CoveredNamesResolveAlike(f, allowed, omitted, s, plan, after, name);
      CoverPullsBack(f, plan, after, s, inner, name);
    }
  }

  /** In the profile everything is needed, so the least selection is all of it. */
  lemma ProfileNeedsEverything(f: File, allowed: set<string>, omitted: set<string>, s: Selection, plan: Plan,
          after: File, inner: Selection)
    requires Filtered(f, allowed, omitted, s, plan, after) && OwnNamesResolve(TypesOf(f))
    requires Closed(TypesOf(after), ProfileRoots(f, allowed), inner)
    ensures forall k :: 0 <= k < |after.messages| ==> k in inner.messages
    ensures forall k :: 0 <= k < |after.enums| ==> k in inner.enums
  {
    PullBackIsClosed(f, allowed, omitted, s, plan, after, inner);
    var back := PulledBack(plan, s, inner);
    assert s.messages <= back.messages && s.enums <= back.enums;
    forall k | 0 <= k < |after.messages| ensures k in inner.messages {
      assert Hit(plan.messages, k);
      var i :| i in plan.messages && plan.messages[i] == k;
      assert i in back.messages;
    }
    forall k | 0 <= k < |after.enums| ensures k in inner.enums {
      assert Hit(plan.enums, k);
      var i :| i in plan.enums && plan.enums[i] == k;
      assert i in back.enums;
    }
  }

  lemma {:induction false} AllAllowed(services: seq<Service>, package: string, allowed: set<string>)
    ensures forall s :: s in AllowedServices(services, package, allowed) ==> QualifiedName(package, s.name) in allowed
  {
    if services == [] {
    } else {
      AllAllowed(services[..|services| - 1], package, allowed);
    }
  }

  lemma {:induction false} AllowingAll(services: seq<Service>, package: string, allowed: set<string>)
    requires forall s :: s in services ==> QualifiedName(package, s.name) in allowed
    ensures AllowedServices(services, package, allowed) == services
  {
    if services == [] {
    } else {
      assert services == services[..|services| - 1] + [services[|services| - 1]];
      AllowingAll(services[..|services| - 1], package, allowed);
    }
  }

  lemma ServicesStable(f: File, allowed: set<string>)
    ensures var kept := AllowedServices(f.services, f.package, allowed);
      AllowedServices(kept, f.package, allowed) == kept
  {
    AllAllowed(f.services, f.package, allowed);
    AllowingAll(AllowedServices(f.services, f.package, allowed), f.package, allowed);
  }

  /** A profile never omits a zero value again, so filtering it again cannot raise. */
  lemma ProfileOmitsNoZero(f: File, allowed: set<string>, omitted: set<string>, s: Selection, plan: Plan, after: File,
          keep: set<nat>)
    requires Filtered(f, allowed, omitted, s, plan, after)
    ensures !OmitsKeptZero(after, omitted, keep)
    ensures TrimmedAll(after.enums, after.package, omitted) == after.enums
  {
    forall k | 0 <= k < |after.enums|
      ensures !OmitsZero(after.enums[k], f.package, omitted)
      ensures Trimmed(after.enums[k], f.package, omitted) == after.enums[k]
    {
      assert Hit(plan.enums, k);
      var i :| i in plan.enums && plan.enums[i] == k;
      assert after.enums[k] == Trimmed(f.enums[i], f.package, omitted);
      TrimmingTwice(f.enums[i], f.package, omitted);
    }
  }

  // ---------------------------------------------------------------------------
  // Source locations
  // ---------------------------------------------------------------------------

  datatype Declaration =
    | ServiceDeclaration(service: Service)
    | MessageDeclaration(message: Message)
    | EnumDeclaration(name: string)
    | ValueDeclaration(enum: string, value: EnumValue)
    | Elsewhere
    | Missing

  /** The declaration a source location path names. */
  function Named(f: File, path: seq<int>): Declaration {
    if |path| < 2 then Elsewhere
    else if path[0] == SERVICE_FIELD then
      if 0 <= path[1] < |f.services| then ServiceDeclaration(f.services[path[1]]) else Missing
    else if path[0] == MESSAGE_FIELD then
      if 0 <= path[1] < |f.messages| then MessageDeclaration(f.messages[path[1]]) else Missing
    else if path[0] == ENUM_FIELD then
      if 0 <= path[1] < |f.enums| then
        if NamesEnumValue(path) then
          var enum := f.enums[path[1]];
          if 0 <= path[3] < |enum.values| then ValueDeclaration(enum.name, enum.values[path[3]]) else Missing
        else EnumDeclaration(f.enums[path[1]].name)
      else Missing
    else Elsewhere
  }

  /** The declaration a path names is part of the profile. */
  ghost predicate KeptDeclaration(f: File, allowed: set<string>, omitted: set<string>, s: Selection, path: seq<int>) {
    |path| >= 2 ==>
      && (path[0] == SERVICE_FIELD ==>
            0 <= path[1] < |f.services| && QualifiedName(f.package, f.services[path[1]].name) in allowed)
      && (path[0] == MESSAGE_FIELD ==> 0 <= path[1] < |f.messages| && path[1] in s.messages)
      && (path[0] == ENUM_FIELD ==> 0 <= path[1] < |f.enums| && path[1] in s.enums)
      && (NamesEnumValue(path) ==>
            var enum := f.enums[path[1]];
            0 <= path[3] < |enum.values|
            && QualifiedName(f.package, enum.name) + "." + enum.values[path[3]].name !in omitted)
  }

  /** A location is dropped exactly when the declaration it names is. */
  lemma DroppedExactlyWithDeclaration(f: File, allowed: set<string>, omitted: set<string>, s: Selection, plan: Plan,
          after: File, path: seq<int>)
    requires Filtered(f, allowed, omitted, s, plan, after)
    ensures Remapped(plan, path).Some? <==> KeptDeclaration(f, allowed, omitted, s, path)
  {
    if |path| >= 2 && path[0] == ENUM_FIELD {
      var e := path[1];
      assert e in plan.enums <==> 0 <= e < |f.enums| && e in s.enums;
      if e in plan.enums && NamesEnumValue(path) {
        assert path[3] in plan.values[e] <==>
          0 <= path[3] < |f.enums[e].values|
          && QualifiedName(f.package, f.enums[e].name) + "." + f.enums[e].values[path[3]].name !in omitted;
      }
    } else if |path| >= 2 && path[0] == MESSAGE_FIELD {
      assert path[1] in plan.messages <==> 0 <= path[1] < |f.messages| && path[1] in s.messages;
    } else if |path| >= 2 && path[0] == SERVICE_FIELD {
      assert path[1] in plan.services <==>
        0 <= path[1] < |f.services| && QualifiedName(f.package, f.services[path[1]].name) in allowed;
    }
  }

  /** `moved` names the same declaration of the profile, and nothing else in the path changed. */
  ghost predicate NamesTheSame(f: File, after: File, path: seq<int>, moved: seq<int>) {
    && Named(after, moved) == Named(f, path) != Missing
    && |moved| == |path|
    && forall k :: 0 <= k < |path| && k != 1 && (k != 3 || !NamesEnumValue(path)) ==> moved[k] == path[k]
  }

  lemma SurvivingEnumNamesTheSame(f: File, omitted: set<string>, plan: Plan, after: File, path: seq<int>)
    requires PlanPlaces(f, omitted, plan, after) && plan.values.Keys == plan.enums.Keys
    requires |path| >= 2 && path[0] == ENUM_FIELD && Remapped(plan, path).Some?
    ensures NamesTheSame(f, after, path, Remapped(plan, path).value)
  {
    var e := path[1];
    assert e in plan.enums && e in plan.values;
    assert after.enums[plan.enums[e]] == Trimmed(f.enums[e], f.package, omitted) by {
      assert TrimmedAll(f.enums, f.package, omitted)[e] == Trimmed(f.enums[e], f.package, omitted);
    }
    if NamesEnumValue(path) {
      assert Compacts(f.enums[e].values, Trimmed(f.enums[e], f.package, omitted).values, plan.values[e]);
    }
  }

  /** A location that survives names the same declaration, and nothing else in its path changes. */
  lemma SurvivorsNameTheSame(f: File, allowed: set<string>, omitted: set<string>,
          s: Selection, plan: Plan, after: File, path: seq<int>)
    requires Filtered(f, allowed, omitted, s, plan, after) && Remapped(plan, path).Some?
    ensures NamesTheSame(f, after, path, Remapped(plan, path).value)
  {
    if |path| < 2 {
    } else if path[0] == ENUM_FIELD {
      SurvivingEnumNamesTheSame(f, omitted, plan, after, path);
    } else {
      assert !NamesEnumValue(path);
    }
  }

  lemma {:induction false} EveryLocationComesFrom(plan: Plan, locations: seq<Location>, l: Location)
    requires l in RemappedAll(plan, locations)
    ensures exists o :: o in locations && Remapped(plan, o.path) == Some(l.path) && l.text == o.text
  {
    var last := locations[|locations| - 1];
    if l in RemappedAll(plan, locations[..|locations| - 1]) {
      EveryLocationComesFrom(plan, locations[..|locations| - 1], l);
      var o :| o in locations[..|locations| - 1] && Remapped(plan, o.path) == Some(l.path) && l.text == o.text;
      assert o in locations;
    } else {
      assert last in locations;
    }
  }

  lemma ValuesStay(enum: EnumDecl, package: string, omitted: set<string>, at: map<int, nat>)
    requires Trimmed(enum, package, omitted) == enum && Compacts(enum.values, enum.values, at)
    requires forall i | 0 <= i < |enum.values| ::
               QualifiedName(package, enum.name) + "." + enum.values[i].name !in omitted ==> i in at
    ensures Stays(at, |enum.values|)
  {
    NoKeptValueIsOmitted(enum.values, QualifiedName(package, enum.name), omitted);
    forall i | 0 <= i < |enum.values| ensures i in at {
      assert enum.values[i] in enum.values;
    }
    CompactAllIsIdentity(enum.values, enum.values, at);
  }

  ghost predicate ValueTablesStay(f: File, plan: Plan) {
    forall e :: e in plan.values && 0 <= e < |f.enums| ==> Stays(plan.values[e], |f.enums[e].values|)
  }

  ghost predicate KeepsAll(f: File, plan: Plan) {
    && Stays(plan.services, |f.services|)
    && Stays(plan.messages, |f.messages|)
    && Stays(plan.enums, |f.enums|)
    && ValueTablesStay(f, plan)
  }

  lemma NamedPathsStay(f: File, plan: Plan, path: seq<int>)
    requires KeepsAll(f, plan) && Named(f, path) != Missing
    ensures Remapped(plan, path) == Some(path)
  {
    if |path| >= 2 {
      assert path[1 := path[1]] == path;
      if |path| >= 4 {
        assert path[3 := path[3]] == path;
      }
    }
  }

  lemma {:induction false} LocationsStay(plan: Plan, locations: seq<Location>)
    requires forall l :: l in locations ==> Remapped(plan, l.path) == Some(l.path)
    ensures RemappedAll(plan, locations) == locations
  {
    if locations == [] {
    } else {
      var before := locations[..|locations| - 1];
      assert locations == before + [locations[|locations| - 1]];
      assert locations[|locations| - 1] in locations;
      LocationsStay(plan, before);
    }
  }

  lemma ProfileLocationsNameSomething(f: File, allowed: set<string>, omitted: set<string>, s: Selection, plan: Plan,
          after: File)
    requires Filtered(f, allowed, omitted, s, plan, after)
    ensures forall l :: l in after.locations ==> Named(after, l.path) != Missing
  {
    forall l | l in after.locations ensures Named(after, l.path) != Missing {
      EveryLocationComesFrom(plan, f.locations, l);
      var o :| o in f.locations && Remapped(plan, o.path) == Some(l.path) && l.text == o.text;
      SurvivorsNameTheSame(f, allowed, omitted, s, plan, after, o.path);
    }
  }

  lemma SecondPlanKeepsServices(f: File, allowed: set<string>, omitted: set<string>,
          after: File, s2: Selection, plan2: Plan, again: File)
    requires after.services == AllowedServices(f.services, f.package, allowed) && after.package == f.package
    requires Filtered(after, allowed, omitted, s2, plan2, again)
    ensures Stays(plan2.services, |after.services|) && again.services == after.services
  {
    AllAllowed(f.services, f.package, allowed);
    forall i | 0 <= i < |after.services| ensures i in plan2.services {
      assert after.services[i] in after.services;
    }
    CompactAllIsIdentity(after.services, again.services, plan2.services);
  }

  lemma SecondPlanKeepsMessages(f: File, allowed: set<string>, omitted: set<string>,
          s: Selection, plan: Plan, after: File, s2: Selection, plan2: Plan, again: File)
    requires Filtered(f, allowed, omitted, s, plan, after) && OwnNamesResolve(TypesOf(f))
    requires Closed(TypesOf(after), ProfileRoots(after, allowed), s2) && PlanKeeps(after, allowed, omitted, s2, plan2)
    requires Compacts(after.messages, again.messages, plan2.messages)
    ensures Stays(plan2.messages, |after.messages|) && again.messages == after.messages
    ensures KeepsEach(plan2.enums, |after.enums|)
  {
    ServicesStable(f, allowed);
    ProfileNeedsEverything(f, allowed, omitted, s, plan, after, s2);
    CompactAllIsIdentity(after.messages, again.messages, plan2.messages);
  }

  lemma SecondPlanKeepsEnums(allowed: set<string>, omitted: set<string>,
          after: File, s2: Selection, plan2: Plan, again: File)
    requires Filtered(after, allowed, omitted, s2, plan2, again) && KeepsEach(plan2.enums, |after.enums|)
    requires TrimmedAll(after.enums, after.package, omitted) == after.enums
    ensures Stays(plan2.enums, |after.enums|) && again.enums == after.enums
    ensures ValueTablesStay(after, plan2)
  {
    CompactAllIsIdentity(after.enums, again.enums, plan2.enums);
    forall e | e in plan2.values && 0 <= e < |after.enums| ensures Stays(plan2.values[e], |after.enums[e].values|) {
      assert TrimmedAll(after.enums, after.package, omitted)[e] == Trimmed(after.enums[e], after.package, omitted);
      ValuesStay(after.enums[e], after.package, omitted, plan2.values[e]);
    }
  }

  /** The second filtering keeps every declaration where it is. */
  lemma SecondPlanKeepsAll(f: File, allowed: set<string>, omitted: set<string>,
          s: Selection, plan: Plan, after: File, s2: Selection, plan2: Plan, again: File)
    requires Filtered(f, allowed, omitted, s, plan, after) && OwnNamesResolve(TypesOf(f))
    requires Filtered(after, allowed, omitted, s2, plan2, again)
    ensures KeepsAll(after, plan2)
    ensures again.services == after.services && again.messages == after.messages && again.enums == after.enums
  {
    SecondPlanKeepsServices(f, allowed, omitted, after, s2, plan2, again);
    SecondPlanKeepsMessages(f, allowed, omitted, s, plan, after, s2, plan2, again);
    ProfileOmitsNoZero(f, allowed, omitted, s, plan, after, s2.enums);
    SecondPlanKeepsEnums(allowed, omitted, after, s2, plan2, again);
  }

  /** Filtering is the identity on its own results, source locations included. */
  lemma FilteringIsIdempotent(f: File, allowed: set<string>, omitted: set<string>,
          s: Selection, plan: Plan, after: File, s2: Selection, plan2: Plan, again: File)
    requires Filtered(f, allowed, omitted, s, plan, after) && OwnNamesResolve(TypesOf(f))
    requires Filtered(after, allowed, omitted, s2, plan2, again)
    ensures again == after
  {
    SecondPlanKeepsAll(f, allowed, omitted, s, plan, after, s2, plan2, again);
    ProfileLocationsNameSomething(f, allowed, omitted, s, plan, after);
    forall l | l in after.locations ensures Remapped(plan2, l.path) == Some(l.path) {
      NamedPathsStay(after, plan2, l.path);
    }
    LocationsStay(plan2, after.locations);
  }
}
