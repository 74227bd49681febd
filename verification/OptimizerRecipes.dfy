/**
 Admission of optimizer pipeline recipes.

 A recipe lists group overlays, each selected by the features a caller asks for.
 The loader looks once at every pair of pass occurrences.  That decides a statement
 about every feature set the recipe admits.
 */
module OptimizerRecipes {
  import opened Results

  datatype Semantics = Exact | NumericalMigration | QuantizationAuthoring

  datatype Pass = Pass(
    semantics: Semantics,
    requiresCalibration: bool,
    changesPublicAbi: bool,
    mustRunAfter: set<string>,
    mustRunBefore: set<string>,
    conflictsWith: set<string>,
    targetRules: seq<set<string>>)

  /** Passes by id, and for every group id the passes of one traversal of the group. */
  datatype Registry = Registry(passes: map<string, Pass>, groups: map<string, seq<string>>) {
    /** The loader rejects groups that name unknown passes before it reads a recipe. */
    predicate Valid() {
      forall g, i :: g in groups && 0 <= i < |groups[g]| ==> groups[g][i] in passes
    }
  }

  datatype Overlay = Overlay(groupId: string, required: set<string>, forbidden: set<string>)

  datatype Recipe = Recipe(
    overlays: seq<Overlay>,
    targets: set<string>,
    allowedSemantics: set<Semantics>,
    allowCalibration: bool,
    allowPublicAbiChange: bool,
    required: set<string>,
    supported: set<string>)

  datatype RecipeError =
    | RequiredAndSupported
    | UnknownFeature
    | Incomplete
    | UnusedOptionalFeature
    | OverlayRequiresAndForbids
    | OverlayUnsupportedFeature
    | OverlayUnknownGroup
    | OverlayNeverSelected
    | PolicySensitive(pass: string)
    | SemanticsNotAllowed(pass: string)
    | CalibrationForbidden(pass: string)
    | AbiChangeForbidden(pass: string)
    | TargetUnsupported(pass: string)
    | SelectedTwice(pass: string)
    | Conflicting(left: string, right: string)
    | BeforePredecessor(left: string, right: string)
    | AfterSuccessor(left: string, right: string)

  // ---------------------------------------------------------------------------
  // What a caller sees: feature sets, selected overlays, the passes that then run
  // ---------------------------------------------------------------------------

  /** F is a feature set a caller may hand to the recipe. */
  ghost predicate Matches(recipe: Recipe, F: set<string>) {
    recipe.required <= F <= recipe.required + recipe.supported
  }

  ghost predicate Selects(overlay: Overlay, F: set<string>) {
    overlay.required <= F && overlay.forbidden !! F
  }

  /** The passes that run for F: the selected groups, in recipe order, once each. */
  ghost function Flatten(registry: Registry, overlays: seq<Overlay>, F: set<string>): seq<string>
    requires Grouped(registry, overlays)
  {
    if overlays == [] then []
    else (if Selects(overlays[0], F) then registry.groups[overlays[0].groupId] else [])
         + Flatten(registry, overlays[1..], F)
  }

  ghost predicate Grouped(registry: Registry, overlays: seq<Overlay>) {
    forall o :: o in overlays ==> o.groupId in registry.groups
  }

  /** `left` may run some time before `right` in one selection. */
  predicate MayPrecede(registry: Registry, left: string, right: string) {
    && left != right
    && left in registry.passes && right in registry.passes
    && right !in registry.passes[left].conflictsWith
    && left !in registry.passes[right].conflictsWith
    && right !in registry.passes[left].mustRunAfter
    && left !in registry.passes[right].mustRunBefore
  }

  predicate Sensitive(pass: Pass) {
    pass.semantics != Exact || pass.requiresCalibration || pass.changesPublicAbi
  }

  function Backends(rules: seq<set<string>>): (backends: set<string>)
    ensures forall b :: b in backends <==> exists rule :: rule in rules && b in rule
  {
    if rules == [] then {} else rules[0] + Backends(rules[1..])
  }

  predicate Permitted(recipe: Recipe, pass: Pass) {
    && pass.semantics in recipe.allowedSemantics
    && (pass.requiresCalibration ==> recipe.allowCalibration)
    && (pass.changesPublicAbi ==> recipe.allowPublicAbiChange)
    && (recipe.targets != {} && pass.targetRules != [] ==> recipe.targets <= Backends(pass.targetRules))
  }

  /** Everything a caller relies on once F is chosen. */
  ghost predicate SoundFor(registry: Registry, recipe: Recipe, F: set<string>)
    requires Grouped(registry, recipe.overlays)
  {
    var run := Flatten(registry, recipe.overlays, F);
    && (forall i, j :: 0 <= i < j < |run| ==> MayPrecede(registry, run[i], run[j]))
    && (forall id :: id in run ==> id in registry.passes && Permitted(recipe, registry.passes[id]))
    && (F == {} ==> forall id :: id in run ==> id in registry.passes && !Sensitive(registry.passes[id]))
  }

  /** Shape checks made before any pass is looked at. */
  ghost predicate WellShaped(registry: Registry, recipe: Recipe) {
    && recipe.required !! recipe.supported
    && recipe.overlays != []
    && recipe.allowedSemantics != {}
    && (forall o :: o in recipe.overlays ==> OverlayShaped(registry, recipe, o))
    && (forall f :: f in recipe.supported ==> exists o :: o in recipe.overlays && f in o.required + o.forbidden)
  }

  ghost predicate OverlayShaped(registry: Registry, recipe: Recipe, o: Overlay) {
    && o.required !! o.forbidden
    && o.required + o.forbidden <= recipe.required + recipe.supported
    && o.groupId in registry.groups
    && (recipe.required + o.required) !! o.forbidden
  }

  // ---------------------------------------------------------------------------
  // The finite checks
  // ---------------------------------------------------------------------------

  predicate CanCoSelect(required: set<string>, left: Overlay, right: Overlay) {
    (required + left.required + right.required) !! (left.forbidden + right.forbidden)
  }

  /** One pass of one overlay's group, in recipe order. */
  datatype Occurrence = Occurrence(pass: string, overlay: Overlay)

  function GroupOccurrences(passes: seq<string>, overlay: Overlay): seq<Occurrence> {
    seq(|passes|, i requires 0 <= i < |passes| => Occurrence(passes[i], overlay))
  }

  ghost function Occurrences(registry: Registry, overlays: seq<Overlay>): seq<Occurrence>
    requires Grouped(registry, overlays)
  {
    if overlays == [] then []
    else GroupOccurrences(registry.groups[overlays[0].groupId], overlays[0])
         + Occurrences(registry, overlays[1..])
  }

  /** What the loader's loop over occurrences lets through for one of them. */
  predicate OccurrenceAdmitted(registry: Registry, recipe: Recipe, o: Occurrence) {
    && o.pass in registry.passes
    && (Sensitive(registry.passes[o.pass]) ==> recipe.required != {} || o.overlay.required != {})
    && Permitted(recipe, registry.passes[o.pass])
  }

  ghost predicate AllAdmitted(registry: Registry, recipe: Recipe, occurrences: seq<Occurrence>) {
    forall o :: o in occurrences ==> OccurrenceAdmitted(registry, recipe, o)
  }

  predicate PairAdmitted(registry: Registry, recipe: Recipe, left: Occurrence, right: Occurrence) {
    CanCoSelect(recipe.required, left.overlay, right.overlay) ==> MayPrecede(registry, left.pass, right.pass)
  }

  ghost predicate PairsAdmitted(registry: Registry, recipe: Recipe, occurrences: seq<Occurrence>) {
    forall i, j :: 0 <= i < j < |occurrences| ==> PairAdmitted(registry, recipe, occurrences[i], occurrences[j])
  }

  /** `overlays_can_co_select` holds exactly when one admitted feature set selects both overlays. */
  lemma CanCoSelectIsExact(registry: Registry, recipe: Recipe, left: Overlay, right: Overlay)
    requires OverlayShaped(registry, recipe, left) && OverlayShaped(registry, recipe, right)
    ensures CanCoSelect(recipe.required, left, right)
            <==> exists F :: Matches(recipe, F) && Selects(left, F) && Selects(right, F)
  {
    var F := recipe.required + left.required + right.required;
    if CanCoSelect(recipe.required, left, right) {
      assert Matches(recipe, F) && Selects(left, F) && Selects(right, F);
    }
    forall G | Matches(recipe, G) && Selects(left, G) && Selects(right, G)
      ensures CanCoSelect(recipe.required, left, right)
    {
      assert F <= G;
    }
  }

  // ---------------------------------------------------------------------------
  // From occurrences to selections
  // ---------------------------------------------------------------------------

  /** The occurrences F selects, as pass ids. */
  ghost function Chosen(occurrences: seq<Occurrence>, F: set<string>): seq<string> {
    if occurrences == [] then []
    else (if Selects(occurrences[0].overlay, F) then [occurrences[0].pass] else [])
         + Chosen(occurrences[1..], F)
  }

  lemma ChosenOne(o: Occurrence, rest: seq<Occurrence>, F: set<string>)
    ensures Chosen([o] + rest, F) == (if Selects(o.overlay, F) then [o.pass] else []) + Chosen(rest, F)
  {
    assert ([o] + rest)[1..] == rest;
  }

  lemma {:induction false} ChosenAppend(a: seq<Occurrence>, b: seq<Occurrence>, F: set<string>)
    ensures Chosen(a + b, F) == Chosen(a, F) + Chosen(b, F)
  {
    if a == [] {
      assert a + b == b;
    } else {
      var o, rest := a[0], a[1..];
      assert a == [o] + rest && a + b == [o] + (rest + b);
      ChosenOne(o, rest, F);
      ChosenOne(o, rest + b, F);
      ChosenAppend(rest, b, F);
    }
  }

  lemma ChosenGroup(passes: seq<string>, overlay: Overlay, F: set<string>)
    ensures Chosen(GroupOccurrences(passes, overlay), F) == if Selects(overlay, F) then passes else []
  {
    if passes == [] {
    } else {
      assert GroupOccurrences(passes, overlay)[1..] == GroupOccurrences(passes[1..], overlay);
      ChosenGroup(passes[1..], overlay, F);
      assert passes == [passes[0]] + passes[1..];
    }
  }

  /** The loader's occurrence list describes every selection at once. */
  lemma FlattenIsChosen(registry: Registry, overlays: seq<Overlay>, F: set<string>)
    requires Grouped(registry, overlays)
    ensures Flatten(registry, overlays, F) == Chosen(Occurrences(registry, overlays), F)
  {
    if overlays == [] {
    } else {
      var group := registry.groups[overlays[0].groupId];
      ChosenAppend(GroupOccurrences(group, overlays[0]), Occurrences(registry, overlays[1..]), F);
      ChosenGroup(group, overlays[0], F);
      FlattenIsChosen(registry, overlays[1..], F);
    }
  }

  /** F selects the occurrence at position `i`. */
  ghost predicate SelectedAt(occurrences: seq<Occurrence>, F: set<string>, i: int) {
    0 <= i < |occurrences| && Selects(occurrences[i].overlay, F)
  }

  /** Every position in `at` is that of an occurrence F selects. */
  ghost predicate OnlySelected(occurrences: seq<Occurrence>, F: set<string>, at: seq<nat>) {
    forall k :: 0 <= k < |at| ==> SelectedAt(occurrences, F, at[k])
  }

  ghost predicate Rising(at: seq<nat>) {
    forall k, l :: 0 <= k < l < |at| ==> at[k] < at[l]
  }

  ghost predicate AllSelected(occurrences: seq<Occurrence>, F: set<string>, at: seq<nat>) {
    forall i {:trigger SelectedAt(occurrences, F, i)} :: SelectedAt(occurrences, F, i) ==> i in at
  }

  /** `at` lists, in order, exactly the positions of the occurrences F selects. */
  ghost predicate SelectedPositions(occurrences: seq<Occurrence>, F: set<string>, at: seq<nat>) {
    OnlySelected(occurrences, F, at) && Rising(at) && AllSelected(occurrences, F, at)
  }

  /** The passes found at the positions `at` are `run`. */
  ghost predicate Reads(occurrences: seq<Occurrence>, at: seq<nat>, run: seq<string>) {
    && |at| == |run|
    && forall k :: 0 <= k < |at| ==> at[k] < |occurrences| && occurrences[at[k]].pass == run[k]
  }

  lemma ReadsStep(before: seq<Occurrence>, o: Occurrence, at: seq<nat>, run: seq<string>)
    requires Reads(before, at, run)
    ensures Reads(before + [o], at, run)
    ensures Reads(before + [o], at + [|before|], run + [o.pass])
  {
  }

  lemma ChosenStep(before: seq<Occurrence>, o: Occurrence, F: set<string>, at: seq<nat>)
    requires Reads(before, at, Chosen(before, F))
    ensures Reads(before + [o], if Selects(o.overlay, F) then at + [|before|] else at, Chosen(before + [o], F))
  {
    ChosenAppend(before, [o], F);
    assert Chosen([o], F) == if Selects(o.overlay, F) then [o.pass] else [] by {
      ChosenOne(o, [], F);
      assert [o] + [] == [o];
    }
    ReadsStep(before, o, at, Chosen(before, F));
  }

  lemma OnlySelectedStep(before: seq<Occurrence>, o: Occurrence, F: set<string>, at: seq<nat>)
    requires OnlySelected(before, F, at)
    ensures OnlySelected(before + [o], F, at)
    ensures Selects(o.overlay, F) ==> OnlySelected(before + [o], F, at + [|before|])
  {
    forall k | 0 <= k < |at| ensures SelectedAt(before + [o], F, at[k]) {
      assert SelectedAt(before, F, at[k]);
    }
  }

  lemma RisingStep(before: seq<Occurrence>, F: set<string>, at: seq<nat>)
    requires OnlySelected(before, F, at) && Rising(at)
    ensures Rising(at + [|before|])
  {
    forall k | 0 <= k < |at| ensures at[k] < |before| {
      assert SelectedAt(before, F, at[k]);
    }
  }

  lemma AllSelectedStep(before: seq<Occurrence>, o: Occurrence, F: set<string>, at: seq<nat>)
    requires AllSelected(before, F, at)
    ensures Selects(o.overlay, F) ==> AllSelected(before + [o], F, at + [|before|])
    ensures !Selects(o.overlay, F) ==> AllSelected(before + [o], F, at)
  {
    forall i | SelectedAt(before + [o], F, i) ensures i in (if Selects(o.overlay, F) then at + [|before|] else at) {
      if i < |before| {
        assert SelectedAt(before, F, i);
      }
    }
  }

  /** One more occurrence at the end of the list. */
  lemma SelectedPositionsStep(before: seq<Occurrence>, o: Occurrence, F: set<string>, at: seq<nat>)
    requires SelectedPositions(before, F, at)
    ensures SelectedPositions(before + [o], F, if Selects(o.overlay, F) then at + [|before|] else at)
  {
    OnlySelectedStep(before, o, F, at);
    RisingStep(before, F, at);
    AllSelectedStep(before, o, F, at);
  }

  /** Order is kept in both directions between the occurrence list and a selection. */
  lemma {:induction false} ChosenPositions(occurrences: seq<Occurrence>, F: set<string>) returns (at: seq<nat>)
    ensures SelectedPositions(occurrences, F, at)
    ensures Reads(occurrences, at, Chosen(occurrences, F))
  {
    if occurrences == [] {
      at := [];
    } else {
      var last := |occurrences| - 1;
      var before, o := occurrences[..last], occurrences[last];
      assert occurrences == before + [o] && |before| == last;
      at := ChosenPositions(before, F);
      SelectedPositionsStep(before, o, F, at);
      ChosenStep(before, o, F, at);
      at := if Selects(o.overlay, F) then at + [last] else at;
    }
  }

  /** Two selected occurrences are found in the selection, in the order of the list. */
  lemma FoundInOrder(occurrences: seq<Occurrence>, F: set<string>, i: nat, j: nat) returns (k: nat, l: nat)
    requires i < j && SelectedAt(occurrences, F, i) && SelectedAt(occurrences, F, j)
    ensures k < l < |Chosen(occurrences, F)|
    ensures Chosen(occurrences, F)[k] == occurrences[i].pass && Chosen(occurrences, F)[l] == occurrences[j].pass
  {
    var at := ChosenPositions(occurrences, F);
    assert i in at && j in at;
    k :| 0 <= k < |at| && at[k] == i;
    l :| 0 <= l < |at| && at[l] == j;
  }

  lemma OccurrencesOverlays(registry: Registry, overlays: seq<Overlay>)
    requires Grouped(registry, overlays)
    ensures forall o :: o in Occurrences(registry, overlays) ==> o.overlay in overlays
  {
    if overlays == [] {
    } else {
      OccurrencesOverlays(registry, overlays[1..]);
    }
  }

  /** The pairwise check is sound: it protects every admitted selection. */
  lemma PairsProtectSelections(registry: Registry, recipe: Recipe, F: set<string>)
    requires WellShaped(registry, recipe) && Matches(recipe, F)
    requires PairsAdmitted(registry, recipe, Occurrences(registry, recipe.overlays))
    ensures var run := Flatten(registry, recipe.overlays, F);
            forall i, j :: 0 <= i < j < |run| ==> MayPrecede(registry, run[i], run[j])
  {
    var occurrences := Occurrences(registry, recipe.overlays);
    FlattenIsChosen(registry, recipe.overlays, F);
    OccurrencesOverlays(registry, recipe.overlays);
    var at := ChosenPositions(occurrences, F);
    forall i, j | 0 <= i < j < |at|
      ensures MayPrecede(registry, Chosen(occurrences, F)[i], Chosen(occurrences, F)[j])
    {
      assert SelectedAt(occurrences, F, at[i]) && SelectedAt(occurrences, F, at[j]);
      CanCoSelectIsExact(registry, recipe, occurrences[at[i]].overlay, occurrences[at[j]].overlay);
    }
  }

  /** ... and exact: a pair it refuses really occurs, in that order, for some admitted selection. */
  lemma RefusedPairIsReached(registry: Registry, recipe: Recipe, i: nat, j: nat)
    returns (F: set<string>, k: nat, l: nat)
    requires WellShaped(registry, recipe)
    requires i < j < |Occurrences(registry, recipe.overlays)|
    requires var o := Occurrences(registry, recipe.overlays);
             CanCoSelect(recipe.required, o[i].overlay, o[j].overlay)
    ensures Matches(recipe, F)
    ensures var run := Flatten(registry, recipe.overlays, F);
            var o := Occurrences(registry, recipe.overlays);
            k < l < |run| && run[k] == o[i].pass && run[l] == o[j].pass
  {
    var occurrences := Occurrences(registry, recipe.overlays);
    OccurrencesOverlays(registry, recipe.overlays);
    CanCoSelectIsExact(registry, recipe, occurrences[i].overlay, occurrences[j].overlay);
    F :| Matches(recipe, F) && Selects(occurrences[i].overlay, F) && Selects(occurrences[j].overlay, F);
    FlattenIsChosen(registry, recipe.overlays, F);
    k, l := FoundInOrder(occurrences, F, i, j);
  }

  /** An occurrence is run by some admitted selection, and by the empty one if nothing is required. */
  lemma OccurrenceIsReached(registry: Registry, recipe: Recipe, i: nat) returns (F: set<string>)
    requires WellShaped(registry, recipe)
    requires i < |Occurrences(registry, recipe.overlays)|
    ensures Matches(recipe, F)
    ensures Occurrences(registry, recipe.overlays)[i].pass in Flatten(registry, recipe.overlays, F)
    ensures recipe.required == {} && Occurrences(registry, recipe.overlays)[i].overlay.required == {} ==> F == {}
  {
    var occurrences := Occurrences(registry, recipe.overlays);
    OccurrencesOverlays(registry, recipe.overlays);
    F := recipe.required + occurrences[i].overlay.required;
    FlattenIsChosen(registry, recipe.overlays, F);
    var at := ChosenPositions(occurrences, F);
    assert SelectedAt(occurrences, F, i);
    var k :| 0 <= k < |at| && at[k] == i;
  }

  lemma ChecksProtectAllSelections(registry: Registry, recipe: Recipe, F: set<string>)
    requires WellShaped(registry, recipe) && Matches(recipe, F)
    requires AllAdmitted(registry, recipe, Occurrences(registry, recipe.overlays))
    requires PairsAdmitted(registry, recipe, Occurrences(registry, recipe.overlays))
    ensures SoundFor(registry, recipe, F)
  {
    var occurrences := Occurrences(registry, recipe.overlays);
    OccurrencesOverlays(registry, recipe.overlays);
    PairsProtectSelections(registry, recipe, F);
    FlattenIsChosen(registry, recipe.overlays, F);
    var at := ChosenPositions(occurrences, F);
    var run := Flatten(registry, recipe.overlays, F);
    forall id | id in run
      ensures id in registry.passes && Permitted(recipe, registry.passes[id])
      ensures F == {} ==> !Sensitive(registry.passes[id])
    {
      var k :| 0 <= k < |run| && run[k] == id;
      assert SelectedAt(occurrences, F, at[k]);
      assert OccurrenceAdmitted(registry, recipe, occurrences[at[k]]);
    }
  }

  lemma SelectionsNeedAllChecks(registry: Registry, recipe: Recipe)
    requires WellShaped(registry, recipe)
    requires forall F :: Matches(recipe, F) ==> SoundFor(registry, recipe, F)
    ensures AllAdmitted(registry, recipe, Occurrences(registry, recipe.overlays))
    ensures PairsAdmitted(registry, recipe, Occurrences(registry, recipe.overlays))
  {
    var occurrences := Occurrences(registry, recipe.overlays);
    forall o | o in occurrences ensures OccurrenceAdmitted(registry, recipe, o) {
      var i :| 0 <= i < |occurrences| && occurrences[i] == o;
      var F := OccurrenceIsReached(registry, recipe, i);
      assert SoundFor(registry, recipe, F);
    }
    forall i, j | 0 <= i < j < |occurrences| ensures PairAdmitted(registry, recipe, occurrences[i], occurrences[j]) {
      if CanCoSelect(recipe.required, occurrences[i].overlay, occurrences[j].overlay) {
        var F, k, l := RefusedPairIsReached(registry, recipe, i, j);
        assert SoundFor(registry, recipe, F);
      }
    }
  }

  /**
   Main theorem: for a well-shaped recipe the two finite checks accept exactly
   when every feature set a caller could pick yields a sound run.
   */
  lemma FiniteChecksDecideAllSelections(registry: Registry, recipe: Recipe)
    requires WellShaped(registry, recipe)
    ensures AllAdmitted(registry, recipe, Occurrences(registry, recipe.overlays))
            && PairsAdmitted(registry, recipe, Occurrences(registry, recipe.overlays))
            <==> forall F :: Matches(recipe, F) ==> SoundFor(registry, recipe, F)
  {
    var occurrences := Occurrences(registry, recipe.overlays);
    if AllAdmitted(registry, recipe, occurrences) && PairsAdmitted(registry, recipe, occurrences) {
      forall F | Matches(recipe, F) ensures SoundFor(registry, recipe, F) {
        ChecksProtectAllSelections(registry, recipe, F);
      }
    }
    if forall F :: Matches(recipe, F) ==> SoundFor(registry, recipe, F) {
      SelectionsNeedAllChecks(registry, recipe);
    }
  }

  // ---------------------------------------------------------------------------
  // The loader's loops
  // ---------------------------------------------------------------------------

  /** Some caller's feature set runs `left` and, later in the same run, `right`. */
  ghost predicate CanRunInOrder(registry: Registry, recipe: Recipe, left: string, right: string)
    requires Grouped(registry, recipe.overlays)
  {
    exists F, k, l :: Matches(recipe, F) && RunsAt(registry, recipe, F, k, l, left, right)
  }

  ghost predicate RunsAt(registry: Registry, recipe: Recipe, F: set<string>, k: int, l: int, left: string,
          right: string)
    requires Grouped(registry, recipe.overlays)
  {
    var run := Flatten(registry, recipe.overlays, F);
    0 <= k < l < |run| && run[k] == left && run[l] == right
  }

  /** Some caller's feature set runs `id`, and what the recipe says does not permit that. */
  ghost predicate RunsUnpermitted(registry: Registry, recipe: Recipe, id: string)
    requires Grouped(registry, recipe.overlays)
  {
    && id in registry.passes
    && !Permitted(recipe, registry.passes[id])
    && exists F :: Matches(recipe, F) && id in Flatten(registry, recipe.overlays, F)
  }

  /** What each error raised about a recipe says about its callers. */
  ghost predicate Genuine(registry: Registry, features: set<string>, recipe: Recipe, error: RecipeError) {
    match error
    case RequiredAndSupported => !(recipe.required !! recipe.supported)
    case UnknownFeature => exists f :: f in recipe.required + recipe.supported && f !in features
    case Incomplete => recipe.overlays == [] || recipe.allowedSemantics == {}
    case UnusedOptionalFeature =>
      exists f :: f in recipe.supported && forall o :: o in recipe.overlays ==> f !in o.required + o.forbidden
    case OverlayRequiresAndForbids => exists o :: o in recipe.overlays && !(o.required !! o.forbidden)
    case OverlayUnsupportedFeature =>
      exists o :: o in recipe.overlays && !(o.required + o.forbidden <= recipe.required + recipe.supported)
    case OverlayUnknownGroup => exists o :: o in recipe.overlays && o.groupId !in registry.groups
    case OverlayNeverSelected => exists o :: o in recipe.overlays && forall F :: Matches(recipe, F) ==> !Selects(o, F)
    case PolicySensitive(id) =>
      && Grouped(registry, recipe.overlays)
      && Matches(recipe, {})
      && id in Flatten(registry, recipe.overlays, {})
      && id in registry.passes && Sensitive(registry.passes[id])
    case SemanticsNotAllowed(id) =>
      Grouped(registry, recipe.overlays) && RunsUnpermitted(registry, recipe, id)
      && registry.passes[id].semantics !in recipe.allowedSemantics
    case CalibrationForbidden(id) =>
      Grouped(registry, recipe.overlays) && RunsUnpermitted(registry, recipe, id)
      && registry.passes[id].requiresCalibration && !recipe.allowCalibration
    case AbiChangeForbidden(id) =>
      Grouped(registry, recipe.overlays) && RunsUnpermitted(registry, recipe, id)
      && registry.passes[id].changesPublicAbi && !recipe.allowPublicAbiChange
    case TargetUnsupported(id) =>
      Grouped(registry, recipe.overlays) && RunsUnpermitted(registry, recipe, id)
      && exists t :: t in recipe.targets && forall rule :: rule in registry.passes[id].targetRules ==> t !in rule
    case SelectedTwice(id) =>
      Grouped(registry, recipe.overlays) && CanRunInOrder(registry, recipe, id, id)
    case Conflicting(left, right) =>
      Grouped(registry, recipe.overlays) && CanRunInOrder(registry, recipe, left, right)
      && left in registry.passes && right in registry.passes
      && (right in registry.passes[left].conflictsWith || left in registry.passes[right].conflictsWith)
    case BeforePredecessor(left, right) =>
      Grouped(registry, recipe.overlays) && CanRunInOrder(registry, recipe, left, right)
      && left in registry.passes && right in registry.passes[left].mustRunAfter
    case AfterSuccessor(left, right) =>
      Grouped(registry, recipe.overlays) && CanRunInOrder(registry, recipe, left, right)
      && right in registry.passes && left in registry.passes[right].mustRunBefore
  }

  lemma NeverSelected(recipe: Recipe, o: Overlay)
    requires !((recipe.required + o.required) !! o.forbidden)
    ensures forall F :: Matches(recipe, F) ==> !Selects(o, F)
  {
    forall F | Matches(recipe, F) && o.required <= F ensures !Selects(o, F) {
      assert recipe.required + o.required <= F;
    }
  }

  method CheckShape(registry: Registry, features: set<string>, recipe: Recipe) returns (r: Result<(), RecipeError>)
    ensures r.Ok? <==> recipe.required + recipe.supported <= features && WellShaped(registry, recipe)
    ensures r.Err? ==> Genuine(registry, features, recipe, r.error)
  {
    if !(recipe.required !! recipe.supported) {
      return Err(RequiredAndSupported);
    }
    if !(recipe.required + recipe.supported <= features) {
      return Err(UnknownFeature);
    }
    var referenced: set<string> := {};
    for i := 0 to |recipe.overlays|
      invariant forall o :: o in recipe.overlays[..i] ==> OverlayShaped(registry, recipe, o)
      invariant forall f :: f in referenced <==> exists o :: o in recipe.overlays[..i] && f in o.required + o.forbidden
    {
      var o := recipe.overlays[i];
      assert recipe.overlays[..i + 1] == recipe.overlays[..i] + [o];
      assert o in recipe.overlays;
      if !(o.required !! o.forbidden) {
        return Err(OverlayRequiresAndForbids);
      }
      if !(o.required + o.forbidden <= recipe.required + recipe.supported) {
        return Err(OverlayUnsupportedFeature);
      }
      if o.groupId !in registry.groups {
        return Err(OverlayUnknownGroup);
      }
      if !((recipe.required + o.required) !! o.forbidden) {
        NeverSelected(recipe, o);
        return Err(OverlayNeverSelected);
      }
      referenced := referenced + o.required + o.forbidden;
    }
    assert recipe.overlays[..|recipe.overlays|] == recipe.overlays;
    if recipe.overlays == [] || recipe.allowedSemantics == {} {
      return Err(Incomplete);
    }
    if !(recipe.supported <= referenced) {
      ghost var f :| f in recipe.supported && f !in referenced;
      assert forall o :: o in recipe.overlays ==> f !in o.required + o.forbidden;
      return Err(UnusedOptionalFeature);
    }
    return Ok(());
  }

  /** The error each per-pass check raises, in terms of the one occurrence it looked at. */
  ghost predicate OccurrenceError(registry: Registry, recipe: Recipe, o: Occurrence, error: RecipeError)
    requires o.pass in registry.passes
  {
    var pass := registry.passes[o.pass];
    match error
    case PolicySensitive(id) => id == o.pass && Sensitive(pass) && recipe.required == {} && o.overlay.required == {}
    case SemanticsNotAllowed(id) => id == o.pass && pass.semantics !in recipe.allowedSemantics
    case CalibrationForbidden(id) => id == o.pass && pass.requiresCalibration && !recipe.allowCalibration
    case AbiChangeForbidden(id) => id == o.pass && pass.changesPublicAbi && !recipe.allowPublicAbiChange
    case TargetUnsupported(id) =>
      id == o.pass && pass.targetRules != [] && !(recipe.targets <= Backends(pass.targetRules))
    case _ => false
  }

  /** The per-pass checks of the loop that lists the occurrences. */
  method CheckOccurrence(registry: Registry, recipe: Recipe, o: Occurrence) returns (r: Result<(), RecipeError>)
    requires o.pass in registry.passes
    ensures r.Ok? <==> OccurrenceAdmitted(registry, recipe, o)
    ensures r.Err? ==> OccurrenceError(registry, recipe, o, r.error)
  {
    var pass := registry.passes[o.pass];
    if Sensitive(pass) && recipe.required == {} && o.overlay.required == {} {
      return Err(PolicySensitive(o.pass));
    }
    if pass.semantics !in recipe.allowedSemantics {
      return Err(SemanticsNotAllowed(o.pass));
    }
    if pass.requiresCalibration && !recipe.allowCalibration {
      return Err(CalibrationForbidden(o.pass));
    }
    if pass.changesPublicAbi && !recipe.allowPublicAbiChange {
      return Err(AbiChangeForbidden(o.pass));
    }
    if recipe.targets != {} && pass.targetRules != [] && !(recipe.targets <= Backends(pass.targetRules)) {
      return Err(TargetUnsupported(o.pass));
    }
    return Ok(());
  }

  /** An occurrence error speaks about a selection, not only about the list. */
  lemma OccurrenceErrorIsGenuine(registry: Registry, features: set<string>, recipe: Recipe, i: nat, error: RecipeError)
    requires WellShaped(registry, recipe)
    requires i < |Occurrences(registry, recipe.overlays)|
    requires Occurrences(registry, recipe.overlays)[i].pass in registry.passes
    requires OccurrenceError(registry, recipe, Occurrences(registry, recipe.overlays)[i], error)
    ensures Genuine(registry, features, recipe, error)
  {
    var F := OccurrenceIsReached(registry, recipe, i);
  }

  lemma AdmittedAppend(registry: Registry, recipe: Recipe, a: seq<Occurrence>, b: seq<Occurrence>)
    ensures AllAdmitted(registry, recipe, a + b)
            <==> AllAdmitted(registry, recipe, a) && AllAdmitted(registry, recipe, b)
  {
    assert forall o :: o in a + b <==> o in a || o in b;
  }

  /** `part` stands in `all` from position `base` on. */
  ghost predicate StandsAt(all: seq<Occurrence>, base: nat, part: seq<Occurrence>) {
    base + |part| <= |all| && forall k :: 0 <= k < |part| ==> all[base + k] == part[k]
  }

  lemma GroupErrorIsGenuine(registry: Registry, features: set<string>, recipe: Recipe,
          base: nat, part: seq<Occurrence>, j: nat, error: RecipeError)
    requires WellShaped(registry, recipe) && StandsAt(Occurrences(registry, recipe.overlays), base, part)
    requires j < |part| && part[j].pass in registry.passes && OccurrenceError(registry, recipe, part[j], error)
    ensures Genuine(registry, features, recipe, error)
  {
    OccurrenceErrorIsGenuine(registry, features, recipe, base + j, error);
  }

  /** The inner loop: the passes of one selected group, at `base` in the whole list. */
  method ListGroup(registry: Registry, features: set<string>, recipe: Recipe, overlay: Overlay, ghost base: nat)
    returns (r: Result<seq<Occurrence>, RecipeError>)
    requires registry.Valid() && WellShaped(registry, recipe) && overlay.groupId in registry.groups
    requires StandsAt(Occurrences(registry, recipe.overlays), base,
                      GroupOccurrences(registry.groups[overlay.groupId], overlay))
    ensures r.Ok? <==> AllAdmitted(registry, recipe, GroupOccurrences(registry.groups[overlay.groupId], overlay))
    ensures r.Ok? ==> r.value == GroupOccurrences(registry.groups[overlay.groupId], overlay)
    ensures r.Err? ==> Genuine(registry, features, recipe, r.error)
  {
    var group := registry.groups[overlay.groupId];
    ghost var expected := GroupOccurrences(group, overlay);
    var occurrences: seq<Occurrence> := [];
    for j := 0 to |group|
      invariant occurrences == expected[..j]
      invariant AllAdmitted(registry, recipe, occurrences)
    {
      var o := Occurrence(group[j], overlay);
      assert expected[j] == o;
      var checked := CheckOccurrence(registry, recipe, o);
      if checked.Err? {
        GroupErrorIsGenuine(registry, features, recipe, base, expected, j, checked.error);
        return Err(checked.error);
      }
      AdmittedAppend(registry, recipe, occurrences, [o]);
      occurrences := occurrences + [o];
    }
    return Ok(occurrences);
  }

  /** Listing the group of overlay `i` extends the list by the first part of what is still to come. */
  lemma OccurrencesStep(registry: Registry, recipe: Recipe, i: nat, done: seq<Occurrence>)
    requires Grouped(registry, recipe.overlays) && i < |recipe.overlays| && Grouped(registry, recipe.overlays[i..])
    requires Occurrences(registry, recipe.overlays) == done + Occurrences(registry, recipe.overlays[i..])
    requires AllAdmitted(registry, recipe, done)
    ensures Grouped(registry, recipe.overlays[i + 1..])
    ensures var all := Occurrences(registry, recipe.overlays);
            var overlay := recipe.overlays[i];
            var group := GroupOccurrences(registry.groups[overlay.groupId], overlay);
            && StandsAt(all, |done|, group)
            && all == (done + group) + Occurrences(registry, recipe.overlays[i + 1..])
            && (AllAdmitted(registry, recipe, group) <==> AllAdmitted(registry, recipe, done + group))
            && (AllAdmitted(registry, recipe, all) ==> AllAdmitted(registry, recipe, group))
  {
    var group := GroupOccurrences(registry.groups[recipe.overlays[i].groupId], recipe.overlays[i]);
    var later := Occurrences(registry, recipe.overlays[i + 1..]);
    assert recipe.overlays[i..][1..] == recipe.overlays[i + 1..];
    assert Occurrences(registry, recipe.overlays[i..]) == group + later;
    assert done + (group + later) == (done + group) + later;
    AdmittedAppend(registry, recipe, done, group);
    AdmittedAppend(registry, recipe, done + group, later);
  }

  method ListOccurrences(registry: Registry, features: set<string>, recipe: Recipe)
    returns (r: Result<seq<Occurrence>, RecipeError>)
    requires registry.Valid() && WellShaped(registry, recipe)
    ensures r.Ok? <==> AllAdmitted(registry, recipe, Occurrences(registry, recipe.overlays))
    ensures r.Ok? ==> r.value == Occurrences(registry, recipe.overlays)
    ensures r.Err? ==> Genuine(registry, features, recipe, r.error)
  {
    var occurrences: seq<Occurrence> := [];
    assert recipe.overlays[0..] == recipe.overlays;
    for i := 0 to |recipe.overlays|
      invariant Grouped(registry, recipe.overlays) && Grouped(registry, recipe.overlays[i..])
      invariant Occurrences(registry, recipe.overlays) == occurrences + Occurrences(registry, recipe.overlays[i..])
      invariant AllAdmitted(registry, recipe, occurrences)
    {
      assert recipe.overlays[i] in recipe.overlays;
      OccurrencesStep(registry, recipe, i, occurrences);
      var listed := ListGroup(registry, features, recipe, recipe.overlays[i], |occurrences|);
      if listed.Err? {
        return Err(listed.error);
      }
      occurrences := occurrences + listed.value;
    }
    return Ok(occurrences);
  }

  /** The error each check of a pair raises, in terms of the two passes it looked at. */
  ghost predicate PairError(registry: Registry, left: string, right: string, error: RecipeError)
    requires left in registry.passes && right in registry.passes
  {
    match error
    case SelectedTwice(id) => id == left == right
    case Conflicting(l, r) =>
      && l == left && r == right
      && (right in registry.passes[left].conflictsWith || left in registry.passes[right].conflictsWith)
    case BeforePredecessor(l, r) => l == left && r == right && right in registry.passes[left].mustRunAfter
    case AfterSuccessor(l, r) => l == left && r == right && left in registry.passes[right].mustRunBefore
    case _ => false
  }

  /** The checks of one pair that one selection can run. */
  method CheckPair(registry: Registry, leftId: string, rightId: string) returns (r: Result<(), RecipeError>)
    requires leftId in registry.passes && rightId in registry.passes
    ensures r.Ok? <==> MayPrecede(registry, leftId, rightId)
    ensures r.Err? ==> PairError(registry, leftId, rightId, r.error)
  {
    var left, right := registry.passes[leftId], registry.passes[rightId];
    if leftId == rightId {
      return Err(SelectedTwice(leftId));
    }
    if rightId in left.conflictsWith || leftId in right.conflictsWith {
      return Err(Conflicting(leftId, rightId));
    }
    if rightId in left.mustRunAfter {
      return Err(BeforePredecessor(leftId, rightId));
    }
    if leftId in right.mustRunBefore {
      return Err(AfterSuccessor(leftId, rightId));
    }
    return Ok(());
  }

  /** A pair error speaks about a selection, not only about the list. */
  lemma PairErrorIsGenuine(registry: Registry, features: set<string>, recipe: Recipe, i: nat, j: nat,
          error: RecipeError)
    requires WellShaped(registry, recipe)
    requires i < j < |Occurrences(registry, recipe.overlays)|
    requires var o := Occurrences(registry, recipe.overlays);
             && CanCoSelect(recipe.required, o[i].overlay, o[j].overlay)
             && o[i].pass in registry.passes && o[j].pass in registry.passes
             && PairError(registry, o[i].pass, o[j].pass, error)
    ensures Genuine(registry, features, recipe, error)
  {
    var o := Occurrences(registry, recipe.overlays);
    var F, k, l := RefusedPairIsReached(registry, recipe, i, j);
    assert RunsAt(registry, recipe, F, k, l, o[i].pass, o[j].pass);
  }

  /** The pairs whose first occurrence is the one at `i`, up to `end`. */
  ghost predicate RowAdmitted(registry: Registry, recipe: Recipe, occurrences: seq<Occurrence>, i: nat, end: nat) {
    forall j :: i < j < end && j < |occurrences| ==> PairAdmitted(registry, recipe, occurrences[i], occurrences[j])
  }

  lemma RowsArePairs(registry: Registry, recipe: Recipe, occurrences: seq<Occurrence>)
    requires forall i :: 0 <= i < |occurrences| ==> RowAdmitted(registry, recipe, occurrences, i, |occurrences|)
    ensures PairsAdmitted(registry, recipe, occurrences)
  {
    forall i, j | 0 <= i < j < |occurrences| ensures PairAdmitted(registry, recipe, occurrences[i], occurrences[j]) {
      assert RowAdmitted(registry, recipe, occurrences, i, |occurrences|);
    }
  }

  /** The loop over all pairs of occurrences. */
  method CheckPairs(registry: Registry, features: set<string>, recipe: Recipe, occurrences: seq<Occurrence>)
    returns (r: Result<(), RecipeError>)
    requires WellShaped(registry, recipe) && occurrences == Occurrences(registry, recipe.overlays)
    requires forall o :: o in occurrences ==> o.pass in registry.passes
    ensures r.Ok? <==> PairsAdmitted(registry, recipe, occurrences)
    ensures r.Err? ==> Genuine(registry, features, recipe, r.error)
  {
    for i := 0 to |occurrences|
      invariant forall a :: 0 <= a < i ==> RowAdmitted(registry, recipe, occurrences, a, |occurrences|)
    {
      for j := i + 1 to |occurrences|
        invariant RowAdmitted(registry, recipe, occurrences, i, j)
      {
        if !CanCoSelect(recipe.required, occurrences[i].overlay, occurrences[j].overlay) {
          continue;
        }
        var checked := CheckPair(registry, occurrences[i].pass, occurrences[j].pass);
        if checked.Err? {
          PairErrorIsGenuine(registry, features, recipe, i, j, checked.error);
          return checked;
        }
      }
    }
    RowsArePairs(registry, recipe, occurrences);
    return Ok(());
  }

  /** What admitting a recipe promises, stated over everything a caller can select. */
  ghost predicate Admissible(registry: Registry, features: set<string>, recipe: Recipe) {
    && recipe.required + recipe.supported <= features
    && WellShaped(registry, recipe)
    && forall F :: Matches(recipe, F) ==> SoundFor(registry, recipe, F)
  }

  /** One iteration of the loader's recipe loop. */
  method AdmitRecipe(registry: Registry, features: set<string>, recipe: Recipe) returns (r: Result<(), RecipeError>)
    requires registry.Valid()
    ensures r.Ok? <==> Admissible(registry, features, recipe)
    ensures r.Err? ==> Genuine(registry, features, recipe, r.error)
  {
    r := CheckShape(registry, features, recipe);
    if r.Err? {
      return;
    }
    FiniteChecksDecideAllSelections(registry, recipe);
    var listed := ListOccurrences(registry, features, recipe);
    if listed.Err? {
      return Err(listed.error);
    }
    r := CheckPairs(registry, features, recipe, listed.value);
  }

  // ---------------------------------------------------------------------------
  // Recipe ambiguity
  // ---------------------------------------------------------------------------

  /** The test the loader makes on two recipes: their requirements lie in both domains. */
  predicate Ambiguous(left: Recipe, right: Recipe) {
    left.required + right.required <= (left.required + left.supported) * (right.required + right.supported)
  }

  /** The test is exact: it fires when and only when one feature set matches both recipes. */
  lemma AmbiguousIsExact(left: Recipe, right: Recipe)
    ensures Ambiguous(left, right) <==> exists F :: Matches(left, F) && Matches(right, F)
  {
    if Ambiguous(left, right) {
      var F := left.required + right.required;
      assert Matches(left, F) && Matches(right, F);
    }
  }

  datatype LoadError =
    | RecipeRejected(index: nat, error: RecipeError)
    | NoRecipes
    | UnusedFeature
    | AmbiguousRecipes(left: nat, right: nat)

  /** No feature set matches two recipes, so a caller's choice of features names at most one. */
  ghost predicate SelectionIsUnique(recipes: seq<Recipe>) {
    forall F, i, j ::
      0 <= i < |recipes| && 0 <= j < |recipes| && Matches(recipes[i], F) && Matches(recipes[j], F) ==> i == j
  }

  /** Some recipe requires or optionally supports the feature. */
  ghost predicate Mentioned(recipes: seq<Recipe>, f: string) {
    exists p :: p in recipes && f in p.required + p.supported
  }

  lemma MentionedAppend(recipes: seq<Recipe>, p: Recipe)
    ensures forall f :: Mentioned(recipes + [p], f) <==> Mentioned(recipes, f) || f in p.required + p.supported
  {
    forall f ensures Mentioned(recipes + [p], f) <==> Mentioned(recipes, f) || f in p.required + p.supported {
      assert p in recipes + [p];
      assert forall q :: q in recipes ==> q in recipes + [p];
    }
  }

  ghost predicate LoadErrorIsGenuine(registry: Registry, features: set<string>, recipes: seq<Recipe>, error: LoadError)
  {
    match error
    case RecipeRejected(i, e) => i < |recipes| && Genuine(registry, features, recipes[i], e)
    case NoRecipes => recipes == []
    case UnusedFeature => exists f :: f in features && !Mentioned(recipes, f)
    case AmbiguousRecipes(i, j) => BothMatch(recipes, i, j)
  }

  ghost predicate BothMatch(recipes: seq<Recipe>, i: nat, j: nat) {
    i < j < |recipes| && exists F :: Matches(recipes[i], F) && Matches(recipes[j], F)
  }

  /** The last double loop of the loader. */
  method CheckAmbiguity(recipes: seq<Recipe>) returns (r: Result<(), LoadError>)
    ensures r.Ok? <==> SelectionIsUnique(recipes)
    ensures r.Err? ==> r.error.AmbiguousRecipes? && BothMatch(recipes, r.error.left, r.error.right)
  {
    for i := 0 to |recipes|
      invariant forall a, b :: 0 <= a < i && a < b < |recipes| ==> !Ambiguous(recipes[a], recipes[b])
    {
      for j := i + 1 to |recipes|
        invariant forall b :: i < b < j ==> !Ambiguous(recipes[i], recipes[b])
      {
        if Ambiguous(recipes[i], recipes[j]) {
          AmbiguousIsExact(recipes[i], recipes[j]);
          return Err(AmbiguousRecipes(i, j));
        }
      }
    }
    forall F, i, j | 0 <= i < |recipes| && 0 <= j < |recipes| && Matches(recipes[i], F) && Matches(recipes[j], F)
      ensures i == j
    {
      AmbiguousIsExact(recipes[i], recipes[j]);
      AmbiguousIsExact(recipes[j], recipes[i]);
    }
    return Ok(());
  }

  ghost predicate Loadable(registry: Registry, features: set<string>, recipes: seq<Recipe>) {
    && recipes != []
    && (forall p :: p in recipes ==> Admissible(registry, features, p))
    && (forall f :: f in features ==> Mentioned(recipes, f))
    && SelectionIsUnique(recipes)
  }

  method LoadRecipes(registry: Registry, features: set<string>, recipes: seq<Recipe>) returns (r: Result<(), LoadError>)
    requires registry.Valid()
    ensures r.Ok? <==> Loadable(registry, features, recipes)
    ensures r.Err? ==> LoadErrorIsGenuine(registry, features, recipes, r.error)
  {
    var used: set<string> := {};
    for i := 0 to |recipes|
      invariant forall p :: p in recipes[..i] ==> Admissible(registry, features, p)
      invariant forall f :: f in used <==> Mentioned(recipes[..i], f)
    {
      assert recipes[..i + 1] == recipes[..i] + [recipes[i]];
      var admitted := AdmitRecipe(registry, features, recipes[i]);
      if admitted.Err? {
        assert recipes[i] in recipes;
        return Err(RecipeRejected(i, admitted.error));
      }
      MentionedAppend(recipes[..i], recipes[i]);
      used := used + recipes[i].required + recipes[i].supported;
    }
    assert recipes[..|recipes|] == recipes;
    if recipes == [] {
      return Err(NoRecipes);
    }
    if !(features <= used) {
      ghost var f :| f in features && f !in used;
      return Err(UnusedFeature);
    }
    r := CheckAmbiguity(recipes);
  }
}
