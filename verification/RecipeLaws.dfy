/**
 What loading the recipes decides, in terms of the passes and features alone.

 A feature set runs the passes at certain places of a recipe.  A recipe is accepted
 exactly when, for every feature set it offers, any two of them may run in their order
 and each is permitted.
 */
module RecipeLaws {
  import opened Results
  import opened OptimizerRecipes
  import opened DependencyCycles

  /** A pass of the group of an overlay, by its position there. */
  datatype Place = Place(overlay: nat, index: nat)

  ghost predicate Before(p: Place, q: Place) {
    p.overlay < q.overlay || (p.overlay == q.overlay && p.index < q.index)
  }

  /** Some of the recipe's features, and all that it requires. */
  ghost predicate Offers(recipe: Recipe, F: set<string>) {
    && (forall f :: f in recipe.required ==> f in F)
    && (forall f :: f in F ==> f in recipe.required || f in recipe.supported)
  }

  /** F runs the pass `id`, which stands at this place. */
  ghost predicate RunsThere(registry: Registry, overlays: seq<Overlay>, F: set<string>, p: Place, id: string) {
    p.overlay < |overlays| &&
    var o := overlays[p.overlay];
    && (forall f :: f in o.required ==> f in F) && (forall f :: f in o.forbidden ==> f !in F)
    && o.groupId in registry.groups && p.index < |registry.groups[o.groupId]|
    && registry.groups[o.groupId][p.index] == id
  }

  /** One run may have both passes, in this order. */
  ghost predicate GoTogether(passes: map<string, Pass>, left: string, right: string) {
    && left != right && left in passes && right in passes
    && right !in passes[left].conflictsWith && left !in passes[right].conflictsWith
    && right !in passes[left].mustRunAfter && left !in passes[right].mustRunBefore
  }

  /** A run for F may have this pass. */
  ghost predicate Allows(registry: Registry, recipe: Recipe, F: set<string>, id: string) {
    id in registry.passes &&
    var pass := registry.passes[id];
    && pass.semantics in recipe.allowedSemantics
    && (pass.requiresCalibration ==> recipe.allowCalibration)
    && (pass.changesPublicAbi ==> recipe.allowPublicAbiChange)
    && (pass.targetRules != [] ==>
          forall t :: t in recipe.targets ==> exists rule :: rule in pass.targetRules && t in rule)
    && (F == {} ==> pass.semantics == Exact && !pass.requiresCalibration && !pass.changesPublicAbi)
  }

  ghost predicate AllGoTogether(registry: Registry, overlays: seq<Overlay>, F: set<string>) {
    forall p, q, left, right {:trigger RunsThere(registry, overlays, F, p, left),
                                      RunsThere(registry, overlays, F, q, right)} ::
      RunsThere(registry, overlays, F, p, left) && RunsThere(registry, overlays, F, q, right) && Before(p, q) ==>
        GoTogether(registry.passes, left, right)
  }

  ghost predicate AllAllowed(registry: Registry, recipe: Recipe, F: set<string>) {
    forall p, id {:trigger RunsThere(registry, recipe.overlays, F, p, id)} ::
      RunsThere(registry, recipe.overlays, F, p, id) ==> Allows(registry, recipe, F, id)
  }

  /** Features and overlays are declared and of use. */
  ghost predicate Declares(registry: Registry, features: set<string>, recipe: Recipe) {
    && recipe.overlays != [] && recipe.allowedSemantics != {}
    && (forall f :: f in recipe.required ==> f in features && f !in recipe.supported)
    && (forall f :: f in recipe.supported ==> f in features)
    && (forall f :: f in recipe.supported ==> exists o :: o in recipe.overlays && (f in o.required || f in o.forbidden))
    && forall o :: o in recipe.overlays ==>
         && o.groupId in registry.groups
         && (forall f :: f in o.required || f in o.forbidden ==> f in recipe.required || f in recipe.supported)
         && exists F :: Offers(recipe, F) && o.required <= F && o.forbidden !! F
  }

  ghost predicate Acceptable(registry: Registry, features: set<string>, recipe: Recipe) {
    && Declares(registry, features, recipe)
    && forall F :: Offers(recipe, F) ==> AllGoTogether(registry, recipe.overlays, F) && AllAllowed(registry, recipe, F)
  }

  // ---------------------------------------------------------------------------
  // Places and positions of a run
  // ---------------------------------------------------------------------------

  ghost predicate IsThere(registry: Registry, overlays: seq<Overlay>, F: set<string>, p: Place)
    requires Grouped(registry, overlays)
  {
    && p.overlay < |overlays| && Selects(overlays[p.overlay], F)
    && p.index < |registry.groups[overlays[p.overlay].groupId]|
  }

  ghost function GroupSize(registry: Registry, o: Overlay, F: set<string>): nat
    requires o.groupId in registry.groups
  {
    if Selects(o, F) then |registry.groups[o.groupId]| else 0
  }

  /** Where in the run for F the pass at a place is. */
  ghost function Position(registry: Registry, overlays: seq<Overlay>, F: set<string>, p: Place): nat
    requires Grouped(registry, overlays) && IsThere(registry, overlays, F, p)
    decreases p.overlay
  {
    if p.overlay == 0 then p.index
    else GroupSize(registry, overlays[0], F) + Position(registry, overlays[1..], F, Place(p.overlay - 1, p.index))
  }

  lemma {:induction false} PositionHasPass(registry: Registry, overlays: seq<Overlay>, F: set<string>, p: Place)
    requires Grouped(registry, overlays) && IsThere(registry, overlays, F, p)
    ensures var i, run := Position(registry, overlays, F, p), Flatten(registry, overlays, F);
      i < |run| && run[i] == registry.groups[overlays[p.overlay].groupId][p.index]
    decreases p.overlay
  {
    if p.overlay > 0 {
      PositionHasPass(registry, overlays[1..], F, Place(p.overlay - 1, p.index));
    }
  }

  lemma {:induction false} PositionsKeepOrder(registry: Registry, overlays: seq<Overlay>, F: set<string>, p: Place,
          q: Place)
    requires Grouped(registry, overlays) && IsThere(registry, overlays, F, p) && IsThere(registry, overlays, F, q)
    requires Before(p, q)
    ensures Position(registry, overlays, F, p) < Position(registry, overlays, F, q)
    decreases p.overlay
  {
    if p.overlay > 0 {
      PositionsKeepOrder(registry, overlays[1..], F, Place(p.overlay - 1, p.index), Place(q.overlay - 1, q.index));
    }
  }

  lemma {:induction false} PlaceOf(registry: Registry, overlays: seq<Overlay>, F: set<string>, i: nat)
    returns (p: Place)
    requires Grouped(registry, overlays) && i < |Flatten(registry, overlays, F)|
    ensures IsThere(registry, overlays, F, p) && Position(registry, overlays, F, p) == i
    decreases |overlays|
  {
    var size := GroupSize(registry, overlays[0], F);
    if i < size {
      p := Place(0, i);
    } else {
      var rest := PlaceOf(registry, overlays[1..], F, i - size);
      p := Place(rest.overlay + 1, rest.index);
      assert overlays[1..][rest.overlay] == overlays[p.overlay];
    }
  }

  lemma ThereIsRun(registry: Registry, overlays: seq<Overlay>, F: set<string>, p: Place)
    requires Grouped(registry, overlays) && IsThere(registry, overlays, F, p)
    ensures RunsThere(registry, overlays, F, p, registry.groups[overlays[p.overlay].groupId][p.index])
  {
  }

  lemma RunIsThere(registry: Registry, overlays: seq<Overlay>, F: set<string>, p: Place, id: string)
    requires Grouped(registry, overlays) && RunsThere(registry, overlays, F, p, id)
    ensures IsThere(registry, overlays, F, p) && registry.groups[overlays[p.overlay].groupId][p.index] == id
  {
  }

  ghost predicate PairsMayRun(registry: Registry, run: seq<string>) {
    forall i, j :: 0 <= i < j < |run| ==> MayPrecede(registry, run[i], run[j])
  }

  lemma MayPrecedeExactlyTogether(registry: Registry, left: string, right: string)
    ensures MayPrecede(registry, left, right) <==> GoTogether(registry.passes, left, right)
  {
  }

  /** Two passes of a run go together exactly when those at any two places do. */
  lemma PairsAreOfPlaces(registry: Registry, overlays: seq<Overlay>, F: set<string>)
    requires Grouped(registry, overlays)
    ensures PairsMayRun(registry, Flatten(registry, overlays, F)) <==> AllGoTogether(registry, overlays, F)
  {
    var run := Flatten(registry, overlays, F);
    if PairsMayRun(registry, run) {
      forall p, q, left, right | RunsThere(registry, overlays, F, p, left) && RunsThere(registry, overlays, F, q, right)
                                 && Before(p, q)
        ensures GoTogether(registry.passes, left, right)
      {
        PlacesGoTogether(registry, overlays, F, p, q, left, right);
      }
    }
    if AllGoTogether(registry, overlays, F) {
      forall i, j | 0 <= i < j < |run| ensures MayPrecede(registry, run[i], run[j]) {
        PositionsMayRun(registry, overlays, F, i, j);
      }
    }
  }

  lemma PlacesGoTogether(registry: Registry, overlays: seq<Overlay>, F: set<string>, p: Place, q: Place, left: string,
          right: string)
    requires Grouped(registry, overlays) && PairsMayRun(registry, Flatten(registry, overlays, F))
    requires RunsThere(registry, overlays, F, p, left) && RunsThere(registry, overlays, F, q, right) && Before(p, q)
    ensures GoTogether(registry.passes, left, right)
  {
    RunIsThere(registry, overlays, F, p, left);
    RunIsThere(registry, overlays, F, q, right);
    PositionHasPass(registry, overlays, F, p);
    PositionHasPass(registry, overlays, F, q);
    PositionsKeepOrder(registry, overlays, F, p, q);
    MayPrecedeExactlyTogether(registry, left, right);
  }

  lemma PositionsMayRun(registry: Registry, overlays: seq<Overlay>, F: set<string>, i: nat, j: nat)
    requires Grouped(registry, overlays) && AllGoTogether(registry, overlays, F)
    requires i < j < |Flatten(registry, overlays, F)|
    ensures MayPrecede(registry, Flatten(registry, overlays, F)[i], Flatten(registry, overlays, F)[j])
  {
    var p := PlaceOf(registry, overlays, F, i);
    var q := PlaceOf(registry, overlays, F, j);
    if Before(q, p) {
      PositionsKeepOrder(registry, overlays, F, q, p);
    }
    PositionHasPass(registry, overlays, F, p);
    PositionHasPass(registry, overlays, F, q);
    ThereIsRun(registry, overlays, F, p);
    ThereIsRun(registry, overlays, F, q);
    MayPrecedeExactlyTogether(registry, Flatten(registry, overlays, F)[i], Flatten(registry, overlays, F)[j]);
  }

  // ---------------------------------------------------------------------------
  // Permissions
  // ---------------------------------------------------------------------------

  ghost predicate PassIsSound(registry: Registry, recipe: Recipe, F: set<string>, id: string) {
    && id in registry.passes && Permitted(recipe, registry.passes[id])
    && (F == {} ==> !Sensitive(registry.passes[id]))
  }

  lemma SoundExactlyAllowed(registry: Registry, recipe: Recipe, F: set<string>, id: string)
    ensures PassIsSound(registry, recipe, F, id) <==> Allows(registry, recipe, F, id)
  {
    if id in registry.passes {
      var rules := registry.passes[id].targetRules;
      assert recipe.targets <= Backends(rules) <==>
        forall t :: t in recipe.targets ==> exists rule :: rule in rules && t in rule;
    }
  }

  lemma PassesAreOfPlaces(registry: Registry, recipe: Recipe, F: set<string>)
    requires Grouped(registry, recipe.overlays)
    ensures (forall id :: id in Flatten(registry, recipe.overlays, F) ==> PassIsSound(registry, recipe, F, id))
      <==> AllAllowed(registry, recipe, F)
  {
    var run := Flatten(registry, recipe.overlays, F);
    if forall id :: id in run ==> PassIsSound(registry, recipe, F, id) {
      forall p, id | RunsThere(registry, recipe.overlays, F, p, id) ensures Allows(registry, recipe, F, id) {
        RunIsThere(registry, recipe.overlays, F, p, id);
        PositionHasPass(registry, recipe.overlays, F, p);
        SoundExactlyAllowed(registry, recipe, F, id);
      }
    }
    if AllAllowed(registry, recipe, F) {
      forall id | id in run ensures PassIsSound(registry, recipe, F, id) {
        var i :| 0 <= i < |run| && run[i] == id;
        var p := PlaceOf(registry, recipe.overlays, F, i);
        PositionHasPass(registry, recipe.overlays, F, p);
        ThereIsRun(registry, recipe.overlays, F, p);
        SoundExactlyAllowed(registry, recipe, F, id);
      }
    }
  }

  lemma SoundExactlyWhen(registry: Registry, recipe: Recipe, F: set<string>)
    requires Grouped(registry, recipe.overlays)
    ensures SoundFor(registry, recipe, F)
      <==> AllGoTogether(registry, recipe.overlays, F) && AllAllowed(registry, recipe, F)
  {
    PairsAreOfPlaces(registry, recipe.overlays, F);
    PassesAreOfPlaces(registry, recipe, F);
    SoundIsBoth(registry, recipe, F);
  }

  lemma SoundIsBoth(registry: Registry, recipe: Recipe, F: set<string>)
    requires Grouped(registry, recipe.overlays)
    ensures SoundFor(registry, recipe, F)
      <==> PairsMayRun(registry, Flatten(registry, recipe.overlays, F))
           && forall id :: id in Flatten(registry, recipe.overlays, F) ==> PassIsSound(registry, recipe, F, id)
  {
  }

  // ---------------------------------------------------------------------------
  // The shape
  // ---------------------------------------------------------------------------

  lemma OffersExactlyMatching(recipe: Recipe, F: set<string>)
    ensures Offers(recipe, F) <==> Matches(recipe, F)
  {
  }

  lemma OverlayExactlyDeclared(registry: Registry, recipe: Recipe, o: Overlay)
    ensures OverlayShaped(registry, recipe, o) <==>
      && o.groupId in registry.groups
      && (forall f :: f in o.required || f in o.forbidden ==> f in recipe.required || f in recipe.supported)
      && exists F :: Offers(recipe, F) && o.required <= F && o.forbidden !! F
  {
    var least := recipe.required + o.required;
    if OverlayShaped(registry, recipe, o) {
      assert Offers(recipe, least) && o.required <= least && o.forbidden !! least;
    }
    forall F | Offers(recipe, F) && o.required <= F && o.forbidden !! F ensures least !! o.forbidden {
      assert least <= F;
    }
  }

  lemma ShapeExactlyDeclared(registry: Registry, features: set<string>, recipe: Recipe)
    ensures recipe.required + recipe.supported <= features && WellShaped(registry, recipe)
      <==> Declares(registry, features, recipe)
  {
    forall o ensures OverlayShaped(registry, recipe, o) <==>
      && o.groupId in registry.groups
      && (forall f :: f in o.required || f in o.forbidden ==> f in recipe.required || f in recipe.supported)
      && exists F :: Offers(recipe, F) && o.required <= F && o.forbidden !! F
    {
      OverlayExactlyDeclared(registry, recipe, o);
    }
  }

  /** A recipe is admitted exactly when all that it lets run may run. */
  lemma AcceptedExactlyWhen(registry: Registry, features: set<string>, recipe: Recipe)
    ensures Admissible(registry, features, recipe) <==> Acceptable(registry, features, recipe)
  {
    ShapeExactlyDeclared(registry, features, recipe);
    forall F ensures Offers(recipe, F) <==> Matches(recipe, F) {
      OffersExactlyMatching(recipe, F);
    }
    if Declares(registry, features, recipe) {
      assert Grouped(registry, recipe.overlays);
      forall F
        ensures SoundFor(registry, recipe, F)
          <==> AllGoTogether(registry, recipe.overlays, F) && AllAllowed(registry, recipe, F)
      {
        SoundExactlyWhen(registry, recipe, F);
      }
    }
  }

  /** No feature is of no use, and none that a caller hands over leaves the choice between two recipes. */
  ghost predicate AllOfUse(features: set<string>, recipes: seq<Recipe>) {
    && (forall f :: f in features ==>
          exists n :: 0 <= n < |recipes| && (f in recipes[n].required || f in recipes[n].supported))
    && forall F, m, n :: 0 <= m < n < |recipes| && Offers(recipes[m], F) ==> !Offers(recipes[n], F)
  }

  lemma UseExactlyWhen(features: set<string>, recipes: seq<Recipe>)
    ensures (forall f :: f in features ==> Mentioned(recipes, f)) && SelectionIsUnique(recipes)
      <==> AllOfUse(features, recipes)
  {
    forall n, F | 0 <= n < |recipes| ensures Offers(recipes[n], F) <==> Matches(recipes[n], F) {
      OffersExactlyMatching(recipes[n], F);
    }
    forall f ensures Mentioned(recipes, f) <==>
      exists n :: 0 <= n < |recipes| && (f in recipes[n].required || f in recipes[n].supported)
    {
      if n :| 0 <= n < |recipes| && (f in recipes[n].required || f in recipes[n].supported) {
        assert recipes[n] in recipes;
      }
    }
  }

  /** The loader takes a list of recipes exactly when each is acceptable and all are of use. */
  lemma LoadedExactlyWhen(registry: Registry, features: set<string>, recipes: seq<Recipe>)
    ensures Loadable(registry, features, recipes)
      <==> (&& recipes != [] && AllOfUse(features, recipes)
            && forall p :: p in recipes ==> Acceptable(registry, features, p))
  {
    UseExactlyWhen(features, recipes);
    forall p | p in recipes ensures Admissible(registry, features, p) <==> Acceptable(registry, features, p) {
      AcceptedExactlyWhen(registry, features, p);
    }
  }

  /** A rank is what the two lists of every pass ask for. */
  lemma RankExactlyOrders(passes: map<string, Pass>, rank: map<string, nat>)
    requires ReferencesKnown(passes) && passes.Keys <= rank.Keys
    ensures IsRank(passes, rank) <==>
      && (forall v, u :: v in passes && u in passes[v].mustRunAfter ==> rank[u] < rank[v])
      && (forall u, v :: u in passes && v in passes[u].mustRunBefore ==> rank[u] < rank[v])
  {
    if IsRank(passes, rank) {
      forall v, u | v in passes && u in passes[v].mustRunAfter ensures rank[u] < rank[v] {
        assert Edge(passes, u, v);
      }
      forall u, v | u in passes && v in passes[u].mustRunBefore ensures rank[u] < rank[v] {
        assert Edge(passes, u, v);
      }
    }
  }

  /** In every run of an admitted recipe passes differ, none conflicts with another, and their order is kept. */
  lemma RunsKeepEdges(registry: Registry, features: set<string>, recipe: Recipe, F: set<string>, i: nat, j: nat)
    requires Admissible(registry, features, recipe) && Offers(recipe, F)
    requires i < j < |Flatten(registry, recipe.overlays, F)|
    ensures var run, passes := Flatten(registry, recipe.overlays, F), registry.passes;
      && run[i] != run[j] && run[i] in passes && run[j] in passes
      && run[j] !in passes[run[i]].conflictsWith && run[i] !in passes[run[j]].conflictsWith
      && !Edge(passes, run[j], run[i])
  {
    var run := Flatten(registry, recipe.overlays, F);
    OffersExactlyMatching(recipe, F);
    assert SoundFor(registry, recipe, F) && MayPrecede(registry, run[i], run[j]);
  }
}
