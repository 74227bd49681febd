/**
 Publishing a release bundle from several build trees into one place.

 A publisher replaces three files in order under a lock, and may fail or crash in
 between; a guard reads them without the lock.  Contents stand for their tree.
 */
module Publication {
  import opened Results

  datatype File = Debug | Evidence | Artifact

  /** The order of the replacements. */
  const ORDER: seq<File> := [Debug, Evidence, Artifact]

  type Tree = nat

  // ---------------------------------------------------------------------------
  // Publishers as processes
  // ---------------------------------------------------------------------------

  datatype Stage = Waiting | Holding(replaced: nat) | Ended(complete: bool) | Crashed

  datatype Publisher = Publisher(tree: Tree, stage: Stage)

  /** The published files, who holds the lock, and how far each publisher is. */
  datatype State = State(files: map<File, Tree>, lock: Option<nat>, publishers: seq<Publisher>)

  datatype Event = Acquire(p: nat) | Replace(p: nat) | Release(p: nat) | Crash(p: nat)

  predicate Enabled(s: State, e: Event) {
    && e.p < |s.publishers|
    && var stage := s.publishers[e.p].stage;
       match e
       case Acquire(_) => s.lock.None? && stage.Waiting?
       case Replace(_) => stage.Holding? && stage.replaced < 3
       case Release(_) => stage.Holding?
       case Crash(_) => stage.Waiting? || stage.Holding?
  }

  function WithStage(s: State, p: nat, stage: Stage): State
    requires p < |s.publishers|
  {
    s.(publishers := s.publishers[p := s.publishers[p].(stage := stage)])
  }

  function Apply(s: State, e: Event): State
    requires Enabled(s, e)
  {
    var publisher := s.publishers[e.p];
    match e
    case Acquire(p) => WithStage(s, p, Holding(0)).(lock := Some(p))
    case Replace(p) =>
      var k := publisher.stage.replaced;
      WithStage(s, p, Holding(k + 1)).(files := s.files[ORDER[k] := publisher.tree])
    case Release(p) => WithStage(s, p, Ended(publisher.stage.replaced == 3)).(lock := None)
    case Crash(p) => WithStage(s, p, Stage.Crashed).(lock := if s.lock == Some(p) then None else s.lock)
  }

  /** Everyone waits; the published files may be any mixture, or missing. */
  predicate Initial(s: State) {
    s.lock.None? && forall p | 0 <= p < |s.publishers| :: s.publishers[p].stage.Waiting?
  }

  /** States with an event between each two. */
  ghost predicate AreSteps(states: seq<State>, events: seq<Event>) {
    && |states| == |events| + 1
    && forall i | 0 <= i < |events| :: Enabled(states[i], events[i]) && states[i + 1] == Apply(states[i], events[i])
  }

  ghost predicate IsRun(states: seq<State>, events: seq<Event>) {
    AreSteps(states, events) && Initial(states[0])
  }

  ghost predicate Reachable(s: State) {
    exists states, events :: IsRun(states, events) && states[|states| - 1] == s
  }

  predicate Publishes(s: State, f: File, tree: Tree) {
    f in s.files && s.files[f] == tree
  }

  /** All three published files come from this tree. */
  predicate AllFrom(s: State, tree: Tree) {
    Publishes(s, Debug, tree) && Publishes(s, Evidence, tree) && Publishes(s, Artifact, tree)
  }

  // ---------------------------------------------------------------------------
  // What every step keeps
  // ---------------------------------------------------------------------------

  /** Exactly the publisher with the lock is replacing, and what it has replaced is still its own. */
  ghost predicate Inv(s: State) {
    && (forall p | 0 <= p < |s.publishers| :: s.publishers[p].stage.Holding? <==> s.lock == Some(p))
    && (s.lock.Some? ==> s.lock.value < |s.publishers| && HolderInv(s, s.lock.value))
  }

  predicate HolderInv(s: State, p: nat)
    requires p < |s.publishers|
  {
    && s.publishers[p].stage.Holding? && s.publishers[p].stage.replaced <= 3
    && forall k | 0 <= k < s.publishers[p].stage.replaced :: Publishes(s, ORDER[k], s.publishers[p].tree)
  }

  lemma StepKeepsInv(s: State, e: Event)
    requires Inv(s) && Enabled(s, e)
    ensures Inv(Apply(s, e))
  {
    if e.Replace? {
      assert s.lock == Some(e.p);
    }
  }

  lemma {:induction false} RunKeepsInv(states: seq<State>, events: seq<Event>, i: nat)
    requires IsRun(states, events) && i < |states|
    ensures Inv(states[i])
  {
    if i == 0 {
    } else {
      RunKeepsInv(states, events, i - 1);
      StepKeepsInv(states[i - 1], events[i - 1]);
    }
  }

  /** No two publishers are ever replacing files at once. */
  lemma OnePublisherAtATime(states: seq<State>, events: seq<Event>, i: nat, p: nat, q: nat)
    requires IsRun(states, events) && i < |states| && p < |states[i].publishers| && q < |states[i].publishers|
    requires states[i].publishers[p].stage.Holding? && states[i].publishers[q].stage.Holding?
    ensures p == q
  {
    RunKeepsInv(states, events, i);
  }

  // ---------------------------------------------------------------------------
  // The executable vouches for the bundle
  // ---------------------------------------------------------------------------

  /** The event replaces the executable, which a publisher does last. */
  predicate ReplacesArtifact(s: State, e: Event) {
    e.Replace? && Enabled(s, e) && s.publishers[e.p].stage.replaced == 2
  }

  lemma {:induction false} FilesStay(states: seq<State>, events: seq<Event>, i: nat, j: nat)
    requires IsRun(states, events) && i <= j < |states|
    requires forall k | i <= k < j :: !events[k].Replace?
    ensures states[j].files == states[i].files
  {
    if i == j {
    } else {
      FilesStay(states, events, i, j - 1);
    }
  }

  /**
   Whatever the files were, and whoever crashed or failed before: when a publisher
   has replaced the executable, all three files are its own, and they stay so until
   someone starts to replace files again.
   */
  lemma ArtifactVouchesForBundle(states: seq<State>, events: seq<Event>, i: nat, j: nat)
    requires IsRun(states, events) && i < j < |states|
    requires ReplacesArtifact(states[i], events[i]) && forall k | i < k < j :: !events[k].Replace?
    ensures AllFrom(states[j], states[i].publishers[events[i].p].tree)
  {
    var p := events[i].p;
    RunKeepsInv(states, events, i + 1);
    assert HolderInv(states[i + 1], p) && states[i + 1].publishers[p].stage.replaced == 3;
    assert ORDER[0] == Debug && ORDER[1] == Evidence && ORDER[2] == Artifact;
    FilesStay(states, events, i + 1, j);
  }

  /** A publisher that ends in good order has published all three files, whatever was there. */
  lemma CompletionRestores(states: seq<State>, events: seq<Event>, i: nat)
    requires IsRun(states, events) && i < |events| && events[i].Release?
    requires states[i + 1].publishers[events[i].p].stage == Ended(true)
    ensures AllFrom(states[i + 1], states[i].publishers[events[i].p].tree)
  {
    RunKeepsInv(states, events, i);
    assert HolderInv(states[i], events[i].p);
    assert ORDER[0] == Debug && ORDER[1] == Evidence && ORDER[2] == Artifact;
  }

  // ---------------------------------------------------------------------------
  // One publisher, as it runs
  // ---------------------------------------------------------------------------

  /** The files of a tree with the first `k` of them put in place of those published. */
  function Replaced(files: map<File, Tree>, tree: Tree, k: nat): map<File, Tree>
    requires k <= 3
  {
    if k == 0 then files else Replaced(files, tree, k - 1)[ORDER[k - 1] := tree]
  }

  /** Some name is beyond all these. */
  ghost function Sum(names: set<nat>): (total: nat)
    ensures forall n :: n in names ==> n <= total
  {
    if names == {} then 0
    else
      var n :| n in names;
      assert forall m :: m in names ==> m == n || m in names - {n};
      n + Sum(names - {n})
  }

  class Release {
    var files: map<File, Tree>
    var temporaries: map<nat, Tree>
    var locked: bool

    constructor (files: map<File, Tree>, temporaries: map<nat, Tree>)
      ensures this.files == files && this.temporaries == temporaries && !locked
    {
      this.files, this.temporaries, locked := files, temporaries, false;
    }

    /** A new file beside the destination, with any contents, under a name that no other has. */
    method MakeTemporary() returns (name: Option<nat>)
      modifies this`temporaries
      ensures name.None? ==> temporaries == old(temporaries)
      ensures name.Some? ==> name.value !in old(temporaries) && name.value in temporaries
      ensures name.Some? ==> temporaries == old(temporaries)[name.value := temporaries[name.value]]
    {
      var failed: bool := *;
      if failed {
        return None;
      }
      assert Sum(temporaries.Keys) + 1 !in temporaries;
      var unused: nat :| unused !in temporaries;
      var contents: Tree := *;
      temporaries := temporaries[unused := contents];
      return Some(unused);
    }

    /** Copies into the temporary file.  Whether or not it fails, any contents may be there then. */
    method CopyTo(name: nat) returns (ok: bool)
      requires name in temporaries
      modifies this`temporaries
      ensures name in temporaries && temporaries == old(temporaries)[name := temporaries[name]]
    {
      var contents: Tree := *;
      temporaries := temporaries[name := contents];
      ok := *;
    }

    /** Moves the temporary file, whatever it contains, over the published one; or does nothing. */
    method Rename(name: nat, f: File) returns (ok: bool)
      requires locked && name in temporaries
      modifies this`files, this`temporaries
      ensures ok ==> files == old(files)[f := old(temporaries)[name]] && temporaries == old(temporaries) - {name}
      ensures !ok ==> files == old(files) && temporaries == old(temporaries)
    {
      ok := *;
      if ok {
        files, temporaries := files[f := temporaries[name]], temporaries - {name};
      }
    }

    /** Removes the temporary file if it is still there, which may fail. */
    method Unlink(name: nat) returns (ok: bool)
      modifies this`temporaries
      ensures ok ==> temporaries == old(temporaries) - {name}
      ensures !ok ==> name in old(temporaries) && temporaries == old(temporaries)
    {
      var failed: bool := *;
      if failed && name in temporaries {
        return false;
      }
      temporaries := temporaries - {name};
      return true;
    }

    /** Nothing but one more temporary file is left behind, if that could not be removed. */
    ghost predicate LeavesAtMost(before: map<nat, Tree>, left: Option<nat>)
      reads this`temporaries
    {
      match left
      case None => temporaries == before
      case Some(name) => name !in before && name in temporaries && temporaries == before[name := temporaries[name]]
    }

    /**
     Copies to a temporary file, compares, and renames.  The published file is the whole
     copy or what it was before, and no temporary file is left unless removing it fails.
     */
    method AtomicCopy(tree: Tree, f: File) returns (ok: bool, ghost left: Option<nat>)
      requires locked
      modifies this`files, this`temporaries
      ensures files == if ok then old(files)[f := tree] else old(files)
      ensures LeavesAtMost(old(temporaries), left) && (ok ==> left.None?)
    {
      var temporary := MakeTemporary();
      if temporary.None? {
        return false, None;
      }
      var name := temporary.value;
      ok := CopyTo(name);
      if ok {
        ok := temporaries[name] == tree;
        if ok {
          ok := Rename(name, f);
        }
      }
      var removed := Unlink(name);
      assert removed ==> temporaries == old(temporaries);
      return ok && removed, if removed then None else Some(name);
    }

    /**
     The replacements in order under the lock, which is released even if one of them fails.
     No temporary file is left if all succeed, and at most one if not.
     */
    method PublishBundle(tree: Tree) returns (complete: bool, ghost replaced: nat, ghost left: Option<nat>)
      requires !locked
      modifies this
      ensures !locked && replaced <= 3 && (complete <==> replaced == 3)
      ensures files == Replaced(old(files), tree, replaced)
      ensures LeavesAtMost(old(temporaries), left) && (complete ==> left.None?)
    {
      locked := true;
      replaced := 0;
      var ok;
      ok, left := AtomicCopy(tree, Debug);
      if ok {
        replaced := 1;
        assert files == Replaced(old(files), tree, 0)[ORDER[0] := tree] == Replaced(old(files), tree, 1);
        ok, left := AtomicCopy(tree, Evidence);
        if ok {
          replaced := 2;
          assert files == Replaced(old(files), tree, 1)[ORDER[1] := tree] == Replaced(old(files), tree, 2);
          ok, left := AtomicCopy(tree, Artifact);
          replaced := if ok then 3 else 2;
        }
      }
      locked := false;
      complete := ok;
    }
  }

  /** What a publisher leaves behind is what its replacements make of the files, one after the other. */
  lemma {:induction false} PublisherReplaces(states: seq<State>, events: seq<Event>, p: nat, i: nat, k: nat)
    requires IsRun(states, events) && k <= 3 && i + k < |states| && p < |states[i].publishers|
    requires states[i].publishers[p].stage == Holding(0)
    requires forall n | i <= n < i + k :: events[n] == Replace(p)
    ensures |states[i + k].publishers| == |states[i].publishers|
    ensures states[i + k].publishers[p] == states[i].publishers[p].(stage := Holding(k))
    ensures states[i + k].files == Replaced(states[i].files, states[i].publishers[p].tree, k)
  {
    if k == 0 {
    } else {
      PublisherReplaces(states, events, p, i, k - 1);
      assert events[i + k - 1] == Replace(p) && states[i + k] == Apply(states[i + k - 1], Replace(p));
    }
  }

  // ---------------------------------------------------------------------------
  // The guard of a build tree
  // ---------------------------------------------------------------------------

  /** The guard does not take the lock: it reads the executable, then the sidecar, then the evidence. */
  ghost predicate GuardReads(states: seq<State>, tree: Tree, i: nat, j: nat, k: nat)
    requires i <= j <= k < |states|
  {
    Publishes(states[i], Artifact, tree) && Publishes(states[j], Debug, tree) && Publishes(states[k], Evidence, tree)
  }

  /** With nobody at work the guard accepts exactly the trees that the whole bundle comes from. */
  lemma QuietGuardIsExact(states: seq<State>, events: seq<Event>, tree: Tree, i: nat, j: nat, k: nat)
    requires IsRun(states, events) && i <= j <= k < |states| && forall n | i <= n < k :: !events[n].Replace?
    ensures GuardReads(states, tree, i, j, k) <==> AllFrom(states[i], tree)
  {
    FilesStay(states, events, i, j);
    FilesStay(states, events, i, k);
  }

  // ---------------------------------------------------------------------------
  // When the guard sees a whole bundle
  // ---------------------------------------------------------------------------

  ghost predicate SeenWhole(states: seq<State>, tree: Tree, i: nat, k: nat)
    requires k < |states|
  {
    exists n :: i <= n <= k && AllFrom(states[n], tree)
  }

  /** In these steps no publisher of the tree replaces a file. */
  ghost predicate OthersPublish(states: seq<State>, events: seq<Event>, tree: Tree, i: nat, j: nat)
    requires AreSteps(states, events) && j <= |events|
  {
    forall k | i <= k < j && events[k].Replace? :: states[k].publishers[events[k].p].tree != tree
  }

  /** In these steps only publishers of the tree replace files. */
  ghost predicate OwnPublish(states: seq<State>, events: seq<Event>, tree: Tree, i: nat, j: nat)
    requires AreSteps(states, events) && j <= |events|
  {
    forall k | i <= k < j && events[k].Replace? :: states[k].publishers[events[k].p].tree == tree
  }

  /** A file that is the tree's own was so before, if the tree's publishers did nothing. */
  lemma {:induction false} OwnFileWasThere(states: seq<State>, events: seq<Event>, tree: Tree, i: nat, j: nat, f: File)
    requires AreSteps(states, events) && i <= j < |states| && OthersPublish(states, events, tree, i, j)
    requires Publishes(states[j], f, tree)
    ensures Publishes(states[i], f, tree)
  {
    if i == j {
    } else {
      assert states[j] == Apply(states[j - 1], events[j - 1]);
      OwnFileWasThere(states, events, tree, i, j - 1, f);
    }
  }

  /** A file that is the tree's own stays so, if the others did nothing. */
  lemma {:induction false} OwnFileStays(states: seq<State>, events: seq<Event>, tree: Tree, i: nat, j: nat, f: File)
    requires AreSteps(states, events) && i <= j < |states| && OwnPublish(states, events, tree, i, j)
    requires Publishes(states[i], f, tree)
    ensures Publishes(states[j], f, tree)
  {
    if i == j {
    } else {
      assert states[j] == Apply(states[j - 1], events[j - 1]);
      OwnFileStays(states, events, tree, i, j - 1, f);
    }
  }

  /**
   A guard that finds its own files has seen the whole bundle: at its first look if no
   publisher of its own tree was at work, at its last if none of any other was.
   */
  lemma GuardSeesWholeBundle(states: seq<State>, events: seq<Event>, tree: Tree, i: nat, j: nat, k: nat)
    requires AreSteps(states, events) && i <= j <= k < |states| && GuardReads(states, tree, i, j, k)
    ensures OthersPublish(states, events, tree, i, k) ==> AllFrom(states[i], tree)
    ensures OwnPublish(states, events, tree, i, k) ==> AllFrom(states[k], tree)
  {
    if OthersPublish(states, events, tree, i, k) {
      OwnFileWasThere(states, events, tree, i, j, Debug);
      OwnFileWasThere(states, events, tree, i, k, Evidence);
    }
    if OwnPublish(states, events, tree, i, k) {
      OwnFileStays(states, events, tree, i, k, Artifact);
      OwnFileStays(states, events, tree, j, k, Debug);
    }
  }

  // ---------------------------------------------------------------------------
  // Who can still be at work
  // ---------------------------------------------------------------------------

  predicate CanReplace(publisher: Publisher) {
    publisher.stage.Waiting? || (publisher.stage.Holding? && publisher.stage.replaced < 3)
  }

  /** A publisher of the tree has not begun. */
  predicate OwnWaits(s: State, tree: Tree) {
    exists p | 0 <= p < |s.publishers| :: s.publishers[p].tree == tree && s.publishers[p].stage.Waiting?
  }

  /** A publisher of another tree has not yet replaced the executable. */
  predicate ForeignMayFinish(s: State, tree: Tree) {
    exists q | 0 <= q < |s.publishers| :: s.publishers[q].tree != tree && CanReplace(s.publishers[q])
  }

  predicate OwnHolds(s: State, tree: Tree) {
    s.lock.Some? && s.lock.value < |s.publishers| && s.publishers[s.lock.value].tree == tree
  }

  lemma StepKeepsQuiet(s: State, e: Event, tree: Tree)
    requires Inv(s) && Enabled(s, e)
    ensures !OwnWaits(s, tree) ==> !OwnWaits(Apply(s, e), tree)
    ensures !OwnWaits(s, tree) && !OwnHolds(s, tree) ==> !OwnHolds(Apply(s, e), tree)
    ensures !ForeignMayFinish(s, tree) ==> !ForeignMayFinish(Apply(s, e), tree)
  {
    var after := Apply(s, e);
    assert |after.publishers| == |s.publishers|;
    forall p | 0 <= p < |s.publishers|
      ensures after.publishers[p].tree == s.publishers[p].tree
      ensures CanReplace(after.publishers[p]) ==> CanReplace(s.publishers[p])
      ensures after.publishers[p].stage.Waiting? ==> s.publishers[p].stage.Waiting?
    {
    }
  }

  /** Who is quiet stays quiet. */
  lemma {:induction false} QuietStays(states: seq<State>, events: seq<Event>, tree: Tree, i: nat, n: nat)
    requires AreSteps(states, events) && i <= n < |states| && Inv(states[i])
    ensures Inv(states[n])
    ensures !OwnWaits(states[i], tree) && !OwnHolds(states[i], tree)
            ==> !OwnWaits(states[n], tree) && !OwnHolds(states[n], tree)
    ensures !ForeignMayFinish(states[i], tree) ==> !ForeignMayFinish(states[n], tree)
  {
    if i == n {
    } else {
      QuietStays(states, events, tree, i, n - 1);
      StepKeepsInv(states[n - 1], events[n - 1]);
      StepKeepsQuiet(states[n - 1], events[n - 1], tree);
    }
  }

  /** If no other publisher can still finish, a guard that finds its own files has seen the whole bundle. */
  lemma WholeWithoutForeign(states: seq<State>, events: seq<Event>, tree: Tree, i: nat, j: nat, k: nat)
    requires AreSteps(states, events) && i <= j <= k < |states| && Inv(states[i]) && !ForeignMayFinish(states[i], tree)
    requires GuardReads(states, tree, i, j, k)
    ensures SeenWhole(states, tree, i, k)
  {
    forall n | i <= n < k && events[n].Replace? ensures states[n].publishers[events[n].p].tree == tree {
      QuietStays(states, events, tree, i, n);
      assert CanReplace(states[n].publishers[events[n].p]);
    }
    GuardSeesWholeBundle(states, events, tree, i, j, k);
  }

  /** While none of the tree's own waits, its last publisher adds to its files before others take them away. */
  lemma {:induction false} WholeWithoutOwn(states: seq<State>, events: seq<Event>, tree: Tree, i: nat, j: nat, k: nat)
    requires AreSteps(states, events) && i <= j <= k < |states| && Inv(states[i]) && !OwnWaits(states[i], tree)
    requires GuardReads(states, tree, i, j, k)
    ensures SeenWhole(states, tree, i, k)
    decreases k - i
  {
    if i == k {
      assert AllFrom(states[i], tree);
    } else if OwnHolds(states[i], tree) {
      var s, e := states[i], events[i];
      StepKeepsInv(s, e);
      StepKeepsQuiet(s, e, tree);
      assert e.Replace? ==> s.lock == Some(e.p);
      WholeWithoutOwn(states, events, tree, i + 1, if j == i then i + 1 else j, k);
    } else {
      forall n | i <= n < k && events[n].Replace? ensures states[n].publishers[events[n].p].tree != tree {
        QuietStays(states, events, tree, i, n);
      }
      GuardSeesWholeBundle(states, events, tree, i, j, k);
    }
  }

  // ---------------------------------------------------------------------------
  // When the guard can be deceived
  // ---------------------------------------------------------------------------

  /** States that go on from `s` and never show the whole bundle of the tree. */
  ghost predicate NeverWhole(s: State, states: seq<State>, events: seq<Event>, tree: Tree) {
    AreSteps(states, events) && states[0] == s && forall n | 0 <= n < |states| :: !AllFrom(states[n], tree)
  }

  /** The guard finds its own files, one after the other, although the bundle is never whole meanwhile. */
  ghost predicate Deceives(s: State, states: seq<State>, events: seq<Event>, tree: Tree, j: nat, k: nat) {
    NeverWhole(s, states, events, tree) && j <= k < |states| && GuardReads(states, tree, 0, j, k)
  }

  ghost predicate CanBeDeceived(s: State, tree: Tree) {
    exists states, events, j, k :: Deceives(s, states, events, tree, j, k)
  }

  lemma Extend(s: State, states: seq<State>, events: seq<Event>, tree: Tree, e: Event)
    returns (states': seq<State>, events': seq<Event>)
    requires NeverWhole(s, states, events, tree) && Enabled(states[|states| - 1], e)
    requires !AllFrom(Apply(states[|states| - 1], e), tree)
    ensures NeverWhole(s, states', events', tree)
    ensures |states'| == |states| + 1 && states'[|states|] == Apply(states[|states| - 1], e)
  {
    states', events' := states + [Apply(states[|states| - 1], e)], events + [e];
  }

  /** Nothing changes for the waiting publishers `p` and `q` when the holder of the lock crashes. */
  lemma LockIsFreed(s: State, p: nat, q: nat)
    requires Inv(s) && s.lock.Some? && p < |s.publishers| && q < |s.publishers|
    requires s.publishers[p].stage.Waiting? && s.publishers[q].stage.Waiting?
    ensures Enabled(s, Crash(s.lock.value))
    ensures var free := Apply(s, Crash(s.lock.value));
      && Inv(free) && free.lock.None? && free.files == s.files && |free.publishers| == |s.publishers|
      && free.publishers[p] == s.publishers[p] && free.publishers[q] == s.publishers[q]
  {
    StepKeepsInv(s, Crash(s.lock.value));
  }

  lemma LockIsTaken(s: State, p: nat, q: nat)
    requires Inv(s) && s.lock.None? && p < |s.publishers| && q < |s.publishers| && p != q
    requires s.publishers[q].stage.Waiting?
    ensures var taken := Apply(s, Acquire(q));
      && Inv(taken) && taken.files == s.files && |taken.publishers| == |s.publishers|
      && taken.publishers[p] == s.publishers[p] && taken.publishers[q] == s.publishers[q].(stage := Holding(0))
  {
    StepKeepsInv(s, Acquire(q));
  }

  /** The foreign publisher gets hold of the lock, if it has not got it, from whoever has. */
  lemma ForeignTakesLock(s: State, tree: Tree, p: nat, q: nat) returns (states: seq<State>, events: seq<Event>)
    requires Inv(s) && !AllFrom(s, tree) && p < |s.publishers| && q < |s.publishers|
    requires s.publishers[p] == Publisher(tree, Waiting) && s.publishers[q].tree != tree && CanReplace(s.publishers[q])
    ensures NeverWhole(s, states, events, tree)
    ensures var last := states[|states| - 1];
      && Inv(last) && |last.publishers| == |s.publishers| && last.publishers[p] == s.publishers[p]
      && last.publishers[q].tree == s.publishers[q].tree
      && last.publishers[q].stage.Holding? && last.publishers[q].stage.replaced < 3
  {
    states, events := [s], [];
    if s.publishers[q].stage.Waiting? {
      var free := s;
      if s.lock.Some? {
        LockIsFreed(s, p, q);
        free := Apply(s, Crash(s.lock.value));
        states, events := Extend(s, states, events, tree, Crash(s.lock.value));
      }
      LockIsTaken(free, p, q);
      states, events := Extend(s, states, events, tree, Acquire(q));
    }
  }

  /** The foreign publisher goes on until the executable is its own. */
  lemma {:induction false} ForeignReplaces(s: State, states: seq<State>, events: seq<Event>, tree: Tree, p: nat, q: nat)
    returns (states': seq<State>, events': seq<Event>)
    requires NeverWhole(s, states, events, tree)
    requires var last := states[|states| - 1];
      && Inv(last) && p < |last.publishers| && q < |last.publishers| && last.publishers[p] == Publisher(tree, Waiting)
      && last.publishers[q].tree != tree && last.publishers[q].stage.Holding? && last.publishers[q].stage.replaced < 3
    ensures NeverWhole(s, states', events', tree)
    ensures var last := states'[|states'| - 1];
      && Inv(last) && p < |last.publishers| && q < |last.publishers| && last.publishers[p] == Publisher(tree, Waiting)
      && last.publishers[q].stage == Holding(3) && !Publishes(last, Artifact, tree)
    decreases 3 - states[|states| - 1].publishers[q].stage.replaced
  {
    var last := states[|states| - 1];
    var next, r := Apply(last, Replace(q)), last.publishers[q].stage.replaced;
    StepKeepsInv(last, Replace(q));
    assert next.lock == Some(q) && Publishes(next, ORDER[r], last.publishers[q].tree);
    states', events' := Extend(s, states, events, tree, Replace(q));
    if r == 2 {
    } else {
      states', events' := ForeignReplaces(s, states', events', tree, p, q);
    }
  }

  /** Then the tree's own publisher replaces the sidecar and the evidence, and the guard reads them. */
  lemma OwnOvertakes(s: State, states: seq<State>, events: seq<Event>, tree: Tree, p: nat, q: nat)
    requires NeverWhole(s, states, events, tree) && Publishes(s, Artifact, tree)
    requires var last := states[|states| - 1];
      && Inv(last) && p < |last.publishers| && q < |last.publishers| && last.publishers[p] == Publisher(tree, Waiting)
      && last.publishers[q].stage == Holding(3) && !Publishes(last, Artifact, tree)
    ensures CanBeDeceived(s, tree)
  {
    var last := states[|states| - 1];
    var free := Apply(last, Release(q));
    var own := Apply(free, Acquire(p));
    var one := Apply(own, Replace(p));
    var two := Apply(one, Replace(p));
    assert ORDER[0] == Debug && ORDER[1] == Evidence;
    var states1, events1 := Extend(s, states, events, tree, Release(q));
    var states2, events2 := Extend(s, states1, events1, tree, Acquire(p));
    var states3, events3 := Extend(s, states2, events2, tree, Replace(p));
    var states4, events4 := Extend(s, states3, events3, tree, Replace(p));
    assert Publishes(two, Debug, tree) && Publishes(two, Evidence, tree);
    assert Deceives(s, states4, events4, tree, |states4| - 1, |states4| - 1);
  }

  /**
   From a reachable state the guard of a tree can be deceived exactly when the
   executable is the tree's own, the bundle is not, a publisher of the tree has yet to
   begin, and one of another tree has yet to replace the executable.
   */
  lemma DeceivedExactlyWhen(s: State, tree: Tree)
    requires Reachable(s)
    ensures CanBeDeceived(s, tree) <==>
      Publishes(s, Artifact, tree) && !AllFrom(s, tree) && OwnWaits(s, tree) && ForeignMayFinish(s, tree)
  {
    var before, past :| IsRun(before, past) && before[|before| - 1] == s;
    RunKeepsInv(before, past, |before| - 1);
    if CanBeDeceived(s, tree) {
      var states, events, j: nat, k: nat :| Deceives(s, states, events, tree, j, k);
      if !OwnWaits(s, tree) {
        WholeWithoutOwn(states, events, tree, 0, j, k);
      }
      if !ForeignMayFinish(s, tree) {
        WholeWithoutForeign(states, events, tree, 0, j, k);
      }
    }
    if Publishes(s, Artifact, tree) && !AllFrom(s, tree) && OwnWaits(s, tree) && ForeignMayFinish(s, tree) {
      var p :| 0 <= p < |s.publishers| && s.publishers[p].tree == tree && s.publishers[p].stage.Waiting?;
      var q :| 0 <= q < |s.publishers| && s.publishers[q].tree != tree && CanReplace(s.publishers[q]);
      var states, events := ForeignTakesLock(s, tree, p, q);
      states, events := ForeignReplaces(s, states, events, tree, p, q);
      OwnOvertakes(s, states, events, tree, p, q);
    }
  }

  /** For any two trees: one is published, the other replaces the sidecar, and the first publishes again. */
  lemma GuardOvertaken(own: Tree, other: Tree) returns (s: State)
    requires own != other
    ensures Reachable(s) && Publishes(s, Artifact, own) && CanBeDeceived(s, own)
  {
    var files := map[Debug := own, Evidence := own, Artifact := own];
    var s0 := State(files, None, [Publisher(other, Waiting), Publisher(own, Waiting)]);
    var s1 := Apply(s0, Acquire(0));
    s := Apply(s1, Replace(0));
    assert ORDER[0] == Debug;
    assert IsRun([s0, s1, s], [Acquire(0), Replace(0)]);
    assert s.publishers[1] == Publisher(own, Waiting) && CanReplace(s.publishers[0]);
    DeceivedExactlyWhen(s, own);
  }
}
