/**
 * Pruning the history of a root (storage/prune_history.go, storage/prune_apply.go:46-133):
 * superseded snapshots are deleted, and what is kept of those that based on them
 * is made to stand alone.
 */
module Pruning {
  import opened Common
  import opened Walks
  import opened Deltas
  import opened Publication
  import opened BaseChains

  // ------------------------------------------------------------ the rows

  /** The heads of the root's locations. */
  function HeadsOf(store: Store, root: RootId): set<SnapshotId> {
    set l | l in store.heads && l in store.locations && store.locations[l] == root :: store.heads[l].snapshot
  }

  function Deleted(store: Store, root: RootId, kept: set<SnapshotId>): set<SnapshotId> {
    set id | id in store.snapshots && store.snapshots[id].root == root && id !in kept
  }

  predicate LosesBase(s: Snapshot, deleted: set<SnapshotId>) {
    s.base.Some? && s.base.value in deleted
  }

  /** What a snapshot serves; one without facts has no pairs to serve. */
  function Served(store: Store, id: SnapshotId): Result<Content> {
    var sources, facts := EffectiveSources(store, id), EffectiveImplements(store, id);
    if sources.Err? || facts.Failed? then Err
    else Ok(Content(sources.value, if facts.Read? then facts.pairs else {}))
  }

  /** One set row for each path and pair served, and no base. */
  function Alone(s: Snapshot, served: Content): Snapshot {
    s.(base := None, sources := SetRows(served.sources), implements := SetRows(Table(served.pairs)))
  }

  function Rebased(store: Store, root: RootId, deleted: set<SnapshotId>, id: SnapshotId): Snapshot
    requires id in store.snapshots
  {
    var s, served := store.snapshots[id], Served(store, id);
    if s.root == root && LosesBase(s, deleted) && served.Ok? then Alone(s, served.value) else s
  }

  /** The chain of every kept snapshot of the root can be read, and what those that lose their base serve. */
  predicate Readable(store: Store, root: RootId, deleted: set<SnapshotId>) {
    forall id :: id in store.snapshots && store.snapshots[id].root == root && id !in deleted ==>
      EffectiveSources(store, id).Ok? && (LosesBase(store.snapshots[id], deleted) ==> Served(store, id).Ok?)
  }

  function Remaining(store: Store, root: RootId, deleted: set<SnapshotId>): map<SnapshotId, Snapshot> {
    map id | id in store.snapshots && id !in deleted :: Rebased(store, root, deleted, id)
  }

  /** The store once the root keeps only these of its snapshots; a failure rolls the transaction back. */
  function Pruned(store: Store, root: RootId, kept: set<SnapshotId>): Result<Store> {
    var deleted := Deleted(store, root, kept);
    if deleted == {} then Ok(store)
    else if !Readable(store, root, deleted) then Err
    else Ok(store.(snapshots := Remaining(store, root, deleted)))
  }

  // ------------------------------------------------- what is kept reads alike

  /** A snapshot that predates facts has no rows of them in its chain. */
  ghost predicate FactsRecorded(store: Store)
    requires Bases(store)
  {
    forall id :: id in store.snapshots && store.snapshots[id].facts.None? ==> Resolve(PairLayers(store, ChainOf(store, id))) == map[]
  }

  /** The later store is what pruning leaves of the earlier. */
  ghost predicate Leaves(store: Store, root: RootId, deleted: set<SnapshotId>, later: Store) {
    && (forall id :: id in deleted ==> id in store.snapshots && store.snapshots[id].root == root)
    && Readable(store, root, deleted) && later.snapshots == Remaining(store, root, deleted)
  }

  lemma PrunedLeaves(store: Store, root: RootId, kept: set<SnapshotId>)
    requires Pruned(store, root, kept).Ok? && Deleted(store, root, kept) != {}
    ensures Leaves(store, root, Deleted(store, root, kept), Pruned(store, root, kept).value)
  {
    hide Readable, Rebased;
  }

  lemma RemainingIs(store: Store, root: RootId, deleted: set<SnapshotId>, later: Store, id: SnapshotId)
    requires Leaves(store, root, deleted, later)
    ensures id in later.snapshots <==> id in store.snapshots && id !in deleted
    ensures id in later.snapshots ==>
      var s := store.snapshots[id];
      && (!LosesBase(s, deleted) ==> later.snapshots[id] == s)
      && (LosesBase(s, deleted) && s.root == root ==> Served(store, id).Ok? && later.snapshots[id] == Alone(s, Served(store, id).value))
      && (s.root == root ==> EffectiveSources(store, id).Ok?)
  {
    hide Served, EffectiveSources, Alone;
  }

  lemma OnlyTheRootLosesBases(store: Store, root: RootId, deleted: set<SnapshotId>, later: Store, id: SnapshotId)
    requires Bases(store) && Leaves(store, root, deleted, later) && id in store.snapshots && LosesBase(store.snapshots[id], deleted)
    ensures store.snapshots[id].root == root
  {
    hide Readable, Remaining;
    assert Based(store, id);
  }

  /** No snapshot that is left has lost its base. */
  lemma LeavesBases(store: Store, root: RootId, deleted: set<SnapshotId>, later: Store)
    requires Bases(store) && Leaves(store, root, deleted, later)
    ensures Bases(later)
  {
    hide Leaves, Served, Readable, Remaining, EffectiveSources;
    forall id | id in later.snapshots ensures Based(later, id) {
      RemainingIs(store, root, deleted, later, id);
      assert Based(store, id);
      if LosesBase(store.snapshots[id], deleted) {
        OnlyTheRootLosesBases(store, root, deleted, later, id);
      } else if store.snapshots[id].base.Some? {
        RemainingIs(store, root, deleted, later, store.snapshots[id].base.value);
        SameOrdinal(store, root, deleted, store.snapshots[id].base.value);
        RemainingAt(store, root, deleted, later, store.snapshots[id].base.value);
      }
    }
  }

  lemma RemainingAt(store: Store, root: RootId, deleted: set<SnapshotId>, later: Store, id: SnapshotId)
    requires Leaves(store, root, deleted, later) && id in later.snapshots
    ensures id in store.snapshots && later.snapshots[id] == Rebased(store, root, deleted, id)
  {
    hide Readable, Rebased;
  }

  lemma SameOrdinal(store: Store, root: RootId, deleted: set<SnapshotId>, id: SnapshotId)
    requires id in store.snapshots
    ensures var s, now := store.snapshots[id], Rebased(store, root, deleted, id);
            now.root == s.root && now.location == s.location && now.ordinal == s.ordinal && now.facts == s.facts
  {
    hide Served;
  }

  /** What a readable snapshot serves is what its chain resolves to. */
  lemma ServedIs(store: Store, id: SnapshotId)
    requires Bases(store) && FactsRecorded(store) && id in store.snapshots && Served(store, id).Ok?
    ensures Served(store, id).value.sources == Resolve(SourceLayers(store, ChainOf(store, id)))
    ensures Table(Served(store, id).value.pairs) == Resolve(PairLayers(store, ChainOf(store, id)))
  {
    CheckedChainIsWhole(store, id);
    HoldsTable(Resolve(PairLayers(store, ChainOf(store, id))));
    hide Bases, ChainOf, Resolve, SourceLayers, PairLayers, CheckedChain;
  }

  /** A snapshot left resolves to what it resolved to, over a chain that is no longer. */
  lemma {:induction false} ResolvesAlike(store: Store, root: RootId, deleted: set<SnapshotId>, later: Store, id: SnapshotId)
    requires Bases(store) && FactsRecorded(store) && Leaves(store, root, deleted, later) && Bases(later) && id in later.snapshots
    ensures id in store.snapshots && |ChainOf(later, id)| <= |ChainOf(store, id)|
    ensures store.snapshots[id].root != root ==> |ChainOf(later, id)| == |ChainOf(store, id)|
    ensures Resolve(SourceLayers(later, ChainOf(later, id))) == Resolve(SourceLayers(store, ChainOf(store, id)))
    ensures Resolve(PairLayers(later, ChainOf(later, id))) == Resolve(PairLayers(store, ChainOf(store, id)))
    decreases later.snapshots[id].ordinal
  {
    hide *;
    RemainingIs(store, root, deleted, later, id);
    LayersStep(later, id);
    LayersStep(store, id);
    ChainStep(later, id);
    ChainStep(store, id);
    var s, now := store.snapshots[id], later.snapshots[id];
    if LosesBase(s, deleted) {
      OnlyTheRootLosesBases(store, root, deleted, later, id);
      ServedIs(store, id);
      AloneIs(s, Served(store, id).value);
    } else if now.base.Some? {
      var base := now.base.value;
      ResolvesAlike(store, root, deleted, later, base);
      ResolveOn(s.sources, SourceLayers(later, ChainOf(later, base)), SourceLayers(store, ChainOf(store, base)));
      ResolveOn(s.implements, PairLayers(later, ChainOf(later, base)), PairLayers(store, ChainOf(store, base)));
    }
  }

  lemma AloneIs(s: Snapshot, served: Content)
    ensures var now := Alone(s, served);
            now.base.None? && Resolve([now.sources]) == served.sources && Resolve([now.implements]) == Table(served.pairs)
  {
    SetRowsResolve(served.sources);
    SetRowsResolve(Table(served.pairs));
  }

  /** Every snapshot that pruning leaves reads as before, in the pruned root and in every other. */
  lemma PruningKeepsReads(store: Store, root: RootId, kept: set<SnapshotId>, id: SnapshotId)
    requires Bases(store) && FactsRecorded(store) && Pruned(store, root, kept).Ok?
    ensures var later := Pruned(store, root, kept).value;
            && (id in later.snapshots <==> id in store.snapshots && (store.snapshots[id].root == root ==> id in kept))
            && (id in later.snapshots ==> EffectiveSources(later, id) == EffectiveSources(store, id)
                                          && EffectiveImplements(later, id) == EffectiveImplements(store, id))
  {
    var deleted, later := Deleted(store, root, kept), Pruned(store, root, kept).value;
    if deleted != {} {
      PrunedLeaves(store, root, kept);
      RemainingIs(store, root, deleted, later, id);
      if id in later.snapshots {
        LeavesBases(store, root, deleted, later);
        ReadsAlike(store, root, deleted, later, id);
      }
    } else {
      assert id in store.snapshots && store.snapshots[id].root == root && id !in kept ==> id in deleted;
    }
  }

  lemma ReadsAlike(store: Store, root: RootId, deleted: set<SnapshotId>, later: Store, id: SnapshotId)
    requires Bases(store) && FactsRecorded(store) && Leaves(store, root, deleted, later) && Bases(later) && id in later.snapshots
    ensures EffectiveSources(later, id) == EffectiveSources(store, id) && EffectiveImplements(later, id) == EffectiveImplements(store, id)
  {
    RemainingIs(store, root, deleted, later, id);
    RemainingAt(store, root, deleted, later, id);
    SameOrdinal(store, root, deleted, id);
    ResolvesAlike(store, root, deleted, later, id);
    CheckedChainIsWhole(store, id);
    CheckedChainIsWhole(later, id);
    hide Bases, ChainOf, Resolve, SourceLayers, PairLayers, CheckedChain, Leaves, FactsRecorded, Served, Rebased;
  }

  // -------------------------------------------------- unused revisions

  /** A source row of some snapshot names the revision. */
  ghost predicate Named(store: Store, revision: Revision) {
    exists id, path :: id in store.snapshots && path in store.snapshots[id].sources && store.snapshots[id].sources[path] == Set(revision)
  }

  /** The revisions that no source row and no document names. */
  ghost function Unused(store: Store, revisions: set<Revision>, documented: set<Revision>): set<Revision> {
    set revision | revision in revisions && revision !in documented && !Named(store, revision)
  }

  /** Deleting the unused revisions takes none away that a snapshot still serves. */
  lemma ServedAreNotUnused(store: Store, revisions: set<Revision>, documented: set<Revision>, id: SnapshotId, path: Path)
    requires Bases(store) && EffectiveSources(store, id).Ok? && path in EffectiveSources(store, id).value && id in store.snapshots
    ensures EffectiveSources(store, id).value[path] !in Unused(store, revisions, documented)
  {
    CheckedChainIsWhole(store, id);
    var layers := SourceLayers(store, ChainOf(store, id));
    ResolveIs(layers, path);
    var i := NewestIsARow(layers, path);
    ChainOfIs(store, id);
    var named := ChainOf(store, id)[i];
    assert named in store.snapshots && path in store.snapshots[named].sources && store.snapshots[named].sources[path] == Newest(layers, path).value;
    hide Resolve, ChainOf, Bases, CheckedChain;
  }

  // ------------------------------------------------------ what is kept

  /**
   * What the store holds beside snapshots that keeps some of them: which were
   * only analysed, which are historical, which are heads of analyses, and which
   * snapshots the dependencies of each one target.
   */
  datatype Marks = Marks(
    analysis: set<SnapshotId>,
    historical: set<SnapshotId>,
    analysisHeads: set<SnapshotId>,
    dependencies: map<SnapshotId, seq<SnapshotId>>
  )

  function TargetsOf(marks: Marks, id: SnapshotId): seq<SnapshotId> {
    if id in marks.dependencies then marks.dependencies[id] else []
  }

  ghost function Targets(marks: Marks): SnapshotId -> seq<SnapshotId> {
    (id: SnapshotId) => TargetsOf(marks, id)
  }

  /** The snapshots of the root, newest first. */
  ghost predicate NewestFirst(store: Store, root: RootId, listed: seq<SnapshotId>) {
    && (forall id :: id in listed <==> id in store.snapshots && store.snapshots[id].root == root)
    && forall i, j :: 0 <= i < j < |listed| ==> store.snapshots[listed[j]].ordinal < store.snapshots[listed[i]].ordinal
  }

  ghost function Newer(store: Store, root: RootId, marks: Marks, id: SnapshotId): set<SnapshotId>
    requires id in store.snapshots
  {
    set x | x in store.snapshots && store.snapshots[x].root == root && x !in marks.analysis
            && store.snapshots[x].ordinal > store.snapshots[id].ordinal
  }

  /** One of the newest `keep` that are not analyses. */
  ghost predicate AmongNewest(store: Store, root: RootId, keep: nat, marks: Marks, id: SnapshotId) {
    id in store.snapshots && store.snapshots[id].root == root && id !in marks.analysis && |Newer(store, root, marks, id)| < keep
  }

  /** A snapshot that is kept whatever depends on it. */
  ghost predicate Seed(store: Store, root: RootId, keep: nat, preserveHistorical: bool, marks: Marks, id: SnapshotId) {
    || AmongNewest(store, root, keep, marks, id)
    || (preserveHistorical && id in marks.historical)
    || id in HeadsOf(store, root) || id in marks.analysisHeads
  }

  /** A snapshot of another root, or one that is kept for itself. */
  ghost predicate Survives(store: Store, root: RootId, keep: nat, preserveHistorical: bool, marks: Marks, listed: seq<SnapshotId>, id: SnapshotId) {
    id !in listed || Seed(store, root, keep, preserveHistorical, marks, id)
  }

  /** The dependencies of some surviving snapshot lead to this one. */
  ghost predicate Needed(store: Store, root: RootId, keep: nat, preserveHistorical: bool, marks: Marks, listed: seq<SnapshotId>, id: SnapshotId) {
    exists x :: Survives(store, root, keep, preserveHistorical, marks, listed, x) && Reaches(Targets(marks), x, id)
  }

  function Plain(listed: seq<SnapshotId>, marks: Marks): set<SnapshotId> {
    set x | x in listed && x !in marks.analysis
  }

  lemma NewerAre(store: Store, root: RootId, marks: Marks, listed: seq<SnapshotId>, i: nat)
    requires NewestFirst(store, root, listed) && i < |listed|
    ensures listed[i] in listed && Newer(store, root, marks, listed[i]) == Plain(listed[..i], marks)
  {
    forall x ensures x in Newer(store, root, marks, listed[i]) <==> x in Plain(listed[..i], marks) {
      if x in listed {
        var j :| 0 <= j < |listed| && listed[j] == x;
        assert j < i ==> listed[..i][j] == x;
      }
    }
  }

  lemma PlainNext(marks: Marks, listed: seq<SnapshotId>, i: nat)
    requires i < |listed| && Distinct(listed)
    ensures Plain(listed[..i + 1], marks) == Plain(listed[..i], marks) + if listed[i] in marks.analysis then {} else {listed[i]}
    ensures listed[i] !in Plain(listed[..i], marks)
  {
    assert listed[..i + 1] == listed[..i] + [listed[i]];
    forall k | 0 <= k < i ensures listed[..i][k] != listed[i] {
    }
  }

  lemma ListedOnce(store: Store, root: RootId, listed: seq<SnapshotId>)
    requires NewestFirst(store, root, listed)
    ensures Distinct(listed)
  {
    forall i, j | 0 <= i < j < |listed| ensures listed[i] != listed[j] {
      assert listed[i] in listed && listed[j] in listed;
    }
  }

  /** The newest snapshots that are not analyses. */
  method NewestSnapshots(ghost store: Store, ghost root: RootId, listed: seq<SnapshotId>, keep: nat, marks: Marks) returns (kept: set<SnapshotId>)
    requires NewestFirst(store, root, listed)
    ensures forall id :: id in kept <==> AmongNewest(store, root, keep, marks, id)
  {
    ListedOnce(store, root, listed);
    kept := {};
    var remaining := keep;
    for i := 0 to |listed|
      invariant remaining == if |Plain(listed[..i], marks)| <= keep then keep - |Plain(listed[..i], marks)| else 0
      invariant forall id :: id in kept <==> id in listed[..i] && AmongNewest(store, root, keep, marks, id)
    {
      var id := listed[i];
      assert id in listed && listed[..i + 1] == listed[..i] + [id];
      NewerAre(store, root, marks, listed, i);
      PlainNext(marks, listed, i);
      if id !in marks.analysis && remaining > 0 {
        kept := kept + {id};
        remaining := remaining - 1;
      }
    }
    assert listed[..|listed|] == listed;
  }

  lemma SurvivorIsNeeded(store: Store, root: RootId, keep: nat, preserveHistorical: bool, marks: Marks, listed: seq<SnapshotId>, id: SnapshotId)
    requires Survives(store, root, keep, preserveHistorical, marks, listed, id)
    ensures Needed(store, root, keep, preserveHistorical, marks, listed, id)
  {
    hide Survives, Targets;
    ReachesSelf(Targets(marks), id);
  }

  lemma TargetIsNeeded(store: Store, root: RootId, keep: nat, preserveHistorical: bool, marks: Marks, listed: seq<SnapshotId>, x: SnapshotId, target: SnapshotId)
    requires Needed(store, root, keep, preserveHistorical, marks, listed, x) && target in TargetsOf(marks, x)
    ensures Needed(store, root, keep, preserveHistorical, marks, listed, target)
  {
    var y :| Survives(store, root, keep, preserveHistorical, marks, listed, y) && Reaches(Targets(marks), y, x);
    hide Survives, Reaches;
    ReachesStep(Targets(marks), y, x, target);
  }

  /** Where no dependency of a survivor leads to a doomed snapshot, none over any number of steps does. */
  lemma DoomedIsNotNeeded(store: Store, root: RootId, keep: nat, preserveHistorical: bool, marks: Marks, listed: seq<SnapshotId>,
                          doomed: set<SnapshotId>, id: SnapshotId)
    requires forall x :: Survives(store, root, keep, preserveHistorical, marks, listed, x) ==> x !in doomed
    requires forall x, target :: x !in doomed && target in TargetsOf(marks, x) ==> target !in doomed
    requires Needed(store, root, keep, preserveHistorical, marks, listed, id)
    ensures id !in doomed
  {
    hide Survives, TargetsOf;
    var x :| Survives(store, root, keep, preserveHistorical, marks, listed, x) && Reaches(Targets(marks), x, id);
    var w :| IsWalkFromTo(Targets(marks), w, x, id);
    WalkStaysInside(Targets(marks), (y: SnapshotId) => y !in doomed, w, |w| - 1);
  }

  /**
   * Keeps the newest, the heads, the historical if so asked, and, until none is
   * added, what the dependencies of any surviving snapshot target.
   */
  method KeptSnapshots(ghost store: Store, ghost root: RootId, listed: seq<SnapshotId>, keep: nat, preserveHistorical: bool, marks: Marks,
                       heads: set<SnapshotId>) returns (kept: set<SnapshotId>)
    requires NewestFirst(store, root, listed) && heads == HeadsOf(store, root)
    ensures heads <= kept
    ensures forall id :: id in listed ==> (id in kept <==> Needed(store, root, keep, preserveHistorical, marks, listed, id))
  {
    kept := NewestSnapshots(store, root, listed, keep, marks);
    if preserveHistorical {
      kept := kept + set id | id in listed && id in marks.historical;
    }
    kept := kept + heads + marks.analysisHeads;
    forall id | id in kept ensures Needed(store, root, keep, preserveHistorical, marks, listed, id) {
      SurvivorIsNeeded(store, root, keep, preserveHistorical, marks, listed, id);
    }
    assert forall id :: Survives(store, root, keep, preserveHistorical, marks, listed, id) ==> id !in listed || id in kept;
    hide Needed, AmongNewest, HeadsOf, Survives;
    var doomed := set id | id in listed && id !in kept;
    while doomed != {}
      invariant heads <= kept && doomed == set id | id in listed && id !in kept
      invariant forall id :: id in kept ==> Needed(store, root, keep, preserveHistorical, marks, listed, id)
      invariant forall id :: Survives(store, root, keep, preserveHistorical, marks, listed, id) ==> id !in doomed
      decreases doomed
    {
      var targets := set x, target | x in marks.dependencies && x !in doomed && target in marks.dependencies[x] && target in doomed :: target;
      forall target | target in targets ensures Needed(store, root, keep, preserveHistorical, marks, listed, target) {
        var x :| x in marks.dependencies && x !in doomed && target in marks.dependencies[x];
        if x !in listed {
          NotListedSurvives(store, root, keep, preserveHistorical, marks, listed, x);
          SurvivorIsNeeded(store, root, keep, preserveHistorical, marks, listed, x);
        }
        TargetIsNeeded(store, root, keep, preserveHistorical, marks, listed, x, target);
      }
      if targets == {} {
        forall x, target | x !in doomed && target in TargetsOf(marks, x) ensures target !in doomed {
          assert target in doomed ==> target in targets;
        }
        break;
      }
      kept := kept + targets;
      doomed := set id | id in listed && id !in kept;
      assert forall target :: target in targets ==> target in listed;
    }
    forall id | id in listed && Needed(store, root, keep, preserveHistorical, marks, listed, id) ensures id in kept {
      DoomedIsNotNeeded(store, root, keep, preserveHistorical, marks, listed, doomed, id);
    }
  }

  lemma NotListedSurvives(store: Store, root: RootId, keep: nat, preserveHistorical: bool, marks: Marks, listed: seq<SnapshotId>, id: SnapshotId)
    requires id !in listed
    ensures Survives(store, root, keep, preserveHistorical, marks, listed, id)
  {
  }

  // ------------------------------------------------------------- pruning

  datatype PruneResult = PruneResult(kept: nat, rebased: nat, deleted: nat)

  function Rebasing(store: Store, root: RootId, deleted: set<SnapshotId>): set<SnapshotId> {
    set id | id in store.snapshots && store.snapshots[id].root == root && id !in deleted && LosesBase(store.snapshots[id], deleted)
  }

  /** Reads what each kept snapshot that loses its base serves, and fails where a kept snapshot cannot be read. */
  method ReadKept(store: Store, root: RootId, keptList: seq<SnapshotId>, deleted: set<SnapshotId>) returns (r: Result<map<SnapshotId, Content>>)
    requires forall id :: id in keptList <==> id in store.snapshots && store.snapshots[id].root == root && id !in deleted
    ensures r.Ok? <==> Readable(store, root, deleted)
    ensures r.Ok? ==> r.value.Keys == Rebasing(store, root, deleted)
    ensures r.Ok? ==> forall id :: id in r.value ==> Served(store, id) == Ok(r.value[id])
  {
    hide Served, EffectiveSources;
    var rebase := map[];
    for i := 0 to |keptList|
      invariant forall id :: id in keptList[..i] ==> EffectiveSources(store, id).Ok?
      invariant rebase.Keys == set id | id in keptList[..i] && LosesBase(store.snapshots[id], deleted)
      invariant forall id :: id in rebase ==> Served(store, id) == Ok(rebase[id])
    {
      var id := keptList[i];
      assert id in keptList && keptList[..i + 1] == keptList[..i] + [id];
      var active := EffectiveSources(store, id);
      if active.Err? {
        return Err;
      }
      if LosesBase(store.snapshots[id], deleted) {
        var served := Served(store, id);
        if served.Err? {
          return Err;
        }
        rebase := rebase[id := served.value];
      }
    }
    assert keptList[..|keptList|] == keptList;
    r := Ok(rebase);
  }

  /** Rebases, then deletes. */
  method Apply(db: Database, rebase: map<SnapshotId, Content>, deletedList: seq<SnapshotId>, ghost deleted: set<SnapshotId>)
    requires rebase.Keys <= db.snapshots.Keys && forall id :: id in deleted <==> id in deletedList
    modifies db`snapshots
    ensures db.snapshots.Keys == old(db.snapshots).Keys - deleted
    ensures forall id :: id in db.snapshots ==>
      db.snapshots[id] == if id in rebase then Alone(old(db.snapshots)[id], rebase[id]) else old(db.snapshots)[id]
  {
    hide Alone;
    var todo := rebase.Keys;
    while todo != {}
      invariant todo <= rebase.Keys && db.snapshots.Keys == old(db.snapshots).Keys
      invariant forall id :: id in db.snapshots ==>
        db.snapshots[id] == if id in rebase.Keys - todo then Alone(old(db.snapshots)[id], rebase[id]) else old(db.snapshots)[id]
      decreases todo
    {
      var id :| id in todo;
      db.snapshots := db.snapshots[id := Alone(db.snapshots[id], rebase[id])];
      todo := todo - {id};
    }
    for i := 0 to |deletedList|
      invariant forall id :: id in db.snapshots <==> id in old(db.snapshots) && id !in deletedList[..i]
      invariant forall id :: id in db.snapshots ==>
        db.snapshots[id] == if id in rebase then Alone(old(db.snapshots)[id], rebase[id]) else old(db.snapshots)[id]
    {
      assert deletedList[..i + 1] == deletedList[..i] + [deletedList[i]];
      db.snapshots := db.snapshots - {deletedList[i]};
    }
    assert deletedList[..|deletedList|] == deletedList;
  }

  /**
   * Deletes, in one transaction, the snapshots of the root that are not kept, and
   * makes those that lose their base stand alone.
   */
  method PruneHistory(db: Database, root: RootId, keep: int, preserveHistorical: bool, marks: Marks, listed: seq<SnapshotId>)
    returns (r: Result<PruneResult>, ghost kept: set<SnapshotId>)
    requires NewestFirst(db.Rows(), root, listed)
    modifies db`snapshots
    ensures r.Err? ==> db.Rows() == old(db.Rows())
    ensures keep >= 1 && root in old(db.Rows()).primaries ==>
      && HeadsOf(old(db.Rows()), root) <= kept
      && (forall id :: id in listed ==> (id in kept <==> Needed(old(db.Rows()), root, keep, preserveHistorical, marks, listed, id)))
    ensures r.Ok? <==> keep >= 1 && root in old(db.Rows()).primaries && Pruned(old(db.Rows()), root, kept).Ok?
    ensures r.Ok? ==> db.Rows() == Pruned(old(db.Rows()), root, kept).value
    ensures r.Ok? ==> var store, deleted := old(db.Rows()), Deleted(old(db.Rows()), root, kept);
      r.value.kept + |deleted| == |listed| && r.value.rebased == |Rebasing(store, root, deleted)| && r.value.deleted == |deleted|
  {
    kept := {};
    if keep < 1 || root !in db.primaries {
      return Err, kept;
    }
    ghost var store := db.Rows();
    ListedOnce(store, root, listed);
    hide Needed, HeadsOf, Readable, Rebased, Alone, Served;
    var keeping := KeptSnapshots(store, root, listed, keep, preserveHistorical, marks, HeadsOf(db.Rows(), root));
    kept := keeping;
    var keptList, deletedList := Divide(listed, keeping);
    ghost var deleted := Deleted(store, root, kept);
    DividedCounts(deletedList, deleted);
    if deletedList == [] {
      assert deleted == {};
      NoneRebased(store, root);
      return Ok(PruneResult(|keptList|, 0, 0)), kept;
    }
    assert deletedList[0] in deleted;
    var rebase := ReadKept(db.Rows(), root, keptList, set id | id in deletedList);
    if rebase.Err? {
      return Err, kept;
    }
    Apply(db, rebase.value, deletedList, deleted);
    RemainingAfter(store, root, deleted, rebase.value, db.snapshots);
    r := Ok(PruneResult(|keptList|, |rebase.value|, |deletedList|));
  }

  method Divide(listed: seq<SnapshotId>, kept: set<SnapshotId>) returns (keptList: seq<SnapshotId>, deletedList: seq<SnapshotId>)
    requires Distinct(listed)
    ensures |keptList| + |deletedList| == |listed| && Distinct(deletedList)
    ensures forall id :: id in keptList <==> id in listed && id in kept
    ensures forall id :: id in deletedList <==> id in listed && id !in kept
  {
    keptList, deletedList := [], [];
    for i := 0 to |listed|
      invariant |keptList| + |deletedList| == i && Distinct(deletedList)
      invariant forall id :: id in keptList <==> id in listed[..i] && id in kept
      invariant forall id :: id in deletedList <==> id in listed[..i] && id !in kept
    {
      assert listed[..i + 1] == listed[..i] + [listed[i]];
      assert forall k :: 0 <= k < i ==> listed[..i][k] != listed[i];
      if listed[i] in kept {
        keptList := keptList + [listed[i]];
      } else {
        deletedList := deletedList + [listed[i]];
      }
    }
    assert listed[..|listed|] == listed;
  }

  lemma {:induction false} DividedCounts(list: seq<SnapshotId>, all: set<SnapshotId>)
    requires Distinct(list) && forall id :: id in list <==> id in all
    ensures |list| == |all| && all == set id | id in list
    decreases |list|
  {
    if list != [] {
      var n := |list| - 1;
      assert list == list[..n] + [list[n]];
      forall id | id in list[..n] ensures id != list[n] {
        var k :| 0 <= k < n && list[..n][k] == id;
        assert list[k] == id;
      }
      assert list[n] in all;
      DividedCounts(list[..n], all - {list[n]});
    }
  }

  lemma NoneRebased(store: Store, root: RootId)
    ensures Rebasing(store, root, {}) == {}
  {
  }

  lemma RemainingAfter(store: Store, root: RootId, deleted: set<SnapshotId>, rebase: map<SnapshotId, Content>, snapshots: map<SnapshotId, Snapshot>)
    requires Readable(store, root, deleted) && rebase.Keys == Rebasing(store, root, deleted)
    requires forall id :: id in rebase ==> Served(store, id) == Ok(rebase[id])
    requires snapshots.Keys == store.snapshots.Keys - deleted
    requires forall id :: id in snapshots ==> snapshots[id] == if id in rebase then Alone(store.snapshots[id], rebase[id]) else store.snapshots[id]
    ensures snapshots == Remaining(store, root, deleted)
  {
  }
}
