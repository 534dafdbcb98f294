/**
 * Any interleaving of publishers over one store: what every step keeps, and what
 * a snapshot's base chain resolves to after any run.
 */
module PublicationRuns {
  import opened Common
  import opened Deltas
  import opened Publication
  import opened BaseChains
  import opened Pruning

  type Publisher = string

  /** A publisher between loading its base and committing. */
  datatype Pending = Pending(root: RootId, location: LocationId, base: Base)

  /**
   * The store, the publishers under way, and what is only recorded to speak of
   * the run: what each snapshot was published with, and the heads each location had.
   */
  datatype System = System(
    store: Store,
    pending: map<Publisher, Pending>,
    published: map<SnapshotId, Content>,
    history: map<LocationId, seq<SnapshotId>>
  )

  datatype Action =
    | Register(root: RootId, location: LocationId)
    | Begin(publisher: Publisher, location: LocationId)
    | Publish(publisher: Publisher, id: SnapshotId, content: Content)
    | PublishHistorical(publisher: Publisher, id: SnapshotId, explicitBase: Option<SnapshotId>, content: Content)
    | Abandon(publisher: Publisher)
    | Prune(root: RootId, kept: set<SnapshotId>)

  function Registered(store: Store, root: RootId, location: LocationId): Store {
    if location in store.locations then store
    else store.(locations := store.locations[location := root],
                primaries := if root in store.primaries then store.primaries else store.primaries[root := location])
  }

  function HistoryOf(sys: System, location: LocationId): seq<SnapshotId> {
    if location in sys.history then sys.history[location] else []
  }

  /** An explicit base takes the place of the loaded one; it must be a snapshot of the same root. */
  function HistoricalBase(store: Store, root: RootId, base: Base, explicitBase: Option<SnapshotId>): Result<Base> {
    if explicitBase.None? then Ok(base)
    else if explicitBase.value !in store.snapshots || store.snapshots[explicitBase.value].root != root then Err
    else Ok(base.(snapshot := explicitBase))
  }

  /** A new snapshot's id is never that of an earlier one; a prune keeps every head, whatever else it keeps. */
  ghost function Step(sys: System, action: Action): System {
    match action
    case Register(root, location) => sys.(store := Registered(sys.store, root, location))
    case Begin(publisher, location) =>
      if location !in sys.store.locations then sys else
        var base := LoadBase(sys.store, sys.store.locations[location], location);
        if base.Err? then sys
        else sys.(pending := sys.pending[publisher := Pending(sys.store.locations[location], location, base.value)])
    case Abandon(publisher) => sys.(pending := sys.pending - {publisher})
    case Prune(root, kept) =>
      var store := Pruned(sys.store, root, kept + HeadsOf(sys.store, root));
      if store.Err? then sys else sys.(store := store.value)
    case Publish(publisher, id, content) =>
      if publisher !in sys.pending || id in sys.published then sys else
        var p, done := sys.pending[publisher], sys.(pending := sys.pending - {publisher});
        var store := Committed(sys.store, p.root, p.location, p.base, id, content, false);
        if store.Err? then done else
          done.(store := store.value, published := sys.published[id := content],
                history := sys.history[p.location := HistoryOf(sys, p.location) + [id]])
    case PublishHistorical(publisher, id, explicitBase, content) =>
      if publisher !in sys.pending || id in sys.published then sys else
        var p, done := sys.pending[publisher], sys.(pending := sys.pending - {publisher});
        var base := HistoricalBase(sys.store, p.root, p.base, explicitBase);
        if base.Err? then done else
          var store := Committed(sys.store, p.root, p.location, base.value, id, content, true);
          if store.Err? then done else done.(store := store.value, published := sys.published[id := content])
  }

  ghost function Run(sys: System, actions: seq<Action>): System {
    if actions == [] then sys else Step(Run(sys, actions[..|actions| - 1]), actions[|actions| - 1])
  }

  const EMPTY := System(Store(map[], map[], map[], map[]), map[], map[], map[])

  // ------------------------------------------------- what snapshots resolve to

  ghost predicate ResolvesTo(store: Store, id: SnapshotId, content: Content)
    requires Bases(store) && id in store.snapshots
  {
    var chain, facts := ChainOf(store, id), store.snapshots[id].facts;
    && Resolve(SourceLayers(store, chain)) == content.sources
    && Resolve(PairLayers(store, chain)).Keys == content.pairs
    && if facts.Some? then facts.value == |content.pairs| else content.pairs == {}
  }

  ghost predicate AllResolve(store: Store, published: map<SnapshotId, Content>) {
    Bases(store) && forall id :: id in store.snapshots ==> id in published && ResolvesTo(store, id, published[id])
  }

  /** The layers of a new snapshot are its rows on those of its base. */
  lemma NewLayers(store: Store, later: Store, id: SnapshotId, s: Snapshot)
    requires Bases(store) && Bases(later) && id !in store.snapshots && later.snapshots == store.snapshots[id := s]
    requires s.base.Some? ==> s.base.value in store.snapshots
    ensures SourceLayers(later, ChainOf(later, id)) == [s.sources] + SourceLayers(store, BaseChain(store, s.base))
    ensures PairLayers(later, ChainOf(later, id)) == [s.implements] + PairLayers(store, BaseChain(store, s.base))
  {
    hide Bases, ChainOf;
    ChainStep(later, id);
    if s.base.Some? {
      ChainStays(store, later, s.base.value);
    }
  }

  /** The chain that a snapshot with this base is laid on. */
  ghost function BaseChain(store: Store, base: Option<SnapshotId>): seq<SnapshotId>
    requires Bases(store) && (base.Some? ==> base.value in store.snapshots)
  {
    if base.None? then [] else ChainOf(store, base.value)
  }

  lemma NothingResolves<K, V>()
    ensures Resolve<K, V>([]) == map[]
  {
  }

  /** A new snapshot resolves to what it is published with. */
  lemma NewResolves(store: Store, later: Store, published: map<SnapshotId, Content>, id: SnapshotId,
                    root: RootId, location: LocationId, base: Option<SnapshotId>, content: Content)
    requires Bases(store) && AllResolve(store, published) && Bases(later) && id !in store.snapshots
    requires base.Some? ==> base.value in store.snapshots
    requires NewSnapshot(store, root, location, base, content).Ok?
    requires later.snapshots == store.snapshots[id := NewSnapshot(store, root, location, base, content).value]
    ensures id in later.snapshots && ResolvesTo(later, id, content)
  {
    hide *;
    var s := NewSnapshot(store, root, location, base, content).value;
    NewSnapshotIs(store, root, location, base, content);
    NewLayers(store, later, id, s);
    SourcesRead(store, published, base);
    ImplementsRead(store, published, base);
    RowsResolve(SourceLayers(store, BaseChain(store, base)), content.sources);
    RowsResolve(PairLayers(store, BaseChain(store, base)), Table(content.pairs));
    TableKeys(content.pairs);
    IsResolved(later, id, content);
  }

  lemma NewSnapshotIs(store: Store, root: RootId, location: LocationId, base: Option<SnapshotId>, content: Content)
    requires NewSnapshot(store, root, location, base, content).Ok?
    ensures BaseSources(store, base).Ok? && BaseImplements(store, base).Ok?
    ensures var s := NewSnapshot(store, root, location, base, content).value;
            && s.sources == Deltas.Rows(BaseSources(store, base).value, content.sources)
            && s.implements == Deltas.Rows(Table(BaseImplements(store, base).value), Table(content.pairs))
            && s.facts == Some(|content.pairs|) && s.base == base && s.root == root && s.location == location
            && s.ordinal == NextOrdinal(store.snapshots)
            && (base.Some? ==> base.value in store.snapshots)
  {
    hide BaseImplements, Deltas.Rows, Table, Resolve, SourceLayers, OneRoot;
  }

  lemma TableKeys(pairs: set<Pair>)
    ensures Table(pairs).Keys == pairs
  {
  }

  lemma IsResolved(store: Store, id: SnapshotId, content: Content)
    requires Bases(store) && id in store.snapshots && store.snapshots[id].facts == Some(|content.pairs|)
    requires Resolve(SourceLayers(store, ChainOf(store, id))) == content.sources
    requires Resolve(PairLayers(store, ChainOf(store, id))).Keys == content.pairs
    ensures ResolvesTo(store, id, content)
  {
    hide Bases, Resolve, SourceLayers, PairLayers, ChainOf;
  }

  lemma SourcesRead(store: Store, published: map<SnapshotId, Content>, base: Option<SnapshotId>)
    requires Bases(store) && AllResolve(store, published) && (base.Some? ==> base.value in store.snapshots)
    ensures BaseSources(store, base).Ok? ==> BaseSources(store, base).value == Resolve(SourceLayers(store, BaseChain(store, base)))
  {
    if base.None? {
      NothingResolves<Path, Revision>();
    } else {
      CheckedChainIsWhole(store, base.value);
      hide AllResolve, Bases, ChainOf, Resolve, SourceLayers, CheckedChain;
    }
  }

  lemma ImplementsRead(store: Store, published: map<SnapshotId, Content>, base: Option<SnapshotId>)
    requires Bases(store) && AllResolve(store, published) && (base.Some? ==> base.value in store.snapshots)
    ensures BaseImplements(store, base).Ok? ==>
      Table(BaseImplements(store, base).value) == Resolve(PairLayers(store, BaseChain(store, base)))
  {
    if base.None? {
      NothingResolves<Pair, Holds>();
    } else {
      hide *;
      CheckedChainIsWhole(store, base.value);
      FactsRead(store, base.value);
      AllResolveAt(store, published, base.value);
      BaseImplementsIs(store, base.value);
      HoldsTable(Resolve(PairLayers(store, ChainOf(store, base.value))));
      BaseChainIs(store, base.value);
      EmptyTable();
    }
  }

  lemma EmptyTable()
    ensures Table({}) == map[]
  {
  }

  lemma BaseChainIs(store: Store, base: SnapshotId)
    requires Bases(store) && base in store.snapshots
    ensures BaseChain(store, Some(base)) == ChainOf(store, base)
  {
  }

  lemma BaseImplementsIs(store: Store, base: SnapshotId)
    ensures BaseImplements(store, Some(base)) == match EffectiveImplements(store, base) case Read(pairs) => Ok(pairs) case NoFacts => Ok({}) case Failed => Err
  {
    hide EffectiveImplements;
  }

  /** What reading the facts of a snapshot gives, once its chain is read. */
  lemma FactsRead(store: Store, id: SnapshotId)
    requires id in store.snapshots
    ensures EffectiveImplements(store, id).Read? ==>
      CheckedChain(store, id).Ok? && EffectiveImplements(store, id).pairs == Resolve(PairLayers(store, CheckedChain(store, id).value)).Keys
    ensures EffectiveImplements(store, id).NoFacts? ==> store.snapshots[id].facts.None?
    ensures (CheckedChain(store, id).Ok? && store.snapshots[id].facts.Some?
             && |Resolve(PairLayers(store, CheckedChain(store, id).value)).Keys| == store.snapshots[id].facts.value)
            ==> EffectiveImplements(store, id).Read?
  {
    hide CheckedChain, Resolve, PairLayers;
  }

  lemma AllResolveAt(store: Store, published: map<SnapshotId, Content>, id: SnapshotId)
    requires Bases(store) && AllResolve(store, published) && id in store.snapshots
    ensures id in published && ResolvesTo(store, id, published[id])
    ensures Resolve(SourceLayers(store, ChainOf(store, id))) == published[id].sources
    ensures Resolve(PairLayers(store, ChainOf(store, id))).Keys == published[id].pairs
    ensures store.snapshots[id].facts.None? ==> Resolve(PairLayers(store, ChainOf(store, id))) == map[]
    ensures store.snapshots[id].facts.Some? ==> store.snapshots[id].facts.value == |published[id].pairs|
  {
    assert ResolvesTo(store, id, published[id]);
    hide AllResolve, Bases, ChainOf, Resolve, SourceLayers, PairLayers;
    if store.snapshots[id].facts.None? {
      assert Resolve(PairLayers(store, ChainOf(store, id))).Keys == {};
    }
  }

  // ---------------------------------------------------------- invariants

  /**
   * A location's heads so far: as many as its version, and each superseded one the
   * base of its successor, as far as prunes left them.
   */
  ghost predicate HeadFollows(store: Store, used: set<SnapshotId>, location: LocationId, heads: seq<SnapshotId>) {
    && location in store.locations
    && (location in store.heads <==> heads != [])
    && (heads != [] ==> heads[|heads| - 1] in store.snapshots && store.heads[location] == Head(heads[|heads| - 1], |heads|))
    && (forall i :: 0 <= i < |heads| ==> heads[i] in used)
    && (forall i :: 0 <= i < |heads| && heads[i] in store.snapshots ==>
          store.snapshots[heads[i]].location == location && store.snapshots[heads[i]].root == store.locations[location])
    && (forall i :: 0 < i < |heads| && heads[i] in store.snapshots ==>
          store.snapshots[heads[i]].base == if heads[i - 1] in store.snapshots then Some(heads[i - 1]) else None)
  }

  ghost predicate HeadsFollow(sys: System) {
    && sys.store.heads.Keys <= sys.store.locations.Keys && sys.history.Keys <= sys.store.locations.Keys
    && forall l :: l in sys.store.locations ==> HeadFollows(sys.store, sys.published.Keys, l, HistoryOf(sys, l))
  }

  ghost predicate Primaries(store: Store) {
    && (forall r :: r in store.primaries ==> store.primaries[r] in store.locations && store.locations[store.primaries[r]] == r)
    && (forall l :: l in store.locations ==> store.locations[l] in store.primaries)
  }

  /** A loaded head is one the location had, and is the base; any base was published, and is of the root if it was not pruned. */
  ghost predicate PendingFollows(sys: System, p: Pending) {
    var heads := HistoryOf(sys, p.location);
    && p.location in sys.store.locations && sys.store.locations[p.location] == p.root
    && (p.base.snapshot.Some? ==> p.base.snapshot.value in sys.published)
    && (p.base.snapshot.Some? && p.base.snapshot.value in sys.store.snapshots ==> sys.store.snapshots[p.base.snapshot.value].root == p.root)
    && (p.base.head.Some? ==>
          1 <= p.base.head.value.version <= |heads| && p.base.snapshot == Some(heads[p.base.head.value.version - 1]))
  }

  ghost predicate AllPendingFollow(sys: System) {
    forall q :: q in sys.pending ==> PendingFollows(sys, sys.pending[q])
  }

  ghost predicate Valid(sys: System) {
    && Bases(sys.store) && AllResolve(sys.store, sys.published)
    && HeadsFollow(sys) && Primaries(sys.store) && AllPendingFollow(sys)
  }

  lemma EmptyIsValid()
    ensures Valid(EMPTY)
  {
  }

  lemma ValidParts(sys: System)
    requires Valid(sys)
    ensures Bases(sys.store) && AllResolve(sys.store, sys.published)
    ensures HeadsFollow(sys) && Primaries(sys.store) && AllPendingFollow(sys)
  {
    hide Bases, AllResolve, HeadsFollow, Primaries, AllPendingFollow;
  }

  lemma ValidWhole(sys: System)
    requires Bases(sys.store) && AllResolve(sys.store, sys.published)
    requires HeadsFollow(sys) && Primaries(sys.store) && AllPendingFollow(sys)
    ensures Valid(sys)
  {
    hide Bases, AllResolve, HeadsFollow, Primaries, AllPendingFollow;
  }

  /** Where no snapshot is added, each resolves as before. */
  lemma SameSnapshots(store: Store, later: Store, published: map<SnapshotId, Content>)
    requires Bases(store) && AllResolve(store, published) && later.snapshots == store.snapshots
    ensures Bases(later) && AllResolve(later, published)
  {
    assert Bases(later);
    OldResolve(store, later, published);
    hide Bases, ResolvesTo;
  }

  lemma OldResolve(store: Store, later: Store, published: map<SnapshotId, Content>)
    requires Bases(store) && Bases(later) && AllResolve(store, published)
    requires forall x :: x in store.snapshots ==> x in later.snapshots && later.snapshots[x] == store.snapshots[x]
    ensures forall x :: x in store.snapshots ==> x in published && ResolvesTo(later, x, published[x])
  {
    forall x | x in store.snapshots ensures x in published && ResolvesTo(later, x, published[x]) {
      ResolvesStill(store, later, published, x);
    }
  }

  lemma ResolvesStill(store: Store, later: Store, published: map<SnapshotId, Content>, x: SnapshotId)
    requires Bases(store) && Bases(later) && AllResolve(store, published) && x in store.snapshots
    requires forall y :: y in store.snapshots ==> y in later.snapshots && later.snapshots[y] == store.snapshots[y]
    ensures x in published && x in later.snapshots && ResolvesTo(later, x, published[x])
  {
    assert ResolvesTo(store, x, published[x]);
    ChainStays(store, later, x);
    hide Bases, ChainOf, Resolve, SourceLayers, PairLayers, AllResolve;
  }

  // --------------------------------------------------- what stays as it is

  /** The later store has every location and every snapshot of the earlier, as they were, and no other snapshot whose id was used. */
  ghost predicate Grows(store: Store, later: Store, used: set<SnapshotId>) {
    && (forall l :: l in store.locations ==> l in later.locations && later.locations[l] == store.locations[l])
    && (forall x :: x in store.snapshots ==> x in later.snapshots && later.snapshots[x] == store.snapshots[x])
    && (forall x :: x in later.snapshots && x in used ==> x in store.snapshots)
  }

  lemma HeadStays(store: Store, later: Store, used: set<SnapshotId>, more: set<SnapshotId>, l: LocationId, heads: seq<SnapshotId>)
    requires HeadFollows(store, used, l, heads) && Grows(store, later, used) && used <= more
    requires l in store.heads <==> l in later.heads
    requires l in store.heads ==> later.heads[l] == store.heads[l]
    ensures HeadFollows(later, more, l, heads)
  {
  }

  lemma HeadsStay(sys: System, now: System)
    requires HeadsFollow(sys) && Grows(sys.store, now.store, sys.published.Keys) && now.history == sys.history && now.store.heads == sys.store.heads
    requires sys.published.Keys <= now.published.Keys
    ensures HeadsFollow(now)
  {
    hide HeadFollows;
    forall l | l in now.store.locations ensures HeadFollows(now.store, now.published.Keys, l, HistoryOf(now, l)) {
      if l in sys.store.locations {
        HeadStays(sys.store, now.store, sys.published.Keys, now.published.Keys, l, HistoryOf(sys, l));
      } else {
        NeverHeaded(now.store, now.published.Keys, l);
      }
    }
    hide Grows;
  }

  lemma NeverHeaded(store: Store, used: set<SnapshotId>, l: LocationId)
    requires l in store.locations && l !in store.heads
    ensures HeadFollows(store, used, l, [])
  {
  }

  /** What a publisher loaded stays a past head of its location. */
  lemma PendingStay(sys: System, now: System, p: Pending)
    requires PendingFollows(sys, p) && Grows(sys.store, now.store, sys.published.Keys) && sys.published.Keys <= now.published.Keys && HistoryOf(sys, p.location) <= HistoryOf(now, p.location)
    ensures PendingFollows(now, p)
  {
    hide HistoryOf;
  }

  lemma AllPendingStay(sys: System, now: System)
    requires AllPendingFollow(sys) && Grows(sys.store, now.store, sys.published.Keys) && sys.published.Keys <= now.published.Keys
    requires forall q :: q in now.pending ==> q in sys.pending && now.pending[q] == sys.pending[q]
    requires forall l :: HistoryOf(sys, l) <= HistoryOf(now, l)
    ensures AllPendingFollow(now)
  {
    hide HistoryOf, PendingFollows, Grows;
    forall q | q in now.pending ensures PendingFollows(now, now.pending[q]) {
      PendingStay(sys, now, sys.pending[q]);
    }
  }

  lemma SameHistory(sys: System, now: System)
    requires now.history == sys.history
    ensures forall l :: HistoryOf(sys, l) <= HistoryOf(now, l)
  {
  }

  // ------------------------------------------- registering and beginning

  lemma RegisterKeeps(sys: System, root: RootId, location: LocationId)
    requires Valid(sys) && location !in sys.store.locations
    ensures Valid(Step(sys, Register(root, location)))
  {
    hide *;
    var now := Step(sys, Register(root, location));
    ValidParts(sys);
    RegisterStep(sys, root, location);
    SameSnapshots(sys.store, now.store, sys.published);
    HeadsStay(sys, now);
    SameHistory(sys, now);
    AllPendingStay(sys, now);
    ValidWhole(now);
  }

  lemma RegisterStep(sys: System, root: RootId, location: LocationId)
    requires Primaries(sys.store) && location !in sys.store.locations
    ensures var now := Step(sys, Register(root, location));
            && now == sys.(store := now.store) && now.store.snapshots == sys.store.snapshots && now.store.heads == sys.store.heads
            && Grows(sys.store, now.store, sys.published.Keys) && Primaries(now.store)
  {
  }

  lemma BeginKeeps(sys: System, publisher: Publisher, location: LocationId)
    requires Valid(sys)
    ensures Valid(Step(sys, Begin(publisher, location)))
  {
    hide *;
    var now := Step(sys, Begin(publisher, location));
    BeginStep(sys, publisher, location);
    ValidParts(sys);
    if now != sys {
      var p := now.pending[publisher];
      LoadedFollows(sys, location);
      AddedPending(sys, now, publisher, p);
      SameSnapshots(sys.store, now.store, sys.published);
      ItselfGrows(sys.store, sys.published.Keys);
      HeadsStay(sys, now);
      ValidWhole(now);
    }
  }

  lemma BeginStep(sys: System, publisher: Publisher, location: LocationId)
    ensures var now := Step(sys, Begin(publisher, location));
            now == sys || (location in sys.store.locations && LoadBase(sys.store, sys.store.locations[location], location).Ok?
                           && now == sys.(pending := sys.pending[publisher := Pending(sys.store.locations[location], location,
                                                                LoadBase(sys.store, sys.store.locations[location], location).value)]))
  {
    hide LoadBase;
  }

  lemma ItselfGrows(store: Store, used: set<SnapshotId>)
    ensures Grows(store, store, used)
  {
  }

  /** What a publisher loads is the location's head, or the primary location's. */
  lemma LoadedFollows(sys: System, location: LocationId)
    requires HeadsFollow(sys) && location in sys.store.locations && LoadBase(sys.store, sys.store.locations[location], location).Ok?
    ensures PendingFollows(sys, Pending(sys.store.locations[location], location, LoadBase(sys.store, sys.store.locations[location], location).value))
  {
    assert HeadFollows(sys.store, sys.published.Keys, location, HistoryOf(sys, location));
    hide HistoryOf, HeadsFollow;
  }

  lemma AddedPending(sys: System, now: System, publisher: Publisher, p: Pending)
    requires AllPendingFollow(sys) && PendingFollows(sys, p) && now == sys.(pending := sys.pending[publisher := p])
    ensures AllPendingFollow(now)
  {
    ItselfGrows(sys.store, sys.published.Keys);
    SameHistory(sys, now);
    hide HistoryOf, PendingFollows, Grows;
    forall q | q in now.pending ensures PendingFollows(now, now.pending[q]) {
      PendingStay(sys, now, now.pending[q]);
    }
  }

  /** In a valid system a registered location's base always loads. */
  lemma BaseLoads(sys: System, location: LocationId)
    requires Valid(sys) && location in sys.store.locations
    ensures LoadBase(sys.store, sys.store.locations[location], location).Ok?
  {
    ValidParts(sys);
    hide Valid, Bases, AllResolve, AllPendingFollow;
    assert HeadFollows(sys.store, sys.published.Keys, location, HistoryOf(sys, location));
    var root := sys.store.locations[location];
    var primary := sys.store.primaries[root];
    assert HeadFollows(sys.store, sys.published.Keys, primary, HistoryOf(sys, primary));
  }

  lemma DropKeeps(sys: System, publisher: Publisher)
    requires Valid(sys)
    ensures Valid(sys.(pending := sys.pending - {publisher}))
  {
    hide *;
    var now := sys.(pending := sys.pending - {publisher});
    ValidParts(sys);
    ItselfGrows(sys.store, sys.published.Keys);
    HeadsStay(sys, now);
    SameHistory(sys, now);
    AllPendingStay(sys, now);
    ValidWhole(now);
  }

  // ------------------------------------------------------------ committing

  lemma NewBases(store: Store, later: Store, id: SnapshotId, s: Snapshot)
    requires Bases(store) && id !in store.snapshots && later.snapshots == store.snapshots[id := s]
    requires s.ordinal == NextOrdinal(store.snapshots)
    requires s.base.Some? ==> s.base.value in store.snapshots && store.snapshots[s.base.value].root == s.root
    ensures Bases(later)
  {
    forall x | x in later.snapshots ensures Based(later, x) {
      if x != id {
        assert Based(store, x);
      }
    }
  }

  /** A new snapshot keeps the bases in order and every snapshot resolving. */
  lemma NewSnapshotKeeps(store: Store, later: Store, published: map<SnapshotId, Content>, id: SnapshotId,
                         root: RootId, location: LocationId, base: Option<SnapshotId>, content: Content)
    requires Bases(store) && AllResolve(store, published) && id !in store.snapshots
    requires base.Some? && base.value in store.snapshots ==> store.snapshots[base.value].root == root
    requires NewSnapshot(store, root, location, base, content).Ok?
    requires later.snapshots == store.snapshots[id := NewSnapshot(store, root, location, base, content).value]
    ensures Bases(later) && AllResolve(later, published[id := content])
  {
    hide *;
    NewSnapshotIs(store, root, location, base, content);
    NewBases(store, later, id, NewSnapshot(store, root, location, base, content).value);
    OldResolve(store, later, published);
    NewResolves(store, later, published, id, root, location, base, content);
    AllResolveGrows(store, later, published, id, content);
  }

  lemma AllResolveGrows(store: Store, later: Store, published: map<SnapshotId, Content>, id: SnapshotId, content: Content)
    requires Bases(later) && later.snapshots.Keys == store.snapshots.Keys + {id} && id !in store.snapshots
    requires forall x :: x in store.snapshots ==> x in published && ResolvesTo(later, x, published[x])
    requires ResolvesTo(later, id, content)
    ensures AllResolve(later, published[id := content])
  {
    hide Bases, ResolvesTo;
  }

  /** Appending a head at the version that was loaded keeps the succession of heads. */
  lemma AdvanceFollows(sys: System, now: System, p: Pending, id: SnapshotId, s: Snapshot)
    requires HeadsFollow(sys) && PendingFollows(sys, p) && id !in sys.published && Unmoved(sys.store, p.location, p.base.head)
    requires id !in sys.store.snapshots && now.published.Keys == sys.published.Keys + {id}
    requires s.base == p.base.snapshot && s.root == p.root && s.location == p.location
    requires now.store == sys.store.(snapshots := sys.store.snapshots[id := s], heads := sys.store.heads[p.location := Advanced(p.location, p.base.head, id)])
    requires now.history == sys.history[p.location := HistoryOf(sys, p.location) + [id]]
    ensures HeadsFollow(now)
  {
    hide *;
    HeadsFollowDomains(sys);
    PendingLocation(sys, p);
    AddedSnapshotGrows(sys.store, now.store, sys.published.Keys, id, s);
    forall l | l in now.store.locations ensures HeadFollows(now.store, now.published.Keys, l, HistoryOf(now, l)) {
      HeadsFollowAt(sys, l);
      AppendedHistory(sys, now, p.location, id, l);
      if l == p.location {
        AppendedFollows(sys, now, p, id, s);
      } else {
        HeadStays(sys.store, now.store, sys.published.Keys, now.published.Keys, l, HistoryOf(sys, l));
      }
    }
    HeadsFollowWhole(now);
  }

  lemma HeadsFollowDomains(sys: System)
    requires HeadsFollow(sys)
    ensures sys.store.heads.Keys <= sys.store.locations.Keys && sys.history.Keys <= sys.store.locations.Keys
  {
    hide HeadFollows;
  }

  lemma HeadsFollowAt(sys: System, l: LocationId)
    requires HeadsFollow(sys) && l in sys.store.locations
    ensures HeadFollows(sys.store, sys.published.Keys, l, HistoryOf(sys, l))
  {
    hide HeadFollows, HistoryOf;
  }

  lemma HeadsFollowWhole(sys: System)
    requires sys.store.heads.Keys <= sys.store.locations.Keys && sys.history.Keys <= sys.store.locations.Keys
    requires forall l :: l in sys.store.locations ==> HeadFollows(sys.store, sys.published.Keys, l, HistoryOf(sys, l))
    ensures HeadsFollow(sys)
  {
    hide HeadFollows, HistoryOf;
  }

  lemma PendingLocation(sys: System, p: Pending)
    requires PendingFollows(sys, p)
    ensures p.location in sys.store.locations
  {
  }

  lemma AppendedHistory(sys: System, now: System, location: LocationId, id: SnapshotId, l: LocationId)
    requires now.history == sys.history[location := HistoryOf(sys, location) + [id]]
    ensures HistoryOf(now, l) == if l == location then HistoryOf(sys, l) + [id] else HistoryOf(sys, l)
  {
  }

  lemma AppendedFollows(sys: System, now: System, p: Pending, id: SnapshotId, s: Snapshot)
    requires p.location in sys.store.locations && HeadFollows(sys.store, sys.published.Keys, p.location, HistoryOf(sys, p.location))
    requires PendingFollows(sys, p) && id !in sys.store.snapshots && id !in sys.published && Unmoved(sys.store, p.location, p.base.head)
    requires now.published.Keys == sys.published.Keys + {id}
    requires s.base == p.base.snapshot && s.root == p.root && s.location == p.location
    requires now.store == sys.store.(snapshots := sys.store.snapshots[id := s], heads := sys.store.heads[p.location := Advanced(p.location, p.base.head, id)])
    ensures HeadFollows(now.store, now.published.Keys, p.location, HistoryOf(sys, p.location) + [id])
  {
    hide HistoryOf;
    var heads := HistoryOf(sys, p.location);
    var longer := heads + [id];
    assert forall i :: 0 <= i < |longer| ==> longer[i] == if i < |heads| then heads[i] else id;
  }

  lemma PublishKeeps(sys: System, publisher: Publisher, id: SnapshotId, content: Content)
    requires Valid(sys)
    ensures Valid(Step(sys, Publish(publisher, id, content)))
  {
    hide *;
    var now := Step(sys, Publish(publisher, id, content));
    PublishStep(sys, publisher, id, content);
    if Commits(sys, publisher, id, content) {
      CommitsParts(sys, publisher, id, content);
      var p := sys.pending[publisher];
      ValidParts(sys);
      PendingAt(sys, publisher);
      var s := NewSnapshot(sys.store, p.root, p.location, p.base.snapshot, content).value;
      NewSnapshotIs(sys.store, p.root, p.location, p.base.snapshot, content);
      NewSnapshotKeeps(sys.store, now.store, sys.published, id, p.root, p.location, p.base.snapshot, content);
      AdvanceFollows(sys, now, p, id, s);
      AddedSnapshotGrows(sys.store, now.store, sys.published.Keys, id, s);
      LongerHistory(sys, now, p.location, id);
      AllPendingStay(sys, now);
      SamePrimaries(sys.store, now.store);
      ValidWhole(now);
    } else if publisher in sys.pending && id !in sys.published {
      DropKeeps(sys, publisher);
    }
  }

  /** Whether a publication's head is still as it was loaded, and its snapshot can be made. */
  ghost predicate Commits(sys: System, publisher: Publisher, id: SnapshotId, content: Content) {
    publisher in sys.pending &&
    var p := sys.pending[publisher];
    id !in sys.published && id !in sys.store.snapshots && NewSnapshot(sys.store, p.root, p.location, p.base.snapshot, content).Ok?
    && Unmoved(sys.store, p.location, p.base.head)
  }

  lemma CommitsParts(sys: System, publisher: Publisher, id: SnapshotId, content: Content)
    requires Commits(sys, publisher, id, content)
    ensures publisher in sys.pending && id !in sys.store.snapshots && id !in sys.published
    ensures var p := sys.pending[publisher];
            NewSnapshot(sys.store, p.root, p.location, p.base.snapshot, content).Ok? && Unmoved(sys.store, p.location, p.base.head)
  {
    hide NewSnapshot, Unmoved;
  }

  /** What a publication does: all of its rows and the head, or nothing to the store. */
  lemma PublishStep(sys: System, publisher: Publisher, id: SnapshotId, content: Content)
    ensures Commits(sys, publisher, id, content) ==>
      var p := sys.pending[publisher];
      NewSnapshot(sys.store, p.root, p.location, p.base.snapshot, content).Ok? &&
      var s := NewSnapshot(sys.store, p.root, p.location, p.base.snapshot, content).value;
      Step(sys, Publish(publisher, id, content)) == System(
        sys.store.(snapshots := sys.store.snapshots[id := s], heads := sys.store.heads[p.location := Advanced(p.location, p.base.head, id)]),
        sys.pending - {publisher}, sys.published[id := content], sys.history[p.location := HistoryOf(sys, p.location) + [id]])
    ensures !Commits(sys, publisher, id, content) ==>
      Step(sys, Publish(publisher, id, content)) == if publisher in sys.pending && id !in sys.published then sys.(pending := sys.pending - {publisher}) else sys
  {
    hide NewSnapshot, Unmoved, Advanced;
  }

  lemma PendingAt(sys: System, publisher: Publisher)
    requires AllPendingFollow(sys) && publisher in sys.pending
    ensures PendingFollows(sys, sys.pending[publisher])
    ensures var p := sys.pending[publisher];
            p.location in sys.store.locations && sys.store.locations[p.location] == p.root
            && (p.base.snapshot.Some? && p.base.snapshot.value in sys.store.snapshots ==> sys.store.snapshots[p.base.snapshot.value].root == p.root)
  {
    assert PendingFollows(sys, sys.pending[publisher]);
  }

  lemma AddedSnapshotGrows(store: Store, later: Store, used: set<SnapshotId>, id: SnapshotId, s: Snapshot)
    requires id !in store.snapshots && id !in used && later.snapshots == store.snapshots[id := s] && later.locations == store.locations
    ensures Grows(store, later, used)
  {
  }

  lemma LongerHistory(sys: System, now: System, location: LocationId, id: SnapshotId)
    requires now.history == sys.history[location := HistoryOf(sys, location) + [id]]
    ensures forall l :: HistoryOf(sys, l) <= HistoryOf(now, l)
  {
  }

  lemma SamePrimaries(store: Store, later: Store)
    requires Primaries(store) && later.primaries == store.primaries && later.locations == store.locations
    ensures Primaries(later)
  {
  }

  lemma PublishHistoricalKeeps(sys: System, publisher: Publisher, id: SnapshotId, explicitBase: Option<SnapshotId>, content: Content)
    requires Valid(sys)
    ensures Valid(Step(sys, PublishHistorical(publisher, id, explicitBase, content)))
  {
    hide *;
    var now := Step(sys, PublishHistorical(publisher, id, explicitBase, content));
    HistoricalStep(sys, publisher, id, explicitBase, content);
    if publisher in sys.pending && id !in sys.published {
      var p := sys.pending[publisher];
      if now == sys.(pending := sys.pending - {publisher}) {
        DropKeeps(sys, publisher);
      } else {
        var base := HistoricalBase(sys.store, p.root, p.base, explicitBase).value.snapshot;
        var s := NewSnapshot(sys.store, p.root, p.location, base, content).value;
        ValidParts(sys);
        PendingAt(sys, publisher);
        HistoricalBaseIs(sys, publisher, explicitBase);
        NewSnapshotKeeps(sys.store, now.store, sys.published, id, p.root, p.location, base, content);
        AddedSnapshotGrows(sys.store, now.store, sys.published.Keys, id, s);
        HeadsStay(sys, now);
        SameHistory(sys, now);
        AllPendingStay(sys, now);
        SamePrimaries(sys.store, now.store);
        ValidWhole(now);
      }
    }
  }

  /** A historical publication adds its snapshot and no head, or nothing to the store. */
  lemma HistoricalStep(sys: System, publisher: Publisher, id: SnapshotId, explicitBase: Option<SnapshotId>, content: Content)
    ensures var now := Step(sys, PublishHistorical(publisher, id, explicitBase, content));
            if publisher !in sys.pending || id in sys.published then now == sys else
              var p := sys.pending[publisher];
              now == sys.(pending := sys.pending - {publisher}) || (
                && HistoricalBase(sys.store, p.root, p.base, explicitBase).Ok? && id !in sys.store.snapshots
                && var base := HistoricalBase(sys.store, p.root, p.base, explicitBase).value.snapshot;
                NewSnapshot(sys.store, p.root, p.location, base, content).Ok?
                && now == sys.(store := sys.store.(snapshots := sys.store.snapshots[id := NewSnapshot(sys.store, p.root, p.location, base, content).value]),
                               pending := sys.pending - {publisher}, published := sys.published[id := content]))
  {
    hide NewSnapshot, HistoricalBase;
  }

  lemma HistoricalBaseIs(sys: System, publisher: Publisher, explicitBase: Option<SnapshotId>)
    requires publisher in sys.pending
    requires var p := sys.pending[publisher];
      p.base.snapshot.Some? && p.base.snapshot.value in sys.store.snapshots ==> sys.store.snapshots[p.base.snapshot.value].root == p.root
    requires HistoricalBase(sys.store, sys.pending[publisher].root, sys.pending[publisher].base, explicitBase).Ok?
    ensures var p := sys.pending[publisher];
            var base := HistoricalBase(sys.store, p.root, p.base, explicitBase).value.snapshot;
            base.Some? && base.value in sys.store.snapshots ==> sys.store.snapshots[base.value].root == p.root
  {
  }

  /** Every step keeps the system valid. */
  lemma StepKeeps(sys: System, action: Action)
    requires Valid(sys)
    ensures Valid(Step(sys, action))
  {
    hide *;
    match action
    case Register(root, location) => RegisterAny(sys, root, location);
    case Begin(publisher, location) => BeginKeeps(sys, publisher, location);
    case Publish(publisher, id, content) => PublishKeeps(sys, publisher, id, content);
    case PublishHistorical(publisher, id, explicitBase, content) => PublishHistoricalKeeps(sys, publisher, id, explicitBase, content);
    case Abandon(publisher) => AbandonKeeps(sys, publisher);
    case Prune(root, kept) => PruneKeeps(sys, root, kept);
  }

  lemma RegisterAny(sys: System, root: RootId, location: LocationId)
    requires Valid(sys)
    ensures Valid(Step(sys, Register(root, location)))
  {
    hide Valid;
    if location in sys.store.locations {
      assert Step(sys, Register(root, location)) == sys;
    } else {
      RegisterKeeps(sys, root, location);
    }
  }

  lemma AbandonKeeps(sys: System, publisher: Publisher)
    requires Valid(sys)
    ensures Valid(Step(sys, Abandon(publisher)))
  {
    hide Valid;
    DropKeeps(sys, publisher);
  }

  lemma {:induction false} RunKeeps(sys: System, actions: seq<Action>)
    requires Valid(sys)
    ensures Valid(Run(sys, actions))
  {
    hide Valid, Step;
    if actions != [] {
      RunKeeps(sys, actions[..|actions| - 1]);
      StepKeeps(Run(sys, actions[..|actions| - 1]), actions[|actions| - 1]);
    }
  }

  /** What was published is never forgotten, and its id not used again. */
  lemma StepForgetsNothing(sys: System, action: Action, id: SnapshotId)
    requires id in sys.published
    ensures var now := Step(sys, action);
            && id in now.published && now.published[id] == sys.published[id]
            && (id in now.store.snapshots ==> id in sys.store.snapshots)
            && (!action.Prune? && id in sys.store.snapshots ==> id in now.store.snapshots && now.store.snapshots[id] == sys.store.snapshots[id])
  {
    hide *;
    var now := Step(sys, action);
    match action
    case Publish(publisher, _, content) => PublishStep(sys, publisher, action.id, content);
      CommitsFresh(sys, publisher, action.id, content);
    case PublishHistorical(publisher, _, explicitBase, content) => HistoricalStep(sys, publisher, action.id, explicitBase, content);
    case Prune(root, kept) => PruneOnlyDeletes(sys, root, kept);
    case _ => SnapshotsStay(sys, action);
  }

  lemma SnapshotsStay(sys: System, action: Action)
    requires action.Register? || action.Begin? || action.Abandon?
    ensures Step(sys, action).published == sys.published && Step(sys, action).store.snapshots == sys.store.snapshots
  {
    hide LoadBase;
  }

  lemma CommitsFresh(sys: System, publisher: Publisher, id: SnapshotId, content: Content)
    ensures Commits(sys, publisher, id, content) ==> id !in sys.published
  {
  }

  lemma {:induction false} RunForgetsNothing(sys: System, actions: seq<Action>, id: SnapshotId)
    requires id in sys.published
    ensures var now := Run(sys, actions);
            && id in now.published && now.published[id] == sys.published[id]
            && (id in now.store.snapshots ==> id in sys.store.snapshots)
  {
    hide Step;
    if actions != [] {
      RunForgetsNothing(sys, actions[..|actions| - 1], id);
      StepForgetsNothing(Run(sys, actions[..|actions| - 1]), actions[|actions| - 1], id);
    }
  }

  // ------------------------------------------------------------- pruning

  /** A prune changes the store as pruning does, or nothing. */
  lemma PruneStep(sys: System, root: RootId, kept: set<SnapshotId>)
    ensures var now, keeping := Step(sys, Prune(root, kept)), kept + HeadsOf(sys.store, root);
            if Pruned(sys.store, root, keeping).Ok? then now == sys.(store := Pruned(sys.store, root, keeping).value) else now == sys
  {
    hide Pruned, HeadsOf;
  }

  lemma PrunedKeepsTables(store: Store, root: RootId, kept: set<SnapshotId>)
    requires Pruned(store, root, kept).Ok?
    ensures var later := Pruned(store, root, kept).value;
            && later == store.(snapshots := later.snapshots) && later.snapshots.Keys == store.snapshots.Keys - Deleted(store, root, kept)
            && (Deleted(store, root, kept) == {} ==> later == store)
  {
    hide Readable, Rebased, Deleted;
  }

  lemma PruneOnlyDeletes(sys: System, root: RootId, kept: set<SnapshotId>)
    ensures var now := Step(sys, Prune(root, kept));
            now == sys.(store := now.store) && now.store.snapshots.Keys <= sys.store.snapshots.Keys && now.store.heads == sys.store.heads
  {
    hide *;
    PruneStep(sys, root, kept);
    var keeping := kept + HeadsOf(sys.store, root);
    if Pruned(sys.store, root, keeping).Ok? {
      PrunedKeepsTables(sys.store, root, keeping);
    }
  }

  lemma FactsAreRecorded(store: Store, published: map<SnapshotId, Content>)
    requires Bases(store) && AllResolve(store, published)
    ensures FactsRecorded(store)
  {
    hide AllResolve, Bases, ChainOf, Resolve, PairLayers;
    forall id | id in store.snapshots && store.snapshots[id].facts.None? ensures Resolve(PairLayers(store, ChainOf(store, id))) == map[] {
      AllResolveAt(store, published, id);
    }
  }

  lemma ResolvesAsBefore(store: Store, root: RootId, deleted: set<SnapshotId>, later: Store, id: SnapshotId, content: Content)
    requires Bases(store) && FactsRecorded(store) && Leaves(store, root, deleted, later) && Bases(later)
    requires id in store.snapshots && id in later.snapshots && ResolvesTo(store, id, content)
    ensures ResolvesTo(later, id, content)
  {
    RemainingAt(store, root, deleted, later, id);
    SameOrdinal(store, root, deleted, id);
    ResolvesAlike(store, root, deleted, later, id);
    hide Bases, FactsRecorded, Leaves, ChainOf, Resolve, SourceLayers, PairLayers, Rebased;
  }

  /** Everything that is left resolves to what it was published with. */
  lemma PrunedResolve(store: Store, published: map<SnapshotId, Content>, root: RootId, deleted: set<SnapshotId>, later: Store)
    requires Bases(store) && AllResolve(store, published) && Leaves(store, root, deleted, later)
    ensures Bases(later) && AllResolve(later, published)
  {
    hide *;
    FactsAreRecorded(store, published);
    LeavesBases(store, root, deleted, later);
    forall id | id in later.snapshots ensures id in published && ResolvesTo(later, id, published[id]) {
      RemainingIs(store, root, deleted, later, id);
      AllResolveAt(store, published, id);
      ResolvesAsBefore(store, root, deleted, later, id, published[id]);
    }
    AllResolveWhole(later, published);
  }

  lemma AllResolveWhole(store: Store, published: map<SnapshotId, Content>)
    requires Bases(store) && forall id :: id in store.snapshots ==> id in published && ResolvesTo(store, id, published[id])
    ensures AllResolve(store, published)
  {
  }

  /** What pruning leaves of a snapshot: itself, or itself without a base that is gone. */
  ghost predicate LeftOf(store: Store, later: Store) {
    forall id :: id in later.snapshots ==> id in store.snapshots && LeftAs(store, later, id)
  }

  ghost predicate LeftAs(store: Store, later: Store, id: SnapshotId)
    requires id in store.snapshots && id in later.snapshots
  {
    var s, now := store.snapshots[id], later.snapshots[id];
    && now.root == s.root && now.location == s.location
    && now.base == if s.base.Some? && s.base.value in store.snapshots && s.base.value !in later.snapshots then None else s.base
  }

  lemma PrunedIsLeft(store: Store, root: RootId, deleted: set<SnapshotId>, later: Store)
    requires Bases(store) && Leaves(store, root, deleted, later)
    ensures LeftOf(store, later)
  {
    hide *;
    forall id | id in later.snapshots ensures id in store.snapshots && LeftAs(store, later, id) {
      RemainingIs(store, root, deleted, later, id);
      RemainingAt(store, root, deleted, later, id);
      SameOrdinal(store, root, deleted, id);
      ChainStep(store, id);
      var s := store.snapshots[id];
      if s.base.Some? {
        RemainingIs(store, root, deleted, later, s.base.value);
        LosesIts(s, deleted);
      }
      if LosesBase(s, deleted) {
        OnlyTheRootLosesBases(store, root, deleted, later, id);
        AloneIs(s, Served(store, id).value);
      } else {
        KeepsIts(s, deleted);
      }
      IsLeftAs(store, later, id);
    }
    LeftWhole(store, later);
  }

  lemma LosesIts(s: Snapshot, deleted: set<SnapshotId>)
    requires s.base.Some?
    ensures LosesBase(s, deleted) <==> s.base.value in deleted
  {
  }

  lemma KeepsIts(s: Snapshot, deleted: set<SnapshotId>)
    requires !LosesBase(s, deleted)
    ensures s.base.Some? ==> s.base.value !in deleted
  {
  }

  lemma IsLeftAs(store: Store, later: Store, id: SnapshotId)
    requires id in store.snapshots && id in later.snapshots
    requires var s, now := store.snapshots[id], later.snapshots[id];
      && now.root == s.root && now.location == s.location
      && now.base == if s.base.Some? && s.base.value in store.snapshots && s.base.value !in later.snapshots then None else s.base
    ensures LeftAs(store, later, id)
  {
  }

  lemma LeftWhole(store: Store, later: Store)
    requires forall id :: id in later.snapshots ==> id in store.snapshots && LeftAs(store, later, id)
    ensures LeftOf(store, later)
  {
    hide LeftAs;
  }

  lemma HeadLeft(store: Store, later: Store, used: set<SnapshotId>, l: LocationId, heads: seq<SnapshotId>)
    requires HeadFollows(store, used, l, heads) && LeftOf(store, later) && later == store.(snapshots := later.snapshots)
    requires l in store.heads ==> store.heads[l].snapshot in later.snapshots
    ensures HeadFollows(later, used, l, heads)
  {
  }

  /** Every head is kept. */
  lemma HeadsAreLeft(sys: System, root: RootId, kept: set<SnapshotId>, l: LocationId)
    requires HeadsFollow(sys) && l in sys.store.heads
    ensures sys.store.heads[l].snapshot in sys.store.snapshots
    ensures sys.store.heads[l].snapshot !in Deleted(sys.store, root, kept + HeadsOf(sys.store, root))
  {
    assert HeadFollows(sys.store, sys.published.Keys, l, HistoryOf(sys, l));
    hide HistoryOf;
  }

  lemma PendingLeft(sys: System, now: System)
    requires AllPendingFollow(sys) && LeftOf(sys.store, now.store) && now == sys.(store := sys.store.(snapshots := now.store.snapshots))
    ensures AllPendingFollow(now)
  {
    hide HistoryOf;
    forall q | q in now.pending ensures PendingFollows(now, now.pending[q]) {
      assert PendingFollows(sys, sys.pending[q]);
      SameHistoryOf(sys, now, sys.pending[q].location);
    }
  }

  lemma SameHistoryOf(sys: System, now: System, l: LocationId)
    requires now.history == sys.history
    ensures HistoryOf(now, l) == HistoryOf(sys, l)
  {
  }

  lemma HeadsLeft(sys: System, now: System, root: RootId, kept: set<SnapshotId>)
    requires HeadsFollow(sys) && LeftOf(sys.store, now.store) && now == sys.(store := sys.store.(snapshots := now.store.snapshots))
    requires now.store.snapshots.Keys == sys.store.snapshots.Keys - Deleted(sys.store, root, kept + HeadsOf(sys.store, root))
    ensures HeadsFollow(now)
  {
    hide *;
    HeadsFollowDomains(sys);
    forall l | l in now.store.locations ensures HeadFollows(now.store, now.published.Keys, l, HistoryOf(now, l)) {
      HeadsFollowAt(sys, l);
      SameHistoryOf(sys, now, l);
      if l in sys.store.heads {
        HeadsAreLeft(sys, root, kept, l);
      }
      HeadLeft(sys.store, now.store, sys.published.Keys, l, HistoryOf(sys, l));
    }
    HeadsFollowWhole(now);
  }

  lemma PruneKeeps(sys: System, root: RootId, kept: set<SnapshotId>)
    requires Valid(sys)
    ensures Valid(Step(sys, Prune(root, kept)))
  {
    hide *;
    var now, keeping := Step(sys, Prune(root, kept)), kept + HeadsOf(sys.store, root);
    var deleted := Deleted(sys.store, root, keeping);
    PruneStep(sys, root, kept);
    if Pruned(sys.store, root, keeping).Ok? {
      PrunedKeepsTables(sys.store, root, keeping);
      if deleted == {} {
        assert now == sys;
      } else {
        ValidParts(sys);
        PrunedLeaves(sys.store, root, keeping);
        PrunedResolve(sys.store, sys.published, root, deleted, now.store);
        PrunedIsLeft(sys.store, root, deleted, now.store);
        HeadsLeft(sys, now, root, kept);
        PendingLeft(sys, now);
        SamePrimaries(sys.store, now.store);
        ValidWhole(now);
      }
    }
  }

  /**
   * A prune goes through exactly when it has nothing to delete or every snapshot of
   * the root that it keeps has a chain within the cap.
   */
  lemma PrunesExactlyReadable(sys: System, root: RootId, kept: set<SnapshotId>)
    requires Valid(sys)
    ensures Bases(sys.store)
    ensures Pruned(sys.store, root, kept).Ok? <==>
      || Deleted(sys.store, root, kept) == {}
      || forall id :: id in sys.store.snapshots && sys.store.snapshots[id].root == root && id in kept ==>
           |ChainOf(sys.store, id)| <= MAX_BASE_CHAIN_DEPTH + 1
  {
    hide *;
    ValidParts(sys);
    forall id | id in sys.store.snapshots
      ensures EffectiveSources(sys.store, id).Ok? <==> |ChainOf(sys.store, id)| <= MAX_BASE_CHAIN_DEPTH + 1
      ensures Served(sys.store, id).Ok? <==> |ChainOf(sys.store, id)| <= MAX_BASE_CHAIN_DEPTH + 1
    {
      ReadsByChain(sys.store, sys.published, id);
      ServedReads(sys.store, id);
    }
    PrunedOk(sys.store, root, kept);
  }

  lemma ServedReads(store: Store, id: SnapshotId)
    ensures Served(store, id).Ok? <==> EffectiveSources(store, id).Ok? && !EffectiveImplements(store, id).Failed?
  {
    hide EffectiveSources, EffectiveImplements;
  }

  lemma PrunedOk(store: Store, root: RootId, kept: set<SnapshotId>)
    requires forall id :: id in store.snapshots ==> (Served(store, id).Ok? <==> EffectiveSources(store, id).Ok?)
    ensures Pruned(store, root, kept).Ok? <==>
      || Deleted(store, root, kept) == {}
      || forall id :: id in store.snapshots && store.snapshots[id].root == root && id in kept ==> EffectiveSources(store, id).Ok?
  {
    hide Served, EffectiveSources, Rebased;
  }

  // ------------------------------------------------------- what runs promise

  /**
   * A step raises the version of a head by one exactly when it commits a
   * publication of that location, whose snapshot becomes the head and bases on the
   * one before; no other step touches a head, and a publication that fails
   * changes nothing in the store.
   */
  lemma HeadsMoveByCommits(sys: System, action: Action, l: LocationId)
    requires Valid(sys)
    ensures var now := Step(sys, action);
            var advances := action.Publish? && Commits(sys, action.publisher, action.id, action.content) && sys.pending[action.publisher].location == l;
            && (advances ==> l in now.store.heads && now.store.heads[l].snapshot == action.id && action.id in now.store.snapshots
                             && (l in sys.store.heads ==> now.store.heads[l].version == sys.store.heads[l].version + 1
                                                          && now.store.snapshots[action.id].base == Some(sys.store.heads[l].snapshot))
                             && (l !in sys.store.heads ==> now.store.heads[l].version == 1))
            && (!advances ==> (l in now.store.heads <==> l in sys.store.heads) && (l in now.store.heads ==> now.store.heads[l] == sys.store.heads[l]))
    ensures action.Publish? && !Commits(sys, action.publisher, action.id, action.content) ==> Step(sys, action).store == sys.store
  {
    hide *;
    ValidParts(sys);
    if action.Publish? {
      PublishStep(sys, action.publisher, action.id, action.content);
      if Commits(sys, action.publisher, action.id, action.content) {
        CommitsParts(sys, action.publisher, action.id, action.content);
        var p := sys.pending[action.publisher];
        NewSnapshotIs(sys.store, p.root, p.location, p.base.snapshot, action.content);
        LoadedHead(sys, action.publisher);
        AdvancedIs(sys.store, p.location, p.base.head, action.id);
      }
    } else {
      OthersKeepHeads(sys, action);
    }
  }

  lemma AdvancedIs(store: Store, location: LocationId, head: Option<Head>, id: SnapshotId)
    requires Unmoved(store, location, head)
    ensures Advanced(location, head, id) == Head(id, if location in store.heads then store.heads[location].version + 1 else 1)
  {
  }

  lemma OthersKeepHeads(sys: System, action: Action)
    requires !action.Publish?
    ensures Step(sys, action).store.heads == sys.store.heads
  {
    hide LoadBase, NewSnapshot, HistoricalBase;
  }

  /** A loaded head whose version is still current is the current head. */
  lemma LoadedHead(sys: System, publisher: Publisher)
    requires HeadsFollow(sys) && AllPendingFollow(sys) && publisher in sys.pending
    requires Unmoved(sys.store, sys.pending[publisher].location, sys.pending[publisher].base.head)
    ensures var p := sys.pending[publisher];
            p.location in sys.store.heads ==> p.base.head.Some? && p.base.snapshot == Some(sys.store.heads[p.location].snapshot)
  {
    var p := sys.pending[publisher];
    assert PendingFollows(sys, p);
    assert HeadFollows(sys.store, sys.published.Keys, p.location, HistoryOf(sys, p.location));
  }

  /**
   * Each superseded head is the base of its successor, as far as prunes left them,
   * and a head has as many predecessors as its version counts.
   */
  lemma SupersededIsBase(sys: System, actions: seq<Action>, l: LocationId)
    requires Valid(sys) && l in Run(sys, actions).store.heads
    ensures var now := Run(sys, actions);
            var heads := HistoryOf(now, l);
            && |heads| == now.store.heads[l].version && heads != [] && heads[|heads| - 1] == now.store.heads[l].snapshot
            && now.store.heads[l].snapshot in now.store.snapshots
            && forall i :: 0 < i < |heads| && heads[i] in now.store.snapshots ==>
                 now.store.snapshots[heads[i]].base == if heads[i - 1] in now.store.snapshots then Some(heads[i - 1]) else None
  {
    hide *;
    RunKeeps(sys, actions);
    ValidParts(Run(sys, actions));
    HeadsFollowDomains(Run(sys, actions));
    HeadsFollowAt(Run(sys, actions), l);
    HeadSuccession(Run(sys, actions).store, Run(sys, actions).published.Keys, l, HistoryOf(Run(sys, actions), l));
  }

  lemma HeadSuccession(store: Store, used: set<SnapshotId>, l: LocationId, heads: seq<SnapshotId>)
    requires HeadFollows(store, used, l, heads) && l in store.heads
    ensures |heads| == store.heads[l].version && heads != [] && heads[|heads| - 1] == store.heads[l].snapshot
    ensures store.heads[l].snapshot in store.snapshots
    ensures forall i :: 0 < i < |heads| && heads[i] in store.snapshots ==>
      store.snapshots[heads[i]].base == if heads[i - 1] in store.snapshots then Some(heads[i - 1]) else None
  {
  }

  /**
   * After any run, reading a snapshot's base chain gives back the sources and
   * the implements facts it was published with, unless the chain is longer than
   * the cap, which is then an error.
   */
  lemma ReadsWhatWasPublished(sys: System, actions: seq<Action>, id: SnapshotId)
    requires Valid(sys) && id in Run(sys, actions).store.snapshots
    ensures var now := Run(sys, actions);
            && Bases(now.store) && id in now.published
            && EffectiveSources(now.store, id) ==
                 (if |ChainOf(now.store, id)| <= MAX_BASE_CHAIN_DEPTH + 1 then Ok(now.published[id].sources) else Err)
            && EffectiveImplements(now.store, id) ==
                 (if |ChainOf(now.store, id)| > MAX_BASE_CHAIN_DEPTH + 1 then Failed
                  else if now.store.snapshots[id].facts.None? then NoFacts else Read(now.published[id].pairs))
  {
    hide *;
    RunKeeps(sys, actions);
    ValidParts(Run(sys, actions));
    ReadsByChain(Run(sys, actions).store, Run(sys, actions).published, id);
  }

  lemma ReadsByChain(store: Store, published: map<SnapshotId, Content>, id: SnapshotId)
    requires Bases(store) && AllResolve(store, published) && id in store.snapshots
    ensures id in published
    ensures EffectiveSources(store, id) == if |ChainOf(store, id)| <= MAX_BASE_CHAIN_DEPTH + 1 then Ok(published[id].sources) else Err
    ensures EffectiveImplements(store, id) ==
      if |ChainOf(store, id)| > MAX_BASE_CHAIN_DEPTH + 1 then Failed
      else if store.snapshots[id].facts.None? then NoFacts else Read(published[id].pairs)
  {
    CheckedChainIsWhole(store, id);
    AllResolveAt(store, published, id);
    hide Bases, AllResolve, CheckedChain, ChainOf, Resolve, SourceLayers, PairLayers;
  }

  /**
   * Publishing again what the base was published with writes no rows, as carrying
   * the base forward does.
   */
  lemma UnchangedWritesNoRows(sys: System, root: RootId, location: LocationId, base: SnapshotId)
    requires Valid(sys) && base in sys.store.snapshots && base in sys.published
    requires NewSnapshot(sys.store, root, location, Some(base), sys.published[base]).Ok?
    ensures var s := NewSnapshot(sys.store, root, location, Some(base), sys.published[base]).value;
            s.sources == map[] && s.implements == map[] && s.base == Some(base)
  {
    hide *;
    ValidParts(sys);
    var content := sys.published[base];
    NewSnapshotIs(sys.store, root, location, Some(base), content);
    SourcesRead(sys.store, sys.published, Some(base));
    ImplementsRead(sys.store, sys.published, Some(base));
    AllResolveAt(sys.store, sys.published, base);
    BaseChainIs(sys.store, base);
    HoldsTable(Resolve(PairLayers(sys.store, ChainOf(sys.store, base))));
    SameRows(content.sources);
    SameRows(Table(content.pairs));
  }

  lemma SameRows<K, V>(m: map<K, V>)
    ensures Deltas.Rows(m, m) == map[]
  {
  }

  /** Whatever a step does, a snapshot that is still there reads as before. */
  lemma StepReadsAlike(sys: System, action: Action, id: SnapshotId)
    requires Valid(sys) && id in sys.store.snapshots && id in Step(sys, action).store.snapshots
    ensures EffectiveSources(Step(sys, action).store, id) == EffectiveSources(sys.store, id)
    ensures EffectiveImplements(Step(sys, action).store, id) == EffectiveImplements(sys.store, id)
  {
    hide *;
    var now := Step(sys, action);
    ValidParts(sys);
    if action.Prune? {
      PruneStep(sys, action.root, action.kept);
      FactsAreRecorded(sys.store, sys.published);
      var keeping := action.kept + HeadsOf(sys.store, action.root);
      if Pruned(sys.store, action.root, keeping).Ok? {
        PruningKeepsReads(sys.store, action.root, keeping, id);
      }
    } else {
      StepKeeps(sys, action);
      ValidParts(now);
      forall x | x in sys.store.snapshots ensures x in now.store.snapshots && now.store.snapshots[x] == sys.store.snapshots[x] {
        AllResolveAt(sys.store, sys.published, x);
        StepForgetsNothing(sys, action, x);
      }
      ReadsInLarger(sys.store, now.store, id);
    }
  }

  lemma ReadsInLarger(store: Store, later: Store, id: SnapshotId)
    requires Bases(store) && Bases(later) && id in store.snapshots
    requires forall x :: x in store.snapshots ==> x in later.snapshots && later.snapshots[x] == store.snapshots[x]
    ensures EffectiveSources(later, id) == EffectiveSources(store, id) && EffectiveImplements(later, id) == EffectiveImplements(store, id)
  {
    ChainStays(store, later, id);
    CheckedChainIsWhole(store, id);
    CheckedChainIsWhole(later, id);
    hide Bases, ChainOf, CheckedChain, Resolve, SourceLayers, PairLayers;
  }

  lemma {:induction false} RunReadsAlike(sys: System, actions: seq<Action>, id: SnapshotId)
    requires Valid(sys) && id in sys.store.snapshots && id in Run(sys, actions).store.snapshots
    ensures EffectiveSources(Run(sys, actions).store, id) == EffectiveSources(sys.store, id)
    ensures EffectiveImplements(Run(sys, actions).store, id) == EffectiveImplements(sys.store, id)
  {
    hide Valid, Step, EffectiveSources, EffectiveImplements;
    if actions != [] {
      var fewer, last := actions[..|actions| - 1], actions[|actions| - 1];
      PublishedBefore(sys, id);
      RunForgetsNothing(sys, fewer, id);
      StepForgetsNothing(Run(sys, fewer), last, id);
      RunReadsAlike(sys, fewer, id);
      RunKeeps(sys, fewer);
      StepReadsAlike(Run(sys, fewer), last, id);
    }
  }

  lemma PublishedBefore(sys: System, id: SnapshotId)
    requires Valid(sys) && id in sys.store.snapshots
    ensures id in sys.published
  {
    hide *;
    ValidParts(sys);
    AllResolveAt(sys.store, sys.published, id);
  }

  /**
   * In a system that starts with nothing, whatever any publisher and any prune do
   * later, a snapshot that is still there reads as it did when it was published, and
   * only prunes take snapshots away.
   */
  lemma ReadsNeverChange(actions: seq<Action>, more: seq<Action>, id: SnapshotId)
    requires id in Run(EMPTY, actions).store.snapshots
    ensures var before, now := Run(EMPTY, actions).store, Run(Run(EMPTY, actions), more).store;
            id in now.snapshots ==>
              EffectiveSources(now, id) == EffectiveSources(before, id) && EffectiveImplements(now, id) == EffectiveImplements(before, id)
    ensures (forall i :: 0 <= i < |more| ==> !more[i].Prune?) ==> id in Run(Run(EMPTY, actions), more).store.snapshots
  {
    hide *;
    EmptyIsValid();
    RunKeeps(EMPTY, actions);
    if id in Run(Run(EMPTY, actions), more).store.snapshots {
      RunReadsAlike(Run(EMPTY, actions), more, id);
    }
    if forall i :: 0 <= i < |more| ==> !more[i].Prune? {
      PublishedBefore(Run(EMPTY, actions), id);
      OnlyPrunesDelete(Run(EMPTY, actions), more, id);
    }
  }

  lemma {:induction false} OnlyPrunesDelete(sys: System, actions: seq<Action>, id: SnapshotId)
    requires id in sys.store.snapshots && id in sys.published && forall i :: 0 <= i < |actions| ==> !actions[i].Prune?
    ensures id in Run(sys, actions).store.snapshots
  {
    hide Step;
    if actions != [] {
      var fewer := actions[..|actions| - 1];
      OnlyPrunesDelete(sys, fewer, id);
      RunForgetsNothing(sys, fewer, id);
      StepForgetsNothing(Run(sys, fewer), actions[|actions| - 1], id);
    }
  }

  // ------------------------------------------------ what a run starts from

  function LastOf(heads: seq<SnapshotId>): Option<SnapshotId> {
    if heads == [] then None else Some(heads[|heads| - 1])
  }

  /**
   * A publisher starts from the last snapshot published as its location's head, or
   * where there was none from the last of the root's primary location.
   */
  lemma BeginLoads(sys: System, publisher: Publisher, l: LocationId)
    requires Valid(sys) && l in sys.store.locations
    ensures var now, root := Step(sys, Begin(publisher, l)), sys.store.locations[l];
            && publisher in now.pending && root in sys.store.primaries
            && var p := now.pending[publisher];
            && p.root == root && p.location == l
            && p.base.head == (if l in sys.store.heads then Some(sys.store.heads[l]) else None)
            && p.base.snapshot == LastOf(HistoryOf(sys, if HistoryOf(sys, l) != [] then l else sys.store.primaries[root]))
  {
    ValidParts(sys);
    BaseLoads(sys, l);
    var root := sys.store.locations[l];
    PrimaryIsRegistered(sys.store, root, l);
    var primary := sys.store.primaries[root];
    HeadsFollowAt(sys, l);
    HeadsFollowAt(sys, primary);
    LastIsHead(sys.store, sys.published.Keys, l, HistoryOf(sys, l));
    LastIsHead(sys.store, sys.published.Keys, primary, HistoryOf(sys, primary));
    hide Valid, Bases, AllResolve, AllPendingFollow, HeadsFollow, HeadFollows, HistoryOf, Primaries;
  }

  lemma PrimaryIsRegistered(store: Store, root: RootId, l: LocationId)
    requires Primaries(store) && l in store.locations && store.locations[l] == root
    ensures root in store.primaries && store.primaries[root] in store.locations
  {
  }

  lemma LastIsHead(store: Store, used: set<SnapshotId>, l: LocationId, heads: seq<SnapshotId>)
    requires HeadFollows(store, used, l, heads)
    ensures LastOf(heads) == if l in store.heads then Some(store.heads[l].snapshot) else None
  {
  }

  /** The primary of a root is the location that was registered for it first, whatever happens later. */
  lemma PrimaryIsFirst(sys: System, action: Action, root: RootId)
    ensures root in sys.store.primaries ==>
      root in Step(sys, action).store.primaries && Step(sys, action).store.primaries[root] == sys.store.primaries[root]
    ensures action.Register? && action.root == root && root !in sys.store.primaries && action.location !in sys.store.locations ==>
      root in Step(sys, action).store.primaries && Step(sys, action).store.primaries[root] == action.location
  {
    hide NewSnapshot, LoadBase, HistoricalBase, Unmoved, Readable, Rebased, Deleted;
  }

  /** A snapshot that joins the store is its publisher's, of its root and location, on its base or the one it asked for. */
  lemma NewSnapshotIsPublishers(sys: System, action: Action, id: SnapshotId)
    requires id !in sys.store.snapshots && id in Step(sys, action).store.snapshots
    ensures (action.Publish? || action.PublishHistorical?) && action.id == id && action.publisher in sys.pending
    ensures var p, s := sys.pending[action.publisher], Step(sys, action).store.snapshots[id];
            && s.root == p.root && s.location == p.location
            && s.base == (if action.PublishHistorical? && action.explicitBase.Some? then action.explicitBase else p.base.snapshot)
  {
    hide *;
    match action
    case Publish(publisher, newId, content) =>
      PublishStep(sys, publisher, newId, content);
      if Commits(sys, publisher, newId, content) {
        CommitsParts(sys, publisher, newId, content);
        var p := sys.pending[publisher];
        NewSnapshotIs(sys.store, p.root, p.location, p.base.snapshot, content);
      }
    case PublishHistorical(publisher, newId, explicitBase, content) =>
      HistoricalStep(sys, publisher, newId, explicitBase, content);
      if publisher in sys.pending && HistoricalBase(sys.store, sys.pending[publisher].root, sys.pending[publisher].base, explicitBase).Ok? {
        var p := sys.pending[publisher];
        var base := HistoricalBase(sys.store, p.root, p.base, explicitBase).value.snapshot;
        HistoricalBaseAsked(sys.store, p.root, p.base, explicitBase);
        if NewSnapshot(sys.store, p.root, p.location, base, content).Ok? {
          NewSnapshotIs(sys.store, p.root, p.location, base, content);
        }
      }
    case Prune(root, kept) => PruneOnlyDeletes(sys, root, kept);
    case _ => SnapshotsStay(sys, action);
  }

  lemma HistoricalBaseAsked(store: Store, root: RootId, base: Base, explicitBase: Option<SnapshotId>)
    requires HistoricalBase(store, root, base, explicitBase).Ok?
    ensures HistoricalBase(store, root, base, explicitBase).value.snapshot == if explicitBase.Some? then explicitBase else base.snapshot
  {
  }

  /** How many heads the location had when the publisher loaded its base. */
  function Loaded(p: Pending): nat {
    if p.base.head.Some? then p.base.head.value.version else 0
  }

  lemma UnmovedExactly(sys: System, p: Pending)
    requires HeadsFollow(sys) && PendingFollows(sys, p)
    ensures Unmoved(sys.store, p.location, p.base.head) <==> |HistoryOf(sys, p.location)| == Loaded(p)
  {
    assert HeadFollows(sys.store, sys.published.Keys, p.location, HistoryOf(sys, p.location));
    hide HistoryOf;
  }

  lemma NewSnapshotExactly(store: Store, published: map<SnapshotId, Content>, root: RootId, location: LocationId, base: Option<SnapshotId>, content: Content)
    requires Bases(store) && AllResolve(store, published)
    ensures NewSnapshot(store, root, location, base, content).Ok? <==>
      (base.Some? ==> base.value in store.snapshots && |ChainOf(store, base.value)| <= MAX_BASE_CHAIN_DEPTH + 1)
  {
    if base.Some? && base.value in store.snapshots {
      ReadsByChain(store, published, base.value);
    }
    hide AllResolve, Bases, ChainOf, Resolve, SourceLayers, PairLayers, Deltas.Rows, Table, NextOrdinal, OneRoot;
  }

  /**
   * A publication commits exactly when its id is new, its location had no other head
   * since its base was loaded, and the base is still there and can be read.
   */
  lemma CommitsExactly(sys: System, publisher: Publisher, id: SnapshotId, content: Content)
    requires Valid(sys) && publisher in sys.pending
    ensures Bases(sys.store)
    ensures var p := sys.pending[publisher];
            Commits(sys, publisher, id, content) <==>
              && id !in sys.published && |HistoryOf(sys, p.location)| == Loaded(p)
              && (p.base.snapshot.Some? ==> p.base.snapshot.value in sys.store.snapshots
                                            && |ChainOf(sys.store, p.base.snapshot.value)| <= MAX_BASE_CHAIN_DEPTH + 1)
  {
    ValidParts(sys);
    PendingAt(sys, publisher);
    var p := sys.pending[publisher];
    UnmovedExactly(sys, p);
    NewSnapshotExactly(sys.store, sys.published, p.root, p.location, p.base.snapshot, content);
    if id in sys.store.snapshots {
      PublishedBefore(sys, id);
    }
    hide Valid, Bases, AllResolve, AllPendingFollow, HeadsFollow, Primaries, PendingFollows, NewSnapshot, Unmoved, ChainOf, HistoryOf, Loaded;
  }

  lemma HistoricalJoins(sys: System, publisher: Publisher, id: SnapshotId, explicitBase: Option<SnapshotId>, content: Content)
    requires publisher in sys.pending && id !in sys.published && id !in sys.store.snapshots
    ensures var p := sys.pending[publisher];
            var asked := HistoricalBase(sys.store, p.root, p.base, explicitBase);
            id in Step(sys, PublishHistorical(publisher, id, explicitBase, content)).published <==>
              asked.Ok? && NewSnapshot(sys.store, p.root, p.location, asked.value.snapshot, content).Ok?
  {
    hide NewSnapshot, HistoricalBase;
  }

  lemma HistoricalBaseExactly(store: Store, root: RootId, base: Base, explicitBase: Option<SnapshotId>)
    ensures HistoricalBase(store, root, base, explicitBase).Ok? <==>
      explicitBase.Some? ==> explicitBase.value in store.snapshots && store.snapshots[explicitBase.value].root == root
  {
  }

  lemma LoadedBaseRooted(sys: System, p: Pending)
    requires PendingFollows(sys, p)
    ensures p.base.snapshot.Some? && p.base.snapshot.value in sys.store.snapshots ==> sys.store.snapshots[p.base.snapshot.value].root == p.root
  {
    hide HistoryOf;
  }

  /**
   * A historical publication, which leaves heads alone, goes through exactly when its id
   * is new and the base it asks for, or else the one loaded, is there, is of its root and
   * can be read. How far the head has moved does not matter.
   */
  lemma HistoricalCommitsExactly(sys: System, publisher: Publisher, id: SnapshotId, explicitBase: Option<SnapshotId>, content: Content)
    requires Valid(sys) && publisher in sys.pending && id !in sys.published
    ensures Bases(sys.store)
    ensures var p := sys.pending[publisher];
            var base := if explicitBase.Some? then explicitBase else p.base.snapshot;
            id in Step(sys, PublishHistorical(publisher, id, explicitBase, content)).published <==>
              (base.Some? ==> base.value in sys.store.snapshots && sys.store.snapshots[base.value].root == p.root
                              && |ChainOf(sys.store, base.value)| <= MAX_BASE_CHAIN_DEPTH + 1)
  {
    hide *;
    ValidParts(sys);
    PendingAt(sys, publisher);
    var p := sys.pending[publisher];
    LoadedBaseRooted(sys, p);
    if id in sys.store.snapshots {
      PublishedBefore(sys, id);
    }
    HistoricalJoins(sys, publisher, id, explicitBase, content);
    HistoricalBaseExactly(sys.store, p.root, p.base, explicitBase);
    if HistoricalBase(sys.store, p.root, p.base, explicitBase).Ok? {
      HistoricalBaseAsked(sys.store, p.root, p.base, explicitBase);
      NewSnapshotExactly(sys.store, sys.published, p.root, p.location, HistoricalBase(sys.store, p.root, p.base, explicitBase).value.snapshot, content);
    }
  }
}
