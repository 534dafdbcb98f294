/**
 * Publishing snapshots over a shared store (indexer/modules_locations.go:30-96,
 * indexer/publication.go, indexer/implements_publish.go:18-61): a publisher loads
 * its base, writes the rows that differ from it, and advances its location's
 * head with a compare-and-swap, in one transaction.
 */
module Publication {
  import opened Common
  import opened Deltas

  type RootId = string
  type LocationId = string
  type SnapshotId = string
  type Path = string
  type Revision = string

  /** An implements fact: the handles of a type and of an interface it satisfies. */
  datatype Pair = Pair(typeHandle: int, interfaceHandle: int)

  datatype Holds = Holds

  /** A snapshot without facts was published before implements facts were snapshot-level. */
  datatype Snapshot = Snapshot(
    root: RootId,
    location: LocationId,
    base: Option<SnapshotId>,
    ordinal: nat,
    sources: map<Path, Change<Revision>>,
    implements: map<Pair, Change<Holds>>,
    facts: Option<nat>
  )

  datatype Head = Head(snapshot: SnapshotId, version: nat)

  datatype Store = Store(
    locations: map<LocationId, RootId>,
    primaries: map<RootId, LocationId>,
    snapshots: map<SnapshotId, Snapshot>,
    heads: map<LocationId, Head>
  )

  /** What a publication starts from: the location's head, when it has one, and the snapshot it bases on. */
  datatype Base = Base(head: Option<Head>, snapshot: Option<SnapshotId>)

  /** What a snapshot is published with. */
  datatype Content = Content(sources: map<Path, Revision>, pairs: set<Pair>)

  const MAX_BASE_CHAIN_DEPTH := 100000

  // --------------------------------------------------------------- reading

  /** A snapshot and its bases, newest first, following at most cap links. */
  function Chain(store: Store, id: SnapshotId, cap: nat): Result<seq<SnapshotId>>
    decreases cap
  {
    if id !in store.snapshots then Err
    else if store.snapshots[id].base.None? then Ok([id])
    else if cap == 0 then Err
    else
      var rest := Chain(store, store.snapshots[id].base.value, cap - 1);
      if rest.Err? then Err else Ok([id] + rest.value)
  }

  predicate OneRoot(store: Store, chain: seq<SnapshotId>) {
    forall i, j :: 0 <= i < |chain| && 0 <= j < |chain| && chain[i] in store.snapshots && chain[j] in store.snapshots ==>
      store.snapshots[chain[i]].root == store.snapshots[chain[j]].root
  }

  function CheckedChain(store: Store, id: SnapshotId): Result<seq<SnapshotId>> {
    var chain := Chain(store, id, MAX_BASE_CHAIN_DEPTH);
    if chain.Ok? && OneRoot(store, chain.value) then chain else Err
  }

  function SourceLayers(store: Store, chain: seq<SnapshotId>): seq<map<Path, Change<Revision>>> {
    seq(|chain|, i requires 0 <= i < |chain| => if chain[i] in store.snapshots then store.snapshots[chain[i]].sources else map[])
  }

  function PairLayers(store: Store, chain: seq<SnapshotId>): seq<map<Pair, Change<Holds>>> {
    seq(|chain|, i requires 0 <= i < |chain| => if chain[i] in store.snapshots then store.snapshots[chain[i]].implements else map[])
  }

  function EffectiveSources(store: Store, id: SnapshotId): Result<map<Path, Revision>> {
    var chain := CheckedChain(store, id);
    if chain.Err? then Err else Ok(Resolve(SourceLayers(store, chain.value)))
  }

  datatype Facts = Read(pairs: set<Pair>) | NoFacts | Failed

  /** The implements facts of a snapshot; an error where its chain resolves another count than it records. */
  function EffectiveImplements(store: Store, id: SnapshotId): Facts {
    var chain := CheckedChain(store, id);
    if chain.Err? || id !in store.snapshots then Failed
    else if store.snapshots[id].facts.None? then NoFacts
    else
      var pairs := Resolve(PairLayers(store, chain.value)).Keys;
      if |pairs| == store.snapshots[id].facts.value then Read(pairs) else Failed
  }

  // ------------------------------------------------------------ publishing

  function LoadBase(store: Store, root: RootId, location: LocationId): Result<Base> {
    var head := if location in store.heads then Some(store.heads[location]) else None;
    if head.None? && root !in store.primaries then Err
    else
      var base :=
        if head.Some? then Some(head.value.snapshot)
        else if store.primaries[root] != location && store.primaries[root] in store.heads then Some(store.heads[store.primaries[root]].snapshot)
        else None;
      if base.None? then Ok(Base(head, None))
      else if base.value !in store.snapshots || store.snapshots[base.value].root != root then Err
      else Ok(Base(head, base))
  }

  function BaseSources(store: Store, base: Option<SnapshotId>): Result<map<Path, Revision>> {
    if base.None? then Ok(map[]) else EffectiveSources(store, base.value)
  }

  /** None without a base, or for a base that predates snapshot-level facts. */
  function BaseImplements(store: Store, base: Option<SnapshotId>): Result<set<Pair>> {
    if base.None? then Ok({})
    else match EffectiveImplements(store, base.value)
      case Read(pairs) => Ok(pairs)
      case NoFacts => Ok({})
      case Failed => Err
  }

  function Table(pairs: set<Pair>): map<Pair, Holds> {
    map p | p in pairs :: Holds
  }

  /** The head still is as it was loaded: absent, or at the same version. */
  predicate Unmoved(store: Store, location: LocationId, head: Option<Head>) {
    if head.None? then location !in store.heads
    else location in store.heads && store.heads[location].version == head.value.version
  }

  function Advanced(location: LocationId, head: Option<Head>, id: SnapshotId): Head {
    Head(id, if head.None? then 1 else head.value.version + 1)
  }

  /** One more than the largest ordinal, or 1 when there is none. */
  ghost function NextOrdinal(snapshots: map<SnapshotId, Snapshot>): (next: nat)
    ensures IsNextOrdinal(snapshots, next)
  {
    if snapshots == map[] then 1 else
      var id :| id in snapshots;
      var fewer, next := snapshots - {id}, snapshots[id].ordinal + 1;
      assert forall other :: other in snapshots <==> other == id || other in fewer;
      assert forall other :: other in fewer ==> fewer[other] == snapshots[other];
      if NextOrdinal(fewer) > next then NextOrdinal(fewer) else next
  }

  ghost predicate IsNextOrdinal(snapshots: map<SnapshotId, Snapshot>, next: nat) {
    && (forall id :: id in snapshots ==> snapshots[id].ordinal < next)
    && if snapshots == map[] then next == 1 else exists id :: id in snapshots && snapshots[id].ordinal + 1 == next
  }

  /** The row of a new snapshot, where its base can be read. */
  ghost function NewSnapshot(store: Store, root: RootId, location: LocationId, base: Option<SnapshotId>, content: Content): Result<Snapshot> {
    var previous, before := BaseSources(store, base), BaseImplements(store, base);
    if previous.Err? || before.Err? then Err
    else Ok(Snapshot(root, location, base, NextOrdinal(store.snapshots), Deltas.Rows(previous.value, content.sources),
                     Deltas.Rows(Table(before.value), Table(content.pairs)), Some(|content.pairs|)))
  }

  /** The store once a publication commits; a failure rolls the transaction back. */
  ghost function Committed(store: Store, root: RootId, location: LocationId, base: Base, id: SnapshotId, content: Content, preserveHead: bool): Result<Store> {
    var snapshot := NewSnapshot(store, root, location, base.snapshot, content);
    if id in store.snapshots || snapshot.Err? then Err
    else if preserveHead then Ok(store.(snapshots := store.snapshots[id := snapshot.value]))
    else if !Unmoved(store, location, base.head) then Err
    else Ok(store.(snapshots := store.snapshots[id := snapshot.value], heads := store.heads[location := Advanced(location, base.head, id)]))
  }

  /** A fact as the extraction has it: the ids of a type and of an interface it satisfies. */
  datatype Fact = Fact(typeId: string, interfaceId: string)

  /** The pairs of handles of the facts; a fact whose type or interface has no handle is an error. */
  method FactPairs(facts: seq<Fact>, handles: map<string, int>) returns (r: Result<set<Pair>>)
    ensures r.Ok? <==> forall fact :: fact in facts ==> fact.typeId in handles && fact.interfaceId in handles
    ensures r.Ok? ==> forall p :: p in r.value <==>
      exists fact :: fact in facts && p == Pair(handles[fact.typeId], handles[fact.interfaceId])
  {
    var pairs := {};
    for i := 0 to |facts|
      invariant forall fact :: fact in facts[..i] ==> fact.typeId in handles && fact.interfaceId in handles
      invariant forall p :: p in pairs <==>
        exists fact :: fact in facts[..i] && p == Pair(handles[fact.typeId], handles[fact.interfaceId])
    {
      var fact := facts[i];
      assert facts[..i + 1] == facts[..i] + [fact];
      if fact.typeId !in handles || fact.interfaceId !in handles {
        assert fact in facts;
        return Err;
      }
      pairs := pairs + {Pair(handles[fact.typeId], handles[fact.interfaceId])};
    }
    assert facts[..|facts|] == facts;
    r := Ok(pairs);
  }

  class Database {
    var locations: map<LocationId, RootId>
    var primaries: map<RootId, LocationId>
    var snapshots: map<SnapshotId, Snapshot>
    var heads: map<LocationId, Head>

    function Rows(): Store
      reads this
    {
      Store(locations, primaries, snapshots, heads)
    }

    constructor ()
      ensures Rows() == Store(map[], map[], map[], map[])
    {
      locations, primaries, snapshots, heads := map[], map[], map[], map[];
    }

    /** The location's own head is the base, else the primary location's head, else there is none. */
    method LoadModuleBase(root: RootId, location: LocationId) returns (r: Result<Base>)
      ensures r == LoadBase(Rows(), root, location)
    {
      var head: Option<Head> := None;
      var base: Option<SnapshotId> := None;
      if location in heads {
        head := Some(heads[location]);
        base := Some(heads[location].snapshot);
      } else {
        if root !in primaries {
          return Err;
        }
        var primary := primaries[root];
        if primary != location && primary in heads {
          base := Some(heads[primary].snapshot);
        }
      }
      if base.None? {
        return Ok(Base(head, None));
      }
      if base.value !in snapshots || snapshots[base.value].root != root {
        return Err;
      }
      r := Ok(Base(head, base));
    }

    /** Points the location's head at the snapshot, unless the head moved since it was loaded. */
    method AdvanceHead(location: LocationId, head: Option<Head>, id: SnapshotId) returns (r: Result<nat>)
      modifies this`heads
      ensures r.Ok? <==> Unmoved(old(Rows()), location, head)
      ensures r.Ok? ==> heads == old(heads)[location := Advanced(location, head, id)] && r.value == heads[location].version
      ensures r.Err? ==> heads == old(heads)
    {
      if head.None? {
        if location in heads {
          return Err;
        }
        heads := heads[location := Head(id, 1)];
        return Ok(1);
      }
      var version := head.value.version + 1;
      if location !in heads || heads[location].version != head.value.version {
        return Err;
      }
      heads := heads[location := Head(id, version)];
      r := Ok(version);
    }

    method NextSnapshotOrdinal() returns (next: nat)
      ensures next == NextOrdinal(snapshots)
    {
      next := 1;
      var ids := snapshots.Keys;
      while ids != {}
        invariant ids <= snapshots.Keys
        invariant forall id :: id in snapshots.Keys - ids ==> snapshots[id].ordinal < next
        invariant if ids == snapshots.Keys then next == 1 else exists id :: id in snapshots && snapshots[id].ordinal + 1 == next
        decreases ids
      {
        var id :| id in ids;
        if ids == snapshots.Keys || snapshots[id].ordinal >= next {
          next := snapshots[id].ordinal + 1;
        }
        ids := ids - {id};
      }
    }

    method CreateSnapshot(root: RootId, location: LocationId, base: Option<SnapshotId>, id: SnapshotId, content: Content) returns (ok: bool)
      modifies this`snapshots
      ensures ok <==> id !in old(snapshots) && NewSnapshot(old(Rows()), root, location, base, content).Ok?
      ensures ok ==> snapshots == old(snapshots)[id := NewSnapshot(old(Rows()), root, location, base, content).value]
      ensures !ok ==> snapshots == old(snapshots)
    {
      var previous, before := BaseSources(Rows(), base), BaseImplements(Rows(), base);
      if id in snapshots || previous.Err? || before.Err? {
        return false;
      }
      var sources := CreateDeltas(previous.value, content.sources);
      var implements := CreateDeltas(Table(before.value), Table(content.pairs));
      var ordinal := NextSnapshotOrdinal();
      snapshots := snapshots[id := Snapshot(root, location, base, ordinal, sources, implements, Some(|content.pairs|))];
      ok := true;
    }

    /** One publication, in one transaction. */
    method Publish(root: RootId, location: LocationId, base: Base, id: SnapshotId, content: Content, preserveHead: bool) returns (ok: bool)
      modifies this`snapshots, this`heads
      ensures ok <==> Committed(old(Rows()), root, location, base, id, content, preserveHead).Ok?
      ensures Rows() == if ok then Committed(old(Rows()), root, location, base, id, content, preserveHead).value else old(Rows())
    {
      var before := snapshots;
      ok := CreateSnapshot(root, location, base.snapshot, id, content);
      if !ok || preserveHead {
        return;
      }
      var version := AdvanceHead(location, base.head, id);
      if version.Err? {
        snapshots := before;
        return false;
      }
    }
  }
}
