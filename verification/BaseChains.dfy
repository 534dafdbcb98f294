/**
 * Chains of base snapshots (storage/effective_sources.go:19-74): what a store in
 * which every base is an older snapshot of the same root makes of them.
 */
module BaseChains {
  import opened Common
  import opened Deltas
  import opened Publication

  /** The snapshot's base exists, is of the same root, and is older. */
  ghost predicate Based(store: Store, id: SnapshotId)
    requires id in store.snapshots
  {
    var s := store.snapshots[id];
    s.base.Some? ==> s.base.value in store.snapshots && store.snapshots[s.base.value].root == s.root
                     && store.snapshots[s.base.value].ordinal < s.ordinal
  }

  ghost predicate Bases(store: Store) {
    forall id :: id in store.snapshots ==> Based(store, id)
  }

  ghost function ChainOf(store: Store, id: SnapshotId): (chain: seq<SnapshotId>)
    requires Bases(store) && id in store.snapshots
    ensures |chain| >= 1
    decreases store.snapshots[id].ordinal
  {
    [id] + if store.snapshots[id].base.None? then [] else ChainOf(store, store.snapshots[id].base.value)
  }

  lemma {:induction false} ChainOfIs(store: Store, id: SnapshotId)
    requires Bases(store) && id in store.snapshots
    ensures forall i :: 0 <= i < |ChainOf(store, id)| ==>
      ChainOf(store, id)[i] in store.snapshots && store.snapshots[ChainOf(store, id)[i]].root == store.snapshots[id].root
    decreases store.snapshots[id].ordinal
  {
    if store.snapshots[id].base.Some? {
      ChainOfIs(store, store.snapshots[id].base.value);
    }
  }

  /** The walk follows the whole chain unless it has more links than the cap. */
  lemma {:induction false} ChainIsWhole(store: Store, id: SnapshotId, cap: nat)
    requires Bases(store) && id in store.snapshots
    ensures Chain(store, id, cap) == if |ChainOf(store, id)| <= cap + 1 then Ok(ChainOf(store, id)) else Err
    decreases cap
  {
    hide Bases;
    ChainStep(store, id);
    if store.snapshots[id].base.Some? && cap > 0 {
      ChainIsWhole(store, store.snapshots[id].base.value, cap - 1);
    }
  }

  lemma ChainStep(store: Store, id: SnapshotId)
    requires Bases(store) && id in store.snapshots
    ensures store.snapshots[id].base.None? ==> ChainOf(store, id) == [id]
    ensures store.snapshots[id].base.Some? ==>
      var b := store.snapshots[id].base.value;
      b in store.snapshots && store.snapshots[b].ordinal < store.snapshots[id].ordinal && store.snapshots[b].root == store.snapshots[id].root
      && ChainOf(store, id) == [id] + ChainOf(store, b)
  {
  }

  lemma CheckedChainIsWhole(store: Store, id: SnapshotId)
    requires Bases(store) && id in store.snapshots
    ensures CheckedChain(store, id) == if |ChainOf(store, id)| <= MAX_BASE_CHAIN_DEPTH + 1 then Ok(ChainOf(store, id)) else Err
  {
    ChainIsWhole(store, id, MAX_BASE_CHAIN_DEPTH);
    ChainOfIs(store, id);
    hide ChainOf, Chain, Bases;
  }

  /** More snapshots leave the chains of those there unchanged. */
  lemma {:induction false} ChainStays(store: Store, later: Store, id: SnapshotId)
    requires Bases(store) && Bases(later) && id in store.snapshots
    requires forall x :: x in store.snapshots ==> x in later.snapshots && later.snapshots[x] == store.snapshots[x]
    ensures ChainOf(later, id) == ChainOf(store, id)
    ensures SourceLayers(later, ChainOf(later, id)) == SourceLayers(store, ChainOf(store, id))
    ensures PairLayers(later, ChainOf(later, id)) == PairLayers(store, ChainOf(store, id))
    decreases store.snapshots[id].ordinal
  {
    if store.snapshots[id].base.Some? {
      ChainStays(store, later, store.snapshots[id].base.value);
    }
    ChainOfIs(store, id);
    hide ChainOf, Bases;
  }

  /** The layers of a chain are those of its base under the rows of the snapshot itself. */
  lemma LayersStep(store: Store, id: SnapshotId)
    requires Bases(store) && id in store.snapshots
    ensures var s := store.snapshots[id];
            if s.base.None? then
              SourceLayers(store, ChainOf(store, id)) == [s.sources] && PairLayers(store, ChainOf(store, id)) == [s.implements]
            else
              && s.base.value in store.snapshots
              && SourceLayers(store, ChainOf(store, id)) == [s.sources] + SourceLayers(store, ChainOf(store, s.base.value))
              && PairLayers(store, ChainOf(store, id)) == [s.implements] + PairLayers(store, ChainOf(store, s.base.value))
  {
    ChainStep(store, id);
    var s := store.snapshots[id];
    LayersOf(store, id, if s.base.None? then [] else ChainOf(store, s.base.value));
    hide ChainOf, Bases, SourceLayers, PairLayers;
    NoLayers(store);
    assert [id] + [] == [id];
  }

  lemma LayersOf(store: Store, id: SnapshotId, below: seq<SnapshotId>)
    requires id in store.snapshots
    ensures SourceLayers(store, [id] + below) == [store.snapshots[id].sources] + SourceLayers(store, below)
    ensures PairLayers(store, [id] + below) == [store.snapshots[id].implements] + PairLayers(store, below)
  {
  }

  lemma NoLayers(store: Store)
    ensures SourceLayers(store, []) == [] && PairLayers(store, []) == []
  {
  }

  lemma HoldsTable(m: map<Pair, Holds>)
    ensures Table(m.Keys) == m
  {
    forall k | k in m ensures m[k] == Holds {
      assert m[k].Holds?;
    }
  }

  // ------------------------------------------------- in any store

  /** Each snapshot's base is the next, and the last has none. */
  ghost predicate Links(store: Store, chain: seq<SnapshotId>) {
    && chain != [] && (forall i :: 0 <= i < |chain| ==> chain[i] in store.snapshots)
    && (forall i :: 0 < i < |chain| ==> store.snapshots[chain[i - 1]].base == Some(chain[i]))
    && store.snapshots[chain[|chain| - 1]].base.None?
  }

  lemma {:induction false} ChainIsLinked(store: Store, id: SnapshotId, cap: nat, chain: seq<SnapshotId>)
    ensures Chain(store, id, cap) == Ok(chain) <==> Links(store, chain) && chain[0] == id && |chain| <= cap + 1
    decreases cap
  {
    if id in store.snapshots && store.snapshots[id].base.Some? {
      var base := store.snapshots[id].base.value;
      if cap > 0 {
        NoChainIsEmpty(store, base, cap - 1);
        assert Chain(store, id, cap).Ok? ==> |Chain(store, id, cap).value| > 1;
      }
      if |chain| > 1 {
        LinksStep(store, chain);
        assert chain == [chain[0]] + chain[1..];
        hide Links;
        if cap > 0 {
          ChainIsLinked(store, base, cap - 1, chain[1..]);
          LinkedStep(store, id, cap, chain);
          assert Chain(store, id, cap) == Ok(chain) <==> Links(store, chain) && chain[0] == id && |chain| <= cap + 1;
        }
      }
    } else if |chain| > 1 {
      LinksStep(store, chain);
    } else if |chain| == 1 {
      assert chain == [chain[0]];
    }
  }

  lemma LinkedStep(store: Store, id: SnapshotId, cap: nat, chain: seq<SnapshotId>)
    requires id in store.snapshots && store.snapshots[id].base.Some? && cap > 0 && |chain| > 1
    ensures Chain(store, id, cap) == Ok(chain) <==> chain[0] == id && Chain(store, store.snapshots[id].base.value, cap - 1) == Ok(chain[1..])
  {
    var rest := Chain(store, store.snapshots[id].base.value, cap - 1);
    assert chain == [chain[0]] + chain[1..];
    if rest.Ok? {
      assert ([id] + rest.value)[1..] == rest.value;
    }
  }

  lemma LinksStep(store: Store, chain: seq<SnapshotId>)
    requires |chain| > 1
    ensures Links(store, chain) <==>
      chain[0] in store.snapshots && store.snapshots[chain[0]].base == Some(chain[1]) && Links(store, chain[1..])
  {
    var rest := chain[1..];
    assert forall i :: 0 <= i < |rest| ==> rest[i] == chain[i + 1];
    if Links(store, rest) && chain[0] in store.snapshots && store.snapshots[chain[0]].base == Some(chain[1]) {
      forall i | 0 <= i < |chain| ensures chain[i] in store.snapshots {
        assert i > 0 ==> chain[i] == rest[i - 1];
      }
      forall i | 0 < i < |chain| ensures store.snapshots[chain[i - 1]].base == Some(chain[i]) {
        assert i > 1 ==> chain[i - 1] == rest[i - 2] && chain[i] == rest[i - 1];
      }
    }
  }

  lemma NoChainIsEmpty(store: Store, id: SnapshotId, cap: nat)
    ensures Chain(store, id, cap).Ok? ==> Chain(store, id, cap).value != []
    decreases cap
  {
  }

  /**
   * In any store, a chain is read exactly when it links the snapshot by its bases to one
   * without a base, in at most as many links as the cap, all of one root.
   */
  lemma ReadsExactlyLinked(store: Store, id: SnapshotId, chain: seq<SnapshotId>)
    ensures CheckedChain(store, id) == Ok(chain) <==>
      && Links(store, chain) && chain[0] == id && |chain| <= MAX_BASE_CHAIN_DEPTH + 1
      && forall i :: 0 <= i < |chain| ==> store.snapshots[chain[i]].root == store.snapshots[chain[0]].root
  {
    ChainIsLinked(store, id, MAX_BASE_CHAIN_DEPTH, chain);
    hide Chain;
  }
}
