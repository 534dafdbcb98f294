/**
 * Rows that say how a table differs from its base's, and what a chain of them
 * resolves to (indexer/modules_sources.go:53-81, indexer/implements_publish.go:63-83,
 * storage/effective_sources.go:40-54, storage/effective_implements.go:36-52).
 */
module Deltas {
  import opened Common

  datatype Change<V> = Set(value: V) | Delete

  /** A set for each key whose value is new or changed, a delete for each that is gone. */
  function Rows<K, V(==)>(before: map<K, V>, after: map<K, V>): map<K, Change<V>> {
    map k | k in before.Keys + after.Keys && !(k in before && k in after && before[k] == after[k]) ::
      if k in after then Set(after[k]) else Delete
  }

  /** One loop over the new table, then one over the old. */
  method CreateDeltas<K(==), V(==)>(previous: map<K, V>, current: map<K, V>) returns (deltas: map<K, Change<V>>)
    ensures deltas == Rows(previous, current)
  {
    deltas := map[];
    var paths := current.Keys;
    while paths != {}
      invariant paths <= current.Keys
      invariant forall k :: k in deltas <==> k in current.Keys - paths && !(k in previous && previous[k] == current[k])
      invariant forall k :: k in deltas ==> deltas[k] == Set(current[k])
      decreases paths
    {
      var path :| path in paths;
      paths := paths - {path};
      if !(path in previous && previous[path] == current[path]) {
        deltas := deltas[path := Set(current[path])];
      }
    }
    ghost var sets := deltas;
    paths := previous.Keys;
    while paths != {}
      invariant paths <= previous.Keys
      invariant forall k :: k in deltas <==> k in sets || (k in previous.Keys - paths && k !in current)
      invariant forall k :: k in deltas ==> deltas[k] == if k in current then Set(current[k]) else Delete
      decreases paths
    {
      var path :| path in paths;
      paths := paths - {path};
      if path !in current {
        deltas := deltas[path := Delete];
      }
    }
  }

  /** The first row of a key, the newest layer first. */
  function Newest<K, R>(layers: seq<map<K, R>>, k: K): Option<R> {
    if layers == [] then None
    else if k in layers[0] then Some(layers[0][k])
    else Newest(layers[1..], k)
  }

  function KeysOf<K, R>(layers: seq<map<K, R>>): set<K> {
    if layers == [] then {} else layers[0].Keys + KeysOf(layers[1..])
  }

  lemma {:induction false} NewestHasKey<K, R>(layers: seq<map<K, R>>, k: K)
    ensures Newest(layers, k).Some? <==> k in KeysOf(layers)
  {
    if layers != [] {
      NewestHasKey(layers[1..], k);
    }
  }

  /** What a chain of layers resolves to: for each key its newest change, deletions dropped. */
  function Resolve<K, V>(layers: seq<map<K, Change<V>>>): (r: map<K, V>) {
    map k | k in KeysOf(layers) && Newest(layers, k).Some? && Newest(layers, k).value.Set? :: Newest(layers, k).value.value
  }

  lemma ResolveIs<K, V>(layers: seq<map<K, Change<V>>>, k: K)
    ensures k in Resolve(layers) <==> Newest(layers, k).Some? && Newest(layers, k).value.Set?
    ensures k in Resolve(layers) ==> Newest(layers, k) == Some(Set(Resolve(layers)[k]))
  {
    NewestHasKey(layers, k);
  }

  /** The rows against what a chain resolves to, laid on that chain, resolve to the new table. */
  lemma RowsResolve<K, V>(layers: seq<map<K, Change<V>>>, after: map<K, V>)
    ensures Resolve([Rows(Resolve(layers), after)] + layers) == after
  {
    var rows := Rows(Resolve(layers), after);
    var longer := [rows] + layers;
    assert longer[1..] == layers;
    hide Rows;
    forall k ensures k in Resolve(longer) <==> k in after
      ensures k in after ==> k in Resolve(longer) && Resolve(longer)[k] == after[k]
    {
      ResolveIs(longer, k);
      ResolveIs(layers, k);
      RowsAt(Resolve(layers), after, k);
      hide Resolve;
    }
    hide Resolve, Newest;
    assert Resolve(longer) == after;
  }

  lemma RowsAt<K, V>(before: map<K, V>, after: map<K, V>, k: K)
    ensures k in Rows(before, after) <==> (k in before || k in after) && !(k in before && k in after && before[k] == after[k])
    ensures k in Rows(before, after) ==> Rows(before, after)[k] == if k in after then Set(after[k]) else Delete
  {
  }

  /** What rows laid on a chain resolve to depends only on what the chain resolves to. */
  lemma ResolveOn<K(!new), V>(top: map<K, Change<V>>, a: seq<map<K, Change<V>>>, b: seq<map<K, Change<V>>>)
    requires Resolve(a) == Resolve(b)
    ensures Resolve([top] + a) == Resolve([top] + b)
  {
    var r, t := Resolve([top] + a), Resolve([top] + b);
    forall k ensures k in r <==> k in t
      ensures k in t ==> k in r && r[k] == t[k]
    {
      ResolveIs([top] + a, k);
      ResolveIs([top] + b, k);
      ResolveIs(a, k);
      ResolveIs(b, k);
      assert ([top] + a)[1..] == a && ([top] + b)[1..] == b;
    }
  }

  /** A set row for each key. */
  function SetRows<K, V>(table: map<K, V>): map<K, Change<V>> {
    map k | k in table :: Set(table[k])
  }

  lemma SetRowsResolve<K(!new), V>(table: map<K, V>)
    ensures Resolve([SetRows(table)]) == table
  {
    var r := Resolve([SetRows(table)]);
    forall k ensures k in r <==> k in table
      ensures k in table ==> k in r && r[k] == table[k]
    {
      ResolveIs([SetRows(table)], k);
    }
  }

  /** The newest row of a key is a row of some layer. */
  lemma {:induction false} NewestIsARow<K, R>(layers: seq<map<K, R>>, k: K) returns (i: nat)
    requires Newest(layers, k).Some?
    ensures i < |layers| && k in layers[i] && layers[i][k] == Newest(layers, k).value
  {
    i := 0;
    if k !in layers[0] {
      var j := NewestIsARow(layers[1..], k);
      i := j + 1;
    }
  }

  /** No fewer rows laid on a chain make the new table of it. */
  lemma RowsAreLeast<K(!new), V>(layers: seq<map<K, Change<V>>>, after: map<K, V>, rows: map<K, Change<V>>)
    requires Resolve([rows] + layers) == after
    ensures Rows(Resolve(layers), after).Keys <= rows.Keys
  {
    forall k | k in Rows(Resolve(layers), after) ensures k in rows {
      ResolveIs([rows] + layers, k);
      ResolveIs(layers, k);
      assert ([rows] + layers)[1..] == layers;
      RowsAt(Resolve(layers), after, k);
      hide Resolve, Rows;
    }
  }
}
