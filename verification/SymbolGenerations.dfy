/**
 * The content generations of symbols along a base chain
 * (storage/symbol_generations.go:30-207, indexer/symbol_deltas.go:184-239): what
 * the rows count, and what is left of the count when a snapshot is made to stand alone
 * (storage/prune_apply.go:46-108).
 */
module SymbolGenerations {
  import opened Common
  import opened Deltas

  /** The number of a symbol in the database. */
  datatype Handle = Handle(number: int)

  datatype Fingerprints = Fingerprints(publicFP: int, privateFP: int, contentFP: int)

  /** The symbols a snapshot defines. */
  type Table = map<Handle, Fingerprints>

  datatype SymbolRow = SetSymbol(fingerprints: Fingerprints, generation: int) | DeleteSymbol(generation: int)

  type Layers = seq<map<Handle, SymbolRow>>

  /** The newest row of a symbol, a tombstone without a fingerprint. */
  datatype SymbolGeneration = SymbolGeneration(generation: int, contentFP: Option<int>)

  function GenerationOf(row: SymbolRow): SymbolGeneration {
    SymbolGeneration(row.generation, if row.SetSymbol? then Some(row.fingerprints.contentFP) else None)
  }

  /** The generations that a chain of layers has for a symbol, tombstones included. */
  function SymbolGenerationIn(layers: Layers, h: Handle): Option<SymbolGeneration> {
    var newest := Newest(layers, h);
    if newest.None? then None else Some(GenerationOf(newest.value))
  }

  datatype Operation = SourceSet | SourceDelete

  function NextContentGeneration(prior: Option<SymbolGeneration>, operation: Operation, contentFP: Option<int>): Result<int> {
    if operation.SourceDelete? && prior.None? then Err
    else if operation.SourceDelete? then Ok(prior.value.generation)
    else if contentFP.None? then Err
    else if prior.None? then Ok(1)
    else if prior.value.contentFP.Some? && prior.value.contentFP.value == contentFP.value then Ok(prior.value.generation)
    else Ok(prior.value.generation + 1)
  }

  // ---------------------------------------------------------- writing rows

  predicate Differs(before: Table, after: Table, h: Handle) {
    (h in before || h in after) && !(h in before && h in after && before[h] == after[h])
  }

  function Next(layers: Layers, after: Table, h: Handle): Result<int> {
    if h in after then NextContentGeneration(SymbolGenerationIn(layers, h), SourceSet, Some(after[h].contentFP))
    else NextContentGeneration(SymbolGenerationIn(layers, h), SourceDelete, None)
  }

  function RowFor(after: Table, h: Handle, generation: int): SymbolRow {
    if h in after then SetSymbol(after[h], generation) else DeleteSymbol(generation)
  }

  /** A row on top of the layers for each symbol that differs, with the generation that is next. */
  ghost predicate RowsOn(layers: Layers, before: Table, after: Table, rows: map<Handle, SymbolRow>) {
    && (forall h :: h in rows <==> Differs(before, after, h))
    && forall h :: h in rows ==> Next(layers, after, h).Ok? && rows[h] == RowFor(after, h, Next(layers, after, h).value)
  }

  /** Compares two tables, and numbers the rows that say how they differ. */
  method DeltaRows(layers: Layers, before: Table, after: Table) returns (r: Result<map<Handle, SymbolRow>>)
    ensures r.Ok? <==> forall h :: h in before && h !in after ==> Newest(layers, h).Some?
    ensures r.Ok? ==> RowsOn(layers, before, after, r.value)
  {
    var changed := {};
    var todo := after.Keys;
    while todo != {}
      invariant todo <= after.Keys
      invariant changed == set h | h in after.Keys - todo && Differs(before, after, h)
      decreases todo
    {
      var h :| h in todo;
      todo := todo - {h};
      if h !in before || before[h] != after[h] {
        changed := changed + {h};
      }
    }
    todo := before.Keys;
    while todo != {}
      invariant todo <= before.Keys
      invariant forall h :: h in changed <==> (h in after || (h in before.Keys - todo && h !in after)) && Differs(before, after, h)
      decreases todo
    {
      var h :| h in todo;
      todo := todo - {h};
      if h !in after {
        changed := changed + {h};
      }
    }
    var rows: map<Handle, SymbolRow> := map[];
    todo := changed;
    while todo != {}
      invariant todo <= changed && rows.Keys == changed - todo
      invariant forall h :: h in rows ==> Next(layers, after, h).Ok? && rows[h] == RowFor(after, h, Next(layers, after, h).value)
      decreases todo
    {
      var h :| h in todo;
      todo := todo - {h};
      var generation := Next(layers, after, h);
      if generation.Err? {
        return Err;
      }
      rows := rows[h := RowFor(after, h, generation.value)];
    }
    assert forall h :: h in changed <==> Differs(before, after, h);
    assert forall h :: h in before && h !in after ==> h in rows;
    r := Ok(rows);
  }

  // ------------------------------------------------------ what rows count

  /** The layers define the table, and number no symbol below 1. */
  ghost predicate Defines(layers: Layers, table: Table) {
    forall h ::
      var newest := Newest(layers, h);
      && (h in table <==> newest.Some? && newest.value.SetSymbol?)
      && (h in table ==> newest.value.fingerprints == table[h])
      && (newest.Some? ==> newest.value.generation >= 1)
  }

  /** How far the count of a symbol has come; zero when the layers never named it. */
  function Reached(layers: Layers, h: Handle): int {
    if Newest(layers, h).Some? then Newest(layers, h).value.generation else 0
  }

  /** The symbol comes into being, again or for the first time, or its content changes. */
  predicate Renewed(before: Table, after: Table, h: Handle) {
    h in after && !(h in before && before[h].contentFP == after[h].contentFP)
  }

  /** The layers of a chain that publishes these tables, oldest first, on top of others. */
  ghost predicate Publishes(bottom: Layers, start: Table, tables: seq<Table>, layers: Layers)
    decreases |tables|
  {
    if tables == [] then layers == bottom else
      var n := |tables| - 1;
      && layers != [] && Publishes(bottom, start, tables[..n], layers[1..])
      && RowsOn(layers[1..], Last(start, tables[..n]), tables[n], layers[0])
  }

  function Last(start: Table, tables: seq<Table>): Table {
    if tables == [] then start else tables[|tables| - 1]
  }

  function Renewals(start: Table, tables: seq<Table>, h: Handle): nat {
    if tables == [] then 0 else
      var n := |tables| - 1;
      Renewals(start, tables[..n], h) + if Renewed(Last(start, tables[..n]), tables[n], h) then 1 else 0
  }

  /** One publication counts one more exactly where a symbol is renewed. */
  lemma RowsCount(layers: Layers, before: Table, after: Table, rows: map<Handle, SymbolRow>, h: Handle)
    requires Defines(layers, before) && RowsOn(layers, before, after, rows)
    ensures Reached([rows] + layers, h) == Reached(layers, h) + if Renewed(before, after, h) then 1 else 0
  {
    var longer := [rows] + layers;
    assert longer[1..] == layers && longer[0] == rows;
    assert h in rows <==> Differs(before, after, h);
  }

  lemma RowsDefine(layers: Layers, before: Table, after: Table, rows: map<Handle, SymbolRow>)
    requires Defines(layers, before) && RowsOn(layers, before, after, rows)
    ensures Defines([rows] + layers, after)
  {
    var longer := [rows] + layers;
    assert longer[1..] == layers && longer[0] == rows;
    forall h
      ensures var newest := Newest(longer, h);
        && (h in after <==> newest.Some? && newest.value.SetSymbol?)
        && (h in after ==> newest.value.fingerprints == after[h])
        && (newest.Some? ==> newest.value.generation >= 1)
    {
      assert h in rows <==> Differs(before, after, h);
      RowsCount(layers, before, after, rows, h);
    }
  }

  /**
   * The generation of a symbol is that of the layers below, and one more for each
   * publication that renews it.
   */
  lemma {:induction false} GenerationsCount(bottom: Layers, start: Table, tables: seq<Table>, layers: Layers)
    requires Defines(bottom, start) && Publishes(bottom, start, tables, layers)
    ensures Defines(layers, Last(start, tables))
    ensures forall h :: Reached(layers, h) == Reached(bottom, h) + Renewals(start, tables, h)
    decreases |tables|
  {
    hide Defines, RowsOn, Renewed, Reached;
    if tables != [] {
      var n := |tables| - 1;
      GenerationsCount(bottom, start, tables[..n], layers[1..]);
      assert layers == [layers[0]] + layers[1..];
      RowsDefine(layers[1..], Last(start, tables[..n]), tables[n], layers[0]);
      forall h ensures Reached(layers, h) == Reached(bottom, h) + Renewals(start, tables, h) {
        RowsCount(layers[1..], Last(start, tables[..n]), tables[n], layers[0], h);
      }
    }
  }

  /** Along a chain that starts with nothing, rows can always be written, so every history is published. */
  lemma {:induction false} AlwaysPublishes(bottom: Layers, start: Table, tables: seq<Table>) returns (layers: Layers)
    requires Defines(bottom, start)
    ensures Publishes(bottom, start, tables, layers)
    decreases |tables|
  {
    hide Defines;
    layers := bottom;
    if tables != [] {
      var n := |tables| - 1;
      var below := AlwaysPublishes(bottom, start, tables[..n]);
      GenerationsCount(bottom, start, tables[..n], below);
      var rows := RowsExist(below, Last(start, tables[..n]), tables[n]);
      layers := [rows] + below;
      assert layers[1..] == below;
    }
  }

  lemma RowsExist(layers: Layers, before: Table, after: Table) returns (rows: map<Handle, SymbolRow>)
    requires Defines(layers, before)
    ensures RowsOn(layers, before, after, rows)
  {
    rows := map h | h in before.Keys + after.Keys && Differs(before, after, h) && Next(layers, after, h).Ok? ::
      RowFor(after, h, Next(layers, after, h).value);
    forall h | Differs(before, after, h) ensures Next(layers, after, h).Ok? {
      assert h !in after ==> h in before;
    }
  }

  lemma NothingDefined()
    ensures Defines([], map[])
  {
  }

  // ------------------------------------------------------------- histories

  /** The link of a chain, counted from its oldest, at which a set row has this generation. */
  datatype Entry = Entry(link: nat, generation: int)

  /** The set rows of a symbol along a chain, oldest first. */
  function SetRowsOf(layers: Layers, h: Handle): seq<Entry> {
    if layers == [] then [] else
      SetRowsOf(layers[1..], h) +
      if h in layers[0] && layers[0][h].SetSymbol? then [Entry(|layers| - 1, layers[0][h].generation)] else []
  }

  function Highest(rows: seq<Entry>): int {
    if rows == [] then 0 else
      var n := |rows| - 1;
      if rows[n].generation > Highest(rows[..n]) then rows[n].generation else Highest(rows[..n])
  }

  function Advances(rows: seq<Entry>): seq<Entry> {
    if rows == [] then [] else
      var n := |rows| - 1;
      Advances(rows[..n]) + if rows[n].generation > Highest(rows[..n]) then [rows[n]] else []
  }

  /** Keeps the rows at which the generation advanced. */
  method SymbolHistory(rows: seq<Entry>) returns (entries: seq<Entry>)
    ensures entries == Advances(rows)
  {
    entries := [];
    var reached := 0;
    for i := 0 to |rows|
      invariant entries == Advances(rows[..i]) && reached == Highest(rows[..i])
    {
      assert rows[..i + 1][..i] == rows[..i];
      if rows[i].generation > reached {
        reached := rows[i].generation;
        entries := entries + [rows[i]];
      }
    }
    assert rows[..|rows|] == rows;
  }

  /** The links that renew a symbol, each with how often it has been renewed by then. */
  function RenewalsOf(tables: seq<Table>, h: Handle): seq<Entry> {
    if tables == [] then [] else
      var n := |tables| - 1;
      RenewalsOf(tables[..n], h) +
      if Renewed(Last(map[], tables[..n]), tables[n], h) then [Entry(n, Renewals(map[], tables, h))] else []
  }

  lemma AdvancesNext(rows: seq<Entry>, e: Entry)
    ensures Advances(rows + [e]) == Advances(rows) + if e.generation > Highest(rows) then [e] else []
    ensures Highest(rows + [e]) == if e.generation > Highest(rows) then e.generation else Highest(rows)
  {
    assert (rows + [e])[..|rows|] == rows;
  }

  /** What one publication adds to the set rows of a symbol. */
  lemma RowAdds(layers: Layers, before: Table, after: Table, rows: map<Handle, SymbolRow>, h: Handle)
    requires Defines(layers, before) && RowsOn(layers, before, after, rows)
    ensures Renewed(before, after, h) ==> h in rows && rows[h] == SetSymbol(after[h], Reached(layers, h) + 1)
    ensures !Renewed(before, after, h) && h in rows && rows[h].SetSymbol? ==> rows[h].generation == Reached(layers, h)
  {
    assert h in rows <==> Differs(before, after, h);
  }

  /** The history of a symbol lists exactly the publications that renewed it, numbered 1, 2, 3, ... in order. */
  lemma {:induction false} HistoryIsRenewals(tables: seq<Table>, layers: Layers, h: Handle)
    requires Publishes([], map[], tables, layers)
    ensures |layers| == |tables| && Highest(SetRowsOf(layers, h)) == Renewals(map[], tables, h)
    ensures Advances(SetRowsOf(layers, h)) == RenewalsOf(tables, h)
    decreases |tables|
  {
    hide Defines, RowsOn, Renewed, Reached, Advances, Highest;
    if tables == [] {
      NothingAdvances();
    } else {
      var n := |tables| - 1;
      var below, before := layers[1..], Last(map[], tables[..n]);
      HistoryIsRenewals(tables[..n], below, h);
      NothingDefined();
      GenerationsCount([], map[], tables[..n], below);
      NothingReached(h);
      RowAdds(below, before, tables[n], layers[0], h);
      var rows := SetRowsOf(below, h);
      if h in layers[0] && layers[0][h].SetSymbol? {
        AdvancesNext(rows, Entry(n, layers[0][h].generation));
      } else {
        assert rows + [] == rows;
      }
    }
  }

  lemma NothingAdvances()
    ensures Advances([]) == [] && Highest([]) == 0
  {
  }

  lemma NothingReached(h: Handle)
    ensures Reached([], h) == 0
  {
  }

  // -------------------------------------------------------- standing alone

  /** One set row for each symbol defined, with the generation it had. */
  function Rebased(layers: Layers, table: Table): Layers {
    [map h | h in table :: SetSymbol(table[h], Reached(layers, h))]
  }

  lemma RebasedRow(layers: Layers, table: Table, h: Handle)
    ensures Newest(Rebased(layers, table), h) == if h in table then Some(SetSymbol(table[h], Reached(layers, h))) else None
  {
    var alone := Rebased(layers, table);
    assert alone[1..] == [];
    assert h in alone[0] <==> h in table;
  }

  lemma RebasedReaches(layers: Layers, table: Table, h: Handle)
    ensures Reached(Rebased(layers, table), h) == if h in table then Reached(layers, h) else 0
  {
    RebasedRow(layers, table, h);
    hide Newest, Rebased;
  }

  lemma RebasedDefines(layers: Layers, table: Table)
    requires Defines(layers, table)
    ensures Defines(Rebased(layers, table), table)
  {
    forall h ensures Newest(Rebased(layers, table), h) == if h in table then Some(SetSymbol(table[h], Reached(layers, h))) else None {
      RebasedRow(layers, table, h);
    }
    hide Rebased, Newest;
  }

  /** A snapshot published on the rebased one, and the one published on the chain as it was, number the symbol alike. */
  ghost predicate CountsOn(layers: Layers, table: Table, h: Handle) {
    forall more, now, was ::
      Publishes(Rebased(layers, table), table, more, now) && Publishes(layers, table, more, was) && h in Last(table, more) ==>
        Reached(now, h) == Reached(was, h)
  }

  /**
   * A rebased snapshot defines what it defined, and later links count a symbol on
   * from where it was exactly when it was defined there or never before: the count of
   * a deleted symbol is lost with its tombstone.
   */
  lemma CountsOnExactlyUnlessDeleted(layers: Layers, table: Table, h: Handle)
    requires Defines(layers, table)
    ensures Defines(Rebased(layers, table), table)
    ensures CountsOn(layers, table, h) <==> h in table || Newest(layers, h).None?
  {
    hide Publishes, Reached;
    RebasedDefines(layers, table);
    RebasedReaches(layers, table, h);
    NamedIsPositive(layers, table, h);
    hide Defines, Rebased;
    forall more, now, was | Publishes(Rebased(layers, table), table, more, now) && Publishes(layers, table, more, was)
      ensures Reached(now, h) - Reached(was, h) == Reached(Rebased(layers, table), h) - Reached(layers, h)
    {
      GenerationsCount(Rebased(layers, table), table, more, now);
      GenerationsCount(layers, table, more, was);
    }
    if CountsOn(layers, table, h) {
      var more := [table[h := Fingerprints(0, 0, 0)]];
      var now := AlwaysPublishes(Rebased(layers, table), table, more);
      var was := AlwaysPublishes(layers, table, more);
      assert h in Last(table, more);
    }
  }

  lemma NamedIsPositive(layers: Layers, table: Table, h: Handle)
    requires Defines(layers, table)
    ensures Reached(layers, h) == 0 <==> Newest(layers, h).None?
  {
  }

  lemma OneRenewal(start: Table, table: Table, h: Handle)
    ensures Renewals(start, [table], h) == if Renewed(start, table, h) then 1 else 0
  {
    assert [table][..0] == [];
  }

  /** A symbol deleted and added again counts 2, but 1 where the snapshot between was rebased. */
  lemma DeletedSymbolCountsAnew(h: Handle, fp: Fingerprints, layers: Layers, was: Layers, now: Layers)
    requires Publishes([], map[], [map[h := fp], map[]], layers)
    requires Publishes(layers, map[], [map[h := fp]], was) && Publishes(Rebased(layers, map[]), map[], [map[h := fp]], now)
    ensures Reached(was, h) == 2 && Reached(now, h) == 1
  {
    hide Publishes, Defines, Reached, Rebased;
    NothingDefined();
    NothingReached(h);
    var tables := [map[h := fp], map[]];
    GenerationsCount([], map[], tables, layers);
    assert tables[..1] == [map[h := fp]];
    OneRenewal(map[], map[h := fp], h);
    RebasedDefines(layers, map[]);
    RebasedReaches(layers, map[], h);
    GenerationsCount(layers, map[], [map[h := fp]], was);
    GenerationsCount(Rebased(layers, map[]), map[], [map[h := fp]], now);
  }

  /** No row is needless: whatever rows make the chain define the new table have one for each symbol that these have. */
  lemma RowsAreNeeded(layers: Layers, before: Table, after: Table, rows: map<Handle, SymbolRow>, others: map<Handle, SymbolRow>)
    requires Defines(layers, before) && RowsOn(layers, before, after, rows) && Defines([others] + layers, after)
    ensures rows.Keys <= others.Keys
  {
    hide Next, RowFor;
    assert ([others] + layers)[1..] == layers;
    forall h | h !in others ensures h !in rows {
      assert Newest([others] + layers, h) == Newest(layers, h);
    }
  }
}
