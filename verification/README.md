# UIR verification

UIR is a code model and an incremental indexer. This project models the parts of
it whose correctness is hard to see from the code, and proves what they promise:

- **Dependency components.** Tarjan's algorithm over its index, low and on-stack
  arrays (`Components`), and what the indexer reads off the groups
  (`DependencyGraph`).
- **Bounded graphs.** The two-direction breadth-first walk with its depth, node
  and exclusion bounds (`GraphModel`, `GraphWalk`, `GraphSearch`, `GraphTrace`,
  `GraphBuild`),
  the inlining of absorbed nodes (`Absorb`), shortest paths (`Paths`) and the
  drawn tree (`Tree`). `BreadthFirst` is the search that the last two share, and
  `SearchOrder` says which of several shortest walks it keeps. A source is a pair of
  functions from an id to its steps, so it may name infinitely many nodes.
- **Printing and lowering expressions.** The printer's parentheses (`Printing`), of
  which none is needless (`PrinterParens`), and the lowering of Go syntax
  (`GoLowering`), against a parser of token sequences for any grammar (`Syntax`), of
  which `Parsing` proves exactly what it reads.
- **The guarded statement walk.** The walk (`StatementWalk`), which statements it
  visits under which scope (`StatementScopes`), and an execution semantics in which
  the guards it attaches are shown to hold (`StatementExecution`) and to be all that
  decides whether a body is entered (`StatementDecisions`).
- **The statement codec.** Registered kinds and refinements (`Registry`), the
  tagged and the legacy layout as functions on documents (`Codec`), the decoder and
  the encoder step by step (`CodecStream`), round trips (`CodecRoundTrip`), what an
  accepted document says (`CodecAcceptance`), and the rewriting of slots to inline
  values (`SlotUnwrapping`).
- **Export shapes and interface indexes.** The walk over a cyclic type graph
  (`ExportApi`, `ExposedTypes`), the memoised shape recursion (`ExportShape`), the candidate
  interfaces (`Candidates`) and the inverted index (`InterfaceIndex`). `ApiShape` joins
  the walk to the recursion.
- **Publication.** Set and delete rows on a base chain (`Deltas`,
  `SourceRevisions`, `BaseChains`), heads with compare-and-swap (`Publication`),
  pruning a history (`Pruning`), every run of interleaved publishers and prunes
  (`PublicationRuns`), the generations symbol rows count (`SymbolGenerations`), delta
  publications (`ExternalDelta`)
  and the bytes their digests are fed (`Hashes`).
- **Moved columns.** The longest-increasing-subsequence loop and what it makes of
  two lists of columns (`Columns`).

`Common`, `Walks` and `Sorting` hold what several modules share. Each operation
that the program runs by updating state is a method, specified by predicates or
functions of the old and the new state; the lemmas then say what these mean.

Hashes are constructors that keep all they are given, JSON is a datatype, type
graphs are maps from ids, tables are maps, and a transaction is one step.

## Where the code and its comments differ

- `diff/members.go:55-58` says that inserting or dropping a column moves nothing.
  Occurrences of one key pair first with first, so with repeated keys this fails:
  `Columns.DroppingARepeatedColumnMovesAnother`. It holds for whatever is dropped
  exactly when the columns of one key stand next to each other, and so it does when
  columns of new keys are inserted as well (`Columns.DroppingMovesNothingExactly`,
  `Columns.InsertingMovesNothingExactly`,
  `Columns.DroppingAndInsertingNewMovesNothingExactly`).
- `graph/paths.go:3-6` promises whole walks. Reading parents back stops at the
  empty id, so a node with that id cuts the walks through it:
  `Paths.EmptyIdCutsWalks`. An entry is a shortest walk exactly when the empty id is
  not on the walk it stands for (`Paths.FindPaths`).
- The printer leaves a unary operand of `**` bare. An expression reads back from its
  text exactly when no unary operator stands bare before an operator that binds as
  tightly or tighter (`Printing.RoundTripsExactlyWhenUnarySafe`), and every expression
  does in exactly the grammars whose unary operators bind tighter than every binary
  one (`Printing.RoundTripsExactlyWhenUnaryBindsTightest`).
- `pretty_expr.go:59-63` ranks operators that every language ranks alike. C, Java and
  JavaScript rank == looser than <, so the text of (a == b) < c misreads there
  (`PrinterParens.LooserEqualityMisreads`). Every text reads back in exactly the
  grammars that agree with the table and bind unary operators tightest
  (`PrinterParens.RoundTripsExactlyWhenAgreeing`).
- `indexer/implements.go:162-163` counts pairs of methods that share a name, so two
  methods of one name hide an interface (`InterfaceIndex.MissesRepeatedNames`). The
  index finds what testing every candidate would exactly when each implemented
  candidate has methods and each of their names is that of one method of the type
  (`InterfaceIndex.FindsExactlyWhenNamedOnce`).
- `assertion_env.go:31-36` speaks of tagged slots of UIR. A plain one-member object
  whose key begins with `$` is rewritten too; the two layouts correspond exactly
  when no plain field holds one (`SlotUnwrapping.UnwrapsToLegacy`).
- `storage/prune_apply.go:46-49` says that after a prune later links go on counting
  a symbol's generation, and `storage/symbol_generations.go:36-40` that a symbol added
  again does. A snapshot made to stand alone keeps no tombstones, so a symbol deleted
  there starts from 1 when it is added again
  (`SymbolGenerations.DeletedSymbolCountsAnew`); the count goes on exactly for the
  symbols defined there or never named (`SymbolGenerations.CountsOnExactlyUnlessDeleted`).
- `internal/canonicalhash/hash.go:13` says that no two field sequences share bytes.
  A count of zero and an empty text do (`Hashes.CountReadsAsEmptyText`); sequences
  can share bytes only where they first differ in the kind of a field
  (`Hashes.SharedBytes`), which the digests of `indexer/hashes.go` never do.

## Model

| member | source | states |
|---|---|---|
| `Components.DependencyComponents` | indexer/graph_components.go:3-46 | for every finite graph the groups partition all nodes, two nodes share a group exactly when each reaches the other, and every edge leads into its own group or an earlier one |
| `Components.Search.Visit` | indexer/graph_components.go:9-39 | visiting a node numbers it and all it reaches that was unvisited, keeps the search invariant, and emits only finished components |
| `Components.Search.FollowEdge` | indexer/graph_components.go:16-23 | following one edge lowers low only to the number of a node on the stack that the node reaches, never below what it can reach |
| `Components.Search.PopGroup` | indexer/graph_components.go:24-38 | the nodes above and at the root leave the stack, topmost first, as one group, and nothing else changes |
| `Components.SearchFinished` | indexer/graph_components.go:40-46 | once every node is visited the invariant makes the groups the components in dependency order |
| `Components.OrderedGroupsAreComponents` | indexer/graph_components.go:24-38 | disjoint groups whose members reach each other, each depending only on itself and earlier ones, are exactly the components |
| `Components.ReachedNotLater` | indexer/graph_components.go:24-38 | whatever a node reaches over any number of edges is in its group or an earlier one |
| `DependencyGraph.DependencyTargets` | indexer/dependency_graph.go:91-99 | a root's edges are its dependency paths that name a discovered root, in order |
| `DependencyGraph.FindComponents` | indexer/dependency_graph.go:86-88 | the groups of the local dependency graph are its components, dependencies first |
| `DependencyGraph.Cyclic` | indexer/dependency_graph.go:101-113 | true exactly when the graph has a directed cycle, an edge from a root to itself included |
| `DependencyGraph.CyclicGroupHasCycle` | indexer/dependency_graph.go:101-113 | a group of several roots, or of one that depends on itself, holds a cycle |
| `DependencyGraph.CycleIsInGroup` | indexer/dependency_graph.go:101-113 | every cycle shows in some group that the scan reports |
| `GraphBuild.Build` | graph/build.go:20-45 | for any source and any exclusion the walk ends, holds at most Limit nodes none deeper than Depth, and every edge has both ends in the graph; it lists each root once, in order and at most Limit of them, each described and at depth zero; the sides it expands are distinct, at most twice Limit, and in requested directions of exactly the resolved nodes of the graph; every node is a root as described or a node that is not excluded as an expanded side reports it, and every edge is a followed edge of an expanded side, with all the sites that side lists for it; the node-limit flag is set only by a full graph that leaves out a root or a node some expanded side leads to; it fails only on bad options, no roots, a root described as another node or a step without id or type, and says which; and for a source whose steps say as Describe does which nodes are resolved and which excluded, the node-limit flag is set exactly when more than Limit nodes are within Depth followed edges of a root in a requested direction through resolved nodes without excluded ones, and when they are not, the nodes are exactly those, each at its shortest distance, the edges exactly those followed from expanded sides between them, each with the sites of the first side to follow it, and the sides counted as beyond the depth exactly those that lead outside |
| `GraphBuild.WalkQueue` | graph/build.go:33-45 | the queue loop keeps the bounds and the roots, logs each expanded side once and in order, ends with an empty queue or at a malformed step, and gives each edge the sites of one logged side |
| `GraphBuild.PlaceRoots` | graph/build.go:28-32 | the bounds hold once the roots are placed, and the first Limit of the distinct roots are listed; each is in the graph at depth zero and waits in every requested direction, unless more roots than Limit are in reach; it fails only for a root described as another node |
| `GraphBuild.KeptMerges` | graph/build.go:186-207 | the steps kept beside those to excluded nodes are what merging a source without the steps to excluded nodes gives, since an excluded node is in the graph only as a root |
| `GraphTrace.TakenTraced` | graph/build.go:155-219 | following a kept step keeps every node and edge traced to a root or a walked side, and every resolved node walked |
| `GraphTrace.RootTraced` | graph/build.go:93-126 | adding a root does so too |
| `GraphBuild.Merge` | graph/build.go:224-265 | fails exactly when a step lacks an id or an edge type, else folds the followed steps into one per neighbour, type and kind, with the sites of all of them in the order listed |
| `GraphBuild.SitesAreAll` | graph/build.go:224-265 | the sites of an edge are exactly those of the followed steps of that edge |
| `GraphBuild.EdgesAreCalls` | graph/build.go:235-240 | where the source lists callers as it lists callees, every edge leads from the node that calls to the one called, by its type and kind, whichever way it was followed, and is of a type that is followed |
| `GraphBuild.DrawsExactlyTheCalls` | graph/build.go:155-219 | where the source lists callers as it lists callees, a graph within its limit draws exactly the calls between its nodes, of the types followed, that the expansion of the calling or of the called node shows |
| `GraphBuild.ExpandedAsAsked` | graph/build.go:115-126 | in every walk only nodes of the graph are expanded, none against the direction asked for, and no node is excluded but a root |
| `GraphBuild.Builder.Enqueue` | graph/build.go:84-91 | a side is queued unless it was walked or its node is unresolved, and is then marked walked |
| `GraphBuild.Builder.Add` | graph/build.go:115-126 | a node is added at its depth, and a root enqueued in each requested direction |
| `GraphBuild.Builder.AddRoot` | graph/build.go:93-111 | a root already drawn or past the limit changes no node, a root described under another id fails, any other is added at depth zero and listed |
| `GraphBuild.Builder.WithoutExcluded` | graph/build.go:188-207 | keeps exactly the steps whose neighbour is in the graph already or is not excluded |
| `GraphBuild.Builder.Record` | graph/build.go:211-219 | an edge is recorded once, as it was first followed |
| `GraphBuild.Builder.Take` | graph/build.go:160-182 | one followed step: a new neighbour is added a level further unless the depth or the node limit forbids, a known one is enqueued in the walk's direction, and the edge is drawn exactly when both ends are in the graph |
| `GraphBuild.Builder.Follow` | graph/build.go:155-184 | following a side keeps every bound and what everything is traced to, grows nothing but the graph, counts the side at most once as leading beyond the depth, and keeps an exact search exact under any exclusion |
| `GraphBuild.TakenExactly` | graph/build.go:160-182 | one round of the follow loop deals with its key and keeps the search exact |
| `GraphWalk.TakenSafe` | graph/build.go:155-184 | each followed step keeps the limits, the depths and the edges' ends |
| `GraphWalk.WalkedBound` | graph/build.go:73-91 | no more than twice Limit sides are ever walked, which bounds the walk of any source |
| `GraphSearch.ReachedSettled` | graph/build.go:155-184 | whatever a walk of k followed edges reaches is in the graph within k |
| `GraphSearch.NodesExact` | graph/build.go:115-126 | when the queue is empty the nodes are exactly those in reach, at the shortest distance, negative for callers |
| `GraphSearch.EdgesExact` | graph/build.go:155-184 | the drawn edges are exactly the followed edges of walked sides whose both ends are in the graph |
| `Absorb.AbsorbingSource.Out` | graph/absorb.go:39-41 | with finitely many absorbed nodes the expansion ends, fails exactly when an absorbed node in reach is absorbed into itself, and else lists exactly the unabsorbed nodes reached through absorbed ones only, in place of them |
| `Absorb.AbsorbingSource.OutOf` | graph/absorb.go:45-76 | the same of a chain of nodes being expanded: it fails exactly when a walk through absorbed nodes meets the chain or itself again, and each absorbed-in site is drawn once and none lost |
| `Absorb.AbsorbingSource.In` | graph/absorb.go:78-100 | each caller in order, an absorbed one drawn as its parent, and a failure exactly when a parent is empty |
| `Absorb.WithoutDrawnSites` | graph/absorb.go:111-128 | keeps, in order, each site not drawn before once; a step is dropped exactly when it has sites and all were drawn |
| `Absorb.KeepUndrawn` | graph/absorb.go:60-72 | of the steps an absorbed node gives, what is kept still shows each of them, and no site twice |
| `Absorb.ShowsEachSite` | graph/absorb.go:111-128 | steps that show another show each of its sites: to its node, by its edge type, in its place |
| `Absorb.RepeatsMeansCycle` | graph/absorb.go:45-58 | a repeated node along a chain being expanded is the same as a cycle of absorbed nodes in reach |
| `Absorb.BelowComes` | graph/absorb.go:45-76 | the steps to unabsorbed nodes reached through absorbed ones are those that one level of folding comes to |
| `GraphBuild.ExactIsNotTooMany` | graph/build.go:163-168 | a graph that holds every node in reach within its limit shows that they are not too many |
| `GraphBuild.RefusedStep` | graph/build.go:168-171 | a neighbour that finds the graph full makes one node in reach too many |
| `GraphBuild.ToldNext` | graph/build.go:209-219 | an edge recorded on a side's turn was followed by no side expanded before it |
| `GraphTrace.TakenLimit` | graph/build.go:160-182 | once the limit refuses a node nothing joins the graph, so what it left out stays out |
| `Paths.FindPaths` | graph/paths.go:7-42 | an entry for a target exactly when some root reaches it; each entry is what follows the last empty id of the shortest walk that parts from every other one through an earlier root or an earlier edge, and so is itself a shortest walk exactly when the empty id is not on that walk |
| `Paths.Search` | graph/paths.go:8-29 | every reached node gets a parent one edge nearer a root, at its shortest distance, the first found of those that lead to it |
| `SearchOrder.KeptIsEarliest` | graph/paths.go:3-6 | of two equally short walks the chain of parents is the one through the earlier root, or the earlier edge where they part |
| `SearchOrder.KeptInOrder` | graph/paths.go:18-29 | of two nodes equally far, the one found first has the earlier walk |
| `SearchOrder.FoundNext` | graph/paths.go:22-27 | a neighbour met for the first time keeps the order in which nodes are found |
| `Paths.ReadBack` | graph/paths.go:35-38 | reads the chain of parents back up to the first empty id |
| `Paths.ChainAnswers` | graph/paths.go:30-41 | a chain of parents is a shortest walk where no empty id is on it, and otherwise never one |
| `Paths.EmptyIdCutsWalks` | graph/paths.go:7-42 | on a graph of two edges in a row whose middle node has the empty id, the entry returned for the last node is not a walk from the root |
| `Tree.GraphTree.Root` | graph/pretty.go:127-153 | either side of the tree expands every node reached from the root exactly once, at its breadth-first depth, and draws every edge that leaves a reached node on exactly one line; below each node the lines come in the order its edges are arranged in, and a node is expanded on the first line from the top that leads to it from one level nearer |
| `Tree.GraphTree.Side` | graph/pretty.go:127-153 | the same of one direction, whose depths and expanded nodes start afresh |
| `Tree.GraphTree.Children` | graph/pretty.go:177-199 | the lines under a node are its leaving edges in their order; a neighbour is expanded exactly on a line to the next depth that finds it unexpanded, so on the first |
| `Tree.DirectionalDepths` | graph/pretty.go:155-174 | the nodes in reach and their shortest distances from the root |
| `Tree.GraphTree.constructor` | graph/pretty.go:114-125 | the edges are indexed by each of their ends, in order |
| `Tree.AllExpanded` | graph/pretty.go:177-199 | a walk that expands only to the next depth still expands everything in reach, and draws each edge as often as the graph has it |
| `Tree.MeasuredIsExpanded` | graph/pretty.go:177-199 | every node with a depth is expanded, since a nearer neighbour of it is |
| `Tree.AllLeavingCounts` | graph/pretty.go:114-125 | distinct nodes between them draw each edge that leaves one of them as often as the graph has it |
| `Syntax.ReadsBack` | pretty_expr.go:41-57 | tokens written with enough parentheses for a grammar parse to the tree they were written for |
| `Syntax.Unambiguous` | pretty_expr.go:41-57 | one token sequence groups in one way |
| `Parsing.ParsesExactlyReadings` | pretty_expr.go:41-57 | a grammar reads a token sequence as an expression exactly when the sequence is a writing of it with enough parentheses |
| `Parsing.ReadsExactlyWhenEnough` | pretty_expr.go:41-57 | a writing reads back as the expression it was written for exactly when its parentheses are enough for the grammar |
| `Parsing.WritingIsUnique` | pretty_expr.go:41-57 | the tokens and the expression determine which parentheses were written |
| `Printing.RoundTripsExactlyWhenUnarySafe` | pretty_expr.go:10-57 | in any grammar that agrees with the rank table an expression reads back from its text, up to left-regrouping of && and of \|\| chains, exactly when no unary operator stands bare before an operator that binds as tightly or tighter |
| `Printing.PrintThenParse` | pretty_expr.go:10-57 | for any grammar that agrees with the rank table, groups `**` to the right and all else to the left, ranks the unranked operators wherever it likes and binds unary operators tightest, printing and parsing gives the tree back up to left-regrouping of && and of \|\| chains; which parentheses it takes is `PrinterParens.NoParensAreNeedless` |
| `Printing.RoundTripsExactlyWhenUnaryBindsTightest` | pretty_expr.go:10-16 | every tree reads back in exactly the agreeing grammars whose unary operators bind tighter than all binary ones |
| `Printing.LooserUnaryMisreads` | pretty_expr.go:10-16 | in a grammar of looser unary operators a bare unary left operand is read as an operand of the binary operator inside it |
| `Printing.LayoutReads` | pretty_expr.go:51-57 | the parentheses that the table calls for are enough on either side of every operator, unless a unary operator is in the way |
| `Printing.RegroupPrintsAlike` | pretty_expr.go:94-106 | regrouping an && or \|\| chain to the left does not change the text |
| `Printing.SameTextExactlyWhenSameUpToChains` | pretty_expr.go:94-106 | two trees print the same tokens exactly when they differ only in the grouping of && and \|\| chains |
| `PrinterParens.LeftParensExactlyWhenMisleading` | pretty_expr.go:94-106 | a binary left operand is printed in parentheses exactly when the bare tokens are read as something else, up to the grouping of chains, by some grammar that agrees with the table and binds unary operators tightest |
| `PrinterParens.RightParensExactlyWhenMisleading` | pretty_expr.go:94-106 | so is a binary right operand |
| `PrinterParens.NoParensAreNeedless` | pretty_expr.go:10-57 | of the parentheses in the text of any expression no pair can be left out: some such grammar reads the text as the expression, but not the text without the pair |
| `PrinterParens.RoundTripsExactlyWhenAgreeing` | pretty_expr.go:59-92 | every structured expression reads back in exactly the grammars that agree with the table and bind unary operators tightest |
| `PrinterParens.LooserEqualityMisreads` | pretty_expr.go:59-92 | in a grammar that ranks == looser than < the text of (a == b) < c is read as a == (b < c) |
| `PrinterParens.RankedExactlyWhereGoAndCAgree` | pretty_expr.go:59-92 | of the operators that Go and C have, exactly those are ranked that the two do not rank contrarily to a ranked one |
| `GoLowering.LowerPrintParse` | golang/expr.go:63-103 | lowering a Go expression, printing it and parsing it under Go's precedence gives the expression with its parentheses erased and its && and \|\| chains left-grouped, parts kept as source text included |
| `GoLowering.LowerNode` | golang/expr.go:63-92 | lowers as the specification of lowering says, by kind of expression, of which `GoLowering.StructuredIsLowered` and `GoLowering.KeptExactlyWithoutCounterpart` say what comes back structured |
| `GoLowering.Operand` | golang/expr.go:94-103 | an operand kept as the text of a binary expression is parenthesised |
| `GoLowering.LowerCall` | golang/expr.go:135-153 | every argument is lowered, in order |
| `GoLowering.LoweredText` | golang/expr.go:57-61 | an expression without a variant keeps exactly the source text inside its parentheses |
| `GoLowering.StructuredIsLowered` | golang/expr.go:15-20 | an expression of names, literals, calls and operators that have a counterpart is lowered to just that expression, without its parentheses, and nothing of it is kept as text |
| `GoLowering.KeptExactlyWithoutCounterpart` | golang/expr.go:63-92 | an expression is kept as source text exactly when inside its parentheses it is of another kind, applies &^, or applies one of the unary ^, &, * and <- |
| `GoLowering.OnlyUnstructuredIsKept` | golang/expr.go:63-103 | at any depth, what the lowered expression holds as text is the text of such a part of the Go expression |
| `GoLowering.LowerTextsClosed` | golang/expr.go:94-103 | a text kept under an operator reads as one operand wherever it is printed |
| `GoLowering.GoAgrees` | golang/expr.go:155-174 | Go's five precedence levels agree with the printer's table |
| `StatementWalk.WalkStatements` | walk_stmt.go:29-32 | shows the visitor exactly the visits of the specification, the counter ending at their number; which guards those carry is fixed by `StatementDecisions.EnteredExactlyWhenGuarded` |
| `StatementWalk.StatementWalker.Walk` | walk_stmt.go:45-55 | a statement is visited with the next number, and what is inside it exactly when the visitor accepts |
| `StatementWalk.StatementWalker.Inside` | walk_stmt.go:77-121 | the parts of each kind of statement are walked in order under their own guards and loops, which are just those that decide whether the part is run |
| `StatementWalk.StatementWalker.SwitchCases` | walk_stmt.go:126-145 | the value, then each case's condition and its body under that case's guards |
| `StatementWalk.CollectMatches` | walk_stmt.go:126-135 | the matches of every case that has a condition |
| `StatementWalk.BodyGuards` | walk_stmt.go:136-145 | a case is guarded by its match, a default by the negation of any match, and by nothing when no case has a condition |
| `StatementScopes.WalkVisits` | walk_stmt.go:22-55 | every visit is to a nested statement, numbered 0, 1, 2, ... in pre-order without repetition, with the guards of its path and as many loops as loop bodies enclose it |
| `StatementScopes.WalkSkips` | walk_stmt.go:45-55 | a nested statement is visited exactly when the visitor accepts every statement around it |
| `StatementScopes.NeverSkipping` | walk_stmt.go:22-55 | a visitor that never skips is shown every nested statement |
| `StatementScopes.VisitedExactlyInside` | walk_stmt.go:45-55 | below a visited statement the next one is visited exactly when the one around it was accepted |
| `StatementScopes.ScopeAlong` | walk_stmt.go:234-248 | guards and loops accumulate along the path, outermost first |
| `StatementExecution.GuardsHeldWhenEntered` | walk_stmt.go:10-20 | on every run through if, switch, while, for, foreach, try and nesting, each guard the walk gave a reached statement held in the state in which its construct was entered |
| `StatementExecution.FaithfulMachine` | walk_stmt.go:267-280 | whatever the other expressions mean, some machine gives the negations, disjunctions and comparisons of the guards their meaning |
| `StatementExecution.ReachedIsVisited` | walk_stmt.go:22-55 | a walk that skips nothing visits every statement any run reaches |
| `StatementExecution.ExecHeld` | walk_stmt.go:77-145 | every event of an execution entered its path under the guards along it |
| `StatementExecution.SelectedGuardsHold` | walk_stmt.go:126-145 | the guards of the body that a switch selects, its default included, hold when it is selected |
| `StatementExecution.AnyOfHolds` | walk_stmt.go:274-280 | the disjunction of several expressions holds exactly when one of them does |
| `StatementExecution.MatchHolds` | walk_stmt.go:267-272 | a case's match holds exactly when the case would be taken |
| `StatementDecisions.EnteredExactlyWhenGuarded` | walk_stmt.go:77-121 | on every run, a then, else, loop, update or case body is entered exactly when all that its construct evaluates first ended normally and the guards the walk adds for that body hold in the state of the choice; of a switch the first such body |
| `StatementDecisions.CaseHoldsExactlyWhenGuarded` | walk_stmt.go:123-145 | the guards the walk adds for a case's body hold exactly when the case would be taken, those of a default exactly when no case with a condition would |
| `StatementDecisions.CaseGuardsExactly` | walk_stmt.go:123-145 | the same of the guards that the specification gives a case |
| `StatementDecisions.SelectedExactly` | walk_stmt.go:123-145 | a switch selects a body exactly when its guards hold and those of none before it do |
| `StatementDecisions.UpdateUnderBody` | walk_stmt.go:22-28 | a for loop's update is walked under the guards of its body |
| `StatementDecisions.AddedAre` | walk_stmt.go:234-248 | a visit below another adds the guards of the part it visits to those around it, innermost last |
| `Registry.KindTable.Register` | registry.go:39-52 | refuses an empty kind, a kind or a type registered before, and otherwise keeps kinds and types inverse to each other |
| `Registry.LongestRegisteredPrefix` | registry.go:218-229 | cutting at the last colon until a kind is registered finds the specified prefix |
| `Registry.LongestRegisteredIsLongest` | registry.go:216-229 | that prefix is registered, is the kind or cut from it at a colon, and no longer registered one is |
| `Registry.RefinesExactly` | registry.go:196-214 | a kind is refined by what it lists across hierarchies and by what extends it at a colon unless a finer registered kind claims it |
| `CodecStream.Decoder.ReadValue` | codec_stream.go:21-47 | a document of any field type decodes as the codec's functions say |
| `CodecStream.Decoder.ReadSlot` | codec_stream.go:68-114 | null is absent, a tagged first member decodes under its kind and must be alone, any other slot goes through the registry; by `CodecAcceptance.SlotStandsFor` that accepts just what stands for a slot |
| `CodecStream.Decoder.ReadLegacySlot` | codec_stream.go:116-148 | an inline statement is put together again member by member, losing none |
| `CodecStream.Decoder.ReadByType` | registry.go:97-155 | the discriminator names the kind, a refinement is checked and moved to where the decoder reads the type |
| `CodecStream.Decoder.CheckBlock` | codec_stream.go:175-190 | a refinement replaces only the block's own kind, and the type must then be empty, the kind or refine it |
| `CodecStream.Decoder.ReadStatement` | codec_stream.go:192-245 | a kind's decoder fills its fields and type, and a block checks its kind |
| `CodecStream.Encoder.WriteSlot` | codec_stream_encode.go:87-107 | a statement is held under its kind with its own type, its kind when it has none, and refused when the type does not refine the kind |
| `CodecStream.Encoder.StampBlock` | codec_stream_encode.go:251-263 | a block is stamped with its kind, a type refined past it returned as the refinement, any other refused |
| `CodecStream.Encoder.WriteStatement` | codec_stream_encode.go:265-292 | a block writes its kind and its refinement, any other statement the type given |
| `CodecStream.Encoder.WriteItems` | codec_stream_encode.go:29-42 | children are written in order, up to the first failure |
| `CodecStream.Encoder.WriteInline` | registry.go:71-95 | a marshalled statement is stamped with its kind and keeps a refined type beside it |
| `CodecStream.Encoder.Stamp` | codec_stream_encode.go:172-224 | a leading field replaces the value's own member of that name and keeps all others |
| `CodecStream.MovedDecodes` | registry.go:126-155 | decoding with the refinement moved under the discriminator gives the statement of that kind with the refinement for its type |
| `CodecRoundTrip.RoundTrip` | codec_stream.go:68-206 | what is encoded, in either layout, decodes to the same tree with unset types filled in |
| `CodecRoundTrip.FillChangesOnlyUnset` | codec_stream.go:157-173 | filling in changes nothing exactly where every slot and every block carries a type |
| `CodecRoundTrip.EncodesExactlySound` | codec_stream_encode.go:87-107 | encoding succeeds exactly when every slot's and block's type refines its kind and no slot is absent, and then writes the layout's document |
| `CodecRoundTrip.DecodesExactlySound` | codec_stream.go:150-206 | a document of the layout is refused exactly when some type in it does not refine its kind |
| `CodecRoundTrip.AcceptedIsSound` | codec_stream.go:157-190 | whatever document is accepted, every type that a slot or a block in the result carries is its kind or refines it, and every slot carries one unless some kind accepts the empty kind as a refinement |
| `CodecRoundTrip.SlotsTypedExactly` | codec_stream.go:157-173 | every slot of whatever is accepted carries a type exactly when no kind accepts the empty kind as a refinement |
| `CodecRoundTrip.LayoutsDecodeAlike` | codec_stream.go:49-53 | the tagged and the legacy layout of one value decode alike, in whatever order their members come |
| `CodecRoundTrip.MarshalRoundTrip` | registry.go:71-155 | a statement marshals exactly when it is sound and whole, and comes back by its discriminator with its refined type |
| `CodecRoundTrip.EncodedSlot` | codec_stream_encode.go:87-107 | in the tagged layout a slot is an object whose one member is the statement under its kind; in the legacy layout it carries its kind as the discriminator and no member that a slot would have |
| `CodecAcceptance.DecodesExactlyWhatItStandsFor` | codec_stream.go:21-114 | any document at all decodes to a value exactly when it stands for it: null for what is absent, an object for the fields it names, a slot's one member or the discriminator for the kind |
| `CodecAcceptance.SlotStandsFor` | codec_stream.go:68-114 | the same of a slot |
| `CodecAcceptance.AcceptedSlot` | codec_stream.go:68-114 | a slot decodes only from null, from an object whose single member is the value's registered kind, or from an inline object whose discriminator names it |
| `CodecAcceptance.RefusedSlots` | codec_stream.go:79-105 | a slot of two kinds, one without members, one of an unregistered kind and one without a discriminator are refused |
| `CodecAcceptance.PassedOver` | codec_stream.go:21-47 | a member that is no field changes nothing, and a null list or record reads as empty |
| `SlotUnwrapping.UnwrapsToLegacy` | assertion_env.go:32-58 | rewriting the tagged document gives the legacy one exactly when no plain field reads as a slot |
| `SlotUnwrapping.UnwrapObject` | assertion_env.go:37-52 | a tagged statement is stamped and rewritten, any other object member by member |
| `SlotUnwrapping.UnwrappedHasNoSlots` | assertion_env.go:37-72 | no slot is left at any depth |
| `SlotUnwrapping.UnchangedExactlyWithoutSlots` | assertion_env.go:60-72 | a value is left as it is exactly when it holds no slot |
| `ExportApi.ApiReferences` | indexer/export_api.go:20-34 | on any type graph, cyclic or not, the walk ends with exactly the other packages whose named types the exported types expose over any number of exposed edges |
| `ExportApi.ApiWalker.Walk` | indexer/export_api.go:36-75 | walking a type covers it and keeps all that was covered |
| `ExportApi.ApiWalker.NamedType` | indexer/export_api.go:79-103 | another package's type is recorded, the package's own is gone through once, type arguments always |
| `ExportApi.ApiWalker.Open` | indexer/export_api.go:79-103 | what is seen is not gone through again, and what is gone through is covered |
| `ExportApi.ApiWalker.Fields` | indexer/export_api.go:50-57 | exactly the exported and the embedded fields are followed |
| `ExportApi.ApiWalker.Methods` | indexer/export_api.go:105-114 | the signatures of exactly the exported methods are followed |
| `ExportApi.CoveredExposes` | indexer/export_api.go:36-75 | whatever a covered type exposes is covered, which makes marking types seen before walking them safe |
| `ExportApi.AllNamedAreFound` | indexer/export_api.go:20-34 | every package named in reach is recorded |
| `ExposedTypes.ExposesExactlyWhatIsMet` | indexer/export_api.go:36-126 | the walk follows exactly what code of another package meets of a type in one step, by kind of type: elements, keys, parameters and results, terms, constraints, exported and embedded fields, exported methods, type arguments, and of the package's own named types what their origin opens up |
| `ApiShape.ReferencesOf` | indexer/export_api.go:20-34 | lists exactly the packages that the exported types name, each once with its path, in path order |
| `ApiShape.KeyedIsNamed` | indexer/export_shape.go:125-143 | a proven package is keyed by exactly the packages that its exported types name |
| `ApiShape.ShapeDependsOnApis` | indexer/export_shape.go:93-192 | loads whose packages in the keying closure have the same APIs if proven, and the same files and imports if not, give one shape |
| `ExportShape.ExportShapes.Of` | indexer/export_shape.go:49-71 | whatever is in the memo, the shape is the one that plain recursion gives, which by `ExportShape.OneShapeExactlyWhenAlike` tells apart whatever it digests |
| `ExportShape.ExportShapes.WorkspaceShape` | indexer/export_shape.go:96-123 | for a proven package the plain recursion's shape, which tells its exported symbols and the shapes of what its API names |
| `ExportShape.ExportShapes.ReferencedShapes` | indexer/export_shape.go:127-143 | the shapes of exactly the packages that the API names, in order, each of which must have been walked |
| `ExportShape.ExportShapes.Index` | indexer/export_shape.go:146-154 | the import closure of a package is recorded whole, however much of it was |
| `ExportShape.ExportShapes.ImportsOf` | indexer/export_shape.go:74-91 | the direct imports of all variants, each pair of path and shape once, in order of first appearance |
| `ExportShape.ExportShapes.UnprovenWorkspace` | indexer/export_shape.go:156-167 | for an unproven package the plain recursion's shape, by its files and its direct imports' shapes |
| `ExportShape.ShapesInOrder` | indexer/export_shape.go:49-71 | every order of calls gives each package the shape of the plain recursion |
| `ExportShape.ShapeDependsOnKeyed` | indexer/export_shape.go:93-192 | loads that agree on the keying closure, API references if proven and direct imports if not, give one shape |
| `ExportShape.EditKeepsProvenShape` | indexer/export_shape.go:93-123 | editing the files of a proven package changes no shape |
| `ExportShape.OneShapeExactlyWhenAlike` | indexer/export_shape.go:49-167 | two packages, of one load or two, have one shape exactly when they are of one class and agree on what that class digests: the toolchain; module, version and toolchain; the path; the exported pairs and the path and shape of each package the API names, in order; or the path, the files and the multiset of the imports' shapes |
| `ExportShape.KeyedShapesShow` | indexer/export_shape.go:93-167 | along any chain of packages that key one another, each has the shape of one on a chain from any package of equal shape |
| `ExportShape.ChangesShow` | indexer/export_shape.go:41-48 | if a package has one shape in two loads, every shape in its keying closure in one is in that of the other, so no change of a package it is keyed by goes unnoticed |
| `InterfaceIndex.Index.constructor` | indexer/implements.go:170-180 | each name leads to the candidates that have a method of it, once for each |
| `InterfaceIndex.Index.CountHits` | indexer/implements.go:183-192 | a candidate is hit once for every pair of a method of the type and a method of it with one name |
| `InterfaceIndex.Index.SatisfiedBy` | indexer/implements.go:183-205 | in candidate order, those hit as often as they have methods that the type check admits |
| `InterfaceIndex.FindsExactlyWhenHit` | indexer/implements.go:162-205 | the index finds what testing every candidate finds, in its order, exactly when each implemented candidate has methods and is hit as often as it has |
| `InterfaceIndex.FindsExactlyWhenNamedOnce` | indexer/implements.go:162-205 | where implementing an interface needs its names, the index finds what testing every candidate finds exactly when each implemented candidate has methods and the type has one method of each of their names |
| `InterfaceIndex.FindsWhatNaiveFinds` | indexer/implements.go:162-205 | with distinct names in the method set, candidates that have methods, and implementing one needing its names, the index equals the naive search |
| `InterfaceIndex.MissesRepeatedNames` | indexer/implements.go:193-197 | two methods of one name make it miss an implemented interface |
| `Candidates.CandidateInterfaces` | indexer/implements.go:99-130 | exactly the admitted interfaces of the packages that the variants reach without passing through a sibling, each package listed once |
| `Candidates.CandidateWalk.Visit` | indexer/implements.go:103-119 | a visit ends on any import graph and leaves everything visited closed under the imports it follows |
| `Candidates.CandidateExactly` | indexer/implements.go:86-120 | an interface is a candidate exactly when a package that is reached has it and is the root's, or exports it and is keyed by version, or is a shaped sibling and exports all its methods too |
| `Deltas.CreateDeltas` | indexer/modules_sources.go:53-81 | a set row for each key that is new or changed, a delete row for each that is gone, and no other |
| `Deltas.RowsResolve` | indexer/implements_publish.go:65-83 | rows against what a chain resolves to, laid on that chain, resolve to the new table |
| `Deltas.RowsAreLeast` | indexer/implements_publish.go:65-83 | no fewer rows laid on a chain make the new table of it |
| `SourceRevisions.RevisionTable.SourceRevisionsOf` | indexer/modules_sources.go:16-51 | every path gets a revision of exactly its file, the base's where that is unchanged, and the call fails exactly when a file said to be retained is not its base's |
| `SourceRevisions.RevisionTable.Intern` | indexer/modules_sources.go:34-48 | a key has one revision, inserted when it has none |
| `SourceRevisions.DeltasAreChanges` | indexer/modules_sources.go:53-81 | rows are written for exactly the paths whose file is new or changed, or gone |
| `Publication.Database.LoadModuleBase` | indexer/modules_locations.go:39-71 | the base is the location's own head, else the primary location's, else none, and must be of the root |
| `Publication.Database.AdvanceHead` | indexer/modules_locations.go:74-96 | succeeds exactly when the head is as it was loaded, raising its version by one, and changes nothing otherwise |
| `Publication.Database.CreateSnapshot` | indexer/implements_publish.go:18-63 | a new snapshot carries exactly the rows that differ from its base's sources and implements pairs, and the count of its pairs |
| `Publication.FactPairs` | indexer/implements_publish.go:18-27 | every fact becomes its pair of handles, and a missing handle is an error |
| `Publication.Database.Publish` | indexer/publication.go:113-169 | one publication commits its snapshot and its head together, or nothing |
| `PublicationRuns.RunKeeps` | indexer/modules_locations.go:30-96 | every run of interleaved publishers and prunes keeps the system valid |
| `PublicationRuns.StepKeeps` | indexer/publication.go:113-169 | each step of any publisher and any prune does |
| `PublicationRuns.HeadsMoveByCommits` | indexer/modules_locations.go:73-96 | a head's version rises by exactly one, and its snapshot changes, exactly when a publication of its location commits, whose base is the head before; a failed one leaves the store as it was, and no prune touches a head |
| `PublicationRuns.CommitsExactly` | indexer/publication.go:113-169 | a publication commits exactly when its id is new, no other head of its location came since its base was loaded, and the base is there with a chain within the cap |
| `PublicationRuns.HistoricalCommitsExactly` | indexer/publication.go:36-51 | a publication that leaves heads alone goes through exactly when its id is new and the base it asks for, or else the one loaded, is there, is of its root and has a chain within the cap |
| `PublicationRuns.BeginLoads` | indexer/modules_locations.go:39-71 | a publisher starts from its location's last head, or where there was none from that of the root's primary location |
| `PublicationRuns.PrimaryIsFirst` | indexer/modules_locations.go:162-168 | the primary location of a root is the first that was registered for it, whatever happens later |
| `PublicationRuns.NewSnapshotIsPublishers` | indexer/publication.go:113-169 | a snapshot that joins the store is of its publisher's root and location, on its base or the one it asked for |
| `PublicationRuns.SupersededIsBase` | indexer/modules_locations.go:39-96 | after any run the head of a location is there, each superseded head is its successor's base or was pruned, which leaves the successor without a base, and the version counts the heads there were |
| `PublicationRuns.LoadedHead` | indexer/modules_locations.go:73-96 | a loaded head of the current version is the current head, so comparing versions is enough |
| `PublicationRuns.ReadsWhatWasPublished` | storage/effective_sources.go:17-68 | after any run, folding the rows of a snapshot's base chain newest first gives the very sources and implements pairs it was published with, unless the chain passes the cap, which is an error |
| `PublicationRuns.ReadsNeverChange` | storage/prune_history.go:40-45 | in a system that starts with nothing, whatever any publisher and any prune do later, a snapshot that is still there reads the same sources and implements pairs, and only prunes take snapshots away |
| `PublicationRuns.PrunesExactlyReadable` | storage/prune_history.go:181-213 | a prune goes through exactly when it deletes nothing or every snapshot of the root that it keeps has a chain within the cap |
| `PublicationRuns.PruneKeeps` | storage/prune_history.go:38-45 | a prune that keeps every head keeps the system valid, publishers under way included |
| `Pruning.PruneHistory` | storage/prune_history.go:46-73 | one prune makes all of its changes or none, keeps the heads, and reports how many snapshots it kept, rebased and deleted |
| `Pruning.KeptSnapshots` | storage/prune_history.go:124-178 | keeps exactly the snapshots that the dependencies of a surviving one lead to over any number of steps, which are all of other roots, the heads, the newest, and the historical if so asked |
| `Pruning.NewestSnapshots` | storage/prune_history.go:127-134 | exactly the snapshots that are not analyses and have fewer than keep newer ones that are not |
| `Pruning.ReadKept` | storage/prune_history.go:181-213 | reads what each kept snapshot that loses its base serves, and fails exactly where a kept snapshot cannot be read |
| `Pruning.Apply` | storage/prune_apply.go:19-48 | rebases exactly the snapshots read, and deletes exactly those planned |
| `Pruning.PruningKeepsReads` | storage/prune_history.go:38-43 | every snapshot that pruning leaves, of the root or of another, reads as before, errors included |
| `Pruning.ResolvesAlike` | storage/prune_apply.go:46-48 | by way of any chain left, rebased or not, rows resolve to what they did, over no more links |
| `Pruning.LeavesBases` | storage/prune_apply.go:46-48 | no snapshot that is left has lost its base |
| `Pruning.ServedAreNotUnused` | storage/prune_apply.go:209-233 | the revisions deleted as unused are none that a remaining snapshot serves |
| `SymbolGenerations.DeltaRows` | indexer/symbol_deltas.go:184-239 | a row for exactly the symbols that differ, each with the generation next on the base's chain; fails exactly for a deletion the chain never named |
| `SymbolGenerations.RowsAreNeeded` | indexer/symbol_deltas.go:184-239 | whatever rows make the chain define the new table have one for each symbol that these have |
| `SymbolGenerations.GenerationsCount` | storage/symbol_generations.go:36-58 | after any history a symbol's generation counts the publications that brought it into being, again or for the first time, or changed its content |
| `SymbolGenerations.AlwaysPublishes` | indexer/symbol_deltas.go:222-240 | every history of tables can be published, so numbering never fails on a chain that defines its table |
| `SymbolGenerations.SymbolHistory` | storage/symbol_generations.go:189-207 | keeps the rows at which the generation passed all before |
| `SymbolGenerations.HistoryIsRenewals` | storage/symbol_generations.go:171-207 | a symbol's history lists exactly the publications that renewed it, numbered 1, 2, 3 and so on, in order |
| `SymbolGenerations.CountsOnExactlyUnlessDeleted` | storage/prune_apply.go:46-108 | a snapshot made to stand alone defines what it did, and whatever is published on it counts a symbol on exactly when the symbol was defined there or never named |
| `SymbolGenerations.DeletedSymbolCountsAnew` | storage/prune_apply.go:94-101 | a symbol deleted, and added again after the deleting snapshot was rebased, counts 1 where it would count 2 |
| `PublicationRuns.EmptyIsValid` | indexer/modules_locations.go:30-96 | the system that starts with nothing is valid, so what every run keeps holds of every run from it |
| `PublicationRuns.NewResolves` | indexer/implements_publish.go:15-63 | a new snapshot on any base resolves to what it was published with |
| `BaseChains.ChainIsWhole` | storage/effective_sources.go:14-30 | the walk follows the whole chain unless it has more links than the cap |
| `BaseChains.ReadsExactlyLinked` | storage/effective_sources.go:14-64 | in any store a chain is read exactly when its bases link the snapshot to one without a base, in at most as many links as the cap and all of one root |
| `PublicationRuns.BaseLoads` | indexer/modules_locations.go:39-71 | a registered location's base always loads |
| `PublicationRuns.UnchangedWritesNoRows` | indexer/publication_carry.go:11-42 | publishing again what the base holds writes no source and no implements rows, which is what carrying it forward writes |
| `ExternalDelta.DeltaExtraction` | indexer/external_delta.go:15-60 | refused exactly for a bad deletion or a touched package with an omitted path; else it yields the files, rows, content-set hash and context hash of the merged documents |
| `ExternalDelta.DeltaEqualsFull` | indexer/external_delta.go:15-60 | a delta is accepted exactly without a bad deletion or an omitted path of a touched package, and then equals the full publication of the merged documents, however these are listed |
| `ExternalDelta.FullExtraction` | indexer/external.go:103-140 | a full publication has a file for each document and a row for each package, sorted, and both hashes |
| `ExternalDelta.DeltaPaths` | indexer/external_delta.go:121-143 | fails exactly for a deletion that is invalid, repeated, published too or not of the base; else returns the deleted paths and every touched package, a package a path leaves included |
| `ExternalDelta.RetainedPackages` | indexer/external_delta.go:63-80 | the base's rows of exactly the untouched packages are kept |
| `ExternalDelta.PackagesWhollyReplacedOrRetained` | indexer/external_delta.go:62-80 | a package's merged documents are wholly the delta's when it is touched and wholly the base's when not |
| `ExternalDelta.EmptyDelta` | indexer/external_delta.go:82-93 | a delta that says nothing is accepted and keeps the base's documents |
| `ExternalDelta.PublishesDetermines` | indexer/external.go:103-140 | documents and configuration determine files, packages and both hashes |
| `ExternalDelta.MergedIsKeyed` | indexer/external_delta.go:15-60 | what a delta yields can be the base of the next |
| `ExternalDelta.BadExactlyUnlessEachTakesOne` | indexer/external_delta.go:121-143 | the deletions of a delta are good exactly when they are valid paths and each takes one document away, which the size of the merged documents shows |
| `ExternalDelta.IncompleteExactlyWhenMixed` | indexer/external_delta.go:27-45 | a delta omits part of a touched package exactly when of some package it leaves some documents as they are but not all, or gives some beside |
| `ExternalDelta.AffectedExactly` | indexer/external_delta.go:121-143 | a package is touched exactly when not all of its documents are retained or some are given |
| `ExternalDelta.OneContextExactly` | indexer/external_types.go:158-175 | two publications have one context hash exactly when their configurations are the same and their documents agree on path, package, content hash, Git path and content |
| `ExternalDelta.OneContentSetExactly` | indexer/hashes.go:27-44 | two publications have one content set exactly when their documents agree on path, package, content hash and Git path |
| `ExternalDelta.PublicationShows` | indexer/external.go:103-195 | every document is among the files as it is, and its package among the rows with the number of its documents |
| `ExternalDelta.ShapeShows` | indexer/external_types.go:177-194 | the export shape of a package's row shows exactly the symbols that its documents export, by id and public hash |
| `Hashes.SharedBytes` | internal/canonicalhash/hash.go:13-30 | different field sequences share bytes only where, at the first difference, one has a count and the other a text |
| `Hashes.CountReadsAsEmptyText` | internal/canonicalhash/hash.go:13-30 | a count of zero and an empty text share their bytes |
| `Hashes.ContentSetHash` | indexer/hashes.go:29-44 | the digest is fed the counted files and then the counted manifests |
| `Hashes.ContentSetDetermines` | indexer/hashes.go:27-44 | two content sets feed the same bytes exactly when their files and manifests are the same |
| `Hashes.PackageInputHash` | indexer/hashes.go:77-99 | the digest is fed the files sorted by path and the imports sorted by path and shape |
| `Hashes.PackageInputDetermines` | indexer/hashes.go:75-99 | two package inputs feed the same bytes exactly when configuration, path, the set of files and the set of imports are the same, in whatever order they come |
| `Hashes.ContextHash` | indexer/hashes.go:102-116 | the digest is fed every package with its input hash, packages sorted |
| `Hashes.ContextDetermines` | indexer/hashes.go:101-116 | two contexts feed the same bytes exactly when configuration and the input hash of every package are the same |
| `Columns.LongestIncreasingSubsequence` | diff/members.go:91-111 | marks exactly a strictly increasing subsequence of maximum length that ends at the earliest index where that length is reached |
| `Columns.FillRow` | diff/members.go:95-105 | one pass of the inner loop finds the longest subsequence ending at a position and the element before |
| `Columns.FillTable` | diff/members.go:92-105 | the table holds these lengths for every position, and the first position of the largest |
| `Columns.LongestIsUpperBound` | diff/members.go:91-111 | no increasing subsequence that ends at a position is longer than the table says |
| `Columns.PairByKey` | diff/members.go:36-53 | the n-th occurrence of a key before pairs with its n-th occurrence after, and nothing else pairs |
| `Columns.ReorderedColumns` | diff/members.go:55-87 | the moves reported, in after order, are a smallest set of paired columns whose removal leaves the rest in one order on both sides, and none exactly when no paired columns changed order |
| `Columns.InsertingOrDroppingMovesNothing` | diff/members.go:55-58 | among distinct keys, insertions and drops together move nothing |
| `Columns.DroppingMovesNothingExactly` | diff/members.go:55-58 | whatever columns are dropped nothing moves, exactly when the columns of one key stood next to each other |
| `Columns.InsertingMovesNothingExactly` | diff/members.go:55-58 | whatever columns are inserted nothing moves, exactly when the resulting columns of one key stand next to each other |
| `Columns.DroppingAndInsertingNewMovesNothingExactly` | diff/members.go:55-58 | whatever columns are dropped and whatever columns of new keys are inserted nothing moves, exactly when the columns of one key stood next to each other |
| `Columns.InsertingAndDroppingGoneMovesNothingExactly` | diff/members.go:55-58 | whatever columns are inserted and whatever columns are dropped whose keys do not come back nothing moves, exactly when the resulting columns of one key stand next to each other |
| `Columns.AnyChangeMovesNothingExactly` | diff/members.go:55-58 | where dropped columns may come back elsewhere, nothing moves whatever the change exactly when all columns have one key |
| `Columns.DroppingARepeatedColumnMovesAnother` | diff/members.go:55-58 | three columns of which dropping the first moves another |

## Left out

- Build: the excluded and unresolved tallies, In and Out counts, themes and the order in which merged steps are followed and sites sorted; any order is allowed, and edge ids are tuples where the source joins with `|`.
- Children: an edge end that is no node of the tree, which the source draws as an empty node (every edge end is assumed to be a node); the order of a node's edges by their first sites is a parameter that may be any rearrangement; labels and styles.
- Out: errors of the source and of the absorption test, and the wording of the cycle error.
- LowerPrintParse: characters (tokens are given), cast expressions, the escaping of string literals; a call's callee is one token, and one constructor stands for every kind kept as source text that binds as one operand.
- GuardsHeldWhenEntered: fallthrough, pointer statements, nil and unknown statements (a panic); case conditions are judged in one state, as the guards read them.
- RoundTrip: the tokens of the document (JSON is a datatype, the order of an object's members a function of the object), Node slots and relationships, omitted empty members, statements without a type field.
- UnwrapObject: the aliasing of maps rewritten in place.
- ApiReferences: promoted selectors, and go/types itself, which gives the type graph.
- Of: failures are stated one way, as impossible when every package an API names is in its import closure, which the type checker sees to; reading source files; standard-library and module shapes are constants of the package.
- SatisfiedBy: method sets and the type check are given functions.
- FactPairs: rows are a map, not a list sorted by handles.
- Publish: document deltas (the same rows on the same chain), diagnostics and statistics, dependency edges, retries after an allocation conflict, and path filters of readers.
- PruneHistory: deleting documents, postings, blobs and orphan symbols, package coverage, and the epoch; the snapshots of the root are given newest first, and what dependencies and analyses keep are parameters.
- DeltaRows: folding several declarations of one id, and comparing only changed packages.
- DeltaExtraction: the checks that the base is compatible, validation of symbols and documents, manifests; path keys and package paths are numbers in their sort order, and of a document's content all but its symbols is one text.
- ContentSetHash: SHA-256 (the digest stands for the bytes fed); the configuration hash.
- orderAfter, sibling order, the discovery loop over roots, worktrees, files, `go` and `git`: environment, not part of this model.
- Builders, enums, database scanning, the documentation site, the Java and Python ports and the database catalogue adapter: no state or branching worth a proof.
