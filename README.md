# github-team-visualizer: team hierarchy build and outline printers

This project models the core of github-team-visualizer in Dafny: the code
that turns an organisation's paginated team listing into a parent/child
graph and prints that graph as an indented outline. The core exists twice in
the repository:

- `print_team_tree` in src/chunk/teams.rs builds the graph, then calls a
  `print_nested_tree` that tracks depth with a stack of ancestor team ids.
- `main` in src/main.rs runs the same build inline, then calls its own
  `print_nested_tree`, which tracks depth with an unsigned counter.

Modules:

- `Model` (model.dfy): the listing items, pages and page responses, the node
  weight (`TeamNode`, the `TeamTreeNode` of src/chunk/util.rs), edges,
  panics, printed entries and lines.
- `Graph` (graph.dfy): the petgraph `Graph`, as a class whose node and edge
  sequences grow in place through `AddNode` and `AddEdge`.
- `Forest` (forest.dfy): the shared two-phase build.
  - Phase 1 adds the synthetic root (id 0, "Root (Not a team)", private, no
    parent). It then requests pages 1, 2, … and adds one node per item,
    recording `id -> index` in `flat_index`.
  - Phase 2 adds one edge into every non-root node: from the indexed parent
    with weight 1, or from the root with weight 0.
  - `BuildTeamTree` is the imperative build. It is proved equal to the
    specification function `Build`, and the lemmas state what `Build`
    guarantees.
- `TeamTree` (team_tree.dfy): the stack printer of src/chunk/teams.rs and
  `print_team_tree`.
- `App` (app.dfy): the counter printer of src/main.rs, `main`, and lemmas
  relating the two printers.

How the source's outside world is represented:

- Each page request is answered from an input sequence: page n is answered
  by `responses[n - 1]`. A request past the end, or a `FetchError` answer,
  is the source's "Failed to fetch teams!" panic, `FetchFailed(n)`.
- A page's `next` link is reduced to `hasNext`.
- petgraph's `Dfs` is represented by its visit order, a sequence of node
  indices given as input. A real run visits the root first.
- `println!` is represented by returning the printed lines. A printer
  returns `Output(lines, panic)`: the lines printed before a panic, and the
  panic, if any.
- Every source `panic!` or `unwrap` on `None` is an explicit `Panic` value:
  - `item.id.unwrap()` on an item without id;
  - an unresolved parent id;
  - `last().unwrap()` on an empty ancestor stack;
  - `spacer -= 1` at 0, which is an underflow panic in a debug build.

The model follows the code, which differs from the outline one would expect,
each team indented by its distance from the root:

- That outline needs a stack printer that empties the stack for a top-level
  team and pops in a loop until the parent is on top.
- The code does neither. A top-level team pops one ancestor
  (src/chunk/teams.rs:107-108), and a team whose parent is not the previous
  node pops at most once (src/chunk/teams.rs:111-112). `TopLevelAfterChain`
  shows the consequence: after Eng, Platform (under Eng) and Infra (under
  Platform), a top-level Design prints indented by 2 in src/chunk/teams.rs,
  and flush left in src/main.rs.
- `is_private` is set exactly for teams whose privacy is `Open`
  (src/chunk/teams.rs:41, src/main.rs:62). This is modelled as written.

## Model

| member | source | states |
|---|---|---|
| Model.ToNode | src/chunk/teams.rs:38-53 | an item yields a node exactly when it has an id; the node keeps id, name and parent id, and `isPrivate` holds exactly for `Open` privacy |
| Model.Indent | src/chunk/teams.rs:117 | `"  "` repeated n times is 2n characters, all spaces |
| Model.Line | src/chunk/teams.rs:115-119 | a printed line is 2·depth spaces followed by `"- "` and the team name, and nothing else |
| Model.Render | src/main.rs:138 | one printed line per entry, in order, each formatted as by `Line` |
| Model.Printed | src/chunk/teams.rs:99-105 | the nodes a printer reaches, kept in visit order, are at most as many as were visited, and each is a valid index of a node whose id is not 0 |
| Model.PrintedMembers | src/chunk/teams.rs:99-105 | a printer reaches exactly the visited nodes whose id is not 0: a node is printed if and only if it is visited, is a valid index and its id is not 0 |
| Graph.TeamGraph.constructor | src/chunk/teams.rs:11 | a new graph has no nodes and no edges |
| Graph.TeamGraph.AddNode | src/chunk/teams.rs:48-53 | `add_node` appends the weight and returns its index, the old node count; edges unchanged |
| Graph.TeamGraph.AddEdge | src/chunk/teams.rs:84-86 | `add_edge` between existing indices appends the edge with its weight; nodes unchanged |
| Forest.PageNodes | src/chunk/teams.rs:38-55 | a page either fails with MissingTeamId or yields one node per item; `PageNodesSpec` states when it fails and which nodes it yields |
| Forest.Fetch | src/chunk/teams.rs:23-61 | the page loop from a given page fails only with MissingTeamId or with a fetch failure at that page or a later one; `FetchAdvance`, `FetchCollectsPages`, `FetchStopsAtFailedPage` and `FetchStopsAtBadItem` state what it gathers and where it stops |
| Forest.IndexUpTo | src/chunk/teams.rs:54 | the index of the nodes below n maps each id to an index from 1 to n-1, never the root; `IndexUpToLastOccurrence` states which ids are keys and that the last duplicate wins |
| Forest.IndexOf | src/chunk/teams.rs:54 | `flat_index` maps each id to a non-root node index; `IndexOfAppend` and `IndexOfLastOccurrence` state its keys and values |
| Forest.EdgeFor | src/chunk/teams.rs:72-87 | a node's edge fails exactly when the node has a parent id that is not a key of `flat_index`, naming the node; otherwise it goes into the node, with weight 1 exactly when there is a parent, and from the root when there is none |
| Forest.EdgesUpTo | src/chunk/teams.rs:65-88 | the edge pass below n fails only with an unresolved parent and otherwise adds one edge per non-root node; `EdgesShape`, `EdgesFailureSticks` and `EdgesBeforeOrphan` state which edges and when it fails |
| Forest.Build | src/chunk/teams.rs:13-88 | a successful build starts with the root and has one edge fewer than nodes; `BuildShape`, `BuildRejectsOrphan` and `BuildAcceptsResolved` state its nodes and edges and when it fails |
| Forest.PageNodesSpec | src/chunk/teams.rs:38-55 | a page fails exactly when one of its items has no id, and then with MissingTeamId; otherwise it yields one node per item, in item order, each the item's `ToNode` |
| Forest.FetchAdvance | src/chunk/teams.rs:36-60 | one turn of the page loop appends the page's nodes, then stops when the page has no next link and otherwise continues with the following page |
| Forest.FetchCollectsPages | src/chunk/teams.rs:23-61 | when pages page..last are fetched, all but the last have a next link, and no item lacks an id, the gathered nodes are exactly those pages' items, in page and item order; nothing after `last` is requested |
| Forest.FetchStopsAtFailedPage | src/chunk/teams.rs:23-34 | when the pages before `failed` are fetched with next links and good items, and page `failed` is missing or fails, the build aborts naming page `failed`, whatever comes later |
| Forest.FetchStopsAtBadItem | src/chunk/teams.rs:23-39 | when the pages before `bad` are fetched with next links and good items, and page `bad` holds an item without id, the build aborts with MissingTeamId, whatever comes later |
| Forest.IndexOfAppend | src/chunk/teams.rs:54 | indexing one more node is the old index with that node's id mapped to its index, overwriting an earlier entry |
| Forest.IndexOfLastOccurrence | src/chunk/teams.rs:48-54 | `flat_index`'s keys are exactly the ids of the non-root nodes; each maps to an index of a node carrying that id, never the root's index 0, and no later node carries that id (the last duplicate wins) |
| Forest.IndexUpToLastOccurrence | src/chunk/teams.rs:48-54 | the same three facts for the index built from the nodes below any position n |
| Forest.EdgesFailureSticks | src/chunk/teams.rs:74-81 | once one node's parent fails to resolve, the whole edge pass fails with that node's error |
| Forest.EdgesShape | src/chunk/teams.rs:65-88 | after a successful edge pass the k-th edge goes into node k+1: from `flat_index[parent]` with weight 1, or from the root with weight 0 when there is no parent; the root is skipped |
| Forest.OneIncomingEdgeEach | src/chunk/teams.rs:65-88 | edges whose k-th element goes into node k+1 give the root no incoming edge and every other node exactly its own edge |
| Forest.BuildShape | src/chunk/teams.rs:15-88 | a successful build has the root first and then the fetched nodes; the root has no incoming edge; every other node has exactly one, from its indexed parent with weight 1 or from the root with weight 0 |
| Forest.IndexResolves | src/chunk/teams.rs:74-76 | a record's parent id is a key of `flat_index` exactly when some record has that id |
| Forest.EdgesBeforeOrphan | src/chunk/teams.rs:65-88 | the edge pass over a prefix succeeds when every parent in it is indexed |
| Forest.BuildRejectsOrphan | src/chunk/teams.rs:74-81 | when the first unresolvable record names a parent id that no record has (0 included, as the root is not indexed), the build fails naming that record |
| Forest.BuildAcceptsResolved | src/chunk/teams.rs:65-88 | when every record's parent resolves, the build succeeds |
| Forest.BuildTeamTree | src/chunk/teams.rs:9-88 | the imperative build ends with exactly the nodes, edges and `flat_index` of `Build`, or panics exactly when `Build` fails and with its error |
| Forest.AddAllPages | src/chunk/teams.rs:13-61 | the page loop requests pages 1, 2, … in turn, leaving the root followed by every fetched node, with `flat_index` matching; a failed fetch or an item without id panics |
| Forest.AddPageNodes | src/chunk/teams.rs:38-55 | the item loop appends one node per item and keeps `flat_index` matching the nodes; an item without id stops it with MissingTeamId |
| Forest.AddParentEdges | src/chunk/teams.rs:65-88 | the edge pass adds exactly the edges of `EdgesUpTo`, or stops with the unresolved-parent panic of the first failing node; nodes unchanged |
| TeamTree.StackStep | src/chunk/teams.rs:107-113 | per printed team the stack changes by at most one element. It pushes the previous id exactly when the parent is the previous team. It pops one (or stays empty) for a top-level team. It fails exactly when the team has a parent that is not the previous team and the stack is empty. When the stack is not empty, such a team keeps the stack exactly when its top is the parent, and otherwise pops one |
| TeamTree.StackVisit | src/chunk/teams.rs:99-121 | one loop turn adds at most one line. A node with id 0 leaves the state (current node, stack, lines) unchanged, and so does any turn after a panic. `StackPanicsAt` states when a turn ends the run in the empty-stack panic |
| TeamTree.StackRun | src/chunk/teams.rs:93-123 | after any prefix of the visit order, the last line's depth equals the stack length, which never exceeds the number of lines |
| TeamTree.PrintNestedTree | src/chunk/teams.rs:93-123 | the stack printer prints exactly the lines of `StackRun`, and stops with its panic |
| TeamTree.PrintTeamTree | src/chunk/teams.rs:9-91 | a failed build prints nothing and panics with the build's error; otherwise the output is the stack printer's over the built nodes from the root |
| TeamTree.StackPanicSticks | src/chunk/teams.rs:111 | once the stack printer has panicked, later visits change nothing |
| TeamTree.StackPanicsAt | src/chunk/teams.rs:107-111 | a team whose parent is given but is not the previous team, reached with an empty ancestor stack, ends the run in the EmptyParentStack panic naming it, with no line for it and none after |
| TeamTree.StackSkipsLeadingRoot | src/chunk/teams.rs:98-105 | visiting the root first, as the DFS does, leaves the run as if it were not visited |
| TeamTree.StackPrintsNonRootNodes | src/chunk/teams.rs:99-119 | one line per visited node whose id is not 0, in visit order and with its name; fewer lines exactly when the printer panicked |
| TeamTree.StackChainDepths | src/chunk/teams.rs:107-119 | a top-level team followed by teams each a child of the one before prints its k-th member at depth k, and the stack holds the ids of the earlier members, oldest first |
| App.CounterStep | src/main.rs:130-136 | the counter is 0 for a top-level team; it is incremented exactly when the parent is the previous team and decremented otherwise; it underflows exactly when it would go below 0 |
| App.CounterVisit | src/main.rs:122-141 | one loop turn adds at most one line. A node with id 0 leaves the state unchanged, and so does any turn after a panic. `CounterUnderflowsAt` states when a turn ends the run in the underflow panic |
| App.CounterRun | src/main.rs:116-142 | after any prefix of the visit order, the last line's depth equals the counter, which never exceeds the number of lines |
| App.PrintNestedTree | src/main.rs:116-142 | the counter printer prints exactly the lines of `CounterRun`, and stops with its underflow panic |
| App.Run | src/main.rs:31-111 | a failed build prints nothing and panics with the build's error; otherwise the output is the counter printer's over the built nodes from the root |
| App.CounterPanicSticks | src/main.rs:134-135 | once the counter has underflowed, later visits change nothing |
| App.CounterUnderflowsAt | src/main.rs:130-135 | a team whose parent is given but is not the previous team, reached with the counter at 0, ends the run in the SpacerUnderflow panic naming it, with no line for it and none after |
| App.CounterSkipsLeadingRoot | src/main.rs:121-128 | visiting the root first leaves the run as if it were not visited |
| App.CounterPrintsNonRootNodes | src/main.rs:122-140 | one line per visited node whose id is not 0, in visit order and with its name; fewer lines exactly when the counter underflowed |
| App.CounterChainDepths | src/main.rs:130-133 | a top-level team followed by teams each a child of the one before prints its k-th member at depth k, e.g. Eng, Platform, Infra at indents 0, 2, 4 |
| App.CounterNeverDeeperThanStack | src/main.rs:130-136 | on the same visit order the counter printer prints no more lines than the stack printer, each no deeper and with the same name, and has panicked whenever the stack printer has |
| App.TopLevelAfterChain | src/chunk/teams.rs:107-108 | after a chain of n teams, a top-level team prints flush in the counter printer but at depth max(n-2, 0) in the stack printer (Design under Eng after Eng/Platform/Infra) |

## Left out

- Authentication and the remote client (`gh_auth` in src/chunk/util.rs) are not modelled: each page request is answered from the `responses` input.
- The asynchronous `send().await` is not modelled, for the same reason.
- `pagination_limit` (src/chunk/util.rs) reads an environment variable. The page size has no bearing on the build, so it is not modelled.
- Command-line parsing (clap, src/lib.rs and src/main.rs:10-29) and the debug `eprintln!` are not modelled: they are I/O outside the core.
- petgraph's `Dfs` neighbour order is not derived from the edges. The printers take the visit order as input.
- TeamTree.PrintNestedTree: proved for any visit order of valid node indices, not only orders petgraph's `Dfs` can produce.
- App.PrintNestedTree: the same.
- `println!` is not modelled as output to a stream. The printed lines are returned in order.
- The `u32` page counter's overflow after 2^32 pages is not modelled. Page numbers are unbounded.
- App.CounterStep: models the `usize` underflow of `spacer -= 1` as the debug build's panic. A release build's wrap-around is not modelled; its `"  ".repeat` of a huge count would abort anyway.
- Edge weights (`u8`) and team ids are natural numbers. Only the values 0 and 1 occur as weights.
- Resetting the ancestor stack for a top-level team, and popping until the parent is on top, is not modelled: the code does neither. So the depth-equals-distance-from-root property is not claimed. `TopLevelAfterChain` shows where it fails.
- Reachability and acyclicity are not checked by the source, so they are not claimed. A parent cycle leaves its teams unreachable from the root; their edges are still added.
- The `TeamTreeNode` type's derived traits (src/chunk/util.rs) are not modelled: only its four fields are.
