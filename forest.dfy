/** The two-phase build shared by `print_team_tree` in src/chunk/teams.rs and
    `main` in src/main.rs: a synthetic root, one node per fetched team (with an
    id-to-index map), then one parent-to-child edge per non-root node. */
module Forest {
  import opened Model
  import opened Graph

  /** The outcome of a successful build: the graph's nodes and edges and the
      id-to-index map built beside it. */
  datatype Forest = Forest(nodes: seq<TeamNode>, index: map<nat, nat>, edges: seq<Edge>)

  function Prepend<T>(xs: seq<T>, r: Result<seq<T>, Panic>): Result<seq<T>, Panic>
  {
    match r
    case Success(ys) => Success(xs + ys)
    case Failure(e) => Failure(e)
  }

  lemma PrependTwice<T>(xs: seq<T>, ys: seq<T>, r: Result<seq<T>, Panic>)
    ensures Prepend(xs, Prepend(ys, r)) == Prepend(xs + ys, r)
  {
    if r.Success? {
      assert xs + (ys + r.value) == (xs + ys) + r.value;
    }
  }

  lemma PrependNothing<T>(r: Result<seq<T>, Panic>)
    ensures Prepend([], r) == r
  {
    if r.Success? {
      assert [] + r.value == r.value;
    }
  }

  // ---------------------------------------------------------------- phase 1

  /** The nodes one page adds, in item order; an item without id aborts. */
  function PageNodes(items: seq<TeamItem>): (r: Result<seq<TeamNode>, Panic>)
    ensures r.Failure? ==> r.error == MissingTeamId
    ensures r.Success? ==> |r.value| == |items|
  {
    if items == [] then Success([])
    else
      match ToNode(items[0])
      case None => Failure(MissingTeamId)
      case Some(n) => Prepend([n], PageNodes(items[1..]))
  }

  /** A page fails exactly when one of its items has no id; otherwise it adds
      one node per item, in item order. */
  lemma {:induction false} PageNodesSpec(items: seq<TeamItem>)
    ensures PageNodes(items).Failure? <==> exists k :: 0 <= k < |items| && items[k].id.None?
    ensures PageNodes(items).Failure? ==> PageNodes(items).error == MissingTeamId
    ensures PageNodes(items).Success? ==> |PageNodes(items).value| == |items|
    ensures PageNodes(items).Success? ==>
      forall k :: 0 <= k < |items| ==> ToNode(items[k]) == Some(PageNodes(items).value[k])
  {
    if items != [] {
      PageNodesSpec(items[1..]);
      assert forall k :: 1 <= k < |items| ==> items[k] == items[1..][k - 1];
      if items[0].id.Some? && PageNodes(items[1..]).Success? {
        var rest := PageNodes(items[1..]).value;
        forall k | 1 <= k < |items|
          ensures ToNode(items[k]) == Some(PageNodes(items).value[k])
        {
          assert items[k] == items[1..][k - 1];
        }
      }
    }
  }

  /** The nodes gathered from page `page` on: page n is answered by
      `responses[n - 1]`, a request past the last response fails, and the
      first page without a next link is the last one requested. */
  function Fetch(responses: seq<Response>, page: nat): (r: Result<seq<TeamNode>, Panic>)
    requires 1 <= page
    ensures r.Failure? ==> r.error == MissingTeamId || (r.error.FetchFailed? && page <= r.error.page)
    decreases |responses| + 1 - page
  {
    if page > |responses| then Failure(FetchFailed(page))
    else
      match responses[page - 1]
      case FetchError(_) => Failure(FetchFailed(page))
      case Fetched(p) =>
        match PageNodes(p.items)
        case Failure(e) => Failure(e)
        case Success(ns) => if !p.hasNext then Success(ns) else Prepend(ns, Fetch(responses, page + 1))
  }

  /** The map from team id to node index: every node but the root (index 0)
      is inserted in index order, so a later duplicate id wins. */
  function IndexOf(nodes: seq<TeamNode>): (r: map<nat, nat>)
    ensures forall id :: id in r ==> 1 <= r[id] < |nodes|
  {
    IndexUpTo(nodes, |nodes|)
  }

  /** The map after inserting the nodes below index `n`. */
  function IndexUpTo(nodes: seq<TeamNode>, n: nat): (r: map<nat, nat>)
    requires n <= |nodes|
    ensures forall id :: id in r ==> 1 <= r[id] < n
  {
    if n <= 1 then map[] else IndexUpTo(nodes, n - 1)[nodes[n - 1].id := n - 1]
  }

  /** Inserting the nodes below `n` only looks at those nodes. */
  lemma {:induction false} IndexUpToPrefix(a: seq<TeamNode>, b: seq<TeamNode>, n: nat)
    requires n <= |a|
    ensures IndexUpTo(a + b, n) == IndexUpTo(a, n)
  {
    if n > 1 {
      IndexUpToPrefix(a, b, n - 1);
      assert (a + b)[n - 1] == a[n - 1];
    }
  }

  lemma IndexOfAppend(nodes: seq<TeamNode>, n: TeamNode)
    requires |nodes| >= 1
    ensures IndexOf(nodes + [n]) == IndexOf(nodes)[n.id := |nodes|]
  {
    IndexUpToPrefix(nodes, [n], |nodes|);
    assert (nodes + [n])[|nodes|] == n;
  }

  // ---------------------------------------------------------------- phase 2

  /** The incoming edge of the non-root node `k`. */
  function EdgeFor(nodes: seq<TeamNode>, index: map<nat, nat>, k: nat): (r: Result<Edge, Panic>)
    requires k < |nodes|
    ensures r.Failure? <==> nodes[k].parentId.Some? && nodes[k].parentId.value !in index
    ensures r.Failure? ==> r.error == UnresolvedParent(nodes[k].name)
    ensures r.Success? ==> r.value.child == k && (r.value.weight == 1 <==> nodes[k].parentId.Some?)
    ensures r.Success? && nodes[k].parentId.None? ==> r.value.parent == 0
  {
    match nodes[k].parentId
    case Some(p) => if p in index then Success(Edge(index[p], k, 1)) else Failure(UnresolvedParent(nodes[k].name))
    case None => Success(Edge(0, k, 0))
  }

  /** The edges the edge pass adds for the node indices below `n`, skipping the root. */
  function EdgesUpTo(nodes: seq<TeamNode>, index: map<nat, nat>, n: nat): (r: Result<seq<Edge>, Panic>)
    requires n <= |nodes|
    ensures r.Failure? ==> r.error.UnresolvedParent?
    ensures r.Success? ==> |r.value| == if n <= 1 then 0 else n - 1
  {
    if n <= 1 then Success([])
    else
      match EdgesUpTo(nodes, index, n - 1)
      case Failure(e) => Failure(e)
      case Success(es) =>
        match EdgeFor(nodes, index, n - 1)
        case Failure(e) => Failure(e)
        case Success(edge) => Success(es + [edge])
  }

  /** The whole build: fetch every page, then index the nodes, then add the edges. */
  function Build(responses: seq<Response>): (r: Result<Forest, Panic>)
    ensures r.Success? ==> |r.value.nodes| >= 1 && r.value.nodes[0] == RootTeam
    ensures r.Success? ==> |r.value.edges| + 1 == |r.value.nodes|
  {
    match Fetch(responses, 1)
    case Failure(e) => Failure(e)
    case Success(records) =>
      var nodes := [RootTeam] + records;
      var index := IndexOf(nodes);
      match EdgesUpTo(nodes, index, |nodes|)
      case Failure(e) => Failure(e)
      case Success(edges) => Success(Forest(nodes, index, edges))
  }

  /** The edges whose child is `v`, in order. */
  function Incoming(edges: seq<Edge>, v: nat): seq<Edge>
  {
    if edges == [] then []
    else
      var e := edges[|edges| - 1];
      Incoming(edges[..|edges| - 1], v) + (if e.child == v then [e] else [])
  }

  /** The record `k` names no parent, or a parent id that some record has. */
  ghost predicate Resolves(records: seq<TeamNode>, k: nat)
    requires k < |records|
  {
    records[k].parentId.None? || exists i :: 0 <= i < |records| && records[i].id == records[k].parentId.value
  }

  // ------------------------------------------------------------ the method

  /** The build as the source runs it: the root, the page loop, then the edge pass. */
  method BuildTeamTree(responses: seq<Response>) returns (tree: TeamGraph, flatIndex: map<nat, nat>, panic: Option<Panic>)
    ensures Build(responses).Success? ==>
      && panic == None
      && tree.nodes == Build(responses).value.nodes
      && tree.edges == Build(responses).value.edges
      && flatIndex == Build(responses).value.index
    ensures Build(responses).Failure? ==> panic == Some(Build(responses).error)
  {
    tree := new TeamGraph();
    var rootNode := tree.AddNode(RootTeam);
    flatIndex, panic := AddAllPages(tree, responses);
    if panic.Some? {
      return;
    }
    panic := AddParentEdges(tree, flatIndex, rootNode);
  }

  /** The page loop: request pages 1, 2, ... and add their items until a page
      has no next link. */
  method AddAllPages(tree: TeamGraph, responses: seq<Response>) returns (flatIndex: map<nat, nat>, panic: Option<Panic>)
    requires tree.nodes == [RootTeam] && tree.edges == []
    modifies tree
    ensures tree.edges == [] && flatIndex == IndexOf(tree.nodes)
    ensures Fetch(responses, 1).Success? ==> panic == None && tree.nodes == [RootTeam] + Fetch(responses, 1).value
    ensures Fetch(responses, 1).Failure? ==> panic == Some(Fetch(responses, 1).error)
  {
    flatIndex := map[];
    var pageNumber: nat := 1;
    ghost var done: seq<TeamNode> := [];
    PrependNothing(Fetch(responses, 1));

    while true
      invariant 1 <= pageNumber <= |responses| + 1
      invariant tree.nodes == [RootTeam] + done && tree.edges == []
      invariant flatIndex == IndexOf(tree.nodes)
      invariant Fetch(responses, 1) == Prepend(done, Fetch(responses, pageNumber))
      decreases |responses| + 1 - pageNumber
    {
      if pageNumber > |responses| || responses[pageNumber - 1].FetchError? {
        assert Fetch(responses, pageNumber) == Failure(FetchFailed(pageNumber));
        return flatIndex, Some(FetchFailed(pageNumber));
      }
      var page := responses[pageNumber - 1].page;
      var ok;
      flatIndex, ok := AddPageNodes(tree, flatIndex, page.items);
      if !ok {
        assert Fetch(responses, pageNumber) == Failure(MissingTeamId);
        return flatIndex, Some(MissingTeamId);
      }
      FetchAdvance(responses, pageNumber, done);
      done := done + PageNodes(page.items).value;
      if !page.hasNext {
        break;
      }
      pageNumber := pageNumber + 1;
    }
    panic := None;
  }

  /** One turn of the page loop: the nodes gathered so far, followed by what
      page `page` on yields, is that page's nodes appended and then either
      nothing more (no next link) or what the following pages yield. */
  lemma FetchAdvance(responses: seq<Response>, page: nat, done: seq<TeamNode>)
    requires 1 <= page <= |responses| && responses[page - 1].Fetched?
    requires PageNodes(responses[page - 1].page.items).Success?
    ensures var p := responses[page - 1].page;
      var ns := PageNodes(p.items).value;
      Prepend(done, Fetch(responses, page))
        == if p.hasNext then Prepend(done + ns, Fetch(responses, page + 1)) else Success(done + ns)
  {
    var p := responses[page - 1].page;
    var ns := PageNodes(p.items).value;
    if p.hasNext {
      assert Fetch(responses, page) == Prepend(ns, Fetch(responses, page + 1));
      PrependTwice(done, ns, Fetch(responses, page + 1));
    }
  }

  /** The item loop of one page: one node and one index entry per item. */
  method AddPageNodes(tree: TeamGraph, flatIndex: map<nat, nat>, items: seq<TeamItem>) returns (index: map<nat, nat>, ok: bool)
    requires |tree.nodes| >= 1 && flatIndex == IndexOf(tree.nodes)
    modifies tree
    ensures tree.edges == old(tree.edges) && index == IndexOf(tree.nodes)
    ensures ok ==> PageNodes(items).Success? && tree.nodes == old(tree.nodes) + PageNodes(items).value
    ensures !ok ==> PageNodes(items) == Failure(MissingTeamId)
  {
    index := flatIndex;
    ghost var added: seq<TeamNode> := [];
    var j := 0;
    assert tree.nodes == old(tree.nodes) + added && items[j..] == items;
    PrependNothing(PageNodes(items));
    while j < |items|
      invariant 0 <= j <= |items|
      invariant tree.nodes == old(tree.nodes) + added && tree.edges == old(tree.edges)
      invariant index == IndexOf(tree.nodes)
      invariant PageNodes(items) == Prepend(added, PageNodes(items[j..]))
    {
      var item := items[j];
      assert items[j..][0] == item && items[j..][1..] == items[j + 1..];
      if item.id.None? {
        return index, false;
      }
      ghost var prior := tree.nodes;
      var node := tree.AddNode(TeamNode(item.id.value, item.name, item.privacy == Open, item.parent));
      IndexOfAppend(prior, tree.nodes[node]);
      index := index[item.id.value := node];
      PrependTwice(added, [tree.nodes[node]], PageNodes(items[j + 1..]));
      added := added + [tree.nodes[node]];
      j := j + 1;
    }
    assert items[j..] == [];
    PrependNothing(PageNodes(items));
    ok := true;
  }

  /** The edge pass over every node index, skipping the root. */
  method AddParentEdges(tree: TeamGraph, flatIndex: map<nat, nat>, rootNode: nat) returns (panic: Option<Panic>)
    requires rootNode == 0 < |tree.nodes| && tree.edges == [] && flatIndex == IndexOf(tree.nodes)
    modifies tree
    ensures tree.nodes == old(tree.nodes)
    ensures EdgesUpTo(tree.nodes, flatIndex, |tree.nodes|).Success? ==>
      panic == None && tree.edges == EdgesUpTo(tree.nodes, flatIndex, |tree.nodes|).value
    ensures EdgesUpTo(tree.nodes, flatIndex, |tree.nodes|).Failure? ==>
      panic == Some(EdgesUpTo(tree.nodes, flatIndex, |tree.nodes|).error)
  {
    ghost var nodes := tree.nodes;
    IndexOfLastOccurrence(nodes);
    var idx := 0;
    while idx < |tree.nodes|
      invariant tree.nodes == nodes
      invariant 0 <= idx <= |nodes|
      invariant EdgesUpTo(nodes, flatIndex, idx) == Success(tree.edges)
    {
      if idx == rootNode {
        idx := idx + 1;
        continue;
      }
      var item := tree.nodes[idx];
      if item.parentId.Some? {
        if item.parentId.value !in flatIndex {
          EdgesFailureSticks(nodes, flatIndex, idx + 1, |nodes|);
          return Some(UnresolvedParent(item.name));
        }
        tree.AddEdge(flatIndex[item.parentId.value], idx, 1);
      } else {
        tree.AddEdge(rootNode, idx, 0);
      }
      idx := idx + 1;
    }
    panic := None;
  }

  // ------------------------------------------------------------ properties

  /** Once a node's edge fails, the whole edge pass fails with that error. */
  lemma {:induction false} EdgesFailureSticks(nodes: seq<TeamNode>, index: map<nat, nat>, n: nat, m: nat)
    requires n <= m <= |nodes|
    requires EdgesUpTo(nodes, index, n).Failure?
    ensures EdgesUpTo(nodes, index, m) == EdgesUpTo(nodes, index, n)
    decreases m - n
  {
    if n < m {
      EdgesFailureSticks(nodes, index, n, m - 1);
    }
  }

  /** Page accumulation: the pages `page..last` (page n is `responses[n - 1]`)
      are fetched, all but the last have a next link and no item lacks an id;
      then the nodes are exactly those pages' items, in order, and nothing
      after page `last` is requested. */
  lemma {:induction false} FetchCollectsPages(responses: seq<Response>, page: nat, last: nat)
    requires 1 <= page <= last <= |responses|
    requires forall i :: page - 1 <= i < last ==> responses[i].Fetched?
    requires forall i, k :: page - 1 <= i < last && 0 <= k < |responses[i].page.items| ==> responses[i].page.items[k].id.Some?
    requires forall i :: page - 1 <= i < last - 1 ==> responses[i].page.hasNext
    requires !responses[last - 1].page.hasNext
    ensures Fetch(responses, page) == Success(NodesOf(ItemsOf(responses, page, last)))
    decreases last - page
  {
    var p := responses[page - 1].page;
    var ns := PageNodes(p.items);
    PageNodesSpec(p.items);
    assert ns.Success? by {
      forall k | 0 <= k < |p.items| ensures p.items[k].id.Some? { }
    }
    assert ns.value == NodesOf(p.items);
    if page < last {
      FetchCollectsPages(responses, page + 1, last);
      var later := ItemsOf(responses, page + 1, last);
      assert ItemsOf(responses, page, last) == p.items + later;
      NodesOfAppend(p.items, later);
      assert Fetch(responses, page) == Prepend(ns.value, Fetch(responses, page + 1));
    } else {
      assert ItemsOf(responses, page, last) == p.items + [];
      assert p.items + [] == p.items;
    }
  }

  /** The items of pages `page..last`, concatenated in page order. */
  function ItemsOf(responses: seq<Response>, page: nat, last: nat): (r: seq<TeamItem>)
    requires 1 <= page <= last <= |responses|
    requires forall i :: page - 1 <= i < last ==> responses[i].Fetched?
    ensures (forall i, k :: page - 1 <= i < last && 0 <= k < |responses[i].page.items| ==> responses[i].page.items[k].id.Some?)
      ==> forall k :: 0 <= k < |r| ==> r[k].id.Some?
    decreases last - page
  {
    responses[page - 1].page.items + (if page == last then [] else ItemsOf(responses, page + 1, last))
  }

  function NodesOf(items: seq<TeamItem>): seq<TeamNode>
    requires forall k :: 0 <= k < |items| ==> items[k].id.Some?
  {
    seq(|items|, k requires 0 <= k < |items| => ToNode(items[k]).value)
  }

  lemma NodesOfAppend(a: seq<TeamItem>, b: seq<TeamItem>)
    requires forall k :: 0 <= k < |a| ==> a[k].id.Some?
    requires forall k :: 0 <= k < |b| ==> b[k].id.Some?
    ensures NodesOf(a + b) == NodesOf(a) + NodesOf(b)
  {
  }

  /** A failed page request aborts the fetch naming that page, whatever
      later pages would have held. */
  lemma {:induction false} FetchStopsAtFailedPage(responses: seq<Response>, page: nat, failed: nat)
    requires 1 <= page <= failed
    requires failed - 1 <= |responses|
    requires forall i :: page - 1 <= i < failed - 1 ==> responses[i].Fetched? && responses[i].page.hasNext
    requires forall i, k :: page - 1 <= i < failed - 1 && 0 <= k < |responses[i].page.items| ==> responses[i].page.items[k].id.Some?
    requires failed > |responses| || responses[failed - 1].FetchError?
    ensures Fetch(responses, page) == Failure(FetchFailed(failed))
    decreases failed - page
  {
    if page < failed {
      var p := responses[page - 1].page;
      PageNodesSpec(p.items);
      assert PageNodes(p.items).Success? by {
        forall k | 0 <= k < |p.items| ensures p.items[k].id.Some? { }
      }
      FetchStopsAtFailedPage(responses, page + 1, failed);
    }
  }

  /** When the pages before `bad` are fetched with next links and good items,
      and page `bad` is fetched but its item `k` has no id, the build aborts
      with MissingTeamId, whatever comes later. */
  lemma {:induction false} FetchStopsAtBadItem(responses: seq<Response>, page: nat, bad: nat, k: nat)
    requires 1 <= page <= bad <= |responses|
    requires forall i :: page - 1 <= i < bad - 1 ==> responses[i].Fetched? && responses[i].page.hasNext
    requires forall i, j :: page - 1 <= i < bad - 1 && 0 <= j < |responses[i].page.items| ==> responses[i].page.items[j].id.Some?
    requires responses[bad - 1].Fetched?
    requires k < |responses[bad - 1].page.items| && responses[bad - 1].page.items[k].id.None?
    ensures Fetch(responses, page) == Failure(MissingTeamId)
    decreases bad - page
  {
    if page < bad {
      var p := responses[page - 1].page;
      PageNodesSpec(p.items);
      assert PageNodes(p.items).Success? by {
        forall j | 0 <= j < |p.items| ensures p.items[j].id.Some? { }
      }
      FetchStopsAtBadItem(responses, page + 1, bad, k);
    } else {
      var items := responses[bad - 1].page.items;
      PageNodesSpec(items);
      assert items[k].id.None?;
    }
  }

  /** `flat_index` holds exactly the ids of the non-root nodes, and maps each
      to the LAST node carrying it. */
  lemma IndexOfLastOccurrence(nodes: seq<TeamNode>)
    ensures forall id :: id in IndexOf(nodes) <==> exists k :: 1 <= k < |nodes| && nodes[k].id == id
    ensures forall id :: id in IndexOf(nodes) ==> 1 <= IndexOf(nodes)[id] < |nodes| && nodes[IndexOf(nodes)[id]].id == id
    ensures forall id, k :: id in IndexOf(nodes) && IndexOf(nodes)[id] < k < |nodes| ==> nodes[k].id != id
  {
    IndexUpToLastOccurrence(nodes, |nodes|);
  }

  /** The same for the nodes below index `n`. */
  lemma {:induction false} IndexUpToLastOccurrence(nodes: seq<TeamNode>, n: nat)
    requires n <= |nodes|
    ensures forall id :: id in IndexUpTo(nodes, n) <==> exists k :: 1 <= k < n && nodes[k].id == id
    ensures forall id :: id in IndexUpTo(nodes, n) ==> 1 <= IndexUpTo(nodes, n)[id] < n && nodes[IndexUpTo(nodes, n)[id]].id == id
    ensures forall id, k :: id in IndexUpTo(nodes, n) && IndexUpTo(nodes, n)[id] < k < n ==> nodes[k].id != id
  {
    if n > 1 {
      IndexUpToLastOccurrence(nodes, n - 1);
    }
  }

  /** After a successful edge pass, the k-th edge goes into node k + 1: from
      the index of that node's parent id with weight 1, or from the root with
      weight 0. */
  lemma {:induction false} EdgesShape(nodes: seq<TeamNode>, index: map<nat, nat>, n: nat)
    requires 1 <= n <= |nodes|
    requires EdgesUpTo(nodes, index, n).Success?
    ensures var es := EdgesUpTo(nodes, index, n).value;
      && |es| == n - 1
      && forall k :: 0 <= k < |es| ==>
        && es[k].child == k + 1
        && (nodes[k + 1].parentId.None? ==> es[k] == Edge(0, k + 1, 0))
        && (nodes[k + 1].parentId.Some? ==>
              nodes[k + 1].parentId.value in index && es[k] == Edge(index[nodes[k + 1].parentId.value], k + 1, 1))
  {
    if n > 1 {
      EdgesShape(nodes, index, n - 1);
      var es := EdgesUpTo(nodes, index, n - 1).value;
      var edge := EdgeFor(nodes, index, n - 1).value;
      assert EdgesUpTo(nodes, index, n).value == es + [edge];
      forall k | 0 <= k < n - 1
        ensures EdgesUpTo(nodes, index, n).value[k] == if k < n - 2 then es[k] else edge
      {
      }
    }
  }

  /** Edges whose i-th element points at node i + 1 give the root no incoming
      edge and every other node exactly its own one. */
  lemma {:induction false} OneIncomingEdgeEach(edges: seq<Edge>)
    requires forall k :: 0 <= k < |edges| ==> edges[k].child == k + 1
    ensures Incoming(edges, 0) == []
    ensures forall v :: 1 <= v <= |edges| ==> Incoming(edges, v) == [edges[v - 1]]
    ensures forall v :: v > |edges| ==> Incoming(edges, v) == []
  {
    if edges != [] {
      var init := edges[..|edges| - 1];
      OneIncomingEdgeEach(init);
    }
  }

  /** Shape of a successful build: the root first, one node per fetched record
      after it, no edge into the root, and exactly one edge into every other
      node, from the node indexed by its parent id (weight 1) or from the root
      (weight 0). */
  lemma BuildShape(responses: seq<Response>)
    requires Build(responses).Success?
    ensures var f := Build(responses).value;
      && Fetch(responses, 1).Success?
      && f.nodes == [RootTeam] + Fetch(responses, 1).value
      && Incoming(f.edges, 0) == []
      && forall v :: 1 <= v < |f.nodes| ==>
        && |Incoming(f.edges, v)| == 1
        && Incoming(f.edges, v)[0].child == v
        && (f.nodes[v].parentId.None? ==> Incoming(f.edges, v)[0] == Edge(0, v, 0))
        && (f.nodes[v].parentId.Some? ==>
              && f.nodes[v].parentId.value in f.index
              && Incoming(f.edges, v)[0] == Edge(f.index[f.nodes[v].parentId.value], v, 1))
  {
    var records := Fetch(responses, 1).value;
    var nodes := [RootTeam] + records;
    var index := IndexOf(nodes);
    var edges := EdgesUpTo(nodes, index, |nodes|).value;
    var f := Forest(nodes, index, edges);
    assert Build(responses).value == f;
    EdgesShape(nodes, index, |nodes|);
    OneIncomingEdgeEach(f.edges);
  }

  /** Orphan detection: when every record before the k-th resolves and the
      k-th names a parent id no record has (0 included, as the root is never
      indexed), the build fails naming the k-th record. */
  lemma BuildRejectsOrphan(responses: seq<Response>, k: nat)
    requires Fetch(responses, 1).Success? && k < |Fetch(responses, 1).value|
    requires forall j :: 0 <= j < k ==> Resolves(Fetch(responses, 1).value, j)
    requires !Resolves(Fetch(responses, 1).value, k)
    ensures Build(responses) == Failure(UnresolvedParent(Fetch(responses, 1).value[k].name))
  {
    var records := Fetch(responses, 1).value;
    var nodes := [RootTeam] + records;
    var index := IndexOf(nodes);
    IndexResolves(records);
    forall j | 1 <= j < k + 1
      ensures nodes[j].parentId.None? || nodes[j].parentId.value in index
    {
      assert nodes[j] == records[j - 1];
    }
    EdgesBeforeOrphan(nodes, index, k + 1);
    assert nodes[k + 1] == records[k];
    assert EdgesUpTo(nodes, index, k + 2) == Failure(UnresolvedParent(records[k].name));
    EdgesFailureSticks(nodes, index, k + 2, |nodes|);
  }

  /** Conversely, when every record's parent resolves, the edge pass succeeds. */
  lemma BuildAcceptsResolved(responses: seq<Response>)
    requires Fetch(responses, 1).Success?
    requires forall j :: 0 <= j < |Fetch(responses, 1).value| ==> Resolves(Fetch(responses, 1).value, j)
    ensures Build(responses).Success?
  {
    var records := Fetch(responses, 1).value;
    var nodes := [RootTeam] + records;
    IndexResolves(records);
    forall j | 1 <= j < |nodes|
      ensures nodes[j].parentId.None? || nodes[j].parentId.value in IndexOf(nodes)
    {
      assert nodes[j] == records[j - 1];
    }
    EdgesBeforeOrphan(nodes, IndexOf(nodes), |nodes|);
  }

  /** A parent id is a key of the index exactly when some record has it. */
  lemma IndexResolves(records: seq<TeamNode>)
    ensures forall k :: 0 <= k < |records| ==>
      (Resolves(records, k) <==>
        (records[k].parentId.None? || records[k].parentId.value in IndexOf([RootTeam] + records)))
  {
    var nodes := [RootTeam] + records;
    IndexOfLastOccurrence(nodes);
    forall k, id | 0 <= k < |records| && records[k].parentId == Some(id)
      ensures (exists i :: 0 <= i < |records| && records[i].id == id) <==> id in IndexOf(nodes)
    {
      if id in IndexOf(nodes) {
        var j :| 1 <= j < |nodes| && nodes[j].id == id;
        assert records[j - 1].id == id;
      }
      if exists i :: 0 <= i < |records| && records[i].id == id {
        var i :| 0 <= i < |records| && records[i].id == id;
        assert nodes[i + 1].id == id;
      }
    }
  }

  /** The edge pass succeeds on every prefix of nodes whose parents are all indexed. */
  lemma {:induction false} EdgesBeforeOrphan(nodes: seq<TeamNode>, index: map<nat, nat>, n: nat)
    requires 1 <= n <= |nodes|
    requires forall j :: 1 <= j < n ==> nodes[j].parentId.None? || nodes[j].parentId.value in index
    ensures EdgesUpTo(nodes, index, n).Success?
  {
    if n > 1 {
      EdgesBeforeOrphan(nodes, index, n - 1);
    }
  }
}
