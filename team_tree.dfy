/** src/chunk/teams.rs: `print_team_tree` (build, then print) and its
    `print_nested_tree`, which infers each line's depth from a stack of
    ancestor ids that changes by at most one element per printed node. */
module TeamTree {
  import opened Model
  import opened Forest

  /** The printer's state after some prefix of the visit order: the node
      printed last (initially the start node), the ancestor stack, the entries
      printed so far, and the panic that stopped it. */
  datatype StackState = StackState(current: nat, stack: seq<nat>, entries: seq<Entry>, panic: Option<Panic>)

  /** The stack update for the next printed node `next`, where `prevId` is the
      id of the node printed last. None is the panic of unwrapping the top of
      an empty stack. */
  function StackStep(prevId: nat, stack: seq<nat>, next: TeamNode): (r: Option<seq<nat>>)
    ensures r.None? <==> next.parentId.Some? && next.parentId.value != prevId && stack == []
    ensures r.Some? ==>
      || r.value == stack + [prevId]
      || r.value == stack
      || (stack != [] && r.value == stack[..|stack| - 1])
    ensures r.Some? ==> (r.value == stack + [prevId] <==> next.parentId == Some(prevId))
    ensures next.parentId.None? ==> r.Some? && |r.value| == if stack == [] then 0 else |stack| - 1
    ensures r.Some? && next.parentId.Some? && next.parentId.value != prevId ==>
      (r.value == stack <==> stack[|stack| - 1] == next.parentId.value)
  {
    match next.parentId
    case None => Some(if stack == [] then [] else stack[..|stack| - 1])
    case Some(p) =>
      if prevId == p then Some(stack + [prevId])
      else if stack == [] then None
      else if stack[|stack| - 1] != p then Some(stack[..|stack| - 1])
      else Some(stack)
  }

  /** One iteration of the print loop for the visited node index `v`. */
  function StackVisit(nodes: seq<TeamNode>, st: StackState, v: nat): (r: StackState)
    requires st.current < |nodes| && v < |nodes|
    ensures r.current < |nodes|
    ensures st.entries <= r.entries && |r.entries| <= |st.entries| + 1
    ensures st.panic.Some? ==> r == st
    ensures nodes[v].id == 0 ==> r == st
  {
    if st.panic.Some? || nodes[v].id == 0 then st
    else
      match StackStep(nodes[st.current].id, st.stack, nodes[v])
      case None => st.(panic := Some(EmptyParentStack(nodes[v].name)))
      case Some(s) => StackState(v, s, st.entries + [Entry(|s|, nodes[v].name)], None)
  }

  /** The state after visiting `visit` from the start node `start`. */
  function StackRun(nodes: seq<TeamNode>, start: nat, visit: seq<nat>): (r: StackState)
    requires start < |nodes| && ValidVisit(nodes, visit)
    ensures r.current < |nodes|
    ensures |r.stack| <= |r.entries|
    ensures r.entries != [] ==> r.entries[|r.entries| - 1].depth == |r.stack|
  {
    if visit == [] then StackState(start, [], [], None)
    else StackVisit(nodes, StackRun(nodes, start, visit[..|visit| - 1]), visit[|visit| - 1])
  }

  function Rendered(st: StackState): Output
  {
    Output(Render(st.entries), st.panic)
  }

  /** `print_nested_tree`: the visit order stands for petgraph's `Dfs` from
      `node`; the lines printed are collected instead of written out. */
  method PrintNestedTree(nodes: seq<TeamNode>, node: nat, visit: seq<nat>) returns (out: Output)
    requires node < |nodes| && ValidVisit(nodes, visit)
    ensures out == Rendered(StackRun(nodes, node, visit))
  {
    var currentNode := node;
    var stackOfParents: seq<nat> := [];
    var lines: seq<string> := [];
    ghost var entries: seq<Entry> := [];
    var i := 0;
    while i < |visit|
      invariant 0 <= i <= |visit|
      invariant StackRun(nodes, node, visit[..i]) == StackState(currentNode, stackOfParents, entries, None)
      invariant Render(entries) == lines
    {
      var nextNode := visit[i];
      var nextRef := nodes[nextNode];
      var prevRef := nodes[currentNode];
      StackRunStep(nodes, node, visit, i);
      i := i + 1;
      if nextRef.id == 0 {
        continue;
      }
      ghost var st := StackState(currentNode, stackOfParents, entries, None);
      if nextRef.parentId.None? {
        if stackOfParents != [] {
          stackOfParents := stackOfParents[..|stackOfParents| - 1];
        }
      } else if prevRef.id == nextRef.parentId.value {
        stackOfParents := stackOfParents + [prevRef.id];
      } else if stackOfParents == [] {
        StackPanicSticks(nodes, node, visit, i);
        return Output(lines, Some(EmptyParentStack(nextRef.name)));
      } else if stackOfParents[|stackOfParents| - 1] != nextRef.parentId.value {
        stackOfParents := stackOfParents[..|stackOfParents| - 1];
      }
      StackVisitPrints(nodes, st, nextNode, stackOfParents);
      RenderAppend(entries, Entry(|stackOfParents|, nextRef.name));
      entries := entries + [Entry(|stackOfParents|, nextRef.name)];
      lines := lines + [Indent(|stackOfParents|) + "- " + nextRef.name];
      currentNode := nextNode;
    }
    assert visit[..i] == visit;
    out := Output(lines, None);
  }

  /** `print_team_tree`: build the forest, and only if that succeeds print it
      from the root; `visit` is the order petgraph's `Dfs` visits the built
      graph from the root. */
  method PrintTeamTree(responses: seq<Response>, visit: seq<nat>) returns (out: Output)
    requires Build(responses).Success? ==> ValidVisit(Build(responses).value.nodes, visit)
    ensures Build(responses).Failure? ==> out == Output([], Some(Build(responses).error))
    ensures Build(responses).Success? ==> out == Rendered(StackRun(Build(responses).value.nodes, 0, visit))
  {
    var tree, flatIndex, panic := BuildTeamTree(responses);
    if panic.Some? {
      return Output([], panic);
    }
    out := PrintNestedTree(tree.nodes, 0, visit);
  }

  // ------------------------------------------------------------ properties

  lemma StackRunStep(nodes: seq<TeamNode>, start: nat, visit: seq<nat>, i: nat)
    requires start < |nodes| && ValidVisit(nodes, visit) && i < |visit|
    ensures StackRun(nodes, start, visit[..i + 1]) == StackVisit(nodes, StackRun(nodes, start, visit[..i]), visit[i])
  {
    assert visit[..i + 1][..i] == visit[..i];
  }

  /** A printed node's turn when the stack does not run empty: `s` is the new
      stack and the one line added prints at its length. */
  lemma StackVisitPrints(nodes: seq<TeamNode>, st: StackState, v: nat, s: seq<nat>)
    requires st.current < |nodes| && v < |nodes| && st.panic.None? && nodes[v].id != 0
    requires nodes[v].parentId.None? ==> s == if st.stack == [] then [] else st.stack[..|st.stack| - 1]
    requires nodes[v].parentId.Some? && nodes[v].parentId.value == nodes[st.current].id ==>
      s == st.stack + [nodes[st.current].id]
    requires nodes[v].parentId.Some? && nodes[v].parentId.value != nodes[st.current].id ==>
      && st.stack != []
      && s == if st.stack[|st.stack| - 1] != nodes[v].parentId.value then st.stack[..|st.stack| - 1] else st.stack
    ensures StackVisit(nodes, st, v) == StackState(v, s, st.entries + [Entry(|s|, nodes[v].name)], None)
  {
  }

  /** Once the printer has panicked, later visits change nothing. */
  lemma {:induction false} StackPanicSticks(nodes: seq<TeamNode>, start: nat, visit: seq<nat>, i: nat)
    requires start < |nodes| && ValidVisit(nodes, visit) && i <= |visit|
    requires StackRun(nodes, start, visit[..i]).panic.Some?
    ensures StackRun(nodes, start, visit) == StackRun(nodes, start, visit[..i])
    decreases |visit| - i
  {
    if i < |visit| {
      assert visit[..i + 1][..i] == visit[..i];
      StackPanicSticks(nodes, start, visit, i + 1);
    } else {
      assert visit[..i] == visit;
    }
  }

  /** A team whose parent is given but is not the team printed before it,
      reached with an empty ancestor stack, ends the run in the
      EmptyParentStack panic naming it, with no further lines. */
  lemma StackPanicsAt(nodes: seq<TeamNode>, start: nat, visit: seq<nat>, i: nat)
    requires start < |nodes| && ValidVisit(nodes, visit) && i < |visit|
    requires var st := StackRun(nodes, start, visit[..i]);
      && st.panic.None? && st.stack == []
      && nodes[visit[i]].id != 0
      && nodes[visit[i]].parentId.Some? && nodes[visit[i]].parentId.value != nodes[st.current].id
    ensures StackRun(nodes, start, visit) ==
      StackRun(nodes, start, visit[..i]).(panic := Some(EmptyParentStack(nodes[visit[i]].name)))
  {
    StackRunStep(nodes, start, visit, i);
    StackPanicSticks(nodes, start, visit, i + 1);
  }

  /** Visiting the root first, as petgraph's `Dfs` does, leaves every later
      state as if the root had not been visited. */
  lemma {:induction false} StackSkipsLeadingRoot(nodes: seq<TeamNode>, start: nat, r: nat, visit: seq<nat>)
    requires start < |nodes| && r < |nodes| && nodes[r].id == 0 && ValidVisit(nodes, visit)
    ensures ValidVisit(nodes, [r] + visit)
    ensures StackRun(nodes, start, [r] + visit) == StackRun(nodes, start, visit)
  {
    var w := [r] + visit;
    assert ValidVisit(nodes, w) by {
      forall i | 0 <= i < |w| ensures w[i] < |nodes| {
        if i > 0 {
          assert w[i] == visit[i - 1];
        }
      }
    }
    if visit == [] {
      assert w[..0] == [];
    } else {
      var init := visit[..|visit| - 1];
      StackSkipsLeadingRoot(nodes, start, r, init);
      assert w[..|w| - 1] == [r] + init;
    }
  }

  /** The printer emits one entry per visited node whose id is not 0, in
      visit order and with that node's name, and stops short of them exactly
      when it panics. */
  lemma {:induction false} StackPrintsNonRootNodes(nodes: seq<TeamNode>, start: nat, visit: seq<nat>)
    requires start < |nodes| && ValidVisit(nodes, visit)
    ensures var st := StackRun(nodes, start, visit);
      && |st.entries| <= |Printed(nodes, visit)|
      && (st.panic.None? <==> |st.entries| == |Printed(nodes, visit)|)
      && forall k :: 0 <= k < |st.entries| ==> st.entries[k].name == nodes[Printed(nodes, visit)[k]].name
  {
    if visit != [] {
      var init := visit[..|visit| - 1];
      StackPrintsNonRootNodes(nodes, start, init);
      var v := visit[|visit| - 1];
      var st0 := StackRun(nodes, start, init);
      var st := StackRun(nodes, start, visit);
      assert st == StackVisit(nodes, st0, v);
      var pr := Printed(nodes, visit);
      assert pr == Printed(nodes, init) + (if nodes[v].id != 0 then [v] else []);
      if st0.panic.None? && nodes[v].id != 0 && st.panic.None? {
        assert st.entries == st0.entries + [Entry(|st.stack|, nodes[v].name)];
      }
    }
  }

  /** A chain — a top-level team followed by teams each a child of the one
      before — visited in order: the k-th prints at depth k, and the stack
      holds exactly the ids of the chain's earlier members, oldest first. */
  lemma {:induction false} StackChainDepths(nodes: seq<TeamNode>, start: nat, visit: seq<nat>)
    requires start < |nodes| && ValidVisit(nodes, visit) && Chain(nodes, visit)
    ensures var st := StackRun(nodes, start, visit);
      && st.panic == None
      && |st.entries| == |visit|
      && (forall k :: 0 <= k < |visit| ==> st.entries[k] == Entry(k, nodes[visit[k]].name))
      && st.current == visit[|visit| - 1]
      && |st.stack| == |visit| - 1
      && (forall k :: 0 <= k < |st.stack| ==> st.stack[k] == nodes[visit[k]].id)
  {
    var init := visit[..|visit| - 1];
    var v := visit[|visit| - 1];
    if |visit| == 1 {
      assert init == [];
    } else {
      assert Chain(nodes, init) by {
        forall k | 1 <= k < |init| ensures LinkedAt(nodes, init, k) {
          assert init[k] == visit[k] && init[k - 1] == visit[k - 1] && LinkedAt(nodes, visit, k);
        }
      }
      StackChainDepths(nodes, start, init);
      var st0 := StackRun(nodes, start, init);
      var prevId := nodes[visit[|visit| - 2]].id;
      assert LinkedAt(nodes, visit, |visit| - 1);
      StackVisitPrints(nodes, st0, v, st0.stack + [prevId]);
      var st := StackRun(nodes, start, visit);
      forall k | 0 <= k < |visit| ensures st.entries[k] == Entry(k, nodes[visit[k]].name) {
        if k < |init| {
          assert visit[k] == init[k];
        }
      }
      assert st.stack == st0.stack + [prevId];
      forall k | 0 <= k < |st.stack| ensures st.stack[k] == nodes[visit[k]].id {
        if k < |st0.stack| {
          assert visit[k] == init[k];
        } else {
          assert k == |visit| - 2;
        }
      }
    }
  }

  /** A top-level team (no parent) followed by teams each the child of the one
      visited just before, none with id 0. */
  ghost predicate Chain(nodes: seq<TeamNode>, visit: seq<nat>)
    requires ValidVisit(nodes, visit)
  {
    && |visit| >= 1
    && nodes[visit[0]].parentId.None?
    && (forall k :: 0 <= k < |visit| ==> nodes[visit[k]].id != 0)
    && (forall k :: 1 <= k < |visit| ==> LinkedAt(nodes, visit, k))
  }

  /** The k-th visited node is a child of the one visited before it. */
  ghost predicate LinkedAt(nodes: seq<TeamNode>, visit: seq<nat>, k: nat)
    requires ValidVisit(nodes, visit) && 1 <= k < |visit|
  {
    nodes[visit[k]].parentId == Some(nodes[visit[k - 1]].id)
  }
}
