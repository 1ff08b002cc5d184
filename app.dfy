/** src/main.rs: `main` runs the same two-phase build as
    src/chunk/teams.rs inline, then its own `print_nested_tree`, which infers
    each line's depth with an unsigned counter that is reset, incremented or
    decremented per printed node. */
module App {
  import opened Model
  import opened Forest
  import opened TeamTree

  /** The counter printer's state after some prefix of the visit order. */
  datatype CounterState = CounterState(current: nat, spacer: nat, entries: seq<Entry>, panic: Option<Panic>)

  /** The counter update for the next printed node `next`; None is the
      unsigned underflow of decrementing 0. */
  function CounterStep(prevId: nat, spacer: nat, next: TeamNode): (r: Option<nat>)
    ensures r.None? <==> next.parentId.Some? && next.parentId.value != prevId && spacer == 0
    ensures next.parentId.None? ==> r == Some(0)
    ensures next.parentId.Some? && r.Some? ==>
      (r.value == spacer + 1 <==> next.parentId.value == prevId) && (r.value == spacer + 1 || r.value + 1 == spacer)
  {
    match next.parentId
    case None => Some(0)
    case Some(p) =>
      if prevId == p then Some(spacer + 1)
      else if spacer == 0 then None
      else Some(spacer - 1)
  }

  function CounterVisit(nodes: seq<TeamNode>, st: CounterState, v: nat): (r: CounterState)
    requires st.current < |nodes| && v < |nodes|
    ensures r.current < |nodes|
    ensures st.entries <= r.entries && |r.entries| <= |st.entries| + 1
    ensures st.panic.Some? ==> r == st
    ensures nodes[v].id == 0 ==> r == st
  {
    if st.panic.Some? || nodes[v].id == 0 then st
    else
      match CounterStep(nodes[st.current].id, st.spacer, nodes[v])
      case None => st.(panic := Some(SpacerUnderflow(nodes[v].name)))
      case Some(n) => CounterState(v, n, st.entries + [Entry(n, nodes[v].name)], None)
  }

  /** The state after visiting `visit` from the start node `start`. */
  function CounterRun(nodes: seq<TeamNode>, start: nat, visit: seq<nat>): (r: CounterState)
    requires start < |nodes| && ValidVisit(nodes, visit)
    ensures r.current < |nodes|
    ensures r.spacer <= |r.entries|
    ensures r.entries != [] ==> r.entries[|r.entries| - 1].depth == r.spacer
  {
    if visit == [] then CounterState(start, 0, [], None)
    else CounterVisit(nodes, CounterRun(nodes, start, visit[..|visit| - 1]), visit[|visit| - 1])
  }

  function CounterRendered(st: CounterState): Output
  {
    Output(Render(st.entries), st.panic)
  }

  /** `print_nested_tree` of src/main.rs, over the visit order of petgraph's
      `Dfs` from `node`. */
  method PrintNestedTree(nodes: seq<TeamNode>, node: nat, visit: seq<nat>) returns (out: Output)
    requires node < |nodes| && ValidVisit(nodes, visit)
    ensures out == CounterRendered(CounterRun(nodes, node, visit))
  {
    var currentNode := node;
    var spacer: nat := 0;
    var lines: seq<string> := [];
    ghost var entries: seq<Entry> := [];
    var i := 0;
    while i < |visit|
      invariant 0 <= i <= |visit|
      invariant CounterRun(nodes, node, visit[..i]) == CounterState(currentNode, spacer, entries, None)
      invariant Render(entries) == lines
    {
      var nextNode := visit[i];
      var nextRef := nodes[nextNode];
      var prevRef := nodes[currentNode];
      CounterRunStep(nodes, node, visit, i);
      i := i + 1;
      if nextRef.id == 0 {
        continue;
      }
      ghost var st := CounterState(currentNode, spacer, entries, None);
      if nextRef.parentId.None? {
        spacer := 0;
      } else if prevRef.id == nextRef.parentId.value {
        spacer := spacer + 1;
      } else {
        if spacer == 0 {
          CounterPanicSticks(nodes, node, visit, i);
          return Output(lines, Some(SpacerUnderflow(nextRef.name)));
        }
        spacer := spacer - 1;
      }
      CounterVisitPrints(nodes, st, nextNode, spacer);
      RenderAppend(entries, Entry(spacer, nextRef.name));
      entries := entries + [Entry(spacer, nextRef.name)];
      lines := lines + [Indent(spacer) + "- " + nextRef.name];
      currentNode := nextNode;
    }
    assert visit[..i] == visit;
    out := Output(lines, None);
  }

  /** `main` after argument parsing: the build, and only if it succeeds the
      counter printer from the root over `visit`, the order petgraph's `Dfs`
      visits the built graph. */
  method Run(responses: seq<Response>, visit: seq<nat>) returns (out: Output)
    requires Build(responses).Success? ==> ValidVisit(Build(responses).value.nodes, visit)
    ensures Build(responses).Failure? ==> out == Output([], Some(Build(responses).error))
    ensures Build(responses).Success? ==> out == CounterRendered(CounterRun(Build(responses).value.nodes, 0, visit))
  {
    var tree, flatIndex, panic := BuildTeamTree(responses);
    if panic.Some? {
      return Output([], panic);
    }
    out := PrintNestedTree(tree.nodes, 0, visit);
  }

  // ------------------------------------------------------------ properties

  lemma CounterRunStep(nodes: seq<TeamNode>, start: nat, visit: seq<nat>, i: nat)
    requires start < |nodes| && ValidVisit(nodes, visit) && i < |visit|
    ensures CounterRun(nodes, start, visit[..i + 1]) == CounterVisit(nodes, CounterRun(nodes, start, visit[..i]), visit[i])
  {
    assert visit[..i + 1][..i] == visit[..i];
  }

  /** A printed node's turn when the counter does not underflow: `n` is the
      counter's new value and the one line added prints at that depth. */
  lemma CounterVisitPrints(nodes: seq<TeamNode>, st: CounterState, v: nat, n: nat)
    requires st.current < |nodes| && v < |nodes| && st.panic.None? && nodes[v].id != 0
    requires nodes[v].parentId.None? ==> n == 0
    requires nodes[v].parentId.Some? && nodes[v].parentId.value == nodes[st.current].id ==> n == st.spacer + 1
    requires nodes[v].parentId.Some? && nodes[v].parentId.value != nodes[st.current].id ==> n + 1 == st.spacer
    ensures CounterVisit(nodes, st, v) == CounterState(v, n, st.entries + [Entry(n, nodes[v].name)], None)
  {
  }

  /** Once the printer has panicked, later visits change nothing. */
  lemma {:induction false} CounterPanicSticks(nodes: seq<TeamNode>, start: nat, visit: seq<nat>, i: nat)
    requires start < |nodes| && ValidVisit(nodes, visit) && i <= |visit|
    requires CounterRun(nodes, start, visit[..i]).panic.Some?
    ensures CounterRun(nodes, start, visit) == CounterRun(nodes, start, visit[..i])
    decreases |visit| - i
  {
    if i < |visit| {
      assert visit[..i + 1][..i] == visit[..i];
      CounterPanicSticks(nodes, start, visit, i + 1);
    } else {
      assert visit[..i] == visit;
    }
  }

  /** A team whose parent is given but is not the team printed before it,
      reached with the counter at 0, ends the run in the SpacerUnderflow
      panic naming it, with no further lines. */
  lemma CounterUnderflowsAt(nodes: seq<TeamNode>, start: nat, visit: seq<nat>, i: nat)
    requires start < |nodes| && ValidVisit(nodes, visit) && i < |visit|
    requires var ct := CounterRun(nodes, start, visit[..i]);
      && ct.panic.None? && ct.spacer == 0
      && nodes[visit[i]].id != 0
      && nodes[visit[i]].parentId.Some? && nodes[visit[i]].parentId.value != nodes[ct.current].id
    ensures CounterRun(nodes, start, visit) ==
      CounterRun(nodes, start, visit[..i]).(panic := Some(SpacerUnderflow(nodes[visit[i]].name)))
  {
    CounterRunStep(nodes, start, visit, i);
    CounterPanicSticks(nodes, start, visit, i + 1);
  }

  /** Visiting the root first leaves every later state as if the root had
      not been visited. */
  lemma {:induction false} CounterSkipsLeadingRoot(nodes: seq<TeamNode>, start: nat, r: nat, visit: seq<nat>)
    requires start < |nodes| && r < |nodes| && nodes[r].id == 0 && ValidVisit(nodes, visit)
    ensures ValidVisit(nodes, [r] + visit)
    ensures CounterRun(nodes, start, [r] + visit) == CounterRun(nodes, start, visit)
  {
    var w := [r] + visit;
    assert ValidVisit(nodes, w) by {
      forall i | 0 <= i < |w| ensures w[i] < |nodes| {
        if i > 0 {
          assert w[i] == visit[i - 1];
        }
      }
    }
    if visit == [] {
      assert w[..0] == [];
    } else {
      var init := visit[..|visit| - 1];
      CounterSkipsLeadingRoot(nodes, start, r, init);
      assert w[..|w| - 1] == [r] + init;
    }
  }

  /** One entry per visited node whose id is not 0, in visit order, with its
      name; fewer exactly when the counter underflowed. */
  lemma {:induction false} CounterPrintsNonRootNodes(nodes: seq<TeamNode>, start: nat, visit: seq<nat>)
    requires start < |nodes| && ValidVisit(nodes, visit)
    ensures var st := CounterRun(nodes, start, visit);
      && |st.entries| <= |Printed(nodes, visit)|
      && (st.panic.None? <==> |st.entries| == |Printed(nodes, visit)|)
      && forall k :: 0 <= k < |st.entries| ==> st.entries[k].name == nodes[Printed(nodes, visit)[k]].name
  {
    if visit != [] {
      var init := visit[..|visit| - 1];
      CounterPrintsNonRootNodes(nodes, start, init);
      var v := visit[|visit| - 1];
      var st0 := CounterRun(nodes, start, init);
      var st := CounterRun(nodes, start, visit);
      assert st == CounterVisit(nodes, st0, v);
      assert Printed(nodes, visit) == Printed(nodes, init) + (if nodes[v].id != 0 then [v] else []);
    }
  }

  /** A chain (a top-level team, then teams each a child of the one before)
      prints its k-th member at depth k, so Eng/Platform/Infra print at
      indents 0, 2 and 4. */
  lemma {:induction false} CounterChainDepths(nodes: seq<TeamNode>, start: nat, visit: seq<nat>)
    requires start < |nodes| && ValidVisit(nodes, visit) && Chain(nodes, visit)
    ensures var st := CounterRun(nodes, start, visit);
      && st.panic == None
      && |st.entries| == |visit|
      && (forall k :: 0 <= k < |visit| ==> st.entries[k] == Entry(k, nodes[visit[k]].name))
      && st.current == visit[|visit| - 1]
  {
    var init := visit[..|visit| - 1];
    if |visit| > 1 {
      assert Chain(nodes, init) by {
        forall k | 1 <= k < |init| ensures LinkedAt(nodes, init, k) {
          assert init[k] == visit[k] && init[k - 1] == visit[k - 1] && LinkedAt(nodes, visit, k);
        }
      }
      CounterChainDepths(nodes, start, init);
      assert LinkedAt(nodes, visit, |visit| - 1);
    }
  }

  /** The two printers on the same visit order: the counter never indents
      deeper than the stack, prints no more lines, and has already panicked
      whenever the stack printer panics. */
  lemma {:induction false} CounterNeverDeeperThanStack(nodes: seq<TeamNode>, start: nat, visit: seq<nat>)
    requires start < |nodes| && ValidVisit(nodes, visit)
    ensures var st := StackRun(nodes, start, visit);
      var ct := CounterRun(nodes, start, visit);
      && |ct.entries| <= |st.entries|
      && (forall k :: 0 <= k < |ct.entries| ==> ct.entries[k].depth <= st.entries[k].depth && ct.entries[k].name == st.entries[k].name)
      && (st.panic.Some? ==> ct.panic.Some?)
  {
    StatesAlong(nodes, start, visit);
  }

  /** What holds between the two printers' states after the same visits. */
  ghost predicate Dominated(st: StackState, ct: CounterState)
  {
    && |ct.entries| <= |st.entries|
    && (forall k :: 0 <= k < |ct.entries| ==> ct.entries[k].depth <= st.entries[k].depth && ct.entries[k].name == st.entries[k].name)
    && (st.panic.Some? ==> ct.panic.Some?)
    && (ct.panic.None? ==> ct.current == st.current && ct.spacer <= |st.stack| && |ct.entries| == |st.entries|)
  }

  lemma {:induction false} StatesAlong(nodes: seq<TeamNode>, start: nat, visit: seq<nat>)
    requires start < |nodes| && ValidVisit(nodes, visit)
    ensures Dominated(StackRun(nodes, start, visit), CounterRun(nodes, start, visit))
  {
    if visit != [] {
      var init := visit[..|visit| - 1];
      StatesAlong(nodes, start, init);
      VisitKeepsDominated(nodes, StackRun(nodes, start, init), CounterRun(nodes, start, init), visit[|visit| - 1]);
    }
  }

  lemma VisitKeepsDominated(nodes: seq<TeamNode>, st: StackState, ct: CounterState, v: nat)
    requires st.current < |nodes| && ct.current < |nodes| && v < |nodes|
    requires Dominated(st, ct)
    ensures Dominated(StackVisit(nodes, st, v), CounterVisit(nodes, ct, v))
  {
    var st' := StackVisit(nodes, st, v);
    var ct' := CounterVisit(nodes, ct, v);
    assert st.entries <= st'.entries;
    if ct.panic.None? && st'.panic.None? && ct'.panic.None? && nodes[v].id != 0 {
      assert ct'.entries == ct.entries + [Entry(ct'.spacer, nodes[v].name)];
      assert st'.entries == st.entries + [Entry(|st'.stack|, nodes[v].name)];
    }
  }

  /** A chain (say Eng, Platform under Eng, Infra under Platform) followed by
      a top-level team (say Design): the counter printer of src/main.rs
      resets and prints the top-level team flush, while the stack printer of
      src/chunk/teams.rs pops a single ancestor and prints it at depth
      |chain| - 2, so Design comes out indented under Eng. */
  lemma {:induction false} TopLevelAfterChain(nodes: seq<TeamNode>, start: nat, visit: seq<nat>, v: nat)
    requires start < |nodes| && ValidVisit(nodes, visit) && Chain(nodes, visit)
    requires v < |nodes| && nodes[v].id != 0 && nodes[v].parentId.None?
    ensures ValidVisit(nodes, visit + [v])
    ensures var st := StackRun(nodes, start, visit + [v]);
      && st.panic == None
      && st.entries == StackRun(nodes, start, visit).entries + [Entry(if |visit| == 1 then 0 else |visit| - 2, nodes[v].name)]
    ensures var ct := CounterRun(nodes, start, visit + [v]);
      && ct.panic == None
      && ct.entries == CounterRun(nodes, start, visit).entries + [Entry(0, nodes[v].name)]
  {
    var w := visit + [v];
    assert ValidVisit(nodes, w) by {
      forall i | 0 <= i < |w| ensures w[i] < |nodes| {
        if i < |visit| {
          assert w[i] == visit[i];
        }
      }
    }
    assert w[..|w| - 1] == visit;
    StackChainDepths(nodes, start, visit);
    CounterChainDepths(nodes, start, visit);
  }
}
