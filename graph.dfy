/** The directed graph the core builds into: node weights addressed by their
    insertion index and parent-to-child edges, as the petgraph `Graph` used by
    src/chunk/teams.rs and src/main.rs stores them. */
module Graph {
  import opened Model

  class TeamGraph {
    var nodes: seq<TeamNode>
    var edges: seq<Edge>

    constructor ()
      ensures nodes == [] && edges == []
    {
      nodes := [];
      edges := [];
    }

    /** Appends a node and returns its index. */
    method AddNode(weight: TeamNode) returns (idx: nat)
      modifies this
      ensures idx == |old(nodes)|
      ensures nodes == old(nodes) + [weight] && edges == old(edges)
    {
      idx := |nodes|;
      nodes := nodes + [weight];
    }

    /** Appends the edge `a -> b`; both ends must be existing node indices. */
    method AddEdge(a: nat, b: nat, weight: nat)
      requires a < |nodes| && b < |nodes|
      modifies this
      ensures edges == old(edges) + [Edge(a, b, weight)] && nodes == old(nodes)
    {
      edges := edges + [Edge(a, b, weight)];
    }
  }
}
