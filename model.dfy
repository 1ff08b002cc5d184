/** The values the team-tree core works on: the records the directory service
    returns page by page, the node weights of the team graph (TeamTreeNode in
    src/chunk/util.rs), its edges, and the lines the outline printers emit. */
module Model {

  datatype Option<T> = None | Some(value: T)

  datatype Result<T, E> = Success(value: T) | Failure(error: E)

  /** The remote service's team privacy setting. */
  datatype Privacy = Secret | Closed | Open

  /** One team as the listing endpoint returns it: the id may be missing, and
      the parent team is reduced to its id. */
  datatype TeamItem = TeamItem(id: Option<nat>, name: string, privacy: Privacy, parent: Option<nat>)

  /** One page of the listing; `hasNext` stands for the page's `next` link. */
  datatype Page = Page(items: seq<TeamItem>, hasNext: bool)

  /** The answer to one page request. */
  datatype Response = Fetched(page: Page) | FetchError(message: string)

  /** A node weight of the team graph. */
  datatype TeamNode = TeamNode(id: nat, name: string, isPrivate: bool, parentId: Option<nat>)

  /** A directed graph edge `parent -> child` between node indices, with its u8 weight. */
  datatype Edge = Edge(parent: nat, child: nat, weight: nat)

  /** Every way a run aborts: a failed page request (naming the page number),
      an item without id, a parent id that is not indexed, an empty ancestor
      stack, or a depth counter that would go below zero. */
  datatype Panic =
    | FetchFailed(page: nat)
    | MissingTeamId
    | UnresolvedParent(name: string)
    | EmptyParentStack(name: string)
    | SpacerUnderflow(name: string)

  /** One printed outline line before formatting: its depth and the team name. */
  datatype Entry = Entry(depth: nat, name: string)

  /** What a printer leaves behind: the lines it printed, in order, and the
      panic that stopped it, if any. */
  datatype Output = Output(lines: seq<string>, panic: Option<Panic>)

  const RootName: string := "Root (Not a team)"

  /** The synthetic root node every graph starts with. */
  const RootTeam: TeamNode := TeamNode(0, RootName, true, None)

  /** The node weight built from a listing item; None when the item has no id.
      `isPrivate` is set exactly for Open teams, as the source does. */
  function ToNode(item: TeamItem): (n: Option<TeamNode>)
    ensures n.Some? <==> item.id.Some?
    ensures n.Some? ==> n.value.id == item.id.value && n.value.name == item.name
    ensures n.Some? ==> (n.value.isPrivate <==> item.privacy == Open)
    ensures n.Some? ==> n.value.parentId == item.parent
  {
    match item.id
    case None => None
    case Some(id) => Some(TeamNode(id, item.name, item.privacy == Open, item.parent))
  }

  /** `"  "` repeated `n` times. */
  function Indent(n: nat): (s: string)
    ensures |s| == 2 * n
    ensures forall i :: 0 <= i < |s| ==> s[i] == ' '
  {
    if n == 0 then "" else "  " + Indent(n - 1)
  }

  /** The printed form of an entry: the indentation, the marker and the name. */
  function Line(e: Entry): (line: string)
    ensures |line| == 2 * e.depth + 2 + |e.name|
    ensures forall i :: 0 <= i < 2 * e.depth ==> line[i] == ' '
    ensures line[2 * e.depth..] == "- " + e.name
  {
    Indent(e.depth) + "- " + e.name
  }

  function Render(entries: seq<Entry>): (lines: seq<string>)
    ensures |lines| == |entries|
    ensures forall k :: 0 <= k < |entries| ==> lines[k] == Line(entries[k])
  {
    seq(|entries|, k requires 0 <= k < |entries| => Line(entries[k]))
  }

  lemma RenderAppend(entries: seq<Entry>, e: Entry)
    ensures Render(entries + [e]) == Render(entries) + [Line(e)]
  {
  }

  /** Every position of a visit order is a node index. */
  ghost predicate ValidVisit(nodes: seq<TeamNode>, visit: seq<nat>)
  {
    forall i :: 0 <= i < |visit| ==> visit[i] < |nodes|
  }

  /** The positions of `visit` a printer prints: those whose node id is not 0. */
  function Printed(nodes: seq<TeamNode>, visit: seq<nat>): (r: seq<nat>)
    requires ValidVisit(nodes, visit)
    ensures |r| <= |visit|
    ensures forall k :: 0 <= k < |r| ==> r[k] < |nodes| && nodes[r[k]].id != 0
  {
    if visit == [] then []
    else
      var v := visit[|visit| - 1];
      Printed(nodes, visit[..|visit| - 1]) + (if nodes[v].id != 0 then [v] else [])
  }

  /** A printer reaches exactly the visited nodes whose id is not 0. */
  lemma {:induction false} PrintedMembers(nodes: seq<TeamNode>, visit: seq<nat>)
    requires ValidVisit(nodes, visit)
    ensures forall v :: v in Printed(nodes, visit) <==> v in visit && v < |nodes| && nodes[v].id != 0
  {
    if visit != [] {
      var init := visit[..|visit| - 1];
      PrintedMembers(nodes, init);
      assert visit == init + [visit[|visit| - 1]];
    }
  }
}
