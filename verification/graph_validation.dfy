/**
 * Structural validation of the workflow graph (src/utils/validation.ts):
 * the undirected adjacency map, the per-type minimum-degree check and the
 * exactly-one-start / exactly-one-end rules.
 */
module GraphValidation {
  import opened Wrappers
  import opened Text
  import opened Helpers
  import opened Workflow

  /** The source's `minConnections` table, keyed by node type tag. */
  const MinConnections: map<string, nat> :=
    map["start" := 1, "form" := 2, "conditional" := 3, "api" := 2, "end" := 1]

  /** `requirements[tag] ?? 1`: the table's entry, or 1 for a tag it lacks. */
  function Required(requirements: map<string, nat>, tag: string): nat {
    if tag in requirements then requirements[tag] else 1
  }

  /** The minimum degree of each node kind under the source's table. */
  lemma RequiredDegreeByKind(k: NodeKind)
    requires WellFormedKind(k)
    ensures Required(MinConnections, Tag(k)) ==
      match k
      case Start => 1
      case Form => 2
      case Conditional => 3
      case Api => 2
      case End => 1
      case Custom(_) => 1
  {
  }

  /** Node id to the set of its neighbours' ids. */
  type Adjacency = map<string, set<string>>

  /** Edge `e` joins `u` and `v`, in either direction. */
  predicate Connects(e: Edge, u: string, v: string) {
    (e.source == u && e.target == v) || (e.source == v && e.target == u)
  }

  /** The reference relation: some edge between two existing nodes joins `u` and `v`. */
  predicate Linked(ids: set<string>, edges: seq<Edge>, u: string, v: string) {
    exists i :: 0 <= i < |edges| && edges[i].source in ids && edges[i].target in ids && Connects(edges[i], u, v)
  }

  /** The distinct neighbours of `u` under the reference relation. */
  function Neighbours(ids: set<string>, edges: seq<Edge>, u: string): set<string> {
    set v | v in ids && Linked(ids, edges, u, v)
  }

  /** One step of the edge loop: an edge with an unknown endpoint is skipped. */
  function AddEdge(adj: Adjacency, e: Edge): (r: Adjacency)
    ensures r.Keys == adj.Keys
  {
    if e.source in adj && e.target in adj then
      var a := adj[e.source := adj[e.source] + {e.target}];
      a[e.target := a[e.target] + {e.source}]
    else adj
  }

  /** The source's `buildUndirectedAdjacencyMap`, with edges added in list order. */
  function BuildAdjacency(nodes: seq<Node>, edges: seq<Edge>): (adj: Adjacency)
    ensures adj.Keys == NodeIds(nodes)
    decreases |edges|
  {
    if edges == [] then map id | id in NodeIds(nodes) :: {}
    else AddEdge(BuildAdjacency(nodes, edges[..|edges| - 1]), edges[|edges| - 1])
  }

  /** What one added edge contributes to a neighbour set. */
  lemma AddEdgeNeighbours(adj: Adjacency, e: Edge, u: string, v: string)
    requires u in adj
    ensures v in AddEdge(adj, e)[u] <==>
      v in adj[u] || (e.source in adj && e.target in adj && Connects(e, u, v))
  {
  }

  /**
   * The adjacency map holds exactly the reference relation: `v` is a neighbour
   * of `u` iff some edge between existing nodes joins them.
   */
  lemma {:induction false} AdjacencyMatchesEdges(nodes: seq<Node>, edges: seq<Edge>, u: string, v: string)
    requires u in NodeIds(nodes)
    ensures v in BuildAdjacency(nodes, edges)[u] <==> Linked(NodeIds(nodes), edges, u, v)
  {
    if edges != [] {
      var ids := NodeIds(nodes);
      var init := edges[..|edges| - 1];
      var e := edges[|edges| - 1];
      AdjacencyMatchesEdges(nodes, init, u, v);
      AddEdgeNeighbours(BuildAdjacency(nodes, init), e, u, v);
      assert edges == init + [e];
      LinkedSnoc(ids, init, e, u, v);
    }
  }

  /** An edge appended to the list adds its own link to the reference relation. */
  lemma LinkedSnoc(ids: set<string>, init: seq<Edge>, e: Edge, u: string, v: string)
    ensures Linked(ids, init + [e], u, v) <==>
      Linked(ids, init, u, v) || (e.source in ids && e.target in ids && Connects(e, u, v))
  {
    var edges := init + [e];
    if Linked(ids, edges, u, v) {
      var i :| 0 <= i < |edges| && edges[i].source in ids && edges[i].target in ids && Connects(edges[i], u, v);
      if i < |init| {
        assert init[i] == edges[i];
      }
    }
    if Linked(ids, init, u, v) {
      var i :| 0 <= i < |init| && init[i].source in ids && init[i].target in ids && Connects(init[i], u, v);
      assert edges[i] == init[i];
    }
    if e.source in ids && e.target in ids && Connects(e, u, v) {
      assert edges[|init|] == e;
    }
  }

  /** The map is symmetric, and neighbours are node ids. */
  lemma AdjacencySymmetric(nodes: seq<Node>, edges: seq<Edge>, u: string, v: string)
    requires u in NodeIds(nodes)
    ensures v in BuildAdjacency(nodes, edges)[u] ==> v in NodeIds(nodes)
    ensures v in NodeIds(nodes) ==>
      (v in BuildAdjacency(nodes, edges)[u] <==> u in BuildAdjacency(nodes, edges)[v])
  {
    AdjacencyMatchesEdges(nodes, edges, u, v);
    if v in NodeIds(nodes) {
      AdjacencyMatchesEdges(nodes, edges, v, u);
    }
  }

  /** A self-loop on an existing node makes the node its own neighbour. */
  lemma SelfLoopCounts(nodes: seq<Node>, edges: seq<Edge>, u: string)
    requires u in NodeIds(nodes)
    requires Edge(u, u) in edges
    ensures u in BuildAdjacency(nodes, edges)[u]
  {
    var i :| 0 <= i < |edges| && edges[i] == Edge(u, u);
    AdjacencyMatchesEdges(nodes, edges, u, u);
  }

  /** An edge with an endpoint that is not a node id changes nothing. */
  lemma DanglingEdgeIgnored(nodes: seq<Node>, edges: seq<Edge>, e: Edge)
    requires e.source !in NodeIds(nodes) || e.target !in NodeIds(nodes)
    ensures BuildAdjacency(nodes, edges + [e]) == BuildAdjacency(nodes, edges)
  {
    assert (edges + [e])[..|edges|] == edges;
  }

  /** `adjacency[id]?.size ?? 0`. */
  function Degree(adj: Adjacency, id: string): nat {
    if id in adj then |adj[id]| else 0
  }

  /** The degree of a node is the number of its distinct neighbours. */
  lemma DegreeIsNeighbourCount(nodes: seq<Node>, edges: seq<Edge>, u: string)
    requires u in NodeIds(nodes)
    ensures Degree(BuildAdjacency(nodes, edges), u) == |Neighbours(NodeIds(nodes), edges, u)|
  {
    var adj := BuildAdjacency(nodes, edges);
    forall v
      ensures v in adj[u] <==> v in Neighbours(NodeIds(nodes), edges, u)
    {
      AdjacencySymmetric(nodes, edges, u, v);
      AdjacencyMatchesEdges(nodes, edges, u, v);
    }
    assert adj[u] == Neighbours(NodeIds(nodes), edges, u);
  }

  function NotConnectedMessage(tag: string): string {
    Capitalize(tag) + " Node is not connected"
  }

  function MissingMessage(tag: string, missing: nat): string {
    Capitalize(tag) + " Node is missing " + NatToString(missing) + " "
      + (if missing == 1 then "connection" else "connections")
  }

  /** The missing-connections wording is Pluralize's rule for "connection". */
  lemma MissingMessageWording(tag: string, missing: nat)
    ensures MissingMessage(tag, missing) ==
      Capitalize(tag) + " Node is missing " + NatToString(missing) + " "
      + Pluralize(missing, "connection", None)
  {
  }

  /** The two connectivity messages can never be confused: they end differently. */
  lemma ConnectivityMessagesDistinct(tag: string, tag': string, missing: nat)
    ensures NotConnectedMessage(tag) != MissingMessage(tag', missing)
  {
    var a := NotConnectedMessage(tag);
    var b := MissingMessage(tag', missing);
    assert a[|a| - 1] == 'd';
    assert b[|b| - 1] == 'n' || b[|b| - 1] == 's';
  }

  /** The connectivity verdict for one node, or None when it has enough connections. */
  function ConnectionError(n: Node, adj: Adjacency, requirements: map<string, nat>): (r: Option<ValidationError>)
    ensures r.None? <==> MeetsRequirement(n, adj, requirements)
    ensures r.Some? ==> r.value.severity == Error && r.value.nodeId == Some(n.id)
  {
    var degree := Degree(adj, n.id);
    var required := Required(requirements, Tag(n.kind));
    if degree == 0 then Some(BuildError(NotConnectedMessage(Tag(n.kind)), Some(n.id)))
    else if degree < required then
      Some(BuildError(MissingMessage(Tag(n.kind), required - degree), Some(n.id)))
    else None
  }

  /** A node meets its requirement when it is connected and has at least the required degree. */
  predicate MeetsRequirement(n: Node, adj: Adjacency, requirements: map<string, nat>) {
    Degree(adj, n.id) > 0 && Degree(adj, n.id) >= Required(requirements, Tag(n.kind))
  }

  /**
   * Which message a node gets: none iff it meets its requirement; "not connected"
   * iff its degree is zero; otherwise "missing N" with N the shortfall.
   */
  lemma ConnectionErrorChoice(n: Node, adj: Adjacency, requirements: map<string, nat>)
    ensures ConnectionError(n, adj, requirements).None? <==> MeetsRequirement(n, adj, requirements)
    ensures ConnectionError(n, adj, requirements).Some? ==>
      var e := ConnectionError(n, adj, requirements).value;
      && e.severity == Error
      && e.nodeId == Some(n.id)
      && (e.message == NotConnectedMessage(Tag(n.kind)) <==> Degree(adj, n.id) == 0)
      && (Degree(adj, n.id) > 0 ==>
            e.message == MissingMessage(Tag(n.kind), Required(requirements, Tag(n.kind)) - Degree(adj, n.id)))
  {
    var e := ConnectionError(n, adj, requirements);
    if e.Some? && Degree(adj, n.id) > 0 {
      ConnectivityMessagesDistinct(Tag(n.kind), Tag(n.kind), Required(requirements, Tag(n.kind)) - Degree(adj, n.id));
    }
  }

  /** Under the source's table a connected node is never short of more than two connections. */
  lemma MissingAtMostTwo(n: Node, adj: Adjacency)
    requires Degree(adj, n.id) > 0
    ensures Required(MinConnections, Tag(n.kind)) - Degree(adj, n.id) <= 2
  {
  }

  /** The per-node verdict under a fixed adjacency and requirement table. */
  function NodeVerdict(adj: Adjacency, requirements: map<string, nat>): Node -> Option<ValidationError> {
    n => ConnectionError(n, adj, requirements)
  }

  /** The source's `validateNodeConnectionRequirements`: at most one error per node, in node order. */
  function ConnectionErrors(nodes: seq<Node>, adj: Adjacency, requirements: map<string, nat>): (r: seq<ValidationError>)
    ensures |r| <= |nodes|
    ensures forall e :: e in r ==> e.severity == Error && e.nodeId.Some?
    ensures r == [] <==> forall i :: 0 <= i < |nodes| ==> MeetsRequirement(nodes[i], adj, requirements)
  {
    FilterMap(nodes, NodeVerdict(adj, requirements))
  }

  /** Errors keep node order: the errors of a concatenation are the concatenated errors. */
  lemma ConnectionErrorsAppend(a: seq<Node>, b: seq<Node>, adj: Adjacency, requirements: map<string, nat>)
    ensures ConnectionErrors(a + b, adj, requirements) ==
      ConnectionErrors(a, adj, requirements) + ConnectionErrors(b, adj, requirements)
  {
    FilterMapAppend(a, b, NodeVerdict(adj, requirements));
  }

  /** The nodes of `nodes` whose type tag is `tag`, in order. */
  function NodesOfTag(nodes: seq<Node>, tag: string): (r: seq<Node>)
    ensures |r| <= |nodes|
    ensures forall n :: n in r <==> n in nodes && Tag(n.kind) == tag
  {
    if nodes == [] then []
    else (if Tag(nodes[0].kind) == tag then [nodes[0]] else []) + NodesOfTag(nodes[1..], tag)
  }

  /** The filter keeps every node of the tag as often as it occurs, and no other node. */
  lemma {:induction false} NodesOfTagCounts(nodes: seq<Node>, tag: string)
    ensures forall n :: multiset(NodesOfTag(nodes, tag))[n] == if Tag(n.kind) == tag then multiset(nodes)[n] else 0
  {
    if nodes != [] {
      assert nodes == [nodes[0]] + nodes[1..];
      NodesOfTagCounts(nodes[1..], tag);
    }
  }

  /** The filter keeps input order: filtering a concatenation concatenates the filtered parts. */
  lemma {:induction false} NodesOfTagAppend(a: seq<Node>, b: seq<Node>, tag: string)
    ensures NodesOfTag(a + b, tag) == NodesOfTag(a, tag) + NodesOfTag(b, tag)
  {
    if a == [] {
      assert a + b == b;
    } else {
      assert (a + b)[0] == a[0];
      assert (a + b)[1..] == a[1..] + b;
      NodesOfTagAppend(a[1..], b, tag);
    }
  }

  /** The first node of a tag is the earliest one in input order. */
  lemma {:induction false} FirstOfTag(nodes: seq<Node>, tag: string)
    requires NodesOfTag(nodes, tag) != []
    ensures exists k :: 0 <= k < |nodes| && nodes[k] == NodesOfTag(nodes, tag)[0]
                        && forall j :: 0 <= j < k ==> Tag(nodes[j].kind) != tag
  {
    if Tag(nodes[0].kind) != tag {
      FirstOfTag(nodes[1..], tag);
      var k :| 0 <= k < |nodes[1..]| && nodes[1..][k] == NodesOfTag(nodes[1..], tag)[0]
               && forall j :: 0 <= j < k ==> Tag(nodes[1..][j].kind) != tag;
      assert nodes[k + 1] == NodesOfTag(nodes, tag)[0];
      forall j | 0 <= j < k + 1
        ensures Tag(nodes[j].kind) != tag
      {
        if j > 0 {
          assert nodes[j] == nodes[1..][j - 1];
        }
      }
    } else {
      assert nodes[0] == NodesOfTag(nodes, tag)[0];
    }
  }

  const MissingStart := "Workflow must have one Start block"
  const DuplicateStart := "Workflow must have exactly one Start block"
  const MissingEnd := "Workflow must have one End block"
  const DuplicateEnd := "Workflow must have exactly one End block"

  /** The singleton-role check for one tag: no error for exactly one node of that tag. */
  function RoleErrors(nodes: seq<Node>, tag: string, missing: string, duplicate: string): (r: seq<ValidationError>)
    ensures |r| <= 1
    ensures r == [] <==> |NodesOfTag(nodes, tag)| == 1
    ensures forall e :: e in r ==> e.message == missing || e.message == duplicate
  {
    var ns := NodesOfTag(nodes, tag);
    if |ns| == 0 then [BuildError(missing, None)]
    else if |ns| != 1 then [BuildError(duplicate, Some(ns[0].id))]
    else []
  }

  function StartErrors(nodes: seq<Node>): seq<ValidationError> {
    RoleErrors(nodes, "start", MissingStart, DuplicateStart)
  }

  function EndErrors(nodes: seq<Node>): seq<ValidationError> {
    RoleErrors(nodes, "end", MissingEnd, DuplicateEnd)
  }

  /** The source's `validateWorkflow`: role errors first, then connectivity errors. */
  function ValidateWorkflow(nodes: seq<Node>, edges: seq<Edge>): seq<ValidationError> {
    StartErrors(nodes) + EndErrors(nodes) + ConnectionErrors(nodes, BuildAdjacency(nodes, edges), MinConnections)
  }

  predicate IsStartMessage(m: string) {
    m == MissingStart || m == DuplicateStart
  }

  predicate IsEndMessage(m: string) {
    m == MissingEnd || m == DuplicateEnd
  }

  /** The four messages of the singleton-role checks. */
  predicate IsRoleMessage(m: string) {
    IsStartMessage(m) || IsEndMessage(m)
  }

  /** A connectivity message is never a role message. */
  lemma ConnectionMessageNotRole(n: Node, adj: Adjacency, requirements: map<string, nat>)
    requires ConnectionError(n, adj, requirements).Some?
    ensures !IsRoleMessage(ConnectionError(n, adj, requirements).value.message)
  {
    var m := ConnectionError(n, adj, requirements).value.message;
    assert m[|m| - 1] != 'k';
  }

  lemma {:induction false} ConnectionErrorsNotRole(nodes: seq<Node>, adj: Adjacency, requirements: map<string, nat>)
    ensures forall e :: e in ConnectionErrors(nodes, adj, requirements) ==> !IsRoleMessage(e.message)
  {
    if nodes != [] {
      if ConnectionError(nodes[0], adj, requirements).Some? {
        ConnectionMessageNotRole(nodes[0], adj, requirements);
      }
      ConnectionErrorsNotRole(nodes[1..], adj, requirements);
    }
  }

  /** The reference degree rule: at least one, and at least the required number of, distinct neighbours. */
  predicate HasEnoughNeighbours(nodes: seq<Node>, edges: seq<Edge>, n: Node) {
    var d := |Neighbours(NodeIds(nodes), edges, n.id)|;
    d > 0 && d >= Required(MinConnections, Tag(n.kind))
  }

  lemma MeetsRequirementIffNeighbours(nodes: seq<Node>, edges: seq<Edge>, n: Node)
    requires n in nodes
    ensures MeetsRequirement(n, BuildAdjacency(nodes, edges), MinConnections) <==> HasEnoughNeighbours(nodes, edges, n)
  {
    DegreeIsNeighbourCount(nodes, edges, n.id);
  }

  /** No connectivity error exactly when every node has enough distinct neighbours. */
  lemma ConnectionErrorsIffNeighbours(nodes: seq<Node>, edges: seq<Edge>)
    ensures ConnectionErrors(nodes, BuildAdjacency(nodes, edges), MinConnections) == [] <==>
      forall i :: 0 <= i < |nodes| ==> HasEnoughNeighbours(nodes, edges, nodes[i])
  {
    var adj := BuildAdjacency(nodes, edges);
    forall i | 0 <= i < |nodes|
      ensures MeetsRequirement(nodes[i], adj, MinConnections) <==> HasEnoughNeighbours(nodes, edges, nodes[i])
    {
      MeetsRequirementIffNeighbours(nodes, edges, nodes[i]);
    }
  }

  /**
   * The graph is free of structural errors exactly when it has one start node,
   * one end node, and every node has at least its required number of distinct
   * neighbours (and at least one).
   */
  lemma ValidWorkflowIff(nodes: seq<Node>, edges: seq<Edge>)
    ensures ValidateWorkflow(nodes, edges) == [] <==>
      && |NodesOfTag(nodes, "start")| == 1
      && |NodesOfTag(nodes, "end")| == 1
      && forall i :: 0 <= i < |nodes| ==> HasEnoughNeighbours(nodes, edges, nodes[i])
  {
    assert ValidateWorkflow(nodes, edges) == [] <==>
      && |NodesOfTag(nodes, "start")| == 1
      && |NodesOfTag(nodes, "end")| == 1
      && ConnectionErrors(nodes, BuildAdjacency(nodes, edges), MinConnections) == [];
    ConnectionErrorsIffNeighbours(nodes, edges);
  }

  /** Where each kind of message can sit in a concatenation of start, end and connectivity errors. */
  lemma ErrorLayout(s: seq<ValidationError>, e: seq<ValidationError>, c: seq<ValidationError>)
    requires |s| <= 1 && |e| <= 1
    requires forall x :: x in s ==> IsStartMessage(x.message)
    requires forall x :: x in e ==> IsEndMessage(x.message)
    requires forall x :: x in c ==> !IsRoleMessage(x.message)
    ensures var r := s + e + c;
      && (forall i, j :: 0 <= i < j < |r| && IsRoleMessage(r[j].message) ==> IsRoleMessage(r[i].message))
      && (forall i :: 0 <= i < |r| && IsStartMessage(r[i].message) ==> i == 0 && s != [])
      && (forall i :: 0 <= i < |r| && IsEndMessage(r[i].message) ==> i == |s| && e != [])
  {
    var r := s + e + c;
    assert forall i :: |s| + |e| <= i < |r| ==> r[i] == c[i - |s| - |e|];
    assert forall i :: |s| <= i < |s| + |e| ==> r[i] == e[i - |s|];
  }

  lemma WorkflowLayout(nodes: seq<Node>, edges: seq<Edge>)
    ensures var r := ValidateWorkflow(nodes, edges);
      && (forall i, j :: 0 <= i < j < |r| && IsRoleMessage(r[j].message) ==> IsRoleMessage(r[i].message))
      && (forall i :: 0 <= i < |r| && IsStartMessage(r[i].message) ==> i == 0 && StartErrors(nodes) != [])
      && (forall i :: 0 <= i < |r| && IsEndMessage(r[i].message) ==> i == |StartErrors(nodes)| && EndErrors(nodes) != [])
  {
    ConnectionErrorsNotRole(nodes, BuildAdjacency(nodes, edges), MinConnections);
    ErrorLayout(StartErrors(nodes), EndErrors(nodes), ConnectionErrors(nodes, BuildAdjacency(nodes, edges), MinConnections));
  }

  /** Role errors form a prefix of the result: no role error follows a connectivity error. */
  lemma RoleErrorsFirst(nodes: seq<Node>, edges: seq<Edge>)
    ensures var r := ValidateWorkflow(nodes, edges);
      forall i, j :: 0 <= i < j < |r| && IsRoleMessage(r[j].message) ==> IsRoleMessage(r[i].message)
  {
    WorkflowLayout(nodes, edges);
  }

  /**
   * The start-node rule: none gives the id-less "must have one Start block" as the
   * first error; several give "must have exactly one Start block" on the first
   * start node; exactly one gives no start error. At most one error, the first,
   * mentions the Start block.
   */
  lemma StartRule(nodes: seq<Node>, edges: seq<Edge>)
    ensures var r := ValidateWorkflow(nodes, edges);
      var starts := NodesOfTag(nodes, "start");
      && (|starts| == 0 ==> r[0] == BuildError(MissingStart, None))
      && (|starts| > 1 ==> r[0] == BuildError(DuplicateStart, Some(starts[0].id)))
      && forall i :: 0 <= i < |r| && IsStartMessage(r[i].message) ==> i == 0 && |starts| != 1
  {
    WorkflowLayout(nodes, edges);
  }

  /** The end-node rule: the start-node rule for end nodes, placed after the start error. */
  lemma EndRule(nodes: seq<Node>, edges: seq<Edge>)
    ensures var r := ValidateWorkflow(nodes, edges);
      var ends := NodesOfTag(nodes, "end");
      var k := |StartErrors(nodes)|;
      && k <= 1
      && (|ends| == 0 ==> r[k] == BuildError(MissingEnd, None))
      && (|ends| > 1 ==> r[k] == BuildError(DuplicateEnd, Some(ends[0].id)))
      && forall i :: 0 <= i < |r| && IsEndMessage(r[i].message) ==> i == k && |ends| != 1
  {
    WorkflowLayout(nodes, edges);
    var s := StartErrors(nodes);
    var r := ValidateWorkflow(nodes, edges);
    if EndErrors(nodes) != [] {
      assert r[|s|] == EndErrors(nodes)[0];
    }
  }
}
