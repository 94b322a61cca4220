/** The projection of a catalog's controls into the tenant graph: every node before any edge, through calls
    that may fail, over a graph that earlier projections may have left half written. */
module Projection {

  // ---- derived IDs ----

  function EscapeChar(c: char): string {
    if c == '%' then "%25" else if c == '_' then "%5F" else [c]
  }

  function Escape(part: string): string {
    if part == "" then "" else EscapeChar(part[0]) + Escape(part[1..])
  }

  /** The escaped parts, joined with underscores. */
  function DerivedId(parts: seq<string>): string {
    if parts == [] then ""
    else if |parts| == 1 then Escape(parts[0])
    else Escape(parts[0]) + ("_" + DerivedId(parts[1..]))
  }

  /** What may follow an escaped part: the end, or the separator. */
  predicate Ends(rest: string) {
    rest == "" || rest[0] == '_'
  }

  lemma EscapeCharFirst(c: char)
    ensures EscapeChar(c) != "" && EscapeChar(c)[0] != '_'
  {
  }

  lemma CharPrefixFree(c: char, d: char, s: string, t: string)
    requires EscapeChar(c) + s == EscapeChar(d) + t
    ensures c == d && s == t
  {
    var u := EscapeChar(c) + s;
    assert u[0] == EscapeChar(c)[0] == EscapeChar(d)[0];
    if u[0] == '%' {
      assert u[1] == EscapeChar(c)[1] == EscapeChar(d)[1];
    }
    assert c == d;
    assert s == u[|EscapeChar(c)|..] && t == u[|EscapeChar(d)|..];
  }

  lemma EscapeCons(a: string, s: string)
    requires a != ""
    ensures Escape(a) + s == EscapeChar(a[0]) + (Escape(a[1..]) + s) && !Ends(Escape(a) + s)
  {
    hide EscapeChar;
    EscapeCharFirst(a[0]);
    var e, rest := EscapeChar(a[0]), Escape(a[1..]);
    assert Escape(a) == e + rest;
    hide Escape;
    Regroup(e, rest, s);
  }

  lemma Regroup(a: string, b: string, c: string)
    ensures (a + b) + c == a + (b + c)
    ensures a != "" ==> (a + (b + c))[0] == a[0]
  {
  }

  lemma {:induction false} PartPrefixFree(a: string, b: string, s: string, t: string)
    requires Ends(s) && Ends(t) && Escape(a) + s == Escape(b) + t
    ensures a == b && s == t
  {
    hide EscapeChar;
    if a != "" { EscapeCons(a, s); } else { assert Escape(a) + s == s; }
    if b != "" { EscapeCons(b, t); } else { assert Escape(b) + t == t; }
    if a != "" && b != "" {
      CharPrefixFree(a[0], b[0], Escape(a[1..]) + s, Escape(b[1..]) + t);
      PartPrefixFree(a[1..], b[1..], s, t);
      assert a == [a[0]] + a[1..] && b == [b[0]] + b[1..];
    }
  }

  function Tail(parts: seq<string>): string {
    if |parts| <= 1 then "" else "_" + DerivedId(parts[1..])
  }

  lemma DerivedCons(parts: seq<string>)
    requires parts != []
    ensures DerivedId(parts) == Escape(parts[0]) + Tail(parts) && Ends(Tail(parts))
  {
    hide Escape;
    assert |parts| == 1 ==> Escape(parts[0]) + "" == Escape(parts[0]);
  }

  /** Distinct non-empty part lists give distinct IDs, whatever the parts contain. */
  lemma {:induction false} DerivedIdsDiffer(parts: seq<string>, parts': seq<string>)
    requires parts != [] && parts' != [] && DerivedId(parts) == DerivedId(parts')
    ensures parts == parts'
  {
    hide Escape, DerivedId, Ends;
    DerivedCons(parts);
    DerivedCons(parts');
    PartPrefixFree(parts[0], parts'[0], Tail(parts), Tail(parts'));
    if |parts| > 1 && |parts'| > 1 {
      assert DerivedId(parts[1..]) == Tail(parts)[1..] && DerivedId(parts'[1..]) == Tail(parts')[1..];
      DerivedIdsDiffer(parts[1..], parts'[1..]);
    }
    assert parts == [parts[0]] + parts[1..] && parts' == [parts'[0]] + parts'[1..];
  }

  // ---- the graph ----

  /** A control row: its catalog, its ID, its parent's identifier and the properties the node carries. */
  datatype Control = Control(catalog: string, id: string, parent: string, properties: string)

  /** A node: its label, the properties its writer owns, and when it is valid and what superseded it, which an
      upsert keeps (the last two empty when unset). */
  datatype Node = Node(kind: string, properties: string, validFrom: int, validTo: string, supersededBy: string)

  datatype Edge = Edge(source: string, target: string, validFrom: int)

  datatype Graph = Graph(nodes: map<string, Node>, edges: map<string, Edge>)

  datatype Reply = Done | NotFound | Exists | Failed

  function ParentOf(c: Control): string {
    c.catalog + "/" + c.parent
  }

  function EdgeId(source: string, target: string): string {
    DerivedId(["parent-of", source, target])
  }

  /** A control's node after an upsert: new, or the stored one with the row's properties. */
  function Refreshed(g: Graph, id: string, properties: string, now: int): Node {
    if id in g.nodes then g.nodes[id].(kind := "Control", properties := properties) else Node("Control", properties, now, "", "")
  }

  /** UpsertNode: creates, or replaces the properties of a node of the same label and keeps its validity and
      what superseded it; an ID under another label is refused. */
  function Upsert(g: Graph, c: Control, now: int, fails: bool): (Graph, Reply) {
    if fails || (c.id in g.nodes && g.nodes[c.id].kind != "Control") then (g, Failed)
    else
      (g.(nodes := g.nodes[c.id := Refreshed(g, c.id, c.properties, now)]), Done)
  }

  /** CreateEdge: both endpoints must exist, and an edge ID is written once. */
  function Link(g: Graph, source: string, target: string, now: int, fails: bool): (Graph, Reply) {
    if fails then (g, Failed)
    else if source !in g.nodes || target !in g.nodes then (g, NotFound)
    else if EdgeId(source, target) in g.edges then (g, Exists)
    else (g.(edges := g.edges[EdgeId(source, target) := Edge(source, target, now)]), Done)
  }

  /** The nodes after the first n upserts, and how many of them failed. */
  function Nodes(g: Graph, controls: seq<Control>, now: int, fails: seq<bool>): (Graph, nat)
    requires |fails| == |controls|
  {
    if controls == [] then (g, 0)
    else
      var last := |controls| - 1;
      var (before, errs) := Nodes(g, controls[..last], now, fails[..last]);
      var (after, reply) := Upsert(before, controls[last], now, fails[last]);
      (after, errs + (if reply.Failed? then 1 else 0))
  }

  function Edges(g: Graph, controls: seq<Control>, now: int, fails: seq<bool>): (Graph, nat)
    requires |fails| == |controls|
  {
    if controls == [] then (g, 0)
    else
      var last := |controls| - 1;
      var (before, errs) := Edges(g, controls[..last], now, fails[..last]);
      var c := controls[last];
      if c.parent == "" then (before, errs)
      else
        var (after, reply) := Link(before, ParentOf(c), c.id, now, fails[last]);
        (after, errs + (if reply.Failed? then 1 else 0))
  }

  /** projectCatalog: the whole projection, and the number of errors it joins. An empty listing is an error. */
  function Project(g: Graph, controls: seq<Control>, now: int, nodeFails: seq<bool>, edgeFails: seq<bool>): (Graph, nat)
    requires |nodeFails| == |controls| == |edgeFails|
  {
    if controls == [] then (g, 1)
    else
      var (withNodes, nodeErrs) := Nodes(g, controls, now, nodeFails);
      var (withEdges, edgeErrs) := Edges(withNodes, controls, now, edgeFails);
      (withEdges, nodeErrs + edgeErrs)
  }

  lemma NodesOn(g: Graph, controls: seq<Control>, now: int, fails: seq<bool>, i: nat)
    requires |fails| == |controls| && i < |controls|
    ensures var (before, errs) := Nodes(g, controls[..i], now, fails[..i]);
            var (after, reply) := Upsert(before, controls[i], now, fails[i]);
            Nodes(g, controls[..i + 1], now, fails[..i + 1]) == (after, errs + (if reply.Failed? then 1 else 0))
  {
    hide Upsert;
    assert controls[..i + 1][..i] == controls[..i] && fails[..i + 1][..i] == fails[..i];
  }

  lemma EdgesOn(g: Graph, controls: seq<Control>, now: int, fails: seq<bool>, i: nat)
    requires |fails| == |controls| && i < |controls|
    ensures var (before, errs) := Edges(g, controls[..i], now, fails[..i]);
            var c := controls[i];
            var (after, reply) := Link(before, ParentOf(c), c.id, now, fails[i]);
            Edges(g, controls[..i + 1], now, fails[..i + 1]) ==
              if c.parent == "" then (before, errs) else (after, errs + (if reply.Failed? then 1 else 0))
  {
    hide Link;
    assert controls[..i + 1][..i] == controls[..i] && fails[..i + 1][..i] == fails[..i];
  }

  lemma NoRows(g: Graph, now: int)
    ensures Nodes(g, [], now, []) == (g, 0) && Edges(g, [], now, []) == (g, 0)
  {
  }

  /** The tenant graph that the service writes through. */
  class TenantGraph {
    var g: Graph

    method UpsertNode(c: Control, now: int, fails: bool) returns (reply: Reply)
      modifies this
      ensures (g, reply) == Upsert(old(g), c, now, fails)
    {
      if fails { return Failed; }
      var node := Node("Control", c.properties, now, "", "");
      if c.id in g.nodes {
        var existing := g.nodes[c.id];
        if existing.kind != "Control" { return Failed; }
        node := node.(validFrom := existing.validFrom, validTo := existing.validTo, supersededBy := existing.supersededBy);
      }
      g := g.(nodes := g.nodes[c.id := node]);
      return Done;
    }

    method CreateEdge(source: string, target: string, now: int, fails: bool) returns (reply: Reply)
      modifies this
      ensures (g, reply) == Link(old(g), source, target, now, fails)
    {
      if fails { return Failed; }
      if source !in g.nodes || target !in g.nodes { return NotFound; }
      if EdgeId(source, target) in g.edges { return Exists; }
      g := g.(edges := g.edges[EdgeId(source, target) := Edge(source, target, now)]);
      return Done;
    }

    /** projectCatalog: one pass for the nodes, one for the edges. */
    method ProjectCatalog(controls: seq<Control>, now: int, nodeFails: seq<bool>, edgeFails: seq<bool>) returns (errs: nat)
      requires |nodeFails| == |controls| == |edgeFails|
      modifies this
      ensures (g, errs) == Project(old(g), controls, now, nodeFails, edgeFails)
    {
      hide Upsert, Link, Nodes, Edges;
      if controls == [] { return 1; }
      errs := 0;
      NoRows(g, now);
      assert controls[..0] == [] && nodeFails[..0] == [] && edgeFails[..0] == [];
      for i := 0 to |controls|
        invariant (g, errs) == Nodes(old(g), controls[..i], now, nodeFails[..i])
      {
        NodesOn(old(g), controls, now, nodeFails, i);
        var reply := UpsertNode(controls[i], now, nodeFails[i]);
        if reply.Failed? { errs := errs + 1; }
      }
      assert controls[..|controls|] == controls && nodeFails[..|controls|] == nodeFails && edgeFails[..|controls|] == edgeFails;
      ghost var nodes, nodeErrs := g, errs;
      NoRows(g, now);
      for i := 0 to |controls|
        invariant g == Edges(nodes, controls[..i], now, edgeFails[..i]).0
        invariant errs == nodeErrs + Edges(nodes, controls[..i], now, edgeFails[..i]).1
      {
        EdgesOn(nodes, controls, now, edgeFails, i);
        var c := controls[i];
        if c.parent != "" {
          var reply := CreateEdge(ParentOf(c), c.id, now, edgeFails[i]);
          if reply.Failed? { errs := errs + 1; }
        }
      }
    }
  }

  // ---- what a projection that reports no error leaves ----

  /** The last row listed for an ID. */
  function LastRow(controls: seq<Control>, id: string): (r: seq<Control>)
    ensures |r| <= 1 && (r != [] ==> r[0] in controls && r[0].id == id)
    ensures r == [] <==> forall c :: c in controls ==> c.id != id
  {
    if controls == [] then []
    else if controls[|controls| - 1].id == id then [controls[|controls| - 1]]
    else LastRow(controls[..|controls| - 1], id)
  }

  /** A node holds the last row listed for it and keeps its validity; others stay as they were. */
  ghost predicate NodeOk(g: Graph, g': Graph, controls: seq<Control>, now: int, id: string) {
    var row := LastRow(controls, id);
    if row == [] then (id in g'.nodes <==> id in g.nodes) && (id in g.nodes ==> g'.nodes[id] == g.nodes[id])
    else id in g'.nodes && g'.nodes[id] == Refreshed(g, id, row[0].properties, now)
  }

  lemma {:induction false} NodesWritten(g: Graph, controls: seq<Control>, now: int, fails: seq<bool>, id: string)
    requires |fails| == |controls| && Nodes(g, controls, now, fails).1 == 0
    ensures NodeOk(g, Nodes(g, controls, now, fails).0, controls, now, id)
    ensures Nodes(g, controls, now, fails).0.edges == g.edges
  {
    if controls != [] {
      var last := |controls| - 1;
      NodesWritten(g, controls[..last], now, fails[..last], id);
    }
  }

  /** The edge a control's row calls for. */
  predicate Wants(g: Graph, c: Control, id: string) {
    c.parent != "" && EdgeId(ParentOf(c), c.id) == id && ParentOf(c) in g.nodes && c.id in g.nodes
  }

  ghost predicate EdgeOk(g: Graph, g': Graph, controls: seq<Control>, now: int, id: string) {
    && (id in g'.edges <==> id in g.edges || exists c :: c in controls && Wants(g, c, id))
    && (id in g.edges ==> g'.edges[id] == g.edges[id])
    && (id in g'.edges && id !in g.edges ==>
          exists c :: c in controls && Wants(g, c, id) && g'.edges[id] == Edge(ParentOf(c), c.id, now))
  }

  lemma {:induction false} EdgesWritten(g: Graph, controls: seq<Control>, now: int, fails: seq<bool>, id: string)
    requires |fails| == |controls| && Edges(g, controls, now, fails).1 == 0
    ensures EdgeOk(g, Edges(g, controls, now, fails).0, controls, now, id)
    ensures Edges(g, controls, now, fails).0.nodes == g.nodes
  {
    hide EdgeId;
    if controls != [] {
      var last := |controls| - 1;
      EdgesWritten(g, controls[..last], now, fails[..last], id);
      OneMoreEdge(g, controls, now, fails, id);
    }
  }

  lemma OneMoreEdge(g: Graph, controls: seq<Control>, now: int, fails: seq<bool>, id: string)
    requires |fails| == |controls| && controls != [] && Edges(g, controls, now, fails).1 == 0
    requires EdgeOk(g, Edges(g, controls[..|controls| - 1], now, fails[..|controls| - 1]).0, controls[..|controls| - 1], now, id)
    requires Edges(g, controls[..|controls| - 1], now, fails[..|controls| - 1]).0.nodes == g.nodes
    ensures EdgeOk(g, Edges(g, controls, now, fails).0, controls, now, id)
    ensures Edges(g, controls, now, fails).0.nodes == g.nodes
  {
    hide EdgeId, ParentOf, Link, EdgeOk;
    var last := |controls| - 1;
    var front, c := controls[..last], controls[last];
    var before := Edges(g, front, now, fails[..last]).0;
    assert controls == front + [c];
    if c.parent == "" {
      RowAdds(g, before, before, front, c, now, id);
    } else {
      LinkEffect(before, ParentOf(c), c.id, now, fails[last], id);
      RowAdds(g, before, Link(before, ParentOf(c), c.id, now, fails[last]).0, front, c, now, id);
    }
  }

  /** What one edge call does to the edge under an ID. */
  lemma LinkEffect(g: Graph, source: string, target: string, now: int, fails: bool, id: string)
    ensures var (g', reply) := Link(g, source, target, now, fails);
      && g'.nodes == g.nodes
      && (!reply.Failed? ==>
            && (id in g'.edges <==> id in g.edges || (id == EdgeId(source, target) && source in g.nodes && target in g.nodes))
            && (id in g.edges ==> g'.edges[id] == g.edges[id])
            && (id in g'.edges && id !in g.edges ==> g'.edges[id] == Edge(source, target, now)))
  {
    hide EdgeId;
  }

  /** A row whose call did not fail adds the edge it calls for, if any. */
  lemma RowAdds(g: Graph, before: Graph, after: Graph, front: seq<Control>, c: Control, now: int, id: string)
    requires EdgeOk(g, before, front, now, id) && before.nodes == g.nodes
    requires id in after.edges <==> id in before.edges || Wants(g, c, id)
    requires id in before.edges ==> after.edges[id] == before.edges[id]
    requires id in after.edges && id !in before.edges ==> after.edges[id] == Edge(ParentOf(c), c.id, now)
    ensures EdgeOk(g, after, front + [c], now, id)
  {
    hide Wants, ParentOf;
    assert c in front + [c];
    assert forall d :: d in front ==> d in front + [c];
  }

  /** Every edge under a parent-of ID runs between the two nodes the ID names, and both are in the graph. Of
      other edges it says nothing. */
  ghost predicate Sound(g: Graph) {
    forall s, t :: EdgeId(s, t) in g.edges ==>
      g.edges[EdgeId(s, t)].source == s && g.edges[EdgeId(s, t)].target == t && s in g.nodes && t in g.nodes
  }

  lemma EdgeIdsDiffer(s: string, t: string, s': string, t': string)
    requires EdgeId(s, t) == EdgeId(s', t')
    ensures s == s' && t == t'
  {
    var p, q := ["parent-of", s, t], ["parent-of", s', t'];
    DerivedIdsDiffer(p, q);
    assert p[1] == q[1] && p[2] == q[2];
  }

  lemma LinkSound(g: Graph, source: string, target: string, now: int, fails: bool)
    requires Sound(g)
    ensures Sound(Link(g, source, target, now, fails).0)
  {
    hide EdgeId;
    var g' := Link(g, source, target, now, fails).0;
    forall s, t | EdgeId(s, t) in g'.edges
      ensures g'.edges[EdgeId(s, t)].source == s && g'.edges[EdgeId(s, t)].target == t && s in g'.nodes && t in g'.nodes
    {
      if EdgeId(s, t) == EdgeId(source, target) { EdgeIdsDiffer(s, t, source, target); }
    }
  }

  lemma {:induction false} NodesSound(g: Graph, controls: seq<Control>, now: int, fails: seq<bool>)
    requires |fails| == |controls| && Sound(g)
    ensures Sound(Nodes(g, controls, now, fails).0)
  {
    hide EdgeId;
    if controls != [] {
      var last := |controls| - 1;
      NodesSound(g, controls[..last], now, fails[..last]);
    }
  }

  lemma {:induction false} EdgesSound(g: Graph, controls: seq<Control>, now: int, fails: seq<bool>)
    requires |fails| == |controls| && Sound(g)
    ensures Sound(Edges(g, controls, now, fails).0)
  {
    hide Link, Sound, ParentOf;
    if controls != [] {
      var last := |controls| - 1;
      EdgesSound(g, controls[..last], now, fails[..last]);
      LinkSound(Edges(g, controls[..last], now, fails[..last]).0, ParentOf(controls[last]), controls[last].id, now, fails[last]);
    }
  }

  /** One projection, with the calls that fail. */
  datatype Attempt = Attempt(controls: seq<Control>, now: int, nodeFails: seq<bool>, edgeFails: seq<bool>)

  predicate Fits(a: Attempt) {
    |a.nodeFails| == |a.controls| == |a.edgeFails|
  }

  /** What happens to the graph: a projection, or a write of something else into it. */
  datatype Event = Projects(attempt: Attempt) | Elsewhere(after: Graph)

  /** What other writers do: they add and change nodes and edges, but take no node away and keep off parent-of
      edge IDs. */
  ghost predicate KeepsOff(before: Graph, after: Graph) {
    && before.nodes.Keys <= after.nodes.Keys
    && (forall s, t :: EdgeId(s, t) in after.edges <==> EdgeId(s, t) in before.edges)
    && (forall s, t :: EdgeId(s, t) in before.edges ==> after.edges[EdgeId(s, t)] == before.edges[EdgeId(s, t)])
  }

  ghost predicate Possible(g: Graph, event: Event) {
    match event
    case Projects(a) => Fits(a)
    case Elsewhere(after) => KeepsOff(g, after)
  }

  function Happens(g: Graph, event: Event): Graph
    requires event.Projects? ==> Fits(event.attempt)
  {
    match event
    case Projects(a) => Project(g, a.controls, a.now, a.nodeFails, a.edgeFails).0
    case Elsewhere(after) => after
  }

  /** The graph at each point of a history of projections of any catalogs, with any failures, and of other
      writers' steps between them. */
  ghost predicate IsHistory(graphs: seq<Graph>, events: seq<Event>) {
    && |graphs| == |events| + 1
    && forall i :: 0 <= i < |events| ==> Possible(graphs[i], events[i]) && graphs[i + 1] == Happens(graphs[i], events[i])
  }

  lemma EventSound(g: Graph, event: Event)
    requires Sound(g) && Possible(g, event)
    ensures Sound(Happens(g, event))
  {
    hide EdgeId, Project;
    if event.Projects? { ProjectSound(g, event.attempt); }
  }

  lemma {:induction false} HistorySound(graphs: seq<Graph>, events: seq<Event>, i: nat)
    requires IsHistory(graphs, events) && i < |graphs| && Sound(graphs[0])
    ensures Sound(graphs[i])
  {
    hide Sound, Happens, Possible;
    if i > 0 {
      HistorySound(graphs, events, i - 1);
      EventSound(graphs[i - 1], events[i - 1]);
    }
  }

  /** The graph g' is what the rows call for, over g. */
  ghost predicate Projected(g: Graph, g': Graph, controls: seq<Control>, now: int) {
    && (forall id :: NodeOk(g, g', controls, now, id))
    && (forall id :: EdgeOk(g.(nodes := g'.nodes), g', controls, now, id))
  }

  lemma ProjectedIs(g: Graph, controls: seq<Control>, now: int, nodeFails: seq<bool>, edgeFails: seq<bool>)
    requires |nodeFails| == |controls| == |edgeFails| && Project(g, controls, now, nodeFails, edgeFails).1 == 0
    ensures Projected(g, Project(g, controls, now, nodeFails, edgeFails).0, controls, now)
  {
    hide NodeOk, EdgeOk, Nodes, Edges;
    var mid := Nodes(g, controls, now, nodeFails).0;
    var g' := Edges(mid, controls, now, edgeFails).0;
    NodesWritten(g, controls, now, nodeFails, "");
    EdgesWritten(mid, controls, now, edgeFails, "");
    assert mid == g.(nodes := g'.nodes);
    forall id ensures NodeOk(g, g', controls, now, id) {
      NodesWritten(g, controls, now, nodeFails, id);
      SameNodes(g, mid, g', controls, now, id);
    }
    forall id ensures EdgeOk(mid, g', controls, now, id) {
      EdgesWritten(mid, controls, now, edgeFails, id);
    }
  }

  lemma SameNodes(g: Graph, mid: Graph, g': Graph, controls: seq<Control>, now: int, id: string)
    requires NodeOk(g, mid, controls, now, id) && g'.nodes == mid.nodes
    ensures NodeOk(g, g', controls, now, id)
  {
  }

  /** After any history of partly failed projections and of other writers' steps, a projection that reports
      no error leaves a node for every control, holding its last row, and a PARENT_OF edge for exactly the
      controls whose parent is in the graph, from the parent named within the control's own catalog. A node
      that was there keeps when it is valid and what superseded it. */
  lemma ProjectionConverges(graphs: seq<Graph>, events: seq<Event>, a: Attempt, c: Control)
    requires IsHistory(graphs, events) && Sound(graphs[0]) && Fits(a) && c in a.controls
    requires Project(graphs[|events|], a.controls, a.now, a.nodeFails, a.edgeFails).1 == 0
    ensures var g := graphs[|events|]; var g' := Project(g, a.controls, a.now, a.nodeFails, a.edgeFails).0;
      && c.id in g'.nodes && LastRow(a.controls, c.id) != []
      && var node, parent := g'.nodes[c.id], c.catalog + "/" + c.parent;
      && node.kind == "Control" && node.properties == LastRow(a.controls, c.id)[0].properties
      && (if c.id in g.nodes
          then node.validFrom == g.nodes[c.id].validFrom && node.validTo == g.nodes[c.id].validTo && node.supersededBy == g.nodes[c.id].supersededBy
          else node.validFrom == a.now && node.validTo == "" && node.supersededBy == "")
      && (c.parent != "" ==>
            && (EdgeId(parent, c.id) in g'.edges <==> parent in g'.nodes)
            && (parent in g'.nodes ==> g'.edges[EdgeId(parent, c.id)].source == parent && g'.edges[EdgeId(parent, c.id)].target == c.id))
  {
    hide EdgeId, Project, Happens, Possible;
    var g := graphs[|events|];
    HistorySound(graphs, events, |events|);
    ProjectedIs(g, a.controls, a.now, a.nodeFails, a.edgeFails);
    var g' := Project(g, a.controls, a.now, a.nodeFails, a.edgeFails).0;
    ProjectSound(g, a);
    assert NodeOk(g, g', a.controls, a.now, c.id);
    if c.parent != "" {
      var id := EdgeId(ParentOf(c), c.id);
      assert EdgeOk(g.(nodes := g'.nodes), g', a.controls, a.now, id);
      if ParentOf(c) in g'.nodes { assert Wants(g.(nodes := g'.nodes), c, id); }
    }
  }

  /** And it touches nothing else: nodes of other IDs and all the edges there were stay as they were, and every new
      edge is a control's, dated now. */
  lemma ProjectionAddsOnly(g: Graph, a: Attempt, id: string)
    requires Fits(a) && Project(g, a.controls, a.now, a.nodeFails, a.edgeFails).1 == 0
    ensures var g' := Project(g, a.controls, a.now, a.nodeFails, a.edgeFails).0;
      && ((forall c :: c in a.controls ==> c.id != id) ==>
            (id in g'.nodes <==> id in g.nodes) && (id in g.nodes ==> g'.nodes[id] == g.nodes[id]))
      && (id in g.edges ==> id in g'.edges && g'.edges[id] == g.edges[id])
      && (id in g'.edges && id !in g.edges ==>
            exists c :: c in a.controls && c.parent != "" && id == EdgeId(c.catalog + "/" + c.parent, c.id) &&
                        g'.edges[id] == Edge(c.catalog + "/" + c.parent, c.id, a.now))
  {
    hide EdgeId, Project;
    ProjectedIs(g, a.controls, a.now, a.nodeFails, a.edgeFails);
    var g' := Project(g, a.controls, a.now, a.nodeFails, a.edgeFails).0;
    assert NodeOk(g, g', a.controls, a.now, id) && EdgeOk(g.(nodes := g'.nodes), g', a.controls, a.now, id);
  }

  // ---- when a projection reports an error ----

  /** No node of another label stands in the way of a control. */
  predicate NodeClear(g: Graph, c: Control) {
    c.id in g.nodes ==> g.nodes[c.id].kind == "Control"
  }

  lemma {:induction false} NodesFail(g: Graph, controls: seq<Control>, now: int, fails: seq<bool>)
    requires |fails| == |controls|
    ensures Nodes(g, controls, now, fails).1 == 0 <==> forall i :: 0 <= i < |controls| ==> !fails[i] && NodeClear(g, controls[i])
    ensures forall c :: NodeClear(Nodes(g, controls, now, fails).0, c) <==> NodeClear(g, c)
  {
    if controls != [] {
      var last := |controls| - 1;
      var front, fs := controls[..last], fails[..last];
      NodesFail(g, front, now, fs);
      assert forall i :: 0 <= i < last ==> front[i] == controls[i] && fs[i] == fails[i];
    }
  }

  lemma {:induction false} EdgesFail(g: Graph, controls: seq<Control>, now: int, fails: seq<bool>)
    requires |fails| == |controls|
    ensures Edges(g, controls, now, fails).1 == 0 <==> forall i :: 0 <= i < |controls| && controls[i].parent != "" ==> !fails[i]
  {
    hide EdgeId, ParentOf;
    if controls != [] {
      var last := |controls| - 1;
      var front, fs := controls[..last], fails[..last];
      EdgesFail(g, front, now, fs);
      assert forall i :: 0 <= i < last ==> front[i] == controls[i] && fs[i] == fails[i];
    }
  }

  /** When a projection reports no error: exactly when it has rows, none of its calls fails and no control's ID is
      taken by a node of another label. A parent that is missing and an edge that is there are no errors. */
  lemma ErrorsExactly(g: Graph, a: Attempt)
    requires Fits(a)
    ensures Project(g, a.controls, a.now, a.nodeFails, a.edgeFails).1 == 0 <==>
      && a.controls != []
      && forall i :: 0 <= i < |a.controls| ==>
           && !a.nodeFails[i] && (a.controls[i].id in g.nodes ==> g.nodes[a.controls[i].id].kind == "Control")
           && (a.controls[i].parent != "" ==> !a.edgeFails[i])
  {
    hide Nodes, Edges;
    NodesFail(g, a.controls, a.now, a.nodeFails);
    EdgesFail(Nodes(g, a.controls, a.now, a.nodeFails).0, a.controls, a.now, a.edgeFails);
    assert forall i :: 0 <= i < |a.controls| ==>
      (NodeClear(g, a.controls[i]) <==> (a.controls[i].id in g.nodes ==> g.nodes[a.controls[i].id].kind == "Control"));
  }

  lemma ProjectSound(g: Graph, a: Attempt)
    requires Sound(g) && Fits(a)
    ensures Sound(Project(g, a.controls, a.now, a.nodeFails, a.edgeFails).0)
  {
    hide Nodes, Edges, Sound;
    NodesSound(g, a.controls, a.now, a.nodeFails);
    EdgesSound(Nodes(g, a.controls, a.now, a.nodeFails).0, a.controls, a.now, a.edgeFails);
  }

  /** Repeating the projection, at any later time, changes nothing. */
  lemma RepeatAddsNothing(g: Graph, controls: seq<Control>, now: int, later: int,
                          nf: seq<bool>, ef: seq<bool>, nf': seq<bool>, ef': seq<bool>)
    requires |nf| == |ef| == |nf'| == |ef'| == |controls| && Project(g, controls, now, nf, ef).1 == 0
    requires Project(Project(g, controls, now, nf, ef).0, controls, later, nf', ef').1 == 0
    ensures Project(Project(g, controls, now, nf, ef).0, controls, later, nf', ef').0 == Project(g, controls, now, nf, ef).0
  {
    hide EdgeId, Project, ParentOf;
    var g1 := Project(g, controls, now, nf, ef).0;
    var g2 := Project(g1, controls, later, nf', ef').0;
    ProjectedIs(g, controls, now, nf, ef);
    ProjectedIs(g1, controls, later, nf', ef');
    forall id ensures id in g2.nodes <==> id in g1.nodes {
      assert NodeOk(g, g1, controls, now, id) && NodeOk(g1, g2, controls, later, id);
    }
    forall id | id in g1.nodes ensures g2.nodes[id] == g1.nodes[id] {
      assert NodeOk(g, g1, controls, now, id) && NodeOk(g1, g2, controls, later, id);
    }
    assert g2.nodes == g1.nodes;
    forall id ensures (id in g2.edges <==> id in g1.edges) && (id in g1.edges ==> g2.edges[id] == g1.edges[id]) {
      assert EdgeOk(g.(nodes := g1.nodes), g1, controls, now, id) && EdgeOk(g1, g2, controls, later, id);
      assert forall c :: Wants(g.(nodes := g1.nodes), c, id) <==> Wants(g1, c, id);
    }
    assert g2.edges == g1.edges;
  }

  predicate DistinctIds(controls: seq<Control>) {
    forall i, j :: 0 <= i < j < |controls| ==> controls[i].id != controls[j].id
  }

  /** With one row per control, the listing order does not matter. */
  lemma ListingOrderDoesNotMatter(g: Graph, controls: seq<Control>, controls': seq<Control>, now: int,
                                  nf: seq<bool>, ef: seq<bool>, nf': seq<bool>, ef': seq<bool>)
    requires DistinctIds(controls) && DistinctIds(controls') && (forall c :: c in controls <==> c in controls')
    requires |nf| == |ef| == |controls| && |nf'| == |ef'| == |controls'|
    requires Project(g, controls, now, nf, ef).1 == 0 && Project(g, controls', now, nf', ef').1 == 0
    ensures Project(g, controls, now, nf, ef).0 == Project(g, controls', now, nf', ef').0
  {
    hide EdgeId, Project, ParentOf, LastRow, DistinctIds;
    var g1, g2 := Project(g, controls, now, nf, ef).0, Project(g, controls', now, nf', ef').0;
    ProjectedIs(g, controls, now, nf, ef);
    ProjectedIs(g, controls', now, nf', ef');
    forall id ensures (id in g2.nodes <==> id in g1.nodes) && (id in g1.nodes ==> g2.nodes[id] == g1.nodes[id]) {
      assert NodeOk(g, g1, controls, now, id) && NodeOk(g, g2, controls', now, id);
      SameRow(controls, controls', id);
    }
    assert g2.nodes == g1.nodes;
    forall id ensures (id in g2.edges <==> id in g1.edges) && (id in g1.edges ==> g2.edges[id] == g1.edges[id]) {
      assert EdgeOk(g.(nodes := g1.nodes), g1, controls, now, id) && EdgeOk(g.(nodes := g2.nodes), g2, controls', now, id);
      SameEdge(g, g1, g2, controls, controls', now, id);
    }
    assert g2.edges == g1.edges;
  }

  lemma SameRow(controls: seq<Control>, controls': seq<Control>, id: string)
    requires DistinctIds(controls) && (forall c :: c in controls <==> c in controls')
    ensures LastRow(controls, id) == LastRow(controls', id)
  {
    var r, r' := LastRow(controls, id), LastRow(controls', id);
    if r != [] && r' != [] {
      assert r[0] in controls && r'[0] in controls;
    }
  }

  lemma SameEdge(g: Graph, g1: Graph, g2: Graph, controls: seq<Control>, controls': seq<Control>, now: int, id: string)
    requires g1.nodes == g2.nodes && (forall c :: c in controls <==> c in controls')
    requires EdgeOk(g.(nodes := g1.nodes), g1, controls, now, id) && EdgeOk(g.(nodes := g2.nodes), g2, controls', now, id)
    ensures (id in g2.edges <==> id in g1.edges) && (id in g1.edges ==> g2.edges[id] == g1.edges[id])
  {
    hide EdgeId, ParentOf;
    if id in g1.edges && id !in g.edges {
      var c :| c in controls && Wants(g.(nodes := g1.nodes), c, id) && g1.edges[id] == Edge(ParentOf(c), c.id, now);
      var d :| d in controls' && Wants(g.(nodes := g2.nodes), d, id) && g2.edges[id] == Edge(ParentOf(d), d.id, now);
      EdgeIdsDiffer(ParentOf(c), c.id, ParentOf(d), d.id);
    }
  }
}
