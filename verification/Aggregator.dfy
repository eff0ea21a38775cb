/**
 The controller's aggregator (internal/topology/aggregator.go): the latest report
 of every node, merged on demand with the local graph, and the liveness of
 onboarded nodes.
 */
module Aggregation {
  import opened Topology
  import opened TopologyMerge
  import opened TopologyTheorems
  import opened Sorting

  datatype TimedGraph = TimedGraph(graph: Graph, at: int)

  datatype Entry = Entry(id: string, tg: TimedGraph)

  type Reports = map<string, TimedGraph>

  predicate IsFresh(tg: TimedGraph, ttl: int, now: int) {
    ttl <= 0 || tg.at >= now - ttl
  }

  // Newest first, then by id.
  predicate Newer(a: Entry, b: Entry) {
    a.tg.at > b.tg.at || (a.tg.at == b.tg.at && LexLess(a.id, b.id))
  }

  ghost function FreshEntries(reports: Reports, ttl: int, now: int): set<Entry> {
    set id | id in reports && IsFresh(reports[id], ttl, now) :: Entry(id, reports[id])
  }

  lemma NewerIsStrictOrder(s: set<Entry>)
    requires forall x, y :: x in s && y in s && x.id == y.id ==> x == y
    ensures StrictOrder(Newer, s)
  {
    var ids := set e | e in s :: e.id;
    LexIsStrictOrder(ids);
    assert forall e :: e in s ==> e.id in ids;
  }

  ghost function NewestFirst(reports: Reports, ttl: int, now: int): (r: seq<Entry>)
    ensures Elements(r) == FreshEntries(reports, ttl, now)
  {
    NewerIsStrictOrder(FreshEntries(reports, ttl, now));
    Sorted(Newer, FreshEntries(reports, ttl, now))
  }

  function Graphs(entries: seq<Entry>): (r: seq<Graph>)
    ensures |r| == |entries| && forall i :: 0 <= i < |r| ==> r[i] == entries[i].tg.graph
  {
    seq(|entries|, i requires 0 <= i < |entries| => entries[i].tg.graph)
  }

  // What a merge at this time draws on: the local graph, then fresh reports.
  ghost function Inputs(local: Graph, reports: Reports, ttl: int, now: int): seq<Graph> {
    [local] + Graphs(NewestFirst(reports, ttl, now))
  }

  function Marked(n: Node, reports: Reports, now: int): Node {
    n.(status := Alive, lastSeen := if n.id in reports then reports[n.id].at else now)
  }

  function AllMarked(nodes: seq<Node>, reports: Reports, now: int): (r: seq<Node>)
    ensures |r| == |nodes| && forall i :: 0 <= i < |r| ==> r[i] == Marked(nodes[i], reports, now)
  {
    seq(|nodes|, i requires 0 <= i < |nodes| => Marked(nodes[i], reports, now))
  }

  function LastHeard(inv: InventoryNode, reports: Reports): int {
    if inv.id in reports && reports[inv.id].at > inv.lastSeen then reports[inv.id].at else inv.lastSeen
  }

  function SilentStatus(inv: InventoryNode, reports: Reports, staleTTL: int, now: int): Status {
    if LastHeard(inv, reports) >= now - staleTTL then Stale else Down
  }

  function SilentVertex(inv: InventoryNode, reports: Reports, staleTTL: int, now: int): Node {
    Node(inv.id, if inv.title == "" then inv.id else inv.title, MEMBER, "", "", [],
         SilentStatus(inv, reports, staleTTL, now), LastHeard(inv, reports))
  }

  // The onboarded nodes not among the living, in inventory order.
  function Silent(inventory: seq<InventoryNode>, alive: set<string>, reports: Reports, staleTTL: int, now: int): seq<Node> {
    if inventory == [] then []
    else
      var inv := inventory[|inventory| - 1];
      Silent(inventory[..|inventory| - 1], alive, reports, staleTTL, now)
      + if inv.id in alive then [] else [SilentVertex(inv, reports, staleTTL, now)]
  }

  ghost function Overview(local: Graph, inventory: seq<InventoryNode>, reports: Reports, ttl: int, staleTTL: int, now: int): Graph {
    var g := Merged(Inputs(local, reports, ttl, now));
    g.(nodes := AllMarked(g.nodes, reports, now) + Silent(inventory, Ids(g.nodes), reports, staleTTL, now))
  }

  class Aggregator {
    var reports: Reports
    const ttl: int
    const staleTTL: int

    // Windows in whole seconds.
    constructor (ttl: int, staleTTL: int)
      ensures reports == map[] && this.ttl == ttl
      ensures this.staleTTL == if staleTTL <= 0 then 3 * ttl else staleTTL
    {
      reports := map[];
      this.ttl := ttl;
      this.staleTTL := if staleTTL <= 0 then 3 * ttl else staleTTL;
    }

    method Ingest(nodeID: string, g: Graph, now: int)
      modifies this`reports
      ensures reports == old(reports)[nodeID := TimedGraph(g, now)]
    {
      reports := reports[nodeID := TimedGraph(g, now)];
    }

    // The merged graph is a function of the reports, the local graph, the
    // inventory and the clock: the loops below visit maps in arbitrary order.
    method Merge(local: Graph, inventory: seq<InventoryNode>, now: int) returns (g: Graph)
      ensures g == Overview(local, inventory, reports, ttl, staleTTL, now)
    {
      var graphs := GatherGraphs(local, now);
      g := MergeGraphs(graphs);
      var nodes := MarkAlive(g.nodes, now);
      var silent := AddSilent(inventory, Ids(g.nodes), now);
      g := g.(nodes := nodes + silent);
    }

    method GatherGraphs(local: Graph, now: int) returns (graphs: seq<Graph>)
      ensures graphs == Inputs(local, reports, ttl, now)
    {
      var current := SortFresh(now);
      graphs := [local];
      for i := 0 to |current|
        invariant |graphs| == i + 1 && graphs[0] == local
        invariant forall k :: 0 <= k < i ==> graphs[k + 1] == current[k].tg.graph
      {
        graphs := graphs + [current[i].tg.graph];
      }
      assert graphs == [local] + Graphs(current);
    }

    method SortFresh(now: int) returns (sorted: seq<Entry>)
      ensures sorted == NewestFirst(reports, ttl, now)
    {
      var current := CollectFresh(now);
      NewerIsStrictOrder(Elements(current));
      sorted := Sort(Newer, current);
    }

    method CollectFresh(now: int) returns (current: seq<Entry>)
      ensures Elements(current) == FreshEntries(reports, ttl, now) && Distinct(current)
    {
      current := [];
      var todo := reports.Keys;
      while todo != {}
        invariant todo <= reports.Keys && Distinct(current)
        invariant forall e :: e in current <==>
                    e.id in reports && e.id !in todo && e.tg == reports[e.id] && IsFresh(e.tg, ttl, now)
        decreases todo
      {
        var id :| id in todo;
        todo := todo - {id};
        if ttl <= 0 || reports[id].at >= now - ttl {
          current := current + [Entry(id, reports[id])];
        }
      }
    }

    method MarkAlive(nodes: seq<Node>, now: int) returns (r: seq<Node>)
      ensures r == AllMarked(nodes, reports, now)
    {
      r := nodes;
      for i := 0 to |nodes|
        invariant |r| == |nodes|
        invariant forall k :: 0 <= k < i ==> r[k] == Marked(nodes[k], reports, now)
        invariant forall k :: i <= k < |nodes| ==> r[k] == nodes[k]
      {
        var lastSeen := now;
        if r[i].id in reports {
          lastSeen := reports[r[i].id].at;
        }
        r := r[i := r[i].(status := Alive, lastSeen := lastSeen)];
      }
    }

    method AddSilent(inventory: seq<InventoryNode>, alive: set<string>, now: int) returns (r: seq<Node>)
      ensures r == Silent(inventory, alive, reports, staleTTL, now)
    {
      r := [];
      for i := 0 to |inventory|
        invariant r == Silent(inventory[..i], alive, reports, staleTTL, now)
      {
        assert inventory[..i + 1][..i] == inventory[..i];
        var inv := inventory[i];
        if inv.id in alive {
          continue;
        }
        var last := inv.lastSeen;
        if inv.id in reports && reports[inv.id].at > last {
          last := reports[inv.id].at;
        }
        var status := Down;
        if last >= now - staleTTL {
          status := Stale;
        }
        var title := inv.title;
        if title == "" {
          title := inv.id;
        }
        r := r + [Node(inv.id, title, MEMBER, "", "", [], status, last)];
      }
      assert inventory[..|inventory|] == inventory;
    }
  }

  // ----- what the overview promises -----

  ghost predicate DistinctInventory(inventory: seq<InventoryNode>) {
    forall i, j :: 0 <= i < j < |inventory| ==> inventory[i].id != inventory[j].id
  }

  lemma {:induction false} SilentMeaning(inventory: seq<InventoryNode>, alive: set<string>, reports: Reports, staleTTL: int, now: int)
    ensures forall v :: v in Silent(inventory, alive, reports, staleTTL, now) ==>
              v.id !in alive && v.role == MEMBER && v.status in {Stale, Down}
              && exists inv :: inv in inventory && v.id == inv.id
    ensures forall inv :: inv in inventory && inv.id !in alive ==>
              SilentVertex(inv, reports, staleTTL, now) in Silent(inventory, alive, reports, staleTTL, now)
  {
    if inventory != [] {
      SilentMeaning(inventory[..|inventory| - 1], alive, reports, staleTTL, now);
      assert inventory == inventory[..|inventory| - 1] + [inventory[|inventory| - 1]];
    }
  }

  lemma {:induction false} SilentDistinct(inventory: seq<InventoryNode>, alive: set<string>, reports: Reports, staleTTL: int, now: int)
    requires DistinctInventory(inventory)
    ensures DistinctIds(Silent(inventory, alive, reports, staleTTL, now))
  {
    if inventory != [] {
      var init, inv := inventory[..|inventory| - 1], inventory[|inventory| - 1];
      var before := Silent(init, alive, reports, staleTTL, now);
      SilentDistinct(init, alive, reports, staleTTL, now);
      SilentMeaning(init, alive, reports, staleTTL, now);
      forall i | 0 <= i < |before| ensures before[i].id != inv.id {
        assert before[i] in before;
        var k :| 0 <= k < |init| && init[k].id == before[i].id;
        assert inventory[k].id != inv.id;
      }
    }
  }

  // Vertices have distinct ids when inventory nodes do.
  lemma OverviewDistinct(local: Graph, inventory: seq<InventoryNode>, reports: Reports, ttl: int, staleTTL: int, now: int)
    requires DistinctInventory(inventory)
    ensures DistinctIds(Overview(local, inventory, reports, ttl, staleTTL, now).nodes)
  {
    var inputs := Inputs(local, reports, ttl, now);
    var g := Merged(inputs);
    MergedIds(inputs);
    SilentMeaning(inventory, Ids(g.nodes), reports, staleTTL, now);
    SilentDistinct(inventory, Ids(g.nodes), reports, staleTTL, now);
    var silent := Silent(inventory, Ids(g.nodes), reports, staleTTL, now);
    forall i, j | 0 <= i < |g.nodes| && 0 <= j < |silent| ensures g.nodes[i].id != silent[j].id {
      assert g.nodes[i] in g.nodes && silent[j] in silent;
    }
  }

  // Every vertex shown as "self" is the local graph's own.
  lemma OverviewSelf(local: Graph, inventory: seq<InventoryNode>, reports: Reports, ttl: int, staleTTL: int, now: int, v: Node)
    requires v in Overview(local, inventory, reports, ttl, staleTTL, now).nodes && v.role == SELF
    ensures v.status == Alive && exists n :: n in local.nodes && n.id == v.id && n.role == SELF
  {
    var inputs := Inputs(local, reports, ttl, now);
    var g := Merged(inputs);
    SilentMeaning(inventory, Ids(g.nodes), reports, staleTTL, now);
    assert v in AllMarked(g.nodes, reports, now);
    var i :| 0 <= i < |g.nodes| && v == AllMarked(g.nodes, reports, now)[i];
    MergedVertex(inputs, g.nodes[i]);
  }

  // When the local graph and the fresh reports are closed, as Collect makes
  // them, and no merged vertex canonicalises to an alias, links join living
  // vertices only: a stale or down vertex is isolated.
  lemma SilentVerticesAreIsolated(local: Graph, inventory: seq<InventoryNode>, reports: Reports, ttl: int, staleTTL: int, now: int)
    requires Closed(local) && forall id :: id in reports && IsFresh(reports[id], ttl, now) ==> Closed(reports[id].graph)
    requires Settled(Union(Inputs(local, reports, ttl, now)).nodes)
    ensures var g := Overview(local, inventory, reports, ttl, staleTTL, now);
      && Closed(g)
      && forall v, l :: v in g.nodes && v.status != Alive && l in g.links ==> l.source != v.id && l.target != v.id
  {
    var inputs := Inputs(local, reports, ttl, now);
    var entries := NewestFirst(reports, ttl, now);
    forall g | g in inputs ensures Closed(g) {
      if g != local {
        var i :| 0 <= i < |entries| && g == entries[i].tg.graph;
        assert entries[i] in Elements(entries);
      }
    }
    MergedIsClosed(inputs);
    OverviewNodes(local, inventory, reports, ttl, staleTTL, now);
  }

  // The overview's vertices: the merged ones, and silent ones that are not merged.
  lemma OverviewNodes(local: Graph, inventory: seq<InventoryNode>, reports: Reports, ttl: int, staleTTL: int, now: int)
    ensures var g, all := Merged(Inputs(local, reports, ttl, now)), Overview(local, inventory, reports, ttl, staleTTL, now).nodes;
      && (forall v: Node :: v in all && v.status != Alive ==> v.id !in Ids(g.nodes))
      && (forall id :: id in Ids(g.nodes) ==> id in Ids(all))
  {
    var g := Merged(Inputs(local, reports, ttl, now));
    var marked, silent := AllMarked(g.nodes, reports, now), Silent(inventory, Ids(g.nodes), reports, staleTTL, now);
    SilentMeaning(inventory, Ids(g.nodes), reports, staleTTL, now);
    SameIds(g.nodes, marked);
    forall v: Node | v in marked + silent && v.status != Alive ensures v.id !in Ids(g.nodes) {
      assert v in silent;
    }
    forall id | id in Ids(g.nodes) ensures id in Ids(marked + silent) {
      var n :| n in marked && n.id == id;
      assert n in marked + silent;
    }
  }

  // ----- liveness -----

  function Decay(s: Status): int {
    match s
    case Unset => 0
    case Alive => 0
    case Stale => 1
    case Down => 2
  }

  // The status an onboarded node has in the overview.
  ghost function Liveness(inv: InventoryNode, local: Graph, reports: Reports, ttl: int, staleTTL: int, now: int): Status {
    if inv.id in Ids(Merged(Inputs(local, reports, ttl, now)).nodes) then Alive
    else SilentStatus(inv, reports, staleTTL, now)
  }

  // Every onboarded node is shown, with that status.
  lemma LivenessIsShown(local: Graph, inventory: seq<InventoryNode>, reports: Reports, ttl: int, staleTTL: int, now: int, inv: InventoryNode)
    requires inv in inventory
    ensures exists v :: v in Overview(local, inventory, reports, ttl, staleTTL, now).nodes && v.id == inv.id
                     && v.status == Liveness(inv, local, reports, ttl, staleTTL, now)
  {
    var g := Merged(Inputs(local, reports, ttl, now));
    var all := Overview(local, inventory, reports, ttl, staleTTL, now).nodes;
    SilentMeaning(inventory, Ids(g.nodes), reports, staleTTL, now);
    if inv.id in Ids(g.nodes) {
      var i :| 0 <= i < |g.nodes| && g.nodes[i].id == inv.id;
      assert AllMarked(g.nodes, reports, now)[i] in all;
    } else {
      assert SilentVertex(inv, reports, staleTTL, now) in Silent(inventory, Ids(g.nodes), reports, staleTTL, now);
      assert SilentVertex(inv, reports, staleTTL, now) in all;
    }
  }

  ghost predicate Declared(g: Graph, a: string) {
    exists n :: n in g.nodes && a in n.addrs
  }

  lemma {:induction false} DeclaredSomewhere(graphs: seq<Graph>, n: Node, a: string)
    requires n in AllNodes(graphs) && a in n.addrs
    ensures exists g :: g in graphs && Declared(g, a)
  {
    var init, last := graphs[..|graphs| - 1], graphs[|graphs| - 1];
    if n in AllNodes(init) {
      DeclaredSomewhere(init, n, a);
    } else {
      var i :| 0 <= i < |last.nodes| && DemotedAll(last.nodes, |graphs| == 1)[i] == n;
      assert last.nodes[i] in last.nodes && Declared(last, a);
    }
  }

  // An id nobody declares as an address is a vertex of the merged graph exactly
  // when some input mentions it.
  lemma MentionedIsMerged(graphs: seq<Graph>, id: string)
    requires forall g :: g in graphs ==> !Declared(g, id)
    ensures id in Ids(Merged(graphs).nodes) <==> exists g :: g in graphs && id in Ids(g.nodes)
  {
    MergedIds(graphs);
    AllMentioned(graphs);
    var nodes := Union(graphs).nodes;
    OwnersMeaning(nodes);
    if id in Owners(nodes) {
      var n :| n in nodes && id in n.addrs;
      UnionVertex(graphs, n);
      DeclaredSomewhere(graphs, AllNodes(graphs)[FirstIndex(AllNodes(graphs), n.id).value], id);
    }
  }

  // Main result. While nothing new is reported, and for a node whose id nobody
  // declares as an address, liveness only moves from alive to stale to down as
  // the clock advances.
  lemma LivenessDecays(inv: InventoryNode, local: Graph, reports: Reports, ttl: int, staleTTL: int, now: int, later: int)
    requires now <= later
    requires !Declared(local, inv.id) && forall id :: id in reports ==> !Declared(reports[id].graph, inv.id)
    ensures Decay(Liveness(inv, local, reports, ttl, staleTTL, now)) <= Decay(Liveness(inv, local, reports, ttl, staleTTL, later))
  {
    AliveMeansMentioned(local, reports, ttl, now, inv.id);
    AliveMeansMentioned(local, reports, ttl, later, inv.id);
  }

  // Alive is mentioned by the local graph or a report that is still fresh.
  lemma AliveMeansMentioned(local: Graph, reports: Reports, ttl: int, now: int, id: string)
    requires !Declared(local, id) && forall r :: r in reports ==> !Declared(reports[r].graph, id)
    ensures id in Ids(Merged(Inputs(local, reports, ttl, now)).nodes)
       <==> id in Ids(local.nodes) || exists r :: r in reports && IsFresh(reports[r], ttl, now) && id in Ids(reports[r].graph.nodes)
  {
    var inputs := Inputs(local, reports, ttl, now);
    InputsMeaning(local, reports, ttl, now);
    MentionedIsMerged(inputs, id);
    assert local in inputs;
  }

  lemma InputsMeaning(local: Graph, reports: Reports, ttl: int, now: int)
    ensures forall g :: g in Inputs(local, reports, ttl, now) <==>
              g == local || exists id :: id in reports && IsFresh(reports[id], ttl, now) && reports[id].graph == g
  {
    var entries := NewestFirst(reports, ttl, now);
    forall g | g in Graphs(entries)
      ensures exists id :: id in reports && IsFresh(reports[id], ttl, now) && reports[id].graph == g
    {
      var i :| 0 <= i < |entries| && entries[i].tg.graph == g;
      assert entries[i] in Elements(entries);
    }
    forall id | id in reports && IsFresh(reports[id], ttl, now) ensures reports[id].graph in Graphs(entries) {
      assert Entry(id, reports[id]) in Elements(entries);
      var i :| 0 <= i < |entries| && entries[i] == Entry(id, reports[id]);
      assert Graphs(entries)[i] == reports[id].graph;
    }
  }
}
