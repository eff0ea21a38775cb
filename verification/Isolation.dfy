/**
 When a stale or down vertex of the overview (internal/topology/aggregator.go)
 comes to have a link.
 */
module Isolation {
  import opened Topology
  import opened TopologyMerge
  import opened TopologyTheorems
  import opened Sorting
  import opened Aggregation

  // Links join living vertices only.
  ghost predicate SilentIsolated(g: Graph) {
    forall v, l :: v in g.nodes && v.status != Alive && l in g.links ==> l.source != v.id && l.target != v.id
  }

  // The inputs are as Collect makes them.
  ghost predicate AllClosed(local: Graph, reports: Reports, ttl: int, now: int) {
    Closed(local) && forall id :: id in reports && IsFresh(reports[id], ttl, now) ==> Closed(reports[id].graph)
  }

  // ----- the same vertices with other links -----

  ghost predicate SameVertices(a: seq<Graph>, b: seq<Graph>) {
    |a| == |b| && forall i :: 0 <= i < |a| ==> a[i].nodes == b[i].nodes
  }

  lemma {:induction false} SameUnion(a: seq<Graph>, b: seq<Graph>)
    requires SameVertices(a, b)
    ensures AllNodes(a) == AllNodes(b)
  {
    if a != [] {
      SameUnion(a[..|a| - 1], b[..|b| - 1]);
    }
  }

  // Other links between the vertices of the same graphs, reported at the same
  // times.
  ghost predicate Relinked(local: Graph, reports: Reports, local': Graph, reports': Reports) {
    && local'.nodes == local.nodes && reports'.Keys == reports.Keys
    && forall id :: id in reports ==> reports'[id].at == reports[id].at && reports'[id].graph.nodes == reports[id].graph.nodes
  }

  function Relabelled(xs: seq<Entry>, reports: Reports): (ys: seq<Entry>)
    requires forall x :: x in xs ==> x.id in reports
    ensures |ys| == |xs| && forall i :: 0 <= i < |xs| ==> ys[i] == Entry(xs[i].id, reports[xs[i].id])
  {
    seq(|xs|, i requires 0 <= i < |xs| => Entry(xs[i].id, reports[xs[i].id]))
  }

  lemma EntriesKnown(reports: Reports, ttl: int, now: int)
    ensures forall x :: x in NewestFirst(reports, ttl, now) <==>
              x.id in reports && IsFresh(reports[x.id], ttl, now) && x.tg == reports[x.id]
    ensures Ascending(Newer, NewestFirst(reports, ttl, now))
  {
    var xs := NewestFirst(reports, ttl, now);
    NewerIsStrictOrder(FreshEntries(reports, ttl, now));
    forall x ensures x in xs <==> x in FreshEntries(reports, ttl, now) {
      assert x in xs <==> x in Elements(xs);
    }
  }

  lemma RelabelledHas(xs: seq<Entry>, reports: Reports, x: Entry)
    requires x in xs && forall x :: x in xs ==> x.id in reports
    ensures Entry(x.id, reports[x.id]) in Relabelled(xs, reports)
  {
    var i :| 0 <= i < |xs| && xs[i] == x;
    assert Relabelled(xs, reports)[i] == Entry(x.id, reports[x.id]);
  }

  lemma RelabelledFrom(xs: seq<Entry>, reports': Reports, zs: seq<Entry>)
    requires forall x :: x in xs ==> x.id in reports' && Entry(x.id, reports'[x.id]) in zs
    ensures forall y :: y in Relabelled(xs, reports') ==> y in zs
  {
    var ys := Relabelled(xs, reports');
    forall y | y in ys ensures y in zs {
      var i :| 0 <= i < |ys| && ys[i] == y;
      assert xs[i] in xs;
    }
  }

  // The reports come in the same order.
  lemma RelinkedOrder(local: Graph, reports: Reports, local': Graph, reports': Reports, ttl: int, now: int)
    requires Relinked(local, reports, local', reports')
    ensures forall x :: x in NewestFirst(reports, ttl, now) ==> x.id in reports && x.id in reports' && x.tg == reports[x.id]
    ensures NewestFirst(reports', ttl, now) == Relabelled(NewestFirst(reports, ttl, now), reports')
  {
    var xs, zs := NewestFirst(reports, ttl, now), NewestFirst(reports', ttl, now);
    EntriesKnown(reports, ttl, now);
    EntriesKnown(reports', ttl, now);
    var ys := Relabelled(xs, reports');
    forall z | z in zs ensures z in ys {
      RelabelledHas(xs, reports', Entry(z.id, reports[z.id]));
    }
    RelabelledFrom(xs, reports', zs);
    RelabelledAscends(xs, reports, reports');
    assert Elements(ys) == Elements(zs);
    NewerIsStrictOrder(FreshEntries(reports', ttl, now));
    AscendingUnique(Newer, ys, zs);
  }

  lemma RelabelledAscends(xs: seq<Entry>, reports: Reports, reports': Reports)
    requires forall x :: x in xs ==> x.id in reports && x.id in reports' && x.tg == reports[x.id] && x.tg.at == reports'[x.id].at
    requires Ascending(Newer, xs)
    ensures Ascending(Newer, Relabelled(xs, reports'))
  {
    var ys := Relabelled(xs, reports');
    forall i, j | 0 <= i < j < |ys| ensures Newer(ys[i], ys[j]) {
      assert xs[i] in xs && xs[j] in xs && Newer(xs[i], xs[j]);
    }
  }

  lemma RelinkedInputs(local: Graph, reports: Reports, local': Graph, reports': Reports, ttl: int, now: int)
    requires Relinked(local, reports, local', reports')
    ensures SameVertices(Inputs(local, reports, ttl, now), Inputs(local', reports', ttl, now))
  {
    RelinkedOrder(local, reports, local', reports', ttl, now);
    var xs, ys := NewestFirst(reports, ttl, now), NewestFirst(reports', ttl, now);
    assert forall i :: 0 <= i < |xs| ==> xs[i] in xs;
    assert SameVertices(Graphs(xs), Graphs(ys));
    assert SameVertices([local], [local']);
  }

  // ----- the condition -----

  // n is moved to an alias, and t elsewhere: a link between them would end at a
  // vertex that is dropped.
  predicate Parted(owners: map<string, string>, n: Node, t: Node) {
    Canon(owners, Canon(owners, n.id)) != Canon(owners, n.id) && Canon(owners, t.id) != Canon(owners, n.id)
  }

  // No graph has two such vertices.
  ghost predicate NoneParted(graphs: seq<Graph>) {
    var owners := Owners(Union(graphs).nodes);
    forall g, n, t :: g in graphs && n in g.nodes && t in g.nodes ==> !Parted(owners, n, t)
  }

  lemma SamePartings(a: seq<Graph>, b: seq<Graph>)
    requires SameVertices(a, b) && NoneParted(a)
    ensures NoneParted(b)
  {
    SameUnion(a, b);
    forall g, n, t | g in b && n in g.nodes && t in g.nodes ensures !Parted(Owners(Union(b).nodes), n, t) {
      var i :| 0 <= i < |b| && b[i] == g;
      assert a[i] in a;
    }
  }

  // An endpoint of a merged link that is no merged vertex was moved to an alias,
  // and the other endpoint elsewhere.
  lemma StrayLink(graphs: seq<Graph>, c: Link)
    requires (forall g :: g in graphs ==> Closed(g)) && NoneParted(graphs)
    requires c in Merged(graphs).links
    ensures c.source in Ids(Merged(graphs).nodes) && c.target in Ids(Merged(graphs).nodes)
  {
    var owners := Owners(Union(graphs).nodes);
    AllMentioned(graphs);
    MergedIds(graphs);
    VerticesMeaning(AllNodes(graphs));
    if owners == map[] {
      ByKeyFrom(AllLinks(graphs));
      var g :| g in graphs && c in g.links;
      assert c.source in Ids(g.nodes) && c.target in Ids(g.nodes);
    } else {
      var l := FusionSound(graphs, c);
      var g :| g in graphs && l in g.links;
      assert l.source in Ids(g.nodes) && l.target in Ids(g.nodes);
      var n :| n in g.nodes && n.id == l.source;
      var t :| t in g.nodes && t.id == l.target;
      assert !Parted(owners, n, t) && !Parted(owners, t, n);
      CanonStaysInside(Union(graphs).nodes, l.source);
      CanonStaysInside(Union(graphs).nodes, l.target);
    }
  }

  lemma InputsClosed(local: Graph, reports: Reports, ttl: int, now: int)
    requires AllClosed(local, reports, ttl, now)
    ensures forall g :: g in Inputs(local, reports, ttl, now) ==> Closed(g)
  {
    InputsMeaning(local, reports, ttl, now);
  }

  lemma IsolatedWhenNoneParted(local: Graph, inventory: seq<InventoryNode>, reports: Reports, ttl: int, staleTTL: int, now: int)
    requires AllClosed(local, reports, ttl, now)
    requires NoneParted(Inputs(local, reports, ttl, now))
    ensures SilentIsolated(Overview(local, inventory, reports, ttl, staleTTL, now))
  {
    var inputs := Inputs(local, reports, ttl, now);
    var g := Merged(inputs);
    InputsClosed(local, reports, ttl, now);
    SilentMeaning(inventory, Ids(g.nodes), reports, staleTTL, now);
    forall v, l | v in Overview(local, inventory, reports, ttl, staleTTL, now).nodes && v.status != Alive && l in g.links
      ensures l.source != v.id && l.target != v.id
    {
      assert v in Silent(inventory, Ids(g.nodes), reports, staleTTL, now);
      StrayLink(inputs, l);
    }
  }

  // ----- the failing overview -----

  // The graph with one link, if it has both ends, and nothing else.
  function OneLink(g: Graph, n: Node, t: Node): Graph {
    Graph(g.nodes, if n in g.nodes && t in g.nodes then [Link(n.id, t.id, 0, "", 0, 0)] else [], [])
  }

  function OneLinkReports(reports: Reports, n: Node, t: Node): Reports {
    map id | id in reports :: TimedGraph(OneLink(reports[id].graph, n, t), reports[id].at)
  }

  lemma OneLinkClosed(g: Graph, n: Node, t: Node)
    ensures Closed(OneLink(g, n, t))
  {
  }

  lemma {:induction false} OnlyThatLink(graphs: seq<Graph>, l: Link)
    requires forall g, k :: g in graphs && k in g.links ==> k == l
    ensures forall k :: k in AllLinks(graphs) ==> k == l
    ensures (exists g :: g in graphs && l in g.links) ==> l in AllLinks(graphs)
  {
    if graphs != [] {
      var init, last := graphs[..|graphs| - 1], graphs[|graphs| - 1];
      assert graphs == init + [last];
      OnlyThatLink(init, l);
    }
  }

  // The one link all graphs have survives merging, rewritten.
  lemma OneLinkMerged(graphs: seq<Graph>, l: Link)
    requires (forall g, k :: g in graphs && k in g.links ==> k == l) && exists g :: g in graphs && l in g.links
    requires var owners := Owners(Union(graphs).nodes); owners != map[] && CanonLink(l, owners).source != CanonLink(l, owners).target
    ensures CanonLink(l, Owners(Union(graphs).nodes)) in Merged(graphs).links
  {
    var u, owners := Union(graphs), Owners(Union(graphs).nodes);
    OnlyThatLink(graphs, l);
    var k := ByKeyBest(AllLinks(graphs), l);
    ByKeyFrom(AllLinks(graphs));
    assert k == l;
    CanonLinksHas(u.links, owners, l);
    var d := ByKeyBest(CanonLinks(u.links, owners), CanonLink(l, owners));
    var from := FusionSound(graphs, d);
  }

  lemma OneLinkRelinked(local: Graph, reports: Reports, n: Node, t: Node, ttl: int, now: int)
    ensures Relinked(local, reports, OneLink(local, n, t), OneLinkReports(reports, n, t))
    ensures AllClosed(OneLink(local, n, t), OneLinkReports(reports, n, t), ttl, now)
  {
    OneLinkClosed(local, n, t);
    forall id | id in reports ensures Closed(OneLinkReports(reports, n, t)[id].graph) {
      OneLinkClosed(reports[id].graph, n, t);
    }
  }

  // Every input of the relinked overview has the link exactly if it has the ends.
  lemma OneLinkInputs(local: Graph, reports: Reports, n: Node, t: Node, ttl: int, now: int)
    ensures forall g :: g in Inputs(OneLink(local, n, t), OneLinkReports(reports, n, t), ttl, now) ==> g == OneLink(g, n, t)
  {
    var local', reports' := OneLink(local, n, t), OneLinkReports(reports, n, t);
    InputsMeaning(local', reports', ttl, now);
    forall g | g in Inputs(local', reports', ttl, now) ensures g == OneLink(g, n, t) {
      if g != local' {
        var id :| id in reports' && IsFresh(reports'[id], ttl, now) && reports'[id].graph == g;
        assert g == OneLink(reports[id].graph, n, t);
      }
    }
  }

  // Two parted vertices of one graph, linked: the merged graph has the link, and
  // its source is an alias.
  lemma PartedLink(inputs: seq<Graph>, inputs': seq<Graph>, g: Graph, n: Node, t: Node)
    requires SameVertices(inputs, inputs') && forall h :: h in inputs' ==> h == OneLink(h, n, t)
    requires g in inputs && n in g.nodes && t in g.nodes && Parted(Owners(Union(inputs).nodes), n, t)
    ensures var c := CanonLink(Link(n.id, t.id, 0, "", 0, 0), Owners(Union(inputs).nodes));
      c in Merged(inputs').links && c.source !in Ids(Merged(inputs').nodes)
  {
    SameUnion(inputs, inputs');
    var l, owners := Link(n.id, t.id, 0, "", 0, 0), Owners(Union(inputs').nodes);
    assert owners == Owners(Union(inputs).nodes);
    OnlyLink(inputs, inputs', g, n, t);
    OneLinkMerged(inputs', l);
    AliasIsDropped(inputs', n.id);
  }

  lemma AliasIsDropped(graphs: seq<Graph>, id: string)
    requires var owners := Owners(Union(graphs).nodes); Canon(owners, Canon(owners, id)) != Canon(owners, id)
    ensures Canon(Owners(Union(graphs).nodes), id) !in Ids(Merged(graphs).nodes)
  {
    MergedIds(graphs);
  }

  lemma OnlyLink(inputs: seq<Graph>, inputs': seq<Graph>, g: Graph, n: Node, t: Node)
    requires SameVertices(inputs, inputs') && forall h :: h in inputs' ==> h == OneLink(h, n, t)
    requires g in inputs && n in g.nodes && t in g.nodes
    ensures var l := Link(n.id, t.id, 0, "", 0, 0);
      (forall h, k :: h in inputs' && k in h.links ==> k == l) && exists h :: h in inputs' && l in h.links
  {
    var i :| 0 <= i < |inputs| && inputs[i] == g;
    assert inputs'[i] in inputs' && Link(n.id, t.id, 0, "", 0, 0) in inputs'[i].links;
  }

  // Onboarded, that alias is shown silent, and with a link.
  lemma PartedLinksASilentVertex(local: Graph, reports: Reports, ttl: int, staleTTL: int, now: int, g: Graph, n: Node, t: Node)
    requires var inputs := Inputs(local, reports, ttl, now);
      g in inputs && n in g.nodes && t in g.nodes && Parted(Owners(Union(inputs).nodes), n, t)
    ensures var e := Canon(Owners(Union(Inputs(local, reports, ttl, now)).nodes), n.id);
      !SilentIsolated(Overview(OneLink(local, n, t), [InventoryNode(e, "", 0)], OneLinkReports(reports, n, t), ttl, staleTTL, now))
  {
    var local', reports' := OneLink(local, n, t), OneLinkReports(reports, n, t);
    var inputs, inputs' := Inputs(local, reports, ttl, now), Inputs(local', reports', ttl, now);
    OneLinkRelinked(local, reports, n, t, ttl, now);
    RelinkedInputs(local, reports, local', reports', ttl, now);
    OneLinkInputs(local, reports, n, t, ttl, now);
    PartedLink(inputs, inputs', g, n, t);
    var c := CanonLink(Link(n.id, t.id, 0, "", 0, 0), Owners(Union(inputs).nodes));
    LinkedWhenOnboarded(local', reports', ttl, staleTTL, now, c);
  }

  lemma LinkedWhenOnboarded(local: Graph, reports: Reports, ttl: int, staleTTL: int, now: int, c: Link)
    requires var g := Merged(Inputs(local, reports, ttl, now)); c in g.links && c.source !in Ids(g.nodes)
    ensures !SilentIsolated(Overview(local, [InventoryNode(c.source, "", 0)], reports, ttl, staleTTL, now))
  {
    var inv, alive := InventoryNode(c.source, "", 0), Ids(Merged(Inputs(local, reports, ttl, now)).nodes);
    SilentMeaning([inv], alive, reports, staleTTL, now);
    var o := Overview(local, [inv], reports, ttl, staleTTL, now);
    assert SilentVertex(inv, reports, staleTTL, now) in o.nodes && c in o.links;
  }

  // Over these vertices, whatever the links between them and whoever is onboarded.
  ghost predicate AlwaysIsolated(local: Graph, reports: Reports, ttl: int, staleTTL: int, now: int) {
    forall local': Graph, reports': Reports, inventory: seq<InventoryNode> ::
      Relinked(local, reports, local', reports') && AllClosed(local', reports', ttl, now) ==>
        SilentIsolated(Overview(local', inventory, reports', ttl, staleTTL, now))
  }

  // Main result. Over given vertices, whatever the links between them and whoever
  // is onboarded, stale and down vertices have no link if and only if no graph has
  // a vertex that is moved to an alias beside one that is not moved there.
  lemma SilentIsolatedIff(local: Graph, reports: Reports, ttl: int, staleTTL: int, now: int)
    ensures AlwaysIsolated(local, reports, ttl, staleTTL, now) <==> NoneParted(Inputs(local, reports, ttl, now))
  {
    var inputs := Inputs(local, reports, ttl, now);
    if NoneParted(inputs) {
      forall local': Graph, reports': Reports, inventory: seq<InventoryNode>
        | Relinked(local, reports, local', reports') && AllClosed(local', reports', ttl, now)
        ensures SilentIsolated(Overview(local', inventory, reports', ttl, staleTTL, now))
      {
        RelinkedInputs(local, reports, local', reports', ttl, now);
        SamePartings(inputs, Inputs(local', reports', ttl, now));
        IsolatedWhenNoneParted(local', inventory, reports', ttl, staleTTL, now);
      }
    } else {
      var g, n, t :| g in inputs && n in g.nodes && t in g.nodes && Parted(Owners(Union(inputs).nodes), n, t);
      PartedLinksASilentVertex(local, reports, ttl, staleTTL, now, g, n, t);
      OneLinkRelinked(local, reports, n, t, ttl, now);
    }
  }
}
