/**
 The topology graph and its collection on one node (internal/topology/topology.go).
 */
module Topology {
  import opened Wrappers

  datatype Status = Unset | Alive | Stale | Down

  const SELF := "self"
  const MEMBER := "node"

  datatype Node = Node(id: string, title: string, role: string, backhaul: string, meshMode: string,
                       addrs: seq<string>, status: Status, lastSeen: int)

  datatype Link = Link(source: string, target: string, tq: int, kind: string, signal: int, speedMbps: int)

  datatype Client = Client(mac: string, ap: string, signal: int, band: string, txRate: int, rxRate: int,
                           ip: string, hostname: string)

  datatype Graph = Graph(nodes: seq<Node>, links: seq<Link>, clients: seq<Client>)

  datatype InventoryNode = InventoryNode(id: string, title: string, lastSeen: int)

  function Ids(nodes: seq<Node>): set<string> {
    set n | n in nodes :: n.id
  }

  ghost predicate DistinctIds(nodes: seq<Node>) {
    forall i, j :: 0 <= i < j < |nodes| ==> nodes[i].id != nodes[j].id
  }

  // Every link joins two vertices of the graph.
  ghost predicate LinksWithin(links: seq<Link>, ids: set<string>) {
    forall l :: l in links ==> l.source in ids && l.target in ids
  }

  ghost predicate Closed(g: Graph) {
    LinksWithin(g.links, Ids(g.nodes))
  }

  datatype Neighbor = Neighbor(id: string, tq: int, nexthop: string, iface: string)

  datatype LinkMetrics = LinkMetrics(kind: string, speedMbps: int, signal: int)

  // What this node's sources answer; a source that is absent or fails is None.
  datatype Sources = Sources(backhaul: Option<string>, meshMode: Option<string>, selfAddrs: Option<seq<string>>,
                             neighbors: Option<seq<Neighbor>>, metrics: Option<(string, string) -> LinkMetrics>,
                             clients: Option<seq<Client>>)

  function LinkTo(self: string, n: Neighbor, sources: Sources): Link {
    var plain := Link(self, n.id, n.tq, "", 0, 0);
    if sources.metrics.None? then plain
    else
      var m := sources.metrics.value(n.iface, n.nexthop);
      plain.(kind := m.kind, signal := m.signal, speedMbps := m.speedMbps)
  }

  function LinksTo(self: string, ns: seq<Neighbor>, sources: Sources): seq<Link> {
    if ns == [] then []
    else
      var n := ns[|ns| - 1];
      LinksTo(self, ns[..|ns| - 1], sources) + if n.id == "" then [] else [LinkTo(self, n, sources)]
  }

  // A link goes from this node to the neighbour with the quality heard, and with
  // kind, signal and speed where metrics can be had.
  lemma LinkSays(self: string, n: Neighbor, sources: Sources)
    ensures var l := LinkTo(self, n, sources);
      && l.source == self && l.target == n.id && l.tq == n.tq
      && (sources.metrics.None? ==> l.kind == "" && l.signal == 0 && l.speedMbps == 0)
      && (sources.metrics.Some? ==>
            var m := sources.metrics.value(n.iface, n.nexthop);
            l.kind == m.kind && l.signal == m.signal && l.speedMbps == m.speedMbps)
  {
  }

  // One link for every neighbour entry with an id, in order.
  lemma {:induction false} LinksSay(self: string, ns: seq<Neighbor>, sources: Sources) returns (f: seq<nat>)
    ensures var ls := LinksTo(self, ns, sources);
      && |f| == |ls| && (forall i :: 0 <= i < |f| ==> f[i] < |ns| && ns[f[i]].id != "" && ls[i] == LinkTo(self, ns[f[i]], sources))
      && (forall i, j :: 0 <= i < j < |f| ==> f[i] < f[j])
      && (forall j :: 0 <= j < |ns| && ns[j].id != "" ==> j in f)
  {
    if ns == [] {
      f := [];
    } else {
      f := LinksSay(self, ns[..|ns| - 1], sources);
      if ns[|ns| - 1].id != "" {
        f := f + [|ns| - 1];
      }
    }
  }

  function Heard(sources: Sources): seq<Neighbor> {
    if sources.neighbors.Some? then sources.neighbors.value else []
  }

  // The vertices of a node's own view: itself and every neighbour with an id.
  ghost function VertexIds(self: string, ns: seq<Neighbor>): set<string> {
    {self} + set n | n in ns && n.id != "" :: n.id
  }

  lemma VertexIdsSnoc(self: string, ns: seq<Neighbor>, n: Neighbor)
    ensures VertexIds(self, ns + [n]) == VertexIds(self, ns) + if n.id == "" then {} else {n.id}
  {
    assert forall m :: m in ns + [n] <==> m in ns || m == n;
  }

  lemma VertexAdded(nodes: seq<Node>, n: Node)
    requires DistinctIds(nodes) && n.id !in Ids(nodes)
    ensures DistinctIds(nodes + [n]) && Ids(nodes + [n]) == Ids(nodes) + {n.id}
  {
    IdsSnoc(nodes, n);
    assert forall k :: 0 <= k < |nodes| ==> nodes[k].id in Ids(nodes);
  }

  lemma IdsSnoc(nodes: seq<Node>, n: Node)
    ensures Ids(nodes + [n]) == Ids(nodes) + {n.id}
  {
    assert forall m :: m in nodes + [n] <==> m in nodes || m == n;
  }

  // The graph as this node sees it: itself first, one vertex for every neighbour
  // with an id, one link for every such neighbour entry.
  method Collect(self: string, title: string, sources: Sources) returns (g: Graph)
    ensures Closed(g) && DistinctIds(g.nodes)
    ensures |g.nodes| > 0 && g.nodes[0].id == self && g.nodes[0].role == "self"
    ensures g.nodes[0].title == if title == "" then self else title
    ensures g.nodes[0].backhaul == if sources.backhaul.Some? then sources.backhaul.value else ""
    ensures g.nodes[0].meshMode == if sources.meshMode.Some? then sources.meshMode.value else ""
    ensures g.nodes[0].addrs == if sources.selfAddrs.Some? then sources.selfAddrs.value else []
    ensures forall i :: 0 < i < |g.nodes| ==> g.nodes[i].role == "node" && g.nodes[i].addrs == []
    ensures Ids(g.nodes) == VertexIds(self, Heard(sources))
    ensures g.links == LinksTo(self, Heard(sources), sources)
    ensures |g.clients| == if sources.clients.Some? then |sources.clients.value| else 0
    ensures forall i :: 0 <= i < |g.clients| ==>
              var c := sources.clients.value[i];
              g.clients[i] == if c.ap == "" then c.(ap := self) else c
  {
    var me := Node(self, if title == "" then self else title, SELF, "", "", [], Unset, 0);
    if sources.backhaul.Some? { me := me.(backhaul := sources.backhaul.value); }
    if sources.meshMode.Some? { me := me.(meshMode := sources.meshMode.value); }
    if sources.selfAddrs.Some? { me := me.(addrs := sources.selfAddrs.value); }
    var nodes, links, clients: seq<Client> := [me], [], [];
    if sources.neighbors.Some? {
      nodes, links := CollectNeighbors(me, sources.neighbors.value, sources);
    }
    if sources.clients.Some? {
      var cs := sources.clients.value;
      for i := 0 to |cs|
        invariant |clients| == i
        invariant forall k :: 0 <= k < i ==> clients[k] == if cs[k].ap == "" then cs[k].(ap := self) else cs[k]
      {
        clients := clients + [if cs[i].ap == "" then cs[i].(ap := self) else cs[i]];
      }
    }
    g := Graph(nodes, links, clients);
  }

  method MeasureLink(self: string, n: Neighbor, sources: Sources) returns (link: Link)
    ensures link == LinkTo(self, n, sources)
  {
    link := Link(self, n.id, n.tq, "", 0, 0);
    if sources.metrics.Some? {
      var m := sources.metrics.value(n.iface, n.nexthop);
      link := link.(kind := m.kind, signal := m.signal, speedMbps := m.speedMbps);
    }
  }

  // The node itself first and then members, each once.
  ghost predicate OwnView(nodes: seq<Node>, me: Node) {
    && |nodes| > 0 && nodes[0] == me && DistinctIds(nodes)
    && forall k :: 0 < k < |nodes| ==> nodes[k].role == MEMBER && nodes[k].addrs == []
  }

  lemma MemberAdded(nodes: seq<Node>, me: Node, n: Node)
    requires OwnView(nodes, me) && n.id !in Ids(nodes) && n.role == MEMBER && n.addrs == []
    ensures OwnView(nodes + [n], me) && Ids(nodes + [n]) == Ids(nodes) + {n.id}
  {
    VertexAdded(nodes, n);
  }

  lemma LinksToSnoc(self: string, ns: seq<Neighbor>, n: Neighbor, sources: Sources)
    ensures LinksTo(self, ns + [n], sources) == LinksTo(self, ns, sources) + if n.id == "" then [] else [LinkTo(self, n, sources)]
  {
    assert (ns + [n])[..|ns|] == ns;
  }

  lemma {:induction false} LinksToWithin(self: string, ns: seq<Neighbor>, sources: Sources)
    ensures LinksWithin(LinksTo(self, ns, sources), VertexIds(self, ns))
  {
    if ns != [] {
      var init, n := ns[..|ns| - 1], ns[|ns| - 1];
      assert ns == init + [n];
      LinksToWithin(self, init, sources);
      VertexIdsSnoc(self, init, n);
    }
  }

  method CollectNeighbors(me: Node, ns: seq<Neighbor>, sources: Sources) returns (nodes: seq<Node>, links: seq<Link>)
    ensures OwnView(nodes, me) && Ids(nodes) == VertexIds(me.id, ns)
    ensures links == LinksTo(me.id, ns, sources) && LinksWithin(links, Ids(nodes))
  {
    nodes, links := [me], [];
    var seen := {me.id};
    for i := 0 to |ns|
      invariant OwnView(nodes, me) && seen == Ids(nodes) == VertexIds(me.id, ns[..i])
      invariant links == LinksTo(me.id, ns[..i], sources)
    {
      var n := ns[i];
      assert ns[..i + 1] == ns[..i] + [n];
      VertexIdsSnoc(me.id, ns[..i], n);
      LinksToSnoc(me.id, ns[..i], n, sources);
      if n.id != "" {
        if n.id !in seen {
          var vertex := Node(n.id, n.id, MEMBER, "", "", [], Unset, 0);
          MemberAdded(nodes, me, vertex);
          nodes := nodes + [vertex];
          seen := seen + {n.id};
        }
        var link := MeasureLink(me.id, n, sources);
        links := links + [link];
      }
    }
    assert ns[..|ns|] == ns;
    LinksToWithin(me.id, ns, sources);
  }
}
