/**
 Merging per-node graphs into one (mergeGraphs and reconcile of
 internal/topology/aggregator.go): what the merged graph is, as functions of the
 graphs, and the loops that build it.

 The functions recurse on the last element, the way the loops accumulate.
 */
module TopologyMerge {
  import opened Wrappers
  import opened Topology
  import opened Sorting

  // ----- links: the strongest per key -----

  // The map key of a directed pair.
  function PairKey(source: string, target: string): string {
    source + ['\0'] + target
  }

  function Key(l: Link): string {
    PairKey(l.source, l.target)
  }

  function Strongest(links: seq<Link>): map<string, Link> {
    if links == [] then map[]
    else KeepStronger(Strongest(links[..|links| - 1]), links[|links| - 1])
  }

  // Exactly the keys of the links, each with a link of the greatest quality.
  lemma {:induction false} StrongestMeaning(links: seq<Link>)
    ensures forall k :: k in Strongest(links) ==> Key(Strongest(links)[k]) == k && Strongest(links)[k] in links
    ensures forall l :: l in links ==> Key(l) in Strongest(links) && l.tq <= Strongest(links)[Key(l)].tq
  {
    if links != [] {
      var l := links[|links| - 1];
      StrongestMeaning(links[..|links| - 1]);
      assert links == links[..|links| - 1] + [l];
    }
  }

  // Of equally good links the first is kept.
  lemma {:induction false} StrongestIsFirst(links: seq<Link>, i: nat)
    requires i < |links|
    requires forall j :: 0 <= j < |links| && Key(links[j]) == Key(links[i]) ==> links[j].tq <= links[i].tq && (j < i ==> links[j].tq < links[i].tq)
    ensures Key(links[i]) in Strongest(links) && Strongest(links)[Key(links[i])] == links[i]
  {
    var init, last := links[..|links| - 1], links[|links| - 1];
    StrongestMeaning(init);
    if i < |init| {
      StrongestIsFirst(init, i);
    } else {
      assert forall l :: l in init && Key(l) == Key(last) ==> l.tq < last.tq;
      assert forall k :: k in Strongest(init) ==> Strongest(init)[k] in init;
    }
  }

  function KeepStronger(m: map<string, Link>, l: Link): map<string, Link> {
    if Key(l) !in m || l.tq > m[Key(l)].tq then m[Key(l) := l] else m
  }

  lemma StrongestSnoc(links: seq<Link>, l: Link)
    ensures Strongest(links + [l]) == KeepStronger(Strongest(links), l)
  {
    assert (links + [l])[..|links|] == links;
  }

  ghost function SortedKeys(keys: set<string>): (r: seq<string>)
    ensures Ascending(LexLess, r) && Elements(r) == keys
  {
    LexIsStrictOrder(keys);
    Sorted(LexLess, keys)
  }

  function InOrder(m: map<string, Link>, keys: seq<string>): (r: seq<Link>)
    requires forall k :: k in keys ==> k in m
    ensures |r| == |keys| && forall i :: 0 <= i < |r| ==> r[i] == m[keys[i]]
  {
    seq(|keys|, i requires 0 <= i < |keys| => m[keys[i]])
  }

  ghost function ByKey(m: map<string, Link>): (r: seq<Link>)
    ensures |r| == |SortedKeys(m.Keys)|
    ensures forall i :: 0 <= i < |r| ==> SortedKeys(m.Keys)[i] in m && r[i] == m[SortedKeys(m.Keys)[i]]
  {
    assert forall k :: k in SortedKeys(m.Keys) ==> k in Elements(SortedKeys(m.Keys));
    InOrder(m, SortedKeys(m.Keys))
  }

  // ----- nodes: the first occurrence, enriched -----

  // The local graph's own node stays "self"; a reporting node becomes a member.
  function Demoted(n: Node, local: bool): Node {
    if !local && n.role == SELF then n.(role := MEMBER) else n
  }

  function Enriched(n: Node, report: Node): Node {
    n.(backhaul := if n.backhaul == "" then report.backhaul else n.backhaul,
       meshMode := if n.meshMode == "" then report.meshMode else n.meshMode)
  }

  function Position(nodes: seq<Node>, id: string): (p: Option<nat>)
    ensures p.Some? ==> p.value < |nodes| && nodes[p.value].id == id
    ensures p.None? <==> forall i :: 0 <= i < |nodes| ==> nodes[i].id != id
  {
    if nodes == [] then None
    else if nodes[|nodes| - 1].id == id then Some(|nodes| - 1)
    else Position(nodes[..|nodes| - 1], id)
  }

  function AddNode(nodes: seq<Node>, n: Node): seq<Node> {
    var p := Position(nodes, n.id);
    if p.Some? then nodes[p.value := Enriched(nodes[p.value], n)] else nodes + [n]
  }

  function AddNodes(seen: seq<Node>): seq<Node> {
    if seen == [] then [] else AddNode(AddNodes(seen[..|seen| - 1]), seen[|seen| - 1])
  }

  lemma AddNodesSnoc(seen: seq<Node>, n: Node)
    ensures AddNodes(seen + [n]) == AddNode(AddNodes(seen), n)
  {
    assert (seen + [n])[..|seen|] == seen;
  }

  // ----- clients: the first occurrence of a MAC -----

  function AddClient(clients: seq<Client>, c: Client): seq<Client> {
    if exists d :: d in clients && d.mac == c.mac then clients else clients + [c]
  }

  function AddClients(seen: seq<Client>): seq<Client> {
    if seen == [] then [] else AddClient(AddClients(seen[..|seen| - 1]), seen[|seen| - 1])
  }

  lemma AddClientsSnoc(seen: seq<Client>, c: Client)
    ensures AddClients(seen + [c]) == AddClient(AddClients(seen), c)
  {
    assert (seen + [c])[..|seen|] == seen;
  }

  // ----- everything the graphs mention, in order -----

  function DemotedAll(nodes: seq<Node>, local: bool): (r: seq<Node>)
    ensures |r| == |nodes| && forall i :: 0 <= i < |r| ==> r[i] == Demoted(nodes[i], local)
  {
    seq(|nodes|, i requires 0 <= i < |nodes| => Demoted(nodes[i], local))
  }

  function AllNodes(graphs: seq<Graph>): seq<Node> {
    if graphs == [] then []
    else AllNodes(graphs[..|graphs| - 1]) + DemotedAll(graphs[|graphs| - 1].nodes, |graphs| == 1)
  }

  function AllLinks(graphs: seq<Graph>): seq<Link> {
    if graphs == [] then []
    else AllLinks(graphs[..|graphs| - 1]) + graphs[|graphs| - 1].links
  }

  function AllClients(graphs: seq<Graph>): seq<Client> {
    if graphs == [] then []
    else AllClients(graphs[..|graphs| - 1]) + graphs[|graphs| - 1].clients
  }

  ghost function Union(graphs: seq<Graph>): Graph {
    Graph(AddNodes(AllNodes(graphs)), ByKey(Strongest(AllLinks(graphs))), AddClients(AllClients(graphs)))
  }

  // ----- reconciliation -----

  function Declare(m: map<string, string>, addrs: seq<string>, id: string): map<string, string> {
    if addrs == [] then m else Declare(m, addrs[..|addrs| - 1], id)[addrs[|addrs| - 1] := id]
  }

  // Which node owns each declared address; the last node to declare it wins.
  function Owners(nodes: seq<Node>): map<string, string> {
    if nodes == [] then map[]
    else Declare(Owners(nodes[..|nodes| - 1]), nodes[|nodes| - 1].addrs, nodes[|nodes| - 1].id)
  }

  function Canon(owners: map<string, string>, id: string): string {
    if id in owners then owners[id] else id
  }

  function Real(nodes: seq<Node>, owners: map<string, string>): seq<Node> {
    if nodes == [] then []
    else
      var n := nodes[|nodes| - 1];
      Real(nodes[..|nodes| - 1], owners) + if Canon(owners, n.id) == n.id then [n] else []
  }

  lemma RealSnoc(nodes: seq<Node>, n: Node, owners: map<string, string>)
    ensures Real(nodes + [n], owners) == if Canon(owners, n.id) == n.id then Real(nodes, owners) + [n] else Real(nodes, owners)
  {
    assert (nodes + [n])[..|nodes|] == nodes;
  }

  function CanonLink(l: Link, owners: map<string, string>): Link {
    l.(source := Canon(owners, l.source), target := Canon(owners, l.target))
  }

  // Links between canonical vertices, self-loops dropped.
  function CanonLinks(links: seq<Link>, owners: map<string, string>): seq<Link> {
    if links == [] then []
    else
      var c := CanonLink(links[|links| - 1], owners);
      CanonLinks(links[..|links| - 1], owners) + if c.source == c.target then [] else [c]
  }

  lemma {:induction false} CanonLinksHas(links: seq<Link>, owners: map<string, string>, l: Link)
    requires l in links && CanonLink(l, owners).source != CanonLink(l, owners).target
    ensures CanonLink(l, owners) in CanonLinks(links, owners)
  {
    var init := links[..|links| - 1];
    assert links == init + [links[|links| - 1]];
    if l in init {
      CanonLinksHas(init, owners, l);
    }
  }

  lemma {:induction false} CanonLinksFrom(links: seq<Link>, owners: map<string, string>, c: Link) returns (l: Link)
    requires c in CanonLinks(links, owners)
    ensures c.source != c.target && l in links && CanonLink(l, owners) == c
  {
    l := links[|links| - 1];
    if c in CanonLinks(links[..|links| - 1], owners) {
      l := CanonLinksFrom(links[..|links| - 1], owners, c);
    }
  }

  function CanonClients(clients: seq<Client>, owners: map<string, string>): (r: seq<Client>)
    ensures |r| == |clients| && forall i :: 0 <= i < |r| ==> r[i] == clients[i].(ap := Canon(owners, clients[i].ap))
  {
    seq(|clients|, i requires 0 <= i < |clients| => clients[i].(ap := Canon(owners, clients[i].ap)))
  }

  ghost function Reconciled(g: Graph): Graph {
    var owners := Owners(g.nodes);
    if owners == map[] then g
    else Graph(Real(g.nodes, owners), ByKey(Strongest(CanonLinks(g.links, owners))), CanonClients(g.clients, owners))
  }

  ghost function Merged(graphs: seq<Graph>): Graph {
    Reconciled(Union(graphs))
  }

  // ----- the loops -----

  // nodeIdx holds the position of every vertex so far.
  ghost predicate Indexes(idx: map<string, nat>, nodes: seq<Node>) {
    && (forall id :: id in idx ==> idx[id] < |nodes| && nodes[idx[id]].id == id)
    && (forall i :: 0 <= i < |nodes| ==> nodes[i].id in idx && idx[nodes[i].id] == i)
  }

  method MergeNode(nodes: seq<Node>, idx: map<string, nat>, node: Node, local: bool)
    returns (nodes': seq<Node>, idx': map<string, nat>)
    requires Indexes(idx, nodes)
    ensures Indexes(idx', nodes') && nodes' == AddNode(nodes, Demoted(node, local))
  {
    nodes', idx' := nodes, idx;
    var n := node;
    if n.id in idx {
      var pos := idx[n.id];
      if nodes'[pos].backhaul == "" && n.backhaul != "" {
        nodes' := nodes'[pos := nodes'[pos].(backhaul := n.backhaul)];
      }
      if nodes'[pos].meshMode == "" && n.meshMode != "" {
        nodes' := nodes'[pos := nodes'[pos].(meshMode := n.meshMode)];
      }
      assert nodes'[pos] == Enriched(nodes[pos], Demoted(node, local));
    } else {
      if !local && n.role == SELF {
        n := n.(role := MEMBER);
      }
      idx' := idx'[n.id := |nodes'|];
      nodes' := nodes' + [n];
    }
  }

  // Adding more nodes to those merged so far.
  function AddAll(nodes: seq<Node>, more: seq<Node>): seq<Node> {
    if more == [] then nodes else AddNode(AddAll(nodes, more[..|more| - 1]), more[|more| - 1])
  }

  lemma {:induction false} AddAllIs(before: seq<Node>, more: seq<Node>)
    ensures AddNodes(before + more) == AddAll(AddNodes(before), more)
  {
    if more == [] {
      assert before + more == before;
    } else {
      var init, last := more[..|more| - 1], more[|more| - 1];
      AddAllIs(before, init);
      AddNodesSnoc(before + init, last);
      ConcatLast(before, more);
    }
  }

  lemma ConcatLast<T>(before: seq<T>, more: seq<T>)
    requires more != []
    ensures before + more[..|more| - 1] + [more[|more| - 1]] == before + more
  {
  }

  method MergeNodes(nodes: seq<Node>, idx: map<string, nat>, g: Graph, local: bool)
    returns (nodes': seq<Node>, idx': map<string, nat>)
    requires Indexes(idx, nodes)
    ensures Indexes(idx', nodes') && nodes' == AddAll(nodes, DemotedAll(g.nodes, local))
  {
    nodes', idx' := nodes, idx;
    ghost var all := DemotedAll(g.nodes, local);
    for j := 0 to |g.nodes|
      invariant Indexes(idx', nodes') && nodes' == AddAll(nodes, all[..j])
    {
      assert all[..j + 1][..j] == all[..j];
      nodes', idx' := MergeNode(nodes', idx', g.nodes[j], local);
    }
    assert all[..|all|] == all;
  }

  method MergeLinks(links: map<string, Link>, g: Graph, ghost before: seq<Link>) returns (links': map<string, Link>)
    requires links == Strongest(before)
    ensures links' == Strongest(before + g.links)
  {
    links' := links;
    assert before + g.links[..0] == before;
    for j := 0 to |g.links|
      invariant links' == Strongest(before + g.links[..j])
    {
      var l := g.links[j];
      assert before + g.links[..j + 1] == before + g.links[..j] + [l];
      StrongestSnoc(before + g.links[..j], l);
      links' := AddLink(links', l);
    }
    assert g.links[..|g.links|] == g.links;
  }

  method AddLink(links: map<string, Link>, l: Link) returns (links': map<string, Link>)
    ensures links' == KeepStronger(links, l)
  {
    var key := l.source + ['\0'] + l.target;
    links' := links;
    if key !in links || l.tq > links[key].tq {
      links' := links[key := l];
    }
  }

  ghost predicate Macs(seen: set<string>, clients: seq<Client>) {
    forall m :: m in seen <==> exists c :: c in clients && c.mac == m
  }

  method MergeClient(clients: seq<Client>, seen: set<string>, c: Client)
    returns (clients': seq<Client>, seen': set<string>)
    requires Macs(seen, clients)
    ensures Macs(seen', clients') && clients' == AddClient(clients, c)
  {
    clients', seen' := clients, seen;
    if c.mac !in seen {
      assert forall d :: d in clients + [c] <==> d in clients || d == c;
      seen' := seen + {c.mac};
      clients' := clients + [c];
    }
  }

  method MergeClients(clients: seq<Client>, seen: set<string>, g: Graph, ghost before: seq<Client>)
    returns (clients': seq<Client>, seen': set<string>)
    requires Macs(seen, clients) && clients == AddClients(before)
    ensures Macs(seen', clients') && clients' == AddClients(before + g.clients)
  {
    clients', seen' := clients, seen;
    assert before + g.clients[..0] == before;
    for j := 0 to |g.clients|
      invariant Macs(seen', clients') && clients' == AddClients(before + g.clients[..j])
    {
      assert before + g.clients[..j + 1] == before + g.clients[..j] + [g.clients[j]];
      AddClientsSnoc(before + g.clients[..j], g.clients[j]);
      clients', seen' := MergeClient(clients', seen', g.clients[j]);
    }
    assert g.clients[..|g.clients|] == g.clients;
  }

  // The keys of the link map, in whatever order the map yields them.
  method SomeKeys(links: map<string, Link>) returns (keys: seq<string>)
    ensures Elements(keys) == links.Keys && Distinct(keys)
  {
    keys := [];
    var todo := links.Keys;
    while todo != {}
      invariant todo <= links.Keys && Elements(keys) == links.Keys - todo && Distinct(keys)
      decreases todo
    {
      var k :| k in todo;
      todo := todo - {k};
      assert k !in Elements(keys);
      assert Elements(keys + [k]) == Elements(keys) + {k};
      keys := keys + [k];
    }
  }

  method KeysInOrder(links: map<string, Link>) returns (keys: seq<string>)
    ensures keys == SortedKeys(links.Keys)
    ensures forall i :: 0 <= i < |keys| ==> keys[i] in links
  {
    var some := SomeKeys(links);
    LexIsStrictOrder(links.Keys);
    keys := Sort(LexLess, some);
    assert forall i :: 0 <= i < |keys| ==> keys[i] in Elements(keys);
  }

  lemma ByKeyNext(links: map<string, Link>, i: nat)
    requires i < |SortedKeys(links.Keys)|
    ensures SortedKeys(links.Keys)[i] in links
    ensures ByKey(links)[..i + 1] == ByKey(links)[..i] + [links[SortedKeys(links.Keys)[i]]]
  {
    var all := ByKey(links);
    assert all[i] == links[SortedKeys(links.Keys)[i]];
    NextSlice(all, i);
  }

  lemma NextSlice<T>(xs: seq<T>, i: nat)
    requires i < |xs|
    ensures xs[..i + 1] == xs[..i] + [xs[i]]
  {
  }

  method EmitLinks(links: map<string, Link>) returns (out: seq<Link>)
    ensures out == ByKey(links)
  {
    var keys := KeysInOrder(links);
    out := [];
    for i := 0 to |keys|
      invariant out == ByKey(links)[..i]
    {
      ByKeyNext(links, i);
      out := out + [links[keys[i]]];
    }
  }

  method MergeGraphs(graphs: seq<Graph>) returns (out: Graph)
    ensures out == Merged(graphs)
  {
    var nodes, links, clients := Gather(graphs);
    var ordered := EmitLinks(links);
    out := Reconcile(Graph(nodes, ordered, clients));
  }

  method Gather(graphs: seq<Graph>) returns (nodes: seq<Node>, links: map<string, Link>, clients: seq<Client>)
    ensures nodes == AddNodes(AllNodes(graphs))
    ensures links == Strongest(AllLinks(graphs))
    ensures clients == AddClients(AllClients(graphs))
  {
    nodes, links, clients := [], map[], [];
    var nodeIdx: map<string, nat>, clientSeen: set<string> := map[], {};
    for i := 0 to |graphs|
      invariant Indexes(nodeIdx, nodes) && nodes == AddNodes(AllNodes(graphs[..i]))
      invariant links == Strongest(AllLinks(graphs[..i]))
      invariant clients == AddClients(AllClients(graphs[..i]))
      invariant Macs(clientSeen, clients)
    {
      assert graphs[..i + 1][..i] == graphs[..i];
      AddAllIs(AllNodes(graphs[..i]), DemotedAll(graphs[i].nodes, i == 0));
      nodes, nodeIdx := MergeNodes(nodes, nodeIdx, graphs[i], i == 0);
      links := MergeLinks(links, graphs[i], AllLinks(graphs[..i]));
      clients, clientSeen := MergeClients(clients, clientSeen, graphs[i], AllClients(graphs[..i]));
    }
    assert graphs[..|graphs|] == graphs;
  }

  // Keeps the vertices that are not aliases, in place and in order.
  method KeepReal(nodes: array<Node>, owners: map<string, string>) returns (kept: nat)
    modifies nodes
    ensures kept <= nodes.Length && nodes[..kept] == Real(old(nodes[..]), owners)
  {
    kept := 0;
    ghost var before := nodes[..];
    for i := 0 to nodes.Length
      invariant kept <= i && nodes[..kept] == Real(before[..i], owners)
      invariant forall k :: i <= k < nodes.Length ==> nodes[k] == before[k]
    {
      RealSnoc(before[..i], before[i], owners);
      assert before[..i + 1] == before[..i] + [before[i]];
      var n := nodes[i];
      if Canon(owners, n.id) == n.id {
        ghost var sofar := nodes[..kept];
        nodes[kept] := n;
        kept := kept + 1;
        assert nodes[..kept] == sofar + [n];
      }
    }
    assert before[..nodes.Length] == before;
  }

  method CollectOwners(nodes: seq<Node>) returns (owners: map<string, string>)
    ensures owners == Owners(nodes)
  {
    owners := map[];
    for i := 0 to |nodes|
      invariant owners == Owners(nodes[..i])
    {
      assert nodes[..i + 1][..i] == nodes[..i];
      var addrs := nodes[i].addrs;
      ghost var before := owners;
      for j := 0 to |addrs|
        invariant owners == Declare(before, addrs[..j], nodes[i].id)
      {
        assert addrs[..j + 1][..j] == addrs[..j];
        owners := owners[addrs[j] := nodes[i].id];
      }
      assert addrs[..|addrs|] == addrs;
    }
    assert nodes[..|nodes|] == nodes;
  }

  method RewriteLinks(links: seq<Link>, owners: map<string, string>) returns (m: map<string, Link>)
    ensures m == Strongest(CanonLinks(links, owners))
  {
    m := map[];
    for i := 0 to |links|
      invariant m == Strongest(CanonLinks(links[..i], owners))
    {
      assert links[..i + 1][..i] == links[..i];
      var l := links[i].(source := Canon(owners, links[i].source), target := Canon(owners, links[i].target));
      ghost var before := CanonLinks(links[..i], owners);
      assert CanonLinks(links[..i + 1], owners) == if l.source == l.target then before else before + [l];
      if l.source != l.target {
        StrongestSnoc(before, l);
        m := AddLink(m, l);
      }
    }
    assert links[..|links|] == links;
  }

  method Reconcile(g: Graph) returns (out: Graph)
    ensures out == Reconciled(g)
  {
    var owners := CollectOwners(g.nodes);
    if owners == map[] {
      return g;
    }
    var nodes := new Node[|g.nodes|](i requires 0 <= i < |g.nodes| => g.nodes[i]);
    assert nodes[..] == g.nodes;
    var kept := KeepReal(nodes, owners);

    var links := RewriteLinks(g.links, owners);
    var ordered := EmitLinks(links);

    assert ordered == ByKey(Strongest(CanonLinks(g.links, owners)));
    assert nodes[..kept] == Real(g.nodes, owners);
    var clients := RewriteClients(g.clients, owners);
    out := Graph(nodes[..kept], ordered, clients);
  }

  method RewriteClients(clients: seq<Client>, owners: map<string, string>) returns (out: seq<Client>)
    ensures out == CanonClients(clients, owners)
  {
    out := [];
    for i := 0 to |clients|
      invariant |out| == i
      invariant forall j :: 0 <= j < i ==> out[j] == clients[j].(ap := Canon(owners, clients[j].ap))
    {
      out := out + [clients[i].(ap := Canon(owners, clients[i].ap))];
    }
  }
}
