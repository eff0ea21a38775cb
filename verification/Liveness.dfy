/**
 The overview by the clock (internal/topology/aggregator.go): which reports count,
 who is alive, stale or down, and where every link and client comes from, in
 terms of report times, the two time limits and now.
 */
module Liveness {
  import opened Wrappers
  import opened Topology
  import opened TopologyMerge
  import opened TopologyTheorems
  import opened Sorting
  import opened Aggregation

  // A graph the overview at this time draws on.
  ghost predicate Current(local: Graph, reports: Reports, ttl: int, now: int, g: Graph) {
    g == local || exists id :: id in reports && reports[id].graph == g && (ttl <= 0 || reports[id].at >= now - ttl)
  }

  lemma InputsAreCurrent(local: Graph, reports: Reports, ttl: int, now: int)
    ensures forall g :: g in Inputs(local, reports, ttl, now) <==> Current(local, reports, ttl, now, g)
    ensures Inputs(local, reports, ttl, now) != [] && Inputs(local, reports, ttl, now)[0] == local
  {
    InputsMeaning(local, reports, ttl, now);
  }

  // The reports count newest first, and by node id where they are equally new.
  lemma NewestComeFirst(reports: Reports, ttl: int, now: int)
    ensures var xs := NewestFirst(reports, ttl, now);
      && (forall i, j :: 0 <= i < j < |xs| ==>
            xs[i].tg.at > xs[j].tg.at || (xs[i].tg.at == xs[j].tg.at && LexLess(xs[i].id, xs[j].id)))
      && (forall x :: x in xs <==> x.id in reports && x.tg == reports[x.id] && (ttl <= 0 || x.tg.at >= now - ttl))
  {
    var xs := NewestFirst(reports, ttl, now);
    NewerIsStrictOrder(FreshEntries(reports, ttl, now));
    forall x ensures x in xs <==> x.id in reports && x.tg == reports[x.id] && (ttl <= 0 || x.tg.at >= now - ttl) {
      assert x in xs <==> x in Elements(xs);
    }
  }

  // ----- liveness -----

  // When a node was last heard of.
  function LastHeardOf(inv: InventoryNode, reports: Reports): int {
    if inv.id in reports && reports[inv.id].at > inv.lastSeen then reports[inv.id].at else inv.lastSeen
  }

  // The local graph or a report that has not expired mentions the node.
  ghost predicate Mentioned(local: Graph, reports: Reports, ttl: int, now: int, id: string) {
    id in Ids(local.nodes)
    || exists r :: r in reports && (ttl <= 0 || reports[r].at >= now - ttl) && id in Ids(reports[r].graph.nodes)
  }

  // Main result. An onboarded node that nobody declares as an address is shown
  // alive if and only if the local graph or an unexpired report mentions it;
  // otherwise it is down if and only if it was last heard of before the stale
  // limit, and stale if not.
  lemma StatusByTheClock(inv: InventoryNode, local: Graph, inventory: seq<InventoryNode>, reports: Reports, ttl: int, staleTTL: int, now: int)
    requires inv in inventory
    requires !Declared(local, inv.id) && forall r :: r in reports ==> !Declared(reports[r].graph, inv.id)
    ensures exists v :: v in Overview(local, inventory, reports, ttl, staleTTL, now).nodes && v.id == inv.id
                     && v.status == (if Mentioned(local, reports, ttl, now, inv.id) then Alive
                                     else if LastHeardOf(inv, reports) < now - staleTTL then Down
                                     else Stale)
  {
    AliveMeansMentioned(local, reports, ttl, now, inv.id);
    LivenessIsShown(local, inventory, reports, ttl, staleTTL, now, inv);
  }

  // Whoever is shown, declared or not: a vertex is alive exactly when it is one of
  // the merged graph's, and a silent one has the status and the time of its node.
  lemma VerticesByTheClock(v: Node, local: Graph, inventory: seq<InventoryNode>, reports: Reports, ttl: int, staleTTL: int, now: int)
    requires v in Overview(local, inventory, reports, ttl, staleTTL, now).nodes
    ensures var alive := Ids(Merged(Inputs(local, reports, ttl, now)).nodes);
      && (v.status == Alive <==> v.id in alive)
      && (v.status == Alive ==> v.lastSeen == if v.id in reports then reports[v.id].at else now)
      && (v.status != Alive ==> exists inv :: inv in inventory && inv.id == v.id && ShownSilent(v, inv, reports, staleTTL, now))
  {
    var g := Merged(Inputs(local, reports, ttl, now));
    OverviewNodes(local, inventory, reports, ttl, staleTTL, now);
    if v in AllMarked(g.nodes, reports, now) {
      var i :| 0 <= i < |g.nodes| && v == AllMarked(g.nodes, reports, now)[i];
      assert g.nodes[i] in g.nodes;
    } else {
      SilentFrom(inventory, Ids(g.nodes), reports, staleTTL, now, v);
    }
  }

  ghost predicate ShownSilent(v: Node, inv: InventoryNode, reports: Reports, staleTTL: int, now: int) {
    && v.title == (if inv.title == "" then inv.id else inv.title)
    && v.role == "node" && v.addrs == [] && v.lastSeen == LastHeardOf(inv, reports)
    && v.status == if LastHeardOf(inv, reports) < now - staleTTL then Down else Stale
  }

  lemma {:induction false} SilentFrom(inventory: seq<InventoryNode>, alive: set<string>, reports: Reports, staleTTL: int, now: int, v: Node)
    requires v in Silent(inventory, alive, reports, staleTTL, now)
    ensures v.id !in alive && exists inv :: inv in inventory && inv.id == v.id && ShownSilent(v, inv, reports, staleTTL, now)
  {
    var init, last := inventory[..|inventory| - 1], inventory[|inventory| - 1];
    assert inventory == init + [last];
    if v in Silent(init, alive, reports, staleTTL, now) {
      SilentFrom(init, alive, reports, staleTTL, now, v);
    } else {
      assert ShownSilent(v, last, reports, staleTTL, now);
    }
  }

  // ----- where links and clients come from -----

  lemma {:induction false} LinkSource(graphs: seq<Graph>, l: Link)
    requires l in AllLinks(graphs)
    ensures exists g :: g in graphs && l in g.links
  {
    AllMentioned(graphs);
  }

  // A link or client of an expired report never shows: each comes from the local
  // graph or an unexpired report, with its ends rewritten and nothing else.
  lemma LinksAreCurrent(c: Link, local: Graph, inventory: seq<InventoryNode>, reports: Reports, ttl: int, staleTTL: int, now: int)
    requires c in Overview(local, inventory, reports, ttl, staleTTL, now).links
    ensures exists g, l :: Current(local, reports, ttl, now, g) && l in g.links && c == l.(source := c.source, target := c.target)
  {
    var inputs := Inputs(local, reports, ttl, now);
    InputsAreCurrent(local, reports, ttl, now);
    var l;
    if Owners(Union(inputs).nodes) == map[] {
      ByKeyFrom(AllLinks(inputs));
      l := c;
    } else {
      l := FusionSound(inputs, c);
    }
    LinkSource(inputs, l);
    var g :| g in inputs && l in g.links;
    assert c == l.(source := c.source, target := c.target);
  }

  // ----- clients -----

  // Where a MAC first occurs.
  function FirstMac(seen: seq<Client>, mac: string): (p: Option<nat>)
    ensures p.Some? ==> p.value < |seen| && seen[p.value].mac == mac
    ensures p.None? ==> forall c :: c in seen ==> c.mac != mac
  {
    if seen == [] then None
    else
      var p := FirstMac(seen[..|seen| - 1], mac);
      if p.Some? then p
      else if seen[|seen| - 1].mac == mac then Some(|seen| - 1)
      else
        assert seen == seen[..|seen| - 1] + [seen[|seen| - 1]];
        None
  }

  lemma {:induction false} FirstMacIsFirst(seen: seq<Client>, mac: string)
    ensures FirstMac(seen, mac).Some? ==> forall j :: 0 <= j < FirstMac(seen, mac).value ==> seen[j].mac != mac
  {
    if seen != [] {
      var init := seen[..|seen| - 1];
      FirstMacIsFirst(init, mac);
      if FirstMac(init, mac).None? {
        assert forall j :: 0 <= j < |init| ==> init[j] in init && init[j] == seen[j];
      }
    }
  }

  predicate IsFirstOf(seen: seq<Client>, c: Client) {
    var p := FirstMac(seen, c.mac);
    p.Some? && seen[p.value] == c
  }

  lemma FirstMacSnoc(init: seq<Client>, last: Client, c: Client)
    ensures IsFirstOf(init + [last], c) <==> IsFirstOf(init, c) || (c == last && FirstMac(init, last.mac).None?)
  {
    var seen := init + [last];
    assert seen[..|seen| - 1] == init && seen[|seen| - 1] == last;
  }

  // One client a MAC: its first occurrence.
  lemma {:induction false} ClientsMeaning(seen: seq<Client>)
    ensures forall c :: c in AddClients(seen) <==> IsFirstOf(seen, c)
    ensures forall i, j :: 0 <= i < j < |AddClients(seen)| ==> AddClients(seen)[i].mac != AddClients(seen)[j].mac
  {
    if seen != [] {
      var init, last := seen[..|seen| - 1], seen[|seen| - 1];
      assert seen == init + [last];
      ClientsMeaning(init);
      AddClientsSnoc(init, last);
      KnownMac(init, last.mac);
      forall c ensures c in AddClients(seen) <==> IsFirstOf(seen, c) {
        FirstMacSnoc(init, last, c);
      }
      assert forall i :: 0 <= i < |AddClients(init)| ==> AddClients(init)[i] in AddClients(init);
    }
  }

  lemma KnownMac(init: seq<Client>, mac: string)
    requires forall c :: c in AddClients(init) <==> IsFirstOf(init, c)
    ensures (exists d :: d in AddClients(init) && d.mac == mac) <==> FirstMac(init, mac).Some?
  {
    var p := FirstMac(init, mac);
    if p.Some? {
      assert IsFirstOf(init, init[p.value]);
    }
    if d :| d in AddClients(init) && d.mac == mac {
      assert IsFirstOf(init, d);
    }
  }

  lemma {:induction false} ClientSource(graphs: seq<Graph>, c: Client)
    requires c in AllClients(graphs)
    ensures exists g :: g in graphs && c in g.clients
  {
    var init, last := graphs[..|graphs| - 1], graphs[|graphs| - 1];
    assert graphs == init + [last];
    if c !in last.clients {
      ClientSource(init, c);
    }
  }

  lemma ClientsAreCurrent(c: Client, local: Graph, inventory: seq<InventoryNode>, reports: Reports, ttl: int, staleTTL: int, now: int)
    requires c in Overview(local, inventory, reports, ttl, staleTTL, now).clients
    ensures exists g, d :: Current(local, reports, ttl, now, g) && d in g.clients && c == d.(ap := c.ap)
  {
    var inputs := Inputs(local, reports, ttl, now);
    var u := Union(inputs);
    InputsAreCurrent(local, reports, ttl, now);
    ClientsMeaning(AllClients(inputs));
    var d := ClientBefore(u, c);
    assert IsFirstOf(AllClients(inputs), d);
    ClientSource(inputs, d);
  }

  lemma ClientBefore(u: Graph, c: Client) returns (d: Client)
    requires c in Reconciled(u).clients
    ensures d in u.clients && c == d.(ap := Canon(Owners(u.nodes), d.ap))
  {
    var i :| 0 <= i < |Reconciled(u).clients| && Reconciled(u).clients[i] == c;
    d := u.clients[i];
  }

  lemma {:induction false} ClientGathered(graphs: seq<Graph>, g: Graph, c: Client)
    requires g in graphs && c in g.clients
    ensures c in AllClients(graphs)
  {
    var init, last := graphs[..|graphs| - 1], graphs[|graphs| - 1];
    assert graphs == init + [last];
    if g != last {
      ClientGathered(init, g, c);
    }
  }

  // And every client of the local graph or an unexpired report does show.
  lemma ClientsAreShown(g: Graph, d: Client, local: Graph, inventory: seq<InventoryNode>, reports: Reports, ttl: int, staleTTL: int, now: int)
    requires Current(local, reports, ttl, now, g) && d in g.clients
    ensures exists c :: c in Overview(local, inventory, reports, ttl, staleTTL, now).clients && c.mac == d.mac
  {
    var inputs := Inputs(local, reports, ttl, now);
    InputsAreCurrent(local, reports, ttl, now);
    ClientGathered(inputs, g, d);
    var all := AllClients(inputs);
    ClientsMeaning(all);
    var first := all[FirstMac(all, d.mac).value];
    assert IsFirstOf(all, first);
    var i :| 0 <= i < |AddClients(all)| && AddClients(all)[i] == first;
    assert Reconciled(Union(inputs)).clients[i].mac == d.mac;
  }

  // ----- what a merged vertex takes from whom -----

  // n as graph i mentions it: only the local graph, the first, may say "self".
  predicate FromGraph(graphs: seq<Graph>, i: nat, m: Node, n: Node) {
    i < |graphs| && m in graphs[i].nodes && n == if i > 0 && m.role == "self" then m.(role := "node") else m
  }

  lemma {:induction false} NodeOrigin(graphs: seq<Graph>, k: nat) returns (i: nat, m: Node)
    requires k < |AllNodes(graphs)|
    ensures FromGraph(graphs, i, m, AllNodes(graphs)[k])
    ensures forall h :: 0 <= h < i ==> Ids(graphs[h].nodes) <= Ids(AllNodes(graphs)[..k])
  {
    var init, last := graphs[..|graphs| - 1], graphs[|graphs| - 1];
    assert graphs == init + [last];
    var before, all := AllNodes(init), AllNodes(graphs);
    if k < |before| {
      i, m := NodeOrigin(init, k);
      assert all[..k] == before[..k] && all[k] == before[k];
    } else {
      i, m := |init|, last.nodes[k - |before|];
      assert all[k] == DemotedAll(last.nodes, |graphs| == 1)[k - |before|];
      AllMentioned(init);
      IdsOfPrefix(before, all[..k]);
      assert forall h :: 0 <= h < i ==> init[h] in init;
    }
  }

  lemma IdsOfPrefix(a: seq<Node>, b: seq<Node>)
    requires a <= b
    ensures Ids(a) <= Ids(b)
  {
    forall id | id in Ids(a) ensures id in Ids(b) {
      var i :| 0 <= i < |a| && a[i].id == id;
      assert b[i] == a[i];
    }
  }

  // Main result. A merged vertex has title, addresses and role of the first graph
  // that mentions it, except that a reporting node's "self" becomes "node".
  lemma VertexByOrigin(graphs: seq<Graph>, v: Node) returns (i: nat, m: Node)
    requires v in Merged(graphs).nodes
    ensures i < |graphs| && m in graphs[i].nodes && m.id == v.id
    ensures v.title == m.title && v.addrs == m.addrs && v.role == (if i > 0 && m.role == "self" then "node" else m.role)
    ensures forall h, n :: 0 <= h < i && n in graphs[h].nodes ==> n.id != v.id
  {
    var all := AllNodes(graphs);
    MergedVertex(graphs, v);
    var k := FirstIndex(all, v.id).value;
    FirstIndexIsFirst(all, v.id);
    i, m := NodeOrigin(graphs, k);
    assert v.id !in Ids(all[..k]);
    forall h, n | 0 <= h < i && n in graphs[h].nodes ensures n.id != v.id {
      assert n.id in Ids(graphs[h].nodes);
    }
  }
}
