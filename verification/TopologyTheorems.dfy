/**
 What merging promises, whatever the graphs: vertices, links, closure and
 idempotence.
 */
module TopologyTheorems {
  import opened Wrappers
  import opened Topology
  import opened TopologyMerge
  import opened Sorting

  // ----- vertices -----

  // Where a vertex id first occurs.
  function FirstIndex(seen: seq<Node>, id: string): (p: Option<nat>)
    ensures p.Some? ==> p.value < |seen| && seen[p.value].id == id
  {
    if seen == [] then None
    else
      var p := FirstIndex(seen[..|seen| - 1], id);
      if p.Some? then p
      else if seen[|seen| - 1].id == id then Some(|seen| - 1)
      else None
  }

  lemma {:induction false} FirstIndexIsFirst(seen: seq<Node>, id: string)
    ensures var p := FirstIndex(seen, id);
      forall i :: 0 <= i < (if p.Some? then p.value else |seen|) ==> seen[i].id != id
  {
    if seen != [] {
      FirstIndexIsFirst(seen[..|seen| - 1], id);
    }
  }

  function Backhaul(n: Node): string {
    n.backhaul
  }

  function MeshMode(n: Node): string {
    n.meshMode
  }

  // The first non-empty value any occurrence of a vertex reports.
  function FirstSaid(seen: seq<Node>, id: string, what: Node -> string): string {
    if seen == [] then ""
    else
      var s := FirstSaid(seen[..|seen| - 1], id, what);
      if s == "" && seen[|seen| - 1].id == id then what(seen[|seen| - 1]) else s
  }

  lemma {:induction false} FirstSaidIsFirst(seen: seq<Node>, id: string, what: Node -> string)
    ensures var s := FirstSaid(seen, id, what);
      if s == "" then forall i :: 0 <= i < |seen| && seen[i].id == id ==> what(seen[i]) == ""
      else exists i :: 0 <= i < |seen| && seen[i].id == id && what(seen[i]) == s
                    && forall j :: 0 <= j < i && seen[j].id == id ==> what(seen[j]) == ""
  {
    if seen != [] {
      var init := seen[..|seen| - 1];
      FirstSaidIsFirst(init, id, what);
      assert forall i :: 0 <= i < |init| ==> init[i] == seen[i];
    }
  }

  ghost predicate IsVertex(v: Node, seen: seq<Node>) {
    var p := FirstIndex(seen, v.id);
    p.Some? && v == seen[p.value].(backhaul := FirstSaid(seen, v.id, Backhaul),
                                   meshMode := FirstSaid(seen, v.id, MeshMode))
  }

  function Rank(seen: seq<Node>, id: string): nat {
    var p := FirstIndex(seen, id);
    if p.Some? then p.value else |seen|
  }

  ghost predicate InFirstOrder(nodes: seq<Node>, seen: seq<Node>) {
    forall i, j :: 0 <= i < j < |nodes| ==> Rank(seen, nodes[i].id) < Rank(seen, nodes[j].id)
  }

  lemma {:induction false} NothingSaid(seen: seq<Node>, id: string, what: Node -> string)
    requires forall m :: m in seen ==> m.id != id
    ensures FirstIndex(seen, id) == None && FirstSaid(seen, id, what) == ""
  {
    if seen != [] {
      var init, last := seen[..|seen| - 1], seen[|seen| - 1];
      assert seen == init + [last];
      NothingSaid(init, id, what);
    }
  }

  lemma SaidNext(seen: seq<Node>, n: Node, id: string, what: Node -> string)
    ensures FirstSaid(seen + [n], id, what)
         == if FirstSaid(seen, id, what) == "" && n.id == id then what(n) else FirstSaid(seen, id, what)
    ensures FirstIndex(seen + [n], id)
         == if FirstIndex(seen, id).Some? then FirstIndex(seen, id) else if n.id == id then Some(|seen|) else None
  {
    assert (seen + [n])[..|seen|] == seen && (seen + [n])[|seen|] == n;
  }

  // An occurrence later in the list only fills in what nobody has said yet.
  lemma VertexSnoc(seen: seq<Node>, v: Node, n: Node)
    requires IsVertex(v, seen)
    ensures IsVertex(if v.id == n.id then Enriched(v, n) else v, seen + [n])
    ensures FirstIndex(seen + [n], v.id) == FirstIndex(seen, v.id)
  {
    SaidNext(seen, n, v.id, Backhaul);
    SaidNext(seen, n, v.id, MeshMode);
    var p := FirstIndex(seen, v.id).value;
    assert (seen + [n])[p] == seen[p];
  }

  lemma VertexNew(seen: seq<Node>, n: Node)
    requires forall m :: m in seen ==> m.id != n.id
    ensures IsVertex(n, seen + [n]) && FirstIndex(seen + [n], n.id) == Some(|seen|)
  {
    NothingSaid(seen, n.id, Backhaul);
    NothingSaid(seen, n.id, MeshMode);
    SaidNext(seen, n, n.id, Backhaul);
    SaidNext(seen, n, n.id, MeshMode);
    assert (seen + [n])[|seen|] == n;
  }

  ghost predicate AreVertices(nodes: seq<Node>, seen: seq<Node>) {
    forall i :: 0 <= i < |nodes| ==> IsVertex(nodes[i], seen)
  }

  lemma KnownVertex(nodes: seq<Node>, seen: seq<Node>, n: Node, i: nat)
    requires AreVertices(nodes, seen) && InFirstOrder(nodes, seen) && Position(nodes, n.id).Some? && i < |nodes|
    ensures |AddNode(nodes, n)| == |nodes| && AddNode(nodes, n)[i].id == nodes[i].id
    ensures IsVertex(AddNode(nodes, n)[i], seen + [n])
    ensures Rank(seen + [n], nodes[i].id) == Rank(seen, nodes[i].id)
  {
    var p := Position(nodes, n.id).value;
    VertexSnoc(seen, nodes[i], n);
    assert nodes[i].id == nodes[p].id ==> Rank(seen, nodes[i].id) == Rank(seen, nodes[p].id);
    assert nodes[i].id == n.id ==> i == p;
  }

  lemma KnownVertices(nodes: seq<Node>, seen: seq<Node>, n: Node)
    requires AreVertices(nodes, seen) && InFirstOrder(nodes, seen) && Position(nodes, n.id).Some?
    ensures AreVertices(AddNode(nodes, n), seen + [n]) && InFirstOrder(AddNode(nodes, n), seen + [n])
    ensures Ids(AddNode(nodes, n)) == Ids(nodes) && n.id in Ids(nodes)
  {
    forall i | 0 <= i < |nodes|
      ensures |AddNode(nodes, n)| == |nodes| && AddNode(nodes, n)[i].id == nodes[i].id
           && IsVertex(AddNode(nodes, n)[i], seen + [n])
           && Rank(seen + [n], nodes[i].id) == Rank(seen, nodes[i].id)
    {
      KnownVertex(nodes, seen, n, i);
    }
    SameIds(nodes, AddNode(nodes, n));
    assert nodes[Position(nodes, n.id).value] in nodes;
  }

  lemma NewVertexAt(nodes: seq<Node>, seen: seq<Node>, n: Node, i: nat)
    requires AreVertices(nodes, seen) && i < |nodes|
    ensures IsVertex(if nodes[i].id == n.id then Enriched(nodes[i], n) else nodes[i], seen + [n])
    ensures Rank(seen + [n], nodes[i].id) == Rank(seen, nodes[i].id) < |seen|
  {
    VertexSnoc(seen, nodes[i], n);
  }

  lemma NewVertex(nodes: seq<Node>, seen: seq<Node>, n: Node)
    requires AreVertices(nodes, seen) && InFirstOrder(nodes, seen) && Position(nodes, n.id).None?
    requires Ids(nodes) == Ids(seen)
    ensures AreVertices(AddNode(nodes, n), seen + [n]) && InFirstOrder(AddNode(nodes, n), seen + [n])
    ensures Ids(AddNode(nodes, n)) == Ids(nodes) + {n.id}
  {
    IdsSnoc(nodes, n);
    forall m | m in seen ensures m.id != n.id {
      assert m.id in Ids(seen);
      var v :| v in nodes && v.id == m.id;
    }
    VertexNew(seen, n);
    forall i | 0 <= i < |nodes|
      ensures IsVertex(nodes[i], seen + [n]) && Rank(seen + [n], nodes[i].id) == Rank(seen, nodes[i].id) < |seen|
    {
      NewVertexAt(nodes, seen, n, i);
    }
    NewVertexLast(nodes, seen, n);
  }

  lemma NewVertexLast(nodes: seq<Node>, seen: seq<Node>, n: Node)
    requires AreVertices(nodes, seen + [n]) && IsVertex(n, seen + [n]) && InFirstOrder(nodes, seen)
    requires forall i :: 0 <= i < |nodes| ==> Rank(seen + [n], nodes[i].id) == Rank(seen, nodes[i].id) < |seen|
    requires Rank(seen + [n], n.id) == |seen|
    ensures AreVertices(nodes + [n], seen + [n]) && InFirstOrder(nodes + [n], seen + [n])
  {
  }

  lemma FirstOrderDistinct(nodes: seq<Node>, seen: seq<Node>)
    requires InFirstOrder(nodes, seen)
    ensures DistinctIds(nodes)
  {
    forall i, j | 0 <= i < j < |nodes| ensures nodes[i].id != nodes[j].id {
      assert Rank(seen, nodes[i].id) < Rank(seen, nodes[j].id);
    }
  }

  // The merged vertices: one an id, in the order ids first occur, each its first
  // occurrence with the first backhaul and mesh mode anyone reports for it.
  lemma {:induction false} VerticesMeaning(seen: seq<Node>)
    ensures AreVertices(AddNodes(seen), seen)
    ensures Ids(AddNodes(seen)) == Ids(seen)
    ensures InFirstOrder(AddNodes(seen), seen) && DistinctIds(AddNodes(seen))
  {
    VerticesCore(seen);
    FirstOrderDistinct(AddNodes(seen), seen);
  }

  lemma {:induction false} VerticesCore(seen: seq<Node>)
    ensures AreVertices(AddNodes(seen), seen) && Ids(AddNodes(seen)) == Ids(seen) && InFirstOrder(AddNodes(seen), seen)
  {
    if seen == [] {
      assert AddNodes(seen) == [];
    } else {
      var init, last := seen[..|seen| - 1], seen[|seen| - 1];
      assert seen == init + [last];
      VerticesCore(init);
      VerticesSnoc(init, last);
    }
  }

  lemma VerticesSnoc(seen: seq<Node>, n: Node)
    requires AreVertices(AddNodes(seen), seen) && Ids(AddNodes(seen)) == Ids(seen) && InFirstOrder(AddNodes(seen), seen)
    ensures AreVertices(AddNodes(seen + [n]), seen + [n]) && Ids(AddNodes(seen + [n])) == Ids(seen + [n])
    ensures InFirstOrder(AddNodes(seen + [n]), seen + [n])
  {
    AddNodesSnoc(seen, n);
    IdsSnoc(seen, n);
    if Position(AddNodes(seen), n.id).Some? {
      KnownVertices(AddNodes(seen), seen, n);
    } else {
      NewVertex(AddNodes(seen), seen, n);
    }
  }

  lemma SameIds(a: seq<Node>, b: seq<Node>)
    requires |a| == |b| && forall i :: 0 <= i < |a| ==> a[i].id == b[i].id
    ensures Ids(a) == Ids(b)
  {
    forall id | id in Ids(a) ensures id in Ids(b) {
      var i :| 0 <= i < |a| && a[i].id == id;
      assert b[i] in b;
    }
    forall id | id in Ids(b) ensures id in Ids(a) {
      var i :| 0 <= i < |b| && b[i].id == id;
      assert a[i] in a;
    }
  }

  // Only the local graph's vertices can be "self" in the merged graph.
  lemma {:induction false} SelfIsLocal(graphs: seq<Graph>, n: Node)
    requires n in AllNodes(graphs) && n.role == SELF
    ensures graphs != [] && n in graphs[0].nodes
  {
    var init, g := graphs[..|graphs| - 1], graphs[|graphs| - 1];
    if n in AllNodes(init) {
      SelfIsLocal(init, n);
    } else {
      var i :| 0 <= i < |g.nodes| && DemotedAll(g.nodes, |graphs| == 1)[i] == n;
      assert g.nodes[i] in g.nodes;
    }
  }

  // ----- links -----

  // In strictly ascending key order, so one link a key.
  ghost predicate Ordered(r: seq<Link>) {
    forall i, j :: 0 <= i < j < |r| ==> LexLess(Key(r[i]), Key(r[j]))
  }

  lemma ByKeyOrdered(links: seq<Link>)
    ensures Ordered(ByKey(Strongest(links)))
  {
    StrongestMeaning(links);
  }

  lemma ByKeyFrom(links: seq<Link>)
    ensures forall l :: l in ByKey(Strongest(links)) ==> l in links
  {
    StrongestMeaning(links);
  }

  // Every link has one of its key and at least its quality among the selected.
  lemma ByKeyBest(links: seq<Link>, l: Link) returns (k: Link)
    requires l in links
    ensures k in ByKey(Strongest(links)) && Key(k) == Key(l) && l.tq <= k.tq
  {
    var m := Strongest(links);
    StrongestMeaning(links);
    var keys := SortedKeys(m.Keys);
    assert Key(l) in Elements(keys);
    var i :| 0 <= i < |keys| && keys[i] == Key(l);
    k := ByKey(m)[i];
  }

  lemma OrderedUnique(r: seq<Link>, i: nat, j: nat)
    requires Ordered(r) && i < |r| && j < |r| && Key(r[i]) == Key(r[j])
    ensures i == j
  {
    LexIrreflexive(Key(r[i]));
  }

  predicate NulFree(s: string) {
    '\0' !in s
  }

  // A key names its pair as long as sources hold no NUL.
  lemma PairKeyInjective(s1: string, t1: string, s2: string, t2: string)
    requires NulFree(s1) && NulFree(s2) && PairKey(s1, t1) == PairKey(s2, t2)
    ensures s1 == s2 && t1 == t2
  {
    KeysCollideIff(s1, t1, s2, t2);
    if Resplits(s1, t1, s2, t2) {
      ResplitHasNul(s1, t1, s2, t2);
    } else if Resplits(s2, t2, s1, t1) {
      ResplitHasNul(s2, t2, s1, t1);
    }
  }

  lemma ResplitHasNul(s1: string, t1: string, s2: string, t2: string)
    requires Resplits(s1, t1, s2, t2)
    ensures !NulFree(s1)
  {
    assert s1[|s2|] == '\0';
  }

  // The key of one pair splits again inside the source of the other.
  ghost predicate Resplits(s1: string, t1: string, s2: string, t2: string) {
    exists u :: s1 == s2 + ['\0'] + u && t2 == u + ['\0'] + t1
  }

  // Exactly when two keys are the same: the pairs are, or a NUL in the longer
  // source is taken for the separator.
  lemma KeysCollideIff(s1: string, t1: string, s2: string, t2: string)
    ensures PairKey(s1, t1) == PairKey(s2, t2)
       <==> (s1 == s2 && t1 == t2) || Resplits(s1, t1, s2, t2) || Resplits(s2, t2, s1, t1)
  {
    if PairKey(s1, t1) == PairKey(s2, t2) {
      if |s1| == |s2| {
        KeySplit(s1, t1, s2, t2);
      } else if |s1| > |s2| {
        KeyResplits(s1, t1, s2, t2);
      } else {
        KeyResplits(s2, t2, s1, t1);
      }
    }
    if Resplits(s1, t1, s2, t2) {
      ResplitCollides(s1, t1, s2, t2);
    }
    if Resplits(s2, t2, s1, t1) {
      ResplitCollides(s2, t2, s1, t1);
    }
  }

  lemma KeySplit(s1: string, t1: string, s2: string, t2: string)
    requires PairKey(s1, t1) == PairKey(s2, t2) && |s1| == |s2|
    ensures s1 == s2 && t1 == t2
  {
    var k := PairKey(s1, t1);
    assert s1 == k[..|s1|] && s2 == k[..|s1|];
    assert t1 == k[|s1| + 1..] && t2 == k[|s1| + 1..];
  }

  lemma KeyResplits(s1: string, t1: string, s2: string, t2: string)
    requires PairKey(s1, t1) == PairKey(s2, t2) && |s1| > |s2|
    ensures Resplits(s1, t1, s2, t2)
  {
    var k, u := PairKey(s1, t1), s1[|s2| + 1..];
    assert k[..|s1|] == s1 && k[..|s2|] == s2 && k[|s2|] == '\0';
    assert s1[..|s2|] == s2 && s1[|s2|] == '\0';
    assert s1 == s2 + ['\0'] + u;
    assert t2 == k[|s2| + 1..] == u + ['\0'] + t1;
  }

  lemma ResplitCollides(s1: string, t1: string, s2: string, t2: string)
    requires Resplits(s1, t1, s2, t2)
    ensures PairKey(s1, t1) == PairKey(s2, t2) && s1 != s2
  {
    var u :| s1 == s2 + ['\0'] + u && t2 == u + ['\0'] + t1;
    assert s2 + ['\0'] + u + ['\0'] + t1 == s2 + ['\0'] + (u + ['\0'] + t1);
  }

  // Two different pairs that share a key, so that one link is lost.
  lemma NulKeysCollide()
    ensures exists s1, t1, s2, t2 :: PairKey(s1, t1) == PairKey(s2, t2) && s1 != s2
  {
    assert "\0b" == "" + ['\0'] + "b" && "b\0" == "b" + ['\0'] + "";
    ResplitCollides("\0b", "", "", "b\0");
  }

  ghost predicate SourcesNulFree(links: seq<Link>, owners: map<string, string>) {
    forall l :: l in links ==> NulFree(l.source) && NulFree(Canon(owners, l.source))
  }

  predicate Joins(l: Link, s: string, t: string) {
    l.source == s && l.target == t
  }

  // A link of some graph has a canonical counterpart in the output, at least as
  // good.
  lemma FusionComplete(graphs: seq<Graph>, l: Link) returns (d: Link)
    requires var owners := Owners(Union(graphs).nodes);
      && owners != map[] && SourcesNulFree(AllLinks(graphs), owners)
      && l in AllLinks(graphs) && CanonLink(l, owners).source != CanonLink(l, owners).target
    ensures var c := CanonLink(l, Owners(Union(graphs).nodes));
      d in Merged(graphs).links && Joins(d, c.source, c.target) && l.tq <= d.tq
  {
    var u := Union(graphs);
    var owners := Owners(u.nodes);
    var k := ByKeyBest(AllLinks(graphs), l);
    ByKeyFrom(AllLinks(graphs));
    PairKeyInjective(k.source, k.target, l.source, l.target);
    var c := CanonLink(k, owners);
    CanonLinksHas(u.links, owners, k);
    d := ByKeyBest(CanonLinks(u.links, owners), c);
    var from := FusionSound(graphs, d);
    PairKeyInjective(d.source, d.target, c.source, c.target);
  }

  // A link of the output is a link of some graph, rewritten.
  lemma FusionSound(graphs: seq<Graph>, c: Link) returns (l: Link)
    requires Owners(Union(graphs).nodes) != map[] && c in Merged(graphs).links
    ensures c.source != c.target
    ensures l in AllLinks(graphs) && CanonLink(l, Owners(Union(graphs).nodes)) == c
  {
    var u := Union(graphs);
    var owners := Owners(u.nodes);
    ByKeyFrom(CanonLinks(u.links, owners));
    l := CanonLinksFrom(u.links, owners, c);
    ByKeyFrom(AllLinks(graphs));
  }

  ghost predicate Linked(links: seq<Link>, s: string, t: string) {
    exists c :: c in links && Joins(c, s, t)
  }

  // Main result, in three parts. Two rounds of keeping the strongest link, one
  // before and one after rewriting addresses to node ids, come to one. First, the
  // merged graph links s to t exactly when some link of some graph canonicalises
  // to (s, t) and s is not t.
  lemma FusionIff(graphs: seq<Graph>, s: string, t: string)
    requires var owners := Owners(Union(graphs).nodes);
      owners != map[] && SourcesNulFree(AllLinks(graphs), owners)
    ensures Linked(Merged(graphs).links, s, t)
       <==> s != t && exists l :: l in AllLinks(graphs) && Joins(CanonLink(l, Owners(Union(graphs).nodes)), s, t)
  {
    var owners, out := Owners(Union(graphs).nodes), Merged(graphs).links;
    if Linked(out, s, t) {
      var c :| c in out && Joins(c, s, t);
      var l := FusionSound(graphs, c);
    }
    if s != t && exists l :: l in AllLinks(graphs) && Joins(CanonLink(l, owners), s, t) {
      var l :| l in AllLinks(graphs) && Joins(CanonLink(l, owners), s, t);
      var c := FusionComplete(graphs, l);
    }
  }

  // Second, it has one such link at most.
  lemma FusionUnique(graphs: seq<Graph>, i: nat, j: nat)
    requires i < |Merged(graphs).links| && j < |Merged(graphs).links|
    requires Joins(Merged(graphs).links[i], Merged(graphs).links[j].source, Merged(graphs).links[j].target)
    ensures i == j
  {
    LinksAscend(graphs);
    OrderedUnique(Merged(graphs).links, i, j);
  }

  // Third, that link is one of those links, rewritten, and none of them is better.
  lemma FusionBest(graphs: seq<Graph>, c: Link)
    requires var owners := Owners(Union(graphs).nodes);
      owners != map[] && SourcesNulFree(AllLinks(graphs), owners)
    requires c in Merged(graphs).links
    ensures var owners := Owners(Union(graphs).nodes);
      && (exists l :: l in AllLinks(graphs) && CanonLink(l, owners) == c)
      && (forall l :: l in AllLinks(graphs) && Joins(CanonLink(l, owners), c.source, c.target) ==> l.tq <= c.tq)
  {
    var owners, out := Owners(Union(graphs).nodes), Merged(graphs).links;
    var from := FusionSound(graphs, c);
    var j :| 0 <= j < |out| && out[j] == c;
    forall l | l in AllLinks(graphs) && Joins(CanonLink(l, owners), c.source, c.target) ensures l.tq <= c.tq {
      var d := FusionComplete(graphs, l);
      var i :| 0 <= i < |out| && out[i] == d;
      FusionUnique(graphs, i, j);
    }
  }

  // Without a declared address there is no second round, and a link from a
  // vertex to itself stays.
  lemma FusionWithoutAddressesIff(graphs: seq<Graph>, s: string, t: string)
    requires Owners(Union(graphs).nodes) == map[] && SourcesNulFree(AllLinks(graphs), map[])
    ensures Linked(Merged(graphs).links, s, t) <==> Linked(AllLinks(graphs), s, t)
  {
    var all, out := AllLinks(graphs), Merged(graphs).links;
    ByKeyFrom(all);
    if Linked(all, s, t) {
      var l :| l in all && Joins(l, s, t);
      var c := ByKeyBest(all, l);
      PairKeyInjective(c.source, c.target, l.source, l.target);
    }
  }

  lemma FusionWithoutAddressesBest(graphs: seq<Graph>, c: Link, l: Link)
    requires Owners(Union(graphs).nodes) == map[] && SourcesNulFree(AllLinks(graphs), map[])
    requires c in Merged(graphs).links && l in AllLinks(graphs) && Joins(l, c.source, c.target)
    ensures c in AllLinks(graphs) && l.tq <= c.tq
  {
    var out := Merged(graphs).links;
    ByKeyFrom(AllLinks(graphs));
    var d := ByKeyBest(AllLinks(graphs), l);
    PairKeyInjective(d.source, d.target, l.source, l.target);
    var i :| 0 <= i < |out| && out[i] == d;
    var j :| 0 <= j < |out| && out[j] == c;
    FusionUnique(graphs, i, j);
  }

  // Whatever the ids, the output links are in strictly ascending key order.
  lemma LinksAscend(graphs: seq<Graph>)
    ensures Ordered(Merged(graphs).links)
  {
    ByKeyOrdered(AllLinks(graphs));
    ByKeyOrdered(CanonLinks(Union(graphs).links, Owners(Union(graphs).nodes)));
  }

  // ----- who owns an address -----

  function LastDeclarer(nodes: seq<Node>, a: string): Option<string> {
    if nodes == [] then None
    else if a in nodes[|nodes| - 1].addrs then Some(nodes[|nodes| - 1].id)
    else LastDeclarer(nodes[..|nodes| - 1], a)
  }

  lemma {:induction false} DeclareMeaning(m: map<string, string>, addrs: seq<string>, id: string)
    ensures forall a :: a in Declare(m, addrs, id) <==> a in m || a in addrs
    ensures forall a :: a in Declare(m, addrs, id) ==> Declare(m, addrs, id)[a] == if a in addrs then id else m[a]
  {
    if addrs != [] {
      DeclareMeaning(m, addrs[..|addrs| - 1], id);
      assert addrs == addrs[..|addrs| - 1] + [addrs[|addrs| - 1]];
    }
  }

  lemma {:induction false} OwnersMeaning(nodes: seq<Node>)
    ensures forall a :: a in Owners(nodes) <==> LastDeclarer(nodes, a).Some?
    ensures forall a :: a in Owners(nodes) ==> LastDeclarer(nodes, a) == Some(Owners(nodes)[a])
    ensures forall a :: a in Owners(nodes) ==> Owners(nodes)[a] in Ids(nodes)
    ensures forall n, a :: n in nodes && a in n.addrs ==> a in Owners(nodes)
    ensures forall a :: a in Owners(nodes) ==> exists n :: n in nodes && a in n.addrs
  {
    if nodes != [] {
      var init, n := nodes[..|nodes| - 1], nodes[|nodes| - 1];
      OwnersMeaning(init);
      DeclareMeaning(Owners(init), n.addrs, n.id);
      assert nodes == init + [n];
      IdsSnoc(init, n);
    }
  }

  lemma {:induction false} RealMeaning(nodes: seq<Node>, owners: map<string, string>)
    ensures forall n :: n in Real(nodes, owners) <==> n in nodes && Canon(owners, n.id) == n.id
  {
    if nodes != [] {
      var init, n := nodes[..|nodes| - 1], nodes[|nodes| - 1];
      RealMeaning(init, owners);
      assert nodes == init + [n];
    }
  }

  lemma {:induction false} RealDistinct(nodes: seq<Node>, owners: map<string, string>)
    requires DistinctIds(nodes)
    ensures DistinctIds(Real(nodes, owners))
  {
    if nodes != [] {
      var init, n := nodes[..|nodes| - 1], nodes[|nodes| - 1];
      RealDistinct(init, owners);
      RealMeaning(init, owners);
      forall i | 0 <= i < |Real(init, owners)| ensures Real(init, owners)[i].id != n.id {
        assert Real(init, owners)[i] in init;
      }
    }
  }

  // ----- closure -----

  // Canonicalising a vertex twice is canonicalising it once.
  ghost predicate Settled(nodes: seq<Node>) {
    var owners := Owners(nodes);
    forall n :: n in nodes ==> Canon(owners, Canon(owners, n.id)) == Canon(owners, n.id)
  }

  lemma SettledWhenOwnersAreNotAddresses(nodes: seq<Node>)
    requires forall n :: n in nodes && n.addrs != [] ==> n.id !in Owners(nodes)
    ensures Settled(nodes) && OwnersSettled(nodes)
  {
    OwnersMeaning(nodes);
    forall a | a in Owners(nodes) ensures Owners(nodes)[a] !in Owners(nodes) {
      DeclarerDeclares(nodes, a);
    }
  }

  lemma {:induction false} DeclarerDeclares(nodes: seq<Node>, a: string)
    requires LastDeclarer(nodes, a).Some?
    ensures exists n :: n in nodes && n.id == LastDeclarer(nodes, a).value && a in n.addrs
  {
    var n := nodes[|nodes| - 1];
    if a in n.addrs {
      assert n in nodes;
    } else {
      DeclarerDeclares(nodes[..|nodes| - 1], a);
    }
  }

  lemma CanonStaysInside(nodes: seq<Node>, id: string)
    requires id in Ids(nodes)
    ensures Canon(Owners(nodes), id) in Ids(nodes)
  {
    OwnersMeaning(nodes);
  }

  lemma SettledKeepsClosed(g: Graph)
    requires Closed(g) && Settled(g.nodes)
    ensures Closed(Reconciled(g))
  {
    var owners := Owners(g.nodes);
    if owners != map[] {
      var canon, out := CanonLinks(g.links, owners), Reconciled(g);
      ByKeyFrom(canon);
      RealMeaning(g.nodes, owners);
      forall id | id in Ids(g.nodes) ensures Canon(owners, id) in Ids(out.nodes) {
        CanonStaysInside(g.nodes, id);
        var n :| n in g.nodes && n.id == Canon(owners, id);
        var o :| o in g.nodes && o.id == id;
        assert n in out.nodes;
      }
      forall c | c in out.links ensures c.source in Ids(out.nodes) && c.target in Ids(out.nodes) {
        var l := CanonLinksFrom(g.links, owners, c);
      }
    }
  }

  // Reconciling keeps every closed graph over these vertices closed exactly when
  // no vertex canonicalises to an alias.
  lemma ReconcileKeepsClosedIff(nodes: seq<Node>)
    ensures (forall links, clients :: Closed(Graph(nodes, links, clients)) ==> Closed(Reconciled(Graph(nodes, links, clients))))
       <==> Settled(nodes)
  {
    if Settled(nodes) {
      forall links, clients | Closed(Graph(nodes, links, clients))
        ensures Closed(Reconciled(Graph(nodes, links, clients)))
      {
        SettledKeepsClosed(Graph(nodes, links, clients));
      }
    } else {
      var owners := Owners(nodes);
      var n :| n in nodes && Canon(owners, Canon(owners, n.id)) != Canon(owners, n.id);
      AliasBreaksClosed(nodes, n);
    }
  }

  // A link from a vertex to the alias it canonicalises to ends at a vertex that
  // is dropped.
  lemma AliasBreaksClosed(nodes: seq<Node>, n: Node)
    requires n in nodes
    requires var owners := Owners(nodes); Canon(owners, Canon(owners, n.id)) != Canon(owners, n.id)
    ensures var g := Graph(nodes, [Link(n.id, Canon(Owners(nodes), n.id), 0, "", 0, 0)], []);
            Closed(g) && !Closed(Reconciled(g))
  {
    var owners := Owners(nodes);
    var l := Link(n.id, Canon(owners, n.id), 0, "", 0, 0);
    CanonStaysInside(nodes, n.id);
    var canon, c := CanonLinks([l], owners), CanonLink(l, owners);
    CanonLinksHas([l], owners, l);
    var k := ByKeyBest(canon, c);
    ByKeyFrom(canon);
    var from := CanonLinksFrom([l], owners, k);
    assert k == c;
    RealMeaning(nodes, owners);
    assert c.source !in Ids(Real(nodes, owners));
  }

  lemma {:induction false} AllMentioned(graphs: seq<Graph>)
    ensures forall l :: l in AllLinks(graphs) ==> exists g :: g in graphs && l in g.links
    ensures forall g :: g in graphs ==> Ids(g.nodes) <= Ids(AllNodes(graphs))
    ensures forall id :: id in Ids(AllNodes(graphs)) ==> exists g :: g in graphs && id in Ids(g.nodes)
  {
    if graphs != [] {
      var init, last := graphs[..|graphs| - 1], graphs[|graphs| - 1];
      AllMentioned(init);
      assert graphs == init + [last];
      var demoted := DemotedAll(last.nodes, |graphs| == 1);
      SameIds(demoted, last.nodes);
      assert Ids(AllNodes(graphs)) == Ids(AllNodes(init)) + Ids(demoted) by {
        assert forall n :: n in AllNodes(graphs) <==> n in AllNodes(init) || n in demoted;
      }
    }
  }

  // Merging closed graphs, as Collect makes them, yields a closed graph when the
  // merged vertices are settled.
  lemma MergedIsClosed(graphs: seq<Graph>)
    requires forall g :: g in graphs ==> Closed(g)
    requires Settled(Union(graphs).nodes)
    ensures Closed(Merged(graphs))
  {
    var u := Union(graphs);
    AllMentioned(graphs);
    VerticesMeaning(AllNodes(graphs));
    ByKeyFrom(AllLinks(graphs));
    assert Closed(u);
    SettledKeepsClosed(u);
  }

  lemma MergedFromUnion(graphs: seq<Graph>)
    ensures forall v :: v in Merged(graphs).nodes <==>
              v in Union(graphs).nodes && Canon(Owners(Union(graphs).nodes), v.id) == v.id
    ensures DistinctIds(Union(graphs).nodes) ==> DistinctIds(Merged(graphs).nodes)
  {
    var u := Union(graphs).nodes;
    RealMeaning(u, Owners(u));
    if DistinctIds(u) {
      RealDistinct(u, Owners(u));
    }
  }

  // One vertex an id; the ids are those mentioned that are no alias.
  lemma MergedIds(graphs: seq<Graph>)
    ensures DistinctIds(Merged(graphs).nodes)
    ensures forall id :: id in Ids(Merged(graphs).nodes) <==>
              id in Ids(AllNodes(graphs)) && Canon(Owners(Union(graphs).nodes), id) == id
  {
    VerticesMeaning(AllNodes(graphs));
    MergedFromUnion(graphs);
    forall id | id in Ids(AllNodes(graphs)) && Canon(Owners(Union(graphs).nodes), id) == id
      ensures id in Ids(Merged(graphs).nodes)
    {
      assert id in Ids(Union(graphs).nodes);
      var v :| v in Union(graphs).nodes && v.id == id;
      assert v in Merged(graphs).nodes;
    }
    forall id | id in Ids(Merged(graphs).nodes)
      ensures id in Ids(AllNodes(graphs)) && Canon(Owners(Union(graphs).nodes), id) == id
    {
      var v :| v in Merged(graphs).nodes && v.id == id;
      assert v.id in Ids(Union(graphs).nodes);
    }
  }

  // A merged vertex is what its occurrences say, and "self" only if it is the
  // local graph's.
  lemma MergedVertex(graphs: seq<Graph>, v: Node)
    requires v in Merged(graphs).nodes
    ensures IsVertex(v, AllNodes(graphs))
    ensures v.role == SELF ==> graphs != [] && exists n :: n in graphs[0].nodes && n.id == v.id && n.role == SELF
  {
    MergedFromUnion(graphs);
    UnionVertex(graphs, v);
    if v.role == SELF {
      SelfIsLocal(graphs, AllNodes(graphs)[FirstIndex(AllNodes(graphs), v.id).value]);
    }
  }

  lemma UnionVertex(graphs: seq<Graph>, v: Node)
    requires v in Union(graphs).nodes
    ensures IsVertex(v, AllNodes(graphs))
  {
    VerticesMeaning(AllNodes(graphs));
    var i :| 0 <= i < |Union(graphs).nodes| && Union(graphs).nodes[i] == v;
  }

  // ----- idempotence -----

  ghost predicate OwnersSettled(nodes: seq<Node>) {
    var owners := Owners(nodes);
    forall a :: a in owners ==> Canon(owners, owners[a]) == owners[a]
  }

  lemma {:induction false} DeclarerSurvives(nodes: seq<Node>, owners: map<string, string>, a: string)
    requires LastDeclarer(nodes, a).Some? ==> Canon(owners, LastDeclarer(nodes, a).value) == LastDeclarer(nodes, a).value
    ensures LastDeclarer(Real(nodes, owners), a) == LastDeclarer(nodes, a)
  {
    if nodes != [] {
      var init, n := nodes[..|nodes| - 1], nodes[|nodes| - 1];
      if a !in n.addrs {
        DeclarerSurvives(init, owners, a);
      }
      if Canon(owners, n.id) == n.id {
        assert Real(nodes, owners)[..|Real(init, owners)|] == Real(init, owners);
      } else {
        assert Real(nodes, owners) == Real(init, owners);
      }
    }
  }

  lemma OwnersSurvive(nodes: seq<Node>)
    requires OwnersSettled(nodes)
    ensures Owners(Real(nodes, Owners(nodes))) == Owners(nodes)
  {
    var owners := Owners(nodes);
    var kept := Real(nodes, owners);
    OwnersMeaning(nodes);
    OwnersMeaning(kept);
    forall a ensures LastDeclarer(kept, a) == LastDeclarer(nodes, a) {
      DeclarerSurvives(nodes, owners, a);
    }
  }

  lemma {:induction false} RealTwice(nodes: seq<Node>, owners: map<string, string>)
    requires forall n :: n in nodes ==> Canon(owners, n.id) == n.id
    ensures Real(nodes, owners) == nodes
  {
    if nodes != [] {
      var init, n := nodes[..|nodes| - 1], nodes[|nodes| - 1];
      assert nodes == init + [n];
      RealTwice(init, owners);
    }
  }

  lemma {:induction false} CanonLinksTwice(links: seq<Link>, owners: map<string, string>)
    requires forall l :: l in links ==> CanonLink(l, owners) == l && l.source != l.target
    ensures CanonLinks(links, owners) == links
  {
    if links != [] {
      var init, l := links[..|links| - 1], links[|links| - 1];
      assert links == init + [l];
      CanonLinksTwice(init, owners);
    }
  }

  // Links already in key order, one a key, are what sorting them by key gives.
  lemma ByKeyTwice(links: seq<Link>)
    requires Ordered(links)
    ensures ByKey(Strongest(links)) == links
  {
    StrongestOfOrdered(links);
    var keys := OrderedKeys(links);
  }

  lemma OrderedKeys(links: seq<Link>) returns (keys: seq<string>)
    requires Ordered(links)
    ensures keys == SortedKeys(Strongest(links).Keys)
    ensures |keys| == |links| && forall i :: 0 <= i < |keys| ==> keys[i] == Key(links[i])
  {
    keys := seq(|links|, i requires 0 <= i < |links| => Key(links[i]));
    KeysOfOrdered(links, keys);
    var m := Strongest(links).Keys;
    LexIsStrictOrder(m);
    AscendingUnique(LexLess, keys, SortedKeys(m));
  }

  lemma KeysOfOrdered(links: seq<Link>, keys: seq<string>)
    requires Ordered(links) && |keys| == |links| && forall i :: 0 <= i < |keys| ==> keys[i] == Key(links[i])
    ensures Elements(keys) == Strongest(links).Keys && Ascending(LexLess, keys)
  {
    StrongestOfOrdered(links);
    forall k | k in Strongest(links).Keys ensures k in keys {
      var j :| 0 <= j < |links| && Key(links[j]) == k;
      assert keys[j] == k;
    }
    forall k | k in keys ensures k in Strongest(links).Keys {
      var j :| 0 <= j < |keys| && keys[j] == k;
    }
  }

  lemma StrongestOfOrdered(links: seq<Link>)
    requires Ordered(links)
    ensures forall i :: 0 <= i < |links| ==> Key(links[i]) in Strongest(links) && Strongest(links)[Key(links[i])] == links[i]
    ensures forall k :: k in Strongest(links).Keys ==> exists i :: 0 <= i < |links| && Key(links[i]) == k
  {
    StrongestMeaning(links);
    forall i | 0 <= i < |links| ensures Key(links[i]) in Strongest(links) && Strongest(links)[Key(links[i])] == links[i] {
      assert links[i] in links;
      var j :| 0 <= j < |links| && links[j] == Strongest(links)[Key(links[i])];
      OrderedUnique(links, i, j);
    }
  }

  // The owners stay where they are in the second pass, whose alias map is that
  // of the vertices the first pass kept.
  ghost predicate OwnersStay(nodes: seq<Node>) {
    var owners := Owners(nodes);
    forall a :: a in owners ==> Canon(Owners(Real(nodes, owners)), owners[a]) == owners[a]
  }

  lemma LaterOwnersAreOwners(nodes: seq<Node>)
    ensures forall a :: a in Owners(Real(nodes, Owners(nodes))) ==> a in Owners(nodes)
  {
    var kept := Real(nodes, Owners(nodes));
    OwnersMeaning(nodes);
    OwnersMeaning(kept);
    RealMeaning(nodes, Owners(nodes));
    forall a | a in Owners(kept) ensures a in Owners(nodes) {
      var n :| n in kept && a in n.addrs;
      assert n in nodes;
    }
  }

  lemma CanonStays(nodes: seq<Node>, id: string)
    requires OwnersStay(nodes)
    ensures var owners := Owners(nodes);
      Canon(Owners(Real(nodes, owners)), Canon(owners, id)) == Canon(owners, id)
  {
    LaterOwnersAreOwners(nodes);
  }

  lemma LinksSettle(links: seq<Link>, owners: map<string, string>, later: map<string, string>)
    requires forall id :: Canon(later, Canon(owners, id)) == Canon(owners, id)
    ensures var once := ByKey(Strongest(CanonLinks(links, owners))); CanonLinks(once, later) == once
  {
    var canon := CanonLinks(links, owners);
    ByKeyFrom(canon);
    forall l | l in canon ensures CanonLink(l, later) == l && l.source != l.target {
      var k := CanonLinksFrom(links, owners, l);
    }
    CanonLinksTwice(ByKey(Strongest(canon)), later);
  }

  lemma OwnersStayIdempotent(g: Graph)
    requires OwnersStay(g.nodes)
    ensures Reconciled(Reconciled(g)) == Reconciled(g)
  {
    var owners := Owners(g.nodes);
    var later := Owners(Real(g.nodes, owners));
    if owners != map[] && later != map[] {
      var once := Reconciled(g);
      forall id ensures Canon(later, Canon(owners, id)) == Canon(owners, id) {
        CanonStays(g.nodes, id);
      }
      assert Real(once.nodes, later) == once.nodes by {
        RealMeaning(g.nodes, owners);
        RealTwice(once.nodes, later);
      }
      LinksSettle(g.links, owners, later);
      ByKeyOrdered(CanonLinks(g.links, owners));
      ByKeyTwice(once.links);
      assert CanonClients(once.clients, later) == once.clients;
    }
  }

  // A client seen at an address whose owner moves on moves twice.
  lemma ClientMovesOn(nodes: seq<Node>, a: string)
    requires var owners := Owners(nodes);
      a in owners && Canon(Owners(Real(nodes, owners)), owners[a]) != owners[a]
    ensures var g := Graph(nodes, [], [Client("", a, 0, "", 0, 0, "", "")]);
      Reconciled(Reconciled(g)) != Reconciled(g)
  {
    var owners := Owners(nodes);
    var g := Graph(nodes, [], [Client("", a, 0, "", 0, 0, "", "")]);
    assert Reconciled(g).clients[0].ap == owners[a];
    assert Reconciled(Reconciled(g)).clients[0].ap == Canon(Owners(Real(nodes, owners)), owners[a]);
  }

  // Main result. Over given vertices reconciling is idempotent, whatever the
  // links and clients, exactly when no address's owner is an alias to the second
  // pass.
  lemma ReconcileIdempotentIff(nodes: seq<Node>)
    ensures (forall links, clients ::
               Reconciled(Reconciled(Graph(nodes, links, clients))) == Reconciled(Graph(nodes, links, clients)))
       <==> OwnersStay(nodes)
  {
    var owners := Owners(nodes);
    if OwnersStay(nodes) {
      forall links, clients
        ensures Reconciled(Reconciled(Graph(nodes, links, clients))) == Reconciled(Graph(nodes, links, clients))
      {
        OwnersStayIdempotent(Graph(nodes, links, clients));
      }
    } else {
      var a :| a in owners && Canon(Owners(Real(nodes, owners)), owners[a]) != owners[a];
      ClientMovesOn(nodes, a);
    }
  }

  // In particular when no address belongs to a node that is itself an alias: the
  // second pass then finds the same owners.
  lemma ReconcileIdempotent(g: Graph)
    requires OwnersSettled(g.nodes)
    ensures Reconciled(Reconciled(g)) == Reconciled(g)
  {
    OwnersSurvive(g.nodes);
    OwnersStayIdempotent(g);
  }

  lemma OwnersSnoc(nodes: seq<Node>, n: Node)
    ensures Owners(nodes + [n]) == Declare(Owners(nodes), n.addrs, n.id)
  {
    assert (nodes + [n])[..|nodes|] == nodes;
  }

  lemma DeclareOne(m: map<string, string>, addrs: seq<string>, id: string)
    requires |addrs| == 1
    ensures Declare(m, addrs, id) == m[addrs[0] := id]
  {
    assert addrs[..0] == [];
  }

  // Of two nodes the second has the first's id as its address.
  lemma AliasChain(nodes: seq<Node>)
    requires |nodes| == 2 && |nodes[0].addrs| == 1 && |nodes[1].addrs| == 1
    requires var x, y, z := nodes[0].addrs[0], nodes[0].id, nodes[1].id; x != y && y != z && x != z && nodes[1].addrs[0] == y
    ensures var x, y, z := nodes[0].addrs[0], nodes[0].id, nodes[1].id;
      && Owners(nodes) == map[x := y, y := z]
      && Real(nodes, Owners(nodes)) == nodes[1..]
      && Owners(nodes[1..]) == map[y := z]
  {
    var none, first, last := nodes[..0], nodes[..1], nodes[1..];
    assert none + [nodes[0]] == first && first + [nodes[1]] == nodes && none + [nodes[1]] == last;
    assert Owners(none) == map[];
    OwnersSnoc(none, nodes[0]);
    OwnersSnoc(first, nodes[1]);
    OwnersSnoc(none, nodes[1]);
    DeclareOne(Owners(none), nodes[0].addrs, nodes[0].id);
    DeclareOne(Owners(first), nodes[1].addrs, nodes[1].id);
    DeclareOne(Owners(none), nodes[1].addrs, nodes[1].id);
    var owners := Owners(nodes);
    assert Real(none, owners) == [];
    RealSnoc(none, nodes[0], owners);
    RealSnoc(first, nodes[1], owners);
  }

  // Such nodes fail: a client seen at the address of the first moves there, and,
  // that having been dropped but the second not, on to the second.
  lemma AliasChainMoves(nodes: seq<Node>)
    requires |nodes| == 2 && |nodes[0].addrs| == 1 && |nodes[1].addrs| == 1
    requires var x, y, z := nodes[0].addrs[0], nodes[0].id, nodes[1].id; x != y && y != z && x != z && nodes[1].addrs[0] == y
    ensures var g := Graph(nodes, [], [Client("", nodes[0].addrs[0], 0, "", 0, 0, "", "")]); Reconciled(Reconciled(g)) != Reconciled(g)
  {
    AliasChain(nodes);
    ClientMovesOn(nodes, nodes[0].addrs[0]);
  }

  lemma ReconcileNotIdempotent()
    ensures exists g :: Reconciled(Reconciled(g)) != Reconciled(g)
  {
    var y := Node("y", "", MEMBER, "", "", ["x"], Unset, 0);
    var z := Node("z", "", MEMBER, "", "", ["y"], Unset, 0);
    AliasChainMoves([y, z]);
  }
}
