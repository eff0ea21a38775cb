/**
 The store of internal/storage/store.go: buckets that transactions update in
 place. Each method is one bbolt transaction and is proved to perform the
 transaction of the same name in Database.dfy on the whole state.
 */
module Storage {
  import opened Wrappers
  import opened Lists
  import opened Models
  import D = Database

  class Store {
    var homes: map<string, Home>
    var nodes: map<string, Node>
    var profiles: map<string, Profile>
    var settings: D.Settings
    var enrollments: map<string, Enrollment>
    var byNode: map<string, string>

    ghost function Contents(): D.Db
      reads this
    {
      D.Db(homes, nodes, profiles, settings, enrollments, byNode)
    }

    ghost predicate Valid()
      reads this
    {
      D.Keyed(Contents())
    }

    constructor ()
      ensures Valid() && Contents() == D.EMPTY
    {
      homes, nodes, profiles, settings := map[], map[], map[], D.NO_SETTINGS;
      enrollments, byNode := map[], map[];
    }

    method GetHome(id: string) returns (r: Result<Home, D.StoreError>)
      ensures r == if id in homes then Ok(homes[id]) else Err(D.NotFound)
    {
      r := if id in homes then Ok(homes[id]) else Err(D.NotFound);
    }

    method GetEnrollment(id: string) returns (r: Result<Enrollment, D.StoreError>)
      ensures r == D.GetEnrollment(Contents(), id)
    {
      r := if id in enrollments then Ok(enrollments[id]) else Err(D.NotFound);
    }

    method GetEnrollmentByNodeID(nodeID: string) returns (r: Result<Enrollment, D.StoreError>)
      ensures r == D.GetEnrollmentByNodeID(Contents(), nodeID)
    {
      if nodeID !in byNode {
        return Err(D.NotFound);
      }
      r := GetEnrollment(byNode[nodeID]);
    }

    method CreateEnrollment(e: Enrollment)
      requires Valid()
      modifies this
      ensures Valid() && Contents() == D.CreateEnrollment(old(Contents()), e)
    {
      enrollments := enrollments[e.id := e];
      if e.nodeID != "" {
        byNode := byNode[e.nodeID := e.id];
      }
    }

    method UpdateEnrollment(e: Enrollment) returns (r: Result<(), D.StoreError>)
      requires Valid()
      modifies this
      ensures Valid()
      ensures match D.UpdateEnrollment(old(Contents()), e)
              case Ok(after) => r == Ok(()) && Contents() == after
              case Err(error) => r == Err(error) && Contents() == old(Contents())
    {
      if e.id !in enrollments {
        return Err(D.NotFound);
      }
      var existing := enrollments[e.id];
      enrollments := enrollments[e.id := e];
      if existing.nodeID != "" && existing.nodeID != e.nodeID {
        byNode := byNode - {existing.nodeID};
      }
      if e.nodeID != "" {
        byNode := byNode[e.nodeID := e.id];
      }
      r := Ok(());
    }

    method GetNode(id: string) returns (r: Result<Node, D.StoreError>)
      ensures r == if id in nodes then Ok(nodes[id]) else Err(D.NotFound)
    {
      r := if id in nodes then Ok(nodes[id]) else Err(D.NotFound);
    }

    method CreateNode(node: Node)
      requires Valid()
      modifies this
      ensures Valid() && Contents() == D.CreateNode(old(Contents()), node)
    {
      nodes := nodes[node.id := node];
    }

    method DeleteNode(id: string) returns (r: Result<(), D.StoreError>)
      requires Valid()
      modifies this
      ensures Valid()
      ensures match D.DeleteNode(old(Contents()), id)
              case Ok(after) => r == Ok(()) && Contents() == after
              case Err(error) => r == Err(error) && Contents() == old(Contents())
    {
      if id !in nodes {
        return Err(D.NotFound);
      }
      nodes := nodes - {id};
      if id in byNode {
        enrollments := enrollments - {byNode[id]};
        byNode := byNode - {id};
      }
      r := Ok(());
    }

    // Collect, then write: the records scoped to the Home and the nodes to
    // change are gathered, in whatever order the bucket yields them, before
    // anything is deleted or rewritten.
    method DeleteHome(id: string) returns (r: Result<(), D.StoreError>)
      requires Valid()
      modifies this
      ensures Valid()
      ensures match D.DeleteHome(old(Contents()), id)
              case Ok(after) => r == Ok(()) && Contents() == after
              case Err(error) => r == Err(error) && Contents() == old(Contents())
    {
      if id !in homes {
        return Err(D.NotFound);
      }
      homes := homes - {id};
      profiles := profiles - {id};
      var delEnrollments, delNodeIndex := CollectScoped(id);
      enrollments := enrollments - delEnrollments;
      byNode := byNode - delNodeIndex;
      var updated := CollectStripped(id);
      nodes := Overwritten(nodes, updated, id);
      D.DeleteHomeKeepsKeyed(old(Contents()), id);
      assert Contents() == D.DeleteHome(old(Contents()), id).value;
      r := Ok(());
    }

    // All the rewritten nodes put back.
    static function Overwritten(nodes: map<string, Node>, updated: map<string, Node>, ghost id: string): (r: map<string, Node>)
      requires updated.Keys <= nodes.Keys
      requires forall k :: k in nodes ==> D.Strip(nodes[k], id) == if k in updated then updated[k] else nodes[k]
      ensures r == map k | k in nodes :: D.Strip(nodes[k], id)
    {
      nodes + updated
    }

    method CollectScoped(id: string) returns (delEnrollments: set<string>, delNodeIndex: set<string>)
      ensures delEnrollments == D.ScopedTo(Contents(), id)
      ensures delNodeIndex == D.NodesScopedTo(Contents(), id)
    {
      delEnrollments, delNodeIndex := {}, {};
      var todo := enrollments.Keys;
      while todo != {}
        invariant todo <= enrollments.Keys
        invariant delEnrollments == set k | k in enrollments && enrollments[k].homeID == id && k !in todo
        invariant forall k :: k in delEnrollments && enrollments[k].nodeID != "" ==> enrollments[k].nodeID in delNodeIndex
        invariant forall n :: n in delNodeIndex ==> n in D.NodesScopedTo(Contents(), id)
        decreases todo
      {
        var k :| k in todo;
        todo := todo - {k};
        var e := enrollments[k];
        if e.homeID == id {
          delEnrollments := delEnrollments + {k};
          if e.nodeID != "" {
            delNodeIndex := delNodeIndex + {e.nodeID};
          }
        }
      }
    }

    // The nodes whose membership mentions the Home, without it.
    method CollectStripped(id: string) returns (updated: map<string, Node>)
      ensures updated.Keys <= nodes.Keys
      ensures forall k :: k in nodes ==>
                D.Strip(nodes[k], id) == if k in updated then updated[k] else nodes[k]
    {
      updated := map[];
      var todo := nodes.Keys;
      while todo != {}
        invariant todo <= nodes.Keys
        invariant updated.Keys <= nodes.Keys - todo
        invariant forall k :: k in nodes && k !in todo ==>
                    D.Strip(nodes[k], id) == if k in updated then updated[k] else nodes[k]
        decreases todo
      {
        var k :| k in todo;
        todo := todo - {k};
        var n, changed := StripNode(nodes[k], id);
        if changed {
          updated := updated[k := n];
        }
      }
    }

    static method StripNode(node: Node, id: string) returns (n: Node, changed: bool)
      ensures n == D.Strip(node, id)
      ensures changed <==> n != node || node.currentHome == id || id in node.trustedHomes
    {
      n, changed := node, false;
      if n.currentHome == id {
        n, changed := n.(currentHome := ""), true;
      }
      var kept: seq<string> := [];
      for i := 0 to |node.trustedHomes|
        invariant kept == Without(node.trustedHomes[..i], id)
        invariant changed <==> node.currentHome == id || id in node.trustedHomes[..i]
      {
        assert node.trustedHomes[..i + 1][..i] == node.trustedHomes[..i];
        if node.trustedHomes[i] == id {
          changed := true;
        } else {
          kept := kept + [node.trustedHomes[i]];
        }
      }
      assert node.trustedHomes[..|node.trustedHomes|] == node.trustedHomes;
      WithoutNothing(node.trustedHomes, id);
      if changed {
        n := n.(trustedHomes := kept);
      }
    }

    method UpsertHome(home: Home)
      requires Valid()
      modifies this
      ensures Valid() && Contents() == D.UpsertHome(old(Contents()), home)
    {
      if home.id in homes {
        var existing := homes[home.id];
        existing := existing.(name := home.name, controller := home.controller,
                              bssid := home.bssid, lastSeen := home.lastSeen);
        homes := homes[home.id := existing];
      } else {
        homes := homes[home.id := home];
      }
    }

    method UpdateHome(home: Home) returns (r: Result<(), D.StoreError>)
      requires Valid()
      modifies this
      ensures Valid()
      ensures match D.UpdateHome(old(Contents()), home)
              case Ok(after) => r == Ok(()) && Contents() == after
              case Err(error) => r == Err(error) && Contents() == old(Contents())
    {
      if home.id !in homes {
        return Err(D.NotFound);
      }
      var existing := homes[home.id];
      homes := homes[home.id := existing.(name := home.name, controller := home.controller, bssid := home.bssid)];
      r := Ok(());
    }

    method GetActiveHome() returns (home: string)
      ensures home == settings.activeHome
    {
      home := settings.activeHome;
    }

    method SetActiveHome(home: string)
      requires Valid()
      modifies this
      ensures Valid() && Contents() == D.SetActiveHome(old(Contents()), home)
    {
      settings := settings.(activeHome := home);
    }

    method Reset()
      modifies this
      ensures Valid() && Contents() == D.EMPTY
    {
      homes, nodes, profiles, settings := map[], map[], map[], D.NO_SETTINGS;
      enrollments, byNode := map[], map[];
    }
  }
}
