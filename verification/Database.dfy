/**
 The persistent store as a value, and every write transaction of
 internal/storage/store.go as a function on that value. The class in Store.dfy
 performs the same transactions in place and is proved against these functions.

 A bbolt Update that fails rolls back, so a failed transaction is an error
 result and no new value.
 */
module Database {
  import opened Wrappers
  import opened Lists
  import opened Models

  datatype StoreError = NotFound

  // The settings bucket: unset keys read back as these defaults.
  datatype Settings = Settings(activeHome: string, setupComplete: bool, backhaul: BackhaulState)

  const NO_SETTINGS := Settings("", false, BackhaulState(ModeUnknown, false))

  // One field a bucket; byNode is the secondary index node id -> enrollment id.
  datatype Db = Db(homes: map<string, Home>, nodes: map<string, Node>,
                   profiles: map<string, Profile>, settings: Settings,
                   enrollments: map<string, Enrollment>, byNode: map<string, string>)

  const EMPTY := Db(map[], map[], map[], NO_SETTINGS, map[], map[])

  // Every record is stored under its own identifier.
  ghost predicate Keyed(db: Db) {
    && (forall k :: k in db.homes ==> db.homes[k].id == k)
    && (forall k :: k in db.nodes ==> db.nodes[k].id == k)
    && (forall k :: k in db.enrollments ==> db.enrollments[k].id == k)
  }

  // ----- transactions -----

  function GetEnrollment(db: Db, id: string): Result<Enrollment, StoreError> {
    if id in db.enrollments then Ok(db.enrollments[id]) else Err(NotFound)
  }

  function GetEnrollmentByNodeID(db: Db, nodeID: string): Result<Enrollment, StoreError> {
    if nodeID in db.byNode then GetEnrollment(db, db.byNode[nodeID]) else Err(NotFound)
  }

  function CreateEnrollment(db: Db, e: Enrollment): Db {
    db.(enrollments := db.enrollments[e.id := e],
        byNode := if e.nodeID != "" then db.byNode[e.nodeID := e.id] else db.byNode)
  }

  function UpdateEnrollment(db: Db, e: Enrollment): Result<Db, StoreError> {
    if e.id !in db.enrollments then
      Err(NotFound)
    else
      var before := db.enrollments[e.id].nodeID;
      var cleared := if before != "" && before != e.nodeID then db.byNode - {before} else db.byNode;
      Ok(db.(enrollments := db.enrollments[e.id := e],
             byNode := if e.nodeID != "" then cleared[e.nodeID := e.id] else cleared))
  }

  function CreateNode(db: Db, node: Node): Db {
    db.(nodes := db.nodes[node.id := node])
  }

  function DeleteNode(db: Db, id: string): Result<Db, StoreError> {
    if id !in db.nodes then
      Err(NotFound)
    else if id in db.byNode then
      Ok(db.(nodes := db.nodes - {id},
             enrollments := db.enrollments - {db.byNode[id]},
             byNode := db.byNode - {id}))
    else
      Ok(db.(nodes := db.nodes - {id}))
  }

  function Strip(n: Node, home: string): Node {
    n.(currentHome := if n.currentHome == home then "" else n.currentHome,
       trustedHomes := Without(n.trustedHomes, home))
  }

  // The enrollments a DeleteHome removes, and the nodes they belong to.
  function ScopedTo(db: Db, home: string): set<string> {
    set k | k in db.enrollments && db.enrollments[k].homeID == home
  }

  function NodesScopedTo(db: Db, home: string): set<string> {
    set k | k in db.enrollments && db.enrollments[k].homeID == home && db.enrollments[k].nodeID != ""
         :: db.enrollments[k].nodeID
  }

  function DeleteHome(db: Db, id: string): Result<Db, StoreError> {
    if id !in db.homes then
      Err(NotFound)
    else
      Ok(Db(db.homes - {id},
            map k | k in db.nodes :: Strip(db.nodes[k], id),
            db.profiles - {id},
            db.settings,
            db.enrollments - ScopedTo(db, id),
            db.byNode - NodesScopedTo(db, id)))
  }

  function UpsertHome(db: Db, home: Home): Db {
    var stored := if home.id in db.homes
                  then home.(certificate := db.homes[home.id].certificate)
                  else home;
    db.(homes := db.homes[home.id := stored])
  }

  function UpdateHome(db: Db, home: Home): Result<Db, StoreError> {
    if home.id !in db.homes then
      Err(NotFound)
    else
      var kept := db.homes[home.id];
      Ok(db.(homes := db.homes[home.id :=
                               home.(certificate := kept.certificate, lastSeen := kept.lastSeen)]))
  }

  function SetActiveHome(db: Db, home: string): Db {
    db.(settings := db.settings.(activeHome := home))
  }

  // ----- the node index -----

  // Every index entry points to a stored record of that node.
  ghost predicate IndexSound(db: Db) {
    && "" !in db.byNode
    && forall n :: n in db.byNode ==>
         db.byNode[n] in db.enrollments && db.enrollments[db.byNode[n]].nodeID == n
  }

  // The index is exactly {nodeID -> id} over all records.
  ghost predicate IndexExact(db: Db) {
    && IndexSound(db)
    && forall k :: k in db.enrollments && db.enrollments[k].nodeID != "" ==>
         db.enrollments[k].nodeID in db.byNode && db.byNode[db.enrollments[k].nodeID] == k
  }

  lemma CreateKeepsIndexSound(db: Db, e: Enrollment)
    requires IndexSound(db) && e.id !in db.enrollments
    ensures IndexSound(CreateEnrollment(db, e))
  {
  }

  // An update may move a record to another node, or write a stale copy: sound
  // in every case.
  lemma UpdateKeepsIndexSound(db: Db, e: Enrollment)
    requires IndexSound(db) && UpdateEnrollment(db, e).Ok?
    ensures IndexSound(UpdateEnrollment(db, e).value)
  {
  }

  lemma DeleteNodeKeepsIndexSound(db: Db, id: string)
    requires IndexSound(db) && DeleteNode(db, id).Ok?
    ensures IndexSound(DeleteNode(db, id).value)
  {
  }

  lemma DeleteHomeKeepsIndexSound(db: Db, id: string)
    requires IndexSound(db) && DeleteHome(db, id).Ok?
    ensures IndexSound(DeleteHome(db, id).value)
  {
  }

  // Creating a record keeps the index exact precisely when its node has no
  // other record: the guard a caller can check is the index lookup.
  lemma CreateKeepsIndexExactIff(db: Db, e: Enrollment)
    requires IndexExact(db) && e.id !in db.enrollments
    ensures IndexExact(CreateEnrollment(db, e)) <==> e.nodeID !in db.byNode
  {
    var after := CreateEnrollment(db, e);
    if e.nodeID in db.byNode {
      var other := db.byNode[e.nodeID];
      assert other in after.enrollments && after.byNode[after.enrollments[other].nodeID] == e.id;
    }
  }

  lemma UpdateKeepsIndexExact(db: Db, e: Enrollment)
    requires IndexExact(db) && UpdateEnrollment(db, e).Ok? && (e.nodeID in db.byNode ==> db.byNode[e.nodeID] == e.id)
    ensures IndexExact(UpdateEnrollment(db, e).value)
  {
    UpdateKeepsIndexSound(db, e);
  }

  // An update keeps the index exact precisely when it does not move the record
  // onto a node that already has another one.
  lemma UpdateKeepsIndexExactIff(db: Db, e: Enrollment)
    requires IndexExact(db) && UpdateEnrollment(db, e).Ok?
    ensures IndexExact(UpdateEnrollment(db, e).value)
       <==> (e.nodeID in db.byNode ==> db.byNode[e.nodeID] == e.id)
  {
    var after := UpdateEnrollment(db, e).value;
    if e.nodeID in db.byNode && db.byNode[e.nodeID] != e.id {
      var other := db.byNode[e.nodeID];
      assert after.enrollments[other] == db.enrollments[other];
      assert after.byNode[after.enrollments[other].nodeID] == e.id;
    } else {
      UpdateKeepsIndexExact(db, e);
    }
  }

  // What the four writes of single records do and do not touch.
  lemma RecordWritesFrame(db: Db, e: Enrollment, k: string)
    requires k != e.id
    ensures k in CreateEnrollment(db, e).enrollments <==> k in db.enrollments
    ensures k in db.enrollments ==> CreateEnrollment(db, e).enrollments[k] == db.enrollments[k]
    ensures CreateEnrollment(db, e).nodes == db.nodes && CreateEnrollment(db, e).homes == db.homes
    ensures UpdateEnrollment(db, e).Ok? <==> e.id in db.enrollments
    ensures e.id in db.enrollments ==>
      var after := UpdateEnrollment(db, e).value;
      && (k in after.enrollments <==> k in db.enrollments)
      && (k in db.enrollments ==> after.enrollments[k] == db.enrollments[k])
      && after.enrollments[e.id] == e && after.nodes == db.nodes && after.homes == db.homes
  {
  }

  // Decommissioning a node leaves every other node, and with a sound index every
  // other node's records and entries, as they are.
  lemma DeleteNodeFrame(db: Db, id: string)
    requires IndexSound(db) && id in db.nodes
    ensures DeleteNode(db, id).Ok?
    ensures var after := DeleteNode(db, id).value;
      && id !in after.nodes && id !in after.byNode
      && (forall n :: n in db.nodes && n != id ==> n in after.nodes && after.nodes[n] == db.nodes[n])
      && (forall n :: n in db.byNode && n != id ==> n in after.byNode && after.byNode[n] == db.byNode[n])
      && (forall k :: k in db.enrollments && db.enrollments[k].nodeID != id ==>
            k in after.enrollments && after.enrollments[k] == db.enrollments[k])
      && after.homes == db.homes && after.profiles == db.profiles && after.settings == db.settings
  {
  }

  lemma DeletesKeepIndexExact(db: Db, id: string)
    requires IndexExact(db)
    ensures DeleteNode(db, id).Ok? ==> IndexExact(DeleteNode(db, id).value)
    ensures DeleteHome(db, id).Ok? ==> IndexExact(DeleteHome(db, id).value)
    ensures IndexExact(EMPTY)
  {
  }

  // With an exact index the indexed lookup is a linear search over the records,
  // and the record it finds is the only one of that node.
  lemma LookupIsSearch(db: Db, nodeID: string)
    requires IndexExact(db) && nodeID != ""
    ensures GetEnrollmentByNodeID(db, nodeID).Err?
       <==> forall k :: k in db.enrollments ==> db.enrollments[k].nodeID != nodeID
    ensures forall k :: k in db.enrollments && db.enrollments[k].nodeID == nodeID ==>
              GetEnrollmentByNodeID(db, nodeID) == Ok(db.enrollments[k])
    ensures GetEnrollmentByNodeID(db, nodeID).Ok? ==>
              GetEnrollmentByNodeID(db, nodeID).value in db.enrollments.Values
    ensures forall j, k :: (j in db.enrollments && k in db.enrollments
                         && db.enrollments[j].nodeID == nodeID == db.enrollments[k].nodeID) ==> j == k
  {
  }

  // ----- DeleteHome -----

  lemma DeleteHomeKeepsKeyed(db: Db, id: string)
    requires Keyed(db) && DeleteHome(db, id).Ok?
    ensures Keyed(DeleteHome(db, id).value)
  {
  }

  // Nothing of the Home is left.
  ghost predicate Forgotten(db: Db, id: string) {
    && id !in db.homes
    && id !in db.profiles
    && (forall k :: k in db.enrollments ==> db.enrollments[k].homeID != id)
    && (forall n :: n in db.byNode ==> db.byNode[n] in db.enrollments)
    && (forall n :: n in db.nodes ==> id !in db.nodes[n].trustedHomes)
    && (id != "" ==> forall n :: n in db.nodes ==> db.nodes[n].currentHome != id)
  }

  lemma DeleteHomeForgets(db: Db, id: string)
    requires IndexSound(db) && DeleteHome(db, id).Ok?
    ensures Forgotten(DeleteHome(db, id).value, id)
  {
    var after := DeleteHome(db, id).value;
    forall n | n in after.nodes ensures id !in after.nodes[n].trustedHomes {
      WithoutNothing(db.nodes[n].trustedHomes, id);
    }
  }

  // A node that never mentioned the Home is untouched; in the others only the
  // two membership fields change, and the surviving trusted Homes keep their
  // order. Everything of other Homes is as before, index entries included.
  lemma DeleteHomeFrame(db: Db, id: string)
    requires IndexExact(db) && DeleteHome(db, id).Ok?
    ensures var after := DeleteHome(db, id).value;
      && after.settings == db.settings
      && after.homes == db.homes - {id} && after.profiles == db.profiles - {id}
      && after.nodes.Keys == db.nodes.Keys
      && (forall n :: n in db.nodes && db.nodes[n].currentHome != id && id !in db.nodes[n].trustedHomes ==>
            after.nodes[n] == db.nodes[n])
      && (forall n :: n in db.nodes ==>
            after.nodes[n].(currentHome := db.nodes[n].currentHome, trustedHomes := db.nodes[n].trustedHomes) == db.nodes[n]
            && KeptInOrder(db.nodes[n].trustedHomes, id, after.nodes[n].trustedHomes)
            && (db.nodes[n].currentHome != id ==> after.nodes[n].currentHome == db.nodes[n].currentHome))
      && (forall k :: k in db.enrollments && db.enrollments[k].homeID != id ==>
            k in after.enrollments && after.enrollments[k] == db.enrollments[k])
      && (forall k :: k in after.enrollments ==> k in db.enrollments)
      && (forall n :: n in db.byNode && db.enrollments[db.byNode[n]].homeID != id ==>
            n in after.byNode && after.byNode[n] == db.byNode[n])
      && (forall n :: n in after.byNode ==> n in db.byNode)
  {
    var after := DeleteHome(db, id).value;
    forall n | n in db.nodes && db.nodes[n].currentHome != id && id !in db.nodes[n].trustedHomes
      ensures after.nodes[n] == db.nodes[n]
    {
      WithoutNothing(db.nodes[n].trustedHomes, id);
    }
    forall n | n in db.nodes ensures KeptInOrder(db.nodes[n].trustedHomes, id, after.nodes[n].trustedHomes) {
      WithoutKeepsOrder(db.nodes[n].trustedHomes, id);
    }
  }

  // Whatever the index: another Home's entry is lost exactly when its node also
  // has a record of the deleted Home.
  lemma DeleteHomeTakesEntryIff(db: Db, id: string, n: string)
    requires IndexSound(db) && DeleteHome(db, id).Ok?
    requires n in db.byNode && db.enrollments[db.byNode[n]].homeID != id
    ensures var after := DeleteHome(db, id).value;
      && (n !in after.byNode <==> exists k :: k in db.enrollments && db.enrollments[k].homeID == id && db.enrollments[k].nodeID == n)
      && (n in after.byNode ==> after.byNode[n] == db.byNode[n])
  {
    if k :| k in db.enrollments && db.enrollments[k].homeID == id && db.enrollments[k].nodeID == n {
      assert n in NodesScopedTo(db, id);
    }
  }

  // So without the exact index the frame fails: two records of one node, the one
  // of the deleted Home unindexed, and the other loses its index entry.
  lemma DeleteHomeTakesForeignEntry()
    ensures exists db: Db, id: string, n: string ::
      && IndexSound(db) && Keyed(db) && DeleteHome(db, id).Ok?
      && n in db.byNode && db.enrollments[db.byNode[n]].homeID != id
      && n !in DeleteHome(db, id).value.byNode
  {
    var a := Enrollment("a", "n", "", [], [], PendingVerification, "h", 0);
    var b := Enrollment("b", "n", "", [], [], PendingVerification, "g", 0);
    var db := EMPTY.(homes := map["h" := Home("h", "", "", "", [], 0)],
                     enrollments := map["a" := a, "b" := b], byNode := map["n" := "b"]);
    assert db.enrollments["a"].homeID == "h" && db.enrollments["b"].homeID == "g";
    assert db.enrollments["a"].nodeID in NodesScopedTo(db, "h");
    assert IndexSound(db) && Keyed(db) && DeleteHome(db, "h").Ok?;
  }

  // Discovery stores the Home it saw, or refreshes everything of a known one but
  // its pinned certificate; an update also keeps its last-seen time. No other Home
  // changes.
  lemma HomeWritesStore(db: Db, home: Home)
    ensures var after := UpsertHome(db, home);
      && after.homes.Keys == db.homes.Keys + {home.id}
      && (home.id !in db.homes ==> after.homes[home.id] == home)
      && (home.id in db.homes ==> after.homes[home.id] == Home(home.id, home.name, home.controller, home.bssid,
                                                               db.homes[home.id].certificate, home.lastSeen))
      && (forall h :: h in db.homes && h != home.id ==> after.homes[h] == db.homes[h])
    ensures UpdateHome(db, home).Err? <==> home.id !in db.homes
    ensures home.id in db.homes ==>
      var after := UpdateHome(db, home).value;
      && after.homes.Keys == db.homes.Keys
      && after.homes[home.id] == Home(home.id, home.name, home.controller, home.bssid,
                                      db.homes[home.id].certificate, db.homes[home.id].lastSeen)
      && (forall h :: h in db.homes && h != home.id ==> after.homes[h] == db.homes[h])
  {
  }

  // Discovery never overwrites a pinned certificate, and updates leave both the
  // certificate and the last-seen time of a known Home alone.
  lemma HomeWritesKeepCertificate(db: Db, home: Home)
    requires home.id in db.homes
    ensures UpsertHome(db, home).homes[home.id].certificate == db.homes[home.id].certificate
    ensures UpdateHome(db, home).Ok?
    ensures var h := UpdateHome(db, home).value.homes[home.id];
            h.certificate == db.homes[home.id].certificate && h.lastSeen == db.homes[home.id].lastSeen
  {
  }
}
