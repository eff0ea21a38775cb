# OMM: models and proofs

OMM onboards mesh nodes, configures them through UCI and shows the mesh to its
operator. This project models the parts of it that hold state or transform data,
and proves what they promise.

* **Enrollment.** `Models`, `Database` (the store's transactions as functions),
  `Storage` (the store as a class), `EnrollmentProtocol` (every operation as a
  sequence of single store transactions, any number of them in flight with stale
  copies), `EnrollmentPolicy` (who gets in), `EnrollmentReplies` (what the
  controller answers meanwhile), `EnrollmentRaces`, `EnrollmentService` and
  `EnrollmentClient` (the two ends as classes), `Lifecycle` and `HandlerRaces` (the
  handlers that delete and select Homes, alone and interleaved).
* **Topology.** `Topology` (what a node collects), `TopologyMerge` (merging and
  reconciling graphs), `TopologyTheorems`, `Aggregation` (the overview),
  `Liveness` (the overview by the clock), `Isolation` (stale and down vertices).
* **Configuration.** `Uci` (staged, committed and running configuration),
  `Batman` with `BatmanTheorems`, `BatmanContents`, `PortPartition`,
  `PortPlacement` and `AddressReadback`, `Netposture` with `PostureContents`,
  `Radios`, `Profiles` with `ProfileTheorems`, `ProfileContents` and
  `ProfileReadback`, `Failover`.
* **Two algorithms.** `HardifMac` (a MAC address for each enslaved port) and
  `SetupLabel` (the `WIFI:` URI scanner).

Code that changes state is modelled by classes and loops over the same fields;
each method is proved against a function of the old state, and the theorems are
about those functions, over all inputs, all runs and all interleavings.

What does not come from the program's own state is a parameter: hash and
signature check, clocks, fresh identifiers and challenges, the answers of the
interface probes, the carrier readings, the platform's `ToLower`, `toUpperCase`
and `JSON.parse`. Any UCI call may fail to be answered, and a failed method says
where it stopped. Maps are visited in arbitrary order wherever the source ranges
over one.

## Where the code and its documentation part

* `internal/enrollment/enrollment.go:158-200`: two overlapping requests of one
  node create two records, of which the index knows one. An approved record then
  comes to have no node in the inventory in exactly two ways: its node is deleted
  while the index knows the other record, or its node is gone by the time a copy
  held since before is written back as approved or active
  (`EnrollmentProtocol.StepKeepsStockIff` for every step,
  `EnrollmentProtocol.StockedAlwaysIff` for every run). Both happen:
  `EnrollmentRaces.DuplicateRequestsStrandARecord` and
  `EnrollmentRaces.LateWriteStrandsARecord`.
* `internal/api/lifecycle.go:11-15` wants no dangling active Home. Guard and write
  are separate transactions; the setting dangles exactly when a handler writes
  after its guard has ceased to hold (`HandlerRaces.ActiveStoredAlwaysIff`), which
  two overlapping handlers can bring about (`Lifecycle.RacingHandlersDangle`) and
  handlers that do not overlap cannot
  (`HandlerRaces.SequentialHandlersNeverDangle`).
* `meshd/cmd/meshd/main.go:545-567` selects a Home at boot only when none is active,
  but writes it later: an operator's choice made in between is overwritten
  (`HandlerRaces.OperatorsChoiceIsLost`), and a choice is kept exactly when no such
  write comes after it (`HandlerRaces.ChoiceKeptIff`).
* `internal/batman/mac.go:24-25` calls the derived address stable. The reader
  reports the address in effect, so a second run derives from a derived address
  and takes the discriminator out again: `AddressReadback.ReadBackIff` and, for a
  whole profile, `ProfileReadback.ReadBackProfileIff` say exactly when a second run
  is harmless.
* `internal/batman/batman.go:177-180` calls `ReleasePort` idempotent. Deleting an
  absent section is an error, so releasing twice fails, and so does the fallback
  for a port whose address cannot be read (`PortPlacement.TeardownAfterApplyIff`).
  The system then keeps running with the mesh on a bat0 that is not up
  (`Profiles.Manager.ApplyProfile`).
* `internal/backhaul/switch.go:65-71` promises a retry of a failed switch. The
  observer reads the staged option, so a failed commit or reload is never retried
  while the carrier stays as it is (`Failover.RetryIff`, `Failover.StandingLoop`).
* `internal/topology/aggregator.go:184-189`: reconciling can leave a link to a
  vertex it drops, exactly when some vertex canonicalises to an alias
  (`TopologyTheorems.ReconcileKeepsClosedIff`), and reconciling again can change
  the graph, exactly when the owner of some address is still an alias of the
  vertices that were kept (`TopologyTheorems.ReconcileIdempotentIff`, with
  `TopologyTheorems.ReconcileNotIdempotent`). Neither happens when no node that
  declares an address is itself an alias.
* `internal/topology/aggregator.go:160-162` joins two ids to a link key with a NUL.
  `TopologyTheorems.KeysCollideIff` says exactly which pairs share a key.

## Model

| member | source | states |
|---|---|---|
| Database.CreateKeepsIndexSound | internal/storage/store.go:375-385 | creating a record, even a second one for its node, leaves every index entry on a record of that node |
| Database.UpdateKeepsIndexSound | internal/storage/store.go:432-454 | writing any copy of a record, stale or moved to another node, leaves every index entry on a record of that node |
| Database.DeleteNodeKeepsIndexSound | internal/storage/store.go:248-268 | deleting a node leaves no index entry without its record |
| Database.DeleteHomeKeepsIndexSound | internal/storage/store.go:133-213 | deleting a Home leaves no index entry without its record |
| Database.CreateKeepsIndexExactIff | internal/storage/store.go:375-385 | the index stays the exact inverse of the records if and only if the new record's node was not indexed |
| Database.UpdateKeepsIndexExactIff | internal/storage/store.go:432-454 | the index stays exact if and only if the record is not moved onto a node that has another record |
| Database.DeletesKeepIndexExact | internal/storage/store.go:133-268 | deleting nodes and Homes, and resetting, keep the index exact |
| Database.LookupIsSearch | internal/storage/store.go:395-405 | with an exact index the lookup by node is a linear search, and its answer is the only record of the node |
| Database.DeleteHomeForgets | internal/storage/store.go:133-213 | afterwards nothing stored refers to the Home: not the home, profile, enrollments, index entries, current or trusted Homes |
| Database.DeleteHomeFrame | internal/storage/store.go:133-213 | with an exact index nothing else changes, and each node keeps exactly its other trusted Homes, in order |
| Database.DeleteHomeTakesEntryIff | internal/storage/store.go:147-160 | whatever the index, another Home's entry is lost if and only if its node also has a record of the deleted Home, and is otherwise unchanged |
| Database.DeleteHomeTakesForeignEntry | internal/storage/store.go:147-160 | a store with a sound index where that happens |
| Database.DeleteHomeKeepsKeyed | internal/storage/store.go:133-213 | every record stays stored under its own id |
| Database.HomeWritesKeepCertificate | internal/storage/store.go:95-126 | discovery and updates of a known Home keep its pinned certificate, updates its last-seen time too |
| Database.HomeWritesStore | internal/storage/store.go:95-126 | discovery stores a new Home as it is and refreshes name, controller, BSSID and last-seen time of a known one; an update the first three; no other Home changes |
| Database.DeleteNodeFrame | internal/storage/store.go:248-268 | every other node, and its records and index entries, stay as they are |
| Database.RecordWritesFrame | internal/storage/store.go:375-454 | creating and updating a record leave every other record, the nodes and the Homes alone |
| Storage.Store.CreateEnrollment | internal/storage/store.go:375-385 | the two buckets written in place are the create transaction |
| Storage.Store.UpdateEnrollment | internal/storage/store.go:432-454 | an absent record is an error and changes nothing; otherwise record and both index entries are rewritten |
| Storage.Store.GetEnrollmentByNodeID | internal/storage/store.go:395-405 | the lookup goes through the index to the record |
| Storage.Store.DeleteNode | internal/storage/store.go:248-268 | an absent node is an error and changes nothing; otherwise node, indexed record and entry go together |
| Storage.Store.DeleteHome | internal/storage/store.go:133-213 | the collect-then-write loops, in any bucket order, are the delete transaction; an absent Home changes nothing |
| Storage.Store.UpsertHome | internal/storage/store.go:95-110 | an upsert without a certificate keeps the pinned one |
| Storage.Store.UpdateHome | internal/storage/store.go:114-126 | an update of an absent Home is an error; otherwise certificate and last-seen time are carried over |
| Storage.Store.Reset | internal/storage/store.go:359-371 | every bucket is empty afterwards |
| EnrollmentProtocol.SafeRun | internal/enrollment/enrollment.go:158-308 | one invariant over records, copies in flight, accepted signatures and index survives every sequence of interleaved transactions |
| EnrollmentProtocol.EveryRunIsSafe | internal/enrollment/enrollment.go:158-308 | from the empty store: every record's node id is the hash of its key, every pending-approval, approved or active record has an accepted signature for exactly its key and challenge, every node the service inventoried is the hash of a key that signed |
| EnrollmentProtocol.StockedRun | internal/enrollment/enrollment.go:287-308 | unless a duplicate record is created, every approved or active record's node is in the inventory after every interleaving |
| EnrollmentProtocol.DeleteNodeKeepsStockIff | internal/storage/store.go:248-268 | deleting a node keeps that promise if and only if the node's approved and active records are the indexed one |
| EnrollmentProtocol.StepKeepsStockIff | internal/enrollment/enrollment.go:158-308 | of all steps, exactly two break the promise: deleting a node that has an adopted record other than the indexed one, and writing a copy back as adopted after its node went |
| EnrollmentProtocol.StockedAlwaysIff | internal/enrollment/enrollment.go:158-308 | over every run, duplicates included, the promise holds all along if and only if neither step is ever taken |
| EnrollmentPolicy.EveryNodeWasLetIn | internal/enrollment/enrollment.go:52-76 | over every interleaved run, a node the service inventoried was adopted by an operator, or verified with a good signature where the policy is always, or onlink and the request was on the link |
| EnrollmentPolicy.OnlyOperatorsLetIn | internal/enrollment/enrollment.go:52-76 | with adoption off, or onlink and nobody on the link, only an operator adopting that very node lets it in |
| EnrollmentPolicy.InventoryIsLetIn | internal/enrollment/enrollment.go:205-308 | the same from any safe state, for nodes not already on their way in |
| EnrollmentRaces.DuplicateRequestsStrandARecord | internal/enrollment/enrollment.go:175-200 | a run of two overlapping requests, both adopted, and a node deletion leaves an approved record with no node |
| EnrollmentRaces.LateWriteStrandsARecord | internal/enrollment/enrollment.go:287-308 | a run where the promise holds in every state, the node deletion included, until a copy held since before is written back as approved |
| EnrollmentReplies.RepliesAreStored | internal/enrollment/enrollment.go:205-328 | in every reachable state every reply reports status and Home of the record as it is stored when the reply is given |
| EnrollmentReplies.LooksAreStored | internal/enrollment/enrollment.go:263-269 | and so does every poll, for the record it asks about |
| EnrollmentReplies.TicketIsIssued | internal/enrollment/enrollment.go:158-200 | a ticket names an enrollment id issued for the node that asked, whatever ran meanwhile |
| EnrollmentReplies.VerifyReplyIsStored | internal/enrollment/enrollment.go:205-225 | the answer to a verification is about the record verified, as it is stored at some moment of the run |
| EnrollmentService.Service.Request | internal/enrollment/enrollment.go:158-200 | the store change is that of the request's transactions; exactly which inputs are refused; a new record has exactly the presented and configured fields, a known one only key, serial, challenge and status changed |
| EnrollmentService.Service.Verify | internal/enrollment/enrollment.go:205-225 | succeeds if and only if the signature checks for the stored key and challenge; adopts at once if and only if the policy is always, or onlink and the request was on the link |
| EnrollmentService.Service.Adopt | internal/enrollment/enrollment.go:227-238 | succeeds if and only if the node's record is pending approval, and then its node is in the inventory |
| EnrollmentService.Service.Reject | internal/enrollment/enrollment.go:250-260 | succeeds if and only if the node has a record, and leaves it rejected |
| EnrollmentService.Service.Ack | internal/enrollment/enrollment.go:272-284 | an approved record becomes active, any other keeps its status |
| EnrollmentService.Service.Approve | internal/enrollment/enrollment.go:287-308 | a missing node is created with serial, Home and time, a known one left alone, and the record approved |
| EnrollmentService.PerformInHistory | internal/enrollment/enrollment.go:158-308 | a service call on its own is the same call in any history of calls: only the store carries over |
| EnrollmentService.CallIsUnraced | internal/enrollment/enrollment.go:158-308 | an operation that runs alone creates no duplicate and leaves nothing in flight |
| EnrollmentService.HistoryIsUnraced | internal/enrollment/enrollment.go:158-308 | so does every history of operations that do not overlap |
| EnrollmentService.SequentialInventory | internal/enrollment/enrollment.go:227-308 | when operations do not overlap, every approved or active record has its node in the inventory and the index is exact, in every reachable state, deletions, re-requests and resets included |
| EnrollmentClient.Client.Fire | internal/client/client.go:219-227 | a trigger moves the machine exactly when the table permits it |
| EnrollmentClient.Client.Exchanged | internal/client/client.go:254-306 | the exchange succeeds if and only if every answer it needs came and one of them adopts |
| EnrollmentClient.Client.Enroll | internal/client/client.go:245-252 | a fresh client ends joined or failed, as the exchange went; a final one stays |
| EnrollmentClient.Client.WaitForApproval | internal/client/client.go:308-330 | polling succeeds if and only if an adopting answer comes before a rejection, an error or the deadline |
| EnrollmentClient.RecordIsMine | internal/client/client.go:261-268 | whenever the record a client's ticket names is stored, it is that of the node the client presented |
| EnrollmentClient.JoinedMeansAdopted | internal/client/client.go:254-330 | inside any run of the controller: if the answers of the exchange are those the run gives to this client, and it joins, then at some moment the record its ticket names was approved or active, for the node the client presented; the answer to the acknowledgement plays no part |
| EnrollmentClient.JoinedHasSigned | internal/client/client.go:254-330 | and a signature had been accepted for exactly the key and challenge of that record, the node id being the hash of the key |
| EnrollmentClient.RejectionIsFinal | internal/client/client.go:308-330 | after a rejection no later answer lets the client in |
| Lifecycle.Handlers.DeleteHome | internal/api/lifecycle.go:16-38 | the active Home is refused with a conflict and an absent one not found, changing nothing; the active Home is always unset or stored |
| Lifecycle.Handlers.DeleteNode | internal/api/lifecycle.go:41-52 | node and index entry go, or nothing changes |
| Lifecycle.Handlers.Reset | internal/api/lifecycle.go:57-63 | nothing is left, the active Home included |
| Lifecycle.Handlers.SetActiveHome | internal/api/activehome.go:32-51 | only a stored Home is selected; the active Home is always unset or stored |
| Lifecycle.Handlers.AutoSelectHome | meshd/cmd/meshd/main.go:545-567 | on its own it leaves a set active Home alone, and one it selects is stored |
| Lifecycle.DeleteHomeKeepsActiveIff | internal/api/lifecycle.go:16-28 | the guard is exactly what the deletion needs for the active Home not to dangle |
| Lifecycle.SetActiveHomeKeepsActiveIff | internal/api/activehome.go:43-51 | and this one exactly what the selection needs |
| Lifecycle.RacingHandlersDangle | internal/api/activehome.go:43-51 | two handlers that both pass their guards can leave a dangling active Home |
| HandlerRaces.StepDanglesIff | internal/api/lifecycle.go:16-38 | a step leaves the active Home dangling if and only if it deletes a Home that has become active or selects one that has been deleted |
| HandlerRaces.ActiveStoredAlwaysIff | internal/api/activehome.go:43-51 | over every run of interleaved handlers and other requests the active Home is unset or stored all along if and only if no handler writes after its guard has ceased to hold |
| HandlerRaces.SequentialHandlersNeverDangle | internal/api/activehome.go:43-51 | handlers that do not overlap, the boot-time selection among them, never leave it dangling |
| HandlerRaces.ChoiceKeptIff | meshd/cmd/meshd/main.go:545-567 | over every run, until the operator reconsiders, the active Home stays if and only if no boot-time write puts another in its place |
| HandlerRaces.NoneBootsLater | meshd/cmd/meshd/main.go:545-548 | while a Home is active no boot-time selection gets past its guard |
| HandlerRaces.UnracedChoiceIsKept | meshd/cmd/meshd/main.go:545-567 | so a choice made while none is under way is kept |
| HandlerRaces.OperatorsChoiceIsLost | meshd/cmd/meshd/main.go:545-567 | and one made between the boot-time guard and its write can be lost |
| Topology.Collect | internal/topology/topology.go:200-252 | every link and client ends at a vertex, vertices are distinct, links are the neighbour entries in order, the first vertex is "self" with the node's own title, backhaul, mode and addresses, the others are members |
| Topology.LinksSay | internal/topology/topology.go:218-238 | one link for every neighbour entry with an id, in order, and for no other |
| Topology.LinkSays | internal/topology/topology.go:227-236 | a link names both ends, the quality heard, and kind, signal and speed as measured |
| TopologyMerge.StrongestMeaning | internal/topology/aggregator.go:159-170 | keeping the strongest link per key keeps every key, with one of its links of the greatest quality |
| TopologyMerge.StrongestIsFirst | internal/topology/aggregator.go:159-164 | of equally good links of a key the first is kept |
| TopologyMerge.MergeGraphs | internal/topology/aggregator.go:129-182 | the loops over vertices, links (a map) and clients compute the merged graph as a function of the graphs |
| TopologyMerge.MergeNode | internal/topology/aggregator.go:137-158 | the index and the vertex list stay in step, and a repeated vertex only fills in what was unknown |
| TopologyMerge.EmitLinks | internal/topology/aggregator.go:172-180 | links come out in key order, whatever order the map is visited in |
| TopologyMerge.CollectOwners | internal/topology/aggregator.go:190-199 | the alias map built by the loop: the last declarer of an address owns it |
| TopologyMerge.KeepReal | internal/topology/aggregator.go:207-213 | filtering vertices in place, over the same array, keeps exactly those that are no alias, in order |
| TopologyMerge.Reconcile | internal/topology/aggregator.go:190-247 | the loops compute reconciliation as a function of the graph |
| TopologyTheorems.VerticesMeaning | internal/topology/aggregator.go:135-158 | one vertex an id, in the order ids first occur, with the first backhaul and mesh mode anyone reports |
| TopologyTheorems.SelfIsLocal | internal/topology/aggregator.go:140-146 | only the local graph contributes a "self" vertex |
| TopologyTheorems.PairKeyInjective | internal/topology/aggregator.go:160-162 | link keys tell directed pairs apart when ids hold no NUL |
| TopologyTheorems.KeysCollideIff | internal/topology/aggregator.go:160-162 | two keys are the same if and only if the pairs are, or a NUL inside the longer source is where the other key splits |
| TopologyTheorems.NulKeysCollide | internal/topology/aggregator.go:160-162 | two different pairs that share a key |
| TopologyTheorems.FusionIff | internal/topology/aggregator.go:159-246 | the two rounds of keeping the strongest link fuse: the output links s to t if and only if s is not t and some input link canonicalises to (s, t) |
| TopologyTheorems.FusionUnique | internal/topology/aggregator.go:172-246 | there is at most one such link |
| TopologyTheorems.FusionBest | internal/topology/aggregator.go:159-246 | it is one of those input links, rewritten, and none of them is better |
| TopologyTheorems.FusionWithoutAddressesIff | internal/topology/aggregator.go:159-205 | with no declared address the output links the pairs the input links, self-loops included |
| TopologyTheorems.FusionWithoutAddressesBest | internal/topology/aggregator.go:159-205 | by a best link of each pair, unchanged |
| TopologyTheorems.LinksAscend | internal/topology/aggregator.go:172-180 | output links are in strictly ascending key order, so map order cannot show |
| TopologyTheorems.OwnersMeaning | internal/topology/aggregator.go:190-199 | exactly the declared addresses have an owner, the last node to declare it |
| TopologyTheorems.SettledWhenOwnersAreNotAddresses | internal/topology/aggregator.go:190-213 | if no address-declaring node's id is a declared address, no vertex canonicalises to an alias |
| TopologyTheorems.SettledKeepsClosed | internal/topology/aggregator.go:190-247 | then reconciling keeps a closed graph closed |
| TopologyTheorems.ReconcileKeepsClosedIff | internal/topology/aggregator.go:207-236 | reconciling keeps every closed graph over given vertices closed if and only if no vertex canonicalises to an alias |
| TopologyTheorems.AliasBreaksClosed | internal/topology/aggregator.go:207-236 | a graph it breaks, for every vertex that does |
| TopologyTheorems.MergedIsClosed | internal/topology/aggregator.go:129-247 | merging closed graphs over settled vertices gives a closed graph |
| TopologyTheorems.MergedIds | internal/topology/aggregator.go:129-247 | merged ids are distinct, and are the mentioned ids that are no alias |
| TopologyTheorems.MergedVertex | internal/topology/aggregator.go:129-247 | every merged vertex is what its occurrences say, and "self" only from the local graph |
| Liveness.VertexByOrigin | internal/topology/aggregator.go:135-158 | a merged vertex has title, addresses and role of the first graph that mentions it, except that a reporting node's "self" becomes "node" |
| TopologyTheorems.OwnersSurvive | internal/topology/aggregator.go:190-213 | a second pass finds the same aliases |
| TopologyTheorems.ReconcileIdempotentIff | internal/topology/aggregator.go:190-247 | over given vertices reconciling twice is reconciling once, whatever the links and clients, if and only if no owner of an address is an alias of the vertices the first pass keeps |
| TopologyTheorems.ReconcileIdempotent | internal/topology/aggregator.go:190-247 | in particular when no declared address belongs to an alias |
| TopologyTheorems.AliasChainMoves | internal/topology/aggregator.go:190-247 | any two nodes of which the second declares the id of the first: a client at the address of the first moves again in a second pass |
| TopologyTheorems.ReconcileNotIdempotent | internal/topology/aggregator.go:190-247 | a graph that a second pass changes |
| Aggregation.Aggregator.Ingest | internal/topology/aggregator.go:41-45 | a report replaces the node's last one, with its time |
| Aggregation.Aggregator.Merge | internal/topology/aggregator.go:53-124 | the overview is a function of reports, local graph, inventory and clock, whatever order the maps are visited in |
| Aggregation.OverviewDistinct | internal/topology/aggregator.go:86-123 | vertices have distinct ids when inventory nodes do |
| Aggregation.OverviewSelf | internal/topology/aggregator.go:72-84 | "self" vertices are the local graph's own and alive |
| Aggregation.SilentVerticesAreIsolated | internal/topology/aggregator.go:101-123 | with closed inputs and settled vertices a stale or down vertex has no link |
| Isolation.SilentIsolatedIff | internal/topology/aggregator.go:101-123 | over given vertices, whatever the links between them and whoever is onboarded, stale and down vertices have no link if and only if no input graph has a vertex that moves to an alias beside one that does not move there |
| Isolation.PartedLinksASilentVertex | internal/topology/aggregator.go:207-236 | for every two such vertices, an overview that shows a silent vertex with a link |
| Aggregation.LivenessIsShown | internal/topology/aggregator.go:101-123 | every inventory node is shown with its liveness |
| Aggregation.MentionedIsMerged | internal/topology/aggregator.go:86-99 | an id nobody declares is a vertex of a merged graph exactly when some input graph mentions it |
| Aggregation.LivenessDecays | internal/topology/aggregator.go:57-123 | with nothing new reported, a node that is no declared address only moves from alive to stale to down |
| Liveness.InputsAreCurrent | internal/topology/aggregator.go:57-84 | what counts is the local graph and exactly the reports no older than the limit, if there is a limit |
| Liveness.NewestComeFirst | internal/topology/aggregator.go:57-77 | reports count newest first, and by node id where equally new |
| Liveness.StatusByTheClock | internal/topology/aggregator.go:57-123 | an inventory node that nobody declares is alive if and only if the local graph or an unexpired report mentions it, otherwise down if and only if last heard of before the stale limit, and stale if not |
| Liveness.VerticesByTheClock | internal/topology/aggregator.go:86-123 | what every vertex shows: alive with its report time, or silent with the inventory's title and when it was last heard of |
| Liveness.LinksAreCurrent | internal/topology/aggregator.go:57-84 | every link comes from the local graph or an unexpired report, with nothing but its ends rewritten |
| Liveness.ClientsAreCurrent | internal/topology/aggregator.go:57-84 | and so does every client, with nothing but its access point rewritten |
| Liveness.ClientsAreShown | internal/topology/aggregator.go:165-170 | every client of those graphs is shown, by its MAC |
| Liveness.ClientsMeaning | internal/topology/aggregator.go:165-170 | one client a MAC: exactly its first occurrence |
| Uci.ItemOps | internal/uci/client.go:176-210 | adding an item appends it unless present, deleting removes every occurrence, and other options stay |
| Uci.MoveToEnd | internal/uci/client.go:176-210 | deleting and adding an item writes it once, at the end |
| Uci.EditedAt | internal/uci/client.go:134-162 | a sequence of writes, section by section: untouched ones stay, touched ones merge the last value of every option |
| Uci.AbsorbedStays | internal/uci/client.go:134-162 | writes that have nothing left to change change nothing |
| Uci.EditedAbsorbed | internal/uci/client.go:134-162 | any sequence of writes has nothing left to change once made |
| Uci.Client.Get | internal/uci/client.go:81-110 | reads the staged scalar, or an error for an absent or list option or an unanswered call |
| Uci.Client.Set | internal/uci/client.go:134-141 | writes one staged option of an existing section, or fails and changes nothing |
| Uci.Client.SetSection | internal/uci/client.go:143-162 | creates the section if needed and merges the options into it; a failure leaves nothing or the bare section |
| Uci.Client.Delete | internal/uci/client.go:164-170 | drops a staged section; an absent one is an error; a failure changes nothing |
| Uci.Client.GetList | internal/uci/client.go:214-236 | the list of an existing section, a scalar as a list of one |
| Uci.Client.AddListItem | internal/uci/client.go:176-187 | the scan and the write-back append the item once |
| Uci.Client.DelListItem | internal/uci/client.go:192-210 | the filter loop and the write-back drop every occurrence, in order |
| Uci.Client.SetList | internal/uci/client.go:242-255 | an empty list is written by deleting the option |
| Uci.Client.Commit | internal/uci/client.go:257-262 | copies one package from staged to committed, or fails and changes nothing |
| Uci.Client.Reload | internal/uci/client.go:281-296 | makes the committed configuration the running one; a failure may have reloaded the network alone |
| Batman.Manager.EnslavePort | internal/batman/batman.go:149-175 | what it stages, succeeding only with the bridge there and failing only for want of it or of an answered call |
| Batman.Manager.Apply | internal/batman/batman.go:99-140 | the loop over wired ports stages the whole layer, and nothing but the network package |
| Batman.Manager.ReleasePort | internal/batman/batman.go:181-200 | likewise, with bridge, hard interface and device section there |
| Batman.Manager.Teardown | internal/batman/batman.go:205-222 | what it leaves, succeeding only when every deletion finds its section and failing only when one does not or a call is not answered |
| BatmanTheorems.ApplyShape | internal/batman/batman.go:99-175 | applying in closed form: the authored sections, and a bridge holding the foreign ports in order and bat0 last |
| BatmanTheorems.TeardownShape | internal/batman/batman.go:181-222 | tearing down in closed form |
| BatmanTheorems.FallbackShape | internal/batman/batman.go:99-222 | applying and tearing down leaves no section of the layer, whatever was there, and changes only the bridge's ports |
| BatmanTheorems.ApplyTwice | internal/batman/batman.go:95-140 | applying is idempotent, port order included |
| BatmanTheorems.FallbackTwice | internal/batman/batman.go:99-222 | so is applying and tearing down |
| BatmanTheorems.TeardownRestoresPorts | internal/batman/batman.go:99-222 | tearing down after applying gives the bridge the set of ports it had, if it had the wired ports and not bat0 |
| PortPartition.ExclusiveBridgeIff | internal/batman/batman.go:184-190 | bridging a device keeps bridge and hard interfaces apart if and only if no hard interface has the device |
| PortPartition.PerformKeepsExclusive | internal/batman/batman.go:99-222 | every operation keeps them apart |
| PortPartition.NeverBoth | internal/batman/batman.go:142-222 | over any sequence of operations, and of postures that move another uplink, no device is both a bridge port and a hard interface's device |
| PortPlacement.ApplyEnslaves | internal/batman/batman.go:118-123 | applying puts every wired port on its hard interface |
| PortPlacement.TeardownBridges | internal/batman/batman.go:205-216 | tearing down puts every wired port in the bridge |
| PortPlacement.ExactlyOnePlace | internal/batman/batman.go:99-222 | over any sequence of operations each wired port is in exactly one of the two, when section names tell the ports apart |
| PortPlacement.ApplyBridgesBat0Once | internal/batman/batman.go:125-138 | however often bat0 was listed, applying lists it once, last |
| PortPlacement.NeverListedTwice | internal/batman/batman.go:95-222 | over any sequence of operations and postures no port comes to be listed twice in the bridge, and once one of them applies or tears down, bat0 is listed at most once however often it was before |
| PortPlacement.TeardownAfterApplyIff | internal/batman/batman.go:160-222 | tearing down what was applied succeeds if and only if every port's address could be read or its device section was there before |
| BatmanContents.SoftSays | internal/batman/batman.go:99-116 | applied, bat0 has its protocol, routing algorithm and loop avoidance, and the mesh a hard interface of it |
| BatmanContents.PortSays | internal/batman/batman.go:149-173 | every wired port has a hard interface of bat0 with the port as its device, and its derived address in a section of its own |
| BatmanContents.SanitizedAt | internal/batman/batman.go:226-235 | a section name keeps letters, digits and underscores and has an underscore for anything else |
| BatmanContents.AppliedElsewhere | internal/batman/batman.go:99-175 | applying changes no other section, and of the LAN bridge only its ports |
| BatmanContents.FallbackElsewhere | internal/batman/batman.go:99-222 | nor does applying and tearing down |
| AddressReadback.AppliedAddress | internal/batman/batman.go:160-173 | applying leaves each port's derived address in its device section |
| AddressReadback.ReapplyIff | internal/batman/batman.go:95-175 | applying again with other readings changes nothing if and only if the derived addresses agree |
| AddressReadback.ReadBackIff | internal/batman/mac.go:11-45 | when the second run reads back the first run's addresses it changes nothing if and only if every discriminator is zero; ports of one base address then share one address |
| Netposture.Manager.Apply | internal/netposture/apply.go:48-59 | an unknown role is refused and changes nothing; success leaves the posture staged, committed and running; it fails only for want of a section or of an answered call, having committed nothing or stopped between its commits and the end of its reload |
| Netposture.Manager.ApplyRole | internal/netposture/apply.go:70-138 | the uplink goes into the bridge or out of it, as the role says, and nowhere when it cannot be read; it fails only for want of a section or of an answered call, and where a failure stops |
| Netposture.Manager.AssignEach | internal/netposture/apply.go:126-131 | the loop stages every assignment, failing only for want of its section or of an answered call |
| Netposture.Manager.CommitAndReload | internal/netposture/apply.go:132-138 | both packages committed in order and the system reloaded, or stopped on the way for want of an answered call |
| Netposture.Manager.UplinkPort | internal/netposture/apply.go:146-154 | the configured port, or the device of wan, or none |
| Netposture.PostureTwice | internal/netposture/apply.go:70-138 | for the same answer to its read, taking a posture twice is taking it once, in all three layers |
| Netposture.PostureKeepsExclusive | internal/netposture/apply.go:70-109 | a posture keeps bridge and hard interfaces apart when no hard interface has the uplink |
| PostureContents.ControllerPosture | internal/netposture/apply.go:97-109 | committed and running, the controller has wan and wan6 on and the LAN's DHCP server serving; every other option but the bridge's ports is as it was staged |
| PostureContents.BridgedPosture | internal/netposture/apply.go:70-83 | committed and running, a guest or mesh node has the LAN as a DHCP client, wan and wan6 off and its DHCP server standing down; every other option but the bridge's ports is as it was staged |
| PostureContents.PosturePorts | internal/netposture/apply.go:70-103 | the uplink is out of the controller's bridge and in everyone else's, and the other ports are as they were |
| PostureContents.UplinkIs | internal/netposture/apply.go:146-154 | the uplink is the configured port, or else the device of wan |
| Radios.LowestRadioForBand | internal/profiles/manager.go:507-517 | whatever order the sections come in, the lexicographically lowest radio of the band, or none |
| Radios.ResolveTargets | internal/profiles/manager.go:535-566 | the loop over the bands computes the client APs |
| Radios.TargetsShape | internal/profiles/manager.go:535-566 | the first AP is on the main radio, each other on the lowest radio of a band asked for, and no radio has two |
| Radios.TargetsDistinct | internal/profiles/manager.go:535-566 | no two APs share a radio or a section |
| Radios.TargetsCover | internal/profiles/manager.go:535-566 | every band asked for that has a radio is served on its lowest one |
| Profiles.Manager.ResolveRadio | internal/profiles/manager.go:486-502 | the explicit radio, or the band's, or the default; a band without a radio and an unanswered read are errors |
| Profiles.Manager.ResolveMeshRadio | internal/profiles/manager.go:594-606 | the configured radio, or the mesh band's, or the AP's, which it is also when the read is not answered |
| Profiles.Manager.ResolveAPTargets | internal/profiles/manager.go:535-566 | the client APs; the main one alone when the read is not answered |
| Profiles.Manager.AuthorMesh | internal/profiles/manager.go:243-286 | stages the mesh and its pins, failing only for want of the radio to pin or of an answered call |
| Profiles.Manager.AuthorAPs | internal/profiles/manager.go:291-308 | the loop stages one section for each AP |
| Profiles.Manager.PruneStale | internal/profiles/manager.go:571-585 | exactly the secondary APs not asked for are deleted, whatever order the sections come in, and it fails only for want of an answered call |
| Profiles.Manager.EnableRadios | internal/profiles/manager.go:317-321 | fails only for want of a radio or of an answered call; the order of the map does not matter |
| Profiles.Manager.Prepare | internal/profiles/manager.go:197-327 | a run up to its first commit stages everything and commits nothing |
| Profiles.Manager.CommitLaunch | internal/profiles/manager.go:329-346 | the packages committed in order and the system reloaded, or stopped on the way |
| Profiles.Manager.BatmanFallback | internal/profiles/manager.go:377-423 | a bat0 that is up, or cannot be probed, is left alone; otherwise the mesh is on lan and the layer gone, or where it stopped |
| Profiles.Manager.VerifyBackhaul | internal/profiles/manager.go:430-479 | the recorded state, and that the mesh is removed exactly when every probe found it down, or where that stopped |
| Profiles.Manager.Poll | internal/profiles/manager.go:377-395 | up unless the probe answered down at every attempt |
| Profiles.Manager.Launch | internal/profiles/manager.go:197-346 | a run up to its first reload: what it leaves, why it fails and where it stops |
| Profiles.Manager.ApplyProfile | internal/profiles/manager.go:197-371 | all three layers a successful run leaves, with nothing written left unapplied, and the recorded state; that it fails only for want of a section, a radio or an answered call; and between which commit and which reload each failure stops |
| ProfileTheorems.PlanTwice | internal/profiles/manager.go:239-321 | writing, pruning, enabling, falling back and degrading by one plan twice is doing it once |
| ProfileTheorems.SamePlan | internal/profiles/manager.go:486-606 | the radios and APs chosen depend only on which radios have which band |
| ProfileTheorems.RunKeepsBands | internal/profiles/manager.go:239-321 | and a run changes neither |
| ProfileTheorems.ApplyProfileTwice | internal/profiles/manager.go:197-479 | for fixed answers of the probes and of the reads it can do without, a second successful run leaves staged, committed and running configuration unchanged, on every path |
| ProfileTheorems.CanAuthorAgain | internal/profiles/manager.go:197-327 | every write that found its section finds it in a second run |
| ProfileTheorems.FallBackAgainIff | internal/profiles/manager.go:402-423 | a run that fell back can be repeated if and only if every wired port's address can be read |
| ProfileReadback.ReapplyProfileIff | internal/profiles/manager.go:197-371 | applying again with other addresses changes nothing if and only if they agree on every wired port, or none is in use: without batman-adv or after a fallback |
| ProfileReadback.ReadBackProfileIff | internal/batman/mac.go:11-45 | when the second run reads back the addresses of the first, it changes nothing if and only if none is in use or every discriminator is zero |
| ProfileTheorems.ModeMeaning | internal/profiles/manager.go:402-479 | recorded as 802.11s, the running mesh is on lan or on the hard interface of a bat0 that is there; recorded as multi-AP with a mesh profile, the mesh is gone |
| ProfileTheorems.ApsConverge | internal/profiles/manager.go:288-315 | the running secondary APs are exactly those resolved, each with the radio, SSID and network asked for |
| ProfileTheorems.StandbyIsDisabled | internal/profiles/manager.go:250-262 | a routed mesh runs disabled exactly when it is a standby |
| ProfileContents.ApsAreSecured | internal/profiles/manager.go:289-305 | after a successful run every client AP runs with the profile's AP SSID, or the mesh's, and under WPA2 with the matching key, or open without one |
| ProfileContents.MeshIsSecured | internal/profiles/manager.go:243-268 | a mesh that stays runs on the mesh's radio, under SAE with the mesh key, or open without one |
| ProfileContents.MeshNetworkIs | internal/profiles/manager.go:221-249 | it is on batman-adv's hard interface exactly when that is enabled and not found down at every attempt, and on lan otherwise |
| ProfileContents.OutcomeIs | internal/profiles/manager.go:430-479 | the recorded state in terms of profile, standby and probe answers |
| ProfileContents.RadiosAreSet | internal/profiles/manager.go:272-321 | every radio in use is on, and the mesh's is pinned to the profile's channel and width |
| ProfileContents.RadiosInUse | internal/profiles/manager.go:237-310 | those are the mesh's radio and the APs' |
| ProfileContents.NodeIsNamed | internal/profiles/manager.go:323-327 | the node has the profile's name, or keeps its own |
| ProfileContents.MeshStateUntouched | internal/profiles/manager.go:250-262 | without batman-adv a run leaves the mesh's disabled option as it was |
| ProfileContents.OthersUntouched | internal/profiles/manager.go:72-80 | a run changes no wireless section but its own and the radios it uses |
| ProfileContents.ApRadioIs | internal/profiles/manager.go:486-502 | the explicit radio comes first, then the first of the profile's band, then the default |
| ProfileContents.MeshRadioIs | internal/profiles/manager.go:594-606 | the node's mesh radio comes first, then the first of the mesh band, then the AP's |
| ProfileContents.TargetsAre | internal/profiles/manager.go:535-566 | the first AP is omm_ap on the main radio, every other is omm_ap_ and a band asked for, on the first radio of that band |
| ProfileContents.BandIsServed | internal/profiles/manager.go:535-566 | and each band asked for that has a radio is served on its first one |
| ProfileContents.DefaultsAre | internal/profiles/manager.go:148-168 | the defaults of an empty configuration |
| Failover.Decide | internal/backhaul/switch.go:24-34 | a change exactly on a known carrier that differs from the current backhaul |
| Failover.Switcher.ObserveMesh | meshd/cmd/meshd/main.go:624-633 | what is observed, for each read that is not answered |
| Failover.Switcher.SetMesh | meshd/cmd/meshd/main.go:603-618 | how far the actuation gets, for each call that is not answered, half a reload included; an unreadable mesh counts as success |
| Failover.Switcher.Poll | internal/backhaul/switch.go:83-104 | one tick is the tick function, for all carrier readings and faults |
| Failover.Switcher.Follow | internal/backhaul/switch.go:72-112 | the loop over ticks and writes by others is the run function |
| Failover.TickSettles | internal/backhaul/switch.go:83-104 | after a clean tick with a known carrier a configured mesh is enabled if and only if the wire is down, on the running system too |
| Failover.TickSetsOption | internal/backhaul/switch.go:83-104 | on the option itself: after a clean tick with a known carrier a configured mesh has disabled "1" if and only if the wire is up, whatever was there before, and the running one too where the two agreed |
| Failover.TickSetsRunningOption | meshd/cmd/meshd/main.go:603-633 | the same for a running system that agrees on the option alone |
| Failover.ViewIs | meshd/cmd/meshd/main.go:624-633 | a configured mesh counts as off exactly when its option is "1"; without the option it is on |
| Failover.TickWritesNothingElse | meshd/cmd/meshd/main.go:603-618 | a tick writes no other option of any section |
| Failover.TickSettlesIff | internal/backhaul/switch.go:83-104 | with faults: exactly when the mesh section still ends up right |
| Failover.UnknownNeverSwitches | internal/backhaul/switch.go:24-34 | an unknown carrier changes no configuration |
| Failover.SwitchesBounded | internal/backhaul/switch.go:72-112 | over any run, with any faults, the switches are at most one more than carrier changes, flips by others and misread ticks |
| Failover.QuietSwitches | internal/backhaul/switch.go:72-112 | undisturbed, exactly one switch per carrier change, and one more if the first reading is not what it found |
| Failover.RetryIff | internal/backhaul/switch.go:65-71 | a failed switch is made good by later clean ticks if and only if it failed before anything was staged |
| Failover.StandingLoop | meshd/cmd/meshd/main.go:603-633 | a run in which one failed commit leaves the mesh running beside the wire for any number of clean ticks |
| HardifMac.LowByteStep | internal/batman/mac.go:43 | the low byte of FNV-1a evolves on its own |
| HardifMac.OneByteSeparates | internal/batman/mac.go:41-43 | names of one length that differ in one byte have different discriminators |
| HardifMac.UniqueHardifMac | internal/batman/mac.go:27-45 | succeeds if and only if the address parses, with the derived address printed |
| HardifMac.CollideIff | internal/batman/mac.go:27-45 | two ports of one base address collide if and only if their discriminators do |
| HardifMac.SiblingPortsDiffer | internal/batman/mac.go:17-18 | switch ports sharing a base address get different addresses |
| HardifMac.DerivedIsLocalUnicast | internal/batman/mac.go:14-16 | the result is locally administered unicast and never the globally administered input |
| HardifMac.DerivedOctets | internal/batman/mac.go:40-43 | flags in the first octet, the hash's low byte in the last, and the other four as they are |
| HardifMac.PublishedValues | internal/batman/mac.go:41-43 | the hash has the published values of 32-bit FNV-1a |
| HardifMac.DerivedInjective | internal/batman/mac.go:19-21 | different globally administered unicast inputs stay different |
| HardifMac.DerivedTwiceCollides | internal/batman/mac.go:27-45 | deriving from a derived address takes the discriminator out, for every port alike |
| HardifMac.PrintMacParses | internal/batman/mac.go:28-44 | a printed address parses back to itself |
| HardifMac.PrintedForm | internal/batman/mac.go:44 | six octets of two digits with colons between |
| HardifMac.OctetForm | internal/batman/mac.go:44 | the digits are lower-case hexadecimal, the high one first |
| HardifMac.ParsesIff | internal/batman/mac.go:28-39 | an address parses if and only if it has six parts that are hexadecimal octets, and those are its octets |
| SetupLabel.FromWifiUri | web/src/native/setupLabel.ts:52-90 | the scanner loop computes the fields |
| SetupLabel.ScanPrinted | web/src/native/setupLabel.ts:50-79 | any entries printed with escapes scan back to what they say |
| SetupLabel.MeaningOfDistinct | web/src/native/setupLabel.ts:52-79 | with distinct keys, in any order, each key has its value and there is no other |
| SetupLabel.LabelRoundTrip | web/src/native/setupLabel.ts:22-90 | for a non-empty SSID, any password and serial and any field order, a printed label parses to the credentials |
| SetupLabel.EveryValueSurvivesIff | web/src/native/setupLabel.ts:52-79 | every value survives if and only if the printer escapes `;` and the backslash |
| SetupLabel.PlainLabels | web/src/native/setupLabel.ts:22-32 | an empty label and one with separators but no known form are refused, and a bare token is an open network's SSID |
| SetupLabel.JsonLabels | web/src/native/setupLabel.ts:34-48 | an object yields its three members, trimmed, and is refused without an SSID or when it does not parse |
| SetupLabel.FieldsAre | web/src/native/setupLabel.ts:81-89 | of a URI's fields S, P and SN, or else SERIAL, are the credentials |
| SetupLabel.KeylessPart | web/src/native/setupLabel.ts:58-79 | a part with no colon is passed over |
| SetupLabel.OpenField | web/src/native/setupLabel.ts:64-79 | a last field needs no semicolon |
| SetupLabel.SchemeInAnyCase | web/src/native/setupLabel.ts:27 | the scheme is recognised in any case, and no other |

## Left out

- HTTP routing, JSON and ubus encoding, sockets, timers, logging and context cancellation: input and output.
- Hashing, signature checking, certificates and the issuing of a certificate in a reply: any function stands for the library's; a reply here carries status, Home and profile.
- Transient store errors: a failed transaction is an operation that stops there (`Abandon`), since a bbolt transaction rolls back.
- Uci.Client.Reload: the DHCP event is best-effort and its loss is no error; here a reload that succeeds delivers it.
- UCI's anonymous sections: `@device[0]` and `@system[0]` are section names here.
- UCI's own rules for an existing section: adding it gives it the requested type, deleting an absent one is an error, reading an unset list gives an empty one, and no section has an empty name.
- ProfileTheorems.ApplyProfileTwice: for fixed answers of the MAC reader; `ProfileReadback.ReadBackProfileIff` says what a reader that sees the first run's addresses does. It asks that no radio has the name of a mesh or AP section, and that the LAN bridge is there and none of bat0's sections.
- Storing the backhaul state: `ApplyProfile` returns it.
- Lifecycle.Handlers.AutoSelectHome: the ordering of candidate Homes; the recommended Home is a parameter, one of those stored.
- Lifecycle.Handlers.SetActiveHome: pushing the selected Home's profile afterwards, which is `Profiles.Manager.ApplyProfile`.
- SetupLabel.LabelRoundTrip: about the URI encoding; of a JSON label only the dispatch and the trimming of its three members are modelled.
- Web views, themes, native bridges, LEDs, environment parsing, sysfs and batctl parsing, discovery, the setup access point and the onboarding loop: thin, or only easy properties.
