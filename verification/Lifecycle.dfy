/**
 The handlers that delete and select Homes (internal/api/lifecycle.go,
 internal/api/activehome.go) and the boot-time selection of
 meshd/cmd/meshd/main.go, and the promise their guards are for: the active-home
 setting never dangles.
 */
module Lifecycle {
  import opened Wrappers
  import opened Models
  import opened Storage
  import D = Database

  datatype Status = Okay | NoContent | BadRequest | Missing | Conflict

  // The active Home is unset or stored.
  ghost predicate ActiveStored(db: D.Db) {
    db.settings.activeHome == "" || db.settings.activeHome in db.homes
  }

  // Each guard is exactly what its transaction needs at the moment it commits.
  lemma DeleteHomeKeepsActiveIff(db: D.Db, id: string)
    requires ActiveStored(db) && D.DeleteHome(db, id).Ok?
    ensures ActiveStored(D.DeleteHome(db, id).value) <==> db.settings.activeHome != id || id == ""
  {
  }

  lemma SetActiveHomeKeepsActiveIff(db: D.Db, id: string)
    ensures ActiveStored(D.SetActiveHome(db, id)) <==> id == "" || id in db.homes
  {
  }

  // The guards read in their own transactions. When both handlers have passed
  // them before either writes, the setting dangles.
  lemma RacingHandlersDangle()
    ensures exists db: D.Db, id: string ::
      && D.Keyed(db) && ActiveStored(db)
      && id in db.homes && db.settings.activeHome != id  // both guards pass
      && D.DeleteHome(db, id).Ok?
      && !ActiveStored(D.SetActiveHome(D.DeleteHome(db, id).value, id))
  {
    var db := D.EMPTY.(homes := map["h" := Home("h", "", "", "", [], 0)]);
    assert D.DeleteHome(db, "h").Ok? && D.Keyed(db) && ActiveStored(db);
    assert D.DeleteHome(db, "h").value.homes == map[];
  }

  class Handlers {
    const store: Store

    constructor (store: Store)
      ensures this.store == store
    {
      this.store := store;
    }

    method DeleteHome(id: string) returns (status: Status)
      requires store.Valid()
      modifies store
      ensures store.Valid()
      ensures old(ActiveStored(store.Contents())) ==> ActiveStored(store.Contents())
      ensures status == Conflict <==> old(store.settings.activeHome) == id
      ensures status == Missing <==> old(store.settings.activeHome) != id && old(id !in store.homes)
      ensures status in {Conflict, Missing, NoContent}
      ensures if status == NoContent
              then D.DeleteHome(old(store.Contents()), id) == Ok(store.Contents())
              else store.Contents() == old(store.Contents())
    {
      var active := store.GetActiveHome();
      if active == id {
        return Conflict;
      }
      var r := store.DeleteHome(id);
      status := if r.Err? then Missing else NoContent;
    }

    method DeleteNode(id: string) returns (status: Status)
      requires store.Valid()
      modifies store
      ensures store.Valid()
      ensures old(ActiveStored(store.Contents())) ==> ActiveStored(store.Contents())
      ensures status == if old(id in store.nodes) then NoContent else Missing
      ensures status == NoContent ==> id !in store.nodes && id !in store.byNode
      ensures status == Missing ==> store.Contents() == old(store.Contents())
    {
      var r := store.DeleteNode(id);
      status := if r.Err? then Missing else NoContent;
    }

    method Reset() returns (status: Status)
      modifies store
      ensures store.Valid() && store.Contents() == D.EMPTY && ActiveStored(store.Contents())
      ensures status == NoContent
    {
      store.Reset();
      status := NoContent;
    }

    // Selecting a Home; the profile is pushed to the device afterwards.
    method SetActiveHome(id: string) returns (status: Status)
      requires store.Valid()
      modifies store
      ensures store.Valid()
      ensures old(ActiveStored(store.Contents())) ==> ActiveStored(store.Contents())
      ensures status == if id == "" then BadRequest else if id !in old(store.homes) then Missing else Okay
      ensures status == Okay ==> store.settings == old(store.settings).(activeHome := id) && store.homes == old(store.homes)
      ensures if status == Okay
              then store.Contents() == D.SetActiveHome(old(store.Contents()), id)
              else store.Contents() == old(store.Contents())
    {
      if id == "" {
        return BadRequest;
      }
      var r := store.GetHome(id);
      if r.Err? {
        return Missing;
      }
      store.SetActiveHome(id);
      status := Okay;
    }

    // Boot: activates the recommended Home, one of those stored, when none is
    // active. An operator's selection is never overridden.
    method AutoSelectHome(recommended: string)
      requires store.Valid()
      requires store.homes != map[] ==> recommended in store.homes
      modifies store
      ensures store.Valid()
      ensures old(ActiveStored(store.Contents())) ==> ActiveStored(store.Contents())
      ensures store.Contents() == if old(store.settings.activeHome) != "" || old(store.homes) == map[]
                                  then old(store.Contents())
                                  else D.SetActiveHome(old(store.Contents()), recommended)
    {
      var active := store.GetActiveHome();
      if active != "" || store.homes == map[] {
        return;
      }
      store.SetActiveHome(recommended);
    }
  }
}
