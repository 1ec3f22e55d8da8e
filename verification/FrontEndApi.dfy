/** The registries and owners as the front end updates them; each API call is one step of the handle state
    machine. An object that nothing owns is destroyed when the call that took it away returns. */
module FrontEndApi {
  import opened Handles
  import opened Options
  import Pick

  class RegistryObject {
    var list: map<nat, nat>
    var last: nat
    ghost var issued: map<nat, nat>

    constructor ()
      ensures Value() == NONE
    {
      list, last, issued := map[], 0, map[];
    }

    ghost function Value(): Registry
      reads this
    {
      Registry(list, last, issued)
    }

    method Add(x: nat) returns (id: nat)
      modifies this
      ensures Value() == Track(old(Value()), x) && id == last
    {
      last := last + 1;
      id := last;
      list := list[id := x];
      issued := issued[id := x];
    }

    method Remove(id: nat)
      modifies this`list
      ensures Value() == Erase(old(Value()), id)
    {
      list := list - {id};
    }

    /** The object of an id, if it is still there; an id whose object is gone is dropped. */
    method GetHandle(id: nat, alive: set<nat>) returns (x: Option<nat>)
      modifies this`list
      ensures Value() == LookUp(old(Value()), alive, id)
      ensures if Good(old(Value()), alive, id) then x == Some(list[id]) && Value() == old(Value()) else x == None
      ensures id in list ==> list[id] in alive
    {
      if id !in list { return None; }
      if list[id] in alive { return Some(list[id]); }
      Remove(id);
      x := None;
    }
  }

  /** None of the sessions of an app fails to be cleaned up. */
  predicate AllClean(sessions: map<nat, nat>, a: nat, failing: set<nat>) {
    forall x | x in sessions && sessions[x] == a :: x !in failing
  }

  class FrontEnd {
    var apps: set<nat>
    var sessions: map<nat, nat>
    var manifests: map<nat, nat>
    const appIds: RegistryObject
    const sessionIds: RegistryObject
    const manifestIds: RegistryObject
    var next: nat
    ghost var released: set<nat>

    ghost predicate Valid() {
      appIds != sessionIds && appIds != manifestIds && sessionIds != manifestIds
    }

    ghost function View(): State
      reads this, appIds, sessionIds, manifestIds
    {
      State(apps, sessions, manifests, appIds.Value(), sessionIds.Value(), manifestIds.Value(), next, released)
    }

    constructor ()
      ensures Valid() && View() == INIT
      ensures fresh(appIds) && fresh(sessionIds) && fresh(manifestIds)
    {
      apps, sessions, manifests, next, released := {}, map[], map[], 0, {};
      appIds := new RegistryObject();
      sessionIds := new RegistryObject();
      manifestIds := new RegistryObject();
    }

    function AliveSessions(): (r: set<nat>)
      reads this
    {
      set x | x in sessions && sessions[x] in apps
    }

    function AliveManifests(): (r: set<nat>)
      reads this
    {
      set x | x in manifests && manifests[x] in AliveSessions()
    }

    method Launch() returns (id: nat)
      requires Valid()
      modifies this, appIds
      ensures View() == Next(old(View()), Event.Launch) && AppOk(View(), id)
    {
      apps := apps + {next};
      id := appIds.Add(next);
      next := next + 1;
    }

    /** Cleans up the sessions of an app one by one, and lets go of them all if none fails. */
    method FinalizeApp(a: nat, failing: set<nat>) returns (cleaned: bool)
      modifies this`sessions
      ensures cleaned == AllClean(old(sessions), a, failing)
      ensures sessions == if cleaned then map x | x in old(sessions) && old(sessions)[x] != a :: old(sessions)[x]
                          else old(sessions)
    {
      var own := set x | x in sessions && sessions[x] == a;
      var todo := own;
      while todo != {}
        invariant todo <= own && sessions == old(sessions)
        invariant forall x | x in own - todo :: x !in failing
        decreases |todo|
      {
        var x := Pick.AnyOf(todo);
        if x in failing {
          assert x in old(sessions) && old(sessions)[x] == a;
          return false;
        }
        todo := todo - {x};
      }
      assert own - todo == own;
      sessions := map x | x in sessions && sessions[x] != a :: sessions[x];
      cleaned := true;
    }

    /** The front end lets go of the app whether it could be cleaned up or not. */
    method DeregisterApp(id: nat, failing: set<nat>) returns (ok: bool, ghost cleaned: bool)
      requires Valid()
      modifies this, appIds
      ensures View() == Next(old(View()), Deregister(id, cleaned)) && ok == AppOk(old(View()), id)
      ensures ok ==> cleaned == AllClean(old(sessions), old(appIds.list)[id], failing)
    {
      cleaned := true;
      var a := appIds.GetHandle(id, apps);
      if a.None? { return false, cleaned; }
      cleaned := FinalizeApp(a.value, failing);
      apps := apps - {a.value};
      appIds.Remove(id);
      ok := true;
    }

    method CheckApp(id: nat, running: bool, failing: set<nat>) returns (ok: bool, ghost cleaned: bool)
      requires Valid()
      modifies this, appIds
      ensures View() == Next(old(View()), AppIsValid(id, running, cleaned))
      ensures ok == (AppOk(old(View()), id) && running)
      ensures ok ==> AppOk(View(), id)
      ensures AppOk(old(View()), id) && !running
              ==> cleaned == AllClean(old(sessions), old(appIds.list)[id], failing)
    {
      cleaned := true;
      var a := appIds.GetHandle(id, apps);
      if a.None? { return false, cleaned; }
      if !running {
        cleaned := FinalizeApp(a.value, failing);
        apps := apps - {a.value};
        appIds.Remove(id);
        return false, cleaned;
      }
      ok := true;
    }

    /** `accepted` is the daemon's answer. The app stays with the front end. */
    method ReleaseApp(id: nat, accepted: bool) returns (ok: bool)
      requires Valid()
      modifies this`released, appIds
      ensures View() == Next(old(View()), Release(id, accepted)) && ok == accepted
    {
      if !accepted { return false; }
      released := if id in appIds.list then released + {id} else released;
      appIds.Remove(id);
      ok := true;
    }

    /** Zero stands for an error. */
    method NewSession(app: nat) returns (id: nat)
      requires Valid()
      modifies this`sessions, this`next, appIds, sessionIds
      ensures View() == Next(old(View()), CreateSession(app))
      ensures if AppOk(old(View()), app) then id == sessionIds.last && SessionOk(View(), id) else id == 0
    {
      var a := appIds.GetHandle(app, apps);
      if a.None? { return 0; }
      sessions := sessions[next := a.value];
      id := sessionIds.Add(next);
      next := next + 1;
    }

    /** A session that cannot be cleaned up stays. */
    method EndSession(id: nat, cleaned: bool) returns (ok: bool)
      requires Valid()
      modifies this`sessions, sessionIds
      ensures View() == Next(old(View()), DestroySession(id, cleaned))
      ensures ok == (SessionOk(old(View()), id) && cleaned)
    {
      var x := sessionIds.GetHandle(id, AliveSessions());
      if x.None? { return false; }
      if !cleaned { return false; }
      sessions := sessions - {x.value};
      sessionIds.Remove(id);
      ok := true;
    }

    method NewManifest(session: nat) returns (id: nat)
      requires Valid()
      modifies this`manifests, this`next, sessionIds, manifestIds
      ensures View() == Next(old(View()), CreateManifest(session))
      ensures if SessionOk(old(View()), session) then id == manifestIds.last && ManifestOk(View(), id) else id == 0
    {
      var x := sessionIds.GetHandle(session, AliveSessions());
      if x.None? { return 0; }
      manifests := manifests[next := x.value];
      id := manifestIds.Add(next);
      next := next + 1;
    }

    /** Sends a manifest, or starts a tool daemon with it. The id is dropped only if all went well. */
    method ShipManifest(id: nat, outcome: Outcome) returns (ok: bool)
      requires Valid()
      modifies this`manifests, manifestIds
      ensures View() == Next(old(View()), Ship(id, outcome))
      ensures ok == (ManifestOk(old(View()), id) && outcome.Done?)
    {
      var x := manifestIds.GetHandle(id, AliveManifests());
      if x.None? || outcome.Early? { return false; }
      manifests := manifests - {x.value};
      if outcome.Late? { return false; }
      manifestIds.Remove(id);
      ok := true;
    }
  }
}
