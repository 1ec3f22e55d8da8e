/** The ids that C clients hold. Registries map ids to objects without owning them; the front end owns apps,
    an app its sessions, a session its manifests. A run is any sequence of API calls, with valid ids or not,
    that succeed or fail. Objects are numbered in the order they are made. */
module Handles {

  /** `list` is what the registry holds, `last` the last id given out. `issued` is a record of the object each
      id was given for. */
  datatype Registry = Registry(list: map<nat, nat>, last: nat, issued: map<nat, nat>)

  function Track(r: Registry, x: nat): Registry {
    Registry(r.list[r.last + 1 := x], r.last + 1, r.issued[r.last + 1 := x])
  }

  function Erase(r: Registry, id: nat): Registry {
    r.(list := r.list - {id})
  }

  /** An id is good if it is listed and its object is still there. */
  predicate Good(r: Registry, alive: set<nat>, id: nat) {
    id in r.list && r.list[id] in alive
  }

  /** A lookup drops an id whose object is gone. */
  function LookUp(r: Registry, alive: set<nat>, id: nat): Registry {
    if id in r.list && r.list[id] !in alive then Erase(r, id) else r
  }

  /** `sessions` and `manifests` give the owner of each, as long as that still holds it. `released` is a record
      of the apps whose ids were given back. */
  datatype State = State(apps: set<nat>, sessions: map<nat, nat>, manifests: map<nat, nat>, appIds: Registry,
                         sessionIds: Registry, manifestIds: Registry, next: nat, released: set<nat>)

  const NONE := Registry(map[], 0, map[])
  const INIT := State({}, map[], map[], NONE, NONE, NONE, 0, {})

  /** A session lives while its app owns it and the front end owns the app. */
  function LiveSessions(s: State): set<nat> {
    set x | x in s.sessions && s.sessions[x] in s.apps
  }

  function LiveManifests(s: State): set<nat> {
    set x | x in s.manifests && s.manifests[x] in LiveSessions(s)
  }

  predicate AppOk(s: State, id: nat) { Good(s.appIds, s.apps, id) }

  predicate SessionOk(s: State, id: nat) { Good(s.sessionIds, LiveSessions(s), id) }

  predicate ManifestOk(s: State, id: nat) { Good(s.manifestIds, LiveManifests(s), id) }

  // ---------------------------------------------------------------- the API

  /** A ship that fails early leaves the manifest with its session; one that fails late has already taken it
      from there. */
  datatype Outcome = Early | Late | Done

  datatype Event =
    | Launch
    | AppIsValid(id: nat, running: bool, cleaned: bool)
    | Deregister(id: nat, cleaned: bool)
    | Release(id: nat, ok: bool)
    | CreateSession(id: nat)
    | DestroySession(id: nat, ok: bool)
    | SessionIsValid(id: nat)
    | CreateManifest(id: nat)
    | ManifestIsValid(id: nat)
    | Ship(id: nat, outcome: Outcome)

  /** The app lets go of its sessions only if all of them could be cleaned up; the front end lets go of the app
      in any case. */
  function RemoveApp(s: State, id: nat, cleaned: bool): State
    requires id in s.appIds.list
  {
    var a := s.appIds.list[id];
    s.(apps := s.apps - {a},
       sessions := if cleaned then map x | x in s.sessions && s.sessions[x] != a :: s.sessions[x] else s.sessions,
       appIds := Erase(s.appIds, id))
  }

  function LookUpApp(s: State, id: nat): State {
    s.(appIds := LookUp(s.appIds, s.apps, id))
  }

  function LookUpSession(s: State, id: nat): State {
    s.(sessionIds := LookUp(s.sessionIds, LiveSessions(s), id))
  }

  function LookUpManifest(s: State, id: nat): State {
    s.(manifestIds := LookUp(s.manifestIds, LiveManifests(s), id))
  }

  function DropManifest(s: State, id: nat, outcome: Outcome): State
    requires id in s.manifestIds.list
  {
    match outcome
    case Early => s
    case Late => s.(manifests := s.manifests - {s.manifestIds.list[id]})
    case Done => s.(manifests := s.manifests - {s.manifestIds.list[id]}, manifestIds := Erase(s.manifestIds, id))
  }

  function Next(s: State, ev: Event): State {
    match ev
    case Launch => s.(apps := s.apps + {s.next}, appIds := Track(s.appIds, s.next), next := s.next + 1)
    case AppIsValid(id, running, cleaned) =>
      if AppOk(s, id) && !running then RemoveApp(s, id, cleaned) else LookUpApp(s, id)
    case Deregister(id, cleaned) => if AppOk(s, id) then RemoveApp(s, id, cleaned) else LookUpApp(s, id)
    case Release(id, ok) =>
      if ok
      then s.(appIds := Erase(s.appIds, id),
              released := if id in s.appIds.list then s.released + {id} else s.released)
      else s
    case CreateSession(id) =>
      if AppOk(s, id)
      then s.(sessions := s.sessions[s.next := s.appIds.list[id]], sessionIds := Track(s.sessionIds, s.next),
              next := s.next + 1)
      else LookUpApp(s, id)
    case DestroySession(id, ok) =>
      if SessionOk(s, id)
      then if ok then s.(sessions := s.sessions - {s.sessionIds.list[id]}, sessionIds := Erase(s.sessionIds, id)) else s
      else LookUpSession(s, id)
    case SessionIsValid(id) => LookUpSession(s, id)
    case CreateManifest(id) =>
      if SessionOk(s, id)
      then s.(manifests := s.manifests[s.next := s.sessionIds.list[id]], manifestIds := Track(s.manifestIds, s.next),
              next := s.next + 1)
      else LookUpSession(s, id)
    case ManifestIsValid(id) => LookUpManifest(s, id)
    case Ship(id, outcome) => if ManifestOk(s, id) then DropManifest(s, id, outcome) else LookUpManifest(s, id)
  }

  function After(s: State, es: seq<Event>): State
    decreases es
  {
    if es == [] then s else After(Next(s, es[0]), es[1..])
  }

  // ---------------------------------------------------------------- what every call keeps

  /** Ids are given out in order from 1, each for an object of its own, and a listed id still stands for the
      object it was given for. */
  predicate RegistryInv(r: Registry, next: nat) {
    && (forall id | id in r.issued :: 1 <= id <= r.last && r.issued[id] < next)
    && (forall id | 1 <= id <= r.last :: id in r.issued)
    && (forall i, j | i in r.issued && j in r.issued && i != j :: r.issued[i] != r.issued[j])
    && (forall id | id in r.list :: id in r.issued && r.list[id] == r.issued[id])
  }

  predicate ObjectsInv(s: State) {
    && (forall a | a in s.apps :: a < s.next)
    && (forall x | x in s.sessions :: x < s.next && s.sessions[x] < s.next)
    && (forall x | x in s.manifests :: x < s.next && s.manifests[x] < s.next)
  }

  /** No id is dropped while its object lives, apart from these. */
  predicate Listed(r: Registry, alive: set<nat>, except: set<nat>) {
    forall id | id in r.issued && r.issued[id] in alive :: id in r.list || id in except
  }

  /** The one exception is the id of an app that is released. */
  predicate Kept(s: State) {
    && Listed(s.appIds, s.apps, s.released)
    && (forall id | id in s.released :: id in s.appIds.issued && id !in s.appIds.list)
    && Listed(s.sessionIds, LiveSessions(s), {})
    && Listed(s.manifestIds, LiveManifests(s), {})
  }

  predicate RegistriesInv(s: State) {
    RegistryInv(s.appIds, s.next) && RegistryInv(s.sessionIds, s.next) && RegistryInv(s.manifestIds, s.next)
  }

  predicate Inv(s: State) {
    RegistriesInv(s) && ObjectsInv(s) && Kept(s)
  }

  /** What a call can do to a registry: nothing, drop an id, or give out the next one for a new object. */
  predicate RegistryStep(r: Registry, t: Registry, next: nat, after: nat) {
    || (t == r && next <= after)
    || (t.last == r.last && t.issued == r.issued && t.list.Keys <= r.list.Keys && next <= after
        && forall id | id in t.list :: t.list[id] == r.list[id])
    || (t == Track(r, next) && after == next + 1)
  }

  lemma RegistryStepInv(r: Registry, t: Registry, next: nat, after: nat)
    requires RegistryInv(r, next) && RegistryStep(r, t, next, after)
    ensures RegistryInv(t, after)
  {
  }

  lemma AppIdsStep(s: State, ev: Event)
    ensures RegistryStep(s.appIds, Next(s, ev).appIds, s.next, Next(s, ev).next)
  {
  }

  lemma SessionIdsStep(s: State, ev: Event)
    ensures RegistryStep(s.sessionIds, Next(s, ev).sessionIds, s.next, Next(s, ev).next)
  {
  }

  lemma ManifestIdsStep(s: State, ev: Event)
    ensures RegistryStep(s.manifestIds, Next(s, ev).manifestIds, s.next, Next(s, ev).next)
  {
  }

  lemma RegistriesStep(s: State, ev: Event)
    ensures var t := Next(s, ev);
            && RegistryStep(s.appIds, t.appIds, s.next, t.next)
            && RegistryStep(s.sessionIds, t.sessionIds, s.next, t.next)
            && RegistryStep(s.manifestIds, t.manifestIds, s.next, t.next)
  {
    AppIdsStep(s, ev);
    SessionIdsStep(s, ev);
    ManifestIdsStep(s, ev);
  }

  lemma RegistriesKept(s: State, ev: Event)
    requires RegistriesInv(s)
    ensures RegistriesInv(Next(s, ev))
  {
    var t := Next(s, ev);
    RegistriesStep(s, ev);
    RegistryStepInv(s.appIds, t.appIds, s.next, t.next);
    RegistryStepInv(s.sessionIds, t.sessionIds, s.next, t.next);
    RegistryStepInv(s.manifestIds, t.manifestIds, s.next, t.next);
  }

  lemma SessionObjectsKept(s: State, ev: Event)
    requires RegistriesInv(s) && ObjectsInv(s)
    ensures forall x | x in Next(s, ev).sessions :: x < Next(s, ev).next && Next(s, ev).sessions[x] < Next(s, ev).next
  {
  }

  lemma ManifestObjectsKept(s: State, ev: Event)
    requires RegistriesInv(s) && ObjectsInv(s)
    ensures forall x | x in Next(s, ev).manifests :: x < Next(s, ev).next && Next(s, ev).manifests[x] < Next(s, ev).next
  {
  }

  lemma ObjectsKept(s: State, ev: Event)
    requires RegistriesInv(s) && ObjectsInv(s)
    ensures ObjectsInv(Next(s, ev))
  {
    AppsGone(s, ev);
    SessionObjectsKept(s, ev);
    ManifestObjectsKept(s, ev);
    RegistriesStep(s, ev);
  }

  lemma AppsGone(s: State, ev: Event)
    ensures Next(s, ev).apps <= s.apps + {s.next}
  {
  }

  /** A session that is gone stays gone: its app does not come back, and neither does its place in it. */
  lemma SessionsGone(s: State, ev: Event)
    requires ObjectsInv(s)
    ensures LiveSessions(Next(s, ev)) <= LiveSessions(s) + {s.next}
    ensures s.next in LiveSessions(Next(s, ev)) ==> Next(s, ev).manifests == s.manifests
  {
    AppsGone(s, ev);
  }

  lemma ManifestsGone(s: State, ev: Event)
    requires ObjectsInv(s)
    ensures LiveManifests(Next(s, ev)) <= LiveManifests(s) + {s.next}
  {
    SessionsGone(s, ev);
    var t := Next(s, ev);
    forall x | x in LiveManifests(t) && x != s.next ensures x in LiveManifests(s)
    {
      assert x in s.manifests && t.manifests[x] == s.manifests[x];
    }
  }

  /** An id stays listed as long as only ids of dead objects are dropped. */
  lemma StaysListed(r: Registry, t: Registry, next: nat, after: nat, alive: set<nat>, now: set<nat>,
                    except: set<nat>, more: set<nat>)
    requires RegistryInv(r, next) && RegistryStep(r, t, next, after) && Listed(r, alive, except)
    requires now <= alive + {next} && except <= more
    requires forall id | id in r.list && id !in t.list :: r.list[id] !in now || id in more
    ensures Listed(t, now, more)
  {
  }

  lemma DroppedApps(s: State, ev: Event)
    ensures var t := Next(s, ev);
            && s.released <= t.released
            && forall id | id in s.appIds.list && id !in t.appIds.list :: s.appIds.list[id] !in t.apps || id in t.released
  {
  }

  lemma ReleasedUnlisted(s: State, ev: Event)
    requires RegistryInv(s.appIds, s.next)
    requires forall id | id in s.released :: id in s.appIds.issued && id !in s.appIds.list
    ensures var t := Next(s, ev); forall id | id in t.released :: id in t.appIds.issued && id !in t.appIds.list
  {
    match ev
    case Release(id, ok) =>
      assert id in s.appIds.list ==> id in s.appIds.issued;
    case _ =>
      assert Next(s, ev).released == s.released;
      RegistriesStep(s, ev);
  }

  lemma AppsListed(s: State, ev: Event)
    requires Inv(s)
    ensures var t := Next(s, ev);
            && Listed(t.appIds, t.apps, t.released)
            && forall id | id in t.released :: id in t.appIds.issued && id !in t.appIds.list
  {
    var t := Next(s, ev);
    RegistriesStep(s, ev);
    AppsGone(s, ev);
    DroppedApps(s, ev);
    ReleasedUnlisted(s, ev);
    StaysListed(s.appIds, t.appIds, s.next, t.next, s.apps, t.apps, s.released, t.released);
  }

  lemma DroppedSessions(s: State, ev: Event)
    ensures var t := Next(s, ev);
            forall id | id in s.sessionIds.list && id !in t.sessionIds.list :: s.sessionIds.list[id] !in LiveSessions(t)
  {
  }

  lemma DroppedManifests(s: State, ev: Event)
    ensures var t := Next(s, ev);
            forall id | id in s.manifestIds.list && id !in t.manifestIds.list ::
              s.manifestIds.list[id] !in LiveManifests(t)
  {
  }

  lemma SessionsListed(s: State, ev: Event)
    requires Inv(s)
    ensures Listed(Next(s, ev).sessionIds, LiveSessions(Next(s, ev)), {})
  {
    var t := Next(s, ev);
    RegistriesStep(s, ev);
    SessionsGone(s, ev);
    DroppedSessions(s, ev);
    StaysListed(s.sessionIds, t.sessionIds, s.next, t.next, LiveSessions(s), LiveSessions(t), {}, {});
  }

  lemma ManifestsListed(s: State, ev: Event)
    requires Inv(s)
    ensures Listed(Next(s, ev).manifestIds, LiveManifests(Next(s, ev)), {})
  {
    var t := Next(s, ev);
    RegistriesStep(s, ev);
    ManifestsGone(s, ev);
    DroppedManifests(s, ev);
    StaysListed(s.manifestIds, t.manifestIds, s.next, t.next, LiveManifests(s), LiveManifests(t), {}, {});
  }

  lemma NextInv(s: State, ev: Event)
    requires Inv(s)
    ensures Inv(Next(s, ev))
  {
    RegistriesKept(s, ev);
    ObjectsKept(s, ev);
    AppsListed(s, ev);
    SessionsListed(s, ev);
    ManifestsListed(s, ev);
  }

  lemma {:induction false} RunInv(s: State, es: seq<Event>)
    requires Inv(s)
    ensures Inv(After(s, es))
    decreases es
  {
    if es != [] {
      NextInv(s, es[0]);
      RunInv(Next(s, es[0]), es[1..]);
    }
  }

  // ---------------------------------------------------------------- what ids mean

  /** After every run, an id is good exactly when the object it was given for is still owned and so are its
      owners; for an app, when it was also not released. Zero is never good. */
  lemma GoodExactly(es: seq<Event>, id: nat)
    ensures var s := After(INIT, es);
            && (AppOk(s, id) <==> id in s.appIds.issued && s.appIds.issued[id] in s.apps && id !in s.released)
            && (SessionOk(s, id) <==> id in s.sessionIds.issued && s.sessionIds.issued[id] in LiveSessions(s))
            && (ManifestOk(s, id) <==> id in s.manifestIds.issued && s.manifestIds.issued[id] in LiveManifests(s))
            && (AppOk(s, id) || SessionOk(s, id) || ManifestOk(s, id) ==> id != 0)
  {
    RunInv(INIT, es);
  }

  predicate Continues(a: Registry, b: Registry) {
    && a.last <= b.last
    && (forall id | id in a.issued :: id in b.issued && b.issued[id] == a.issued[id])
    && (forall id | id in b.list && id <= a.last :: id in a.list)
  }

  lemma RegistryContinues(r: Registry, t: Registry, next: nat, after: nat)
    requires RegistryInv(r, next) && RegistryStep(r, t, next, after)
    ensures Continues(r, t)
  {
  }

  lemma StepContinues(s: State, ev: Event)
    requires Inv(s)
    ensures var t := Next(s, ev);
            && Continues(s.appIds, t.appIds) && Continues(s.sessionIds, t.sessionIds)
            && Continues(s.manifestIds, t.manifestIds)
  {
    var t := Next(s, ev);
    RegistriesStep(s, ev);
    RegistryContinues(s.appIds, t.appIds, s.next, t.next);
    RegistryContinues(s.sessionIds, t.sessionIds, s.next, t.next);
    RegistryContinues(s.manifestIds, t.manifestIds, s.next, t.next);
  }

  /** An id always stands for the object it was first given for, and one that was given out and is no longer
      good is never good again. */
  lemma {:induction false} NeverReused(s: State, es: seq<Event>, id: nat)
    requires Inv(s)
    ensures var t := After(s, es);
            && Continues(s.appIds, t.appIds) && Continues(s.sessionIds, t.sessionIds)
            && Continues(s.manifestIds, t.manifestIds)
            && (id <= s.appIds.last && AppOk(t, id) ==> AppOk(s, id))
            && (id <= s.sessionIds.last && SessionOk(t, id) ==> SessionOk(s, id))
            && (id <= s.manifestIds.last && ManifestOk(t, id) ==> ManifestOk(s, id))
    decreases es
  {
    if es != [] {
      var u := Next(s, es[0]);
      NextInv(s, es[0]);
      StepContinues(s, es[0]);
      StepStaysBad(s, es[0], id);
      NeverReused(u, es[1..], id);
    }
  }

  /** In one registry: an id that was given out and is good after a step was good before it. */
  lemma GoodWasGood(r: Registry, t: Registry, next: nat, after: nat, alive: set<nat>, now: set<nat>, id: nat)
    requires RegistryInv(r, next) && RegistryStep(r, t, next, after) && now <= alive + {next}
    requires id <= r.last && Good(t, now, id)
    ensures Good(r, alive, id)
  {
  }

  lemma StepStaysBad(s: State, ev: Event, id: nat)
    requires Inv(s)
    ensures id <= s.appIds.last && AppOk(Next(s, ev), id) ==> AppOk(s, id)
    ensures id <= s.sessionIds.last && SessionOk(Next(s, ev), id) ==> SessionOk(s, id)
    ensures id <= s.manifestIds.last && ManifestOk(Next(s, ev), id) ==> ManifestOk(s, id)
  {
    var t := Next(s, ev);
    RegistriesStep(s, ev);
    AppsGone(s, ev);
    SessionsGone(s, ev);
    ManifestsGone(s, ev);
    if id <= s.appIds.last && AppOk(t, id) {
      GoodWasGood(s.appIds, t.appIds, s.next, t.next, s.apps, t.apps, id);
    }
    if id <= s.sessionIds.last && SessionOk(t, id) {
      GoodWasGood(s.sessionIds, t.sessionIds, s.next, t.next, LiveSessions(s), LiveSessions(t), id);
    }
    if id <= s.manifestIds.last && ManifestOk(t, id) {
      GoodWasGood(s.manifestIds, t.manifestIds, s.next, t.next, LiveManifests(s), LiveManifests(t), id);
    }
  }

  // ---------------------------------------------------------------- what ends an id

  datatype Kind = AnApp | ASession | AManifest

  predicate Ok(s: State, kind: Kind, id: nat) {
    match kind
    case AnApp => AppOk(s, id)
    case ASession => SessionOk(s, id)
    case AManifest => ManifestOk(s, id)
  }

  /** The call makes the front end let go of an app: it is deregistered, or found not to run any more. */
  predicate RemovesApp(s: State, ev: Event, a: nat) {
    (ev.Deregister? || (ev.AppIsValid? && !ev.running)) && AppOk(s, ev.id) && s.appIds.list[ev.id] == a
  }

  /** The call makes an app let go of a session, which cleaning up must not prevent. */
  predicate RemovesSession(s: State, ev: Event, x: nat) {
    ev.DestroySession? && ev.ok && SessionOk(s, ev.id) && s.sessionIds.list[ev.id] == x
  }

  /** The call makes a session let go of a manifest. */
  predicate RemovesManifest(s: State, ev: Event, x: nat) {
    ev.Ship? && !ev.outcome.Early? && ManifestOk(s, ev.id) && s.manifestIds.list[ev.id] == x
  }

  /** The calls that end a good id: for each object one of its own, and those that end an owner of it. */
  predicate EndsId(s: State, ev: Event, kind: Kind, id: nat)
    requires Ok(s, kind, id)
  {
    match kind
    case AnApp => RemovesApp(s, ev, s.appIds.list[id]) || (ev.Release? && ev.ok && ev.id == id)
    case ASession =>
      var x := s.sessionIds.list[id];
      RemovesSession(s, ev, x) || RemovesApp(s, ev, s.sessions[x])
    case AManifest =>
      var m := s.manifestIds.list[id];
      var x := s.manifests[m];
      RemovesManifest(s, ev, m) || RemovesSession(s, ev, x) || RemovesApp(s, ev, s.sessions[x])
  }

  lemma AppLives(s: State, ev: Event, a: nat)
    requires a in s.apps
    ensures a in Next(s, ev).apps <==> !RemovesApp(s, ev, a)
  {
  }

  lemma SessionLives(s: State, ev: Event, x: nat)
    requires ObjectsInv(s) && x in LiveSessions(s)
    ensures x in LiveSessions(Next(s, ev)) <==> !RemovesSession(s, ev, x) && !RemovesApp(s, ev, s.sessions[x])
    ensures x in LiveSessions(Next(s, ev)) ==> Next(s, ev).sessions[x] == s.sessions[x]
  {
    AppLives(s, ev, s.sessions[x]);
  }

  lemma ManifestLives(s: State, ev: Event, m: nat)
    requires ObjectsInv(s) && m in LiveManifests(s)
    ensures var x := s.manifests[m];
            m in LiveManifests(Next(s, ev))
            <==> !RemovesManifest(s, ev, m) && !RemovesSession(s, ev, x) && !RemovesApp(s, ev, s.sessions[x])
  {
    SessionLives(s, ev, s.manifests[m]);
  }

  lemma GoodIsAlive(s: State, id: nat)
    requires Inv(s)
    ensures AppOk(s, id) <==> id in s.appIds.issued && s.appIds.issued[id] in s.apps && id !in s.released
    ensures SessionOk(s, id) <==> id in s.sessionIds.issued && s.sessionIds.issued[id] in LiveSessions(s)
    ensures ManifestOk(s, id) <==> id in s.manifestIds.issued && s.manifestIds.issued[id] in LiveManifests(s)
  {
  }

  lemma ReleasedBy(s: State, ev: Event, id: nat)
    requires AppOk(s, id) && id !in s.released
    ensures id in Next(s, ev).released <==> ev.Release? && ev.ok && ev.id == id
  {
  }

  lemma IdStep(s: State, ev: Event, kind: Kind, id: nat)
    requires Inv(s) && Ok(s, kind, id)
    ensures Ok(Next(s, ev), kind, id) <==> !EndsId(s, ev, kind, id)
  {
    NextInv(s, ev);
    StepContinues(s, ev);
    GoodIsAlive(s, id);
    GoodIsAlive(Next(s, ev), id);
    match kind
    case AnApp =>
      AppLives(s, ev, s.appIds.list[id]);
      ReleasedBy(s, ev, id);
    case ASession => SessionLives(s, ev, s.sessionIds.list[id]);
    case AManifest => ManifestLives(s, ev, s.manifestIds.list[id]);
  }

  /** No call of the run ends the id. */
  predicate NeverEnded(s: State, es: seq<Event>, kind: Kind, id: nat)
    decreases es
  {
    es == [] || (Ok(s, kind, id) && !EndsId(s, es[0], kind, id) && NeverEnded(Next(s, es[0]), es[1..], kind, id))
  }

  /** Over every run, whatever calls there are on other ids and whatever fails: a good id stays good exactly
      until a call ends it. In particular a session stays good through every failed attempt to destroy it. */
  lemma {:induction false} GoodUntilEnded(s: State, es: seq<Event>, kind: Kind, id: nat)
    requires Inv(s) && Ok(s, kind, id)
    ensures Ok(After(s, es), kind, id) <==> NeverEnded(s, es, kind, id)
    decreases es
  {
    if es != [] {
      var t := Next(s, es[0]);
      NextInv(s, es[0]);
      IdStep(s, es[0], kind, id);
      if Ok(t, kind, id) {
        GoodUntilEnded(t, es[1..], kind, id);
      } else {
        StepContinues(s, es[0]);
        NeverReused(t, es[1..], id);
      }
    }
  }

  // ---------------------------------------------------------------- ids by the calls alone

  /** The calls on its id by which an app goes. */
  predicate CallRemoves(ev: Event, app: nat) {
    (ev.Deregister? || (ev.AppIsValid? && !ev.running)) && ev.id == app
  }

  /** No call removes the app, as long as its id is not given back: after that no call can. */
  predicate StaysOwned(es: seq<Event>, app: nat)
    decreases es
  {
    es == [] || (!CallRemoves(es[0], app) && (es[0] == Release(app, true) || StaysOwned(es[1..], app)))
  }

  predicate AppStays(es: seq<Event>, app: nat) {
    Release(app, true) !in es && forall i | 0 <= i < |es| :: !CallRemoves(es[i], app)
  }

  predicate SessionStays(es: seq<Event>, app: nat, session: nat) {
    StaysOwned(es, app) && DestroySession(session, true) !in es
  }

  /** The session is the app's: the app this id was given for has it. */
  predicate SessionOf(s: State, app: nat, session: nat) {
    && app in s.appIds.issued && SessionOk(s, session)
    && s.sessions[s.sessionIds.list[session]] == s.appIds.issued[app]
  }

  predicate ManifestOf(s: State, app: nat, session: nat, manifest: nat) {
    && SessionOf(s, app, session) && ManifestOk(s, manifest)
    && s.manifests[s.manifestIds.list[manifest]] == s.sessionIds.list[session]
  }

  /** An app goes by a call on its own id, while that is good. */
  lemma RemovedById(s: State, ev: Event, app: nat)
    requires Inv(s) && app in s.appIds.issued
    ensures RemovesApp(s, ev, s.appIds.issued[app]) <==> CallRemoves(ev, app) && AppOk(s, app)
  {
  }

  lemma SessionById(s: State, ev: Event, session: nat)
    requires Inv(s) && SessionOk(s, session)
    ensures RemovesSession(s, ev, s.sessionIds.list[session]) <==> ev == DestroySession(session, true)
  {
    if ev.DestroySession? && SessionOk(s, ev.id) { SameObjectSameId(s.sessionIds, s.next, ev.id, session); }
  }

  lemma ManifestById(s: State, ev: Event, manifest: nat)
    requires Inv(s) && ManifestOk(s, manifest)
    ensures RemovesManifest(s, ev, s.manifestIds.list[manifest])
            <==> ev == Event.Ship(manifest, Late) || ev == Event.Ship(manifest, Done)
  {
    if ev.Ship? && ManifestOk(s, ev.id) { SameObjectSameId(s.manifestIds, s.next, ev.id, manifest); }
  }

  lemma SessionStep(s: State, ev: Event, app: nat, session: nat)
    requires Inv(s) && SessionOf(s, app, session)
    ensures SessionOk(Next(s, ev), session)
            <==> ev != DestroySession(session, true) && !(CallRemoves(ev, app) && AppOk(s, app))
    ensures SessionOk(Next(s, ev), session) ==> SessionOf(Next(s, ev), app, session)
  {
    IdStep(s, ev, ASession, session);
    RemovedById(s, ev, app);
    SessionById(s, ev, session);
    SessionLives(s, ev, s.sessionIds.list[session]);
    StepContinues(s, ev);
    NextInv(s, ev);
  }

  lemma ManifestOwnerStays(s: State, ev: Event, m: nat)
    requires ObjectsInv(s) && m in s.manifests && m in Next(s, ev).manifests
    ensures Next(s, ev).manifests[m] == s.manifests[m]
  {
  }

  lemma ManifestStep(s: State, ev: Event, app: nat, session: nat, manifest: nat)
    requires Inv(s) && ManifestOf(s, app, session, manifest)
    ensures ManifestOk(Next(s, ev), manifest)
            <==> SessionOk(Next(s, ev), session)
                 && ev != Event.Ship(manifest, Late) && ev != Event.Ship(manifest, Done)
    ensures ManifestOk(Next(s, ev), manifest) ==> ManifestOf(Next(s, ev), app, session, manifest)
  {
    IdStep(s, ev, AManifest, manifest);
    RemovedById(s, ev, app);
    SessionById(s, ev, session);
    ManifestById(s, ev, manifest);
    SessionStep(s, ev, app, session);
    StepContinues(s, ev);
    NextInv(s, ev);
    if ManifestOk(Next(s, ev), manifest) { ManifestOwnerStays(s, ev, s.manifestIds.list[manifest]); }
  }

  /** Once its id is given back, an app is never good again and nothing removes it. */
  lemma {:induction false} ReleasedSession(s: State, es: seq<Event>, app: nat, session: nat)
    requires Inv(s) && SessionOf(s, app, session) && !AppOk(s, app)
    ensures SessionOk(After(s, es), session) <==> DestroySession(session, true) !in es
    decreases es
  {
    if es != [] {
      SessionStep(s, es[0], app, session);
      NextInv(s, es[0]);
      StepStaysBad(s, es[0], app);
      FirstOrRest(es, DestroySession(session, true));
      if es[0] == DestroySession(session, true) {
        StepContinues(s, es[0]);
        NeverReused(Next(s, es[0]), es[1..], session);
      } else {
        ReleasedSession(Next(s, es[0]), es[1..], app, session);
      }
    }
  }

  lemma {:induction false} SessionUntil(s: State, es: seq<Event>, app: nat, session: nat)
    requires Inv(s) && SessionOf(s, app, session) && AppOk(s, app)
    ensures SessionOk(After(s, es), session) <==> SessionStays(es, app, session)
    decreases es
  {
    if es != [] {
      var t := Next(s, es[0]);
      SessionStep(s, es[0], app, session);
      NextInv(s, es[0]);
      FirstOrRest(es, DestroySession(session, true));
      if !SessionOk(t, session) {
        StepContinues(s, es[0]);
        NeverReused(t, es[1..], session);
      } else if es[0] == Release(app, true) {
        ReleasedSession(t, es[1..], app, session);
      } else {
        AppStep(s, es[0], app);
        SessionUntil(t, es[1..], app, session);
      }
    }
  }

  lemma AppStep(s: State, ev: Event, app: nat)
    requires Inv(s) && AppOk(s, app)
    ensures AppOk(Next(s, ev), app) <==> !CallRemoves(ev, app) && ev != Release(app, true)
  {
    IdStep(s, ev, AnApp, app);
    RemovedById(s, ev, app);
  }

  lemma AppStaysRest(es: seq<Event>, app: nat)
    requires es != []
    ensures AppStays(es, app) <==> !CallRemoves(es[0], app) && es[0] != Release(app, true) && AppStays(es[1..], app)
  {
    FirstOrRest(es, Release(app, true));
    assert forall i | 0 <= i < |es| - 1 :: es[1..][i] == es[i + 1];
    assert forall i | 1 <= i < |es| :: es[i] == es[1..][i - 1];
  }

  lemma {:induction false} AppUntil(s: State, es: seq<Event>, app: nat)
    requires Inv(s) && AppOk(s, app)
    ensures AppOk(After(s, es), app) <==> AppStays(es, app)
    decreases es
  {
    if es != [] {
      var t := Next(s, es[0]);
      AppStep(s, es[0], app);
      NextInv(s, es[0]);
      AppStaysRest(es, app);
      if AppOk(t, app) {
        AppUntil(t, es[1..], app);
      } else {
        StepContinues(s, es[0]);
        NeverReused(t, es[1..], app);
      }
    }
  }

  lemma {:induction false} SessionStaysOf(s: State, es: seq<Event>, app: nat, session: nat)
    requires Inv(s) && SessionOf(s, app, session) && SessionOk(After(s, es), session)
    ensures SessionOf(After(s, es), app, session)
    decreases es
  {
    if es != [] {
      SessionStep(s, es[0], app, session);
      NextInv(s, es[0]);
      StepContinues(s, es[0]);
      NeverReused(Next(s, es[0]), es[1..], session);
      SessionStaysOf(Next(s, es[0]), es[1..], app, session);
    }
  }

  predicate NeverShipped(es: seq<Event>, manifest: nat) {
    Event.Ship(manifest, Late) !in es && Event.Ship(manifest, Done) !in es
  }

  lemma {:induction false} ManifestUntil(s: State, es: seq<Event>, app: nat, session: nat, manifest: nat)
    requires Inv(s) && ManifestOf(s, app, session, manifest)
    ensures ManifestOk(After(s, es), manifest) <==> SessionOk(After(s, es), session) && NeverShipped(es, manifest)
    decreases es
  {
    if es != [] {
      var t := Next(s, es[0]);
      ManifestStep(s, es[0], app, session, manifest);
      NextInv(s, es[0]);
      FirstOrRest(es, Event.Ship(manifest, Late));
      FirstOrRest(es, Event.Ship(manifest, Done));
      if ManifestOk(t, manifest) {
        ManifestUntil(t, es[1..], app, session, manifest);
      } else {
        StepContinues(s, es[0]);
        NeverReused(t, es[1..], manifest);
        NeverReused(t, es[1..], session);
      }
    }
  }

  lemma {:induction false} AfterAppend(s: State, a: seq<Event>, ev: Event, b: seq<Event>)
    ensures After(s, a + [ev] + b) == After(Next(After(s, a), ev), b)
    decreases a
  {
    var all := a + [ev] + b;
    if a == [] {
      assert all == [ev] + b && all[1..] == b;
    } else {
      assert all[1..] == a[1..] + [ev] + b;
      AfterAppend(Next(s, a[0]), a[1..], ev, b);
    }
  }

  /** A launched app's id is good after every run of calls exactly when no call of it released, deregistered or
      found that app gone. */
  lemma AppIdExactly(s: State, es: seq<Event>)
    requires Inv(s)
    ensures var t := Next(s, Launch);
            AppOk(After(t, es), t.appIds.last) <==> AppStays(es, t.appIds.last)
  {
    NextInv(s, Launch);
    AppUntil(Next(s, Launch), es, Next(s, Launch).appIds.last);
  }

  lemma CreatesSession(s: State, app: nat)
    requires Inv(s) && AppOk(s, app)
    ensures var t := Next(s, CreateSession(app)); SessionOf(t, app, t.sessionIds.last) && AppOk(t, app)
  {
  }

  /** A session made for an app is good after every run of calls exactly when none of them destroyed it or, before
      the app's id was given back, removed that app. Calls on other ids do nothing to it. */
  lemma SessionIdExactly(s: State, app: nat, es: seq<Event>)
    requires Inv(s) && AppOk(s, app)
    ensures var t := Next(s, CreateSession(app));
            SessionOk(After(t, es), t.sessionIds.last) <==> SessionStays(es, app, t.sessionIds.last)
  {
    var t := Next(s, CreateSession(app));
    NextInv(s, CreateSession(app));
    CreatesSession(s, app);
    SessionUntil(t, es, app, t.sessionIds.last);
  }

  lemma CreatesManifest(s: State, app: nat, session: nat)
    requires Inv(s) && SessionOf(s, app, session)
    ensures var t := Next(s, CreateManifest(session)); ManifestOf(t, app, session, t.manifestIds.last)
  {
  }

  /** A manifest made in that session is good after every run of calls exactly when the session is still good, by
      the calls since that was made, and the manifest has not left it by a ship. */
  lemma ManifestIdExactly(s: State, app: nat, mid: seq<Event>, es: seq<Event>)
    requires Inv(s) && AppOk(s, app)
    requires var t := Next(s, CreateSession(app)); SessionOk(After(t, mid), t.sessionIds.last)
    ensures var t := Next(s, CreateSession(app));
            var session := t.sessionIds.last;
            var u := Next(After(t, mid), CreateManifest(session));
            ManifestOk(After(u, es), u.manifestIds.last)
            <==> SessionStays(mid + [CreateManifest(session)] + es, app, session)
                 && NeverShipped(es, u.manifestIds.last)
  {
    var t := Next(s, CreateSession(app));
    var session := t.sessionIds.last;
    var made := CreateManifest(session);
    NextInv(s, CreateSession(app));
    RunInv(t, mid);
    NextInv(After(t, mid), made);
    CreatesSession(s, app);
    SessionStaysOf(t, mid, app, session);
    CreatesManifest(After(t, mid), app, session);
    var u := Next(After(t, mid), made);
    ManifestUntil(u, es, app, session, u.manifestIds.last);
    SessionIdExactly(s, app, mid + [made] + es);
    AfterAppend(t, mid, made, es);
  }

  lemma FirstOrRest(es: seq<Event>, ev: Event)
    requires es != []
    ensures ev in es <==> ev == es[0] || ev in es[1..]
  {
    if ev in es {
      var i :| 0 <= i < |es| && es[i] == ev;
      if i > 0 { assert es[1..][i - 1] == ev; }
    }
  }

  /** Of two good apps, deregistering one ends a session that was made for it, and leaves one made for the other. */
  lemma SessionGoesWithItsApp(s: State, app: nat, other: nat, cleaned: bool)
    requires Inv(s) && AppOk(s, app) && AppOk(s, other)
    ensures var t := Next(s, CreateSession(app));
            SessionOk(Next(t, Deregister(other, cleaned)), t.sessionIds.last) <==> other != app
  {
    var t := Next(s, CreateSession(app));
    NextInv(s, CreateSession(app));
    CreatesSession(s, app);
    SessionStep(t, Deregister(other, cleaned), app, t.sessionIds.last);
  }

  /** And of two good sessions, destroying one ends a manifest that was made in it, and leaves one made in the
      other. */
  lemma ManifestGoesWithItsSession(s: State, session: nat, other: nat)
    requires Inv(s) && SessionOk(s, session) && SessionOk(s, other)
    ensures var t := Next(s, CreateManifest(session));
            ManifestOk(Next(t, DestroySession(other, true)), t.manifestIds.last) <==> other != session
  {
    var t := Next(s, CreateManifest(session));
    NextInv(s, CreateManifest(session));
    MadeInSession(s, session);
    DestroyExactly(t, other, t.manifestIds.last);
    SameObjectSameId(s.sessionIds, s.next, session, other);
  }

  lemma MadeInSession(s: State, session: nat)
    requires Inv(s) && SessionOk(s, session)
    ensures var t := Next(s, CreateManifest(session));
            && t.sessionIds == s.sessionIds && LiveSessions(t) == LiveSessions(s)
            && ManifestOk(t, t.manifestIds.last)
            && t.manifests[t.manifestIds.list[t.manifestIds.last]] == s.sessionIds.list[session]
  {
  }

  // ---------------------------------------------------------------- what calls do

  predicate Makes(ev: Event) {
    ev.Launch? || ev.CreateSession? || ev.CreateManifest?
  }

  lemma NothingIssued(s: State, ev: Event)
    requires !Makes(ev)
    ensures var t := Next(s, ev);
            && t.appIds.last == s.appIds.last && t.sessionIds.last == s.sessionIds.last
            && t.manifestIds.last == s.manifestIds.last
  {
  }

  /** A call that makes no object changes which ids are good by ending some, and in no other way. */
  lemma CallExactly(s: State, ev: Event, kind: Kind, id: nat)
    requires Inv(s) && !Makes(ev)
    ensures Ok(Next(s, ev), kind, id) <==> Ok(s, kind, id) && !EndsId(s, ev, kind, id)
  {
    if Ok(s, kind, id) {
      IdStep(s, ev, kind, id);
    } else {
      NextInv(s, ev);
      NothingIssued(s, ev);
      StepStaysBad(s, ev, id);
    }
  }

  lemma SameObjectSameId(r: Registry, next: nat, i: nat, j: nat)
    requires RegistryInv(r, next) && i in r.list && j in r.list
    ensures r.list[i] == r.list[j] <==> i == j
  {
  }

  /** Deregistering an app ends the app, its sessions and their manifests, and nothing else, whether cleaning up
      its sessions worked or not. */
  lemma DeregisterExactly(s: State, app: nat, cleaned: bool, id: nat)
    requires Inv(s) && AppOk(s, app)
    ensures var t, a := Next(s, Deregister(app, cleaned)), s.appIds.list[app];
            && (AppOk(t, id) <==> AppOk(s, id) && id != app)
            && (SessionOk(t, id) <==> SessionOk(s, id) && s.sessions[s.sessionIds.list[id]] != a)
            && (ManifestOk(t, id)
                <==> ManifestOk(s, id) && s.sessions[s.manifests[s.manifestIds.list[id]]] != a)
  {
    var ev := Deregister(app, cleaned);
    CallExactly(s, ev, AnApp, id);
    CallExactly(s, ev, ASession, id);
    CallExactly(s, ev, AManifest, id);
    if AppOk(s, id) { SameObjectSameId(s.appIds, s.next, id, app); }
  }

  /** Destroying a session ends it and its manifests. */
  lemma DestroyExactly(s: State, session: nat, id: nat)
    requires Inv(s) && SessionOk(s, session)
    ensures var t := Next(s, DestroySession(session, true));
            && (AppOk(t, id) <==> AppOk(s, id))
            && (SessionOk(t, id) <==> SessionOk(s, id) && id != session)
            && (ManifestOk(t, id)
                <==> ManifestOk(s, id) && s.manifests[s.manifestIds.list[id]] != s.sessionIds.list[session])
  {
    var ev := DestroySession(session, true);
    CallExactly(s, ev, AnApp, id);
    CallExactly(s, ev, ASession, id);
    CallExactly(s, ev, AManifest, id);
    if SessionOk(s, id) { SameObjectSameId(s.sessionIds, s.next, id, session); }
  }

  /** Shipping ends the manifest unless it fails early, even if it fails later. */
  lemma ShipExactly(s: State, manifest: nat, outcome: Outcome, id: nat)
    requires Inv(s) && ManifestOk(s, manifest)
    ensures var t := Next(s, Ship(manifest, outcome));
            && (AppOk(t, id) <==> AppOk(s, id))
            && (SessionOk(t, id) <==> SessionOk(s, id))
            && (ManifestOk(t, id) <==> ManifestOk(s, id) && (outcome.Early? || id != manifest))
  {
    var ev := Ship(manifest, outcome);
    CallExactly(s, ev, AnApp, id);
    CallExactly(s, ev, ASession, id);
    CallExactly(s, ev, AManifest, id);
    if ManifestOk(s, id) { SameObjectSameId(s.manifestIds, s.next, id, manifest); }
  }

  /** Releasing an app ends its id and nothing else: what it owns is still good. */
  lemma ReleaseExactly(s: State, app: nat, id: nat)
    requires Inv(s)
    ensures var t := Next(s, Release(app, true));
            && (AppOk(t, id) <==> AppOk(s, id) && id != app)
            && (SessionOk(t, id) <==> SessionOk(s, id))
            && (ManifestOk(t, id) <==> ManifestOk(s, id))
            && t.apps == s.apps
  {
    var ev := Release(app, true);
    CallExactly(s, ev, AnApp, id);
    CallExactly(s, ev, ASession, id);
    CallExactly(s, ev, AManifest, id);
  }

  lemma RemovedApps(s: State, ev: Event)
    ensures forall a | a in s.apps && a !in Next(s, ev).apps :: exists id :: id in s.appIds.list && s.appIds.list[id] == a
  {
  }

  lemma StepKeepsReleased(s: State, app: nat, ev: Event)
    requires Inv(s) && app in s.released && s.appIds.issued[app] in s.apps
    ensures app in Next(s, ev).released && s.appIds.issued[app] in Next(s, ev).apps
  {
    RemovedApps(s, ev);
    DroppedApps(s, ev);
  }

  /** And no later call can end the app: it stays owned for good. */
  lemma {:induction false} ReleasedStaysOwned(s: State, app: nat, es: seq<Event>)
    requires Inv(s) && app in s.released && s.appIds.issued[app] in s.apps
    ensures app in After(s, es).appIds.issued && After(s, es).appIds.issued[app] == s.appIds.issued[app]
    ensures s.appIds.issued[app] in After(s, es).apps
    decreases es
  {
    if es != [] {
      NextInv(s, es[0]);
      StepContinues(s, es[0]);
      StepKeepsReleased(s, app, es[0]);
      ReleasedStaysOwned(Next(s, es[0]), app, es[1..]);
    }
  }
}
