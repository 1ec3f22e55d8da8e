/** Releasing an app, seen from the client's ids and the daemon's tables together. Every app has an id with the
    client and one with the daemon. All requests carry the daemon's id of the app, except a release, which
    carries the client's. */
module ReleaseIds {
  import Api = Handles
  import Daemon = FrontendDaemon
  import History = DaemonHistory

  /** `ids` is the daemon's id of each app. `wasted` counts the ids the daemon gave out that no app has, because
      the launch failed afterwards; `before` is a record of that count when each app was made. */
  datatype State = State(api: Api.State, daemon: Daemon.State, ids: map<nat, int>, wasted: nat, before: map<nat, nat>)

  const INIT := State(Api.INIT, Daemon.START, map[], 0, map[])

  datatype Event =
    | NewApp(e: Daemon.Event)
    | Wasted(e: Daemon.Event)
    | Other(e: Daemon.Event)
    | Call(call: Api.Event)
    | ReleaseApp(id: nat)

  /** The daemon gives out an id. */
  ghost predicate Issues(d: Daemon.State, e: Daemon.Event) {
    Daemon.Enabled(d, e) && History.Registers(e) && Daemon.Registrable(d, e.pid)
  }

  /** The rest of what client and daemon do is left open: the requests a call makes are steps of the daemon
      beside it. */
  ghost predicate Enabled(s: State, ev: Event) {
    match ev
    case NewApp(e) => Issues(s.daemon, e) && (e.RegisterApp? || e.gotTable)
    case Wasted(e) => Issues(s.daemon, e)
    case Other(e) => Daemon.Enabled(s.daemon, e) && !Issues(s.daemon, e)
    case Call(call) => !call.Launch? && !call.Release?
    case ReleaseApp(id) => Daemon.Enabled(s.daemon, Daemon.Release(id))
  }

  ghost function Next(s: State, ev: Event): State
    requires Enabled(s, ev)
  {
    match ev
    case NewApp(e) =>
      State(Api.Next(s.api, Api.Launch), Daemon.Next(s.daemon, e), s.ids[s.api.next := s.daemon.lastId + 1], s.wasted,
            s.before[s.api.next := s.wasted])
    case Wasted(e) => s.(daemon := Daemon.Next(s.daemon, e), wasted := s.wasted + 1)
    case Other(e) => s.(daemon := Daemon.Next(s.daemon, e))
    case Call(call) => s.(api := Api.Next(s.api, call))
    case ReleaseApp(id) =>
      s.(api := Api.Next(s.api, Api.Release(id, id in s.daemon.idPid)),
         daemon := Daemon.Next(s.daemon, Daemon.Release(id)))
  }

  ghost predicate Run(s: State, es: seq<Event>)
    decreases es
  {
    es == [] || (Enabled(s, es[0]) && Run(Next(s, es[0]), es[1..]))
  }

  ghost function After(s: State, es: seq<Event>): State
    requires Run(s, es)
    decreases es
  {
    if es == [] then s else After(Next(s, es[0]), es[1..])
  }

  // ---------------------------------------------------------------- how the two ids go together

  /** The daemon's id of an app is the client's, and as much more as ids had been wasted. */
  ghost predicate InStep(api: Api.Registry, ids: map<nat, int>, before: map<nat, nat>) {
    forall c | c in api.issued ::
      api.issued[c] in ids && api.issued[c] in before && ids[api.issued[c]] == c + before[api.issued[c]]
  }

  ghost predicate Inv(s: State) {
    && Api.Inv(s.api) && Daemon.Inv(s.daemon)
    && s.daemon.lastId == s.api.appIds.last + s.wasted
    && InStep(s.api.appIds, s.ids, s.before)
  }

  lemma DaemonIds(d: Daemon.State, e: Daemon.Event)
    requires Daemon.Enabled(d, e)
    ensures Daemon.Next(d, e).lastId == if Issues(d, e) then d.lastId + 1 else d.lastId
  {
    History.NextMaps(d, e);
  }

  lemma ApiIds(s: Api.State, ev: Api.Event)
    ensures var t := Api.Next(s, ev);
            if ev.Launch? then t.appIds == Api.Track(s.appIds, s.next)
            else t.appIds.last == s.appIds.last && t.appIds.issued == s.appIds.issued
  {
  }

  lemma NewObject(r: Api.Registry, x: nat)
    requires Api.RegistryInv(r, x)
    ensures x !in r.issued.Values
  {
  }

  lemma OneMoreApp(r: Api.Registry, x: nat, ids: map<nat, int>, before: map<nat, nat>, wasted: nat)
    requires x !in r.issued.Values && InStep(r, ids, before)
    ensures InStep(Api.Track(r, x), ids[x := r.last + wasted + 1], before[x := wasted])
  {
    var t := Api.Track(r, x);
    assert forall c | c in r.issued :: r.issued[c] in r.issued.Values;
  }

  lemma NewAppIds(s: State, e: Daemon.Event)
    requires Inv(s) && Enabled(s, NewApp(e))
    ensures var t := Next(s, NewApp(e));
            t.daemon.lastId == t.api.appIds.last + t.wasted && InStep(t.api.appIds, t.ids, t.before)
  {
    DaemonIds(s.daemon, e);
    ApiIds(s.api, Api.Launch);
    NewObject(s.api.appIds, s.api.next);
    OneMoreApp(s.api.appIds, s.api.next, s.ids, s.before, s.wasted);
  }

  lemma NewAppInv(s: State, e: Daemon.Event)
    requires Inv(s) && Enabled(s, NewApp(e))
    ensures Inv(Next(s, NewApp(e)))
  {
    NewAppIds(s, e);
    Daemon.NextInv(s.daemon, e);
    Api.NextInv(s.api, Api.Launch);
  }

  lemma DaemonInv(s: State, ev: Event)
    requires Inv(s) && Enabled(s, ev) && (ev.Wasted? || ev.Other?)
    ensures Inv(Next(s, ev))
  {
    DaemonIds(s.daemon, ev.e);
    Daemon.NextInv(s.daemon, ev.e);
  }

  lemma CallInv(s: State, call: Api.Event)
    requires Inv(s) && !call.Launch?
    ensures Inv(s.(api := Api.Next(s.api, call)))
  {
    ApiIds(s.api, call);
    Api.NextInv(s.api, call);
  }

  lemma ReleaseInv(s: State, id: nat)
    requires Inv(s) && Enabled(s, ReleaseApp(id))
    ensures Inv(Next(s, ReleaseApp(id)))
  {
    var accepted := id in s.daemon.idPid;
    CallInv(s, Api.Release(id, accepted));
    DaemonIds(s.daemon, Daemon.Release(id));
    Daemon.NextInv(s.daemon, Daemon.Release(id));
  }

  lemma NextInv(s: State, ev: Event)
    requires Inv(s) && Enabled(s, ev)
    ensures Inv(Next(s, ev))
  {
    match ev
    case NewApp(e) => NewAppInv(s, e);
    case Wasted(e) => DaemonInv(s, ev);
    case Other(e) => DaemonInv(s, ev);
    case Call(call) => CallInv(s, call);
    case ReleaseApp(id) => ReleaseInv(s, id);
  }

  lemma {:induction false} RunInv(s: State, es: seq<Event>)
    requires Inv(s) && Run(s, es)
    ensures Inv(After(s, es))
    decreases es
  {
    if es != [] {
      NextInv(s, es[0]);
      RunInv(Next(s, es[0]), es[1..]);
    }
  }

  // ---------------------------------------------------------------- what a release lets go of

  lemma ReleaseForgets(d: Daemon.State, id: int)
    requires Daemon.Enabled(d, Daemon.Release(id))
    ensures Daemon.Next(d, Daemon.Release(id)).idPid == d.idPid - {id}
  {
    History.NextMaps(d, Daemon.Release(id));
  }

  /** The two ids of an app the client holds. */
  ghost predicate IdsOf(s: State, c: nat) {
    && c in s.api.appIds.list
    && var a := s.api.appIds.list[c];
       a in s.ids && a in s.before && s.ids[a] == c + s.before[a]
  }

  lemma InStepOf(s: State, c: nat)
    requires Inv(s) && Api.AppOk(s.api, c)
    ensures IdsOf(s, c)
  {
    assert c in s.api.appIds.issued && s.api.appIds.issued[c] == s.api.appIds.list[c];
  }

  lemma RunIdsOf(es: seq<Event>, c: nat)
    requires Run(INIT, es) && Api.AppOk(After(INIT, es).api, c)
    ensures IdsOf(After(INIT, es), c)
  {
    RunInv(INIT, es);
    InStepOf(After(INIT, es), c);
  }

  /** The daemon lets go of the app the client releases. */
  ghost predicate LetsGoOf(s: State, c: nat, own: int)
    requires Enabled(s, ReleaseApp(c))
  {
    own !in Next(s, ReleaseApp(c)).daemon.idPid
  }

  lemma LetsGoExactly(s: State, c: nat, own: int)
    requires Enabled(s, ReleaseApp(c)) && own in s.daemon.idPid
    ensures LetsGoOf(s, c, own) <==> own == c
  {
    ReleaseForgets(s.daemon, c);
  }

  /** After every run: releasing an app the client holds and the daemon knows makes the daemon let go of that app
      exactly when its two ids are equal, which is when no daemon id had been wasted before the app was made.
      Otherwise the daemon keeps tracking it. */
  lemma ReleasesOwnExactly(es: seq<Event>, c: nat)
    requires Run(INIT, es) && Enabled(After(INIT, es), ReleaseApp(c)) && Api.AppOk(After(INIT, es).api, c)
    ensures var s := After(INIT, es);
            var a := s.api.appIds.list[c];
            && a in s.ids && a in s.before
            && (s.ids[a] == c <==> s.before[a] == 0)
            && (s.ids[a] in s.daemon.idPid ==> (LetsGoOf(s, c, s.ids[a]) <==> s.before[a] == 0))
  {
    RunIdsOf(es, c);
    var s := After(INIT, es);
    var own := s.ids[s.api.appIds.list[c]];
    if own in s.daemon.idPid { LetsGoExactly(s, c, own); }
  }

  lemma {:induction false} RunOnce(s: State, es: seq<Event>, t: State, ev: Event)
    requires Run(s, es) && After(s, es) == t && Enabled(t, ev)
    ensures Run(s, es + [ev]) && After(s, es + [ev]) == Next(t, ev)
    decreases es
  {
    if es == [] {
      assert [ev][1..] == [];
      assert es + [ev] == [ev];
    } else {
      assert (es + [ev])[1..] == es[1..] + [ev];
      RunOnce(Next(s, es[0]), es[1..], t, ev);
    }
  }

  /** The daemon after an attach to p that came to nothing and a launch of q that worked. */
  ghost function Mismatched(p: int, q: int): Daemon.State {
    Daemon.State(2, map[1 := p, 2 := q], map[p := 1, q := 2], map[q := Daemon.Term], map[], {2}, multiset{}, Daemon.Idle,
                 [Daemon.MpirHeld(2), Daemon.AppWatched(q)])
  }

  lemma LaunchesMismatch(p: int, q: int)
    requires 0 < p && 0 < q && p != q
    ensures var d0 := Daemon.START;
            var e1, e2 := Daemon.AttachMpir(p, false), Daemon.LaunchMpir(q, true);
            && Issues(d0, e1)
            && var d1 := Daemon.Next(d0, e1);
               && Issues(d1, e2) && d1.lastId == 1
               && var d2 := Daemon.Next(d1, e2);
                  && Daemon.Enabled(d2, Daemon.WatchLauncher) && d2.lastId == 2
                  && Daemon.Next(d2, Daemon.WatchLauncher) == Mismatched(p, q)
  {
  }

  /** An attach to p comes to nothing, then q is launched: it is app 1 for the client and 2 for the daemon. After
      the client releases it, q is still on the daemon's list of what to terminate. */
  lemma ReleaseMisses(p: int, q: int) returns (es: seq<Event>)
    requires 0 < p && 0 < q && p != q
    ensures Run(INIT, es) && es != [] && es[|es| - 1] == ReleaseApp(1)
    ensures var t := After(INIT, es); !Api.AppOk(t.api, 1) && 2 in t.daemon.idPid && q in t.daemon.cleanup
  {
    LaunchesMismatch(p, q);
    var e1, e2 := Wasted(Daemon.AttachMpir(p, false)), NewApp(Daemon.LaunchMpir(q, true));
    var e3, e4 := Other(Daemon.WatchLauncher), ReleaseApp(1);
    var s1 := Next(INIT, e1);
    RunOnce(INIT, [], INIT, e1);
    var s2 := Next(s1, e2);
    RunOnce(INIT, [] + [e1], s1, e2);
    var s3 := Next(s2, e3);
    RunOnce(INIT, [] + [e1] + [e2], s2, e3);
    assert s3.daemon == Mismatched(p, q);
    RunOnce(INIT, [] + [e1] + [e2] + [e3], s3, e4);
    es := [] + [e1] + [e2] + [e3] + [e4];
    ReleaseForgets(s3.daemon, 1);
    assert p !in s3.daemon.cleanup;
  }
}
