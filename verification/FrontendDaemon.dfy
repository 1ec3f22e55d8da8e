/** The frontend daemon: the process that remembers every application and utility a tool started, so
    that none of them outlives it.

    Requests come from one client, one at a time. SIGCHLD handlers run between the steps of a request
    and only schedule the erasure of an application's utilities, which happens later, on another thread.
    The log is the history the promises are stated over; nothing reads it. */
module FrontendDaemon {

  datatype Signal = Term | Kill

  datatype Leaving = Exited | Terminated | LetGo

  datatype Ending = Released | Waited | Killed

  datatype Entry =
    | UtilRegistered(app: int, pid: int, sig: Signal)
    | UtilsSignalled(app: int, sent: map<int, Signal>)
    | AppWatched(pid: int)
    | AppsLeft(pids: set<int>, how: Leaving)
    | MpirHeld(id: int)
    | MpirEnded(id: int, ending: Ending)
    | MpirRead(id: int)

  /** An erasure of one application's utilities that has been handed to another thread. `own` marks the
      one a deregistration starts and waits for; the others come from the SIGCHLD handler. */
  datatype Task = Task(app: int, own: bool)

  /** Where the main thread is. `Launching` has registered a launcher and not yet put it on the cleanup
      list; `Unlinked` has forgotten an application and not yet terminated it; `Joining` waits for its
      erasure task; `Stopping` has left the request loop. */
  datatype Main =
    | Idle
    | Launching(id: int, pid: int)
    | Unlinked(id: int, pid: int)
    | Joining(id: int)
    | Stopping

  datatype State = State(
    lastId: nat,
    idPid: map<int, int>,
    pidId: map<int, int>,
    cleanup: map<int, Signal>,
    utils: map<int, map<int, Signal>>,
    mpir: set<int>,
    pending: multiset<Task>,
    main: Main,
    log: seq<Entry>)

  const START := State(0, map[], map[], map[], map[], {}, multiset{}, Idle, [])

  datatype Event =
    | RegisterApp(pid: int)
    | RegisterUtil(app: int, pid: int, sig: Signal)
    | AttachMpir(pid: int, gotTable: bool)
    | LaunchMpir(pid: int, gotTable: bool)
    | WatchLauncher
    | Unlink(app: int)
    | TerminateApp
    | Join
    | Release(app: int)
    | EndMpir(id: int, ending: Ending, ok: bool)
    | ReadMpir(id: int, ok: bool)
    | ChildExit(pid: int)
    | RunTask(task: Task)
    | Stop
    | ClearUtils(app: int)
    | ClearApps

  // ---------------------------------------------------------------- steps

  function Tracked(s: State, a: int): map<int, Signal> {
    if a in s.utils then s.utils[a] else map[]
  }

  /** A pid may get an id: pid 0 stands for a remote application and may be registered any number of times. */
  predicate Registrable(s: State, pid: int) {
    pid == 0 || pid !in s.pidId
  }

  function Registered(s: State, pid: int): State {
    var id := s.lastId + 1;
    s.(lastId := id, idPid := s.idPid[id := pid], pidId := if pid == 0 then s.pidId else s.pidId[pid := id])
  }

  /** Destroying an application's utility set signals every process in it. */
  function UtilsErased(s: State, a: int): State {
    if a in s.utils then s.(utils := s.utils - {a}, log := s.log + [UtilsSignalled(a, s.utils[a])]) else s
  }

  function Forgotten(s: State, a: int): State
    requires a in s.idPid
  {
    var pid := s.idPid[a];
    s.(idPid := s.idPid - {a}, pidId := if pid > 0 then s.pidId - {pid} else s.pidId)
  }

  function Left(s: State, pid: int, how: Leaving): State {
    if pid in s.cleanup then s.(cleanup := s.cleanup - {pid}, log := s.log + [AppsLeft({pid}, how)]) else s
  }

  /** An instance is given up before it is waited for, and killed before it is given up: a kill that fails leaves
      it held. `ok` is whether the instance does what it is asked. */
  predicate EndsMpir(s: State, id: int, ending: Ending, ok: bool) {
    id in s.mpir && (ending.Killed? ==> ok)
  }

  function Held(s: State, pid: int): State {
    var t := Registered(s, pid);
    t.(mpir := t.mpir + {t.lastId}, log := t.log + [MpirHeld(t.lastId)])
  }

  /** Requests are served only while the main thread is idle in its loop; the other steps belong to the
      request in progress, to the threads it or the handler started, or to the end of the process. The
      pid of a launcher the daemon itself started is positive, and the handler ignores pids below 2. */
  predicate Enabled(s: State, e: Event) {
    match e
    case WatchLauncher => s.main.Launching?
    case TerminateApp => s.main.Unlinked?
    case Join => s.main.Joining? && Task(s.main.id, true) !in s.pending
    case ChildExit(pid) => pid > 1
    case RunTask(task) => task in s.pending
    case ClearUtils(_) => s.main.Stopping?
    case ClearApps => s.main.Stopping?
    case LaunchMpir(pid, _) => s.main.Idle? && pid > 0
    case _ => s.main.Idle?
  }

  function Next(s: State, e: Event): State
    requires Enabled(s, e)
  {
    match e
    case RegisterApp(pid) => if Registrable(s, pid) then Registered(s, pid) else s
    case RegisterUtil(a, pid, sig) =>
      if a in s.idPid && pid > 0 then
        s.(utils := s.utils[a := Tracked(s, a)[pid := sig]], log := s.log + [UtilRegistered(a, pid, sig)])
      else s
    case AttachMpir(pid, gotTable) =>
      if !Registrable(s, pid) then s else if gotTable then Held(s, pid) else Registered(s, pid)
    case LaunchMpir(pid, gotTable) =>
      if !Registrable(s, pid) then s
      else if gotTable then var t := Held(s, pid); t.(main := Launching(t.lastId, pid))
      else Registered(s, pid)
    case WatchLauncher =>
      s.(cleanup := s.cleanup[s.main.pid := Term], main := Idle, log := s.log + [AppWatched(s.main.pid)])
    case Unlink(a) =>
      if a in s.idPid then
        Forgotten(s, a).(pending := s.pending + multiset{Task(a, true)}, main := Unlinked(a, s.idPid[a]))
      else s
    case TerminateApp => Left(s, s.main.pid, Terminated).(main := Joining(s.main.id))
    case Join => s.(main := Idle)
    case Release(a) =>
      if a in s.idPid then UtilsErased(Left(Forgotten(s, a), s.idPid[a], LetGo), a) else s
    case EndMpir(id, ending, ok) =>
      if EndsMpir(s, id, ending, ok) then s.(mpir := s.mpir - {id}, log := s.log + [MpirEnded(id, ending)]) else s
    case ReadMpir(id, ok) =>
      if id in s.mpir && ok then s.(log := s.log + [MpirRead(id)]) else s
    case ChildExit(pid) =>
      if s.main.Stopping? then s
      else
        var t := Left(s, pid, Exited);
        if pid in s.pidId && s.pidId[pid] in s.utils
        then t.(pending := t.pending + multiset{Task(s.pidId[pid], false)})
        else t
    case RunTask(task) => UtilsErased(s.(pending := s.pending - multiset{task}), task.app)
    case Stop => s.(main := Stopping)
    case ClearUtils(a) => UtilsErased(s, a)
    case ClearApps =>
      s.(cleanup := map[], log := s.log + [AppsLeft(s.cleanup.Keys, Terminated)])
  }

  ghost predicate Run(s: State, es: seq<Event>)
    decreases |es|
  {
    es == [] || (Enabled(s, es[0]) && Run(Next(s, es[0]), es[1..]))
  }

  ghost function After(s: State, es: seq<Event>): State
    requires Run(s, es)
    decreases |es|
  {
    if es == [] then s else After(Next(s, es[0]), es[1..])
  }

  // ---------------------------------------------------------------- what every step keeps

  /** A negative pid, which a client may register, is never taken out of the pid map again. */
  ghost predicate MapsAgree(s: State) {
    && (forall id | id in s.idPid :: 1 <= id <= s.lastId)
    && (forall id | id in s.idPid :: s.idPid[id] != 0 ==> s.idPid[id] in s.pidId && s.pidId[s.idPid[id]] == id)
    && (forall p | p in s.pidId :: p != 0 && 1 <= s.pidId[p] <= s.lastId)
    && (forall p | p in s.pidId :: if s.pidId[p] in s.idPid then s.idPid[s.pidId[p]] == p else p < 0)
  }

  ghost predicate TasksAgree(s: State) {
    && (forall t | t in s.pending :: 1 <= t.app <= s.lastId)
    && (forall t | t in s.pending && t.own ::
          t.app !in s.idPid && (s.main.Unlinked? || s.main.Joining?) && s.main.id == t.app)
    && (s.main.Unlinked? ==> s.main.id !in s.idPid && (s.main.pid > 0 ==> s.main.pid !in s.pidId))
  }

  ghost predicate UtilsAgree(s: State) {
    forall a | a in s.utils :: 1 <= a <= s.lastId && (a in s.idPid || Task(a, true) in s.pending)
  }

  ghost predicate CleanupAgrees(s: State) {
    && (forall p | p in s.cleanup :: p > 0 && s.cleanup[p] == Term
                                     && (p in s.pidId || (s.main.Unlinked? && s.main.pid == p)))
    && (s.main.Launching? ==> s.main.pid > 0 && s.main.pid in s.pidId && s.main.pid !in s.cleanup)
  }

  ghost predicate Inv(s: State) {
    && MapsAgree(s)
    && TasksAgree(s)
    && UtilsAgree(s)
    && CleanupAgrees(s)
    && (forall id | id in s.mpir :: 1 <= id <= s.lastId)
  }

  lemma RegisteredInv(s: State, pid: int)
    requires Inv(s) && s.main.Idle? && Registrable(s, pid)
    ensures Inv(Registered(s, pid))
  {}

  lemma LeftInv(s: State, pid: int, how: Leaving)
    requires Inv(s)
    ensures Inv(Left(s, pid, how))
  {}

  lemma ForgottenKeepsMaps(s: State, a: int)
    requires MapsAgree(s) && a in s.idPid
    ensures MapsAgree(Forgotten(s, a))
  {
    var t := Forgotten(s, a);
    forall p | p in t.pidId ensures if t.pidId[p] in t.idPid then t.idPid[t.pidId[p]] == p else p < 0 {
      assert p in s.pidId;
    }
  }

  lemma UnlinkInv(s: State, a: int)
    requires Inv(s) && s.main.Idle? && a in s.idPid
    ensures Inv(Next(s, Unlink(a)))
  {
    ForgottenKeepsMaps(s, a);
  }

  lemma ReleaseKeepsCleanup(s: State, a: int)
    requires Inv(s) && s.main.Idle? && a in s.idPid
    ensures CleanupAgrees(Next(s, Release(a)))
  {
    var t := Next(s, Release(a));
    forall p | p in t.cleanup ensures p in t.pidId {
      assert p in s.cleanup && p != s.idPid[a];
    }
  }

  lemma ReleaseKeepsMaps(s: State, a: int)
    requires Inv(s) && s.main.Idle? && a in s.idPid
    ensures MapsAgree(Next(s, Release(a)))
  {
    ForgottenKeepsMaps(s, a);
  }

  lemma ReleaseKeepsTasks(s: State, a: int)
    requires Inv(s) && s.main.Idle? && a in s.idPid
    ensures TasksAgree(Next(s, Release(a))) && UtilsAgree(Next(s, Release(a)))
  {}

  lemma ReleaseInv(s: State, a: int)
    requires Inv(s) && s.main.Idle? && a in s.idPid
    ensures Inv(Next(s, Release(a)))
  {
    ReleaseKeepsMaps(s, a);
    ReleaseKeepsTasks(s, a);
    ReleaseKeepsCleanup(s, a);
  }

  lemma RunTaskKeepsUtils(s: State, t: Task)
    requires Inv(s) && t in s.pending
    ensures UtilsAgree(Next(s, RunTask(t)))
  {
    var s' := Next(s, RunTask(t));
    forall a | a in s'.utils ensures a in s'.idPid || Task(a, true) in s'.pending {
      assert a in s.utils && a != t.app;
    }
  }

  lemma RunTaskKeepsTasks(s: State, t: Task)
    requires Inv(s) && t in s.pending
    ensures TasksAgree(Next(s, RunTask(t)))
  {
    assert forall u | u in Next(s, RunTask(t)).pending :: u in s.pending;
  }

  lemma RunTaskInv(s: State, t: Task)
    requires Inv(s) && t in s.pending
    ensures Inv(Next(s, RunTask(t)))
  {
    RunTaskKeepsUtils(s, t);
    RunTaskKeepsTasks(s, t);
  }

  lemma LaunchInv(s: State, pid: int, gotTable: bool)
    requires Inv(s) && s.main.Idle? && pid > 0
    ensures Inv(Next(s, LaunchMpir(pid, gotTable)))
  {
    if Registrable(s, pid) { RegisteredInv(s, pid); }
  }

  lemma AttachInv(s: State, pid: int, gotTable: bool)
    requires Inv(s) && s.main.Idle?
    ensures Inv(Next(s, AttachMpir(pid, gotTable)))
  {
    if Registrable(s, pid) { RegisteredInv(s, pid); }
  }

  lemma ChildExitInv(s: State, pid: int)
    requires Inv(s) && pid > 1
    ensures Inv(Next(s, ChildExit(pid)))
  {
    LeftInv(s, pid, Exited);
  }

  lemma TerminateAppInv(s: State)
    requires Inv(s) && s.main.Unlinked?
    ensures Inv(Next(s, TerminateApp))
  {}

  lemma RegisterUtilInv(s: State, a: int, pid: int, sig: Signal)
    requires Inv(s) && s.main.Idle?
    ensures Inv(Next(s, RegisterUtil(a, pid, sig)))
  {}

  lemma WatchLauncherInv(s: State)
    requires Inv(s) && s.main.Launching?
    ensures Inv(Next(s, WatchLauncher))
  {}

  /** The steps that touch neither map nor the utilities. */
  lemma QuietInv(s: State, e: Event)
    requires Inv(s) && Enabled(s, e)
    requires e.Join? || e.EndMpir? || e.ReadMpir? || e.Stop?
    ensures Inv(Next(s, e))
  {}

  lemma ClearingInv(s: State, e: Event)
    requires Inv(s) && Enabled(s, e)
    requires e.ClearUtils? || e.ClearApps?
    ensures Inv(Next(s, e))
  {}

  lemma NextInv(s: State, e: Event)
    requires Inv(s) && Enabled(s, e)
    ensures Inv(Next(s, e))
  {
    match e {
      case RegisterApp(pid) => if Registrable(s, pid) { RegisteredInv(s, pid); }
      case AttachMpir(pid, got) => AttachInv(s, pid, got);
      case LaunchMpir(pid, got) => LaunchInv(s, pid, got);
      case Unlink(a) => if a in s.idPid { UnlinkInv(s, a); }
      case TerminateApp => TerminateAppInv(s);
      case Release(a) => if a in s.idPid { ReleaseInv(s, a); }
      case ChildExit(pid) => ChildExitInv(s, pid);
      case RunTask(t) => RunTaskInv(s, t);
      case RegisterUtil(a, pid, sig) => RegisterUtilInv(s, a, pid, sig);
      case WatchLauncher => WatchLauncherInv(s);
      case ClearUtils(_) => ClearingInv(s, e);
      case ClearApps => ClearingInv(s, e);
      case _ => QuietInv(s, e);
    }
  }

  lemma {:induction false} RunInv(s: State, es: seq<Event>)
    requires Inv(s) && Run(s, es)
    ensures Inv(After(s, es))
    decreases |es|
  {
    if es != [] {
      NextInv(s, es[0]);
      RunInv(Next(s, es[0]), es[1..]);
    }
  }
}
