/** Why the front-end daemon does what its log records. Every entry has a cause in the run, every request that
    is taken on has its entry, and a utility is signalled only after something that ends its application. So
    what becomes of a launcher or utility can be read off the events alone. */
module DaemonCauses {
  import opened FrontendDaemon
  import opened DaemonHistory
  import opened Options

  // ---------------------------------------------------------------- the states of a run

  /** The state before event k. */
  ghost function At(s: State, es: seq<Event>, k: nat): State
    requires Run(s, es) && k <= |es|
    decreases |es|
  {
    if k == 0 then s else At(Next(s, es[0]), es[1..], k - 1)
  }

  lemma {:induction false} AtStep(s: State, es: seq<Event>, k: nat)
    requires Run(s, es) && k < |es|
    ensures Enabled(At(s, es, k), es[k]) && At(s, es, k + 1) == Next(At(s, es, k), es[k])
    decreases |es|
  {
    if k > 0 { AtStep(Next(s, es[0]), es[1..], k - 1); }
  }

  lemma {:induction false} AtInv(s: State, es: seq<Event>, k: nat)
    requires Run(s, es) && k <= |es| && Inv(s)
    ensures Inv(At(s, es, k))
    decreases |es|
  {
    if k > 0 {
      NextInv(s, es[0]);
      AtInv(Next(s, es[0]), es[1..], k - 1);
    }
  }

  lemma LogGrows(s: State, e: Event)
    requires Enabled(s, e)
    ensures s.log <= Next(s, e).log
  {
  }

  lemma {:induction false} LogStays(s: State, es: seq<Event>, k: nat)
    requires Run(s, es) && k <= |es|
    ensures s.log <= At(s, es, k).log <= After(s, es).log
    decreases |es|
  {
    if es != [] {
      LogGrows(s, es[0]);
      LogStays(Next(s, es[0]), es[1..], if k > 0 then k - 1 else 0);
    }
  }

  // ---------------------------------------------------------------- what causes an entry

  /** The events by which a launcher leaves the cleanup list in a given way: its application is released, and no
      signal is sent; it exits while the daemon serves; or its application is deregistered or the daemon
      ends, and it is sent a signal. */
  ghost predicate Departs(s: State, e: Event, p: int, how: Leaving) {
    match how
    case LetGo => e.Release? && e.app in s.idPid && s.idPid[e.app] == p
    case Exited => e == ChildExit(p) && !s.main.Stopping?
    case Terminated => (e.TerminateApp? && s.main.Unlinked? && s.main.pid == p) || e.ClearApps?
  }

  ghost predicate Causes(s: State, e: Event, entry: Entry) {
    match entry
    case UtilRegistered(a, p, sig) => e == RegisterUtil(a, p, sig) && a in s.idPid && p > 0
    case UtilsSignalled(a, _) => e == Release(a) || e == ClearUtils(a) || (e.RunTask? && e.task.app == a)
    case AppWatched(p) => e.WatchLauncher? && s.main.Launching? && s.main.pid == p
    case AppsLeft(ps, how) => forall p | p in ps :: Departs(s, e, p, how)
    case MpirHeld(id) => (e.AttachMpir? || e.LaunchMpir?) && e.gotTable && id == s.lastId + 1
    case MpirEnded(id, ending) => e.EndMpir? && e.id == id && e.ending == ending && (ending.Killed? ==> e.ok)
    case MpirRead(id) => e == ReadMpir(id, true)
  }

  lemma ReleaseCauses(s: State, a: int, j: nat)
    requires Enabled(s, Release(a)) && |s.log| <= j < |Next(s, Release(a)).log|
    ensures Causes(s, Release(a), Next(s, Release(a)).log[j])
  {
  }

  lemma RegistrationCauses(s: State, e: Event, j: nat)
    requires Enabled(s, e) && |s.log| <= j < |Next(s, e).log|
    requires e.RegisterApp? || e.RegisterUtil? || e.AttachMpir? || e.LaunchMpir?
    ensures Causes(s, e, Next(s, e).log[j])
  {
  }

  lemma MpirCauses(s: State, e: Event, j: nat)
    requires Enabled(s, e) && |s.log| <= j < |Next(s, e).log|
    requires e.EndMpir? || e.ReadMpir?
    ensures Causes(s, e, Next(s, e).log[j])
  {
  }

  lemma CleanupCauses(s: State, e: Event, j: nat)
    requires Enabled(s, e) && |s.log| <= j < |Next(s, e).log|
    requires e.WatchLauncher? || e.TerminateApp? || e.ClearApps?
    ensures Causes(s, e, Next(s, e).log[j])
  {
  }

  lemma ExitCauses(s: State, pid: int, j: nat)
    requires Enabled(s, ChildExit(pid)) && |s.log| <= j < |Next(s, ChildExit(pid)).log|
    ensures Causes(s, ChildExit(pid), Next(s, ChildExit(pid)).log[j])
  {
  }

  lemma ErasureCauses(s: State, e: Event, j: nat)
    requires Enabled(s, e) && |s.log| <= j < |Next(s, e).log|
    requires e.RunTask? || e.ClearUtils?
    ensures Causes(s, e, Next(s, e).log[j])
  {
  }

  lemma OthersAreQuiet(s: State, e: Event)
    requires Enabled(s, e) && (e.Unlink? || e.Join? || e.Stop?)
    ensures Next(s, e).log == s.log
  {
  }

  lemma StepCauses(s: State, e: Event, j: nat)
    requires Enabled(s, e) && |s.log| <= j < |Next(s, e).log|
    ensures Causes(s, e, Next(s, e).log[j])
  {
    match e
    case Release(a) => ReleaseCauses(s, a, j);
    case ChildExit(pid) => ExitCauses(s, pid, j);
    case EndMpir(_, _, _) => MpirCauses(s, e, j);
    case ReadMpir(_, _) => MpirCauses(s, e, j);
    case WatchLauncher => CleanupCauses(s, e, j);
    case TerminateApp => CleanupCauses(s, e, j);
    case ClearApps => CleanupCauses(s, e, j);
    case RunTask(_) => ErasureCauses(s, e, j);
    case ClearUtils(_) => ErasureCauses(s, e, j);
    case Unlink(_) => OthersAreQuiet(s, e);
    case Join => OthersAreQuiet(s, e);
    case Stop => OthersAreQuiet(s, e);
    case _ => RegistrationCauses(s, e, j);
  }

  /** Over every run: each entry of the log was made by an event that accounts for it, in the state it met. */
  lemma {:induction false} EntryHasCause(s: State, es: seq<Event>, j: nat) returns (k: nat)
    requires Run(s, es) && |s.log| <= j < |After(s, es).log|
    ensures k < |es| && |At(s, es, k).log| <= j < |At(s, es, k + 1).log|
    ensures Causes(At(s, es, k), es[k], After(s, es).log[j])
    decreases |es|
  {
    var t := Next(s, es[0]);
    LogStays(t, es[1..], 0);
    if j < |t.log| {
      k := 0;
      StepCauses(s, es[0], j);
    } else {
      k := EntryHasCause(t, es[1..], j);
      k := k + 1;
    }
  }

  /** The entry for what an event makes the daemon take on, or give up on request. */
  ghost function TakesOn(s: State, e: Event): Option<Entry> {
    match e
    case RegisterUtil(a, p, sig) => if a in s.idPid && p > 0 then Some(UtilRegistered(a, p, sig)) else None
    case WatchLauncher => if s.main.Launching? then Some(AppWatched(s.main.pid)) else None
    case AttachMpir(p, got) => if (p == 0 || p !in s.pidId) && got then Some(MpirHeld(s.lastId + 1)) else None
    case LaunchMpir(p, got) => if (p == 0 || p !in s.pidId) && got then Some(MpirHeld(s.lastId + 1)) else None
    case EndMpir(id, ending, ok) =>
      if id in s.mpir && (ok || !ending.Killed?) then Some(MpirEnded(id, ending)) else None
    case ReadMpir(id, ok) => if id in s.mpir && ok then Some(MpirRead(id)) else None
    case _ => None
  }

  lemma StepTakesOn(s: State, e: Event)
    requires Enabled(s, e) && TakesOn(s, e).Some?
    ensures Next(s, e).log == s.log + [TakesOn(s, e).value]
  {
  }

  /** And over every run each such event has its entry. */
  lemma TakenOnIsRecorded(s: State, es: seq<Event>, k: nat)
    requires Run(s, es) && k < |es| && TakesOn(At(s, es, k), es[k]).Some?
    ensures var n := |At(s, es, k).log|;
            n < |After(s, es).log| && After(s, es).log[n] == TakesOn(At(s, es, k), es[k]).value
  {
    AtStep(s, es, k);
    StepTakesOn(At(s, es, k), es[k]);
    LogStays(s, es, k + 1);
  }

  // ---------------------------------------------------------------- launchers

  /** A launcher on the cleanup list leaves it by exactly these events, and the record says by which. */
  lemma DepartsExactly(s: State, e: Event, p: int)
    requires Inv(s) && Enabled(s, e) && p in s.cleanup
    ensures p !in Next(s, e).cleanup <==> exists how :: Departs(s, e, p, how)
    ensures forall how | Departs(s, e, p, how) ::
              |s.log| < |Next(s, e).log| && Next(s, e).log[|s.log|].AppsLeft?
              && p in Next(s, e).log[|s.log|].pids && Next(s, e).log[|s.log|].how == how
  {
    if e.Release? {
      ReleaseDeparts(s, e.app, p);
    } else if e.TerminateApp? || e.ClearApps? {
      TerminationDeparts(s, e, p);
    } else if e.ChildExit? {
      ExitDeparts(s, e.pid, p);
    } else {
      OthersStayOn(s, e, p);
    }
  }

  lemma ReleaseDeparts(s: State, a: int, p: int)
    requires Inv(s) && Enabled(s, Release(a)) && p in s.cleanup
    ensures p !in Next(s, Release(a)).cleanup <==> Departs(s, Release(a), p, LetGo)
    ensures var t := Next(s, Release(a));
            Departs(s, Release(a), p, LetGo) ==> |s.log| < |t.log| && t.log[|s.log|] == AppsLeft({p}, LetGo)
  {
  }

  lemma TerminationDeparts(s: State, e: Event, p: int)
    requires Enabled(s, e) && (e.TerminateApp? || e.ClearApps?) && p in s.cleanup
    ensures p !in Next(s, e).cleanup <==> Departs(s, e, p, Terminated)
    ensures Departs(s, e, p, Terminated) ==>
              exists ps :: p in ps && Next(s, e).log == s.log + [AppsLeft(ps, Terminated)]
  {
    assert Departs(s, e, p, Terminated) ==>
        Next(s, e).log == s.log + [AppsLeft(if e.ClearApps? then s.cleanup.Keys else {p}, Terminated)];
  }

  lemma ExitDeparts(s: State, pid: int, p: int)
    requires Enabled(s, ChildExit(pid)) && p in s.cleanup
    ensures p !in Next(s, ChildExit(pid)).cleanup <==> Departs(s, ChildExit(pid), p, Exited)
    ensures Departs(s, ChildExit(pid), p, Exited) ==>
              Next(s, ChildExit(pid)).log == s.log + [AppsLeft({p}, Exited)]
  {
  }

  /** While the daemon serves, an exit takes the process off the cleanup list, whoever it was. */
  lemma ExitLeavesList(s: State, pid: int)
    requires Enabled(s, ChildExit(pid))
    ensures Next(s, ChildExit(pid)).cleanup == if s.main.Stopping? then s.cleanup else s.cleanup - {pid}
  {
  }

  lemma OthersStayOn(s: State, e: Event, p: int)
    requires Enabled(s, e) && p in s.cleanup
    requires !e.Release? && !e.TerminateApp? && !e.ClearApps? && !e.ChildExit?
    ensures p in Next(s, e).cleanup
  {
  }

  /** Since entry i of the log, the launcher has not exited under the daemon's eyes and was not released. */
  ghost predicate LetBe(s: State, es: seq<Event>, i: nat, p: int)
    requires Run(s, es)
  {
    forall k | 0 <= k < |es| && i < |At(s, es, k).log| ::
      !Departs(At(s, es, k), es[k], p, Exited) && !Departs(At(s, es, k), es[k], p, LetGo)
  }

  ghost predicate LeftOnceAs(log: seq<Entry>, i: nat, how: Leaving)
    requires i < |log| && log[i].AppWatched?
  {
    && log[i].pid !in Watched(log)
    && exists j | i < j < |log| ::
         && Leaves(log, j, log[i].pid) && log[j].how == how
         && forall k | i < k < |log| && Leaves(log, k, log[i].pid) :: k == j
  }

  /** Over every run: a launcher that is off the cleanup list left it once since it was last put there, by an event
      that came after that and accounts for the way it left. */
  lemma LeftForAReason(es: seq<Event>, i: nat) returns (j: nat, k: nat)
    requires Run(START, es) && i < |After(START, es).log| && LatestWatch(After(START, es).log, i)
    requires After(START, es).log[i].pid !in After(START, es).cleanup
    ensures var log, p := After(START, es).log, After(START, es).log[i].pid;
            && i < j < |log| && Leaves(log, j, p) && LeftOnceAs(log, i, log[j].how)
            && k < |es| && i < |At(START, es, k).log| <= j && Departs(At(START, es, k), es[k], p, log[j].how)
  {
    var log := After(START, es).log;
    var p := log[i].pid;
    AppsConserved(es, i);
    j :| i < j < |log| && Leaves(log, j, p) && forall m | i < m < |log| && Leaves(log, m, p) :: m == j;
    k := EntryHasCause(START, es, j);
    assert Departs(At(START, es, k), es[k], p, log[j].how);
    WatchedEarlier(es, i, k);
  }

  /** The event that puts a launcher on the list takes none off. */
  lemma WatchedEarlier(es: seq<Event>, i: nat, k: nat)
    requires Run(START, es) && k < |es| && i < |After(START, es).log| && After(START, es).log[i].AppWatched?
    requires !es[k].WatchLauncher? && i < |At(START, es, k + 1).log|
    ensures i < |At(START, es, k).log|
  {
    if |At(START, es, k).log| <= i {
      AtStep(START, es, k);
      StepCauses(At(START, es, k), es[k], i);
      LogStays(START, es, k + 1);
    }
  }

  /** After every run that ends in a shutdown, in whatever order its threads ran: each utility has been sent the
      signal of its latest registration, once; each launcher has left the cleanup list, once; and one that
      neither exited before nor was released has been sent a signal. */
  lemma NothingLeftBehind(before: seq<Event>, es: seq<Event>, i: nat)
    requires Run(START, before) && After(START, before).main.Stopping?
    requires Run(After(START, before), es) && AllJoined(After(START, before), es)
    ensures Run(START, before + es)
    ensures var log := After(After(START, before), es).log;
            && (LatestRegistration(log, i) ==> SignalSentOnce(log, i))
            && (i < |log| && LatestWatch(log, i) ==>
                  && LeftOnce(log, i)
                  && (LetBe(START, before + es, i, log[i].pid) ==> LeftOnceAs(log, i, Terminated)))
  {
    ShutdownClears(After(START, before), es);
    Concat(START, before, es);
    var s := After(START, before + es);
    if LatestRegistration(s.log, i) { UtilitiesConserved(before + es, i); }
    if i < |s.log| && LatestWatch(s.log, i) {
      AppsConserved(before + es, i);
      var j, k := LeftForAReason(before + es, i);
    }
  }

  // ---------------------------------------------------------------- utilities

  /** What hands an erasure to another thread. */
  ghost predicate Schedules(s: State, e: Event, task: Task) {
    if task.own then e == Unlink(task.app) && task.app in s.idPid
    else e.ChildExit? && !s.main.Stopping? && e.pid in s.pidId && s.pidId[e.pid] == task.app
  }

  lemma StepSchedules(s: State, e: Event, task: Task)
    requires Enabled(s, e) && task in Next(s, e).pending && task !in s.pending
    ensures Schedules(s, e, task)
  {
  }

  /** Over every run, a pending erasure was scheduled by a deregistration or by the exit of the launcher. */
  lemma {:induction false} TaskHasCause(s: State, es: seq<Event>, task: Task) returns (k: nat)
    requires Run(s, es) && task in After(s, es).pending && task !in s.pending
    ensures k < |es| && Schedules(At(s, es, k), es[k], task)
    decreases |es|
  {
    var t := Next(s, es[0]);
    if task in t.pending {
      k := 0;
      StepSchedules(s, es[0], task);
    } else {
      k := TaskHasCause(t, es[1..], task);
      k := k + 1;
    }
  }

  /** What ends the tracking of an application's utilities. */
  ghost predicate EndsApp(s: State, e: Event, a: int) {
    || e == Release(a)
    || (e == Unlink(a) && a in s.idPid)
    || (e.ChildExit? && !s.main.Stopping? && e.pid in s.pidId && s.pidId[e.pid] == a)
    || (e == ClearUtils(a) && s.main.Stopping?)
  }

  lemma {:induction false} PrefixRuns(s: State, es: seq<Event>, k: nat)
    requires Run(s, es) && k <= |es|
    ensures Run(s, es[..k]) && After(s, es[..k]) == At(s, es, k)
    ensures forall i | 0 <= i <= k :: At(s, es[..k], i) == At(s, es, i)
    decreases |es|
  {
    if k > 0 {
      assert es[..k][1..] == es[1..][..k - 1];
      PrefixRuns(Next(s, es[0]), es[1..], k - 1);
    }
  }

  /** No utility is signalled early: over every run, before a burst of signals to the utilities of an application
      that application was released or deregistered, its launcher exited, or the daemon was ending. */
  lemma NeverSignalledEarly(es: seq<Event>, j: nat) returns (k: nat)
    requires Run(START, es) && j < |After(START, es).log| && After(START, es).log[j].UtilsSignalled?
    ensures k < |es| && |At(START, es, k).log| <= j && EndsApp(At(START, es, k), es[k], After(START, es).log[j].app)
  {
    k := EntryHasCause(START, es, j);
    AtStep(START, es, k);
    if es[k].RunTask? {
      var n := k;
      PrefixRuns(START, es, n);
      k := TaskHasCause(START, es[..n], es[n].task);
      assert es[..n][k] == es[k];
      LogStays(START, es[..n], k);
    }
  }

  ghost predicate RegistersFor(e: Event, a: int) {
    e.RegisterUtil? && e.app == a
  }

  /** The utilities of an application are still tracked only while an erasure of them is outstanding. */
  ghost predicate Outstanding(s: State, a: int) {
    a in s.utils ==> Task(a, false) in s.pending
  }

  lemma ErasureOutstanding(s: State, task: Task, a: int)
    requires Enabled(s, RunTask(task)) && Outstanding(s, a)
    ensures Outstanding(Next(s, RunTask(task)), a)
  {
    if task != Task(a, false) { assert (s.pending - multiset{task})[Task(a, false)] == s.pending[Task(a, false)]; }
  }

  lemma StepOutstanding(s: State, e: Event, a: int)
    requires Enabled(s, e) && Outstanding(s, a) && !RegistersFor(e, a)
    ensures Outstanding(Next(s, e), a)
  {
    if e.RunTask? { ErasureOutstanding(s, e.task, a); }
  }

  lemma {:induction false} StaysOutstanding(s: State, es: seq<Event>, a: int)
    requires Run(s, es) && Outstanding(s, a) && forall i | 0 <= i < |es| :: !RegistersFor(es[i], a)
    ensures Outstanding(After(s, es), a)
    decreases |es|
  {
    if es != [] {
      StepOutstanding(s, es[0], a);
      forall i | 0 <= i < |es[1..]| ensures !RegistersFor(es[1..][i], a) { assert es[1..][i] == es[i + 1]; }
      StaysOutstanding(Next(s, es[0]), es[1..], a);
    }
  }

  lemma ExitSchedules(s: State, pid: int)
    requires Enabled(s, ChildExit(pid)) && !s.main.Stopping? && pid in s.pidId
    ensures Outstanding(Next(s, ChildExit(pid)), s.pidId[pid])
  {
  }

  /** When a registered launcher exits while the daemon serves, then whatever follows, unless more utilities are
      registered for its application: once its erasure is through, none is tracked any more, and each of them has
      been sent the signal of its latest registration, once. */
  lemma ExitSignalsUtilities(before: seq<Event>, pid: int, later: seq<Event>, i: nat)
    requires Run(START, before + [ChildExit(pid)] + later)
    requires Run(START, before) && !After(START, before).main.Stopping? && pid in After(START, before).pidId
    requires var a := After(START, before).pidId[pid];
             && (forall n | 0 <= n < |later| :: !RegistersFor(later[n], a))
             && Task(a, false) !in After(START, before + [ChildExit(pid)] + later).pending
    ensures var a, t := After(START, before).pidId[pid], After(START, before + [ChildExit(pid)] + later);
            && a !in t.utils
            && (LatestRegistration(t.log, i) && t.log[i].app == a ==> SignalSentOnce(t.log, i))
  {
    var s, all := After(START, before), before + [ChildExit(pid)] + later;
    RunSplits(START, before, ChildExit(pid), later);
    ExitSchedules(s, pid);
    StaysOutstanding(Next(s, ChildExit(pid)), later, s.pidId[pid]);
    var t := After(START, all);
    if LatestRegistration(t.log, i) && t.log[i].app == s.pidId[pid] { UtilitiesConserved(all, i); }
  }

  lemma {:induction false} RunSplits(s: State, before: seq<Event>, e: Event, later: seq<Event>)
    requires Run(s, before + [e] + later)
    ensures Run(s, before) && Enabled(After(s, before), e) && Run(Next(After(s, before), e), later)
    ensures After(s, before + [e] + later) == After(Next(After(s, before), e), later)
    decreases |before|
  {
    var all := before + [e] + later;
    if before == [] {
      assert all == [e] + later && all[1..] == later;
    } else {
      assert all[1..] == before[1..] + [e] + later;
      RunSplits(Next(s, before[0]), before[1..], e, later);
    }
  }
}
