/** The frontend daemon as the process that holds the tables: each method is one step of
    `FrontendDaemon`, done on fields, and the history theorems apply to whatever the methods do. */
module DaemonProcess {
  import opened DaemonCauses
  import opened DaemonHistory
  import opened FrontendDaemon
  import opened Options
  import Pick

  class Daemon {
    var lastId: nat
    var idPid: map<int, int>
    var pidId: map<int, int>
    var cleanup: map<int, Signal>
    var utils: map<int, map<int, Signal>>
    var mpir: set<int>
    var pending: multiset<Task>
    var main: Main
    ghost var log: seq<Entry>

    ghost function View(): State
      reads this
    {
      State(lastId, idPid, pidId, cleanup, utils, mpir, pending, main, log)
    }

    constructor ()
      ensures View() == START
    {
      lastId, idPid, pidId := 0, map[], map[];
      cleanup, utils, mpir := map[], map[], {};
      pending, main, log := multiset{}, Idle, [];
    }

    method NewId() returns (id: nat)
      modifies this`lastId
      ensures id == lastId == old(lastId) + 1
    {
      lastId := lastId + 1;
      id := lastId;
    }

    /** Gives a pid an id, or refuses a pid that has one; pid 0 always gets a new one. */
    method AddApp(pid: int) returns (id: Option<int>)
      modifies this`lastId, this`idPid, this`pidId
      ensures if Registrable(old(View()), pid)
              then id == Some(old(lastId) + 1) && View() == Registered(old(View()), pid)
              else id == None && View() == old(View())
    {
      if pid == 0 {
        var newId := NewId();
        idPid := idPid[newId := 0];
        id := Some(newId);
      } else if pid !in pidId {
        var newId := NewId();
        pidId := pidId[pid := newId];
        idPid := idPid[newId := pid];
        id := Some(newId);
      } else {
        id := None;
      }
    }

    /** The reply carries an id exactly when the pid was free, and that id was never in use. */
    method RegisterAppPid(pid: int) returns (id: Option<int>)
      requires main.Idle? && Inv(View())
      modifies this
      ensures View() == Next(old(View()), RegisterApp(pid)) && Inv(View())
      ensures id.Some? <==> Registrable(old(View()), pid)
      ensures id.Some? ==> id.value !in old(idPid) && id.value in idPid && idPid[id.value] == pid
    {
      NextInv(View(), RegisterApp(pid));
      id := AddApp(pid);
    }

    method RegisterUtilPid(app: int, pid: int, sig: Signal) returns (ok: bool)
      requires main.Idle? && Inv(View())
      modifies this
      ensures View() == Next(old(View()), RegisterUtil(app, pid, sig)) && Inv(View())
      ensures ok <==> app in old(idPid) && pid > 0
      ensures ok ==> app in utils && pid in utils[app] && utils[app][pid] == sig
    {
      RegisterUtilInv(View(), app, pid, sig);
      ok := app in idPid && pid > 0;
      if ok {
        var mine := if app in utils then utils[app] else map[];
        utils := utils[app := mine[pid := sig]];
        log := log + [UtilRegistered(app, pid, sig)];
      }
    }

    /** Signals every process of a set, one after the other, and reports what was sent to whom. */
    static method Terminate(pidSignals: map<int, Signal>) returns (sent: map<int, Signal>)
      ensures sent == pidSignals
    {
      sent := map[];
      var todo := pidSignals.Keys;
      while todo != {}
        invariant todo <= pidSignals.Keys && sent == pidSignals - todo
        decreases todo
      {
        var p := Pick.AnyOf(todo);
        sent := sent[p := pidSignals[p]];
        todo := todo - {p};
      }
    }

    method EraseUtils(app: int)
      modifies this`utils, this`log
      ensures View() == UtilsErased(old(View()), app)
    {
      if app in utils {
        var sent := Terminate(utils[app]);
        utils := utils - {app};
        log := log + [UtilsSignalled(app, sent)];
      }
    }

    method ForgetApp(app: int) returns (pid: int)
      requires app in idPid
      modifies this`idPid, this`pidId
      ensures pid == old(idPid[app]) && View() == Forgotten(old(View()), app)
    {
      pid := idPid[app];
      idPid := idPid - {app};
      if pid > 0 {
        pidId := pidId - {pid};
      }
    }

    method TakeOffCleanup(pid: int, ghost how: Leaving) returns (was: bool)
      modifies this`cleanup, this`log
      ensures was <==> pid in old(cleanup)
      ensures View() == Left(old(View()), pid, how)
    {
      was := pid in cleanup;
      if was {
        cleanup := cleanup - {pid};
        log := log + [AppsLeft({pid}, how)];
      }
    }

    /** The first half of a deregistration: forget the application and start erasing its utilities. */
    method UnlinkApp(app: int) returns (ok: bool)
      requires main.Idle? && Inv(View())
      modifies this
      ensures View() == Next(old(View()), Unlink(app)) && Inv(View())
      ensures ok <==> app in old(idPid)
    {
      NextInv(View(), Unlink(app));
      ok := app in idPid;
      if ok {
        var pid := ForgetApp(app);
        pending := pending + multiset{Task(app, true)};
        main := Unlinked(app, pid);
      }
    }

    /** The second half: terminate the application if it is still on the cleanup list. */
    method TerminateUnlinked() returns (signalled: bool)
      requires main.Unlinked? && Inv(View())
      modifies this
      ensures View() == Next(old(View()), TerminateApp) && Inv(View())
      ensures signalled <==> old(main).pid in old(cleanup)
      ensures old(main).pid !in cleanup
      ensures log == old(log) + if signalled then [AppsLeft({old(main).pid}, Terminated)] else []
    {
      NextInv(View(), TerminateApp);
      signalled := TakeOffCleanup(main.pid, Terminated);
      main := Joining(main.id);
    }

    method ReleaseApp(app: int) returns (ok: bool)
      requires main.Idle? && Inv(View())
      modifies this
      ensures View() == Next(old(View()), Release(app)) && Inv(View())
      ensures ok <==> app in old(idPid)
      ensures ok ==> app !in idPid && app !in utils && old(idPid[app]) !in cleanup
      ensures forall j | |old(log)| <= j < |log| && log[j].AppsLeft? :: log[j].how == LetGo
    {
      NextInv(View(), Release(app));
      ok := app in idPid;
      if ok {
        var pid := ForgetApp(app);
        var _ := TakeOffCleanup(pid, LetGo);
        EraseUtils(app);
      }
    }

    /** While the daemon serves, an exit takes the process off the cleanup list and starts erasing the utilities of
        its application. */
    method SigchldHandler(pid: int)
      requires pid > 1 && Inv(View())
      modifies this
      ensures View() == Next(old(View()), ChildExit(pid)) && Inv(View())
      ensures utils == old(utils) && idPid == old(idPid) && pidId == old(pidId)
      ensures main.Stopping? ==> View() == old(View())
      ensures !main.Stopping? ==> cleanup == old(cleanup) - {pid}
      ensures !main.Stopping? && pid in pidId ==> Outstanding(View(), pidId[pid])
    {
      NextInv(View(), ChildExit(pid));
      ExitLeavesList(View(), pid);
      if !main.Stopping? && pid in pidId { ExitSchedules(View(), pid); }
      if !main.Stopping? {
        var _ := TakeOffCleanup(pid, Exited);
        if pid in pidId && pidId[pid] in utils {
          pending := pending + multiset{Task(pidId[pid], false)};
        }
      }
    }

    method RunErasure(task: Task)
      requires task in pending && Inv(View())
      modifies this
      ensures View() == Next(old(View()), RunTask(task)) && Inv(View())
      ensures pending == old(pending) - multiset{task} && main == old(main) && task.app !in utils
    {
      NextInv(View(), RunTask(task));
      pending := pending - multiset{task};
      EraseUtils(task.app);
    }

    /** Registers a launcher under MPIR control; a failure to read its process table leaves it
        registered but not held. */
    method ExtractMpir(pid: int, gotTable: bool) returns (id: Option<int>)
      requires main.Idle? && Inv(View())
      modifies this
      ensures View() == Next(old(View()), AttachMpir(pid, gotTable)) && Inv(View())
      ensures id.Some? <==> Registrable(old(View()), pid) && gotTable
      ensures id.Some? ==> id.value !in old(mpir) && mpir == old(mpir) + {id.value}
    {
      NextInv(View(), AttachMpir(pid, gotTable));
      id := AddApp(pid);
      if id.Some? {
        if gotTable {
          mpir := mpir + {id.value};
          log := log + [MpirHeld(id.value)];
        } else {
          id := None;
        }
      }
    }

    /** Release, wait and terminate all give the instance up, and only the first of them finds it. `ok` is whether
        the instance does what it is asked; one that cannot be killed stays held. */
    method GiveUpMpir(id: int, ending: Ending, ok: bool) returns (done: bool)
      requires main.Idle? && Inv(View())
      modifies this
      ensures View() == Next(old(View()), EndMpir(id, ending, ok)) && Inv(View())
      ensures done <==> id in old(mpir) && id !in mpir
      ensures id in mpir <==> id in old(mpir) && ending.Killed? && !ok
    {
      NextInv(View(), EndMpir(id, ending, ok));
      if id !in mpir { return false; }
      if ending.Killed? && !ok { return false; }
      mpir := mpir - {id};
      log := log + [MpirEnded(id, ending)];
      done := true;
    }

    /** A launch registers the launcher and, if its table was read, goes on to watch it. */
    method LaunchUnderMpir(pid: int, gotTable: bool) returns (id: Option<int>)
      requires main.Idle? && pid > 0 && Inv(View())
      modifies this
      ensures View() == Next(old(View()), LaunchMpir(pid, gotTable)) && Inv(View())
      ensures id.Some? <==> pid !in old(pidId) && gotTable
      ensures id.Some? ==> id.value in mpir && main == Launching(id.value, pid)
    {
      NextInv(View(), LaunchMpir(pid, gotTable));
      id := AddApp(pid);
      if id.Some? {
        if gotTable {
          mpir := mpir + {id.value};
          log := log + [MpirHeld(id.value)];
          main := Launching(id.value, pid);
        } else {
          id := None;
        }
      }
    }

    method PutOnCleanup()
      requires main.Launching? && Inv(View())
      modifies this
      ensures View() == Next(old(View()), WatchLauncher) && Inv(View())
      ensures cleanup == old(cleanup)[old(main).pid := Term] && main.Idle?
    {
      NextInv(View(), WatchLauncher);
      cleanup := cleanup[main.pid := Term];
      log := log + [AppWatched(main.pid)];
      main := Idle;
    }

    /** Reading a string finds exactly the instances that are held, and changes nothing but the record. `ok` is
        whether the instance can read it. */
    method ReadStringMpir(id: int, ok: bool) returns (done: bool)
      requires main.Idle? && Inv(View())
      modifies this`log
      ensures View() == Next(old(View()), ReadMpir(id, ok)) && Inv(View())
      ensures done <==> id in mpir && ok
    {
      NextInv(View(), ReadMpir(id, ok));
      done := id in mpir && ok;
      if done { log := log + [MpirRead(id)]; }
    }

    /** The erasure the deregistration started is through. */
    method JoinErasure()
      requires main.Joining? && Task(main.id, true) !in pending && Inv(View())
      modifies this`main
      ensures View() == Next(old(View()), Join) && Inv(View()) && main.Idle?
    {
      NextInv(View(), Join);
      main := Idle;
    }

    /** A whole deregistration: with nothing in between, the application, its launcher and its utilities are all
        gone at the end of it. */
    method DeregisterApp(app: int) returns (ok: bool, ghost es: seq<Event>)
      requires main.Idle? && Inv(View())
      modifies this
      ensures Run(old(View()), es) && View() == After(old(View()), es) && Inv(View()) && main.Idle?
      ensures ok <==> app in old(idPid)
      ensures ok ==> app !in idPid && app !in utils && old(idPid[app]) !in cleanup
    {
      ghost var s0 := View();
      ghost var more: seq<Event>;
      ok, es := UnlinkAndTerminate(app);
      if ok {
        more := EraseAndJoin();
        Concat(s0, es, more);
        es := es + more;
      }
    }

    method UnlinkAndTerminate(app: int) returns (ok: bool, ghost es: seq<Event>)
      requires main.Idle? && Inv(View())
      modifies this
      ensures Run(old(View()), es) && View() == After(old(View()), es) && Inv(View())
      ensures ok <==> app in old(idPid)
      ensures if ok then main == Joining(app) && pending[Task(app, true)] == 1 else main.Idle?
      ensures ok ==> app !in idPid && old(idPid[app]) !in cleanup
    {
      ghost var s0 := View();
      ok := UnlinkApp(app);
      Append(s0, [], Unlink(app));
      es := [] + [Unlink(app)];
      if ok {
        var _ := TerminateUnlinked();
        Append(s0, es, TerminateApp);
        es := es + [TerminateApp];
      }
    }

    method EraseAndJoin() returns (ghost es: seq<Event>)
      requires main.Joining? && pending[Task(main.id, true)] == 1 && Inv(View())
      modifies this
      ensures Run(old(View()), es) && View() == After(old(View()), es) && Inv(View()) && main.Idle?
      ensures idPid == old(idPid) && cleanup == old(cleanup) && old(main).id !in utils
    {
      ghost var s0, t := View(), Task(main.id, true);
      RunErasure(Task(main.id, true));
      Append(s0, [], RunTask(t));
      es := [] + [RunTask(t)];
      JoinErasure();
      Append(s0, es, Join);
      es := es + [Join];
    }

    method StopServing()
      requires main.Idle? && Inv(View())
      modifies this`main
      ensures View() == Next(old(View()), Stop) && Inv(View()) && main.Stopping?
    {
      NextInv(View(), Stop);
      main := Stopping;
    }

    method ClearSet(app: int)
      requires main.Stopping? && Inv(View())
      modifies this
      ensures View() == Next(old(View()), ClearUtils(app)) && Inv(View()) && main.Stopping? && app !in utils
    {
      NextInv(View(), ClearUtils(app));
      EraseUtils(app);
    }

    /** Every launcher still on the list is sent its signal. */
    method ClearList() returns (sent: map<int, Signal>)
      requires main.Stopping? && Inv(View())
      modifies this
      ensures View() == Next(old(View()), ClearApps) && Inv(View()) && main.Stopping?
      ensures sent == old(cleanup) && cleanup == map[]
    {
      NextInv(View(), ClearApps);
      sent := Terminate(cleanup);
      cleanup := map[];
      log := log + [AppsLeft(sent.Keys, Terminated)];
    }

    /** The end of the process. One thread clears the utility sets, one the cleanup list, and those the handlers
        started erase sets of their own, in any order; when all are through, nothing is tracked. */
    method Shutdown() returns (ghost es: seq<Event>)
      requires main.Stopping? && Inv(View())
      modifies this
      ensures Run(old(View()), es) && View() == After(old(View()), es)
      ensures AllJoined(old(View()), es) && Finished(View())
    {
      ghost var s0 := View();
      es := [];
      var sets, list := utils.Keys, true;
      while sets != {} || list || pending != multiset{}
        invariant main.Stopping? && Inv(View())
        invariant Run(s0, es) && View() == After(s0, es)
        invariant Clearing(s0, es, sets, list)
        decreases sets, list, |pending|
      {
        if {
          case sets != {} =>
            var a := Pick.AnyOf(sets);
            Append(s0, es, ClearUtils(a));
            ClearingGoesOn(s0, es, sets, list, ClearUtils(a));
            es := es + [ClearUtils(a)];
            ClearSet(a);
            sets := sets - {a};
          case list =>
            Append(s0, es, ClearApps);
            ClearingGoesOn(s0, es, sets, list, ClearApps);
            es := es + [ClearApps];
            var _ := ClearList();
            list := false;
          case pending != multiset{} =>
            var t :| t in pending;
            Append(s0, es, RunTask(t));
            ClearingGoesOn(s0, es, sets, list, RunTask(t));
            es := es + [RunTask(t)];
            RunErasure(t);
        }
      }
      ShutdownClears(s0, es);
    }
  }

  /** How far the clearing threads have come. */
  ghost predicate Clearing(s0: State, es: seq<Event>, sets: set<int>, list: bool) {
    (forall a | a in s0.utils :: a in sets || ClearUtils(a) in es) && (list || ClearApps in es)
  }

  lemma ClearingGoesOn(s0: State, es: seq<Event>, sets: set<int>, list: bool, e: Event)
    requires Clearing(s0, es, sets, list)
    ensures Clearing(s0, es + [e], if e.ClearUtils? then sets - {e.app} else sets, list && !e.ClearApps?)
  {
    assert e in es + [e];
  }
}
