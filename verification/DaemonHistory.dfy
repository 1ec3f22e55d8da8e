/** What the frontend daemon promises over whole runs, read off its log: every registered utility is
    signalled exactly once unless it is still tracked, every watched application leaves the cleanup list
    exactly once, and an MPIR instance is given up at most once. */
module DaemonHistory {
  import opened FrontendDaemon
  import Pick

  // ---------------------------------------------------------------- the log against the tables

  /** The tables the log accounts for change from `s` to `t` as entry `e` says, and in no other way. */
  ghost predicate Effect(s: State, t: State, e: Entry) {
    && t.log == s.log + [e]
    && s.lastId <= t.lastId
    && match e
       case UtilRegistered(a, p, sig) =>
         t.utils == s.utils[a := Tracked(s, a)[p := sig]] && t.cleanup == s.cleanup && t.mpir == s.mpir
       case UtilsSignalled(a, sent) =>
         && a in s.utils && sent == s.utils[a] && t.utils == s.utils - {a}
         && t.cleanup == s.cleanup && t.mpir == s.mpir
       case AppWatched(p) =>
         p !in s.cleanup && t.cleanup.Keys == s.cleanup.Keys + {p} && t.utils == s.utils && t.mpir == s.mpir
       case AppsLeft(ps, _) =>
         && ps <= s.cleanup.Keys && t.cleanup.Keys == s.cleanup.Keys - ps
         && t.utils == s.utils && t.mpir == s.mpir
       case MpirHeld(id) =>
         && s.lastId < id <= t.lastId && t.mpir == s.mpir + {id}
         && t.utils == s.utils && t.cleanup == s.cleanup
       case MpirEnded(id, _) =>
         id in s.mpir && t.mpir == s.mpir - {id} && t.utils == s.utils && t.cleanup == s.cleanup
       case MpirRead(id) =>
         id in s.mpir && t.mpir == s.mpir && t.utils == s.utils && t.cleanup == s.cleanup
  }

  ghost predicate SameTables(s: State, t: State) {
    && t.log == s.log && s.lastId <= t.lastId
    && t.utils == s.utils && t.cleanup == s.cleanup && t.mpir == s.mpir
  }

  /** Two states a step apart: no table changes, one entry's effect, or two entries' effects. */
  ghost predicate Accounted(s: State, t: State) {
    || SameTables(s, t)
    || (exists e :: Effect(s, t, e))
    || (exists m, e, f :: Effect(s, m, e) && Effect(m, t, f))
  }

  lemma LeftAccounted(s: State, pid: int, how: Leaving)
    ensures SameTables(s, Left(s, pid, how)) || Effect(s, Left(s, pid, how), AppsLeft({pid}, how))
  {}

  lemma ErasedAccounted(s: State, a: int)
    ensures SameTables(s, UtilsErased(s, a)) || Effect(s, UtilsErased(s, a), UtilsSignalled(a, Tracked(s, a)))
  {}

  lemma ReleaseAccounted(s: State, a: int)
    requires a in s.idPid
    ensures Accounted(s, UtilsErased(Left(Forgotten(s, a), s.idPid[a], LetGo), a))
  {
    var m := Left(Forgotten(s, a), s.idPid[a], LetGo);
    LeftAccounted(Forgotten(s, a), s.idPid[a], LetGo);
    ErasedAccounted(m, a);
    var t := UtilsErased(m, a);
    if m.log == s.log {
      if t.log != m.log { assert Effect(s, t, UtilsSignalled(a, Tracked(m, a))); }
    } else {
      assert Effect(s, m, AppsLeft({s.idPid[a]}, LetGo));
      if t.log != m.log { assert Effect(m, t, UtilsSignalled(a, Tracked(m, a))); }
    }
  }

  lemma ByEffect(s: State, t: State, e: Entry)
    requires Effect(s, t, e)
    ensures Accounted(s, t)
  {}

  lemma RegistrationAccounted(s: State, e: Event)
    requires Enabled(s, e) && (e.RegisterApp? || e.RegisterUtil? || e.AttachMpir? || e.LaunchMpir?)
    ensures Accounted(s, Next(s, e))
  {
    var t := Next(s, e);
    if e.RegisterUtil? {
      if t != s { ByEffect(s, t, UtilRegistered(e.app, e.pid, e.sig)); }
    } else if !e.RegisterApp? && Registrable(s, e.pid) && e.gotTable {
      ByEffect(s, t, MpirHeld(t.lastId));
    } else {
      assert SameTables(s, t);
    }
  }

  lemma MpirAccounted(s: State, e: Event)
    requires Enabled(s, e) && (e.EndMpir? || e.ReadMpir?)
    ensures Accounted(s, Next(s, e))
  {
    if if e.EndMpir? then EndsMpir(s, e.id, e.ending, e.ok) else e.id in s.mpir && e.ok {
      ByEffect(s, Next(s, e), if e.EndMpir? then MpirEnded(e.id, e.ending) else MpirRead(e.id));
    }
  }

  lemma ErasureAccounted(s: State, e: Event)
    requires Enabled(s, e) && (e.RunTask? || e.ClearUtils?)
    ensures Accounted(s, Next(s, e))
  {
    var a := if e.RunTask? then e.task.app else e.app;
    if a in s.utils { ByEffect(s, Next(s, e), UtilsSignalled(a, s.utils[a])); }
  }

  lemma CleanupAccounted(s: State, e: Event)
    requires Inv(s) && Enabled(s, e) && (e.WatchLauncher? || e.ClearApps?)
    ensures Accounted(s, Next(s, e))
  {
    ByEffect(s, Next(s, e),
             if e.WatchLauncher? then AppWatched(s.main.pid) else AppsLeft(s.cleanup.Keys, Terminated));
  }

  lemma LeavingAccounted(s: State, e: Event)
    requires Enabled(s, e) && (e.TerminateApp? || e.ChildExit?)
    ensures Accounted(s, Next(s, e))
  {
    var pid, how := if e.TerminateApp? then s.main.pid else e.pid, if e.TerminateApp? then Terminated else Exited;
    LeftAccounted(s, pid, how);
    if Next(s, e).log != s.log { ByEffect(s, Next(s, e), AppsLeft({pid}, how)); }
  }

  lemma NextAccounted(s: State, e: Event)
    requires Inv(s) && Enabled(s, e)
    ensures Accounted(s, Next(s, e))
  {
    if e.RegisterApp? || e.RegisterUtil? || e.AttachMpir? || e.LaunchMpir? {
      RegistrationAccounted(s, e);
    } else if e.EndMpir? || e.ReadMpir? {
      MpirAccounted(s, e);
    } else if e.RunTask? || e.ClearUtils? {
      ErasureAccounted(s, e);
    } else if e.Release? {
      if e.app in s.idPid { ReleaseAccounted(s, e.app); }
    } else if e.Unlink? || e.Join? || e.Stop? {
      assert SameTables(s, Next(s, e));
    } else if e.WatchLauncher? || e.ClearApps? {
      CleanupAccounted(s, e);
    } else {
      LeavingAccounted(s, e);
    }
  }

  ghost predicate Ledger(s: State) {
    UtilLedger(s) && WatchLedger(s) && MpirLedger(s)
  }

  lemma EffectKeepsLedger(s: State, t: State, e: Entry)
    requires Ledger(s) && Effect(s, t, e)
    ensures Ledger(t)
  {
    UtilLedgerEffect(s, t, e);
    WatchLedgerEffect(s, t, e);
    MpirLedgerEffect(s, t, e);
  }

  lemma {:induction false} RunLedger(s: State, es: seq<Event>)
    requires Inv(s) && Ledger(s) && Run(s, es)
    ensures Ledger(After(s, es))
    decreases |es|
  {
    if es != [] {
      NextInv(s, es[0]);
      NextAccounted(s, es[0]);
      StepKeepsLedger(s, Next(s, es[0]));
      RunLedger(Next(s, es[0]), es[1..]);
    }
  }

  lemma StepKeepsLedger(s: State, t: State)
    requires Ledger(s) && Accounted(s, t)
    ensures Ledger(t)
  {
    if SameTables(s, t) {
    } else if e :| Effect(s, t, e) {
      EffectKeepsLedger(s, t, e);
    } else {
      var m, e, f :| Effect(s, m, e) && Effect(m, t, f);
      EffectKeepsLedger(s, m, e);
      EffectKeepsLedger(m, t, f);
    }
  }

  // ---------------------------------------------------------------- utilities

  /** The utilities of application `a` that the log says have still to be signalled, with the signal of
      their latest registration. */
  ghost function Owed(log: seq<Entry>, a: int): map<int, Signal> {
    if log == [] then map[] else OwedAfter(Owed(log[..|log| - 1], a), log[|log| - 1], a)
  }

  ghost function OwedAfter(before: map<int, Signal>, e: Entry, a: int): map<int, Signal> {
    match e
    case UtilRegistered(b, p, sig) => if a == b then before[p := sig] else before
    case UtilsSignalled(b, sent) => if a == b then before - sent.Keys else before
    case _ => before
  }

  /** Each burst of signals goes to exactly the utilities owed one, with exactly the signal owed. */
  ghost predicate UtilsSound(log: seq<Entry>) {
    forall i | 0 <= i < |log| :: log[i].UtilsSignalled? ==> log[i].sent == Owed(log[..i], log[i].app)
  }

  ghost predicate UtilLedger(s: State) {
    && UtilsSound(s.log)
    && forall a :: Owed(s.log, a) == Tracked(s, a)
  }

  lemma OwedAppend(log: seq<Entry>, e: Entry, a: int)
    ensures Owed(log + [e], a) == OwedAfter(Owed(log, a), e, a)
  {
    assert (log + [e])[..|log|] == log;
  }

  lemma SoundAppend(log: seq<Entry>, e: Entry)
    requires UtilsSound(log)
    requires e.UtilsSignalled? ==> e.sent == Owed(log, e.app)
    ensures UtilsSound(log + [e])
  {
    var l := log + [e];
    forall i | 0 <= i < |l| && l[i].UtilsSignalled? ensures l[i].sent == Owed(l[..i], l[i].app) {
      assert l[..i] == log[..i];
      assert log[..|log|] == log;
    }
  }

  lemma UtilLedgerEffect(s: State, t: State, e: Entry)
    requires UtilLedger(s) && Effect(s, t, e)
    ensures UtilLedger(t)
  {
    SoundAppend(s.log, e);
    forall a ensures Owed(t.log, a) == Tracked(t, a) { OwedAppend(s.log, e, a); }
  }

  ghost predicate Hit(log: seq<Entry>, j: nat, a: int, p: int)
    requires j < |log|
  {
    log[j].UtilsSignalled? && log[j].app == a && p in log[j].sent
  }

  ghost predicate LatestRegistration(log: seq<Entry>, i: nat) {
    && i < |log|
    && log[i].UtilRegistered?
    && forall k | i < k < |log| :: log[k].UtilRegistered? ==> log[k].app != log[i].app || log[k].pid != log[i].pid
  }

  /** Since its latest registration a utility is owed its signal and has had none, or has had it once. */
  ghost predicate SignalPending(log: seq<Entry>, i: nat)
    requires i < |log| && log[i].UtilRegistered?
  {
    && log[i].pid in Owed(log, log[i].app)
    && Owed(log, log[i].app)[log[i].pid] == log[i].sig
    && forall j | i < j < |log| :: !Hit(log, j, log[i].app, log[i].pid)
  }

  ghost predicate SignalSentOnce(log: seq<Entry>, i: nat)
    requires i < |log| && log[i].UtilRegistered?
  {
    && log[i].pid !in Owed(log, log[i].app)
    && exists j | i < j < |log| ::
         && Hit(log, j, log[i].app, log[i].pid)
         && log[j].sent[log[i].pid] == log[i].sig
         && forall k | i < k < |log| && Hit(log, k, log[i].app, log[i].pid) :: k == j
  }

  lemma SoundPrefix(log: seq<Entry>, n: nat)
    requires UtilsSound(log) && n <= |log|
    ensures UtilsSound(log[..n])
  {
    forall k | 0 <= k < n && log[..n][k].UtilsSignalled?
      ensures log[..n][k].sent == Owed(log[..n][..k], log[..n][k].app)
    {
      assert log[..n][..k] == log[..k];
    }
  }

  /** One more entry, which is not a registration of the same utility, moves a registration from pending
      to sent or leaves it where it is. */
  lemma PendingStep(init: seq<Entry>, e: Entry, i: nat)
    requires UtilsSound(init + [e]) && i < |init| && LatestRegistration(init + [e], i)
    requires SignalPending(init, i)
    ensures SignalPending(init + [e], i) || SignalSentOnce(init + [e], i)
  {
    var log, n := init + [e], |init|;
    var a, p := init[i].app, init[i].pid;
    OwedAppend(init, e, a);
    assert log[..n] == init && log[n] == e;
    assert forall k | i < k < n :: Hit(log, k, a, p) == Hit(init, k, a, p);
    if Hit(log, n, a, p) {
      assert e.sent == Owed(init, a);
    }
  }

  lemma SentStep(init: seq<Entry>, e: Entry, i: nat)
    requires UtilsSound(init + [e]) && i < |init| && LatestRegistration(init + [e], i)
    requires SignalSentOnce(init, i)
    ensures SignalSentOnce(init + [e], i)
  {
    var log, n := init + [e], |init|;
    var a, p := init[i].app, init[i].pid;
    OwedAppend(init, e, a);
    assert log[..n] == init && log[n] == e;
    assert forall k | i < k < n :: Hit(log, k, a, p) == Hit(init, k, a, p);
    var j :| i < j < n && Hit(init, j, a, p) && init[j].sent[p] == init[i].sig
             && forall k | i < k < n && Hit(init, k, a, p) :: k == j;
    assert Hit(log, j, a, p) && !Hit(log, n, a, p);
  }

  lemma {:induction false} PendingOrSentOnce(log: seq<Entry>, i: nat)
    requires UtilsSound(log) && LatestRegistration(log, i)
    ensures SignalPending(log, i) || SignalSentOnce(log, i)
  {
    var n := |log| - 1;
    assert log == log[..n] + [log[n]];
    if i < n {
      SoundPrefix(log, n);
      PendingOrSentOnce(log[..n], i);
      if SignalPending(log[..n], i) {
        PendingStep(log[..n], log[n], i);
      } else {
        SentStep(log[..n], log[n], i);
      }
    }
  }

  /** Conservation of utilities: over every run, for the latest registration of each (application,
      utility) pair, the utility is still tracked with that signal and was not signalled since, or it is
      no longer tracked and was sent exactly that signal exactly once since. */
  lemma UtilitiesConserved(es: seq<Event>, i: nat)
    requires Run(START, es) && LatestRegistration(After(START, es).log, i)
    ensures var s := After(START, es);
            var e := s.log[i];
            if e.pid in Tracked(s, e.app)
            then Tracked(s, e.app)[e.pid] == e.sig && SignalPending(s.log, i)
            else SignalSentOnce(s.log, i)
  {
    RunLedger(START, es);
    PendingOrSentOnce(After(START, es).log, i);
  }

  /** The process has stopped serving, emptied its tables and joined every thread. */
  ghost predicate Finished(s: State) {
    s.main.Stopping? && s.utils == map[] && s.cleanup == map[] && s.pending == multiset{}
  }

  /** Once it has stopped serving, the daemon only lets go of things, whichever thread is next. */
  lemma StoppingShrinks(s: State, e: Event)
    requires s.main.Stopping? && Enabled(s, e)
    ensures var t := Next(s, e);
            && t.main.Stopping? && t.utils.Keys <= s.utils.Keys && t.cleanup.Keys <= s.cleanup.Keys
            && (e.ClearUtils? ==> e.app !in t.utils)
            && (e.ClearApps? ==> t.cleanup == map[])
  {
  }

  lemma {:induction false} StoppedRun(s: State, es: seq<Event>, a: int)
    requires s.main.Stopping? && Run(s, es)
    ensures var t := After(s, es);
            && t.main.Stopping? && t.utils.Keys <= s.utils.Keys && t.cleanup.Keys <= s.cleanup.Keys
            && (ClearUtils(a) in es ==> a !in t.utils)
            && (ClearApps in es ==> t.cleanup == map[])
    decreases |es|
  {
    if es != [] {
      StoppingShrinks(s, es[0]);
      StoppedRun(Next(s, es[0]), es[1..], a);
      assert forall e | e in es :: e == es[0] || e in es[1..];
      if es[0].ClearApps? { assert After(s, es).cleanup.Keys == {}; }
    }
  }

  /** What the end of the process waits for: that every utility set it found has been cleared, that the cleanup
      list has been, and that no erasure is outstanding. */
  ghost predicate AllJoined(s: State, es: seq<Event>)
    requires Run(s, es)
  {
    && (forall a | a in s.utils :: ClearUtils(a) in es)
    && ClearApps in es
    && After(s, es).pending == multiset{}
  }

  /** Shutting down, in whatever order the clearing threads and the scheduled erasures run: once all of them are
      through, nothing is tracked. */
  lemma ShutdownClears(s: State, es: seq<Event>)
    requires s.main.Stopping? && Run(s, es) && AllJoined(s, es)
    ensures Finished(After(s, es))
  {
    var t := After(s, es);
    StoppedRun(s, es, 0);
    forall a | a in s.utils ensures a !in t.utils { StoppedRun(s, es, a); }
    assert t.utils.Keys == {};
    assert t.utils == map[];
  }

  lemma {:induction false} Append(s: State, es: seq<Event>, e: Event)
    requires Run(s, es) && Enabled(After(s, es), e)
    ensures Run(s, es + [e]) && After(s, es + [e]) == Next(After(s, es), e)
    decreases |es|
  {
    if es == [] {
      Prepend(s, e, []);
    } else {
      assert (es + [e])[1..] == es[1..] + [e];
      Append(Next(s, es[0]), es[1..], e);
    }
  }

  lemma FirstMoves(a: seq<Event>, b: seq<Event>)
    requires b != []
    ensures a + [b[0]] + b[1..] == a + b
  {
  }

  lemma {:induction false} Concat(s: State, a: seq<Event>, b: seq<Event>)
    requires Run(s, a) && Run(After(s, a), b)
    ensures Run(s, a + b) && After(s, a + b) == After(After(s, a), b)
    decreases |b|
  {
    if b == [] {
      assert a + b == a;
    } else {
      Append(s, a, b[0]);
      Concat(s, a + [b[0]], b[1..]);
      FirstMoves(a, b);
    }
  }

  lemma Prepend(s: State, e: Event, es: seq<Event>)
    requires Enabled(s, e) && Run(Next(s, e), es)
    ensures Run(s, [e] + es) && After(s, [e] + es) == After(Next(s, e), es)
  {
    assert ([e] + es)[1..] == es;
  }

  lemma {:induction false} ClearingFinishes(s: State) returns (es: seq<Event>)
    requires s.main.Stopping? && s.pending == multiset{}
    ensures Run(s, es) && Finished(After(s, es))
    decreases s.utils.Keys
  {
    if s.utils.Keys != {} {
      var a := Pick.Witness(s.utils.Keys);
      var t := Next(s, ClearUtils(a));
      assert a in s.utils.Keys && a !in t.utils.Keys;
      var rest := ClearingFinishes(t);
      Prepend(s, ClearUtils(a), rest);
      es := [ClearUtils(a)] + rest;
    } else {
      assert s.utils == map[];
      Prepend(s, ClearApps, []);
      es := [ClearApps] + [];
    }
  }

  /** Shutting down can always be completed: from any state that has left the request loop there is a way to the
      end. */
  lemma {:induction false} ShutdownFinishes(s: State) returns (es: seq<Event>)
    requires s.main.Stopping?
    ensures Run(s, es) && Finished(After(s, es))
    decreases |s.pending|
  {
    if t :| t in s.pending {
      var s' := Next(s, RunTask(t));
      assert s'.pending == s.pending - multiset{t} && s'.main == s.main;
      var rest := ShutdownFinishes(s');
      Prepend(s, RunTask(t), rest);
      es := [RunTask(t)] + rest;
    } else {
      es := ClearingFinishes(s);
    }
  }

  // ---------------------------------------------------------------- applications on the cleanup list

  ghost function Watched(log: seq<Entry>): set<int> {
    if log == [] then {} else WatchedAfter(Watched(log[..|log| - 1]), log[|log| - 1])
  }

  ghost function WatchedAfter(before: set<int>, e: Entry): set<int> {
    match e
    case AppWatched(p) => before + {p}
    case AppsLeft(ps, _) => before - ps
    case _ => before
  }

  ghost predicate WatchFits(before: set<int>, e: Entry) {
    match e
    case AppWatched(p) => p !in before
    case AppsLeft(ps, _) => ps <= before
    case _ => true
  }

  ghost predicate WatchesSound(log: seq<Entry>) {
    forall i | 0 <= i < |log| :: WatchFits(Watched(log[..i]), log[i])
  }

  ghost predicate WatchLedger(s: State) {
    WatchesSound(s.log) && Watched(s.log) == s.cleanup.Keys
  }

  lemma WatchAppend(log: seq<Entry>, e: Entry)
    requires WatchesSound(log)
    requires WatchFits(Watched(log), e)
    ensures WatchesSound(log + [e])
    ensures Watched(log + [e]) == WatchedAfter(Watched(log), e)
  {
    var l := log + [e];
    assert l[..|log|] == log;
    forall i | 0 <= i < |l| ensures WatchFits(Watched(l[..i]), l[i]) {
      if i < |log| { assert l[..i] == log[..i]; }
    }
  }

  lemma WatchLedgerEffect(s: State, t: State, e: Entry)
    requires WatchLedger(s) && Effect(s, t, e)
    ensures WatchLedger(t)
  {
    WatchAppend(s.log, e);
  }

  ghost predicate Leaves(log: seq<Entry>, j: nat, p: int)
    requires j < |log|
  {
    log[j].AppsLeft? && p in log[j].pids
  }

  ghost predicate LatestWatch(log: seq<Entry>, i: nat)
    requires i < |log|
  {
    log[i].AppWatched? && forall k | i < k < |log| :: log[k].AppWatched? ==> log[k].pid != log[i].pid
  }

  ghost predicate StillWatched(log: seq<Entry>, i: nat)
    requires i < |log| && log[i].AppWatched?
  {
    log[i].pid in Watched(log) && forall j | i < j < |log| :: !Leaves(log, j, log[i].pid)
  }

  ghost predicate LeftOnce(log: seq<Entry>, i: nat)
    requires i < |log| && log[i].AppWatched?
  {
    && log[i].pid !in Watched(log)
    && exists j | i < j < |log| ::
         Leaves(log, j, log[i].pid) && forall k | i < k < |log| && Leaves(log, k, log[i].pid) :: k == j
  }

  lemma WatchesPrefix(log: seq<Entry>, n: nat)
    requires WatchesSound(log) && n <= |log|
    ensures WatchesSound(log[..n])
  {
    forall k | 0 <= k < n ensures WatchFits(Watched(log[..n][..k]), log[..n][k]) {
      assert log[..n][..k] == log[..k];
    }
  }

  lemma WatchedStays(init: seq<Entry>, e: Entry, i: nat)
    requires WatchesSound(init) && WatchFits(Watched(init), e) && i < |init| && LatestWatch(init + [e], i)
    requires StillWatched(init, i) && !(e.AppsLeft? && init[i].pid in e.pids)
    ensures StillWatched(init + [e], i)
  {
    var log, p := init + [e], init[i].pid;
    WatchAppend(init, e);
    forall j | i < j < |log| ensures !Leaves(log, j, p)
    {
      if j < |init| { assert !Leaves(init, j, p); }
    }
  }

  lemma WatchedLeaves(init: seq<Entry>, e: Entry, i: nat)
    requires WatchesSound(init) && WatchFits(Watched(init), e) && i < |init| && LatestWatch(init + [e], i)
    requires StillWatched(init, i) && e.AppsLeft? && init[i].pid in e.pids
    ensures LeftOnce(init + [e], i)
  {
    var log, p := init + [e], init[i].pid;
    WatchAppend(init, e);
    assert Leaves(log, |init|, p);
    forall k | i < k < |log| && Leaves(log, k, p) ensures k == |init|
    {
      if k < |init| { assert Leaves(init, k, p); }
    }
  }

  lemma WatchedStep(init: seq<Entry>, e: Entry, i: nat)
    requires WatchesSound(init) && WatchFits(Watched(init), e)
    requires i < |init| && LatestWatch(init + [e], i)
    requires StillWatched(init, i)
    ensures StillWatched(init + [e], i) || LeftOnce(init + [e], i)
  {
    if e.AppsLeft? && init[i].pid in e.pids { WatchedLeaves(init, e, i); } else { WatchedStays(init, e, i); }
  }

  lemma LeftStep(init: seq<Entry>, e: Entry, i: nat)
    requires WatchesSound(init) && WatchFits(Watched(init), e)
    requires i < |init| && LatestWatch(init + [e], i)
    requires LeftOnce(init, i)
    ensures LeftOnce(init + [e], i)
  {
    var log, n, p := init + [e], |init|, init[i].pid;
    WatchAppend(init, e);
    var j :| i < j < n && Leaves(init, j, p) && forall k | i < k < n && Leaves(init, k, p) :: k == j;
    assert Leaves(log, j, p) && !Leaves(log, n, p);
    forall k | i < k < |log| && Leaves(log, k, p) ensures k == j {
      if k < n { assert Leaves(init, k, p); }
    }
  }

  lemma {:induction false} WatchedOrLeftOnce(log: seq<Entry>, i: nat)
    requires WatchesSound(log) && i < |log| && LatestWatch(log, i)
    ensures StillWatched(log, i) || LeftOnce(log, i)
  {
    var n := |log| - 1;
    assert log == log[..n] + [log[n]];
    WatchesPrefix(log, n);
    WatchAppend(log[..n], log[n]);
    if i < n {
      WatchedOrLeftOnce(log[..n], i);
      if StillWatched(log[..n], i) {
        WatchedStep(log[..n], log[n], i);
      } else {
        LeftStep(log[..n], log[n], i);
      }
    }
  }

  /** Conservation of applications: a launcher put on the cleanup list is on it, and nothing was
      recorded of it since, or it is off it because it exited, was terminated or was let go, once. */
  lemma AppsConserved(es: seq<Event>, i: nat)
    requires Run(START, es) && i < |After(START, es).log| && LatestWatch(After(START, es).log, i)
    ensures var s := After(START, es);
            if s.log[i].pid in s.cleanup then StillWatched(s.log, i) else LeftOnce(s.log, i)
  {
    RunLedger(START, es);
    WatchedOrLeftOnce(After(START, es).log, i);
  }

  // ---------------------------------------------------------------- MPIR instances

  ghost function HeldIds(log: seq<Entry>): set<int> {
    if log == [] then {}
    else
      var before := HeldIds(log[..|log| - 1]);
      match log[|log| - 1]
      case MpirHeld(id) => before + {id}
      case MpirEnded(id, _) => before - {id}
      case _ => before
  }

  ghost predicate UsesMpir(e: Entry, id: int) {
    (e.MpirEnded? || e.MpirRead?) && e.id == id
  }

  ghost predicate MpirLedger(s: State) {
    && HeldIds(s.log) == s.mpir
    && (forall i | 0 <= i < |s.log| && s.log[i].MpirHeld? :: s.log[i].id <= s.lastId)
    && (forall i, j | 0 <= i < j < |s.log| && s.log[i].MpirHeld? && s.log[j].MpirHeld? :: s.log[i].id != s.log[j].id)
    && (forall i, id | 0 <= i < |s.log| && UsesMpir(s.log[i], id) :: id in HeldIds(s.log[..i]))
  }

  lemma MpirLedgerEffect(s: State, t: State, e: Entry)
    requires MpirLedger(s) && Effect(s, t, e)
    ensures MpirLedger(t)
  {
    assert t.log[..|s.log|] == s.log;
    forall i, id | 0 <= i < |t.log| && UsesMpir(t.log[i], id) ensures id in HeldIds(t.log[..i]) {
      if i < |s.log| { assert t.log[..i] == s.log[..i]; }
    }
  }

  lemma {:induction false} HeldWasIssued(log: seq<Entry>, id: int) returns (k: nat)
    requires id in HeldIds(log)
    ensures k < |log| && log[k] == MpirHeld(id)
  {
    var n := |log| - 1;
    if log[n] == MpirHeld(id) {
      k := n;
    } else {
      k := HeldWasIssued(log[..n], id);
    }
  }

  /** Once given up, an id is not held again as long as it is not issued again. */
  lemma {:induction false} EndedStaysEnded(log: seq<Entry>, i: nat, j: nat, id: int)
    requires i < j <= |log| && log[i].MpirEnded? && log[i].id == id
    requires forall k | i < k < |log| :: log[k] != MpirHeld(id)
    ensures id !in HeldIds(log[..j])
  {
    assert log[..j][..j - 1] == log[..j - 1];
    if i < j - 1 { EndedStaysEnded(log, i, j - 1, id); }
  }

  /** For every MPIR id in every run: a release, wait or terminate that succeeds concerns an id that a
      launch or attach issued earlier, and after it no release, wait, terminate or string read of that id
      succeeds. */
  lemma MpirEndsOnce(es: seq<Event>, i: nat)
    requires Run(START, es) && i < |After(START, es).log| && After(START, es).log[i].MpirEnded?
    ensures var log := After(START, es).log;
            && (exists k | 0 <= k < i :: log[k] == MpirHeld(log[i].id))
            && (forall j | i < j < |log| :: !UsesMpir(log[j], log[i].id))
  {
    RunLedger(START, es);
    var log := After(START, es).log;
    var id := log[i].id;
    assert UsesMpir(log[i], id);
    var k := HeldWasIssued(log[..i], id);
    assert log[k] == MpirHeld(id);
    assert forall m | i < m < |log| :: log[m] != MpirHeld(id);
    forall j | i < j < |log| ensures !UsesMpir(log[j], id) {
      EndedStaysEnded(log, i, j, id);
    }
  }

  // ---------------------------------------------------------------- ids

  ghost predicate SameMaps(s: State, t: State) {
    t.idPid == s.idPid && t.pidId == s.pidId && t.lastId == s.lastId
  }

  ghost predicate Registers(e: Event) {
    e.RegisterApp? || e.AttachMpir? || e.LaunchMpir?
  }

  ghost predicate Forgets(e: Event) {
    e.Unlink? || e.Release?
  }

  lemma RegisteringMaps(s: State, e: Event)
    requires Enabled(s, e) && Registers(e)
    ensures SameMaps(if Registrable(s, e.pid) then Registered(s, e.pid) else s, Next(s, e))
  {
  }

  lemma ForgettingMaps(s: State, e: Event)
    requires Enabled(s, e) && Forgets(e)
    ensures SameMaps(if e.app in s.idPid then Forgotten(s, e.app) else s, Next(s, e))
  {
  }

  lemma ExitMaps(s: State, pid: int)
    requires Enabled(s, ChildExit(pid))
    ensures SameMaps(s, Next(s, ChildExit(pid)))
  {
  }

  lemma ErasingMaps(s: State, e: Event)
    requires Enabled(s, e) && (e.RunTask? || e.ClearUtils? || e.ClearApps?)
    ensures SameMaps(s, Next(s, e))
  {
  }

  lemma QuietMaps(s: State, e: Event)
    requires Enabled(s, e) && (e.RegisterUtil? || e.EndMpir? || e.ReadMpir? || e.Stop?)
    ensures SameMaps(s, Next(s, e))
  {
  }

  lemma PhaseMaps(s: State, e: Event)
    requires Enabled(s, e) && (e.WatchLauncher? || e.TerminateApp? || e.Join?)
    ensures SameMaps(s, Next(s, e))
  {
  }

  lemma OtherMaps(s: State, e: Event)
    requires Enabled(s, e) && !Registers(e) && !Forgets(e)
    ensures SameMaps(s, Next(s, e))
  {
    if e.ChildExit? {
      ExitMaps(s, e.pid);
    } else if e.RunTask? || e.ClearUtils? || e.ClearApps? {
      ErasingMaps(s, e);
    } else if e.WatchLauncher? || e.TerminateApp? || e.Join? {
      PhaseMaps(s, e);
    } else {
      QuietMaps(s, e);
    }
  }

  /** The state whose maps a step leaves behind: they change only by registering a pid or by forgetting an
      application. */
  ghost function MapsAfter(s: State, e: Event): State {
    if Registers(e) then if Registrable(s, e.pid) then Registered(s, e.pid) else s
    else if Forgets(e) then if e.app in s.idPid then Forgotten(s, e.app) else s
    else s
  }

  lemma NextMaps(s: State, e: Event)
    requires Enabled(s, e)
    ensures SameMaps(MapsAfter(s, e), Next(s, e))
  {
    if Registers(e) {
      RegisteringMaps(s, e);
    } else if Forgets(e) {
      ForgettingMaps(s, e);
    } else {
      OtherMaps(s, e);
    }
  }

  lemma StepKeepsId(s: State, e: Event, a: int)
    requires Inv(s) && Enabled(s, e) && a <= s.lastId
    ensures a in Next(s, e).idPid ==> a in s.idPid && Next(s, e).idPid[a] == s.idPid[a]
    ensures s.lastId <= Next(s, e).lastId
  {
    NextMaps(s, e);
  }

  /** An id keeps its pid for as long as it is registered, and once given up it stays unregistered. */
  lemma {:induction false} IdsNeverReused(s: State, es: seq<Event>, a: int)
    requires Inv(s) && Run(s, es) && a <= s.lastId
    ensures a in After(s, es).idPid ==> a in s.idPid && After(s, es).idPid[a] == s.idPid[a]
    decreases |es|
  {
    if es != [] {
      NextInv(s, es[0]);
      StepKeepsId(s, es[0], a);
      IdsNeverReused(Next(s, es[0]), es[1..], a);
    }
  }

  lemma ErasureIsLocal(t: State, task: Task, b: int)
    requires task in t.pending
    ensures var u := Next(t, RunTask(task));
            && Tracked(u, b) == (if b == task.app then map[] else Tracked(t, b))
            && u.cleanup == t.cleanup && u.idPid == t.idPid && u.pidId == t.pidId
  {}

  /** However late a scheduled erasure runs, it signals only what is registered under its own id, and if
      that id still names an application then it is the one the handler saw exit. */
  lemma LateErasureStaysHome(s: State, pid: int, later: seq<Event>, b: int)
    requires Inv(s) && !s.main.Stopping? && pid > 1 && pid in s.pidId && s.pidId[pid] in s.utils
    requires Run(Next(s, ChildExit(pid)), later)
    requires Task(s.pidId[pid], false) in After(Next(s, ChildExit(pid)), later).pending
    ensures var a := s.pidId[pid];
            var t := After(Next(s, ChildExit(pid)), later);
            var u := Next(t, RunTask(Task(a, false)));
            && (a in t.idPid ==> t.idPid[a] == pid)
            && Tracked(u, b) == (if b == a then map[] else Tracked(t, b))
            && u.cleanup == t.cleanup && u.idPid == t.idPid && u.pidId == t.pidId
  {
    var s' := Next(s, ChildExit(pid));
    NextInv(s, ChildExit(pid));
    StepKeepsId(s, ChildExit(pid), s.pidId[pid]);
    IdsNeverReused(s', later, s.pidId[pid]);
    ErasureIsLocal(After(s', later), Task(s.pidId[pid], false), b);
  }

  // ---------------------------------------------------------------- the two maps

  /** pid to id and id to pid are mutual inverses on the pids that are not 0. */
  ghost predicate MutualInverses(s: State) {
    && (forall id | id in s.idPid && s.idPid[id] != 0 :: s.idPid[id] in s.pidId && s.pidId[s.idPid[id]] == id)
    && (forall p | p in s.pidId :: p != 0 && s.pidId[p] in s.idPid && s.idPid[s.pidId[p]] == p)
  }

  /** A request forgets an application whose pid is negative. */
  ghost predicate ForgetsNegative(s: State, e: Event) {
    (e.Unlink? || e.Release?) && e.app in s.idPid && s.idPid[e.app] < 0
  }

  /** No step from `s` on forgets a negative pid. */
  ghost predicate NeverForgetsNegative(s: State, es: seq<Event>)
    requires Run(s, es)
    decreases |es|
  {
    es == [] || (!ForgetsNegative(s, es[0]) && NeverForgetsNegative(Next(s, es[0]), es[1..]))
  }

  /** A pid whose id is gone: it can never be registered again. */
  ghost predicate Stale(s: State, p: int) {
    p in s.pidId && s.pidId[p] !in s.idPid
  }

  lemma StaleStays(s: State, e: Event, p: int)
    requires Inv(s) && Enabled(s, e) && Stale(s, p)
    ensures Stale(Next(s, e), p)
  {
    NextMaps(s, e);
  }

  lemma {:induction false} StaleForEver(s: State, es: seq<Event>, p: int)
    requires Inv(s) && Run(s, es) && Stale(s, p)
    ensures Stale(After(s, es), p)
    decreases |es|
  {
    if es != [] {
      NextInv(s, es[0]);
      StaleStays(s, es[0], p);
      StaleForEver(Next(s, es[0]), es[1..], p);
    }
  }

  lemma MapsDecide(s: State, t: State, p: int)
    requires SameMaps(s, t)
    ensures MutualInverses(s) <==> MutualInverses(t)
    ensures Stale(s, p) <==> Stale(t, p)
  {
  }

  lemma RegisteringKeepsInverses(s: State, pid: int)
    requires MapsAgree(s) && MutualInverses(s) && Registrable(s, pid)
    ensures MutualInverses(Registered(s, pid))
  {
  }

  lemma ForgettingAndInverses(s: State, a: int)
    requires MapsAgree(s) && MutualInverses(s) && a in s.idPid
    ensures if s.idPid[a] < 0 then Stale(Forgotten(s, a), s.idPid[a]) else MutualInverses(Forgotten(s, a))
  {
  }

  lemma StepKeepsInverses(s: State, e: Event)
    requires Inv(s) && Enabled(s, e) && MutualInverses(s)
    ensures if ForgetsNegative(s, e) then Stale(Next(s, e), s.idPid[e.app]) else MutualInverses(Next(s, e))
  {
    NextMaps(s, e);
    if Registers(e) && Registrable(s, e.pid) { RegisteringKeepsInverses(s, e.pid); }
    if Forgets(e) && e.app in s.idPid { ForgettingAndInverses(s, e.app); }
    MapsDecide(MapsAfter(s, e), Next(s, e), if ForgetsNegative(s, e) then s.idPid[e.app] else 0);
  }

  /** The daemon's two maps are mutual inverses at the end of a run exactly when the run never forgot an
      application registered under a negative pid. */
  lemma {:induction false} InversesExactly(s: State, es: seq<Event>)
    requires Inv(s) && MutualInverses(s) && Run(s, es)
    ensures MutualInverses(After(s, es)) <==> NeverForgetsNegative(s, es)
    decreases |es|
  {
    if es != [] {
      NextInv(s, es[0]);
      StepKeepsInverses(s, es[0]);
      if ForgetsNegative(s, es[0]) {
        StaleForEver(Next(s, es[0]), es[1..], s.idPid[es[0].app]);
      } else {
        InversesExactly(Next(s, es[0]), es[1..]);
      }
    }
  }

  /** After registering -5 and deregistering it, the pid is refused for good: whatever happens later. */
  lemma NegativePidIsStuck(later: seq<Event>)
    requires Run(After(START, ForgottenNegative()), later)
    ensures var s := After(After(START, ForgottenNegative()), later);
            !MutualInverses(s) && !Registrable(s, -5)
  {
    RunInv(START, ForgottenNegative());
    ForgottenIsStale();
    StaleForEver(After(START, ForgottenNegative()), later, -5);
  }

  function ForgottenNegative(): (es: seq<Event>)
    ensures Run(START, es)
  {
    assert [Unlink(1)][1..] == [];
    var es := [RegisterApp(-5), Unlink(1)];
    assert es[1..] == [Unlink(1)];
    es
  }

  lemma ForgottenIsStale()
    ensures Stale(After(START, ForgottenNegative()), -5)
  {
    var es := ForgottenNegative();
    var s1 := Next(START, RegisterApp(-5));
    assert s1.idPid == map[1 := -5] && s1.pidId == map[-5 := 1];
    var s2 := Next(s1, Unlink(1));
    assert s2.idPid == map[] && s2.pidId == map[-5 := 1];
    assert es[1..] == [Unlink(1)] && es[1..][1..] == [];
    assert After(s2, []) == s2;
    assert After(s1, [Unlink(1)]) == s2;
    assert After(START, es) == s2;
  }

  // ---------------------------------------------------------------- in one place

  /** In every reachable state: ids are in range, a positive pid and its id point at each other, utilities
      and the cleanup list concern registered applications only (or the one being deregistered), and the
      books balance. */
  lemma ReachableTables(es: seq<Event>)
    requires Run(START, es)
    ensures var s := After(START, es);
            && (forall id | id in s.idPid :: 1 <= id <= s.lastId)
            && (forall p | p in s.pidId && p > 0 :: s.pidId[p] in s.idPid && s.idPid[s.pidId[p]] == p)
            && (forall id | id in s.idPid && s.idPid[id] > 0 :: s.idPid[id] in s.pidId && s.pidId[s.idPid[id]] == id)
            && (forall a | a in s.utils :: a in s.idPid || (Task(a, true) in s.pending && !s.main.Idle?))
            && (forall p | p in s.cleanup :: p > 0 && (p in s.pidId || (s.main.Unlinked? && s.main.pid == p)))
            && Ledger(s)
  {
    RunInv(START, es);
    RunLedger(START, es);
  }
}
