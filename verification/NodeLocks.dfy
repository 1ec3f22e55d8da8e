/** The lock-file protocol that orders the backend daemons started on one compute node.

    Every daemon carries the sequence number its session gave it. It unpacks its archive, appends its
    pid to the pid file, creates the lock file of its own number and, when it has a tool to run, looks
    for the lock files of the lower numbers, highest first, down to number 1, before it execs. */
module NodeLocks {

  datatype Kind = Stage | Tool

  /** `next` is the number whose lock file the daemon looks for; at 0 or below the scan is over. */
  datatype Phase =
    | Fresh
    | Unpacked
    | Recorded
    | Locked
    | Waiting(next: int)
    | Done
    | Failed

  /** One compute node: the daemons (their numbers, kinds and phases) and the files they share.
      Processes have distinct pids, so the pid file lists daemons. */
  datatype Node = Node(
    num: seq<nat>,
    kind: seq<Kind>,
    phase: seq<Phase>,
    unpacked: set<nat>,
    pidFile: seq<nat>,
    locks: set<nat>)

  /** `Lock(d, false)` is a failed fopen, after which the daemon carries on; `Fail(d)` is any of the
      early returns. Polling an absent lock file changes nothing, so it is not an event. */
  datatype Event =
    | Unpack(d: nat)
    | Record(d: nat)
    | Lock(d: nat, created: bool)
    | Proceed(d: nat)
    | Poll(d: nat)
    | Exec(d: nat)
    | Fail(d: nat)

  ghost predicate WellFormed(s: Node) {
    |s.num| == |s.kind| == |s.phase|
  }

  ghost function Init(num: seq<nat>, kind: seq<Kind>): Node
    requires |num| == |kind|
  {
    Node(num, kind, seq(|num|, _ => Fresh), {}, [], {})
  }

  ghost predicate Enabled(s: Node, e: Event)
    requires WellFormed(s)
  {
    && e.d < |s.phase|
    && var p := s.phase[e.d];
       match e
       case Unpack(_) => p == Fresh
       case Record(_) => p == Unpacked
       case Lock(_, _) => p == Recorded
       case Proceed(_) => p == Locked
       case Poll(_) => p.Waiting? && p.next > 0 && p.next in s.locks
       case Exec(_) => p.Waiting? && p.next <= 0
       case Fail(_) => p != Done && p != Failed
  }

  ghost function Next(s: Node, e: Event): (s': Node)
    requires WellFormed(s) && Enabled(s, e)
    ensures WellFormed(s') && s'.num == s.num && s'.kind == s.kind
  {
    var d := e.d;
    match e
    case Unpack(_) => s.(phase := s.phase[d := Unpacked], unpacked := s.unpacked + {d})
    case Record(_) => s.(phase := s.phase[d := Recorded], pidFile := s.pidFile + [d])
    case Lock(_, created) =>
      s.(phase := s.phase[d := Locked], locks := if created then s.locks + {s.num[d]} else s.locks)
    case Proceed(_) =>
      s.(phase := s.phase[d := if s.kind[d].Stage? then Done else Waiting(s.num[d] as int - 1)])
    case Poll(_) => s.(phase := s.phase[d := Waiting(s.phase[d].next - 1)])
    case Exec(_) => s.(phase := s.phase[d := Done])
    case Fail(_) => s.(phase := s.phase[d := Failed])
  }

  ghost predicate Run(s: Node, es: seq<Event>)
    requires WellFormed(s)
    decreases |es|
  {
    es == [] || (Enabled(s, es[0]) && Run(Next(s, es[0]), es[1..]))
  }

  ghost function After(s: Node, es: seq<Event>): (s': Node)
    requires WellFormed(s) && Run(s, es)
    ensures WellFormed(s') && s'.num == s.num && s'.kind == s.kind
    decreases |es|
  {
    if es == [] then s else After(Next(s, es[0]), es[1..])
  }

  // ---------------------------------------------------------------- safety

  /** A daemon has made its files available: archive extracted and pid on record, once. */
  ghost predicate Ready(s: Node, d: nat) {
    d in s.unpacked && multiset(s.pidFile)[d] == 1
  }

  ghost predicate LockHeldByReady(s: Node, i: nat)
    requires WellFormed(s)
  {
    exists d | 0 <= d < |s.num| :: s.num[d] == i && Ready(s, d)
  }

  ghost predicate DaemonInv(s: Node, d: nat)
    requires WellFormed(s) && d < |s.num|
  {
    match s.phase[d]
    case Fresh => d !in s.pidFile
    case Unpacked => d in s.unpacked && d !in s.pidFile
    case Recorded => Ready(s, d)
    case Locked => Ready(s, d)
    case Waiting(j) =>
      && Ready(s, d)
      && s.kind[d].Tool?
      && -1 <= j < s.num[d]
      && forall i | j < i < s.num[d] && 1 <= i :: i in s.locks
    case Done => Ready(s, d) && (s.kind[d].Tool? ==> forall i | 1 <= i < s.num[d] :: i in s.locks)
    case Failed => true
  }

  ghost predicate Inv(s: Node) {
    && WellFormed(s)
    && (forall d | 0 <= d < |s.num| :: DaemonInv(s, d))
    && (forall i | i in s.locks :: LockHeldByReady(s, i))
  }

  lemma InitInv(num: seq<nat>, kind: seq<Kind>)
    requires |num| == |kind|
    ensures Inv(Init(num, kind))
  {}

  lemma ReadyStable(s: Node, e: Event, d: nat)
    requires Inv(s) && Enabled(s, e) && d < |s.num| && Ready(s, d)
    ensures Ready(Next(s, e), d)
  {
    assert DaemonInv(s, d);
    assert d in multiset(s.pidFile);
  }

  lemma NextInv(s: Node, e: Event)
    requires Inv(s) && Enabled(s, e)
    ensures Inv(Next(s, e))
  {
    var s' := Next(s, e);
    forall d | 0 <= d < |s.num| && Ready(s, d) ensures Ready(s', d) { ReadyStable(s, e, d); }
    forall d | 0 <= d < |s.num| ensures DaemonInv(s', d) {
      assert DaemonInv(s, d);
      if e.d == d && e.Record? {
        assert multiset(s.pidFile)[d] == 0;
      }
    }
    forall i | i in s'.locks ensures LockHeldByReady(s', i) {
      if i in s.locks {
        assert LockHeldByReady(s, i);
      } else {
        assert DaemonInv(s, e.d);
        assert s.num[e.d] == i && Ready(s', e.d);
      }
    }
  }

  lemma {:induction false} RunInv(s: Node, es: seq<Event>)
    requires Inv(s) && Run(s, es)
    ensures Inv(After(s, es))
    decreases |es|
  {
    if es != [] {
      NextInv(s, es[0]);
      RunInv(Next(s, es[0]), es[1..]);
    }
  }

  /** In every interleaving, a tool daemon execs only when, for each number from 1 to its own minus 1,
      the lock file exists and was made by a daemon that had unpacked and recorded its pid; when
      numbers are not shared, that is every such daemon. */
  lemma ExecAfterLower(num: seq<nat>, kind: seq<Kind>, es: seq<Event>, d: nat, e: nat)
    requires |num| == |kind|
    requires Run(Init(num, kind), es) && Enabled(After(Init(num, kind), es), Exec(d))
    requires e < |num| && 1 <= num[e] < num[d]
    requires forall c | 0 <= c < |num| && num[c] == num[e] :: c == e
    ensures var s := After(Init(num, kind), es);
            num[e] in s.locks && Ready(s, e)
  {
    InitInv(num, kind);
    RunInv(Init(num, kind), es);
    var s := After(Init(num, kind), es);
    assert DaemonInv(s, d);
    assert LockHeldByReady(s, num[e]);
  }

  /** When numbers are shared, as after a failed start, too: whenever a tool daemon can exec, each number from 1 to
      its own minus 1 has its lock file, and some daemon of that number has unpacked and recorded its pid. */
  lemma ExecAfterEachNumber(num: seq<nat>, kind: seq<Kind>, es: seq<Event>, d: nat, i: nat)
    requires |num| == |kind|
    requires Run(Init(num, kind), es) && Enabled(After(Init(num, kind), es), Exec(d)) && 1 <= i < num[d]
    ensures var s := After(Init(num, kind), es); i in s.locks && LockHeldByReady(s, i)
  {
    InitInv(num, kind);
    RunInv(Init(num, kind), es);
    assert DaemonInv(After(Init(num, kind), es), d);
  }

  // ---------------------------------------------------------------- progress

  ghost function Rank(num: nat, p: Phase): nat {
    match p
    case Fresh => num + 6
    case Unpacked => num + 5
    case Recorded => num + 4
    case Locked => num + 3
    case Waiting(j) => if j < 0 then 1 else j + 1
    case Done => 0
    case Failed => 0
  }

  ghost function Work(s: Node, k: nat): nat
    requires WellFormed(s) && k <= |s.num|
  {
    if k == 0 then 0 else Work(s, k - 1) + Rank(s.num[k - 1], s.phase[k - 1])
  }

  lemma {:induction false} WorkAfterStep(s: Node, s': Node, d: nat, k: nat)
    requires WellFormed(s) && WellFormed(s') && s'.num == s.num && d < |s.num| && k <= |s.num|
    requires forall c | 0 <= c < |s.num| && c != d :: s'.phase[c] == s.phase[c]
    ensures Work(s', k) - Work(s, k)
            == if d < k then Rank(s.num[d], s'.phase[d]) - Rank(s.num[d], s.phase[d]) else 0
  {
    if k > 0 {
      WorkAfterStep(s, s', d, k - 1);
    }
  }

  lemma StepWorks(s: Node, e: Event)
    requires Inv(s) && Enabled(s, e)
    ensures Work(Next(s, e), |s.num|) < Work(s, |s.num|)
  {
    assert DaemonInv(s, e.d);
    WorkAfterStep(s, Next(s, e), e.d, |s.num|);
  }

  /** No run goes on for ever: apart from polling an absent lock file, the number of steps is bounded. */
  lemma {:induction false} RunsAreBounded(s: Node, es: seq<Event>)
    requires Inv(s) && Run(s, es)
    ensures |es| + Work(After(s, es), |s.num|) <= Work(s, |s.num|)
    decreases |es|
  {
    if es != [] {
      StepWorks(s, es[0]);
      NextInv(s, es[0]);
      RunsAreBounded(Next(s, es[0]), es[1..]);
    }
  }

  /** Nothing but a failure can still happen. */
  ghost predicate Quiescent(s: Node)
    requires WellFormed(s)
  {
    forall e: Event :: !e.Fail? ==> !Enabled(s, e)
  }

  /** Every daemon past the making of its lock file has one, also if it failed since. */
  ghost predicate LocksComplete(s: Node)
    requires WellFormed(s)
  {
    forall d | 0 <= d < |s.num| :: PastLock(s.phase[d]) ==> s.num[d] in s.locks
  }

  ghost predicate PastLock(p: Phase) {
    p.Locked? || p.Waiting? || p.Done? || p.Failed?
  }

  /** A step in which no daemon fails before it has its lock file. What happens to it afterwards, such as
      finding that its binary is missing, is left open. */
  ghost predicate LocksFirst(s: Node, e: Event)
    requires WellFormed(s) && Enabled(s, e)
  {
    && (e.Lock? ==> e.created)
    && (e.Fail? ==> s.phase[e.d].Locked? || s.phase[e.d].Waiting?)
  }

  ghost predicate AllLockFirst(s: Node, es: seq<Event>)
    requires WellFormed(s) && Run(s, es)
    decreases |es|
  {
    es == [] || (LocksFirst(s, es[0]) && AllLockFirst(Next(s, es[0]), es[1..]))
  }

  lemma {:induction false} LockEventually(s: Node, es: seq<Event>)
    requires WellFormed(s) && Run(s, es) && LocksComplete(s) && AllLockFirst(s, es)
    ensures LocksComplete(After(s, es))
    decreases |es|
  {
    if es != [] { LockEventually(Next(s, es[0]), es[1..]); }
  }

  /** What a quiescent node looks like, failures or not: every daemon has finished, has failed, or waits
      for a number none of whose daemons ever made a lock file. */
  lemma QuiescentShape(s: Node, d: nat)
    requires Inv(s) && Quiescent(s) && d < |s.num|
    ensures s.phase[d] == Done || s.phase[d] == Failed
            || (s.phase[d].Waiting? && 1 <= s.phase[d].next < s.num[d] && s.phase[d].next !in s.locks)
  {
    assert DaemonInv(s, d);
    assert !Enabled(s, Unpack(d)) && !Enabled(s, Record(d)) && !Enabled(s, Lock(d, true));
    assert !Enabled(s, Proceed(d)) && !Enabled(s, Poll(d)) && !Enabled(s, Exec(d));
  }

  /** With failures too: on a node where nothing more can happen, a tool daemon that did not itself fail
      has exec'ed exactly when all the lock files it looks for exist. */
  lemma FinishesExactly(num: seq<nat>, kind: seq<Kind>, es: seq<Event>, d: nat)
    requires |num| == |kind| && d < |num| && kind[d] == Tool
    requires Run(Init(num, kind), es) && Quiescent(After(Init(num, kind), es))
    requires After(Init(num, kind), es).phase[d] != Failed
    ensures var s := After(Init(num, kind), es);
            s.phase[d] == Done <==> forall i | 1 <= i < num[d] :: i in s.locks
  {
    InitInv(num, kind);
    RunInv(Init(num, kind), es);
    var s := After(Init(num, kind), es);
    QuiescentShape(s, d);
    assert DaemonInv(s, d);
  }

  /** Freedom from deadlock: if no daemon fails before it has its lock file, then whatever fails later, a node
      on which nothing more can happen is one on which no daemon waits, provided each number from 1 up
      to the largest was handed out. */
  lemma NoDeadlock(num: seq<nat>, kind: seq<Kind>, es: seq<Event>, d: nat)
    requires |num| == |kind| && d < |num|
    requires forall c, i | 0 <= c < |num| && 1 <= i < num[c] :: i in num
    requires Run(Init(num, kind), es) && AllLockFirst(Init(num, kind), es)
    requires Quiescent(After(Init(num, kind), es))
    ensures var p := After(Init(num, kind), es).phase[d]; p == Done || p == Failed
    ensures Fail(d) !in es ==> After(Init(num, kind), es).phase[d] == Done
  {
    var s0 := Init(num, kind);
    InitInv(num, kind);
    RunInv(s0, es);
    LockEventually(s0, es);
    if Fail(d) !in es { FailsOnlyByFailing(s0, es, d); }
    var s := After(s0, es);
    QuiescentShape(s, d);
    if s.phase[d].Waiting? {
      var i := s.phase[d].next;
      assert i in num;
      var c :| 0 <= c < |num| && num[c] == i;
      QuiescentShape(s, c);
      assert false;
    }
  }

  lemma {:induction false} FailsOnlyByFailing(s: Node, es: seq<Event>, d: nat)
    requires WellFormed(s) && Run(s, es) && d < |s.num| && s.phase[d] != Failed && Fail(d) !in es
    ensures After(s, es).phase[d] != Failed
    decreases |es|
  {
    if es != [] {
      assert es[0] in es;
      FailsOnlyByFailing(Next(s, es[0]), es[1..], d);
    }
  }

  lemma {:induction false} FreshHasNothing(s: Node, es: seq<Event>, d: nat)
    requires WellFormed(s) && Run(s, es) && d < |s.num| && (d in s.unpacked ==> s.phase[d] != Fresh)
    ensures d in After(s, es).unpacked ==> After(s, es).phase[d] != Fresh
    decreases |es|
  {
    if es != [] { FreshHasNothing(Next(s, es[0]), es[1..], d); }
  }

  // ---------------------------------------------------------------- exactly who is waited for

  /** The numbers a session hands out when every start succeeds. */
  ghost function Numbered(n: nat): seq<nat> { seq(n, i => i) }

  ghost function AllTools(n: nat): seq<Kind> { seq(n, _ => Tool) }

  ghost predicate ExecsUnordered(n: nat, d: nat, e: nat)
    requires d < n && e < n
  {
    exists es :: ExecsBefore(n, d, e, es)
  }

  /** `es` leads to a node on which d is about to exec while e has done nothing. */
  ghost predicate ExecsBefore(n: nat, d: nat, e: nat, es: seq<Event>)
    requires d < n && e < n
  {
    var s0 := Init(Numbered(n), AllTools(n));
    && Run(s0, es)
    && Enabled(After(s0, es), Exec(d))
    && After(s0, es).phase[e] == Fresh
  }

  lemma {:induction false} RunAppend(s: Node, es: seq<Event>, e: Event)
    requires WellFormed(s) && Run(s, es) && Enabled(After(s, es), e)
    ensures Run(s, es + [e]) && After(s, es + [e]) == Next(After(s, es), e)
    decreases |es|
  {
    if es == [] {
      assert [e][1..] == [];
    } else {
      assert (es + [e])[1..] == es[1..] + [e];
      RunAppend(Next(s, es[0]), es[1..], e);
    }
  }

  /** Numbers 1 to k make their locks one after another; everybody else is untouched. */
  lemma {:induction false} LowerOnes(n: nat, k: nat) returns (es: seq<Event>)
    requires k < n
    ensures var s0 := Init(Numbered(n), AllTools(n));
            && Run(s0, es)
            && var s := After(s0, es);
               && (forall i | 1 <= i <= k :: s.phase[i] == Locked && i in s.locks)
               && (forall i | 0 <= i < n && !(1 <= i <= k) :: s.phase[i] == Fresh)
  {
    var s0 := Init(Numbered(n), AllTools(n));
    if k == 0 {
      es := [];
    } else {
      es := LowerOnes(n, k - 1);
      RunAppend(s0, es, Unpack(k));
      es := es + [Unpack(k)];
      RunAppend(s0, es, Record(k));
      es := es + [Record(k)];
      RunAppend(s0, es, Lock(k, true));
      es := es + [Lock(k, true)];
    }
  }

  /** Once 1..d have their locks, d's scan runs down to 0 without anybody else moving. */
  lemma {:induction false} ScanDown(s0: Node, es0: seq<Event>, d: nat, e: nat) returns (es: seq<Event>)
    requires WellFormed(s0) && Run(s0, es0)
    requires var s := After(s0, es0);
             d < |s.num| && e < |s.num| && e != d && s.phase[e] == Fresh
             && s.phase[d].Waiting? && forall i | 1 <= i <= s.phase[d].next :: i in s.locks
    ensures Run(s0, es) && Enabled(After(s0, es), Exec(d)) && After(s0, es).phase[e] == Fresh
    decreases After(s0, es0).phase[d].next
  {
    if After(s0, es0).phase[d].next <= 0 {
      es := es0;
    } else {
      RunAppend(s0, es0, Poll(d));
      es := ScanDown(s0, es0 + [Poll(d)], d, e);
    }
  }

  lemma ReadyIsNotFresh(num: seq<nat>, kind: seq<Kind>, es: seq<Event>, d: nat)
    requires |num| == |kind| && d < |num| && Run(Init(num, kind), es)
    requires Ready(After(Init(num, kind), es), d)
    ensures After(Init(num, kind), es).phase[d] != Fresh
  {
    InitInv(num, kind);
    RunInv(Init(num, kind), es);
    var s := After(Init(num, kind), es);
    assert DaemonInv(s, d);
    assert d in multiset(s.pidFile);
  }

  /** The wait covers exactly the numbers 1 to d-1: it never covers number 0, the first one a session
      hands out, although the daemon's comment speaks of all previous instances. */
  lemma OrderedExactly(n: nat, d: nat, e: nat)
    requires d < n && e < n && d != e
    ensures ExecsUnordered(n, d, e) <==> !(1 <= e < d)
  {
    var s0 := Init(Numbered(n), AllTools(n));
    if 1 <= e < d {
      forall es ensures !ExecsBefore(n, d, e, es) {
        if Run(s0, es) && Enabled(After(s0, es), Exec(d)) {
          ExecAfterLower(Numbered(n), AllTools(n), es, d, e);
          ReadyIsNotFresh(Numbered(n), AllTools(n), es, e);
        }
      }
    } else {
      var es: seq<Event>;
      if d == 0 {
        RunAppend(s0, [], Unpack(d));
        RunAppend(s0, [Unpack(d)], Record(d));
        es := [Unpack(d)] + [Record(d)];
        RunAppend(s0, es, Lock(d, true));
        es := es + [Lock(d, true)];
      } else {
        es := LowerOnes(n, d);
      }
      RunAppend(s0, es, Proceed(d));
      es := es + [Proceed(d)];
      es := ScanDown(s0, es, d, e);
      assert ExecsBefore(n, d, e, es);
    }
  }
}
