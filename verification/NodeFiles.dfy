/** What a tool daemon finds on its node at the moment it execs. The session decides which manifests daemons carry
    and with which numbers and search path; the lock files decide which of those daemons have unpacked by
    then. */
module NodeFiles {
  import opened Bytes
  import opened Options
  import Staging
  import NodeLocks

  type Merge = Staging.Merge
  type Entry = Staging.Entry

  /** What is on a node where the daemons with these numbers have unpacked. */
  ghost function Store(log: seq<Merge>, unpacked: set<nat>): set<Entry> {
    set i, e | 0 <= i < |log| && e in log[i].archive && log[i].started && log[i].number in unpacked :: e
  }

  /** A manifest's own copy of a library, on the node. */
  predicate Here(log: seq<Merge>, unpacked: set<nat>, k: nat, name: Staging.Name)
    requires k < |log|
  {
    Staging.Overrides(log[k], name) && log[k].number in unpacked
  }

  lemma OwnCopyHere(s: Staging.State, unpacked: set<nat>, k: nat, name: Staging.Name)
    requires Staging.LogInv(s) && k < |s.log|
    ensures Staging.Entry(Staging.Override(s.log[k].inst), name) in Store(s.log, unpacked)
            <==> Here(s.log, unpacked, k, name)
  {
    var e := Staging.Entry(Staging.Override(s.log[k].inst), name);
    forall i | 0 <= i < |s.log| && e in s.log[i].archive ensures i == k
    {
      assert Staging.MergeInv(s, s.log[i]);
    }
  }

  /** The first place of a daemon's search path: its own folder if that is in use, and otherwise that of the
      manifest merged before it. */
  lemma SearchStep(s: Staging.State, unpacked: set<nat>, n: nat, name: Staging.Name)
    requires Staging.LogInv(s) && 0 < n <= |s.log|
    ensures Staging.Search(Store(s.log, unpacked), Staging.PathOf(s.log[..n]), name)
            == if Here(s.log, unpacked, n - 1, name) then Some(Staging.Override(s.log[n - 1].inst))
               else Staging.Search(Store(s.log, unpacked), Staging.PathOf(s.log[..n - 1]), name)
  {
    var last := s.log[n - 1];
    OwnCopyHere(s, unpacked, n - 1, name);
    assert s.log[..n][..n - 1] == s.log[..n - 1];
    assert Staging.MergeInv(s, last);
    Staging.SearchHead(Store(s.log, unpacked), Staging.Override(last.inst), Staging.PathOf(s.log[..n - 1]), name);
  }

  /** The copy that is found is that of the newest manifest whose daemon has unpacked one. */
  lemma {:induction false} SearchFinds(s: Staging.State, unpacked: set<nat>, n: nat, k: nat, name: Staging.Name)
    requires Staging.LogInv(s) && k < n <= |s.log| && Here(s.log, unpacked, k, name)
    requires forall j | k < j < n :: !Here(s.log, unpacked, j, name)
    ensures Staging.Search(Store(s.log, unpacked), Staging.PathOf(s.log[..n]), name)
            == Some(Staging.Override(s.log[k].inst))
  {
    SearchStep(s, unpacked, n, name);
    if k < n - 1 { SearchFinds(s, unpacked, n - 1, k, name); }
  }

  lemma {:induction false} SearchMisses(s: Staging.State, unpacked: set<nat>, n: nat, k: nat, name: Staging.Name)
    requires Staging.LogInv(s) && k < n <= |s.log| && !Here(s.log, unpacked, k, name)
    ensures Staging.Search(Store(s.log, unpacked), Staging.PathOf(s.log[..n]), name)
            != Some(Staging.Override(s.log[k].inst))
  {
    SearchStep(s, unpacked, n, name);
    if k < n - 1 {
      SearchMisses(s, unpacked, n - 1, k, name);
      assert s.log[k].inst != s.log[n - 1].inst;
    } else {
      SearchBelow(s, unpacked, n - 1, k, name);
    }
  }

  /** A folder that is not on the path is not found. */
  lemma {:induction false} SearchBelow(s: Staging.State, unpacked: set<nat>, n: nat, k: nat, name: Staging.Name)
    requires Staging.LogInv(s) && n <= k < |s.log|
    ensures Staging.Search(Store(s.log, unpacked), Staging.PathOf(s.log[..n]), name)
            != Some(Staging.Override(s.log[k].inst))
  {
    if n > 0 {
      SearchStep(s, unpacked, n, name);
      SearchBelow(s, unpacked, n - 1, k, name);
      assert s.log[n - 1].inst != s.log[k].inst;
    }
  }

  // ---------------------------------------------------------------- the daemons of a session on a node

  /** A way for the daemons of a session to come to a point where daemon d can exec: each that started has the
      number the session gave it, and each either stages or runs a tool. */
  ghost predicate MayExec(n: nat, kind: seq<NodeLocks.Kind>, es: seq<NodeLocks.Event>, d: nat) {
    && |kind| == n
    && NodeLocks.Run(NodeLocks.Init(NodeLocks.Numbered(n), kind), es)
    && NodeLocks.Enabled(NodeLocks.After(NodeLocks.Init(NodeLocks.Numbered(n), kind), es), NodeLocks.Exec(d))
  }

  ghost function UnpackedThen(n: nat, kind: seq<NodeLocks.Kind>, es: seq<NodeLocks.Event>, d: nat): set<nat>
    requires MayExec(n, kind, es, d)
  {
    NodeLocks.After(NodeLocks.Init(NodeLocks.Numbered(n), kind), es).unpacked
  }

  /** By then the daemon itself and all with numbers from 1 up to it have unpacked. */
  lemma LowerHaveUnpacked(n: nat, kind: seq<NodeLocks.Kind>, es: seq<NodeLocks.Event>, d: nat, e: nat)
    requires MayExec(n, kind, es, d) && e <= d && (e == 0 ==> d == 0)
    ensures d < n && e in UnpackedThen(n, kind, es, d)
  {
    NodeLocks.InitInv(NodeLocks.Numbered(n), kind);
    NodeLocks.RunInv(NodeLocks.Init(NodeLocks.Numbered(n), kind), es);
    var s := NodeLocks.After(NodeLocks.Init(NodeLocks.Numbered(n), kind), es);
    assert NodeLocks.DaemonInv(s, d);
    if e < d { NodeLocks.ExecAfterLower(NodeLocks.Numbered(n), kind, es, d, e); }
  }

  /** But daemon 0 need not have. */
  lemma FirstMayLag(n: nat, d: nat) returns (kind: seq<NodeLocks.Kind>, es: seq<NodeLocks.Event>)
    requires 0 < d < n
    ensures MayExec(n, kind, es, d) && 0 !in UnpackedThen(n, kind, es, d)
  {
    NodeLocks.OrderedExactly(n, d, 0);
    es :| NodeLocks.ExecsBefore(n, d, 0, es);
    kind := NodeLocks.AllTools(n);
    NodeLocks.InitInv(NodeLocks.Numbered(n), kind);
    NodeLocks.RunInv(NodeLocks.Init(NodeLocks.Numbered(n), kind), es);
    var s := NodeLocks.After(NodeLocks.Init(NodeLocks.Numbered(n), kind), es);
    NodeLocks.FreshHasNothing(NodeLocks.Init(NodeLocks.Numbered(n), kind), es, 0);
  }

  // ---------------------------------------------------------------- what a tool finds

  /** The library a tool daemon finds: it was the i-th merge of the session, and searches the path as it was then. */
  ghost function Finds(log: seq<Merge>, i: nat, unpacked: set<nat>, name: Staging.Name): Option<Staging.Folder>
    requires i < |log|
  {
    Staging.Search(Store(log, unpacked), Staging.PathOf(log[..i + 1]), name)
  }

  /** However the daemons on the node interleave, the tool finds the copy of merge k. */
  ghost predicate AlwaysFinds(s: Staging.State, i: nat, k: nat, name: Staging.Name)
    requires k < |s.log| && i < |s.log|
  {
    forall kind, es | MayExec(s.number, kind, es, s.log[i].number) ::
      Finds(s.log, i, UnpackedThen(s.number, kind, es, s.log[i].number), name)
      == Some(Staging.Override(s.log[k].inst))
  }

  lemma StartedBelow(s: Staging.State, k: nat, i: nat)
    requires Staging.NumberInv(s) && k <= i < |s.log| && s.log[k].started && s.log[i].started
    ensures s.log[i].number < s.number
    ensures if k == i then s.log[k].number == s.log[i].number else s.log[k].number < s.log[i].number
  {
    Staging.StartedGrows(s.log, i, |s.log|);
    assert s.log[..|s.log|] == s.log;
    if k < i { Staging.StartedGrows(s.log, k, i); }
  }

  lemma FoundThen(s: Staging.State, i: nat, k: nat, name: Staging.Name, unpacked: set<nat>)
    requires Staging.LogInv(s) && i < |s.log| && Staging.IsNewest(s.log, i + 1, k, name)
    ensures Finds(s.log, i, unpacked, name) == Some(Staging.Override(s.log[k].inst)) <==> s.log[k].number in unpacked
  {
    if s.log[k].number in unpacked {
      SearchFinds(s, unpacked, i + 1, k, name);
    } else {
      SearchMisses(s, unpacked, i + 1, k, name);
    }
  }

  /** Numbers decide which copies are there by the time of an exec. */
  ghost predicate AlwaysUnpacked(n: nat, d: nat, e: nat) {
    forall kind, es | MayExec(n, kind, es, d) :: e in UnpackedThen(n, kind, es, d)
  }

  lemma AlwaysUnpackedExactly(n: nat, d: nat, e: nat)
    requires e <= d < n
    ensures AlwaysUnpacked(n, d, e) <==> e != 0 || d == 0
  {
    if e != 0 || d == 0 {
      forall kind, es | MayExec(n, kind, es, d) ensures e in UnpackedThen(n, kind, es, d)
      {
        LowerHaveUnpacked(n, kind, es, d, e);
      }
    } else {
      var kind, es := FirstMayLag(n, d);
    }
  }

  lemma AlwaysFindsIff(s: Staging.State, i: nat, k: nat, name: Staging.Name)
    requires Staging.LogInv(s) && i < |s.log| && Staging.IsNewest(s.log, i + 1, k, name)
    ensures AlwaysFinds(s, i, k, name) <==> AlwaysUnpacked(s.number, s.log[i].number, s.log[k].number)
  {
    var n, d := s.number, s.log[i].number;
    forall kind, es | MayExec(n, kind, es, d)
      ensures Finds(s.log, i, UnpackedThen(n, kind, es, d), name) == Some(Staging.Override(s.log[k].inst))
              <==> s.log[k].number in UnpackedThen(n, kind, es, d)
    {
      FoundThen(s, i, k, name, UnpackedThen(n, kind, es, d));
    }
  }

  /** A tool daemon finds the newest override that was shipped up to its own manifest, whatever the interleaving,
      exactly when that was not shipped with daemon number 0, or the tool is daemon 0 itself. For number 0 is
      the one the others do not wait for. */
  lemma NewestAlwaysFoundExactly(es: seq<Staging.Event>, i: nat, k: nat, name: Staging.Name)
    requires Staging.Run(Staging.INIT, es)
    requires var log := Staging.After(Staging.INIT, es).log;
             i < |log| && log[i].started && Staging.IsNewest(log, i + 1, k, name)
    ensures var s := Staging.After(Staging.INIT, es);
            AlwaysFinds(s, i, k, name) <==> s.log[k].number != 0 || s.log[i].number == 0
  {
    Staging.RunInv(Staging.INIT, es);
    var s := Staging.After(Staging.INIT, es);
    StartedBelow(s, k, i);
    AlwaysFindsIff(s, i, k, name);
    AlwaysUnpackedExactly(s.number, s.log[i].number, s.log[k].number);
  }
}
