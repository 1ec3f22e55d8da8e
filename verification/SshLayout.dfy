/** How the SSH front end groups a process table by host: a node for every host, in order of first
    appearance, found again through a hash of host names. */
module SshLayout {
  import opened Bytes
  import opened EnvStrings

  const DOT: byte := 46

  datatype Proc = Proc(pid: int32, hostname: CString)

  type Table = seq<Proc>

  datatype Node = Node(host: CString, pids: seq<int32>, firstPE: nat)

  lemma {:induction false} UpToNulFree(s: CString, d: byte)
    ensures NulFree(UpTo(s, d))
  {
    if s != [] && s[0] != d {
      assert NulFree(s[1..]);
      UpToNulFree(s[1..], d);
    }
  }

  /** The host a process is on, without its domain. */
  function HostOf(p: Proc): CString {
    UpToNulFree(p.hostname, DOT);
    UpTo(p.hostname, DOT)
  }

  lemma {:induction false} UpToHasNone(s: bytes, d: byte)
    ensures d !in UpTo(s, d)
  {
    if s != [] && s[0] != d { UpToHasNone(s[1..], d); }
  }

  /** It is the whole name if that has no dot, and otherwise what comes before the first. */
  lemma HostIsShort(p: Proc)
    ensures DOT !in HostOf(p)
    ensures if DOT in p.hostname then HostOf(p) + [DOT] <= p.hostname else HostOf(p) == p.hostname
  {
    UpToHasNone(p.hostname, DOT);
    if DOT in p.hostname { Rejoin(p.hostname, DOT); } else { NoDelimiter(p.hostname, DOT); }
  }

  // ---------------------------------------------------------------- by linear search

  function Find(nodes: seq<Node>, h: CString): (k: nat)
    ensures k <= |nodes|
    ensures k < |nodes| ==> nodes[k].host == h
    ensures forall i | 0 <= i < k :: nodes[i].host != h
  {
    if nodes == [] then 0
    else if nodes[0].host == h then 0
    else 1 + Find(nodes[1..], h)
  }

  function Place(nodes: seq<Node>, rank: nat, p: Proc): seq<Node> {
    var k := Find(nodes, HostOf(p));
    if k < |nodes| then nodes[k := nodes[k].(pids := nodes[k].pids + [p.pid])]
    else nodes + [Node(HostOf(p), [p.pid], rank)]
  }

  /** The layout, with every host found by searching the nodes made so far. */
  function Layout(table: Table): seq<Node> {
    if table == [] then []
    else Place(Layout(table[..|table| - 1]), |table| - 1, table[|table| - 1])
  }

  // ---------------------------------------------------------------- with a hash index

  ghost predicate IsIndex(nodes: seq<Node>, index: map<CString, nat>) {
    forall h: CString :: if Find(nodes, h) < |nodes| then h in index && index[h] == Find(nodes, h) else h !in index
  }

  lemma {:induction false} FindSameHosts(a: seq<Node>, b: seq<Node>, h: CString)
    requires |a| == |b| && forall i | 0 <= i < |a| :: a[i].host == b[i].host
    ensures Find(a, h) == Find(b, h)
  {
    if a != [] && a[0].host != h { FindSameHosts(a[1..], b[1..], h); }
  }

  lemma {:induction false} FindAppend(nodes: seq<Node>, n: Node, h: CString)
    ensures Find(nodes + [n], h)
            == if Find(nodes, h) < |nodes| then Find(nodes, h) else if n.host == h then |nodes| else |nodes| + 1
  {
    if nodes != [] {
      assert (nodes + [n])[1..] == nodes[1..] + [n];
      FindAppend(nodes[1..], n, h);
    }
  }

  lemma PlaceIndexed(nodes: seq<Node>, index: map<CString, nat>, rank: nat, p: Proc)
    requires IsIndex(nodes, index)
    ensures IsIndex(Place(nodes, rank, p), if HostOf(p) in index then index else index[HostOf(p) := |nodes|])
  {
    var more := Place(nodes, rank, p);
    var k := Find(nodes, HostOf(p));
    if k < |nodes| {
      forall h: CString ensures Find(more, h) == Find(nodes, h) { FindSameHosts(nodes, more, h); }
    } else {
      forall h: CString
        ensures Find(more, h) == if Find(nodes, h) < |nodes| then Find(nodes, h)
                                 else if HostOf(p) == h then |nodes| else |nodes| + 1
      {
        FindAppend(nodes, Node(HostOf(p), [p.pid], rank), h);
      }
    }
  }

  lemma Lookup(nodes: seq<Node>, index: map<CString, nat>, h: CString)
    requires IsIndex(nodes, index)
    ensures if h in index then index[h] < |nodes| && index[h] == Find(nodes, h) else Find(nodes, h) == |nodes|
  {
  }

  /** Adds a process to the node of its host, which the index finds or which is new. */
  method PlaceProc(nodes: seq<Node>, index: map<CString, nat>, rank: nat, p: Proc)
    returns (more: seq<Node>, known: map<CString, nat>)
    requires IsIndex(nodes, index)
    ensures more == Place(nodes, rank, p) && IsIndex(more, known)
  {
    var host := HostOf(p);
    Lookup(nodes, index, host);
    PlaceIndexed(nodes, index, rank, p);
    var nid;
    if host !in index {
      nid := |nodes|;
      more := nodes + [Node(host, [], rank)];
      known := index[host := nid];
    } else {
      nid := index[host];
      more, known := nodes, index;
    }
    more := more[nid := more[nid].(pids := more[nid].pids + [p.pid])];
    assert [] + [p.pid] == [p.pid];
    assert more == Place(nodes, rank, p);
  }

  /** The hash index finds the node that a search of the node list would find, for every table, so the two
      make the same layout. */
  method FetchStepLayout(table: Table) returns (nodes: seq<Node>, index: map<CString, nat>)
    ensures nodes == Layout(table)
    ensures IsIndex(nodes, index)
  {
    nodes, index := [], map[];
    for rank := 0 to |table|
      invariant nodes == Layout(table[..rank]) && IsIndex(nodes, index)
    {
      assert table[..rank + 1][..rank] == table[..rank];
      nodes, index := PlaceProc(nodes, index, rank, table[rank]);
    }
    assert table[..|table|] == table;
  }

  // ---------------------------------------------------------------- what a layout says

  function PidsOn(table: Table, h: CString): seq<int32> {
    if table == [] then []
    else
      var before := PidsOn(table[..|table| - 1], h);
      if HostOf(table[|table| - 1]) == h then before + [table[|table| - 1].pid] else before
  }

  predicate FirstOn(table: Table, h: CString, k: nat) {
    k < |table| && HostOf(table[k]) == h && forall j | 0 <= j < k :: HostOf(table[j]) != h
  }

  predicate Describes(table: Table, n: Node) {
    FirstOn(table, n.host, n.firstPE) && n.pids == PidsOn(table, n.host)
  }

  predicate InOrder(nodes: seq<Node>) {
    forall i, j | 0 <= i < j < |nodes| :: nodes[i].host != nodes[j].host && nodes[i].firstPE < nodes[j].firstPE
  }

  predicate Covers(nodes: seq<Node>, table: Table) {
    forall r | 0 <= r < |table| :: Find(nodes, HostOf(table[r])) < |nodes|
  }

  lemma {:induction false} PidsOnNone(table: Table, h: CString)
    requires forall r | 0 <= r < |table| :: HostOf(table[r]) != h
    ensures PidsOn(table, h) == []
  {
    if table != [] { PidsOnNone(table[..|table| - 1], h); }
  }

  lemma StillDescribes(table: Table, n: Node, p: Proc)
    requires Describes(table, n)
    ensures Describes(table + [p], if n.host == HostOf(p) then n.(pids := n.pids + [p.pid]) else n)
  {
    assert (table + [p])[..|table|] == table;
  }

  lemma NewDescribes(table: Table, nodes: seq<Node>, p: Proc)
    requires Covers(nodes, table) && Find(nodes, HostOf(p)) == |nodes|
    ensures Describes(table + [p], Node(HostOf(p), [p.pid], |table|))
  {
    assert (table + [p])[..|table|] == table;
    forall r | 0 <= r < |table| ensures HostOf(table[r]) != HostOf(p)
    {
      assert Find(nodes, HostOf(table[r])) < |nodes|;
    }
    PidsOnNone(table, HostOf(p));
  }

  lemma PlaceDescribes(table: Table, nodes: seq<Node>, p: Proc)
    requires InOrder(nodes) && Covers(nodes, table)
    requires forall i | 0 <= i < |nodes| :: Describes(table, nodes[i])
    ensures var more := Place(nodes, |table|, p);
            forall i | 0 <= i < |more| :: Describes(table + [p], more[i])
  {
    var more, k := Place(nodes, |table|, p), Find(nodes, HostOf(p));
    forall i | 0 <= i < |more| ensures Describes(table + [p], more[i])
    {
      if i < |nodes| {
        StillDescribes(table, nodes[i], p);
        assert nodes[i].host == HostOf(p) <==> i == k;
      } else {
        NewDescribes(table, nodes, p);
      }
    }
  }

  lemma PlaceFinds(nodes: seq<Node>, rank: nat, p: Proc, h: CString)
    ensures var more := Place(nodes, rank, p);
            Find(more, h) < |more| <==> Find(nodes, h) < |nodes| || h == HostOf(p)
  {
    if Find(nodes, HostOf(p)) < |nodes| {
      FindSameHosts(nodes, Place(nodes, rank, p), h);
    } else {
      FindAppend(nodes, Node(HostOf(p), [p.pid], rank), h);
    }
  }

  lemma PlaceCovers(table: Table, nodes: seq<Node>, p: Proc)
    requires Covers(nodes, table)
    ensures Covers(Place(nodes, |table|, p), table + [p])
  {
    var more, longer := Place(nodes, |table|, p), table + [p];
    forall r | 0 <= r < |longer| ensures Find(more, HostOf(longer[r])) < |more|
    {
      PlaceFinds(nodes, |table|, p, HostOf(longer[r]));
      if r < |table| { assert longer[r] == table[r]; }
    }
  }

  lemma PlaceInOrder(table: Table, nodes: seq<Node>, p: Proc)
    requires InOrder(nodes) && forall i | 0 <= i < |nodes| :: Describes(table, nodes[i])
    ensures InOrder(Place(nodes, |table|, p))
  {
    forall i | 0 <= i < |nodes| ensures nodes[i].firstPE < |table| { assert Describes(table, nodes[i]); }
  }

  /** For every table, whatever the order of its hosts: the nodes are one for each host that occurs, in order
      of first appearance, each with the first rank and the pids of its host. */
  lemma {:induction false} LayoutDescribes(table: Table)
    ensures InOrder(Layout(table)) && Covers(Layout(table), table)
    ensures forall i | 0 <= i < |Layout(table)| :: Describes(table, Layout(table)[i])
  {
    if table != [] {
      var before, p := table[..|table| - 1], table[|table| - 1];
      assert table == before + [p];
      LayoutDescribes(before);
      PlaceDescribes(before, Layout(before), p);
      PlaceCovers(before, Layout(before), p);
      PlaceInOrder(before, Layout(before), p);
    }
  }

  // ---------------------------------------------------------------- counting

  function Total(nodes: seq<Node>): nat {
    if nodes == [] then 0 else Total(nodes[..|nodes| - 1]) + |nodes[|nodes| - 1].pids|
  }

  lemma {:induction false} TotalUpdate(nodes: seq<Node>, k: nat, n: Node)
    requires k < |nodes|
    ensures Total(nodes[k := n]) == Total(nodes) - |nodes[k].pids| + |n.pids|
  {
    var last := |nodes| - 1;
    if k < last {
      assert nodes[k := n][..last] == nodes[..last][k := n];
      TotalUpdate(nodes[..last], k, n);
    } else {
      assert nodes[k := n][..last] == nodes[..last];
    }
  }

  /** Every process is counted once. */
  lemma {:induction false} CountsSumToTable(table: Table)
    ensures Total(Layout(table)) == |table|
  {
    if table != [] {
      var before, p := table[..|table| - 1], table[|table| - 1];
      CountsSumToTable(before);
      var nodes := Layout(before);
      var k := Find(nodes, HostOf(p));
      if k < |nodes| {
        TotalUpdate(nodes, k, nodes[k].(pids := nodes[k].pids + [p.pid]));
      } else {
        assert (nodes + [Node(HostOf(p), [p.pid], |before|)])[..|nodes|] == nodes;
      }
    }
  }

  lemma {:induction false} PidsFit(table: Table, h: CString, k: nat)
    requires FirstOn(table, h, k)
    ensures k + |PidsOn(table, h)| <= |table|
  {
    var before := table[..|table| - 1];
    if k < |before| {
      assert forall j | 0 <= j < k :: before[j] == table[j];
      PidsFit(before, h, k);
    } else {
      PidsOnNone(before, h);
    }
  }

  /** The stretch of ranks a node stands for never reaches past the end of the table. */
  lemma StretchFits(table: Table, i: nat)
    requires i < |Layout(table)|
    ensures Layout(table)[i].firstPE + |Layout(table)[i].pids| <= |table|
  {
    LayoutDescribes(table);
    PidsFit(table, Layout(table)[i].host, Layout(table)[i].firstPE);
  }

  // ---------------------------------------------------------------- the processes on a host

  /** The ranks and pids on a host, in rank order. */
  function PairsOn(table: Table, h: CString): seq<(int, int32)> {
    if table == [] then []
    else
      var before, r := PairsOn(table[..|table| - 1], h), |table| - 1;
      if HostOf(table[r]) == h then before + [(r, table[r].pid)] else before
  }

  lemma {:induction false} InPairs(table: Table, h: CString, r: int, pid: int32)
    ensures (r, pid) in PairsOn(table, h) <==> 0 <= r < |table| && HostOf(table[r]) == h && table[r].pid == pid
  {
    if table != [] { InPairs(table[..|table| - 1], h, r, pid); }
  }

  lemma {:induction false} PairsAreAsMany(table: Table, h: CString)
    ensures |PairsOn(table, h)| == |PidsOn(table, h)|
  {
    if table != [] { PairsAreAsMany(table[..|table| - 1], h); }
  }

  /** In rank order, and each with its own pid. */
  lemma {:induction false} PairsInOrder(table: Table, h: CString)
    ensures |PairsOn(table, h)| == |PidsOn(table, h)|
    ensures forall i | 0 <= i < |PairsOn(table, h)| ::
              PairsOn(table, h)[i].1 == PidsOn(table, h)[i] && PairsOn(table, h)[i].0 < |table|
    ensures forall i, j | 0 <= i < j < |PairsOn(table, h)| :: PairsOn(table, h)[i].0 < PairsOn(table, h)[j].0
  {
    if table != [] { PairsInOrder(table[..|table| - 1], h); }
  }

  /** From its first rank on, a host's processes follow each other without a gap. */
  predicate ContiguousFrom(table: Table, h: CString, k: nat) {
    forall r | k <= r < k + |PidsOn(table, h)| && r < |table| :: HostOf(table[r]) == h
  }

  /** The stretch of ranks from k on, with their pids. */
  function Stretch(table: Table, k: nat, n: nat): (s: seq<(int, int32)>)
    requires k + n <= |table|
    ensures |s| == n && forall i | 0 <= i < n :: s[i] == (k + i, table[k + i].pid)
  {
    if n == 0 then [] else Stretch(table, k, n - 1) + [(k + n - 1, table[k + n - 1].pid)]
  }

  lemma {:induction false} PairsOfPrefix(table: Table, h: CString, k: nat, n: nat)
    requires FirstOn(table, h, k) && k + n <= |table|
    requires forall r | k <= r < k + n :: HostOf(table[r]) == h
    ensures PairsOn(table[..k + n], h) == Stretch(table, k, n)
  {
    if n == 0 {
      PairsNone(table[..k], h);
    } else {
      PairsOfPrefix(table, h, k, n - 1);
      assert table[..k + n][..k + n - 1] == table[..k + (n - 1)];
    }
  }

  lemma {:induction false} PairsNone(table: Table, h: CString)
    requires forall r | 0 <= r < |table| :: HostOf(table[r]) != h
    ensures PairsOn(table, h) == []
  {
    if table != [] { PairsNone(table[..|table| - 1], h); }
  }

  lemma {:induction false} PairsGrow(table: Table, h: CString, n: nat)
    requires n <= |table|
    ensures |PairsOn(table[..n], h)| <= |PairsOn(table, h)|
    ensures PairsOn(table[..n], h) == PairsOn(table, h)[..|PairsOn(table[..n], h)|]
    decreases |table| - n
  {
    if n < |table| {
      assert table[..n + 1][..n] == table[..n];
      PairsGrow(table, h, n + 1);
    } else {
      assert table[..n] == table;
    }
  }

  /** The stretch that starts at a host's first rank, as long as it has processes, is its processes exactly
      when they are contiguous. */
  lemma StretchExactly(table: Table, h: CString, k: nat)
    requires FirstOn(table, h, k)
    ensures k + |PidsOn(table, h)| <= |table|
    ensures Stretch(table, k, |PidsOn(table, h)|) == PairsOn(table, h) <==> ContiguousFrom(table, h, k)
  {
    var n := |PidsOn(table, h)|;
    PidsFit(table, h, k);
    PairsAreAsMany(table, h);
    if ContiguousFrom(table, h, k) {
      PairsOfPrefix(table, h, k, n);
      PairsGrow(table, h, k + n);
    }
    if Stretch(table, k, n) == PairsOn(table, h) {
      forall r | k <= r < k + n ensures HostOf(table[r]) == h
      {
        assert Stretch(table, k, n)[r - k] == (r, table[r].pid);
        InPairs(table, h, r, table[r].pid);
      }
    }
  }
}
