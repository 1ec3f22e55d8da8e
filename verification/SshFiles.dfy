/** The two files the SSH front end sends to every node, and how the back end on a node rebuilds the ranks
    and pids of its own processes from them. */
module SshFiles {
  import opened Bytes
  import opened EnvStrings
  import opened Options
  import opened SshLayout

  /** Room for a host name in the layout file, with its terminator. */
  const HOST_FIELD: nat := 64

  /** What a count becomes in a 32-bit field. */
  function Wrap32(n: nat): int32 {
    if n < TWO_31 then n else Truncated(n)
  }

  function Truncated(n: nat): int32 {
    var m := n % TWO_32;
    if m < TWO_31 then m else m - TWO_32
  }

  // ---------------------------------------------------------------- writing

  function Zeros(n: nat): (z: bytes)
    ensures |z| == n && forall i | 0 <= i < n :: z[i] == 0
  {
    if n == 0 then [] else [0] + Zeros(n - 1)
  }

  function HostField(h: CString): (f: bytes)
    requires |h| < HOST_FIELD
    ensures |f| == HOST_FIELD
  {
    h + Zeros(HOST_FIELD - |h|)
  }

  predicate Fits(nodes: seq<Node>) {
    forall i | 0 <= i < |nodes| :: |nodes[i].host| < HOST_FIELD
  }

  function PutNode(n: Node, k: bytes): bytes
    requires |n.host| < HOST_FIELD
  {
    HostField(n.host) + PutInt32(Wrap32(|n.pids|), PutInt32(Wrap32(n.firstPE), k))
  }

  function PutNodes(nodes: seq<Node>, k: bytes): bytes
    requires Fits(nodes)
  {
    if nodes == [] then k else PutNode(nodes[0], PutNodes(nodes[1..], k))
  }

  function PutPids(table: Table, k: bytes): bytes {
    if table == [] then k else PutInt32(table[0].pid, PutPids(table[1..], k))
  }

  /** No file, if a host name is too long. */
  function LayoutFile(nodes: seq<Node>): Option<bytes> {
    if Fits(nodes) then Some(PutInt32(Wrap32(|nodes|), PutNodes(nodes, []))) else None
  }

  function PidFile(table: Table): bytes {
    PutInt32(Wrap32(|table|), PutPids(table, []))
  }

  lemma Int32Appends(v: int32, a: bytes, k: bytes)
    ensures PutInt32(v, a) + k == PutInt32(v, a + k)
  {
    PutInt32Appends(v, a, k);
  }

  lemma NodeAppends(n: Node, a: bytes, k: bytes)
    requires |n.host| < HOST_FIELD
    ensures PutNode(n, a) + k == PutNode(n, a + k)
  {
    var rest := PutInt32(Wrap32(n.firstPE), a);
    Int32Appends(Wrap32(n.firstPE), a, k);
    Int32Appends(Wrap32(|n.pids|), rest, k);
    Assoc(HostField(n.host), PutInt32(Wrap32(|n.pids|), rest), k);
  }

  lemma {:induction false} NodesAppend(nodes: seq<Node>, n: Node)
    requires Fits(nodes + [n])
    ensures Fits(nodes) && |n.host| < HOST_FIELD
    ensures PutNodes(nodes + [n], []) == PutNodes(nodes, []) + PutNode(n, [])
  {
    assert (nodes + [n])[|nodes|] == n;
    assert forall i | 0 <= i < |nodes| :: (nodes + [n])[i] == nodes[i];
    if nodes == [] {
      assert nodes + [n] == [n] && [n][1..] == [];
    } else {
      assert (nodes + [n])[1..] == nodes[1..] + [n];
      NodesAppend(nodes[1..], n);
      NodeAppends(nodes[0], PutNodes(nodes[1..], []), PutNode(n, []));
    }
  }

  method CreateNodeLayoutFile(nodes: seq<Node>) returns (file: Option<bytes>)
    ensures file == LayoutFile(nodes)
  {
    var written := PutInt32(Wrap32(|nodes|), []);
    for i := 0 to |nodes|
      invariant Fits(nodes[..i])
      invariant written == PutInt32(Wrap32(|nodes|), PutNodes(nodes[..i], []))
    {
      if |nodes[i].host| + 1 > HOST_FIELD { return None; }
      assert nodes[..i + 1] == nodes[..i] + [nodes[i]];
      NodesAppend(nodes[..i], nodes[i]);
      Int32Appends(Wrap32(|nodes|), PutNodes(nodes[..i], []), PutNode(nodes[i], []));
      written := written + PutNode(nodes[i], []);
    }
    assert nodes[..|nodes|] == nodes;
    file := Some(written);
  }

  lemma {:induction false} PidsAppend(table: Table, p: Proc)
    ensures PutPids(table + [p], []) == PutPids(table, []) + PutInt32(p.pid, [])
  {
    if table == [] {
      assert table + [p] == [p] && [p][1..] == [];
    } else {
      assert (table + [p])[1..] == table[1..] + [p];
      PidsAppend(table[1..], p);
      Int32Appends(table[0].pid, PutPids(table[1..], []), PutInt32(p.pid, []));
    }
  }

  method CreatePidListFile(table: Table) returns (file: bytes)
    ensures file == PidFile(table)
  {
    file := PutInt32(Wrap32(|table|), []);
    for i := 0 to |table|
      invariant file == PutInt32(Wrap32(|table|), PutPids(table[..i], []))
    {
      assert table[..i + 1] == table[..i] + [table[i]];
      PidsAppend(table[..i], table[i]);
      Int32Appends(Wrap32(|table|), PutPids(table[..i], []), PutInt32(table[i].pid, []));
      file := file + PutInt32(table[i].pid, []);
    }
    assert table[..|table|] == table;
  }

  // ---------------------------------------------------------------- reading

  /** A record of the layout file. */
  datatype Record = Record(host: bytes, pesHere: int32, firstPE: int32)

  datatype Here = Here(pesHere: int32, firstPE: int32)

  function GetRecord(s: bytes): Parsed<Record> {
    if |s| < HOST_FIELD then Bad
    else
      var (n, s1) :- GetInt32(s[HOST_FIELD..]);
      var (first, s2) :- GetInt32(s1);
      Got(Record(s[..HOST_FIELD], n, first), s2)
  }

  function GetRecords(n: nat, s: bytes): Parsed<seq<Record>> {
    if n == 0 then Got([], s)
    else
      var (r, s1) :- GetRecord(s);
      var (rs, s2) :- GetRecords(n - 1, s1);
      Got([r] + rs, s2)
  }

  function GetInt32s(n: nat, s: bytes): Parsed<seq<int32>> {
    if n == 0 then Got([], s)
    else
      var (v, s1) :- GetInt32(s);
      var (vs, s2) :- GetInt32s(n - 1, s1);
      Got([v] + vs, s2)
  }

  /** The comparison looks at no more than the length of the name that is sought. */
  predicate Begins(field: bytes, h: CString) {
    |h| <= |field| && field[..|h|] == h
  }

  function FirstMatch(records: seq<Record>, h: CString): Option<Here> {
    if records == [] then None
    else if Begins(records[0].host, h) then Some(Here(records[0].pesHere, records[0].firstPE))
    else FirstMatch(records[1..], h)
  }

  /** What the back end on a host takes from the layout file; nothing, if the file is missing or bad or has no
      match. */
  function ReadLayout(file: Option<bytes>, h: CString): Option<Here> {
    if file.None? then None else RecordsFrom(GetInt32(file.value), h)
  }

  function RecordsFrom(header: Parsed<int32>, h: CString): Option<Here> {
    if header.Bad? || header.value < 0 then None
    else
      var records := GetRecords(header.value, header.rest);
      if records.Bad? then None else FirstMatch(records.value, h)
  }

  /** The pids read from where the host's first rank is; nothing, if they lie beyond the count in the header
      or the file ends too soon. */
  function ReadPids(file: Option<bytes>, here: Here): Option<seq<int32>> {
    if file.None? then None else PidsFrom(GetInt32(file.value), file.value, here)
  }

  function PidsFrom(header: Parsed<int32>, file: bytes, here: Here): Option<seq<int32>> {
    var at := 4 + 4 * here.firstPE;
    if header.Bad? || here.firstPE + here.pesHere > header.value || here.pesHere < 0 || at < 0 then None
    else
      var pids := GetInt32s(here.pesHere, if at <= |file| then file[at..] else []);
      if pids.Bad? then None else Some(pids.value)
  }

  function Paired(pids: seq<int32>, first: int): (s: seq<(int, int32)>)
    ensures |s| == |pids| && forall i | 0 <= i < |pids| :: s[i] == (first + i, pids[i])
  {
    if pids == [] then [] else Paired(pids[..|pids| - 1], first) + [(first + |pids| - 1, pids[|pids| - 1])]
  }

  method PairUp(pids: seq<int32>, first: int) returns (list: seq<(int, int32)>)
    ensures list == Paired(pids, first)
  {
    list := [];
    for i := 0 to |pids|
      invariant list == Paired(pids[..i], first)
    {
      assert pids[..i + 1][..i] == pids[..i];
      list := list + [(i + first, pids[i])];
    }
    assert pids[..|pids|] == pids;
  }

  /** The ranks and pids the back end on a host comes up with. */
  function Rebuilt(layoutFile: Option<bytes>, pidFile: Option<bytes>, h: CString): Option<seq<(int, int32)>> {
    var here := ReadLayout(layoutFile, h);
    if here.None? then None
    else
      var pids := ReadPids(pidFile, here.value);
      if pids.None? then None else Some(Paired(pids.value, here.value.firstPE))
  }

  /** The back end keeps what it has read. */
  class BackEnd {
    const layoutFile: Option<bytes>
    const pidFile: Option<bytes>
    const hostname: CString
    var layout: Option<Here>
    var pids: Option<seq<int32>>

    ghost predicate Valid()
      reads this
    {
      && (layout.Some? ==> layout == ReadLayout(layoutFile, hostname))
      && (pids.Some? ==> layout.Some? && pids == ReadPids(pidFile, layout.value))
    }

    constructor (layoutFile: Option<bytes>, pidFile: Option<bytes>, hostname: CString)
      ensures Valid()
    {
      this.layoutFile, this.pidFile, this.hostname := layoutFile, pidFile, hostname;
      layout, pids := None, None;
    }

    method GetLayout() returns (ok: bool)
      requires Valid()
      modifies this`layout
      ensures Valid() && layout == ReadLayout(layoutFile, hostname) && ok == layout.Some?
    {
      if layout.Some? { return true; }
      if layoutFile.None? { return false; }
      var header := GetInt32(layoutFile.value);
      if header.Bad? || header.value < 0 { return false; }
      var records := GetRecords(header.value, header.rest);
      if records.Bad? { return false; }
      var i := 0;
      while i < |records.value|
        invariant i <= |records.value| && layout.None? && Valid()
        invariant FirstMatch(records.value[i..], hostname) == FirstMatch(records.value, hostname)
      {
        var r := records.value[i];
        if Begins(r.host, hostname) {
          layout := Some(Here(r.pesHere, r.firstPE));
          return true;
        }
        assert records.value[i..][1..] == records.value[i + 1..];
        i := i + 1;
      }
      return false;
    }

    method GetPids() returns (ok: bool)
      requires Valid()
      modifies this
      ensures Valid()
      ensures ok == Rebuilt(layoutFile, pidFile, hostname).Some?
      ensures ok ==> layout.Some? && pids.Some?
    {
      if pids.Some? { return true; }
      ok := GetLayout();
      if !ok { return; }
      pids := ReadPids(pidFile, layout.value);
      ok := pids.Some?;
    }

    /** However often it is asked, in whatever order with the other calls, the back end gives the same
        answer. */
    method FindAppPids() returns (pairs: Option<seq<(int, int32)>>)
      requires Valid()
      modifies this
      ensures Valid()
      ensures pairs == Rebuilt(layoutFile, pidFile, hostname)
    {
      var ok := GetPids();
      if !ok { return None; }
      var list := PairUp(pids.value, layout.value.firstPE);
      pairs := Some(list);
    }
  }

  // ---------------------------------------------------------------- reading back what was written

  function RecordOf(n: Node): Record
    requires |n.host| < HOST_FIELD
  {
    Record(HostField(n.host), Wrap32(|n.pids|), Wrap32(n.firstPE))
  }

  function RecordsOf(nodes: seq<Node>): seq<Record>
    requires Fits(nodes)
  {
    if nodes == [] then [] else [RecordOf(nodes[0])] + RecordsOf(nodes[1..])
  }

  lemma RecordRoundTrip(n: Node, k: bytes)
    requires |n.host| < HOST_FIELD
    ensures GetRecord(PutNode(n, k)) == Got(RecordOf(n), k)
  {
    var s2 := PutInt32(Wrap32(n.firstPE), k);
    var s1 := PutInt32(Wrap32(|n.pids|), s2);
    Int32RoundTrip(Wrap32(n.firstPE), k);
    Int32RoundTrip(Wrap32(|n.pids|), s2);
    assert (HostField(n.host) + s1)[..HOST_FIELD] == HostField(n.host);
    assert (HostField(n.host) + s1)[HOST_FIELD..] == s1;
  }

  lemma {:induction false} RecordsRoundTrip(nodes: seq<Node>, k: bytes)
    requires Fits(nodes)
    ensures GetRecords(|nodes|, PutNodes(nodes, k)) == Got(RecordsOf(nodes), k)
  {
    if nodes != [] {
      RecordRoundTrip(nodes[0], PutNodes(nodes[1..], k));
      RecordsRoundTrip(nodes[1..], k);
    }
  }

  lemma {:induction false} PidsRoundTrip(table: Table, n: nat)
    requires n <= |table|
    ensures var r := GetInt32s(n, PutPids(table, []));
            r.Got? && |r.value| == n && forall i | 0 <= i < n :: r.value[i] == table[i].pid
  {
    if n > 0 {
      Int32RoundTrip(table[0].pid, PutPids(table[1..], []));
      PidsRoundTrip(table[1..], n - 1);
    }
  }

  lemma {:induction false} SkipPids(table: Table, k: nat)
    requires k <= |table|
    ensures 4 * k <= |PutPids(table, [])| && PutPids(table, [])[4 * k..] == PutPids(table[k..], [])
  {
    if k > 0 {
      var s, rest := PutPids(table, []), PutPids(table[1..], []);
      SkipPids(table[1..], k - 1);
      assert s[4..] == rest;
      assert s[4 * k..] == rest[4 * (k - 1)..];
      assert table[1..][k - 1..] == table[k..];
    }
  }

  /** The name that is sought is found at the start of the field exactly when it is a prefix of the name in
      it. */
  lemma BeginsExactly(g: CString, h: CString)
    requires |g| < HOST_FIELD
    ensures Begins(HostField(g), h) <==> h <= g
  {
    var f := HostField(g);
    assert f[|g|] == 0;
    if Begins(f, h) {
      assert forall i | 0 <= i < |h| :: f[i] == h[i];
      assert |h| <= |g|;
      assert f[..|h|] == g[..|h|];
    }
    if h <= g { assert f[..|h|] == g[..|h|]; }
  }

  /** The first node whose host begins with a name. */
  function FirstPrefixed(nodes: seq<Node>, h: CString): (k: nat)
    ensures k <= |nodes|
    ensures k < |nodes| ==> h <= nodes[k].host
    ensures forall i | 0 <= i < k :: !(h <= nodes[i].host)
  {
    if nodes == [] then 0 else if h <= nodes[0].host then 0 else 1 + FirstPrefixed(nodes[1..], h)
  }

  lemma {:induction false} FirstMatchFinds(nodes: seq<Node>, h: CString)
    requires Fits(nodes)
    ensures FirstMatch(RecordsOf(nodes), h)
            == (var k := FirstPrefixed(nodes, h);
                if k < |nodes| then Some(Here(Wrap32(|nodes[k].pids|), Wrap32(nodes[k].firstPE))) else None)
  {
    if nodes != [] {
      BeginsExactly(nodes[0].host, h);
      assert RecordsOf(nodes)[1..] == RecordsOf(nodes[1..]);
      FirstMatchFinds(nodes[1..], h);
    }
  }

  lemma LayoutReadBack(nodes: seq<Node>, h: CString)
    requires Fits(nodes) && |nodes| < TWO_31
    ensures ReadLayout(LayoutFile(nodes), h) == FirstMatch(RecordsOf(nodes), h)
  {
    var body := PutNodes(nodes, []);
    Int32RoundTrip(|nodes|, body);
    RecordsRoundTrip(nodes, []);
    assert RecordsFrom(Got(|nodes|, body), h) == FirstMatch(RecordsOf(nodes), h);
  }

  lemma SeekPids(table: Table, k: nat)
    requires k <= |table|
    ensures var file := PidFile(table); 4 + 4 * k <= |file| && file[4 + 4 * k..] == PutPids(table[k..], [])
  {
    var file, body := PidFile(table), PutPids(table, []);
    SkipPids(table, k);
    assert file[4..] == body;
    assert file[4 + 4 * k..] == body[4 * k..];
  }

  lemma {:induction false} Int32sExactly(n: nat, s: bytes)
    ensures GetInt32s(n, s).Got? <==> 4 * n <= |s|
  {
    if n > 0 && |s| >= 4 { Int32sExactly(n - 1, s[4..]); }
  }

  /** Whatever the file holds: pids are read exactly when the stretch lies within the count in its header and within
      the file. */
  lemma ReadPidsExactly(file: bytes, here: Here)
    ensures ReadPids(Some(file), here).Some?
            <==> && 4 <= |file| && here.pesHere >= 0 && here.firstPE >= -1
                 && here.firstPE + here.pesHere <= GetInt32(file).value
                 && (here.pesHere > 0 ==> 4 + 4 * (here.firstPE + here.pesHere) <= |file|)
  {
    var at := 4 + 4 * here.firstPE;
    if here.pesHere >= 0 && at >= 0 { Int32sExactly(here.pesHere, if at <= |file| then file[at..] else []); }
  }

  /** Inside the bounds, what is read is what is at the place sought. */
  lemma WithinBounds(file: bytes, total: int32, rest: bytes, here: Here, pids: seq<int32>)
    requires 0 <= here.firstPE && 0 <= here.pesHere && here.firstPE + here.pesHere <= total
    requires 4 + 4 * here.firstPE <= |file|
    requires var r := GetInt32s(here.pesHere, file[4 + 4 * here.firstPE..]); r.Got? && r.value == pids
    ensures PidsFrom(Got(total, rest), file, here) == Some(pids)
  {
  }

  lemma PairedIsStretch(table: Table, k: nat, pids: seq<int32>)
    requires k + |pids| <= |table| && forall i | 0 <= i < |pids| :: pids[i] == table[k + i].pid
    ensures Paired(pids, k) == Stretch(table, k, |pids|)
  {
  }

  /** The bounds check lets every stretch inside the table through, and its pids come back. */
  lemma PidsReadBack(table: Table, k: nat, n: nat)
    requires |table| < TWO_31 && k + n <= |table|
    ensures var r := ReadPids(Some(PidFile(table)), Here(n, k));
            r.Some? && Paired(r.value, k) == Stretch(table, k, n)
  {
    var pids := PidsAt(table, k, n);
    HeaderRead(table);
    WithinBounds(PidFile(table), |table|, PutPids(table, []), Here(n, k), pids);
    PairedIsStretch(table, k, pids);
  }

  lemma HeaderRead(table: Table)
    requires |table| < TWO_31
    ensures GetInt32(PidFile(table)) == Got(|table|, PutPids(table, []))
  {
    Int32RoundTrip(|table|, PutPids(table, []));
  }

  /** What a read of n pids from the place of rank k gives. */
  lemma PidsAt(table: Table, k: nat, n: nat) returns (pids: seq<int32>)
    requires k + n <= |table|
    ensures 4 + 4 * k <= |PidFile(table)|
    ensures var r := GetInt32s(n, PidFile(table)[4 + 4 * k..]); r.Got? && r.value == pids
    ensures |pids| == n && forall i | 0 <= i < n :: pids[i] == table[k + i].pid
  {
    SeekPids(table, k);
    var rest := table[k..];
    PidsRoundTrip(rest, n);
    pids := GetInt32s(n, PutPids(rest, [])).value;
    assert forall i | 0 <= i < n :: rest[i] == table[k + i];
  }

  // ---------------------------------------------------------------- from table to host and back

  lemma {:induction false} AtMostTable(table: Table)
    ensures |Layout(table)| <= |table|
  {
    if table != [] { AtMostTable(table[..|table| - 1]); }
  }

  /** What the back end on any host comes up with: the stretch of the first node whose host begins with its
      name. In particular no file the front end wrote is rejected as out of bounds. */
  lemma BackEndReads(table: Table, h: CString)
    requires |table| < TWO_31 && Fits(Layout(table))
    ensures var nodes := Layout(table);
            var k := FirstPrefixed(nodes, h);
            if k == |nodes| then Rebuilt(LayoutFile(nodes), Some(PidFile(table)), h) == None
            else
              && nodes[k].firstPE + |nodes[k].pids| <= |table|
              && Rebuilt(LayoutFile(nodes), Some(PidFile(table)), h)
                 == Some(Stretch(table, nodes[k].firstPE, |nodes[k].pids|))
  {
    var nodes := Layout(table);
    var k := FirstPrefixed(nodes, h);
    AtMostTable(table);
    LayoutReadBack(nodes, h);
    FirstMatchFinds(nodes, h);
    if k < |nodes| {
      StretchFits(table, k);
      PidsReadBack(table, nodes[k].firstPE, |nodes[k].pids|);
    }
  }

  /** No host that appears before h begins with h. */
  predicate NoEarlierPrefix(table: Table, h: CString, first: nat) {
    forall r | 0 <= r < first && r < |table| :: !(h <= HostOf(table[r]))
  }

  lemma FirstPrefixedIsOwn(table: Table, h: CString, first: nat)
    requires FirstOn(table, h, first)
    ensures var nodes := Layout(table);
            var k := FirstPrefixed(nodes, h);
            && k < |nodes|
            && (NoEarlierPrefix(table, h, first) <==> nodes[k].host == h)
            && Describes(table, nodes[k])
  {
    LayoutDescribes(table);
    var nodes := Layout(table);
    var k, own := FirstPrefixed(nodes, h), Find(nodes, h);
    assert Find(nodes, HostOf(table[first])) < |nodes|;
    assert k <= own;
    assert Describes(table, nodes[k]) && Describes(table, nodes[own]);
    assert nodes[own].firstPE == first;
    assert k < own ==> nodes[k].firstPE < first && h <= HostOf(table[nodes[k].firstPE]);
    if nodes[k].host == h {
      forall r | 0 <= r < first ensures !(h <= HostOf(table[r]))
      {
        EarlierHost(table, nodes, r, own);
      }
    }
  }

  /** A host that appears before another has an earlier node. */
  lemma EarlierHost(table: Table, nodes: seq<Node>, r: nat, own: nat)
    requires InOrder(nodes) && Covers(nodes, table) && own < |nodes| && r < |table|
    requires forall i | 0 <= i < |nodes| :: Describes(table, nodes[i])
    requires r < nodes[own].firstPE
    ensures Find(nodes, HostOf(table[r])) < own
  {
    var i := Find(nodes, HostOf(table[r]));
    assert i < |nodes|;
    assert Describes(table, nodes[i]) && Describes(table, nodes[own]);
    assert nodes[i].firstPE <= r;
  }

  /** The back end on a host that has processes rebuilds exactly their ranks and pids just when they are
      contiguous in the table and no host before them has a longer name that begins the same. */
  lemma RebuiltExactly(table: Table, h: CString, first: nat)
    requires |table| < TWO_31 && Fits(Layout(table)) && FirstOn(table, h, first)
    ensures Rebuilt(LayoutFile(Layout(table)), Some(PidFile(table)), h) == Some(PairsOn(table, h))
            <==> ContiguousFrom(table, h, first) && NoEarlierPrefix(table, h, first)
  {
    var nodes := Layout(table);
    var k := FirstPrefixed(nodes, h);
    BackEndReads(table, h);
    FirstPrefixedIsOwn(table, h, first);
    var n := nodes[k];
    if n.host == h {
      assert n.firstPE == first;
      StretchExactly(table, h, first);
    } else {
      OtherStretch(table, n, h);
    }
  }

  lemma OtherStretch(table: Table, n: Node, h: CString)
    requires Describes(table, n) && n.host != h && n.firstPE + |n.pids| <= |table|
    ensures Stretch(table, n.firstPE, |n.pids|) != PairsOn(table, h)
  {
    var r := n.firstPE;
    PairsAreAsMany(table, n.host);
    InPairs(table, n.host, r, table[r].pid);
    InPairs(table, h, r, table[r].pid);
    assert Stretch(table, r, |n.pids|)[0] == (r, table[r].pid);
  }

  /** Over all hosts the rebuilt lists split the table: each rank is on the list of its own host and on no
      other. */
  lemma HostsPartitionTable(table: Table, h: CString, first: nat, r: nat)
    requires |table| < TWO_31 && Fits(Layout(table)) && FirstOn(table, h, first) && r < |table|
    requires ContiguousFrom(table, h, first) && NoEarlierPrefix(table, h, first)
    ensures var list := Rebuilt(LayoutFile(Layout(table)), Some(PidFile(table)), h);
            && list.Some?
            && ((r, table[r].pid) in list.value <==> HostOf(table[r]) == h)
            && (forall i, j | 0 <= i < j < |list.value| :: list.value[i].0 < list.value[j].0)
  {
    RebuiltExactly(table, h, first);
    InPairs(table, h, r, table[r].pid);
    StretchExactly(table, h, first);
    StretchRises(table, first, |PidsOn(table, h)|);
  }

  lemma StretchRises(table: Table, k: nat, n: nat)
    requires k + n <= |table|
    ensures var s := Stretch(table, k, n); forall i, j | 0 <= i < j < |s| :: s[i].0 < s[j].0
  {
  }

  /** The front end cuts host names at the first dot and the back end does not: on a node that goes by a full
      domain name it finds nothing, whatever the table. */
  lemma FullNameFindsNothing(table: Table, h: CString)
    requires |table| < TWO_31 && Fits(Layout(table)) && DOT in h
    ensures Rebuilt(LayoutFile(Layout(table)), Some(PidFile(table)), h) == None
  {
    var nodes := Layout(table);
    var k := FirstPrefixed(nodes, h);
    BackEndReads(table, h);
    LayoutDescribes(table);
    if k < |nodes| {
      var first := nodes[k].firstPE;
      assert Describes(table, nodes[k]);
      HostIsShort(table[first]);
      DotInPrefix(h, nodes[k].host);
    }
  }

  lemma DotInPrefix(h: CString, g: CString)
    requires h <= g && DOT in h
    ensures DOT in g
  {
    var i :| 0 <= i < |h| && h[i] == DOT;
    assert g[i] == DOT;
  }

  /** Ranks on hosts a, b and a: the back end on a takes rank 1 for its own. */
  lemma GapMisleads(p: int32, q: int32, r: int32)
    ensures var table := [Proc(p, [97]), Proc(q, [98]), Proc(r, [97])];
            Rebuilt(LayoutFile(Layout(table)), Some(PidFile(table)), [97]) != Some(PairsOn(table, [97]))
  {
    var table := [Proc(p, [97]), Proc(q, [98]), Proc(r, [97])];
    var a: CString := [97];
    forall x | x in table ensures HostOf(x) == x.hostname { NoDelimiter(x.hostname, DOT); }
    assert table[0] in table && table[1] in table && table[2] in table;
    PidsInThree(table, a);
    ShortFits(table);
    RebuiltExactly(table, a, 0);
    assert !ContiguousFrom(table, a, 0);
  }

  lemma PidsInThree(table: Table, h: CString)
    requires |table| == 3 && HostOf(table[0]) == h && HostOf(table[1]) != h && HostOf(table[2]) == h
    ensures |PidsOn(table, h)| == 2
  {
    assert table[..2][..1] == table[..1] && table[..1][..0] == [];
    assert |PidsOn(table[..1], h)| == 1;
    assert |PidsOn(table[..2], h)| == 1;
  }

  lemma ShortFits(table: Table)
    requires forall r | 0 <= r < |table| :: |HostOf(table[r])| < HOST_FIELD
    ensures Fits(Layout(table))
  {
    LayoutDescribes(table);
    var nodes := Layout(table);
    forall i | 0 <= i < |nodes| ensures |nodes[i].host| < HOST_FIELD { assert Describes(table, nodes[i]); }
  }

  /** Ranks on hosts ab and a: the back end on a takes the rank of ab. */
  lemma PrefixMisleads(p: int32, q: int32)
    ensures var table := [Proc(p, [97, 98]), Proc(q, [97])];
            Rebuilt(LayoutFile(Layout(table)), Some(PidFile(table)), [97]) != Some(PairsOn(table, [97]))
  {
    var table := [Proc(p, [97, 98]), Proc(q, [97])];
    var a: CString := [97];
    forall x | x in table ensures HostOf(x) == x.hostname { NoDelimiter(x.hostname, DOT); }
    assert table[0] in table && table[1] in table;
    assert HostOf(table[0])[..1] == a;
    assert a <= HostOf(table[0]);
    ShortFits(table);
    RebuiltExactly(table, a, 1);
    assert !NoEarlierPrefix(table, a, 1);
  }
}
