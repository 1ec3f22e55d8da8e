/** How the Slurm back end finds its host in a layout file: by prefix, like the SSH back end, but passing over
    a longer name that goes on with a letter or digit. */
module SlurmLookup {
  import opened Bytes
  import opened Options
  import opened SshFiles
  import opened SshLayout

  predicate IsAlnum(b: byte) {
    48 <= b <= 57 || 65 <= b <= 90 || 97 <= b <= 122
  }

  /** The name is at the start of the field, and what follows is the end or a separator. */
  predicate BeginsGuarded(field: bytes, h: CString) {
    Begins(field, h) && (|h| < |field| ==> !IsAlnum(field[|h|]))
  }

  function FirstGuarded(records: seq<Record>, h: CString): Option<Here> {
    if records == [] then None
    else if BeginsGuarded(records[0].host, h) then Some(Here(records[0].pesHere, records[0].firstPE))
    else FirstGuarded(records[1..], h)
  }

  method FindEntry(records: seq<Record>, h: CString) returns (here: Option<Here>)
    ensures here == FirstGuarded(records, h)
  {
    var i := 0;
    while i < |records|
      invariant i <= |records|
      invariant FirstGuarded(records[i..], h) == FirstGuarded(records, h)
    {
      assert records[i..][1..] == records[i + 1..];
      var r := records[i];
      i := i + 1;
      if Begins(r.host, h) {
        if |h| < |r.host| && IsAlnum(r.host[|h|]) { continue; }
        return Some(Here(r.pesHere, r.firstPE));
      }
    }
    here := None;
  }

  /** A name that would be taken for h: h itself, or h followed by a separator. */
  predicate TakenFor(g: CString, h: CString) {
    h <= g && (|h| < |g| ==> !IsAlnum(g[|h|]))
  }

  lemma GuardedExactly(g: CString, h: CString)
    requires |g| < HOST_FIELD
    ensures BeginsGuarded(HostField(g), h) <==> TakenFor(g, h)
  {
    BeginsExactly(g, h);
    if h <= g && |h| < |g| { assert HostField(g)[|h|] == g[|h|]; }
    if h == g { assert HostField(g)[|h|] == 0; }
  }

  /** What may not follow the name: a letter or a digit. */
  lemma AlnumExactly(c: char)
    requires c as int < 256
    ensures IsAlnum(c as int) <==> '0' <= c <= '9' || 'A' <= c <= 'Z' || 'a' <= c <= 'z'
  {
  }

  /** So node1 is not taken for the beginning of node10 or node1a, but it is for that of node1-ib0. */
  lemma LongerName(h: CString, c: char, rest: CString)
    requires 0 < c as int < 256
    ensures NulFree(h + [c as int] + rest)
    ensures TakenFor(h + [c as int] + rest, h) <==> !('0' <= c <= '9' || 'A' <= c <= 'Z' || 'a' <= c <= 'z')
  {
    var g: bytes := h + [c as int] + rest;
    assert NulFree(g);
    assert g[|h|] == c as int && g[..|h|] == h;
    AlnumExactly(c);
  }

  function FirstTaken(nodes: seq<Node>, h: CString): (k: nat)
    ensures k <= |nodes|
    ensures k < |nodes| ==> TakenFor(nodes[k].host, h)
    ensures forall i | 0 <= i < k :: !TakenFor(nodes[i].host, h)
  {
    if nodes == [] then 0 else if TakenFor(nodes[0].host, h) then 0 else 1 + FirstTaken(nodes[1..], h)
  }

  lemma {:induction false} FirstGuardedFinds(nodes: seq<Node>, h: CString)
    requires Fits(nodes)
    ensures FirstGuarded(RecordsOf(nodes), h)
            == (var k := FirstTaken(nodes, h);
                if k < |nodes| then Some(Here(Wrap32(|nodes[k].pids|), Wrap32(nodes[k].firstPE))) else None)
  {
    if nodes != [] {
      GuardedExactly(nodes[0].host, h);
      assert RecordsOf(nodes)[1..] == RecordsOf(nodes[1..]);
      FirstGuardedFinds(nodes[1..], h);
    }
  }

  /** The back end on a host of the layout takes its own entry exactly when no earlier host is its name,
      by itself or followed by a separator; and it does so whenever the search without the guard would. */
  lemma OwnEntryExactly(nodes: seq<Node>, own: nat)
    requires Fits(nodes) && own < |nodes|
    ensures var h := nodes[own].host;
            && (FirstTaken(nodes, h) == own <==> forall i | 0 <= i < own :: !TakenFor(nodes[i].host, h))
            && (FirstPrefixed(nodes, h) == own ==> FirstTaken(nodes, h) == own)
            && (FirstTaken(nodes, h) == own ==>
                  FirstGuarded(RecordsOf(nodes), h)
                  == Some(Here(Wrap32(|nodes[own].pids|), Wrap32(nodes[own].firstPE))))
  {
    var h := nodes[own].host;
    assert TakenFor(h, h);
    FirstGuardedFinds(nodes, h);
  }
}
