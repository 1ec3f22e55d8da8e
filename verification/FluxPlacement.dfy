/** How the Flux front end places processes on hosts: it counts how often each host occurs, and gives the
    hosts, in name order, that many of the ranks and pids each. */
module FluxPlacement {
  import opened Bytes
  import opened FluxRanges
  import opened Options

  // ---------------------------------------------------------------- name order

  predicate Less(a: bytes, b: bytes) {
    if b == [] then false
    else if a == [] then true
    else if a[0] != b[0] then a[0] < b[0]
    else Less(a[1..], b[1..])
  }

  predicate AtMost(a: bytes, b: bytes) {
    a == b || Less(a, b)
  }

  lemma {:induction false} LessTransitive(a: bytes, b: bytes, c: bytes)
    requires Less(a, b) && Less(b, c)
    ensures Less(a, c)
  {
    if a != [] && a[0] == b[0] && b[0] == c[0] { LessTransitive(a[1..], b[1..], c[1..]); }
  }

  lemma {:induction false} LessTotal(a: bytes, b: bytes)
    ensures a == b || Less(a, b) || Less(b, a)
    ensures !(Less(a, b) && Less(b, a)) && (a == b ==> !Less(a, b))
  {
    if a != [] && b != [] && a[0] == b[0] {
      LessTotal(a[1..], b[1..]);
      assert a == [a[0]] + a[1..] && b == [b[0]] + b[1..];
    }
  }

  /** Name order goes by the first byte in which two names differ, and a name comes after its own beginnings. */
  lemma {:induction false} LessExactly(a: bytes, b: bytes)
    ensures Less(a, b) <==> exists k: nat :: Decides(a, b, k)
  {
    if a == [] || b == [] || a[0] != b[0] {
      if Less(a, b) { assert Decides(a, b, 0); }
      if k: nat :| Decides(a, b, k) { DecidesAtOnce(a, b, k); }
    } else {
      LessExactly(a[1..], b[1..]);
      if k: nat :| Decides(a[1..], b[1..], k) { DecidesLater(a, b, k); }
      if k: nat :| Decides(a, b, k) { DecidesSooner(a, b, k); }
    }
  }

  predicate Decides(a: bytes, b: bytes, k: nat) {
    k <= |a| && k < |b| && a[..k] == b[..k] && (k == |a| || a[k] < b[k])
  }

  lemma DecidesAtOnce(a: bytes, b: bytes, k: nat)
    requires Decides(a, b, k) && (a == [] || a[0] != b[0])
    ensures k == 0
  {
    if k > 0 {
      SameFirst(a, b, k);
      assert false;
    }
  }

  lemma SameFirst(a: bytes, b: bytes, k: nat)
    requires 0 < k <= |a| && k <= |b| && a[..k] == b[..k]
    ensures a[0] == b[0]
  {
    assert a[..k][0] == a[0] && b[..k][0] == b[0];
  }

  lemma DecidesLater(a: bytes, b: bytes, k: nat)
    requires a != [] && b != [] && a[0] == b[0] && Decides(a[1..], b[1..], k)
    ensures Decides(a, b, k + 1)
  {
    assert a[..k + 1] == [a[0]] + a[1..][..k] && b[..k + 1] == [b[0]] + b[1..][..k];
  }

  lemma DecidesSooner(a: bytes, b: bytes, k: nat)
    requires a != [] && b != [] && a[0] == b[0] && Decides(a, b, k)
    ensures k > 0 && Decides(a[1..], b[1..], k - 1)
  {
    if k > 0 { assert a[1..][..k - 1] == a[..k][1..] && b[1..][..k - 1] == b[..k][1..]; }
  }

  predicate Sorted(s: seq<bytes>) {
    forall i, j | 0 <= i < j < |s| :: AtMost(s[i], s[j])
  }

  // ---------------------------------------------------------------- counting hosts

  datatype Host = Host(name: bytes, count: nat)

  /** Counts one more of a host, in a list kept in name order. */
  function Bump(hosts: seq<Host>, name: bytes): seq<Host> {
    if hosts == [] then [Host(name, 1)]
    else if hosts[0].name == name then [Host(name, hosts[0].count + 1)] + hosts[1..]
    else if Less(name, hosts[0].name) then [Host(name, 1)] + hosts
    else [hosts[0]] + Bump(hosts[1..], name)
  }

  function Tally(names: seq<bytes>): seq<Host> {
    if names == [] then [] else Bump(Tally(names[..|names| - 1]), names[|names| - 1])
  }

  predicate Ascending(hosts: seq<Host>) {
    forall i, j | 0 <= i < j < |hosts| :: Less(hosts[i].name, hosts[j].name)
  }

  lemma {:induction false} BumpAscending(hosts: seq<Host>, name: bytes)
    requires Ascending(hosts)
    ensures Ascending(Bump(hosts, name))
    ensures forall h | h in Bump(hosts, name) :: h.name == name || exists g :: g in hosts && g.name == h.name
  {
    if hosts != [] {
      LessTotal(name, hosts[0].name);
      if Less(name, hosts[0].name) {
        forall j | 0 <= j < |hosts| ensures Less(name, hosts[j].name)
        {
          if j > 0 { LessTransitive(name, hosts[0].name, hosts[j].name); }
        }
      } else if hosts[0].name != name {
        BumpAscending(hosts[1..], name);
        var rest := Bump(hosts[1..], name);
        forall j | 0 <= j < |rest| ensures Less(hosts[0].name, rest[j].name)
        {
          assert rest[j] in rest;
        }
      }
    }
  }

  lemma {:induction false} TallyAscending(names: seq<bytes>)
    ensures Ascending(Tally(names))
  {
    if names != [] {
      TallyAscending(names[..|names| - 1]);
      BumpAscending(Tally(names[..|names| - 1]), names[|names| - 1]);
    }
  }

  /** Each host as often as it is counted. */
  function Spread(hosts: seq<Host>): seq<bytes> {
    if hosts == [] then [] else CopiesOf(hosts[0].name, hosts[0].count) + Spread(hosts[1..])
  }

  function CopiesOf(name: bytes, n: nat): (s: seq<bytes>)
    ensures |s| == n && forall i | 0 <= i < n :: s[i] == name
  {
    if n == 0 then [] else [name] + CopiesOf(name, n - 1)
  }

  /** How often a host is counted. */
  function CountIn(hosts: seq<Host>, x: bytes): nat {
    if hosts == [] then 0 else (if hosts[0].name == x then hosts[0].count else 0) + CountIn(hosts[1..], x)
  }

  lemma {:induction false} BumpCountIn(hosts: seq<Host>, name: bytes, x: bytes)
    ensures CountIn(Bump(hosts, name), x) == CountIn(hosts, x) + if x == name then 1 else 0
  {
    if hosts == [] {
      assert [Host(name, 1)][1..] == [];
    } else if hosts[0].name == name {
      assert ([Host(name, hosts[0].count + 1)] + hosts[1..])[1..] == hosts[1..];
    } else if Less(name, hosts[0].name) {
      assert ([Host(name, 1)] + hosts)[1..] == hosts;
    } else {
      BumpCountIn(hosts[1..], name, x);
      assert ([hosts[0]] + Bump(hosts[1..], name))[1..] == Bump(hosts[1..], name);
    }
  }

  lemma {:induction false} CopiesCount(name: bytes, n: nat, x: bytes)
    ensures multiset(CopiesOf(name, n))[x] == if x == name then n else 0
  {
    if n > 0 {
      CopiesCount(name, n - 1, x);
      assert multiset([name] + CopiesOf(name, n - 1)) == multiset{name} + multiset(CopiesOf(name, n - 1));
    }
  }

  lemma {:induction false} SpreadCountIn(hosts: seq<Host>, x: bytes)
    ensures multiset(Spread(hosts))[x] == CountIn(hosts, x)
  {
    if hosts != [] {
      CopiesCount(hosts[0].name, hosts[0].count, x);
      SpreadCountIn(hosts[1..], x);
      MultisetConcat(CopiesOf(hosts[0].name, hosts[0].count), Spread(hosts[1..]));
    }
  }

  lemma MultisetConcat(a: seq<bytes>, b: seq<bytes>)
    ensures multiset(a + b) == multiset(a) + multiset(b)
  {
  }

  lemma WithLast(s: seq<bytes>, x: bytes)
    ensures multiset(s + [x]) == multiset(s) + multiset{x}
  {
  }

  lemma WithoutFirst(s: seq<bytes>)
    requires s != []
    ensures multiset(s[1..]) == multiset(s) - multiset{s[0]}
  {
    assert s == [s[0]] + s[1..];
  }

  lemma {:induction false} TallyCountIn(names: seq<bytes>, x: bytes)
    ensures CountIn(Tally(names), x) == multiset(names)[x]
  {
    if names != [] {
      var before, last := names[..|names| - 1], names[|names| - 1];
      TallyCountIn(before, x);
      BumpCountIn(Tally(before), last, x);
      WithLast(before, last);
      assert names == before + [last];
    }
  }

  /** The counts are those of the list: spread out again they are the same hosts, in name order. */
  lemma TallyCounts(names: seq<bytes>)
    ensures multiset(Spread(Tally(names))) == multiset(names)
  {
    forall x ensures multiset(Spread(Tally(names)))[x] == multiset(names)[x]
    {
      TallyCountIn(names, x);
      SpreadCountIn(Tally(names), x);
    }
  }

  lemma {:induction false} SpreadSorted(hosts: seq<Host>)
    requires Ascending(hosts)
    ensures Sorted(Spread(hosts))
    ensures forall n | n in Spread(hosts) :: exists h :: h in hosts && h.name == n
  {
    if hosts != [] {
      var h, rest := hosts[0], hosts[1..];
      SpreadSorted(rest);
      var s, tail := Spread(hosts), Spread(rest);
      forall i, j | 0 <= i < j < |s| ensures AtMost(s[i], s[j])
      {
        if j >= h.count {
          assert s[j] == tail[j - h.count] && tail[j - h.count] in tail;
          if i >= h.count { assert s[i] == tail[i - h.count]; }
        }
      }
      forall n | n in s ensures exists g :: g in hosts && g.name == n
      {
        if n !in tail {
          assert n in CopiesOf(h.name, h.count);
          assert h in hosts;
        }
      }
    }
  }

  lemma FirstIsLeast(a: seq<bytes>, b: seq<bytes>)
    requires a != [] && b != [] && Sorted(a) && Sorted(b) && multiset(a) == multiset(b)
    ensures a[0] == b[0]
  {
    assert a[0] in multiset(b) && b[0] in multiset(a);
    assert a[0] in b && b[0] in a;
    LessTotal(a[0], b[0]);
  }

  lemma {:induction false} SortedUnique(a: seq<bytes>, b: seq<bytes>)
    requires Sorted(a) && Sorted(b) && multiset(a) == multiset(b)
    ensures a == b
  {
    SameSize(a, b);
    if a != [] {
      FirstIsLeast(a, b);
      WithoutFirst(a);
      WithoutFirst(b);
      SortedUnique(a[1..], b[1..]);
      assert a == [a[0]] + a[1..] && b == [b[0]] + b[1..];
    }
  }

  /** Counting hosts and spreading them out again sorts them: it changes nothing exactly when they were in
      order. */
  lemma TallySorts(names: seq<bytes>)
    ensures var s := Spread(Tally(names)); Sorted(s) && multiset(s) == multiset(names) && (s == names <==> Sorted(names))
  {
    TallyAscending(names);
    SpreadSorted(Tally(names));
    TallyCounts(names);
    if Sorted(names) { SortedUnique(Spread(Tally(names)), names); }
  }

  // ---------------------------------------------------------------- handing out ranks and pids

  datatype Placement = Placement(name: bytes, count: nat, pairs: seq<(int, int)>)

  function Zip(a: seq<int>, b: seq<int>): (s: seq<(int, int)>)
    requires |a| == |b|
    ensures |s| == |a| && forall i | 0 <= i < |a| :: s[i] == (a[i], b[i])
  {
    if a == [] then [] else Zip(a[..|a| - 1], b[..|b| - 1]) + [(a[|a| - 1], b[|b| - 1])]
  }

  function Pairs(ps: seq<Placement>): seq<(int, int)> {
    if ps == [] then [] else Pairs(ps[..|ps| - 1]) + ps[|ps| - 1].pairs
  }

  /** The host of each pair, in the order of the pairs. */
  function Owners(ps: seq<Placement>): seq<bytes> {
    if ps == [] then [] else Owners(ps[..|ps| - 1]) + CopiesOf(ps[|ps| - 1].name, |ps[|ps| - 1].pairs|)
  }

  function TotalOf(hosts: seq<Host>): nat {
    if hosts == [] then 0 else TotalOf(hosts[..|hosts| - 1]) + hosts[|hosts| - 1].count
  }

  /** Every host has as many pairs as it is counted. */
  predicate Shares(hosts: seq<Host>, ps: seq<Placement>) {
    |ps| == |hosts| && forall i | 0 <= i < |ps| ::
      ps[i].name == hosts[i].name && ps[i].count == hosts[i].count && |ps[i].pairs| == hosts[i].count
  }

  /** The hosts have been given their share of the ranks and pids, one after the other. */
  ghost predicate HandedOut(hosts: seq<Host>, ranks: seq<int>, pids: seq<int>, ps: seq<Placement>)
    requires |ranks| == |pids|
  {
    && Shares(hosts, ps)
    && |Pairs(ps)| <= |ranks| && Pairs(ps) == Zip(ranks, pids)[..|Pairs(ps)|]
  }

  lemma {:induction false} TotalSpread(hosts: seq<Host>)
    ensures |Spread(hosts)| == TotalOf(hosts)
  {
    if hosts != [] {
      var before, last := hosts[..|hosts| - 1], hosts[|hosts| - 1];
      TotalSpread(before);
      SpreadAppend(before, last);
      assert hosts == before + [last];
    }
  }

  lemma {:induction false} SpreadAppend(hosts: seq<Host>, h: Host)
    ensures Spread(hosts + [h]) == Spread(hosts) + CopiesOf(h.name, h.count)
  {
    if hosts == [] {
      assert hosts + [h] == [h] && [h][1..] == [];
    } else {
      assert (hosts + [h])[1..] == hosts[1..] + [h];
      SpreadAppend(hosts[1..], h);
    }
  }

  lemma {:induction false} TotalGrows(hosts: seq<Host>, i: nat)
    requires i < |hosts|
    ensures TotalOf(hosts[..i]) + hosts[i].count <= TotalOf(hosts)
  {
    var last := |hosts| - 1;
    if i < last {
      TotalGrows(hosts[..last], i);
      assert hosts[..last][..i] == hosts[..i];
    }
  }

  lemma {:induction false} OwnersAreSpread(hosts: seq<Host>, ranks: seq<int>, pids: seq<int>, ps: seq<Placement>)
    requires |ranks| == |pids| && HandedOut(hosts, ranks, pids, ps)
    ensures Owners(ps) == Spread(hosts) && |Pairs(ps)| == TotalOf(hosts)
  {
    if ps != [] {
      var n := |ps| - 1;
      assert hosts == hosts[..n] + [hosts[n]];
      SpreadAppend(hosts[..n], hosts[n]);
      assert HandedOut(hosts[..n], ranks, pids, ps[..n]);
      OwnersAreSpread(hosts[..n], ranks, pids, ps[..n]);
    }
  }

  /** Takes the next pairs for one host, from the cursor on. */
  method TakePairs(ranks: seq<int>, pids: seq<int>, at: nat, n: nat) returns (pairs: seq<(int, int)>, cursor: nat)
    requires |ranks| == |pids| && at + n <= |ranks|
    ensures cursor == at + n && pairs == Zip(ranks, pids)[at..cursor]
  {
    pairs, cursor := [], at;
    for i := 0 to n
      invariant cursor == at + i && pairs == Zip(ranks, pids)[at..cursor]
    {
      pairs := pairs + [(ranks[cursor], pids[cursor])];
      cursor := cursor + 1;
    }
  }

  lemma PairsAppend(ps: seq<Placement>, p: Placement)
    ensures Pairs(ps + [p]) == Pairs(ps) + p.pairs
  {
    assert (ps + [p])[..|ps|] == ps;
  }

  lemma NextSlice(all: seq<(int, int)>, at: nat, n: nat)
    requires at + n <= |all|
    ensures all[..at] + all[at..at + n] == all[..at + n]
  {
  }

  lemma SharesAppend(hosts: seq<Host>, h: Host, ps: seq<Placement>, p: Placement)
    requires Shares(hosts, ps) && p.name == h.name && p.count == h.count == |p.pairs|
    ensures Shares(hosts + [h], ps + [p])
  {
  }

  lemma HandOneMore(hosts: seq<Host>, h: Host, ranks: seq<int>, pids: seq<int>, ps: seq<Placement>, p: Placement)
    requires |ranks| == |pids| && HandedOut(hosts, ranks, pids, ps) && |Pairs(ps)| + h.count <= |ranks|
    requires p == Placement(h.name, h.count, Zip(ranks, pids)[|Pairs(ps)|..|Pairs(ps)| + h.count])
    ensures HandedOut(hosts + [h], ranks, pids, ps + [p]) && |Pairs(ps + [p])| == |Pairs(ps)| + h.count
  {
    SharesAppend(hosts, h, ps, p);
    PairsAppend(ps, p);
    NextSlice(Zip(ranks, pids), |Pairs(ps)|, h.count);
  }

  /** The cursors never run past the end. */
  method HandOut(hosts: seq<Host>, ranks: seq<int>, pids: seq<int>) returns (ps: seq<Placement>)
    requires |ranks| == |pids| == TotalOf(hosts)
    ensures HandedOut(hosts, ranks, pids, ps)
  {
    ps := [];
    var cursor := 0;
    for i := 0 to |hosts|
      invariant HandedOut(hosts[..i], ranks, pids, ps) && cursor == TotalOf(hosts[..i]) == |Pairs(ps)|
    {
      TotalGrows(hosts, i);
      assert hosts[..i + 1] == hosts[..i] + [hosts[i]];
      var pairs;
      pairs, cursor := TakePairs(ranks, pids, cursor, hosts[i].count);
      var p := Placement(hosts[i].name, hosts[i].count, pairs);
      HandOneMore(hosts[..i], hosts[i], ranks, pids, ps, p);
      ps := ps + [p];
    }
    assert hosts[..|hosts|] == hosts;
  }

  /** One process for each host name, or an error if the numbers differ. No rank or pid is lost or moved: the
      pairs of all hosts, in name order, are the ranks with their pids, and each host has one for each
      time it occurs. */
  method MakeHostsPlacement(names: seq<bytes>, ranks: seq<int>, pids: seq<int>) returns (r: Option<seq<Placement>>)
    ensures r.Some? <==> |ranks| == |names| == |pids|
    ensures r.Some? ==> HandedOut(Tally(names), ranks, pids, r.value) && Pairs(r.value) == Zip(ranks, pids)
  {
    var hosts := [];
    for i := 0 to |names|
      invariant hosts == Tally(names[..i])
    {
      assert names[..i + 1][..i] == names[..i];
      hosts := Bump(hosts, names[i]);
    }
    assert names[..|names|] == names;
    if |ranks| != |names| { return None; }
    if |pids| != |names| { return None; }
    TallyTotal(names);
    var ps := HandOut(hosts, ranks, pids);
    OwnersAreSpread(hosts, ranks, pids, ps);
    r := Some(ps);
  }

  lemma TallyTotal(names: seq<bytes>)
    ensures TotalOf(Tally(names)) == |names|
  {
    TotalSpread(Tally(names));
    TallyCounts(names);
    assert |multiset(names)| == |names|;
    assert |multiset(Spread(Tally(names)))| == |Spread(Tally(names))|;
  }

  /** The i-th process lands on the i-th host, for every i, exactly when the list of hosts is in name order. */
  lemma LandsInOrderExactly(names: seq<bytes>, ranks: seq<int>, pids: seq<int>, ps: seq<Placement>)
    requires |ranks| == |names| == |pids| && HandedOut(Tally(names), ranks, pids, ps)
    ensures Pairs(ps) == Zip(ranks, pids) && |Owners(ps)| == |names|
    ensures Owners(ps) == names <==> Sorted(names)
    ensures multiset(Owners(ps)) == multiset(names)
  {
    OwnersAreSpread(Tally(names), ranks, pids, ps);
    TallyTotal(names);
    TallySorts(names);
    AllHandedOut(Tally(names), ranks, pids, ps);
    SameSize(Owners(ps), names);
  }

  lemma AllHandedOut(hosts: seq<Host>, ranks: seq<int>, pids: seq<int>, ps: seq<Placement>)
    requires |ranks| == |pids| == TotalOf(hosts) && HandedOut(hosts, ranks, pids, ps)
    ensures Pairs(ps) == Zip(ranks, pids)
  {
    OwnersAreSpread(hosts, ranks, pids, ps);
  }

  lemma SameSize(a: seq<bytes>, b: seq<bytes>)
    requires multiset(a) == multiset(b)
    ensures |a| == |b|
  {
    assert |multiset(a)| == |a| && |multiset(b)| == |b|;
  }

  /** Whatever the order of the list, the processes land as if it had been sorted. */
  lemma LandsSorted(names: seq<bytes>, s: seq<bytes>, ranks: seq<int>, pids: seq<int>, ps: seq<Placement>)
    requires |ranks| == |pids| && HandedOut(Tally(names), ranks, pids, ps)
    requires Sorted(s) && multiset(s) == multiset(names)
    ensures Owners(ps) == s
  {
    TallySorts(names);
    SortedUnique(Spread(Tally(names)), s);
    OwnersAreSpread(Tally(names), ranks, pids, ps);
  }

  /** Two hosts out of order, and each gets the process of the other. */
  lemma OutOfOrderSwaps(a: bytes, b: bytes, names: seq<bytes>, ranks: seq<int>, pids: seq<int>, ps: seq<Placement>)
    requires Less(a, b) && names == [b] + [a] && |ranks| == |pids| == 2 && HandedOut(Tally(names), ranks, pids, ps)
    ensures Owners(ps) == [a, b]
  {
    LandsSorted(names, [a, b], ranks, pids, ps);
  }

  // ---------------------------------------------------------------- host names

  /** An entry of the host list: a name, or a prefix with the numbers that follow it. */
  datatype HostItem = Plain(name: bytes) | Prefixed(prefix: bytes, ranges: seq<Item>)

  const MINUS: byte := 45
  const ZERO: byte := 48

  function Shown(n: int): bytes {
    if n < 0 then [MINUS] + Decimal(-n) else Decimal(n)
  }

  function WithSuffixes(prefix: bytes, ns: seq<int>): (r: seq<bytes>)
    ensures |r| == |ns|
  {
    if ns == [] then [] else WithSuffixes(prefix, ns[..|ns| - 1]) + [prefix + Shown(ns[|ns| - 1])]
  }

  lemma {:induction false} SuffixedAt(prefix: bytes, ns: seq<int>, i: nat)
    requires i < |ns|
    ensures WithSuffixes(prefix, ns)[i] == prefix + Shown(ns[i])
  {
    if i < |ns| - 1 { SuffixedAt(prefix, ns[..|ns| - 1], i); }
  }

  /** A name that is this prefix and this number, written without leading zeros. */
  predicate IsNumbered(name: bytes, prefix: bytes, n: int) {
    && prefix <= name
    && var rest := name[|prefix|..];
       var digits := if n < 0 && rest != [] then rest[1..] else rest;
       && (n < 0 ==> rest != [] && rest[0] == MINUS)
       && digits != [] && (forall i | 0 <= i < |digits| :: IsDigit(digits[i]))
       && (digits[0] == ZERO ==> |digits| == 1)
       && DigitsValue(digits) == if n < 0 then -n else n
  }

  lemma {:induction false} NoLeadingZero(n: nat)
    ensures Decimal(n)[0] == ZERO ==> |Decimal(n)| == 1
    ensures n > 0 ==> Decimal(n)[0] != ZERO
  {
    if n >= 10 { NoLeadingZero(n / 10); }
  }

  /** Each name in such a list is the prefix with the number at that place. */
  lemma SuffixedExactly(prefix: bytes, ns: seq<int>, i: nat)
    requires i < |ns|
    ensures IsNumbered(WithSuffixes(prefix, ns)[i], prefix, ns[i])
  {
    var n := if ns[i] < 0 then -ns[i] else ns[i];
    var name := WithSuffixes(prefix, ns)[i];
    SuffixedAt(prefix, ns, i);
    DecimalValue(n);
    NoLeadingZero(n);
    assert name[|prefix|..] == Shown(ns[i]);
    if ns[i] < 0 { assert Shown(ns[i])[1..] == Decimal(n); }
  }

  /** The names an entry stands for; a prefix whose numbers come to nothing stands for itself. */
  function NamesIn(item: HostItem): Option<seq<bytes>> {
    match item
    case Plain(name) => Some([name])
    case Prefixed(prefix, ranges) =>
      var o := Decode(ranges, 0);
      if o.None? then None
      else if o.value.all == [] then Some([prefix])
      else Some(WithSuffixes(prefix, o.value.all))
  }

  function AllNames(items: seq<HostItem>): Option<seq<bytes>> {
    if items == [] then Some([])
    else
      var before, last := AllNames(items[..|items| - 1]), NamesIn(items[|items| - 1]);
      if before.None? || last.None? then None else Some(before.value + last.value)
  }

  lemma {:induction false} NamesFail(items: seq<HostItem>, i: nat)
    requires i < |items| && NamesIn(items[i]).None?
    ensures AllNames(items).None?
  {
    if i < |items| - 1 { NamesFail(items[..|items| - 1], i); }
  }

  lemma SuffixStep(before: seq<bytes>, prefix: bytes, ns: seq<int>, j: nat)
    requires j < |ns|
    ensures before + WithSuffixes(prefix, ns[..j + 1])
            == before + WithSuffixes(prefix, ns[..j]) + [prefix + Shown(ns[j])]
  {
    var done := ns[..j];
    assert ns[..j + 1][..j] == done;
    assert WithSuffixes(prefix, ns[..j + 1]) == WithSuffixes(prefix, done) + [prefix + Shown(ns[j])];
    AssocNames(before, WithSuffixes(prefix, done), [prefix + Shown(ns[j])]);
  }

  lemma AssocNames(a: seq<bytes>, b: seq<bytes>, c: seq<bytes>)
    ensures a + (b + c) == a + b + c
  {
  }

  method AppendSuffixed(before: seq<bytes>, prefix: bytes, ns: seq<int>) returns (result: seq<bytes>)
    ensures result == before + WithSuffixes(prefix, ns)
  {
    result := before;
    for j := 0 to |ns|
      invariant result == before + WithSuffixes(prefix, ns[..j])
    {
      SuffixStep(before, prefix, ns, j);
      result := result + [prefix + Shown(ns[j])];
    }
    assert ns[..|ns|] == ns;
  }

  method FlattenPrefixList(items: seq<HostItem>) returns (names: Option<seq<bytes>>)
    ensures names == AllNames(items)
  {
    var result := [];
    for i := 0 to |items|
      invariant AllNames(items[..i]) == Some(result)
    {
      assert items[..i + 1][..i] == items[..i];
      var more := ExpandItem(items[i], result);
      if more.None? {
        NamesFail(items, i);
        return None;
      }
      result := more.value;
    }
    assert items[..|items|] == items;
    names := Some(result);
  }

  method ExpandItem(item: HostItem, before: seq<bytes>) returns (result: Option<seq<bytes>>)
    ensures var names := NamesIn(item); result == if names.None? then None else Some(before + names.value)
  {
    match item {
      case Plain(name) => result := Some(before + [name]);
      case Prefixed(prefix, ranges) =>
        var suffixes := FlattenRangeList(ranges);
        if suffixes.None? { return None; }
        if suffixes.value == [] { return Some(before + [prefix]); }
        var names := AppendSuffixed(before, prefix, suffixes.value);
        result := Some(names);
    }
  }

  /** A list of hosts written as one prefix and encoded numbers reads back as a name for each number, in order. */
  lemma PrefixedRoundTrip(prefix: bytes, ns: seq<int>, i: nat)
    requires i < |ns| && forall j | 0 <= j < |ns| :: ns[j] >= 0
    requires Readable(EncodeAll(Runs(ns), 0))
    ensures var names := NamesIn(Prefixed(prefix, EncodeAll(Runs(ns), 0)));
            names.Some? && |names.value| == |ns| && IsNumbered(names.value[i], prefix, ns[i])
  {
    ListRoundTrip(ns);
    SuffixedExactly(prefix, ns, i);
  }

  /** A name stands for itself, and so does a prefix without numbers. */
  lemma BareNames(name: bytes, ranges: seq<Item>)
    ensures NamesIn(Plain(name)) == Some([name])
    ensures var o := Decode(ranges, 0);
            && (o.None? ==> NamesIn(Prefixed(name, ranges)) == None)
            && (o.Some? && o.value.all == [] ==> NamesIn(Prefixed(name, ranges)) == Some([name]))
  {
  }

  lemma OneItem(item: HostItem)
    ensures AllNames([item]) == NamesIn(item)
  {
    assert [item][..0] == [];
    assert AllNames([]) == Some([]);
    if NamesIn(item).Some? { assert [] + NamesIn(item).value == NamesIn(item).value; }
  }

  /** The names of a list are those of its parts, in order, and it is bad if a part is. */
  lemma {:induction false} NamesCompose(a: seq<HostItem>, b: seq<HostItem>)
    ensures AllNames(a + b) == if AllNames(a).Some? && AllNames(b).Some? then Some(AllNames(a).value + AllNames(b).value)
                               else None
    decreases |b|
  {
    if b == [] {
      assert a + b == a;
      if AllNames(a).Some? { assert AllNames(a).value + [] == AllNames(a).value; }
    } else {
      var init, last := b[..|b| - 1], b[|b| - 1];
      assert (a + b)[..|a + b| - 1] == a + init;
      NamesCompose(a, init);
      if AllNames(a).Some? && AllNames(init).Some? && NamesIn(last).Some? {
        AssocNames(AllNames(a).value, AllNames(init).value, NamesIn(last).value);
      }
    }
  }

  /** The digits at the end of a name; none, for a name that is all digits. */
  function DigitsAtEnd(name: bytes): (k: nat)
    ensures k <= |name| && forall i | |name| - k <= i < |name| :: IsDigit(name[i])
    ensures k < |name| ==> !IsDigit(name[|name| - k - 1])
  {
    if name == [] || !IsDigit(name[|name| - 1]) then 0 else 1 + DigitsAtEnd(name[..|name| - 1])
  }

  function NodeDigits(name: bytes): (k: nat)
    ensures k <= |name| && forall i | |name| - k <= i < |name| :: IsDigit(name[i])
    ensures if k < |name| && exists i | 0 <= i < |name| :: !IsDigit(name[i]) then !IsDigit(name[|name| - k - 1])
            else k == 0
  {
    if DigitsAtEnd(name) == |name| then 0 else DigitsAtEnd(name)
  }

  function ZeroDigits(n: nat): (z: bytes)
    ensures |z| == n && forall i | 0 <= i < n :: z[i] == ZERO
  {
    if n == 0 then [] else [ZERO] + ZeroDigits(n - 1)
  }

  /** Pads a node number with zeros to the width it has in this node's own name, if the part before it is as
      long. */
  function RePadded(own: bytes, name: bytes): bytes {
    var k, w := NodeDigits(name), NodeDigits(own);
    if |name| - k == |own| - w && w > k then name[..|name| - k] + ZeroDigits(w - k) + name[|name| - k..] else name
  }

  lemma {:induction false} LeadingZeros(n: nat, s: bytes)
    requires forall i | 0 <= i < |s| :: IsDigit(s[i])
    ensures forall i | 0 <= i < |ZeroDigits(n) + s| :: IsDigit((ZeroDigits(n) + s)[i])
    ensures DigitsValue(ZeroDigits(n) + s) == DigitsValue(s)
    decreases |s|
  {
    var z := ZeroDigits(n) + s;
    assert forall i | 0 <= i < |z| :: IsDigit(z[i]);
    if s == [] {
      assert z == ZeroDigits(n);
      ZerosAreZero(n);
    } else {
      assert z[..|z| - 1] == ZeroDigits(n) + s[..|s| - 1];
      LeadingZeros(n, s[..|s| - 1]);
    }
  }

  lemma {:induction false} ZerosAreZero(n: nat)
    ensures DigitsValue(ZeroDigits(n)) == 0
  {
    if n > 0 {
      ZerosAreZero(n - 1);
      assert ZeroDigits(n)[..n - 1] == ZeroDigits(n - 1);
    }
  }

  /** Padding keeps what comes before the number and the number itself, and gives it the width it has in this
      node's name if that is larger and starts at the same place. */
  lemma RePadKeepsNumber(own: bytes, name: bytes)
    ensures var r, k := RePadded(own, name), NodeDigits(name);
            && |name| <= |r|
            && |r| == (if |name| - k == |own| - NodeDigits(own) && |name| < |own| then |own| else |name|)
            && r[..|name| - k] == name[..|name| - k]
            && (forall i | |name| - k <= i < |r| :: IsDigit(r[i]))
            && DigitsValue(r[|name| - k..]) == DigitsValue(name[|name| - k..])
  {
    var r, k, w := RePadded(own, name), NodeDigits(name), NodeDigits(own);
    if r != name {
      LeadingZeros(w - k, name[|name| - k..]);
      assert r[|name| - k..] == ZeroDigits(w - k) + name[|name| - k..];
    }
  }

  function AllRePadded(own: bytes, names: seq<bytes>): seq<bytes> {
    if names == [] then [] else AllRePadded(own, names[..|names| - 1]) + [RePadded(own, names[|names| - 1])]
  }

  lemma PaddedLast(before: seq<bytes>, last: bytes, i: nat)
    requires i <= |before|
    ensures |before + [last]| == |before| + 1 && (before + [last])[i] == if i < |before| then before[i] else last
  {
  }

  lemma {:induction false} PaddedAt(own: bytes, names: seq<bytes>, i: nat)
    requires i < |names|
    ensures |AllRePadded(own, names)| == |names| && AllRePadded(own, names)[i] == RePadded(own, names[i])
    decreases |names|
  {
    var n := |names| - 1;
    var init := names[..n];
    if n > 0 { PaddedAt(own, init, if i < n then i else 0); }
    assert |AllRePadded(own, init)| == n;
    PaddedLast(AllRePadded(own, init), RePadded(own, names[n]), i);
  }

  method PadAll(own: bytes, names: seq<bytes>) returns (padded: seq<bytes>)
    ensures padded == AllRePadded(own, names) && |padded| == |names|
  {
    padded := [];
    for i := 0 to |names|
      invariant padded == AllRePadded(own, names[..i]) && |padded| == i
    {
      assert names[..i + 1][..i] == names[..i];
      padded := padded + [RePadded(own, names[i])];
    }
    assert names[..|names|] == names;
  }

  /** The whole of a Flux process table: hosts, ranks and pids are read, host names are padded, and the
      processes are handed out. */
  method PlaceProcesses(own: bytes, hosts: seq<HostItem>, ids: seq<Item>, pids: seq<Item>)
    returns (r: Option<seq<Placement>>)
    ensures var names, ranks, ps := AllNames(hosts), Decode(ids, 0), Decode(pids, 0);
            && (r.Some? <==> names.Some? && ranks.Some? && ps.Some?
                             && |ranks.value.all| == |names.value| == |ps.value.all|)
            && (r.Some? ==> HandedOut(Tally(AllRePadded(own, names.value)), ranks.value.all, ps.value.all, r.value)
                            && Pairs(r.value) == Zip(ranks.value.all, ps.value.all))
  {
    var names := FlattenPrefixList(hosts);
    if names.None? { return None; }
    var padded := PadAll(own, names.value);
    var ranks := FlattenRangeList(ids);
    if ranks.None? { return None; }
    var ps := FlattenRangeList(pids);
    if ps.None? { return None; }
    r := MakeHostsPlacement(padded, ranks.value, ps.value);
  }
}
