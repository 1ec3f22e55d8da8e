/** Which executable each rank runs: the ranks of every executable, and the flat list a client gets, an
    array that sends a rank to the place of its executable. */
module BinaryRanks {
  import opened Bytes
  import Pick

  type Ranks = map<bytes, seq<nat>>

  /** The ranks that run an executable, in order. */
  function RanksOf(table: seq<bytes>, exe: bytes): seq<nat> {
    if table == [] then []
    else
      var before, r := RanksOf(table[..|table| - 1], exe), |table| - 1;
      if table[r] == exe then before + [r] else before
  }

  /** The map from every executable in a table to its ranks. */
  predicate IsRankMap(table: seq<bytes>, ranks: Ranks) {
    && (forall exe | exe in ranks :: exe in table && ranks[exe] == RanksOf(table, exe))
    && (forall exe | exe in table :: exe in ranks)
  }

  lemma {:induction false} RanksOfNone(table: seq<bytes>, exe: bytes)
    requires exe !in table
    ensures RanksOf(table, exe) == []
  {
    if table != [] { RanksOfNone(table[..|table| - 1], exe); }
  }

  lemma AppendRank(table: seq<bytes>, ranks: Ranks, exe: bytes)
    requires IsRankMap(table, ranks)
    ensures IsRankMap(table + [exe], ranks[exe := (if exe in ranks then ranks[exe] else []) + [|table|]])
  {
    var longer := table + [exe];
    assert longer[..|table|] == table && longer[|table|] == exe;
    if exe !in ranks { RanksOfNone(table, exe); }
  }

  method GenerateBinaryRankMap(table: seq<bytes>) returns (ranks: Ranks)
    ensures IsRankMap(table, ranks)
  {
    ranks := map[];
    for rank := 0 to |table|
      invariant IsRankMap(table[..rank], ranks)
    {
      var exe := table[rank];
      assert table[..rank + 1] == table[..rank] + [exe];
      AppendRank(table[..rank], ranks, exe);
      ranks := ranks[exe := (if exe in ranks then ranks[exe] else []) + [rank]];
    }
    assert table[..|table|] == table;
  }

  // ---------------------------------------------------------------- the lists partition the ranks

  /** A rank is on the list of its executable once, and on no other list. */
  lemma {:induction false} RanksPartition(table: seq<bytes>, exe: bytes, r: nat)
    ensures multiset(RanksOf(table, exe))[r] == if r < |table| && table[r] == exe then 1 else 0
  {
    if table != [] {
      var before, last := table[..|table| - 1], |table| - 1;
      RanksPartition(before, exe, r);
      assert multiset(RanksOf(before, exe) + [last]) == multiset(RanksOf(before, exe)) + multiset{last};
    }
  }

  lemma OnList(table: seq<bytes>, exe: bytes)
    ensures forall r: nat :: r in RanksOf(table, exe) <==> r < |table| && table[r] == exe
  {
    forall r: nat ensures r in RanksOf(table, exe) <==> r < |table| && table[r] == exe
    {
      RanksPartition(table, exe, r);
      assert r in RanksOf(table, exe) <==> r in multiset(RanksOf(table, exe));
    }
  }

  // ---------------------------------------------------------------- the flat list

  /** Slots with a value put at some ranks. */
  function Put(slots: seq<int>, ranks: seq<nat>, i: int): (more: seq<int>)
    requires forall k | 0 <= k < |ranks| :: ranks[k] < |slots|
    ensures |more| == |slots|
    ensures forall r | 0 <= r < |slots| :: more[r] == if r in ranks then i else slots[r]
  {
    if ranks == [] then slots else Put(slots, ranks[..|ranks| - 1], i)[ranks[|ranks| - 1] := i]
  }

  method FillSlots(rankMap: array<int>, ranks: seq<nat>, i: int)
    requires forall k | 0 <= k < |ranks| :: ranks[k] < rankMap.Length
    modifies rankMap
    ensures rankMap[..] == Put(old(rankMap[..]), ranks, i)
  {
    for k := 0 to |ranks|
      invariant rankMap[..] == Put(old(rankMap[..]), ranks[..k], i)
    {
      assert ranks[..k + 1][..k] == ranks[..k];
      rankMap[ranks[k]] := i;
    }
    assert ranks[..|ranks|] == ranks;
  }

  /** How often each rank has been written, once these executables are done. */
  ghost predicate WrittenOnce(table: seq<bytes>, done: set<bytes>, written: multiset<nat>) {
    forall r: nat :: written[r] == if r < |table| && table[r] in done then 1 else 0
  }

  lemma WriteMore(table: seq<bytes>, done: set<bytes>, written: multiset<nat>, exe: bytes)
    requires WrittenOnce(table, done, written) && exe !in done
    ensures WrittenOnce(table, done + {exe}, written + multiset(RanksOf(table, exe)))
  {
    var more := written + multiset(RanksOf(table, exe));
    forall r: nat
      ensures more[r] == if r < |table| && table[r] in done + {exe} then 1 else 0
    {
      RanksPartition(table, exe, r);
      assert more[r] == written[r] + multiset(RanksOf(table, exe))[r];
    }
  }

  /** The slots of the executables on the list hold their place there, and the last the terminator. */
  predicate Placed(table: seq<bytes>, binaries: seq<bytes>, slots: seq<int>) {
    && |slots| == |table| + 1 && slots[|table|] == -1
    && (forall r | 0 <= r < |table| && table[r] in binaries ::
          0 <= slots[r] < |binaries| && binaries[slots[r]] == table[r])
  }

  lemma PutRanks(table: seq<bytes>, slots: seq<int>, exe: bytes, i: int)
    requires |slots| == |table| + 1
    ensures forall k | 0 <= k < |RanksOf(table, exe)| :: RanksOf(table, exe)[k] < |slots|
    ensures forall r | 0 <= r < |slots| ::
              Put(slots, RanksOf(table, exe), i)[r] == (if r < |table| && table[r] == exe then i else slots[r])
  {
    OnList(table, exe);
    assert forall k | 0 <= k < |RanksOf(table, exe)| :: RanksOf(table, exe)[k] in RanksOf(table, exe);
  }

  lemma PlaceOne(table: seq<bytes>, binaries: seq<bytes>, slots: seq<int>, exe: bytes, r: nat)
    requires Placed(table, binaries, slots) && r < |table| && table[r] in binaries && table[r] != exe
    ensures 0 <= slots[r] < |binaries| && (binaries + [exe])[slots[r]] == table[r]
  {
  }

  lemma PlaceMore(table: seq<bytes>, binaries: seq<bytes>, slots: seq<int>, exe: bytes)
    requires Placed(table, binaries, slots) && exe !in binaries
    ensures forall k | 0 <= k < |RanksOf(table, exe)| :: RanksOf(table, exe)[k] < |slots|
    ensures Placed(table, binaries + [exe], Put(slots, RanksOf(table, exe), |binaries|))
  {
    PutRanks(table, slots, exe, |binaries|);
    var more := Put(slots, RanksOf(table, exe), |binaries|);
    forall r | 0 <= r < |table| && table[r] in binaries + [exe]
      ensures 0 <= more[r] <= |binaries| && (binaries + [exe])[more[r]] == table[r]
    {
      if table[r] != exe { PlaceOne(table, binaries, slots, exe, r); }
    }
  }

  predicate Distinct(s: seq<bytes>) {
    forall i, j | 0 <= i < j < |s| :: s[i] != s[j]
  }

  /** The executables on the list are those not left to do. */
  predicate Listed(binaries: seq<bytes>, all: set<bytes>, todo: set<bytes>) {
    && Distinct(binaries)
    && (forall exe | exe in binaries :: exe in all - todo)
    && (forall exe | exe in all - todo :: exe in binaries)
  }

  lemma ListMore(binaries: seq<bytes>, all: set<bytes>, todo: set<bytes>, exe: bytes)
    requires Listed(binaries, all, todo) && exe in todo && todo <= all
    ensures exe !in binaries
    ensures Listed(binaries + [exe], all, todo - {exe})
    ensures all - (todo - {exe}) == all - todo + {exe}
  {
  }

  /** Flattens the lists: the executable in the place a rank's slot gives is the one the rank runs. Every slot
      is written once, `written` being what was written, and the last holds the terminator. */
  method FlattenBinaryList(ghost table: seq<bytes>, ranks: Ranks, n: nat)
    returns (binaries: seq<bytes>, rankMap: array<int>, ghost written: multiset<nat>)
    requires IsRankMap(table, ranks) && n == |table|
    ensures fresh(rankMap) && Placed(table, binaries, rankMap[..])
    ensures Listed(binaries, ranks.Keys, {})
    ensures WrittenOnce(table, ranks.Keys, written)
  {
    rankMap := new int[n + 1];
    rankMap[n] := -1;
    binaries, written := [], multiset{};
    var todo := ranks.Keys;
    assert ranks.Keys - todo == {};
    while todo != {}
      invariant todo <= ranks.Keys && fresh(rankMap)
      invariant Listed(binaries, ranks.Keys, todo)
      invariant Placed(table, binaries, rankMap[..])
      invariant WrittenOnce(table, ranks.Keys - todo, written)
      decreases |todo|
    {
      var exe := Pick.AnyOf(todo);
      ListMore(binaries, ranks.Keys, todo, exe);
      WriteMore(table, ranks.Keys - todo, written, exe);
      PlaceMore(table, binaries, rankMap[..], exe);
      FillSlots(rankMap, ranks[exe], |binaries|);
      binaries := binaries + [exe];
      written := written + multiset(ranks[exe]);
      todo := todo - {exe};
    }
    assert ranks.Keys - todo == ranks.Keys;
  }

  /** From process table to flat list: the place in a rank's slot is that of the executable it runs. */
  method AppBinaryList(table: seq<bytes>)
    returns (binaries: seq<bytes>, rankMap: array<int>, ghost written: multiset<nat>)
    ensures fresh(rankMap) && rankMap.Length == |table| + 1 && rankMap[|table|] == -1
    ensures forall r | 0 <= r < |table| :: 0 <= rankMap[r] < |binaries| && binaries[rankMap[r]] == table[r]
    ensures forall r: nat :: written[r] == if r < |table| then 1 else 0
    ensures Distinct(binaries) && forall exe :: exe in binaries <==> exe in table
  {
    var ranks := GenerateBinaryRankMap(table);
    binaries, rankMap, written := FlattenBinaryList(table, ranks, |table|);
    assert forall exe :: exe in binaries <==> exe in table;
    assert forall r | 0 <= r < |table| :: table[r] in binaries && rankMap[r] == rankMap[..][r];
  }
}
