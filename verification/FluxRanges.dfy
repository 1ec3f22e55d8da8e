/** The range lists of the Flux API. Every number is written as its distance from the last one, a pair stands
    for a run, and the last value of one item is the base of the next. */
module FluxRanges {
  import opened Bytes
  import opened Options

  /** A number by itself, or a list of numbers. */
  datatype Item = Single(v: int) | List(vs: seq<int>)

  datatype Piece = Empty | Range(start: int, end: int) | Repeat(value: int, count: int)

  /** Pieces or values, and the base for the next item. */
  datatype Out<+T> = Out(all: seq<T>, base: int)

  /** The numbers in a list are read as 32-bit integers. */
  predicate Reads32(vs: seq<int>) {
    forall i | 0 <= i < |vs| :: -TWO_31 <= vs[i] < TWO_31
  }

  const TWO_63: int := 0x8000_0000_0000_0000

  // ---------------------------------------------------------------- decoding

  /** A sum of 32-bit integers that runs past the top comes out negative. */
  function Sum32(n: int): int {
    if n < TWO_31 then n else n - TWO_32
  }

  function NextPiece(first: int, second: int, base: int): (Piece, int) {
    var value := first + base;
    if value < 0 then (Empty, 0)
    else if second < 0 then (Repeat(value, Sum32(-second + 1)), value)
    else (Range(value, value + second), value + second)
  }

  function Pieces(first: int, second: int, count: int, base: int): Out<Piece>
    decreases if count > 0 then count else 0
  {
    if count <= 0 then Out([], base)
    else
      var (p, b) := NextPiece(first, second, base);
      var rest := Pieces(first, second, count - 1, b);
      Out([p] + rest.all, rest.base)
  }

  /** Nothing, if the item is neither a number nor a list of two or three, or a number is too large. */
  function ParseItem(item: Item, base: int): Option<Out<Piece>> {
    match item
    case Single(v) =>
      if -TWO_63 <= v < TWO_63 then Some(Out([Repeat(base + v, 1)], base + v)) else None
    case List(vs) =>
      if (|vs| != 2 && |vs| != 3) || !Reads32(vs) then None
      else Some(Pieces(vs[0], vs[1], if |vs| == 3 then Sum32(vs[2] + 1) else 1, base))
  }

  function From(start: int, n: nat): (s: seq<int>)
    ensures |s| == n && forall i | 0 <= i < n :: s[i] == start + i
  {
    if n == 0 then [] else From(start, n - 1) + [start + n - 1]
  }

  function Copies(value: int, n: nat): (s: seq<int>)
    ensures |s| == n && forall i | 0 <= i < n :: s[i] == value
  {
    if n == 0 then [] else Copies(value, n - 1) + [value]
  }

  function Values(p: Piece): seq<int> {
    match p
    case Empty => []
    case Range(start, end) => if end < start then [] else From(start, end - start + 1)
    case Repeat(value, count) => if count < 0 then [] else Copies(value, count)
  }

  function AllValues(ps: seq<Piece>): seq<int> {
    if ps == [] then [] else Values(ps[0]) + AllValues(ps[1..])
  }

  function Prepend(vs: seq<int>, o: Option<Out<int>>): Option<Out<int>> {
    if o.None? then None else Some(Out(vs + o.value.all, o.value.base))
  }

  /** The values of a range list, and the base it leaves. */
  function Decode(items: seq<Item>, base: int): Option<Out<int>> {
    if items == [] then Some(Out([], base))
    else
      var first := ParseItem(items[0], base);
      if first.None? then None
      else Prepend(AllValues(first.value.all), Decode(items[1..], first.value.base))
  }

  // ---------------------------------------------------------------- as the front end does it

  method ParseRangeList(item: Item, base: int) returns (pieces: Option<seq<Piece>>, next: int)
    ensures var o := ParseItem(item, base);
            if o.None? then pieces == None && next == base else pieces == Some(o.value.all) && next == o.value.base
  {
    next := base;
    if item.Single? {
      if !(-TWO_63 <= item.v < TWO_63) { return None, base; }
      next := base + item.v;
      return Some([Repeat(next, 1)]), next;
    }
    if (|item.vs| != 2 && |item.vs| != 3) || !Reads32(item.vs) { return None, base; }
    var first, second := item.vs[0], item.vs[1];
    var count := if |item.vs| == 3 then Sum32(item.vs[2] + 1) else 1;
    ghost var all := Pieces(first, second, count, base);
    var result := [];
    while count > 0
      invariant var rest := Pieces(first, second, count, next);
                result + rest.all == all.all && rest.base == all.base
    {
      ghost var (p, b) := NextPiece(first, second, next);
      ghost var before, rest := result, Pieces(first, second, count - 1, b);
      var value := first + next;
      if value < 0 {
        next := 0;
        result := result + [Empty];
      } else if second < 0 {
        next := value;
        result := result + [Repeat(value, Sum32(-second + 1))];
      } else {
        next := value + second;
        result := result + [Range(value, value + second)];
      }
      assert before + ([p] + rest.all) == before + [p] + rest.all;
      count := count - 1;
    }
    assert result + [] == result;
    pieces := Some(result);
  }

  lemma AssocValues(a: seq<int>, b: seq<int>, c: seq<int>)
    ensures a + (b + c) == a + b + c
  {
  }

  method AppendValues(p: Piece, before: seq<int>) returns (result: seq<int>)
    ensures result == before + Values(p)
  {
    result := before;
    match p
    case Empty =>
    case Range(start, end) =>
      var i := start;
      while i <= end
        invariant start <= end ==> start <= i <= end + 1
        invariant end < start ==> i == start
        invariant result == before + From(start, i - start)
      {
        AssocValues(before, From(start, i - start), [i]);
        result := result + [i];
        i := i + 1;
      }
    case Repeat(value, count) =>
      var i := 0;
      while i < count
        invariant 0 <= i && (count >= 0 ==> i <= count) && (count < 0 ==> i == 0)
        invariant result == before + Copies(value, i)
      {
        AssocValues(before, Copies(value, i), [value]);
        result := result + [value];
        i := i + 1;
      }
  }

  method FlattenRangeList(items: seq<Item>) returns (result: Option<seq<int>>)
    ensures var o := Decode(items, 0); result == if o.None? then None else Some(o.value.all)
  {
    var base, values := 0, [];
    assert items[0..] == items;
    PrependNothing(Decode(items, 0));
    for i := 0 to |items|
      invariant Prepend(values, Decode(items[i..], base)) == Decode(items, 0)
    {
      assert items[i..][1..] == items[i + 1..];
      ghost var at := base;
      var pieces;
      pieces, base := ParseRangeList(items[i], base);
      if pieces.None? { return None; }
      var before := values;
      values := AppendPieces(pieces.value, before);
      ghost var rest := Decode(items[i + 1..], base);
      assert Decode(items[i..], at) == Prepend(AllValues(pieces.value), rest);
      PrependTwice(before, AllValues(pieces.value), rest);
    }
    assert items[|items|..] == [];
    assert values + [] == values;
    result := Some(values);
  }

  method AppendPieces(pieces: seq<Piece>, before: seq<int>) returns (result: seq<int>)
    ensures result == before + AllValues(pieces)
  {
    result := before;
    assert pieces[0..] == pieces;
    for i := 0 to |pieces|
      invariant result + AllValues(pieces[i..]) == before + AllValues(pieces)
    {
      assert pieces[i..][1..] == pieces[i + 1..] && pieces[i..][0] == pieces[i];
      ghost var was, rest := result, AllValues(pieces[i + 1..]);
      result := AppendValues(pieces[i], result);
      AssocValues(was, Values(pieces[i]), rest);
    }
  }

  lemma PrependNothing(o: Option<Out<int>>)
    ensures Prepend([], o) == o
  {
    if o.Some? { assert [] + o.value.all == o.value.all; }
  }

  lemma PrependTwice(a: seq<int>, b: seq<int>, o: Option<Out<int>>)
    ensures Prepend(a, Prepend(b, o)) == Prepend(a + b, o)
  {
    if o.Some? { AssocValues(a, b, o.value.all); }
  }

  // ---------------------------------------------------------------- composition

  /** Decoding two lists one after the other, the second from the base the first leaves. */
  lemma {:induction false} DecodeComposes(xs: seq<Item>, ys: seq<Item>, base: int)
    ensures Decode(xs + ys, base)
            == (var o := Decode(xs, base);
                if o.None? then None else Prepend(o.value.all, Decode(ys, o.value.base)))
  {
    if xs == [] {
      assert xs + ys == ys;
      PrependNothing(Decode(ys, base));
    } else {
      assert (xs + ys)[1..] == xs[1..] + ys;
      var first := ParseItem(xs[0], base);
      if first.Some? {
        DecodeComposes(xs[1..], ys, first.value.base);
        var rest := Decode(xs[1..], first.value.base);
        if rest.Some? { PrependTwice(AllValues(first.value.all), rest.value.all, Decode(ys, rest.value.base)); }
      }
    }
  }

  function Times(item: Item, n: nat): seq<Item> {
    if n == 0 then [] else [item] + Times(item, n - 1)
  }

  lemma {:induction false} PiecesAreTimes(a: int, b: int, n: nat, base: int)
    requires Reads32([a, b])
    ensures var o := Pieces(a, b, n, base); Decode(Times(List([a, b]), n), base) == Some(Out(AllValues(o.all), o.base))
  {
    if n > 0 {
      var (p, next) := NextPiece(a, b, base);
      PiecesAreTimes(a, b, n - 1, next);
      assert Times(List([a, b]), n)[1..] == Times(List([a, b]), n - 1);
      var one := Pieces(a, b, 1, base);
      assert one == Out([p], next) by { assert [p] + [] == [p]; }
      assert AllValues([p]) == Values(p) by { assert [p][1..] == []; }
      var rest := Pieces(a, b, n - 1, next);
      assert ([p] + rest.all)[1..] == rest.all;
    }
  }

  /** [a, b, n] stands for n + 1 copies of [a, b], each from the base the one before leaves; for none if n is
      negative, and for none if n is the largest 32-bit integer, as n + 1 is then past the top. */
  lemma TripleIsCopies(a: int, b: int, n: int, base: int)
    requires Reads32([a, b, n])
    ensures Decode([List([a, b, n])], base)
            == Decode(Times(List([a, b]), if n < 0 || n == TWO_31 - 1 then 0 else n + 1), base)
  {
    assert [a, b, n][0] == a && [a, b, n][1] == b && [a, b, n][2] == n;
    var count: nat := if n < 0 || n == TWO_31 - 1 then 0 else n + 1;
    PiecesAreTimes(a, b, count, base);
    var o := Pieces(a, b, Sum32(n + 1), base);
    OneItem(List([a, b, n]), base, o);
  }

  lemma OneItem(item: Item, base: int, o: Out<Piece>)
    requires ParseItem(item, base) == Some(o)
    ensures Decode([item], base) == Some(Out(AllValues(o.all), o.base))
  {
    assert [item][1..] == [];
    assert AllValues(o.all) + [] == AllValues(o.all);
  }

  /** What one pair stands for: numbers going up, one number over and over, or nothing if that number is below
      zero, where counting starts anew. A number is not repeated more often than a 32-bit integer can say. */
  lemma PairExactly(a: int, b: int, base: int)
    requires Reads32([a, b])
    ensures Decode([List([a, b])], base)
            == Some(if a + base < 0 then Out([], 0)
                    else if b >= 0 then Out(From(a + base, b + 1), a + base + b)
                    else Out(Copies(a + base, if 1 - b >= TWO_31 then 0 else 1 - b), a + base))
  {
    var (p, next) := NextPiece(a, b, base);
    assert [a, b][0] == a && [a, b][1] == b;
    assert [p] + [] == [p];
    assert [p][1..] == [] && Values(p) + [] == Values(p);
    OneItem(List([a, b]), base, Out([p], next));
  }

  /** A number by itself stands for itself, also below zero. */
  lemma SingleExactly(v: int, base: int)
    ensures Decode([Single(v)], base) == if -TWO_63 <= v < TWO_63 then Some(Out([base + v], base + v)) else None
  {
    var p := Repeat(base + v, 1);
    assert [p][1..] == [] && Values(p) == [base + v] && [base + v] + [] == [base + v];
    assert AllValues([p]) == [base + v];
    if -TWO_63 <= v < TWO_63 { OneItem(Single(v), base, Out([p], base + v)); }
  }

  /** An item that can be read: a number of 64 bits, or two or three of 32 bits. */
  predicate Fits(item: Item) {
    match item
    case Single(v) => -TWO_63 <= v < TWO_63
    case List(vs) => 2 <= |vs| <= 3 && Reads32(vs)
  }

  /** A list is refused exactly when one of its items is, wherever that is. */
  lemma {:induction false} DecodesExactly(items: seq<Item>, base: int)
    ensures Decode(items, base).Some? <==> forall i | 0 <= i < |items| :: Fits(items[i])
  {
    if items != [] {
      var first := ParseItem(items[0], base);
      if first.Some? { DecodesExactly(items[1..], first.value.base); }
      assert forall i | 0 <= i < |items| - 1 :: items[1..][i] == items[i + 1];
      assert forall i | 1 <= i < |items| :: items[i] == items[1..][i - 1];
    }
  }

  // ---------------------------------------------------------------- encoding

  /** A stretch of a list: one number, numbers going up by one, or one number over and over. */
  datatype Run = One(v: int) | Up(v: int, n: nat) | Same(v: int, n: nat)

  function RunValues(r: Run): seq<int> {
    match r
    case One(v) => [v]
    case Up(v, n) => From(v, n + 1)
    case Same(v, n) => Copies(v, n + 1)
  }

  function LastOf(r: Run): int {
    match r
    case One(v) => v
    case Up(v, n) => v + n
    case Same(v, _) => v
  }

  predicate Proper(r: Run) {
    r.v >= 0 && (r.Same? ==> r.n > 0)
  }

  function Encode(r: Run, base: int): Item {
    match r
    case One(v) => Single(v - base)
    case Up(v, n) => List([v - base, n])
    case Same(v, n) => List([v - base, -(n as int)])
  }

  function EncodeAll(runs: seq<Run>, base: int): seq<Item> {
    if runs == [] then [] else [Encode(runs[0], base)] + EncodeAll(runs[1..], LastOf(runs[0]))
  }

  function AllRunValues(runs: seq<Run>): seq<int> {
    if runs == [] then [] else RunValues(runs[0]) + AllRunValues(runs[1..])
  }

  /** The numbers of an item can be read. */
  predicate Parses(item: Item) {
    match item case Single(v) => -TWO_63 <= v < TWO_63 case List(vs) => Reads32(vs)
  }

  /** And the length of a run of equal numbers does not run past the top. */
  predicate ReadableItem(item: Item) {
    Parses(item) && (item.List? && |item.vs| == 2 && item.vs[1] < 0 ==> -item.vs[1] + 1 < TWO_31)
  }

  predicate Readable(items: seq<Item>) {
    forall i | 0 <= i < |items| :: ReadableItem(items[i])
  }

  lemma RunRoundTrip(r: Run, base: int)
    requires Proper(r)
    ensures var item := Encode(r, base);
            var o := ParseItem(item, base);
            && (o.Some? <==> Parses(item))
            && (o.Some? ==> o.value.base == LastOf(r)
                            && AllValues(o.value.all) == if ReadableItem(item) then RunValues(r) else [])
  {
    var item := Encode(r, base);
    if Parses(item) {
      var o := ParseItem(item, base).value;
      assert r.One? ==> o.all == [Repeat(r.v, 1)];
      assert r.Up? ==> o.all == [Range(r.v, r.v + r.n)];
      assert r.Same? ==> o.all == [Repeat(r.v, Sum32(r.n + 1))];
      assert o.all[1..] == [];
      assert Values(o.all[0]) + [] == Values(o.all[0]);
      if r.One? { assert Copies(r.v, 1) == [r.v]; }
    }
  }

  lemma SameTail(a: seq<int>, x: seq<int>, y: seq<int>)
    ensures a + x == a + y <==> x == y
  {
    if a + x == a + y {
      assert x == (a + x)[|a|..];
      assert y == (a + y)[|a|..];
    }
  }

  /** Any way of cutting a list into runs decodes to the same list exactly when its numbers can be read and no
      run of equal numbers is too long for a 32-bit integer; otherwise decoding fails or gives a shorter
      list. */
  lemma {:induction false} RunsRoundTrip(runs: seq<Run>, base: int)
    requires AllProper(runs)
    ensures var o := Decode(EncodeAll(runs, base), base);
            && (o.Some? ==> |o.value.all| <= |AllRunValues(runs)|)
            && (o.Some? && o.value.all == AllRunValues(runs) <==> Readable(EncodeAll(runs, base)))
  {
    if runs != [] {
      var r := runs[0];
      var items, rest := EncodeAll(runs, base), EncodeAll(runs[1..], LastOf(r));
      RunRoundTrip(r, base);
      RunsRoundTrip(runs[1..], LastOf(r));
      ReadableCons(items[0], rest);
      assert items == [items[0]] + rest && items[1..] == rest;
      var more := Decode(rest, LastOf(r));
      if more.Some? { SameTail(RunValues(r), more.value.all, AllRunValues(runs[1..])); }
    }
  }

  lemma ReadableCons(item: Item, rest: seq<Item>)
    ensures Readable([item] + rest) <==> ReadableItem(item) && Readable(rest)
  {
    var items := [item] + rest;
    assert items[0] == item;
    assert forall i | 0 < i < |items| :: items[i] == rest[i - 1];
    assert forall i | 0 <= i < |rest| :: rest[i] == items[i + 1];
  }

  // ---------------------------------------------------------------- cutting a list into runs

  /** How many of the next numbers go up by one. */
  function UpLength(xs: seq<int>): (n: nat)
    requires xs != []
    ensures n < |xs|
  {
    if |xs| > 1 && xs[1] == xs[0] + 1 then 1 + UpLength(xs[1..]) else 0
  }

  function SameLength(xs: seq<int>): (n: nat)
    requires xs != []
    ensures n < |xs|
  {
    if |xs| > 1 && xs[1] == xs[0] then 1 + SameLength(xs[1..]) else 0
  }

  lemma {:induction false} UpValues(xs: seq<int>)
    requires xs != []
    ensures From(xs[0], UpLength(xs) + 1) == xs[..UpLength(xs) + 1]
  {
    if UpLength(xs) > 0 {
      var rest, n := xs[1..], UpLength(xs);
      UpValues(rest);
      assert xs[..n + 1] == [xs[0]] + rest[..n];
    }
  }

  lemma {:induction false} SameValues(xs: seq<int>)
    requires xs != []
    ensures Copies(xs[0], SameLength(xs) + 1) == xs[..SameLength(xs) + 1]
  {
    if SameLength(xs) > 0 {
      var rest, n := xs[1..], SameLength(xs);
      SameValues(rest);
      assert xs[..n + 1] == [xs[0]] + rest[..n];
    }
  }

  /** The longest run at the start of a list. */
  function FirstRun(xs: seq<int>): Run
    requires xs != []
  {
    if UpLength(xs) > 0 then Up(xs[0], UpLength(xs))
    else if SameLength(xs) > 0 then Same(xs[0], SameLength(xs))
    else One(xs[0])
  }

  function RunLength(r: Run): nat {
    if r.One? then 1 else r.n + 1
  }

  lemma FirstRunIsPrefix(xs: seq<int>)
    requires xs != []
    ensures 0 < RunLength(FirstRun(xs)) <= |xs| && RunValues(FirstRun(xs)) == xs[..RunLength(FirstRun(xs))]
    ensures xs[0] >= 0 ==> Proper(FirstRun(xs))
  {
    UpValues(xs);
    SameValues(xs);
  }

  function Runs(xs: seq<int>): seq<Run> {
    if xs == [] then []
    else
      FirstRunIsPrefix(xs);
      [FirstRun(xs)] + Runs(xs[RunLength(FirstRun(xs))..])
  }

  predicate AllProper(runs: seq<Run>) {
    forall i | 0 <= i < |runs| :: Proper(runs[i])
  }

  lemma Rejoin(xs: seq<int>, n: nat, a: seq<int>, b: seq<int>)
    requires n <= |xs| && a == xs[..n] && b == xs[n..]
    ensures a + b == xs
  {
  }

  lemma FirstValues(r: Run, rest: seq<Run>)
    ensures AllRunValues([r] + rest) == RunValues(r) + AllRunValues(rest)
  {
    assert ([r] + rest)[1..] == rest;
  }

  lemma {:induction false} RunsCover(xs: seq<int>)
    ensures AllRunValues(Runs(xs)) == xs
  {
    if xs != [] {
      FirstRunIsPrefix(xs);
      var r := FirstRun(xs);
      var rest := xs[RunLength(r)..];
      RunsCover(rest);
      FirstValues(r, Runs(rest));
      Rejoin(xs, RunLength(r), RunValues(r), AllRunValues(Runs(rest)));
    }
  }

  lemma {:induction false} RunsProper(xs: seq<int>)
    requires forall i | 0 <= i < |xs| :: xs[i] >= 0
    ensures AllProper(Runs(xs))
  {
    if xs != [] {
      FirstRunIsPrefix(xs);
      RunsProper(xs[RunLength(FirstRun(xs))..]);
    }
  }

  /** Every list of non-negative numbers comes back from its encoding exactly when each number in that can be
      read and no run of equal numbers is too long. */
  lemma ListRoundTrip(xs: seq<int>)
    requires forall i | 0 <= i < |xs| :: xs[i] >= 0
    ensures var items := EncodeAll(Runs(xs), 0);
            var o := Decode(items, 0);
            o.Some? && o.value.all == xs <==> Readable(items)
  {
    RunsCover(xs);
    RunsProper(xs);
    RunsRoundTrip(Runs(xs), 0);
  }
}
