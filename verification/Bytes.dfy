/** Bytes, fixed-width integers, NUL-terminated strings and decimal counts, as they appear on the
    daemon's request and response streams. Readers take the bytes still in the stream and return what
    they read with what is left; writers put their bytes in front of what follows. */
module Bytes {

  type byte = x: int | 0 <= x < 256

  type bytes = seq<byte>

  predicate NulFree(s: bytes) {
    forall i | 0 <= i < |s| :: s[i] != 0
  }

  /** The contents of a C string. */
  type CString = s: bytes | NulFree(s)

  const TWO_31: int := 0x8000_0000
  const TWO_32: int := 0x1_0000_0000

  type int32 = x: int | -0x8000_0000 <= x < 0x8000_0000

  datatype Parsed<+T> = Got(value: T, rest: bytes) | Bad {
    predicate IsFailure() { Bad? }

    function PropagateFailure<U>(): Parsed<U>
      requires Bad?
    {
      Bad
    }

    function Extract(): (T, bytes)
      requires Got?
    {
      (value, rest)
    }
  }

  // ---------------------------------------------------------------- fixed-width integers

  function Pow256(w: nat): nat {
    if w == 0 then 1 else 256 * Pow256(w - 1)
  }

  function LittleEndian(n: nat, w: nat): (r: bytes)
    ensures |r| == w
  {
    if w == 0 then [] else [n % 256] + LittleEndian(n / 256, w - 1)
  }

  function FromLittleEndian(s: bytes): nat {
    if s == [] then 0 else s[0] + 256 * FromLittleEndian(s[1..])
  }

  lemma {:induction false} LittleEndianRoundTrip(n: nat, w: nat)
    requires n < Pow256(w)
    ensures FromLittleEndian(LittleEndian(n, w)) == n
  {
    if w > 0 {
      var tail := LittleEndian(n / 256, w - 1);
      LittleEndianRoundTrip(n / 256, w - 1);
      assert ([n % 256] + tail)[1..] == tail;
    }
  }

  lemma {:induction false} PowersPositive(w: nat)
    ensures Pow256(w) > 0
  {
    if w > 0 { PowersPositive(w - 1); }
  }

  lemma DivideTwice(n: nat, p: nat)
    requires p > 0
    ensures n / 256 / p == n / (256 * p)
  {
    var q, r := n / 256 / p, n / 256 % p;
    var x := r * 256 + n % 256;
    assert n / 256 == q * p + r;
    assert n == 256 * (q * p + r) + n % 256;
    assert 256 * (q * p + r) == q * (256 * p) + r * 256;
    assert n == q * (256 * p) + x;
    assert r * 256 <= (p - 1) * 256;
    assert 0 <= x < 256 * p;
    Quotient(n, 256 * p, q, x);
  }

  lemma Quotient(n: nat, d: nat, q: nat, r: nat)
    requires d > 0 && n == q * d + r && r < d
    ensures n / d == q
  {
    var k := n / d;
    assert n == k * d + n % d;
    if k < q {
      Multiples(k + 1, q, d);
    } else if q < k {
      Multiples(q + 1, k, d);
    }
  }

  lemma Multiples(a: nat, b: nat, d: nat)
    requires a <= b
    ensures a * d <= b * d
  {
  }

  /** The lowest byte comes first. */
  lemma {:induction false} LittleEndianAt(n: nat, w: nat, i: nat)
    requires i < w
    ensures Pow256(i) > 0 && LittleEndian(n, w)[i] == n / Pow256(i) % 256
  {
    PowersPositive(i);
    if i > 0 {
      PowersPositive(i - 1);
      LittleEndianAt(n / 256, w - 1, i - 1);
      DivideTwice(n, Pow256(i - 1));
    }
  }

  function PutUnsigned(n: nat, w: nat, k: bytes): bytes {
    LittleEndian(n, w) + k
  }

  function GetUnsigned(w: nat, s: bytes): Parsed<nat> {
    if |s| < w then Bad else Got(FromLittleEndian(s[..w]), s[w..])
  }

  lemma UnsignedRoundTrip(n: nat, w: nat, k: bytes)
    requires n < Pow256(w)
    ensures GetUnsigned(w, PutUnsigned(n, w, k)) == Got(n, k)
  {
    LittleEndianRoundTrip(n, w);
    var s := PutUnsigned(n, w, k);
    assert s[..w] == LittleEndian(n, w) && s[w..] == k;
  }

  function PutInt32(v: int32, k: bytes): bytes {
    PutUnsigned(if v < 0 then v + TWO_32 else v, 4, k)
  }

  function GetInt32(s: bytes): Parsed<int32> {
    if |s| < 4 then Bad
    else
      var u := FromLittleEndian(s[..4]);
      var m := u % TWO_32;
      Got(if m < TWO_31 then m else m - TWO_32, s[4..])
  }

  lemma Pow256Values()
    ensures Pow256(1) == 256 && Pow256(4) == TWO_32 && Pow256(8) == TWO_32 * TWO_32
  {
    assert Pow256(2) == 256 * Pow256(1);
    assert Pow256(3) == 256 * Pow256(2);
    assert Pow256(4) == 256 * Pow256(3);
    assert Pow256(5) == 256 * Pow256(4);
    assert Pow256(6) == 256 * Pow256(5);
    assert Pow256(7) == 256 * Pow256(6);
    assert Pow256(8) == 256 * Pow256(7);
  }

  lemma Int32RoundTrip(v: int32, k: bytes)
    ensures GetInt32(PutInt32(v, k)) == Got(v, k)
  {
    Pow256Values();
    UnsignedRoundTrip(if v < 0 then v + TWO_32 else v, 4, k);
  }

  // ---------------------------------------------------------------- NUL-terminated strings

  function PutString(s: CString, k: bytes): bytes {
    s + [0] + k
  }

  function PutStrings(ss: seq<CString>, k: bytes): bytes {
    if ss == [] then k else PutString(ss[0], PutStrings(ss[1..], k))
  }

  /** `std::getline` up to a NUL: it fails only when the stream is already at its end. */
  function GetString(s: bytes): Parsed<CString> {
    if s == [] then Bad else ScanString(s)
  }

  function ScanString(s: bytes): (r: Parsed<CString>)
    ensures r.Got?
  {
    if s == [] then Got([], [])
    else if s[0] == 0 then Got([], s[1..])
    else
      var r := ScanString(s[1..]);
      Got([s[0]] + r.value, r.rest)
  }

  /** A string read byte by byte up to its NUL: the end of the stream before that is an error. */
  function GetTerminated(s: bytes): Parsed<CString> {
    if 0 in s then ScanString(s) else Bad
  }

  function GetStrings(n: nat, s: bytes): Parsed<seq<CString>> {
    if n == 0 then Got([], s)
    else
      var (x, s1) :- GetString(s);
      var (xs, s2) :- GetStrings(n - 1, s1);
      Got([x] + xs, s2)
  }

  lemma {:induction false} ScanRoundTrip(s: CString, k: bytes)
    ensures ScanString(PutString(s, k)) == Got(s, k)
  {
    var t := PutString(s, k);
    if s == [] {
      assert t[1..] == k;
    } else {
      ScanRoundTrip(s[1..], k);
      assert t[0] == s[0] && t[1..] == PutString(s[1..], k);
      assert [s[0]] + s[1..] == s;
    }
  }

  lemma StringRoundTrip(s: CString, k: bytes)
    ensures GetString(PutString(s, k)) == Got(s, k)
  {
    ScanRoundTrip(s, k);
  }

  lemma TerminatedRoundTrip(s: CString, k: bytes)
    ensures GetTerminated(PutString(s, k)) == Got(s, k)
  {
    ScanRoundTrip(s, k);
    assert PutString(s, k)[|s|] == 0;
  }

  lemma {:induction false} StringsRoundTrip(ss: seq<CString>, k: bytes)
    ensures GetStrings(|ss|, PutStrings(ss, k)) == Got(ss, k)
  {
    if ss != [] {
      StringRoundTrip(ss[0], PutStrings(ss[1..], k));
      StringsRoundTrip(ss[1..], k);
      assert [ss[0]] + ss[1..] == ss;
    }
  }

  // ---------------------------------------------------------------- decimal counts

  function Decimal(n: nat): (r: CString)
    ensures r != [] && forall i | 0 <= i < |r| :: IsDigit(r[i])
  {
    if n < 10 then [48 + n] else Decimal(n / 10) + [48 + n % 10]
  }

  predicate IsDigit(b: byte) { 48 <= b <= 57 }

  predicate IsSpace(b: byte) { b == 32 || 9 <= b <= 13 }

  /** White space is a blank, a tab, or one of the four characters that end a line or a page. */
  lemma SpaceExactly(c: char)
    requires c as int < 256
    ensures IsSpace(c as int) <==> c in [' ', '\t', '\n', '\U{000B}', '\U{000C}', '\r']
  {
  }

  function DigitsValue(s: bytes): (v: nat)
    requires forall i | 0 <= i < |s| :: IsDigit(s[i])
  {
    if s == [] then 0
    else
      assert IsDigit(s[|s| - 1]);
      DigitsValue(s[..|s| - 1]) * 10 + (s[|s| - 1] as int - 48)
  }

  function SkipSpaces(s: bytes): bytes {
    if s != [] && IsSpace(s[0]) then SkipSpaces(s[1..]) else s
  }

  /** `std::stoi` with the check that the whole string was used: optional white space and sign, then
      digits only, and a value that fits an int. */
  function WholeInt(s: bytes): (r: Parsed<int>) {
    var t := SkipSpaces(s);
    var signed := t != [] && (t[0] == 43 || t[0] == 45);
    var ds := if signed then t[1..] else t;
    if ds == [] || exists i | 0 <= i < |ds| :: !IsDigit(ds[i]) then Bad
    else
      var v := if signed && t[0] == 45 then -(DigitsValue(ds) as int) else DigitsValue(ds) as int;
      if -TWO_31 <= v < TWO_31 then Got(v, []) else Bad
  }

  lemma {:induction false} DecimalValue(n: nat)
    ensures DigitsValue(Decimal(n)) == n
  {
    var s := Decimal(n);
    if n >= 10 {
      DecimalValue(n / 10);
      assert s[..|s| - 1] == Decimal(n / 10);
    } else {
      assert s[..|s| - 1] == [];
    }
  }

  /** The count a writer sends is the count a reader gets, as long as it fits an int. */
  lemma DecimalRoundTrip(n: nat)
    ensures WholeInt(Decimal(n)) == if n < TWO_31 then Got(n, []) else Bad
  {
    DecimalValue(n);
    assert SkipSpaces(Decimal(n)) == Decimal(n);
  }

  // ---------------------------------------------------------------- writers as appends

  lemma Assoc(a: bytes, b: bytes, c: bytes)
    ensures a + (b + c) == a + b + c
  {}

  lemma PutUnsignedAppends(n: nat, w: nat, a: bytes, k: bytes)
    ensures PutUnsigned(n, w, a + k) == PutUnsigned(n, w, a) + k
  {}

  lemma PutInt32Appends(v: int32, a: bytes, k: bytes)
    ensures PutInt32(v, a + k) == PutInt32(v, a) + k
  {}

  lemma PutStringAppends(s: CString, k: bytes)
    ensures PutString(s, k) == PutString(s, []) + k
  {}

  lemma {:induction false} PutStringsAppends(ss: seq<CString>, k: bytes)
    ensures PutStrings(ss, k) == PutStrings(ss, []) + k
  {
    if ss != [] {
      PutStringsAppends(ss[1..], k);
      PutStringAppends(ss[0], PutStrings(ss[1..], k));
      PutStringAppends(ss[0], PutStrings(ss[1..], []));
    }
  }
}
