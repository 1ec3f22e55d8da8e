/** Splitting `VAR=VALUE` strings and blacklist entries at a delimiter, the way the daemon does it: two
    fields up to the delimiter, then one white-space separated token of whatever is left. */
module EnvStrings {
  import opened Bytes

  function UpTo(s: bytes, d: byte): bytes {
    if s == [] || s[0] == d then [] else [s[0]] + UpTo(s[1..], d)
  }

  function AfterFirst(s: bytes, d: byte): bytes {
    if s == [] then [] else if s[0] == d then s[1..] else AfterFirst(s[1..], d)
  }

  function TakeToSpace(s: bytes): bytes {
    if s == [] || IsSpace(s[0]) then [] else [s[0]] + TakeToSpace(s[1..])
  }

  function Token(s: bytes): bytes {
    TakeToSpace(SkipSpaces(s))
  }

  function Split2(line: bytes, d: byte): (bytes, bytes) {
    var rest := AfterFirst(line, d);
    var second := UpTo(rest, d);
    var tail := Token(AfterFirst(rest, d));
    (UpTo(line, d), if tail == [] then second else second + [d] + tail)
  }

  predicate SpaceFree(s: bytes) {
    forall i | 0 <= i < |s| :: !IsSpace(s[i])
  }

  lemma {:induction false} SplitAtFirst(a: bytes, d: byte, b: bytes)
    requires d !in a
    ensures UpTo(a + [d] + b, d) == a && AfterFirst(a + [d] + b, d) == b
  {
    var s := a + [d] + b;
    if a == [] {
      assert s[1..] == b;
    } else {
      assert s[1..] == a[1..] + [d] + b;
      SplitAtFirst(a[1..], d, b);
    }
  }

  lemma {:induction false} NoDelimiter(s: bytes, d: byte)
    requires d !in s
    ensures UpTo(s, d) == s && AfterFirst(s, d) == []
  {
    if s != [] { NoDelimiter(s[1..], d); }
  }

  lemma {:induction false} Rejoin(s: bytes, d: byte)
    requires d in s
    ensures s == UpTo(s, d) + [d] + AfterFirst(s, d)
  {
    if s[0] != d {
      assert s == [s[0]] + s[1..];
      Rejoin(s[1..], d);
    }
  }

  lemma {:induction false} TokenIsAll(s: bytes)
    ensures TakeToSpace(s) == s <==> SpaceFree(s)
  {
    if s != [] {
      TokenIsAll(s[1..]);
      assert s == [s[0]] + s[1..];
      if SpaceFree(s) {
        assert !IsSpace(s[0]);
        assert SpaceFree(s[1..]);
      } else if SpaceFree(s[1..]) {
        assert IsSpace(s[0]);
      }
    }
  }

  lemma {:induction false} TokenShrinks(s: bytes)
    ensures |SkipSpaces(s)| <= |s| && |TakeToSpace(s)| <= |s|
    ensures s != [] && IsSpace(s[0]) ==> |SkipSpaces(s)| < |s|
  {
    if s != [] { TokenShrinks(s[1..]); }
  }

  lemma TokenExactly(s: bytes)
    ensures Token(s) == s <==> SpaceFree(s)
  {
    TokenShrinks(s);
    TokenShrinks(SkipSpaces(s));
    TokenIsAll(s);
    if s != [] && IsSpace(s[0]) { assert !SpaceFree(s); }
  }

  lemma {:induction false} SkippedSpaces(s: bytes) returns (before: bytes)
    ensures s == before + SkipSpaces(s) && forall i | 0 <= i < |before| :: IsSpace(before[i])
    ensures SkipSpaces(s) == [] || !IsSpace(SkipSpaces(s)[0])
  {
    before := [];
    if s != [] && IsSpace(s[0]) {
      var more := SkippedSpaces(s[1..]);
      assert s == [s[0]] + s[1..];
      before := [s[0]] + more;
      assert s == before + SkipSpaces(s);
    }
  }

  lemma {:induction false} TakenToSpace(s: bytes) returns (after: bytes)
    ensures s == TakeToSpace(s) + after && SpaceFree(TakeToSpace(s)) && (after == [] || IsSpace(after[0]))
  {
    after := s;
    if s != [] && !IsSpace(s[0]) {
      after := TakenToSpace(s[1..]);
      assert s == [s[0]] + s[1..];
    }
  }

  /** A token is the first stretch of a string without white space. */
  lemma TokenParts(s: bytes) returns (before: bytes, after: bytes)
    ensures s == before + Token(s) + after
    ensures (forall i | 0 <= i < |before| :: IsSpace(before[i])) && SpaceFree(Token(s))
    ensures (after == [] || IsSpace(after[0])) && (Token(s) == [] ==> after == [])
  {
    before := SkippedSpaces(s);
    after := TakenToSpace(SkipSpaces(s));
    Assoc(before, Token(s), after);
  }

  /** What the tail of a value must look like to come out of the split whole. */
  predicate Survives(val: bytes, d: byte) {
    d in val ==> AfterFirst(val, d) != [] && SpaceFree(AfterFirst(val, d))
  }

  /** Splitting a name and its value apart gives both back exactly when the value has no further
      delimiter, or what follows that delimiter is not empty and has no white space. Otherwise the end
      of the value is lost. */
  lemma SplitExactly(name: bytes, d: byte, val: bytes)
    requires d !in name
    ensures Split2(name + [d] + val, d).0 == name
    ensures Split2(name + [d] + val, d).1 == val <==> Survives(val, d)
  {
    SplitAtFirst(name, d, val);
    if d in val {
      var a, b := UpTo(val, d), AfterFirst(val, d);
      Rejoin(val, d);
      TokenExactly(b);
      if Token(b) != [] && a + [d] + Token(b) == val {
        assert Token(b) == (a + [d] + Token(b))[|a| + 1..];
        assert b == (a + [d] + b)[|a| + 1..];
      }
    } else {
      NoDelimiter(val, d);
      assert Token([]) == [];
    }
  }

  // ---------------------------------------------------------------- blacklist entries

  const EQUALS: byte := 61
  const UNDERSCORE: byte := 95

  /** The bytes of the word CTIBLACKLIST. */
  const BLACKLIST_WORD: bytes := [67, 84, 73, 66, 76, 65, 67, 75, 76, 73, 83, 84]

  predicate IsBlacklistEntry(s: bytes) {
    BLACKLIST_WORD + [UNDERSCORE] <= s
  }

  /** The name a blacklist entry bans: what follows the tag, without one trailing equals sign. */
  function BannedName(s: bytes): bytes {
    Trimmed(Split2(s, UNDERSCORE).1)
  }

  function Trimmed(val: bytes): bytes {
    if val != [] && val[|val| - 1] == EQUALS then val[..|val| - 1] else val
  }

  lemma AfterFirstOfAppend(s: bytes, d: byte, e: byte)
    requires d in s
    ensures AfterFirst(s + [e], d) == AfterFirst(s, d) + [e]
  {
    if s[0] == d {
      assert (s + [e])[1..] == s[1..] + [e];
    } else {
      assert (s + [e])[1..] == s[1..] + [e];
      AfterFirstOfAppend(s[1..], d, e);
    }
  }

  lemma {:induction false} TokenIsSpaceFree(s: bytes)
    ensures SpaceFree(TakeToSpace(s))
  {
    if s != [] { TokenIsSpaceFree(s[1..]); }
  }

  /** What the split makes of a value, given how the value divides. */
  lemma SplitValue(name: bytes, d: byte, val: bytes)
    requires d !in name && d in val
    ensures var tail := Token(AfterFirst(val, d));
            Split2(name + [d] + val, d).1 == if tail == [] then UpTo(val, d) else UpTo(val, d) + [d] + tail
  {
    SplitAtFirst(name, d, val);
  }

  /** If what follows the underscore has white space, the name that comes out is another one. */
  lemma BannedWrongly(tag: bytes, name: bytes)
    requires UNDERSCORE !in tag && UNDERSCORE in name && !SpaceFree(AfterFirst(name, UNDERSCORE))
    ensures Split2(tag + [UNDERSCORE] + (name + [EQUALS]), UNDERSCORE).1 != name
  {
    var val := name + [EQUALS];
    var a, b, c := UpTo(val, UNDERSCORE), AfterFirst(val, UNDERSCORE), AfterFirst(name, UNDERSCORE);
    SplitValue(tag, UNDERSCORE, val);
    Rejoin(val, UNDERSCORE);
    AfterFirstOfAppend(name, UNDERSCORE, EQUALS);
    TokenIsSpaceFree(SkipSpaces(b));
    assert name == a + [UNDERSCORE] + c by {
      assert val == a + [UNDERSCORE] + c + [EQUALS];
      assert val[..|val| - 1] == name;
    }
    assert (a + [UNDERSCORE] + Token(b))[|a| + 1..] == Token(b);
    assert (a + [UNDERSCORE] + c)[|a| + 1..] == c;
  }

  lemma TrimmedExactly(out: bytes, name: bytes)
    requires out != name
    ensures Trimmed(out) == name <==> out == name + [EQUALS]
  {
    if out != [] && out[|out| - 1] == EQUALS { assert out == out[..|out| - 1] + [EQUALS]; }
    assert (name + [EQUALS])[..|name|] == name;
  }

  lemma BannedUnderTag(tag: bytes, name: bytes)
    requires UNDERSCORE !in tag
    ensures Trimmed(Split2(tag + [UNDERSCORE] + (name + [EQUALS]), UNDERSCORE).1) == name
            <==> (UNDERSCORE in name ==> SpaceFree(AfterFirst(name, UNDERSCORE)))
  {
    var val := name + [EQUALS];
    var out := Split2(tag + [UNDERSCORE] + val, UNDERSCORE).1;
    SplitExactly(tag, UNDERSCORE, val);
    assert val[..|val| - 1] == name;
    if UNDERSCORE in name {
      AfterFirstOfAppend(name, UNDERSCORE, EQUALS);
      var t := AfterFirst(name, UNDERSCORE);
      if SpaceFree(t) {
        assert SpaceFree(t + [EQUALS]);
      } else {
        var i :| 0 <= i < |t| && IsSpace(t[i]);
        assert (t + [EQUALS])[i] == t[i];
        BannedWrongly(tag, name);
        TrimmedExactly(out, name);
      }
    }
  }

  /** The entry a frontend writes for a variable bans exactly that variable if and only if the part of
      its name after the first underscore, if any, has no white space. */
  lemma BannedExactly(name: bytes)
    ensures var entry := BLACKLIST_WORD + [UNDERSCORE] + (name + [EQUALS]);
            && IsBlacklistEntry(entry)
            && (BannedName(entry) == name <==> (UNDERSCORE in name ==> SpaceFree(AfterFirst(name, UNDERSCORE))))
  {
    WordIsWhole();
    TaggedEntry(BLACKLIST_WORD, name);
    EntryBegins(name + [EQUALS]);
  }

  lemma WordIsWhole()
    ensures UNDERSCORE !in BLACKLIST_WORD
  {
  }

  lemma TaggedEntry(tag: bytes, name: bytes)
    requires UNDERSCORE !in tag
    ensures BannedName(tag + [UNDERSCORE] + (name + [EQUALS])) == name
            <==> (UNDERSCORE in name ==> SpaceFree(AfterFirst(name, UNDERSCORE)))
  {
    BannedUnderTag(tag, name);
  }

  lemma EntryBegins(rest: bytes)
    ensures IsBlacklistEntry(BLACKLIST_WORD + [UNDERSCORE] + rest)
  {
  }

  /** A variable set to "b=c d" comes out without the " d". */
  lemma SplitLosesEnd(name: bytes)
    requires EQUALS !in name
    ensures Split2(name + [EQUALS] + [98, 61, 99, 32, 100], EQUALS).1 != [98, 61, 99, 32, 100]
  {
    var val: bytes := [98, 61, 99, 32, 100];
    assert val == [98] + [EQUALS] + [99, 32, 100];
    SplitAtFirst([98], EQUALS, [99, 32, 100]);
    var end: bytes := [99, 32, 100];
    assert IsSpace(end[1]) && !SpaceFree(end);
    SplitExactly(name, EQUALS, val);
  }

  /** An entry for the variable "A_B C" bans another. */
  lemma BansAnother()
    ensures var name: bytes := [65, 95, 66, 32, 67];
            BannedName(BLACKLIST_WORD + [UNDERSCORE] + (name + [EQUALS])) != name
  {
    var name: bytes := [65, 95, 66, 32, 67];
    assert name == [65] + [UNDERSCORE] + [66, 32, 67];
    SplitAtFirst([65], UNDERSCORE, [66, 32, 67]);
    var end: bytes := [66, 32, 67];
    assert IsSpace(end[1]) && !SpaceFree(end);
    assert name[1] == UNDERSCORE;
    BannedExactly(name);
  }
}
