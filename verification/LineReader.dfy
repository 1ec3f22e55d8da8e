/** Reading a stream line by line through a fixed buffer: a line of any length is put together from as many
    pieces as it takes. */
module LineReader {
  import opened Bytes
  import opened EnvStrings

  const NEWLINE: byte := 10

  /** The buffer, with room for the terminator. */
  const BUFFER: nat := 4096

  // ---------------------------------------------------------------- pieces

  /** What one read puts into the buffer: at most n bytes, and nothing after a newline. */
  function Piece(s: bytes, n: nat): (p: bytes)
    ensures |p| <= n && p <= s
    ensures s != [] && n > 0 ==> p != []
  {
    if s == [] || n == 0 then []
    else if s[0] == NEWLINE then [NEWLINE]
    else [s[0]] + Piece(s[1..], n - 1)
  }

  predicate EndsLine(p: bytes) {
    p != [] && p[|p| - 1] == NEWLINE
  }

  /** A piece that ends with a newline is the rest of the line; any other is some of it. */
  lemma {:induction false} PieceOfLine(s: bytes, n: nat)
    requires s != [] && n > 0
    ensures var p := Piece(s, n);
            if EndsLine(p) then p[..|p| - 1] == UpTo(s, NEWLINE) && s[|p|..] == AfterFirst(s, NEWLINE)
            else p + UpTo(s[|p|..], NEWLINE) == UpTo(s, NEWLINE)
                 && AfterFirst(s[|p|..], NEWLINE) == AfterFirst(s, NEWLINE)
  {
    if s[0] != NEWLINE {
      var p, rest := Piece(s, n), s[1..];
      if n == 1 || rest == [] {
        assert p == [s[0]];
        assert s[1..] == rest;
      } else {
        PieceOfLine(rest, n - 1);
        var q := Piece(rest, n - 1);
        assert p == [s[0]] + q;
        assert p[|p| - 1] == q[|q| - 1];
        assert s[|p|..] == rest[|q|..];
        if EndsLine(q) {
          assert p[..|p| - 1] == [s[0]] + q[..|q| - 1];
        } else {
          Assoc([s[0]], q, UpTo(rest[|q|..], NEWLINE));
        }
      }
    }
  }

  // ---------------------------------------------------------------- lines

  lemma {:induction false} AfterFirstShorter(s: bytes)
    ensures |AfterFirst(s, NEWLINE)| <= |s| && (s != [] ==> |AfterFirst(s, NEWLINE)| < |s|)
    ensures NulFree(s) ==> NulFree(AfterFirst(s, NEWLINE))
  {
    if s != [] && s[0] != NEWLINE { AfterFirstShorter(s[1..]); }
  }

  /** The lines of a stream, without their newlines. */
  function Lines(s: bytes): seq<bytes>
    decreases |s|
  {
    if s == [] then []
    else
      AfterFirstShorter(s);
      [UpTo(s, NEWLINE)] + Lines(AfterFirst(s, NEWLINE))
  }

  function Unlines(lines: seq<bytes>): bytes {
    if lines == [] then [] else lines[0] + [NEWLINE] + Unlines(lines[1..])
  }

  lemma {:induction false} FirstLine(s: bytes)
    ensures NEWLINE !in UpTo(s, NEWLINE)
    ensures if NEWLINE in s then s == UpTo(s, NEWLINE) + [NEWLINE] + AfterFirst(s, NEWLINE)
            else s == UpTo(s, NEWLINE) && AfterFirst(s, NEWLINE) == []
  {
    if s != [] && s[0] != NEWLINE {
      FirstLine(s[1..]);
      assert s == [s[0]] + s[1..];
      Assoc([s[0]], UpTo(s[1..], NEWLINE), [NEWLINE]);
      Assoc([s[0]], UpTo(s[1..], NEWLINE) + [NEWLINE], AfterFirst(s[1..], NEWLINE));
    } else if s != [] {
      assert s == [] + [NEWLINE] + s[1..];
    }
  }

  /** The lines have no newlines in them and, ended by newlines, are the stream, which may lack the last. */
  lemma {:induction false} LinesAreStream(s: bytes)
    ensures forall l | l in Lines(s) :: NEWLINE !in l
    ensures Unlines(Lines(s)) == if s == [] || EndsLine(s) then s else s + [NEWLINE]
    decreases |s|
  {
    if s != [] {
      var line, rest := UpTo(s, NEWLINE), AfterFirst(s, NEWLINE);
      AfterFirstShorter(s);
      FirstLine(s);
      LinesAreStream(rest);
      assert Lines(s)[1..] == Lines(rest) && Lines(s)[0] == line;
      assert Unlines(Lines(s)) == line + [NEWLINE] + Unlines(Lines(rest));
      if NEWLINE in s {
        if rest == [] {
          assert s == line + [NEWLINE];
        } else {
          assert s[|s| - 1] == rest[|rest| - 1];
          Assoc(line + [NEWLINE], rest, [NEWLINE]);
        }
      } else {
        assert !EndsLine(s);
        assert line + [NEWLINE] + [] == line + [NEWLINE];
      }
    }
  }

  // ---------------------------------------------------------------- reading

  /** A stream that is read to the end without errors. */
  class Stream {
    var rest: bytes

    constructor (s: bytes)
      ensures rest == s
    {
      rest := s;
    }

    /** One read into a buffer of the given size; nothing at the end of the stream. */
    method Gets(size: nat) returns (buf: bytes)
      requires size >= 2
      modifies this
      ensures buf == Piece(old(rest), size - 1) && rest == old(rest)[|buf|..]
      ensures buf == [] <==> old(rest) == []
    {
      buf := Piece(rest, size - 1);
      rest := rest[|buf|..];
    }
  }

  /** A string on the heap: its bytes and a terminator. */
  ghost predicate Holds(a: array?<byte>, n: nat, s: bytes)
    reads a
  {
    a != null && a.Length == n + 1 && a[..n] == s && a[n] == 0
  }

  /** A longer copy of a string, or a first one. */
  method ReallocAppend(lhs: array?<byte>, n: nat, rhs: bytes) returns (a: array<byte>, len: nat)
    requires lhs == null ==> n == 0
    requires lhs != null ==> lhs.Length == n + 1
    ensures fresh(a) && len == n + |rhs|
    ensures Holds(a, len, (if lhs == null then [] else lhs[..n]) + rhs)
  {
    len := n + |rhs|;
    a := new byte[len + 1];
    for i := 0 to n
      invariant lhs != null ==> a[..i] == lhs[..i]
    {
      if lhs != null { a[i] := lhs[i]; }
    }
    for i := 0 to |rhs|
      invariant lhs != null ==> a[..n] == lhs[..n]
      invariant a[n..n + i] == rhs[..i]
    {
      a[n + i] := rhs[i];
    }
    a[len] := 0;
    assert a[..len] == a[..n] + a[n..len];
  }

  /** How far a line has come: what is got, then what is left of it, is the line. */
  predicate Reading(s: bytes, got: bytes, rest: bytes) {
    got + UpTo(rest, NEWLINE) == UpTo(s, NEWLINE) && AfterFirst(rest, NEWLINE) == AfterFirst(s, NEWLINE)
  }

  lemma ReadOn(s: bytes, got: bytes, rest: bytes, n: nat)
    requires Reading(s, got, rest) && rest != [] && n > 0
    ensures var p := Piece(rest, n);
            if EndsLine(p) then got + p[..|p| - 1] == UpTo(s, NEWLINE) && rest[|p|..] == AfterFirst(s, NEWLINE)
            else Reading(s, got + p, rest[|p|..])
  {
    PieceOfLine(rest, n);
    var p := Piece(rest, n);
    Assoc(got, p, UpTo(rest[|p|..], NEWLINE));
  }

  lemma {:induction false} NoNul(s: bytes)
    requires NulFree(s)
    ensures UpTo(s, 0) == s
  {
    if s != [] {
      assert NulFree(s[1..]);
      NoNul(s[1..]);
    }
  }

  /** Takes the newline off a piece. Its length is found from its terminator. */
  method Strip(buf: bytes) returns (text: bytes, completed: bool)
    requires buf != [] && NulFree(buf)
    ensures completed == EndsLine(buf)
    ensures text == if completed then buf[..|buf| - 1] else buf
  {
    NoNul(buf);
    var len := |UpTo(buf, 0)|;
    completed := buf[len - 1] == NEWLINE;
    if completed { len := len - 1; }
    text := buf[..len];
  }

  /** The next line, however long; null at the end of the stream. */
  method ReadLine(file: Stream) returns (line: array?<byte>, len: nat)
    requires NulFree(file.rest)
    modifies file
    ensures old(file.rest) == [] ==> line == null && file.rest == []
    ensures old(file.rest) != [] ==> Holds(line, len, UpTo(old(file.rest), NEWLINE))
    ensures file.rest == AfterFirst(old(file.rest), NEWLINE)
    ensures line != null ==> fresh(line)
  {
    ghost var s := file.rest;
    line, len := null, 0;
    ghost var got: bytes := [];
    while true
      invariant NulFree(file.rest) && Reading(s, got, file.rest)
      invariant line == null ==> got == [] && len == 0 && file.rest == s
      invariant line != null ==> s != [] && Holds(line, len, got) && fresh(line)
      decreases |file.rest|
    {
      ghost var here := file.rest;
      var buf := file.Gets(BUFFER);
      if buf == [] {
        assert got + [] == got;
        return;
      }
      var completed;
      line, len, completed, got := TakeIn(buf, line, len, s, got, here);
      if completed { return; }
    }
  }

  /** Adds what was read to the line, and says whether that completes it. */
  method TakeIn(buf: bytes, line: array?<byte>, len: nat, ghost s: bytes, ghost got: bytes, ghost here: bytes)
    returns (more: array<byte>, total: nat, completed: bool, ghost all: bytes)
    requires Reading(s, got, here) && here != [] && buf == Piece(here, BUFFER - 1) && NulFree(buf)
    requires line == null ==> got == [] && len == 0
    requires line != null ==> Holds(line, len, got)
    ensures fresh(more) && Holds(more, total, all)
    ensures if completed then all == UpTo(s, NEWLINE) && here[|buf|..] == AfterFirst(s, NEWLINE)
            else Reading(s, all, here[|buf|..])
  {
    ReadOn(s, got, here, BUFFER - 1);
    var text;
    text, completed := Strip(buf);
    more, total := AppendPiece(line, len, text, got);
    all := got + text;
  }

  method AppendPiece(line: array?<byte>, len: nat, buf: bytes, ghost got: bytes) returns (more: array<byte>, total: nat)
    requires line == null ==> got == [] && len == 0
    requires line != null ==> Holds(line, len, got)
    ensures fresh(more) && Holds(more, total, got + buf)
  {
    more, total := ReallocAppend(line, len, buf);
    assert [] + buf == buf;
  }

  /** Reading line after line gives exactly the lines of the stream. */
  method ReadLines(file: Stream) returns (lines: seq<bytes>)
    requires NulFree(file.rest)
    modifies file
    ensures lines == Lines(old(file.rest)) && file.rest == []
  {
    lines := [];
    while true
      invariant NulFree(file.rest) && lines + Lines(file.rest) == Lines(old(file.rest))
      decreases |file.rest|
    {
      ghost var here := file.rest;
      AfterFirstShorter(here);
      var line, len := ReadLine(file);
      if line == null {
        assert lines + [] == lines;
        return;
      }
      assert lines + ([line[..len]] + Lines(file.rest)) == lines + [line[..len]] + Lines(file.rest);
      lines := lines + [line[..len]];
    }
  }
}
