/** The byte streams themselves. A read may return any non-empty part of what was asked for and a write
    may accept any non-empty part of what was offered; the loops here hide that, so that what is read and
    written is what the formats of `Wire` say, however the stream is cut up. */
module WireChannel {
  import opened Bytes
  import opened EnvStrings
  import opened Options
  import opened Wire

  /** A reader did what its format says: it got a value and consumed its bytes exactly when the format
      has one at the head of the stream. */
  ghost predicate Follows<T>(r: Option<T>, left: bytes, spec: Parsed<T>) {
    match spec
    case Bad => r.None?
    case Got(v, rest) => r == Some(v) && left == rest
  }

  class Channel {
    /** What has been written and not yet read. At its end a read finds the stream closed. */
    var data: bytes

    constructor ()
      ensures data == []
    {
      data := [];
    }

    method Read(capacity: nat) returns (chunk: bytes)
      requires capacity > 0
      modifies this
      ensures chunk + data == old(data)
      ensures |chunk| <= capacity
      ensures chunk == [] <==> old(data) == []
    {
      chunk := [];
      if data != [] {
        var n: nat :| 1 <= n <= |data| && n <= capacity;
        chunk := data[..n];
        data := data[n..];
      }
    }

    method Write(s: bytes) returns (n: nat)
      requires s != []
      modifies this
      ensures 1 <= n <= |s|
      ensures data == old(data) + s[..n]
    {
      n :| 1 <= n <= |s|;
      data := data + s[..n];
    }

    /** Fills a buffer from as many reads as it takes; stops short only at the end of the stream. */
    method ReadLoop(buf: array<byte>) returns (offset: nat)
      modifies this, buf
      ensures offset == if buf.Length <= |old(data)| then buf.Length else |old(data)|
      ensures buf[..offset] + data == old(data)
    {
      offset := 0;
      ghost var before := data;
      assert buf[..0] == [];
      while offset < buf.Length
        invariant offset <= buf.Length
        invariant buf[..offset] + data == before
        decreases buf.Length - offset
      {
        var chunk := Read(buf.Length - offset);
        if chunk == [] {
          break;
        }
        ghost var got := buf[..offset];
        forall i | 0 <= i < |chunk| {
          buf[offset + i] := chunk[i];
        }
        assert buf[..offset + |chunk|] == got + chunk;
        offset := offset + |chunk|;
      }
    }

    /** Writes a buffer with as many writes as it takes. */
    method WriteLoop(s: bytes)
      modifies this
      ensures data == old(data) + s
    {
      var offset := 0;
      while offset < |s|
        invariant offset <= |s| && data == old(data) + s[..offset]
      {
        var n := Write(s[offset..]);
        assert s[..offset + n] == s[..offset] + s[offset..][..n];
        offset := offset + n;
      }
    }

    method ReadExactly(n: nat) returns (r: Option<bytes>)
      modifies this
      ensures Follows(r, data, if |old(data)| < n then Bad else Got(old(data)[..n], old(data)[n..]))
      ensures r.None? ==> data == []
    {
      var buf := new byte[n];
      var got := ReadLoop(buf);
      assert old(data)[..got] == buf[..got] && old(data)[got..] == data;
      if got < n {
        r := None;
      } else {
        assert buf[..] == buf[..got];
        r := Some(buf[..]);
      }
    }

    method ReadUnsigned(w: nat) returns (r: Option<nat>)
      modifies this
      ensures Follows(r, data, GetUnsigned(w, old(data)))
    {
      var s := ReadExactly(w);
      r := if s.None? then None else Some(FromLittleEndian(s.value));
    }

    method ReadInt32() returns (r: Option<int32>)
      modifies this
      ensures Follows(r, data, GetInt32(old(data)))
    {
      var s := ReadExactly(4);
      if s.None? {
        r := None;
      } else {
        var m := FromLittleEndian(s.value) % TWO_32;
        r := Some(if m < TWO_31 then m else m - TWO_32);
      }
    }

    /** Reads one byte at a time up to a NUL or the end of the stream. */
    method ReadString() returns (r: Option<CString>)
      modifies this
      ensures Follows(r, data, GetString(old(data)))
    {
      if data == [] {
        return None;
      }
      var s: CString := [];
      assert s + ScanString(data).value == ScanString(data).value;
      while data != []
        invariant ScanString(old(data)) == Got(s + ScanString(data).value, ScanString(data).rest)
        decreases |data|
      {
        var c := Read(1);
        ghost var rest := data;
        assert c + rest == [c[0]] + rest && ([c[0]] + rest)[1..] == rest;
        if c[0] == 0 {
          assert s + [] == s;
          return Some(s);
        }
        s := s + [c[0]];
        assert s + ScanString(rest).value == s[..|s| - 1] + ([c[0]] + ScanString(rest).value);
      }
      assert s + [] == s;
      r := Some(s);
    }

    /** Reads one byte at a time up to a NUL, and fails at the end of the stream. */
    method ReadTerminated() returns (r: Option<CString>)
      modifies this
      ensures Follows(r, data, GetTerminated(old(data)))
    {
      var s: CString := [];
      assert s + ScanString(data).value == ScanString(data).value;
      while true
        invariant 0 in data <==> 0 in old(data)
        invariant ScanString(old(data)) == Got(s + ScanString(data).value, ScanString(data).rest)
        decreases |data|
      {
        var c := Read(1);
        if c == [] { return None; }
        ghost var rest := data;
        assert c + rest == [c[0]] + rest && ([c[0]] + rest)[1..] == rest;
        if c[0] == 0 {
          assert s + [] == s;
          return Some(s);
        }
        s := s + [c[0]];
        assert s + ScanString(rest).value == s[..|s| - 1] + ([c[0]] + ScanString(rest).value);
      }
    }

    method ReadStrings(n: nat) returns (r: Option<seq<CString>>)
      modifies this
      ensures Follows(r, data, GetStrings(n, old(data)))
    {
      var ss: seq<CString> := [];
      PrependedNothing(GetStrings(n, data));
      while |ss| < n
        invariant |ss| <= n
        invariant GetStrings(n, old(data)) == Prepended(ss, GetStrings(n - |ss|, data))
      {
        var x := ReadString();
        if x.None? {
          return None;
        }
        ghost var more := GetStrings(n - |ss| - 1, data);
        if more.Got? {
          assert ss + ([x.value] + more.value) == ss + [x.value] + more.value;
        }
        ss := ss + [x.value];
      }
      assert ss + [] == ss;
      r := Some(ss);
    }

    method ReadCount() returns (r: Option<nat>)
      modifies this
      ensures Follows(r, data, GetCount(old(data)))
    {
      var s := ReadString();
      if s.None? {
        return None;
      }
      var n := WholeInt(s.value);
      r := if n.Bad? then None else Some(if n.value < 0 then 0 else n.value);
    }

    /** The daemon's side of a launch request. */
    method ReadLaunchData(socket: bool) returns (r: Option<LaunchData>)
      modifies this
      ensures Follows(r, data, GetLaunch(socket, old(data)))
    {
      if socket {
        var _ := Read(1);
      }
      var file := ReadString();
      if file.None? { return None; }
      var argc := ReadCount();
      if argc.None? { return None; }
      var argv := ReadStrings(argc.value);
      if argv.None? { return None; }
      var envc := ReadCount();
      if envc.None? { return None; }
      var vars := ReadStrings(envc.value);
      if vars.None? { return None; }
      var env, banned := SortEnv(vars.value);
      r := Some(LaunchData(file.value, argv.value, env, banned));
    }

    method WriteStrings(ss: seq<CString>)
      modifies this
      ensures data == old(data) + PutStrings(ss, [])
    {
      var i := 0;
      while i < |ss|
        invariant i <= |ss| && data + PutStrings(ss[i..], []) == old(data) + PutStrings(ss, [])
      {
        ghost var before := data;
        WriteLoop(ss[i] + [0]);
        assert ss[i..][1..] == ss[i + 1..];
        assert data + PutStrings(ss[i + 1..], []) == before + PutStrings(ss[i..], []);
        i := i + 1;
      }
    }

    /** The client's side: the descriptor byte, the file, and the two counted lists. */
    method WriteLaunchData(l: Launch)
      modifies this
      ensures data == old(data) + PutLaunch(l, [])
    {
      WriteLoop([SPACE]);
      WriteLoop(l.file + [0]);
      WriteLoop(Decimal(|l.argv|) + [0]);
      WriteStrings(l.argv);
      WriteLoop(Decimal(|l.env|) + [0]);
      WriteStrings(l.env);
      LaunchPieces(l);
    }

    method WriteHead(r: Request<Launch>)
      requires Launches(r)
      modifies this
      ensures data == old(data) + Head(r)
    {
      if r.ForkExecvpUtil? {
        WriteLoop(PutInt32(r.app, []));
        WriteLoop(PutInt32(if r.mode.Synchronous? then 1 else 0, []));
        Assoc(old(data), PutInt32(r.app, []), PutInt32(if r.mode.Synchronous? then 1 else 0, []));
      } else if r.LaunchMPIRShim? {
        WriteStrings([r.shim, r.shimDir, r.shimmed]);
      }
    }

    /** The client's side of any request: the type, then its fields in order. */
    method WriteRequest(r: Request<Launch>)
      modifies this
      ensures data == old(data) + PutRequest(r, [])
    {
      var code := LittleEndian(Code(r), 8);
      WriteLoop(code);
      ghost var before := data;
      if Launches(r) {
        WriteHead(r);
        WriteLaunchData(r.launch);
        LaunchingPieces(r);
        Assoc(before, Head(r), PutLaunch(r.launch, []));
      } else {
        WriteLoop(PutBody(r, []));
      }
      Assoc(old(data), code, PutBody(r, []));
    }

    /** The daemon's side: read the type, then let the handler read what belongs to it. */
    method ReadRequest(socket: bool) returns (r: Option<Incoming>)
      modifies this
      ensures Follows(r, data, GetRequest(socket, old(data)))
    {
      var code := ReadUnsigned(8);
      if code.None? {
        return None;
      }
      if code.value >= 16 {
        return Some(Unknown(code.value));
      }
      var body := ReadBody(socket, code.value);
      r := if body.None? then None else Some(Known(body.value));
    }

    method ReadBody(socket: bool, code: nat) returns (r: Option<Request<LaunchData>>)
      requires code < 16
      modifies this
      ensures Follows(r, data, GetBody(socket, code, old(data)))
    {
      if code == 15 {
        return Some(Shutdown);
      } else if code == 0 || code == 2 {
        var l := ReadLaunchData(socket);
        if l.None? { return None; }
        r := Some(if code == 0 then ForkExecvpApp(l.value) else LaunchMPIR(l.value));
      } else if code == 1 {
        r := ReadUtil(socket);
      } else if code == 3 {
        r := ReadShim(socket);
      } else if code == 4 {
        var path := ReadString();
        if path.None? { return None; }
        var pid := ReadInt32();
        if pid.None? { return None; }
        r := Some(AttachMPIR(path.value, pid.value));
      } else {
        r := ReadIds(code);
      }
    }

    method ReadUtil(socket: bool) returns (r: Option<Request<LaunchData>>)
      modifies this
      ensures Follows(r, data, GetUtil(socket, old(data)))
    {
      var app := ReadInt32();
      if app.None? { return None; }
      var mode := ReadInt32();
      if mode.None? { return None; }
      var l := ReadLaunchData(socket);
      if l.None? { return None; }
      r := Some(ForkExecvpUtil(app.value, if mode.value == 1 then Synchronous else Asynchronous, l.value));
    }

    method ReadShim(socket: bool) returns (r: Option<Request<LaunchData>>)
      modifies this
      ensures Follows(r, data, GetShim(socket, old(data)))
    {
      var a := ReadString();
      if a.None? { return None; }
      var b := ReadString();
      if b.None? { return None; }
      var c := ReadString();
      if c.None? { return None; }
      var l := ReadLaunchData(socket);
      if l.None? { return None; }
      r := Some(LaunchMPIRShim(a.value, b.value, c.value, l.value));
    }

    method ReadIds(code: nat) returns (r: Option<Request<LaunchData>>)
      requires 5 <= code < 15
      modifies this
      ensures Follows(r, data, GetBody(true, code, old(data)))
      ensures Follows(r, data, GetBody(false, code, old(data)))
    {
      var id := ReadInt32();
      if id.None? { return None; }
      if code == 5 {
        var v := ReadString();
        if v.None? { return None; }
        return Some(ReadStringMPIR(id.value, v.value));
      } else if code == 10 || code == 11 {
        var pid := ReadInt32();
        if pid.None? { return None; }
        return Some(if code == 10 then RegisterUtil(id.value, pid.value)
                    else RegisterUtilWithSigkill(id.value, pid.value));
      }
      r := Some(match code
                case 6 => ReleaseMPIR(id.value)
                case 7 => WaitMPIR(id.value)
                case 8 => TerminateMPIR(id.value)
                case 9 => RegisterApp(id.value)
                case 12 => DeregisterApp(id.value)
                case 13 => ReleaseApp(id.value)
                case _ => CheckApp(id.value));
    }

    method WriteProc(p: Proc)
      modifies this
      ensures data == old(data) + ProcBytes(p)
    {
      WriteLoop(PutInt32(p.pid, []));
      WriteStrings([p.host, p.exe]);
      Assoc(old(data), PutInt32(p.pid, []), PutStrings([p.host, p.exe], []));
    }

    method WriteTable(table: seq<Proc>)
      modifies this
      ensures data == old(data) + PutTable(table, [])
    {
      var i := 0;
      while i < |table|
        invariant i <= |table| && data + PutTable(table[i..], []) == old(data) + PutTable(table, [])
      {
        ghost var before := data;
        WriteProc(table[i]);
        TableCons(table[i..]);
        assert table[i..][1..] == table[i + 1..];
        Assoc(before, ProcBytes(table[i]), PutTable(table[i + 1..], []));
        i := i + 1;
      }
      assert table[i..] == [];
    }

    method WriteMpir(d: MpirData)
      requires Possible(MPIRReply, Mpir(d))
      modifies this
      ensures data == old(data) + PutReply(MPIRReply, Mpir(d), [])
    {
      var header := PutMpirHeader(d.id, d.pid, d.job, d.step, |d.table|, 0, []);
      WriteLoop(header);
      WriteTable(d.table);
      MpirHeaderAppends(d.id, d.pid, d.job, d.step, |d.table|, 0, PutTable(d.table, []));
      Assoc(old(data), header, PutTable(d.table, []));
    }

    method WriteMpirError(msg: CString)
      requires Possible(MPIRReply, Threw(msg))
      modifies this
      ensures data == old(data) + PutReply(MPIRReply, Threw(msg), [])
    {
      var header := PutMpirHeader(0, 0, 0, 0, 0, |msg| + 1, []);
      WriteLoop(header);
      WriteLoop(PutString(msg, []));
      MpirHeaderAppends(0, 0, 0, 0, 0, |msg| + 1, PutString(msg, []));
      Assoc(old(data), header, PutString(msg, []));
    }

    /** What the daemon sends back after a handler, whichever way the handler ended. */
    method WriteReply(kind: Kind, o: Outcome)
      requires Possible(kind, o)
      modifies this
      ensures data == old(data) + PutReply(kind, o, [])
    {
      if !kind.MPIRReply? {
        WriteLoop(PutReply(kind, o, []));
      } else if o.Mpir? {
        WriteMpir(o.data);
      } else {
        WriteMpirError(o.msg);
      }
    }

    method ReadProc() returns (r: Option<Proc>)
      modifies this
      ensures Follows(r, data, GetProc(old(data)))
    {
      var pid := ReadInt32();
      if pid.None? { return None; }
      var host := ReadTerminated();
      if host.None? { return None; }
      var exe := ReadTerminated();
      if exe.None? { return None; }
      r := Some(Proc(pid.value, host.value, exe.value));
    }

    /** The next entry of a table of which n are left. */
    method ReadEntry(ghost ps: seq<Proc>, ghost n: nat) returns (p: Option<Proc>)
      requires n > 0
      modifies this
      ensures Prepended(ps, GetTable(n, old(data)))
              == if p.None? then Bad else Prepended(ps + [p.value], GetTable(n - 1, data))
    {
      TableStep(ps, n, data);
      p := ReadProc();
    }

    method ReadTable(n: nat) returns (r: Option<seq<Proc>>)
      modifies this
      ensures Follows(r, data, GetTable(n, old(data)))
    {
      var ps: seq<Proc>, left := [], n;
      ghost var whole := GetTable(n, data);
      PrependedNothing(whole);
      while left > 0
        invariant whole == Prepended(ps, GetTable(left, data))
      {
        var p := ReadEntry(ps, left);
        if p.None? { return None; }
        ps, left := ps + [p.value], left - 1;
      }
      TableDone(ps, data);
      r := Some(ps);
    }

    method ReadMpirHeader() returns (r: Option<MpirHeader>)
      modifies this
      ensures Follows(r, data, GetMpirHeader(old(data)))
    {
      var id := ReadInt32();
      if id.None? { return None; }
      var pid := ReadInt32();
      if pid.None? { return None; }
      var job := ReadUnsigned(4);
      if job.None? { return None; }
      var step := ReadUnsigned(4);
      if step.None? { return None; }
      var count := ReadInt32();
      if count.None? { return None; }
      var errLen := ReadUnsigned(8);
      if errLen.None? { return None; }
      r := Some(MpirHeader(id.value, pid.value, job.value, step.value, count.value, errLen.value));
    }

    /** The client's side of a launch: a table of processes, or the daemon's error text. */
    method ReadMpir() returns (r: Option<Answer>)
      modifies this
      ensures Follows(r, data, GetMpir(old(data)))
    {
      var h := ReadMpirHeader();
      if h.None? { return None; }
      if h.value.id == 0 {
        if h.value.errLen == 0 {
          return Some(Error([]));
        }
        ghost var before := data;
        var text := ReadExactly(h.value.errLen);
        if text.None? {
          return Some(Error([]));
        }
        var n := h.value.errLen - 1;
        assert text.value[..n] == before[..n];
        return Some(Error(ScanString(text.value[..n]).value));
      }
      var table := ReadTable(if h.value.count < 0 then 0 else h.value.count);
      if table.None? { return None; }
      r := Some(Launched(MpirData(h.value.id, h.value.pid, h.value.job, h.value.step, table.value)));
    }

    /** The reader a client call waits with. */
    method ReadReply(kind: Kind) returns (r: Option<Answer>)
      modifies this
      ensures Follows(r, data, GetReply(kind, old(data)))
    {
      var code := ReadUnsigned(8);
      if code.None?
         || code.value != (match kind case OKReply => 0 case IDReply => 1 case StringReply => 2 case MPIRReply => 3) {
        return None;
      }
      match kind {
        case MPIRReply => r := ReadMpir();
        case IDReply =>
          var id := ReadInt32();
          if id.None? { return None; }
          r := Some(if id.value < 0 then Error([]) else AppId(id.value));
        case OKReply =>
          var b := ReadUnsigned(1);
          if b.None? { return None; }
          r := Some(Flag(b.value != 0));
        case StringReply =>
          var b := ReadUnsigned(1);
          if b.None? { return None; }
          if b.value == 0 { return Some(Error([])); }
          var t := ReadString();
          if t.None? { return None; }
          r := Some(Str(t.value));
      }
    }
  }

  ghost function Prepended<T>(xs: seq<T>, p: Parsed<seq<T>>): Parsed<seq<T>> {
    match p
    case Bad => Bad
    case Got(ys, rest) => Got(xs + ys, rest)
  }

  lemma PrependedNothing<T>(p: Parsed<seq<T>>)
    ensures Prepended([], p) == p
  {
    if p.Got? { assert [] + p.value == p.value; }
  }

  lemma PrependedOne<T>(xs: seq<T>, x: T, p: Parsed<seq<T>>)
    ensures Prepended(xs, Prepended([x], p)) == Prepended(xs + [x], p)
  {
    if p.Got? { assert xs + ([x] + p.value) == xs + [x] + p.value; }
  }

  lemma TableDone(ps: seq<Proc>, s: bytes)
    ensures Prepended(ps, GetTable(0, s)) == Got(ps, s)
  {
    assert ps + [] == ps;
  }

  lemma TableStep(ps: seq<Proc>, n: nat, s: bytes)
    requires n > 0
    ensures var p := GetProc(s);
            Prepended(ps, GetTable(n, s)) == if p.Bad? then Bad else Prepended(ps + [p.value], GetTable(n - 1, p.rest))
  {
    var p := GetProc(s);
    if p.Got? { PrependedOne(ps, p.value, GetTable(n - 1, p.rest)); }
  }

  /** What precedes the launch data of a request. */
  function Head(r: Request<Launch>): bytes
    requires Launches(r)
  {
    if r.ForkExecvpUtil? then PutInt32(r.app, []) + PutInt32(if r.mode.Synchronous? then 1 else 0, [])
    else if r.LaunchMPIRShim? then PutStrings([r.shim, r.shimDir, r.shimmed], [])
    else []
  }

  lemma ThreeStrings(a: CString, b: CString, c: CString, k: bytes)
    ensures PutString(a, PutString(b, PutString(c, k))) == PutStrings([a, b, c], []) + k
  {
    PutStringsAppends([a, b, c], k);
    assert [a, b, c][1..] == [b, c] && [b, c][1..] == [c] && [c][1..] == [];
    assert PutStrings([c], k) == PutString(c, k);
    assert PutStrings([b, c], k) == PutString(b, PutString(c, k));
  }

  lemma LaunchingPieces(r: Request<Launch>)
    requires Launches(r)
    ensures PutBody(r, []) == Head(r) + PutLaunch(r.launch, [])
  {
    var k := PutLaunch(r.launch, []);
    if r.ForkExecvpUtil? {
      var m: int32 := if r.mode.Synchronous? then 1 else 0;
      PutInt32Appends(m, [], k);
      assert [] + k == k;
      PutInt32Appends(r.app, [], PutInt32(m, k));
      assert [] + PutInt32(m, k) == PutInt32(m, k);
      Assoc(PutInt32(r.app, []), PutInt32(m, []), k);
    } else if r.LaunchMPIRShim? {
      ThreeStrings(r.shim, r.shimDir, r.shimmed, k);
    } else {
      assert [] + k == k;
    }
  }

  function ProcBytes(p: Proc): bytes {
    PutInt32(p.pid, []) + PutStrings([p.host, p.exe], [])
  }

  lemma TableCons(table: seq<Proc>)
    requires table != []
    ensures PutTable(table, []) == ProcBytes(table[0]) + PutTable(table[1..], [])
  {
    var p, k := table[0], PutTable(table[1..], []);
    PutStringsAppends([p.host, p.exe], k);
    assert [p.host, p.exe][1..] == [p.exe] && [p.exe][1..] == [];
    assert PutStrings([p.exe], k) == PutString(p.exe, k);
    assert PutStrings([p.host, p.exe], k) == PutString(p.host, PutString(p.exe, k));
    var rest := PutStrings([p.host, p.exe], k);
    PutInt32Appends(p.pid, [], rest);
    assert [] + rest == rest;
    Assoc(PutInt32(p.pid, []), PutStrings([p.host, p.exe], []), k);
  }

  lemma MpirHeaderAppends(id: int32, pid: int32, job: nat, step: nat, count: int32, errLen: nat, k: bytes)
    ensures PutMpirHeader(id, pid, job, step, count, errLen, k)
            == PutMpirHeader(id, pid, job, step, count, errLen, []) + k
  {
    assert [] + k == k;
    var s6 := PutUnsigned(errLen, 8, []);
    PutUnsignedAppends(errLen, 8, [], k);
    var s5 := PutInt32(count, s6);
    PutInt32Appends(count, s6, k);
    var s4 := PutUnsigned(step, 4, s5);
    PutUnsignedAppends(step, 4, s5, k);
    var s3 := PutUnsigned(job, 4, s4);
    PutUnsignedAppends(job, 4, s4, k);
    var s2 := PutInt32(pid, s3);
    PutInt32Appends(pid, s3, k);
    var s1 := PutInt32(id, s2);
    PutInt32Appends(id, s2, k);
    PutUnsignedAppends(3, 8, s1, k);
  }

  /** Separates the variables to set from the blacklist entries, keeping the order of each. */
  method SortEnv(vars: seq<CString>) returns (env: seq<CString>, banned: seq<bytes>)
    ensures env == Kept(vars) && banned == Banned(vars)
  {
    env, banned := [], [];
    for i := 0 to |vars|
      invariant env + Kept(vars[i..]) == Kept(vars)
      invariant banned + Banned(vars[i..]) == Banned(vars)
    {
      SortStep(vars, i);
      if IsBlacklistEntry(vars[i]) {
        AssocSeq(banned, [BannedName(vars[i])], Banned(vars[i + 1..]));
        banned := banned + [BannedName(vars[i])];
      } else {
        AssocSeq(env, [vars[i]], Kept(vars[i + 1..]));
        env := env + [vars[i]];
      }
    }
    assert vars[|vars|..] == [];
  }

  lemma AssocSeq<T>(a: seq<T>, b: seq<T>, c: seq<T>)
    ensures a + (b + c) == a + b + c
  {}

  lemma SortStep(vars: seq<CString>, i: nat)
    requires i < |vars|
    ensures Kept(vars[i..]) == if IsBlacklistEntry(vars[i]) then Kept(vars[i + 1..]) else [vars[i]] + Kept(vars[i + 1..])
    ensures Banned(vars[i..])
            == if IsBlacklistEntry(vars[i]) then [BannedName(vars[i])] + Banned(vars[i + 1..]) else Banned(vars[i + 1..])
  {
    assert vars[i..][1..] == vars[i + 1..];
    assert [] + Kept(vars[i + 1..]) == Kept(vars[i + 1..]);
    assert [] + Banned(vars[i + 1..]) == Banned(vars[i + 1..]);
  }

  lemma LaunchPieces(l: Launch)
    ensures PutLaunch(l, [])
            == [SPACE] + (l.file + [0]) + (Decimal(|l.argv|) + [0]) + PutStrings(l.argv, [])
               + (Decimal(|l.env|) + [0]) + PutStrings(l.env, [])
  {
    var tail := PutString(Decimal(|l.env|), PutStrings(l.env, []));
    PutStringsAppends(l.argv, tail);
  }

  lemma ReadBack(r: Request<Launch>, seen: Option<Incoming>, left: bytes, sent: bytes)
    requires Fits(r) && sent == PutRequest(r, []) && Follows(seen, left, GetRequest(true, sent))
    ensures seen == Some(Known(UnderstoodRequest(r))) && left == []
  {
    RequestRoundTrip(r, []);
  }

  lemma AnswerBack(kind: Kind, o: Outcome, answer: Option<Answer>, left: bytes, sent: bytes)
    requires Possible(kind, o) && sent == PutReply(kind, o, []) && Follows(answer, left, GetReply(kind, sent))
    ensures answer == Some(Learnt(kind, o)) && left == []
  {
    ReplyRoundTrip(kind, o, []);
  }

  /** One exchange over two channels that cut the streams up as they like: the daemon gets exactly what
      the client sent, the client learns exactly how the handler ended, and both channels are empty. */
  method Exchanged(requests: Channel, replies: Channel, x: Exchange)
    returns (seen: Option<Incoming>, answer: Option<Answer>)
    requires requests != replies && requests.data == [] && replies.data == [] && Sensible(x)
    modifies requests, replies
    ensures seen == Some(Known(UnderstoodRequest(x.req)))
    ensures answer == Some(Learnt(Awaited(x.req), x.outcome))
    ensures requests.data == [] && replies.data == []
  {
    requests.WriteRequest(x.req);
    ghost var sent := requests.data;
    assert [] + PutRequest(x.req, []) == PutRequest(x.req, []);
    seen := requests.ReadRequest(true);
    ReadBack(x.req, seen, requests.data, sent);
    SameKind(x.req);
    replies.WriteReply(ServedAs(seen.value.req), x.outcome);
    ghost var reply := replies.data;
    assert [] + PutReply(Awaited(x.req), x.outcome, []) == PutReply(Awaited(x.req), x.outcome, []);
    answer := replies.ReadReply(Awaited(x.req));
    AnswerBack(Awaited(x.req), x.outcome, answer, replies.data, reply);
  }

  /** Any number of exchanges, one after the other, a shutdown at most at the end: each is seen and answered as
      if it were the only one. */
  method Conversed(requests: Channel, replies: Channel, xs: seq<Exchange>)
    returns (seen: seq<Option<Incoming>>, answers: seq<Option<Answer>>)
    requires requests != replies && requests.data == [] && replies.data == [] && AllSensible(xs)
    requires forall i | 0 <= i < |xs| - 1 :: !xs[i].req.Shutdown?
    modifies requests, replies
    ensures |seen| == |answers| == |xs| && requests.data == [] && replies.data == []
    ensures forall i | 0 <= i < |xs| :: seen[i] == Some(Known(UnderstoodRequest(xs[i].req)))
    ensures forall i | 0 <= i < |xs| :: answers[i] == Some(Learnt(Awaited(xs[i].req), xs[i].outcome))
  {
    seen, answers := [], [];
    for i := 0 to |xs|
      invariant |seen| == |answers| == i && requests.data == [] && replies.data == []
      invariant forall j | 0 <= j < i :: seen[j] == Some(Known(UnderstoodRequest(xs[j].req)))
      invariant forall j | 0 <= j < i :: answers[j] == Some(Learnt(Awaited(xs[j].req), xs[j].outcome))
    {
      var s, a := Exchanged(requests, replies, xs[i]);
      seen, answers := seen + [s], answers + [a];
    }
  }
}
