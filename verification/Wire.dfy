/** The request and response formats between the frontend library and its daemon, and what the two ends
    make of each other's bytes. */
module Wire {
  import opened Bytes
  import opened EnvStrings

  // ---------------------------------------------------------------- requests

  datatype RunMode = Asynchronous | Synchronous

  /** What a client asks to launch; a null environment is an empty one. */
  datatype Launch = Launch(file: CString, argv: seq<CString>, env: seq<CString>)

  /** What the daemon makes of it: blacklist entries are taken out of the environment. */
  datatype LaunchData = LaunchData(file: CString, argv: seq<CString>, env: seq<CString>, banned: seq<bytes>)

  datatype Request<+L> =
    | ForkExecvpApp(launch: L)
    | ForkExecvpUtil(app: int32, mode: RunMode, launch: L)
    | LaunchMPIR(launch: L)
    | LaunchMPIRShim(shim: CString, shimDir: CString, shimmed: CString, launch: L)
    | AttachMPIR(path: CString, pid: int32)
    | ReadStringMPIR(id: int32, variable: CString)
    | ReleaseMPIR(id: int32)
    | WaitMPIR(id: int32)
    | TerminateMPIR(id: int32)
    | RegisterApp(pid: int32)
    | RegisterUtil(app: int32, pid: int32)
    | RegisterUtilWithSigkill(app: int32, pid: int32)
    | DeregisterApp(app: int32)
    | ReleaseApp(app: int32)
    | CheckApp(app: int32)
    | Shutdown

  /** A request type the daemon does not know is read and ignored. */
  datatype Incoming = Known(req: Request<LaunchData>) | Unknown(code: nat)

  function Code<L>(r: Request<L>): nat {
    match r
    case ForkExecvpApp(_) => 0
    case ForkExecvpUtil(_, _, _) => 1
    case LaunchMPIR(_) => 2
    case LaunchMPIRShim(_, _, _, _) => 3
    case AttachMPIR(_, _) => 4
    case ReadStringMPIR(_, _) => 5
    case ReleaseMPIR(_) => 6
    case WaitMPIR(_) => 7
    case TerminateMPIR(_) => 8
    case RegisterApp(_) => 9
    case RegisterUtil(_, _) => 10
    case RegisterUtilWithSigkill(_, _) => 11
    case DeregisterApp(_) => 12
    case ReleaseApp(_) => 13
    case CheckApp(_) => 14
    case Shutdown => 15
  }

  function Kept(env: seq<CString>): seq<CString> {
    if env == [] then []
    else (if IsBlacklistEntry(env[0]) then [] else [env[0]]) + Kept(env[1..])
  }

  function Banned(env: seq<CString>): seq<bytes> {
    if env == [] then []
    else (if IsBlacklistEntry(env[0]) then [BannedName(env[0])] else []) + Banned(env[1..])
  }

  function Understood(l: Launch): LaunchData {
    LaunchData(l.file, l.argv, Kept(l.env), Banned(l.env))
  }

  function UnderstoodRequest(r: Request<Launch>): Request<LaunchData> {
    match r
    case ForkExecvpApp(l) => ForkExecvpApp(Understood(l))
    case ForkExecvpUtil(app, mode, l) => ForkExecvpUtil(app, mode, Understood(l))
    case LaunchMPIR(l) => LaunchMPIR(Understood(l))
    case LaunchMPIRShim(a, b, c, l) => LaunchMPIRShim(a, b, c, Understood(l))
    case AttachMPIR(path, pid) => AttachMPIR(path, pid)
    case ReadStringMPIR(id, v) => ReadStringMPIR(id, v)
    case ReleaseMPIR(id) => ReleaseMPIR(id)
    case WaitMPIR(id) => WaitMPIR(id)
    case TerminateMPIR(id) => TerminateMPIR(id)
    case RegisterApp(pid) => RegisterApp(pid)
    case RegisterUtil(app, pid) => RegisterUtil(app, pid)
    case RegisterUtilWithSigkill(app, pid) => RegisterUtilWithSigkill(app, pid)
    case DeregisterApp(app) => DeregisterApp(app)
    case ReleaseApp(app) => ReleaseApp(app)
    case CheckApp(app) => CheckApp(app)
    case Shutdown => Shutdown
  }

  /** Array lengths fit an int, the type the daemon parses counts into. */
  predicate LaunchFits(l: Launch) {
    |l.argv| < TWO_31 && |l.env| < TWO_31
  }

  predicate Fits(r: Request<Launch>) {
    (r.ForkExecvpApp? || r.ForkExecvpUtil? || r.LaunchMPIR? || r.LaunchMPIRShim?) ==> LaunchFits(r.launch)
  }

  const SPACE: byte := 32

  function PutLaunchStrings(file: CString, argv: seq<CString>, env: seq<CString>, k: bytes): bytes {
    PutString(file,
      PutString(Decimal(|argv|), PutStrings(argv,
        PutString(Decimal(|env|), PutStrings(env, k)))))
  }

  /** Over a domain socket the strings follow the one byte that carries the file descriptors. */
  function PutLaunch(l: Launch, k: bytes): bytes {
    [SPACE] + PutLaunchStrings(l.file, l.argv, l.env, k)
  }

  /** The second encoder, used through an SSH channel: no descriptors, and the file is the first argument. */
  function PutSshLaunch(argv: seq<CString>, env: seq<CString>, k: bytes): bytes
    requires argv != []
  {
    PutUnsigned(2, 8, PutLaunchStrings(argv[0], argv, env, k))
  }

  function PutRequest(r: Request<Launch>, k: bytes): bytes {
    PutUnsigned(Code(r), 8, PutBody(r, k))
  }

  function PutBody(r: Request<Launch>, k: bytes): bytes {
    match r
    case ForkExecvpApp(l) => PutLaunch(l, k)
    case ForkExecvpUtil(app, mode, l) =>
      PutInt32(app, PutInt32(if mode.Synchronous? then 1 else 0, PutLaunch(l, k)))
    case LaunchMPIR(l) => PutLaunch(l, k)
    case LaunchMPIRShim(a, b, c, l) => PutString(a, PutString(b, PutString(c, PutLaunch(l, k))))
    case AttachMPIR(path, pid) => PutString(path, PutInt32(pid, k))
    case ReadStringMPIR(id, v) => PutInt32(id, PutString(v, k))
    case ReleaseMPIR(id) => PutInt32(id, k)
    case WaitMPIR(id) => PutInt32(id, k)
    case TerminateMPIR(id) => PutInt32(id, k)
    case RegisterApp(pid) => PutInt32(pid, k)
    case RegisterUtil(app, pid) => PutInt32(app, PutInt32(pid, k))
    case RegisterUtilWithSigkill(app, pid) => PutInt32(app, PutInt32(pid, k))
    case DeregisterApp(app) => PutInt32(app, k)
    case ReleaseApp(app) => PutInt32(app, k)
    case CheckApp(app) => PutInt32(app, k)
    case Shutdown => k
  }

  function GetCount(s: bytes): Parsed<nat> {
    var (text, s1) :- GetString(s);
    var (n, _) :- WholeInt(text);
    Got(if n < 0 then 0 else n, s1)
  }

  function GetLaunchStrings(s: bytes): Parsed<LaunchData> {
    var (file, s1) :- GetString(s);
    var (argc, s2) :- GetCount(s1);
    var (argv, s3) :- GetStrings(argc, s2);
    var (envc, s4) :- GetCount(s3);
    var (env, s5) :- GetStrings(envc, s4);
    Got(LaunchData(file, argv, Kept(env), Banned(env)), s5)
  }

  /** `socket`: the request descriptor is a domain socket, so a descriptor message of one byte comes
      first; on a pipe the attempt to receive one consumes nothing. */
  function GetLaunch(socket: bool, s: bytes): Parsed<LaunchData> {
    GetLaunchStrings(if socket && s != [] then s[1..] else s)
  }

  function GetShim(socket: bool, s: bytes): Parsed<Request<LaunchData>> {
    var (a, s1) :- GetString(s);
    var (b, s2) :- GetString(s1);
    var (c, s3) :- GetString(s2);
    var (l, s4) :- GetLaunch(socket, s3);
    Got(LaunchMPIRShim(a, b, c, l), s4)
  }

  function GetUtil(socket: bool, s: bytes): Parsed<Request<LaunchData>> {
    var (app, s1) :- GetInt32(s);
    var (mode, s2) :- GetInt32(s1);
    var (l, s3) :- GetLaunch(socket, s2);
    Got(ForkExecvpUtil(app, if mode == 1 then Synchronous else Asynchronous, l), s3)
  }

  function GetTwoIds(code: nat, s: bytes): Parsed<Request<LaunchData>> {
    var (app, s1) :- GetInt32(s);
    var (pid, s2) :- GetInt32(s1);
    Got(if code == 10 then RegisterUtil(app, pid) else RegisterUtilWithSigkill(app, pid), s2)
  }

  function GetOneId(code: nat, s: bytes): Parsed<Request<LaunchData>> {
    var (id, s1) :- GetInt32(s);
    Got(match code
        case 6 => ReleaseMPIR(id)
        case 7 => WaitMPIR(id)
        case 8 => TerminateMPIR(id)
        case 9 => RegisterApp(id)
        case 12 => DeregisterApp(id)
        case 13 => ReleaseApp(id)
        case _ => CheckApp(id), s1)
  }

  function GetBody(socket: bool, code: nat, s: bytes): Parsed<Request<LaunchData>>
    requires code < 16
  {
    match code
    case 0 => var (l, s1) :- GetLaunch(socket, s); Got(ForkExecvpApp(l), s1)
    case 1 => GetUtil(socket, s)
    case 2 => var (l, s1) :- GetLaunch(socket, s); Got(LaunchMPIR(l), s1)
    case 3 => GetShim(socket, s)
    case 4 =>
      var (path, s1) :- GetString(s);
      var (pid, s2) :- GetInt32(s1);
      Got(AttachMPIR(path, pid), s2)
    case 5 =>
      var (id, s1) :- GetInt32(s);
      var (v, s2) :- GetString(s1);
      Got(ReadStringMPIR(id, v), s2)
    case 10 => GetTwoIds(code, s)
    case 11 => GetTwoIds(code, s)
    case 15 => Got(Shutdown, s)
    case _ => GetOneId(code, s)
  }

  function GetRequest(socket: bool, s: bytes): Parsed<Incoming> {
    var (code, s1) :- GetUnsigned(8, s);
    if code < 16 then
      var (r, s2) :- GetBody(socket, code, s1);
      Got(Known(r), s2)
    else Got(Unknown(code), s1)
  }

  // ---------------------------------------------------------------- what the daemon makes of a request

  /** An environment string that begins with the letters CTIBLACKLIST and an underscore. */
  predicate IsTagged(v: bytes) {
    |v| >= 13 && v[..13] == [67, 84, 73, 66, 76, 65, 67, 75, 76, 73, 83, 84, 95]
  }

  lemma TaggedExactly(v: bytes)
    ensures IsBlacklistEntry(v) <==> IsTagged(v)
  {
    assert |BLACKLIST_WORD + [UNDERSCORE]| == 13;
    if IsBlacklistEntry(v) { assert v[..13] == BLACKLIST_WORD + [UNDERSCORE]; }
  }

  /** One variable is kept as it is or bans the name in it, by whether it is tagged. */
  lemma OneVariable(v: CString)
    ensures Kept([v]) == (if IsTagged(v) then [] else [v])
    ensures Banned([v]) == if IsTagged(v) then [BannedName(v)] else []
  {
    TaggedExactly(v);
    assert [v][1..] == [];
  }

  /** And an environment is sorted piece by piece, so that what is kept stays in order. */
  lemma {:induction false} SortedByPieces(a: seq<CString>, b: seq<CString>)
    ensures Kept(a + b) == Kept(a) + Kept(b) && Banned(a + b) == Banned(a) + Banned(b)
  {
    if a == [] {
      assert a + b == b;
    } else {
      assert (a + b)[0] == a[0] && (a + b)[1..] == a[1..] + b;
      SortedByPieces(a[1..], b);
      AssocOf(if IsBlacklistEntry(a[0]) then [] else [a[0]], Kept(a[1..]), Kept(b));
      AssocOf(if IsBlacklistEntry(a[0]) then [BannedName(a[0])] else [], Banned(a[1..]), Banned(b));
    }
  }

  lemma AssocOf<T>(a: seq<T>, b: seq<T>, c: seq<T>)
    ensures a + (b + c) == a + b + c
  {
  }

  /** A variable is kept, unchanged, exactly when it is not tagged. */
  lemma {:induction false} KeptExactly(env: seq<CString>, v: CString)
    ensures v in Kept(env) <==> v in env && !IsTagged(v)
    ensures multiset(Kept(env))[v] == if IsTagged(v) then 0 else multiset(env)[v]
  {
    if env != [] {
      KeptExactly(env[1..], v);
      TaggedExactly(env[0]);
      assert env == [env[0]] + env[1..];
    }
  }

  /** No field is lost or mixed up: the daemon acts on what the client sent. */
  lemma FieldsArrive(r: Request<Launch>)
    ensures var u := UnderstoodRequest(r);
            && Code(u) == Code(r)
            && (Launches(r) ==>
                  && u.launch.file == r.launch.file && u.launch.argv == r.launch.argv
                  && u.launch.env == Kept(r.launch.env) && u.launch.banned == Banned(r.launch.env))
            && (r.ForkExecvpUtil? ==> u.app == r.app && u.mode == r.mode)
            && (r.LaunchMPIRShim? ==> u.shim == r.shim && u.shimDir == r.shimDir && u.shimmed == r.shimmed)
            && (r.AttachMPIR? ==> u.path == r.path && u.pid == r.pid)
            && (r.ReadStringMPIR? ==> u.id == r.id && u.variable == r.variable)
            && (r.ReleaseMPIR? || r.WaitMPIR? || r.TerminateMPIR? ==> u.id == r.id)
            && (r.RegisterApp? ==> u.pid == r.pid)
            && (r.RegisterUtil? || r.RegisterUtilWithSigkill? ==> u.app == r.app && u.pid == r.pid)
            && (r.DeregisterApp? || r.ReleaseApp? || r.CheckApp? ==> u.app == r.app)
  {
  }

  // ---------------------------------------------------------------- round trips

  lemma CountRoundTrip(n: nat, k: bytes)
    requires n < TWO_31
    ensures GetCount(PutString(Decimal(n), k)) == Got(n, k)
  {
    StringRoundTrip(Decimal(n), k);
    DecimalRoundTrip(n);
  }

  lemma LaunchStringsRoundTrip(l: Launch, k: bytes)
    requires LaunchFits(l)
    ensures GetLaunchStrings(PutLaunchStrings(l.file, l.argv, l.env, k)) == Got(Understood(l), k)
  {
    var s4 := PutStrings(l.env, k);
    var s3 := PutString(Decimal(|l.env|), s4);
    var s2 := PutStrings(l.argv, s3);
    var s1 := PutString(Decimal(|l.argv|), s2);
    StringRoundTrip(l.file, s1);
    CountRoundTrip(|l.argv|, s2);
    StringsRoundTrip(l.argv, s3);
    CountRoundTrip(|l.env|, s4);
    StringsRoundTrip(l.env, k);
  }

  lemma LaunchRoundTrip(l: Launch, k: bytes)
    requires LaunchFits(l)
    ensures GetLaunch(true, PutLaunch(l, k)) == Got(Understood(l), k)
  {
    LaunchStringsRoundTrip(l, k);
    assert PutLaunch(l, k)[1..] == PutLaunchStrings(l.file, l.argv, l.env, k);
  }

  /** The two launch encoders agree: what arrives through an SSH channel decodes to the same file,
      arguments and environment as the same launch sent over the domain socket. */
  lemma EncodersAgree(argv: seq<CString>, env: seq<CString>, k: bytes)
    requires argv != [] && |argv| < TWO_31 && |env| < TWO_31
    ensures GetRequest(false, PutSshLaunch(argv, env, k))
            == GetRequest(true, PutRequest(LaunchMPIR(Launch(argv[0], argv, env)), k))
            == Got(Known(LaunchMPIR(Understood(Launch(argv[0], argv, env)))), k)
  {
    var l := Launch(argv[0], argv, env);
    Pow256Values();
    UnsignedRoundTrip(2, 8, PutLaunchStrings(argv[0], argv, env, k));
    UnsignedRoundTrip(2, 8, PutLaunch(l, k));
    LaunchStringsRoundTrip(l, k);
    LaunchRoundTrip(l, k);
  }

  lemma ShimRoundTrip(a: CString, b: CString, c: CString, l: Launch, k: bytes)
    requires LaunchFits(l)
    ensures GetShim(true, PutString(a, PutString(b, PutString(c, PutLaunch(l, k)))))
            == Got(LaunchMPIRShim(a, b, c, Understood(l)), k)
  {
    var s3 := PutLaunch(l, k);
    var s2 := PutString(c, s3);
    var s1 := PutString(b, s2);
    StringRoundTrip(a, s1);
    StringRoundTrip(b, s2);
    StringRoundTrip(c, s3);
    LaunchRoundTrip(l, k);
  }

  lemma UtilRoundTrip(app: int32, mode: RunMode, l: Launch, k: bytes)
    requires LaunchFits(l)
    ensures GetUtil(true, PutInt32(app, PutInt32(if mode.Synchronous? then 1 else 0, PutLaunch(l, k))))
            == Got(ForkExecvpUtil(app, mode, Understood(l)), k)
  {
    var m: int32 := if mode.Synchronous? then 1 else 0;
    Int32RoundTrip(app, PutInt32(m, PutLaunch(l, k)));
    Int32RoundTrip(m, PutLaunch(l, k));
    LaunchRoundTrip(l, k);
  }

  lemma TwoIdsRoundTrip(app: int32, pid: int32, k: bytes)
    ensures GetInt32(PutInt32(app, PutInt32(pid, k))) == Got(app, PutInt32(pid, k))
    ensures GetInt32(PutInt32(pid, k)) == Got(pid, k)
  {
    Int32RoundTrip(app, PutInt32(pid, k));
    Int32RoundTrip(pid, k);
  }

  predicate Launches<L>(r: Request<L>) {
    r.ForkExecvpApp? || r.ForkExecvpUtil? || r.LaunchMPIR? || r.LaunchMPIRShim?
  }

  lemma LaunchingBody(r: Request<Launch>, k: bytes)
    requires Launches(r) && Fits(r)
    ensures GetBody(true, Code(r), PutBody(r, k)) == Got(UnderstoodRequest(r), k)
  {
    if r.ForkExecvpUtil? {
      UtilRoundTrip(r.app, r.mode, r.launch, k);
    } else if r.LaunchMPIRShim? {
      ShimRoundTrip(r.shim, r.shimDir, r.shimmed, r.launch, k);
    } else {
      LaunchRoundTrip(r.launch, k);
    }
  }

  lemma OneIdBody(r: Request<Launch>, k: bytes)
    requires 6 <= Code(r) <= 9 || 12 <= Code(r) <= 14
    ensures GetBody(true, Code(r), PutBody(r, k)) == Got(UnderstoodRequest(r), k)
  {
    var id := match r
      case ReleaseMPIR(id) => id
      case WaitMPIR(id) => id
      case TerminateMPIR(id) => id
      case RegisterApp(pid) => pid
      case DeregisterApp(app) => app
      case ReleaseApp(app) => app
      case CheckApp(app) => app
      case _ => 0;
    Int32RoundTrip(id, k);
  }

  lemma PlainBody(r: Request<Launch>, k: bytes)
    requires !Launches(r)
    ensures GetBody(true, Code(r), PutBody(r, k)) == Got(UnderstoodRequest(r), k)
  {
    match r {
      case AttachMPIR(path, pid) => StringRoundTrip(path, PutInt32(pid, k)); Int32RoundTrip(pid, k);
      case ReadStringMPIR(id, v) => Int32RoundTrip(id, PutString(v, k)); StringRoundTrip(v, k);
      case RegisterUtil(app, pid) => TwoIdsRoundTrip(app, pid, k);
      case RegisterUtilWithSigkill(app, pid) => TwoIdsRoundTrip(app, pid, k);
      case Shutdown =>
      case _ => OneIdBody(r, k);
    }
  }

  /** Whatever follows in the stream, the daemon reads exactly the request that was sent and stops at
      its last byte. */
  lemma RequestRoundTrip(r: Request<Launch>, k: bytes)
    requires Fits(r)
    ensures GetRequest(true, PutRequest(r, k)) == Got(Known(UnderstoodRequest(r)), k)
  {
    Pow256Values();
    UnsignedRoundTrip(Code(r), 8, PutBody(r, k));
    if Launches(r) { LaunchingBody(r, k); } else { PlainBody(r, k); }
  }

  // ---------------------------------------------------------------- replies

  datatype Proc = Proc(pid: int32, host: CString, exe: CString)

  datatype MpirData = MpirData(id: int32, pid: int32, job: nat, step: nat, table: seq<Proc>)

  /** How a handler ended: it threw, or it returned what its request asks for. */
  datatype Outcome =
    | Threw(msg: CString)
    | Bool(b: bool)
    | Id(id: int32)
    | Text(s: CString)
    | Mpir(data: MpirData)

  datatype Kind = OKReply | IDReply | StringReply | MPIRReply

  /** The wrapper each daemon handler runs its request in. */
  function ServedAs(r: Request<LaunchData>): Kind {
    match r
    case ForkExecvpApp(_) => IDReply
    case RegisterApp(_) => IDReply
    case LaunchMPIR(_) => MPIRReply
    case LaunchMPIRShim(_, _, _, _) => MPIRReply
    case AttachMPIR(_, _) => MPIRReply
    case ReadStringMPIR(_, _) => StringReply
    case _ => OKReply
  }

  /** The reader each client call waits with. */
  function Awaited(r: Request<Launch>): Kind {
    match r
    case ForkExecvpApp(_) => IDReply
    case ForkExecvpUtil(_, _, _) => OKReply
    case LaunchMPIR(_) => MPIRReply
    case LaunchMPIRShim(_, _, _, _) => MPIRReply
    case AttachMPIR(_, _) => MPIRReply
    case ReadStringMPIR(_, _) => StringReply
    case ReleaseMPIR(_) => OKReply
    case WaitMPIR(_) => OKReply
    case TerminateMPIR(_) => OKReply
    case RegisterApp(_) => IDReply
    case RegisterUtil(_, _) => OKReply
    case RegisterUtilWithSigkill(_, _) => OKReply
    case DeregisterApp(_) => OKReply
    case ReleaseApp(_) => OKReply
    case CheckApp(_) => OKReply
    case Shutdown => OKReply
  }

  /** A handler returns its kind's value or throws; ids are positive and sizes fit their fields. */
  predicate Possible(kind: Kind, o: Outcome) {
    match o
    case Threw(msg) => |msg| + 1 < TWO_32
    case Bool(_) => kind.OKReply?
    case Id(id) => kind.IDReply? && id > 0
    case Text(_) => kind.StringReply?
    case Mpir(d) => kind.MPIRReply? && d.id > 0 && d.job < TWO_32 && d.step < TWO_32 && |d.table| < TWO_31
  }

  function PutTable(table: seq<Proc>, k: bytes): bytes {
    if table == [] then k
    else PutInt32(table[0].pid, PutString(table[0].host, PutString(table[0].exe, PutTable(table[1..], k))))
  }

  function PutMpirHeader(id: int32, pid: int32, job: nat, step: nat, count: int32, errLen: nat, k: bytes): bytes {
    PutUnsigned(3, 8, PutInt32(id, PutInt32(pid, PutUnsigned(job, 4, PutUnsigned(step, 4,
      PutInt32(count, PutUnsigned(errLen, 8, k)))))))
  }

  function PutReply(kind: Kind, o: Outcome, k: bytes): bytes
    requires Possible(kind, o)
  {
    match kind
    case OKReply => PutUnsigned(0, 8, PutUnsigned(if o == Bool(true) then 1 else 0, 1, k))
    case IDReply => PutUnsigned(1, 8, PutInt32(if o.Id? then o.id else 0, k))
    case StringReply =>
      if o.Text? then PutUnsigned(2, 8, PutUnsigned(1, 1, PutString(o.s, k)))
      else PutUnsigned(2, 8, PutUnsigned(0, 1, k))
    case MPIRReply =>
      if o.Mpir? then
        PutMpirHeader(o.data.id, o.data.pid, o.data.job, o.data.step, |o.data.table|, 0, PutTable(o.data.table, k))
      else PutMpirHeader(0, 0, 0, 0, 0, |o.msg| + 1, PutString(o.msg, k))
  }

  /** What the client call comes back with; `Error` is an exception, with the message the daemon sent. */
  datatype Answer =
    | Flag(b: bool)
    | AppId(id: int32)
    | Str(s: CString)
    | Launched(data: MpirData)
    | Error(msg: CString)

  function GetProc(s: bytes): Parsed<Proc> {
    var (pid, s1) :- GetInt32(s);
    var (host, s2) :- GetTerminated(s1);
    var (exe, s3) :- GetTerminated(s2);
    Got(Proc(pid, host, exe), s3)
  }

  function GetTable(n: nat, s: bytes): Parsed<seq<Proc>> {
    if n == 0 then Got([], s)
    else
      var (p, s1) :- GetProc(s);
      var (table, s2) :- GetTable(n - 1, s1);
      Got([p] + table, s2)
  }

  datatype MpirHeader = MpirHeader(id: int32, pid: int32, job: nat, step: nat, count: int32, errLen: nat)

  function GetMpirHeader(s: bytes): Parsed<MpirHeader> {
    var (id, s1) :- GetInt32(s);
    var (pid, s2) :- GetInt32(s1);
    var (job, s3) :- GetUnsigned(4, s2);
    var (step, s4) :- GetUnsigned(4, s3);
    var (count, s5) :- GetInt32(s4);
    var (errLen, s6) :- GetUnsigned(8, s5);
    Got(MpirHeader(id, pid, job, step, count, errLen), s6)
  }

  /** The error text is read as a block of the announced length and used up to its first NUL. */
  function GetMpir(s: bytes): Parsed<Answer> {
    var (h, s1) :- GetMpirHeader(s);
    GetMpirBody(h, s1)
  }

  function GetMpirBody(h: MpirHeader, s1: bytes): Parsed<Answer> {
    if h.id == 0 then
      if h.errLen == 0 then Got(Error([]), s1)
      else if |s1| < h.errLen then Got(Error([]), [])
      else Got(Error(ScanString(s1[..h.errLen - 1]).value), s1[h.errLen..])
    else
      var (table, s2) :- GetTable(if h.count < 0 then 0 else h.count, s1);
      Got(Launched(MpirData(h.id, h.pid, h.job, h.step, table)), s2)
  }

  /** A reply of another type than the one awaited is refused. */
  function GetReply(kind: Kind, s: bytes): Parsed<Answer> {
    var (code, s1) :- GetUnsigned(8, s);
    match kind
    case OKReply =>
      if code != 0 then Bad else
        var (b, s2) :- GetUnsigned(1, s1);
        Got(Flag(b != 0), s2)
    case IDReply =>
      if code != 1 then Bad else
        var (id, s2) :- GetInt32(s1);
        Got(if id < 0 then Error([]) else AppId(id), s2)
    case StringReply =>
      if code != 2 then Bad else
        var (b, s2) :- GetUnsigned(1, s1);
        if b == 0 then Got(Error([]), s2) else
          var (t, s3) :- GetString(s2);
          Got(Str(t), s3)
    case MPIRReply => if code != 3 then Bad else GetMpir(s1)
  }

  /** What a caller should learn: the value, or that the handler failed. A failed id request is told
      apart only by the id 0, because the reader looks for a negative one. */
  function Learnt(kind: Kind, o: Outcome): Answer
    requires Possible(kind, o)
  {
    match kind
    case OKReply => Flag(o == Bool(true))
    case IDReply => AppId(if o.Id? then o.id else 0)
    case StringReply => if o.Text? then Str(o.s) else Error([])
    case MPIRReply => if o.Mpir? then Launched(o.data) else Error(o.msg)
  }

  lemma ProcRoundTrip(p: Proc, k: bytes)
    ensures GetProc(PutInt32(p.pid, PutString(p.host, PutString(p.exe, k)))) == Got(p, k)
  {
    Int32RoundTrip(p.pid, PutString(p.host, PutString(p.exe, k)));
    TerminatedRoundTrip(p.host, PutString(p.exe, k));
    TerminatedRoundTrip(p.exe, k);
  }

  lemma {:induction false} TableRoundTrip(table: seq<Proc>, k: bytes)
    ensures GetTable(|table|, PutTable(table, k)) == Got(table, k)
  {
    if table != [] {
      ProcRoundTrip(table[0], PutTable(table[1..], k));
      TableRoundTrip(table[1..], k);
      assert [table[0]] + table[1..] == table;
    }
  }

  lemma MpirHeaderRoundTrip(id: int32, pid: int32, job: nat, step: nat, count: int32, errLen: nat, k: bytes)
    requires job < TWO_32 && step < TWO_32 && errLen < TWO_32
    ensures var s := PutMpirHeader(id, pid, job, step, count, errLen, k);
            && GetUnsigned(8, s).Got? && GetUnsigned(8, s).value == 3
            && GetMpirHeader(GetUnsigned(8, s).rest) == Got(MpirHeader(id, pid, job, step, count, errLen), k)
  {
    Pow256Values();
    var s6 := PutUnsigned(errLen, 8, k);
    var s5 := PutInt32(count, s6);
    var s4 := PutUnsigned(step, 4, s5);
    var s3 := PutUnsigned(job, 4, s4);
    var s2 := PutInt32(pid, s3);
    var s1 := PutInt32(id, s2);
    UnsignedRoundTrip(3, 8, s1);
    Int32RoundTrip(id, s2);
    Int32RoundTrip(pid, s3);
    UnsignedRoundTrip(job, 4, s4);
    UnsignedRoundTrip(step, 4, s5);
    Int32RoundTrip(count, s6);
    UnsignedRoundTrip(errLen, 8, k);
  }

  lemma ErrorBodyRoundTrip(msg: CString, k: bytes)
    ensures GetMpirBody(MpirHeader(0, 0, 0, 0, 0, |msg| + 1), PutString(msg, k)) == Got(Error(msg), k)
  {
    var s := PutString(msg, k);
    assert s[..|msg|] == msg && s[|msg| + 1..] == k;
    ScanAll(msg);
  }

  lemma MpirReplyOf(s: bytes, h: MpirHeader, k: bytes)
    requires GetUnsigned(8, s).Got? && GetUnsigned(8, s).value == 3
    requires GetMpirHeader(GetUnsigned(8, s).rest) == Got(h, k)
    ensures GetReply(MPIRReply, s) == GetMpirBody(h, k)
  {
  }

  lemma MpirRead(h: MpirHeader, k: bytes)
    requires h.job < TWO_32 && h.step < TWO_32 && h.errLen < TWO_32
    ensures GetReply(MPIRReply, PutMpirHeader(h.id, h.pid, h.job, h.step, h.count, h.errLen, k)) == GetMpirBody(h, k)
  {
    MpirHeaderRoundTrip(h.id, h.pid, h.job, h.step, h.count, h.errLen, k);
    MpirReplyOf(PutMpirHeader(h.id, h.pid, h.job, h.step, h.count, h.errLen, k), h, k);
  }

  lemma MpirErrorRoundTrip(msg: CString, k: bytes)
    requires |msg| + 1 < TWO_32
    ensures GetReply(MPIRReply, PutReply(MPIRReply, Threw(msg), k)) == Got(Error(msg), k)
  {
    MpirRead(MpirHeader(0, 0, 0, 0, 0, |msg| + 1), PutString(msg, k));
    ErrorBodyRoundTrip(msg, k);
  }

  lemma MpirReplyRoundTrip(o: Outcome, k: bytes)
    requires Possible(MPIRReply, o)
    ensures GetReply(MPIRReply, PutReply(MPIRReply, o, k)) == Got(Learnt(MPIRReply, o), k)
  {
    if o.Mpir? {
      var d := o.data;
      MpirRead(MpirHeader(d.id, d.pid, d.job, d.step, |d.table|, 0), PutTable(d.table, k));
      TableRoundTrip(d.table, k);
    } else {
      MpirErrorRoundTrip(o.msg, k);
    }
  }

  lemma {:induction false} ScanAll(s: CString)
    ensures ScanString(s) == Got(s, [])
  {
    if s != [] {
      ScanAll(s[1..]);
      assert [s[0]] + s[1..] == s;
    }
  }

  /** Whatever the handler did, the client's reader gets exactly that and stops at the last byte. */
  lemma ReplyRoundTrip(kind: Kind, o: Outcome, k: bytes)
    requires Possible(kind, o)
    ensures GetReply(kind, PutReply(kind, o, k)) == Got(Learnt(kind, o), k)
  {
    Pow256Values();
    match kind {
      case OKReply =>
        var b := if o == Bool(true) then 1 else 0;
        UnsignedRoundTrip(0, 8, PutUnsigned(b, 1, k));
        UnsignedRoundTrip(b, 1, k);
      case IDReply =>
        var id: int32 := if o.Id? then o.id else 0;
        UnsignedRoundTrip(1, 8, PutInt32(id, k));
        Int32RoundTrip(id, k);
      case StringReply =>
        if o.Text? {
          UnsignedRoundTrip(2, 8, PutUnsigned(1, 1, PutString(o.s, k)));
          UnsignedRoundTrip(1, 1, PutString(o.s, k));
          StringRoundTrip(o.s, k);
        } else {
          UnsignedRoundTrip(2, 8, PutUnsigned(0, 1, k));
          UnsignedRoundTrip(0, 1, k);
        }
      case MPIRReply => MpirReplyRoundTrip(o, k);
    }
  }

  /** A reply of one kind is not taken for another. */
  lemma OtherKindRefused(kind: Kind, other: Kind, o: Outcome, k: bytes)
    requires Possible(other, o) && kind != other
    ensures GetReply(kind, PutReply(other, o, k)) == Bad
  {
    ReplyCode(other, o, k);
  }

  lemma ReplyCode(kind: Kind, o: Outcome, k: bytes)
    requires Possible(kind, o)
    ensures var code := GetUnsigned(8, PutReply(kind, o, k));
            && code.Got?
            && code.value == match kind case OKReply => 0 case IDReply => 1 case StringReply => 2 case MPIRReply => 3
  {
    Pow256Values();
    match kind
    case OKReply => UnsignedRoundTrip(0, 8, PutUnsigned(if o == Bool(true) then 1 else 0, 1, k));
    case IDReply => UnsignedRoundTrip(1, 8, PutInt32(if o.Id? then o.id else 0, k));
    case StringReply =>
      UnsignedRoundTrip(2, 8, if o.Text? then PutUnsigned(1, 1, PutString(o.s, k)) else PutUnsigned(0, 1, k));
    case MPIRReply =>
      if o.Mpir? {
        var d := o.data;
        MpirHeaderRoundTrip(d.id, d.pid, d.job, d.step, |d.table|, 0, PutTable(d.table, k));
      } else {
        MpirHeaderRoundTrip(0, 0, 0, 0, 0, |o.msg| + 1, PutString(o.msg, k));
      }
  }

  /** The calls that insist on a positive OK reply. Checking an app and running a utility to its end hand the
      reply back instead, and a shutdown only warns. */
  predicate Insists(r: Request<Launch>) {
    match r
    case ForkExecvpUtil(_, mode, _) => mode.Asynchronous?
    case CheckApp(_) => false
    case Shutdown => false
    case _ => Awaited(r).OKReply?
  }

  /** Whether the client's call ends in an exception, from the reply it read. */
  predicate Raises(r: Request<Launch>, a: Answer) {
    a.Error? || (a == Flag(false) && Insists(r))
  }

  /** The requests whose callers do not notice that the handler threw: two that await an id, where 0 is all there
      is to see of it, and three that take no for an answer. */
  predicate Unnoticed(r: Request<Launch>) {
    || r.ForkExecvpApp? || r.RegisterApp? || r.CheckApp? || r.Shutdown?
    || (r.ForkExecvpUtil? && r.mode.Synchronous?)
  }

  /** For every request and every way its handler can end: the call raises exactly when the handler threw, unless
      it is one of those, or answered no where the caller insists on an OK. What the handler returned is what the
      caller gets. */
  lemma FailureReported(r: Request<Launch>, o: Outcome)
    requires Possible(Awaited(r), o)
    ensures var kind := Awaited(r);
            var reply := GetReply(kind, PutReply(kind, o, []));
            reply.Got? && Reports(r, o, reply.value)
  {
    ReplyRoundTrip(Awaited(r), o, []);
    LearntReports(r, o);
  }

  /** What a caller gets to know of how a handler ended. */
  predicate Reports(r: Request<Launch>, o: Outcome, a: Answer) {
    && (o.Threw? ==> (Raises(r, a) <==> !Unnoticed(r)))
    && (o.Threw? && Awaited(r).MPIRReply? ==> a == Error(o.msg))
    && (o.Threw? && Awaited(r).IDReply? ==> a == AppId(0))
    && (o.Threw? && Awaited(r).OKReply? ==> a == Flag(false))
    && (o.Bool? ==> a == Flag(o.b) && (Raises(r, a) <==> !o.b && !Unnoticed(r)))
    && (o.Id? ==> a == AppId(o.id) && o.id != 0)
    && (o.Text? ==> a == Str(o.s))
    && (o.Mpir? ==> a == Launched(o.data))
    && (o.Id? || o.Text? || o.Mpir? ==> !Raises(r, a))
  }

  lemma LearntReports(r: Request<Launch>, o: Outcome)
    requires Possible(Awaited(r), o)
    ensures Reports(r, o, Learnt(Awaited(r), o))
  {
  }

  // ---------------------------------------------------------------- conversations

  datatype Exchange = Exchange(req: Request<Launch>, outcome: Outcome)

  predicate Sensible(x: Exchange) {
    Fits(x.req) && Possible(Awaited(x.req), x.outcome)
  }

  /** Everything the client writes. */
  function Requests(xs: seq<Exchange>): bytes {
    if xs == [] then [] else PutRequest(xs[0].req, Requests(xs[1..]))
  }

  function Outcomes(xs: seq<Exchange>): seq<Outcome> {
    if xs == [] then [] else [xs[0].outcome] + Outcomes(xs[1..])
  }

  function Views(xs: seq<Exchange>): seq<Request<LaunchData>> {
    if xs == [] then [] else [UnderstoodRequest(xs[0].req)] + Views(xs[1..])
  }

  function Answers(xs: seq<Exchange>): seq<Answer>
    requires AllSensible(xs)
  {
    if xs == [] then []
    else
      assert Sensible(xs[0]);
      [Learnt(Awaited(xs[0].req), xs[0].outcome)] + Answers(xs[1..])
  }

  predicate AllSensible(xs: seq<Exchange>) {
    forall i | 0 <= i < |xs| :: Sensible(xs[i])
  }

  datatype Service = Service(seen: seq<Request<LaunchData>>, replies: bytes, unread: bytes)

  /** The daemon's loop over a request stream, with the outcome of each handler given in advance. It ends
      with a shutdown request, with a stream it cannot read on, or with the last outcome. */
  ghost function Serve(s: bytes, os: seq<Outcome>): Service
    decreases |s|
  {
    match GetRequest(true, s)
    case Bad => Service([], [], s)
    case Got(Unknown(_), rest) => if |rest| < |s| then Serve(rest, os) else Service([], [], s)
    case Got(Known(r), rest) =>
      if os == [] || !Possible(ServedAs(r), os[0]) || |rest| >= |s| then Service([], [], s)
      else if r.Shutdown? then Service([r], PutReply(ServedAs(r), os[0], []), rest)
      else
        var more := Serve(rest, os[1..]);
        Service([r] + more.seen, PutReply(ServedAs(r), os[0], more.replies), more.unread)
  }

  ghost function GetReplies(xs: seq<Exchange>, s: bytes): Parsed<seq<Answer>> {
    if xs == [] then Got([], s)
    else
      var (a, s1) :- GetReply(Awaited(xs[0].req), s);
      var (more, s2) :- GetReplies(xs[1..], s1);
      Got([a] + more, s2)
  }

  lemma RequestNotEmpty(r: Request<Launch>, k: bytes)
    ensures |PutRequest(r, k)| > |k|
  {
    match r {
      case ForkExecvpApp(l) => LaunchNotShorter(l, k);
      case ForkExecvpUtil(_, _, l) => LaunchNotShorter(l, k);
      case LaunchMPIR(l) => LaunchNotShorter(l, k);
      case LaunchMPIRShim(_, _, _, l) => LaunchNotShorter(l, k);
      case _ =>
    }
  }

  lemma LaunchNotShorter(l: Launch, k: bytes)
    ensures |PutLaunch(l, k)| >= |k|
  {
    StringsNotShorter(l.env, k);
    StringsNotShorter(l.argv, PutString(Decimal(|l.env|), PutStrings(l.env, k)));
  }

  lemma {:induction false} StringsNotShorter(ss: seq<CString>, k: bytes)
    ensures |PutStrings(ss, k)| >= |k|
  {
    if ss != [] { StringsNotShorter(ss[1..], k); }
  }

  /** A whole conversation: for every list of requests (with a shutdown at most at the end) and every way
      the handlers may end, the daemon sees exactly the requests that were sent, leaves nothing unread,
      and sends one reply per request; reading them in order, with the reader each call uses, gives the
      client exactly what each handler did and leaves nothing unread either. */
  lemma {:induction false} Conversation(xs: seq<Exchange>)
    requires AllSensible(xs)
    requires forall i | 0 <= i < |xs| - 1 :: !xs[i].req.Shutdown?
    ensures var done := Serve(Requests(xs), Outcomes(xs));
            && done.seen == Views(xs)
            && done.unread == []
            && GetReplies(xs, done.replies) == Got(Answers(xs), [])
  {
    if xs == [] {
      assert GetRequest(true, []) == Bad;
    } else {
      assert forall i | 0 <= i < |xs| - 1 :: xs[1..][i] == xs[i + 1];
      Conversation(xs[1..]);
      ConversationStep(xs);
    }
  }

  /** One by one: request i is seen as it was sent, and its answer is that of its own handler. */
  lemma {:induction false} ConversationAt(xs: seq<Exchange>, i: nat)
    requires AllSensible(xs) && i < |xs|
    ensures |Views(xs)| == |xs| && Views(xs)[i] == UnderstoodRequest(xs[i].req)
    ensures |Outcomes(xs)| == |xs| && Outcomes(xs)[i] == xs[i].outcome
    ensures |Answers(xs)| == |xs| && Sensible(xs[i])
            && Answers(xs)[i] == Learnt(Awaited(xs[i].req), xs[i].outcome)
    decreases |xs|
  {
    if |xs| > 1 {
      assert AllSensible(xs[1..]);
      ConversationAt(xs[1..], if i > 0 then i - 1 else 0);
    }
  }

  /** The daemon answers each request with the kind of reply its caller waits for. */
  lemma SameKind(r: Request<Launch>)
    ensures ServedAs(UnderstoodRequest(r)) == Awaited(r)
    ensures UnderstoodRequest(r).Shutdown? <==> r.Shutdown?
  {}

  lemma ServeStep(x: Exchange, s: bytes, os: seq<Outcome>)
    requires Sensible(x) && (x.req.Shutdown? ==> s == [])
    ensures Serve(PutRequest(x.req, s), [x.outcome] + os)
            == var more := if x.req.Shutdown? then Service([], [], []) else Serve(s, os);
               Service([UnderstoodRequest(x.req)] + more.seen,
                       PutReply(Awaited(x.req), x.outcome, more.replies), more.unread)
  {
    RequestRoundTrip(x.req, s);
    RequestNotEmpty(x.req, s);
    SameKind(x.req);
    assert ([x.outcome] + os)[1..] == os;
  }

  lemma ConversationStep(xs: seq<Exchange>)
    requires AllSensible(xs) && xs != [] && (xs[0].req.Shutdown? ==> xs[1..] == [])
    requires var done := Serve(Requests(xs[1..]), Outcomes(xs[1..]));
             done.seen == Views(xs[1..]) && done.unread == []
             && GetReplies(xs[1..], done.replies) == Got(Answers(xs[1..]), [])
    ensures var done := Serve(Requests(xs), Outcomes(xs));
            done.seen == Views(xs) && done.unread == []
            && GetReplies(xs, done.replies) == Got(Answers(xs), [])
  {
    var x, tail := xs[0], xs[1..];
    assert Sensible(x);
    ServeStep(x, Requests(tail), Outcomes(tail));
    var more := Serve(Requests(tail), Outcomes(tail));
    if tail == [] {
      assert GetRequest(true, []) == Bad;
      assert more == Service([], [], []);
    }
    ReplyRoundTrip(Awaited(x.req), x.outcome, more.replies);
  }
}
