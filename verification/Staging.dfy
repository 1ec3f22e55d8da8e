/** How a session stages files on the compute nodes: manifests collect files, a shipped manifest is merged
    into the session's index of everything sent, and only what is new goes into the archive. A run is any
    sequence of client calls and failures. */
module Staging {
  import opened Bytes
  import opened Options

  const SLASH: byte := 47

  /** A base name. */
  type Name = s: bytes | SLASH !in s

  /** A canonical source path. */
  type Path = s: bytes | s != [] witness [SLASH]

  /** The folders files are staged in. Manifest number n has `lib.n` for libraries that would conflict. */
  datatype Folder = Bin | Lib | Top | Override(n: nat)

  datatype Entry = Entry(folder: Folder, name: Name)

  /** A file on the front end: its base name and, if it can be resolved, its canonical path. */
  datatype File = File(name: Name, resolved: Option<Path>)

  type Index = map<Entry, Path>

  // ---------------------------------------------------------------- keys

  function FolderName(f: Folder): bytes {
    match f
    case Bin => [98, 105, 110]
    case Lib => [108, 105, 98]
    case Top => []
    case Override(n) => [108, 105, 98, 46] + Decimal(n)
  }

  /** The string the session files an entry under. */
  function Key(e: Entry): bytes {
    FolderName(e.folder) + [SLASH] + e.name
  }

  lemma FolderNameInjective(f: Folder, g: Folder)
    requires FolderName(f) == FolderName(g)
    ensures f == g
  {
    if f.Override? && g.Override? {
      DecimalValue(f.n);
      DecimalValue(g.n);
      assert Decimal(f.n) == FolderName(f)[4..];
      assert Decimal(g.n) == FolderName(g)[4..];
    } else {
      assert FolderName(Bin)[0] == 98 && FolderName(Lib)[0] == 108;
    }
  }

  lemma NoLaterSlash(a: bytes, m: Name)
    ensures forall i | |a| < i < |a + [SLASH] + m| :: (a + [SLASH] + m)[i] != SLASH
  {
    forall i | |a| < i < |a + [SLASH] + m| ensures (a + [SLASH] + m)[i] != SLASH
    {
      assert (a + [SLASH] + m)[i] == m[i - |a| - 1];
    }
  }

  lemma LastSlash(a: bytes, m: Name, b: bytes, n: Name)
    requires a + [SLASH] + m == b + [SLASH] + n
    ensures a == b && m == n
  {
    var s := a + [SLASH] + m;
    assert s[|a|] == SLASH && s[|b|] == SLASH;
    NoLaterSlash(a, m);
    NoLaterSlash(b, n);
    assert a == s[..|a|] && b == s[..|b|];
    assert m == s[|a| + 1..] && n == s[|b| + 1..];
  }

  /** Two entries never share a key, so the session's map of strings is an index of entries. */
  lemma KeyInjective(d: Entry, e: Entry)
    requires Key(d) == Key(e)
    ensures d == e
  {
    LastSlash(FolderName(d.folder), d.name, FolderName(e.folder), e.name);
    FolderNameInjective(d.folder, e.folder);
  }

  // ---------------------------------------------------------------- manifests

  /** A manifest's files. Sources are kept by base name alone. `override` says that its own library folder
      is in use. */
  datatype Manifest = Manifest(inst: nat, entries: set<Entry>, sources: map<Name, Path>, override: bool)

  predicate WellFormed(m: Manifest) {
    && (forall e | e in m.entries :: e.name in m.sources)
    && (forall e | e in m.entries && e.folder.Override? :: e.folder.n == m.inst && m.override)
  }

  /** Nothing, if the file cannot be resolved or another file was sent to the same place. */
  function CheckAndAdd(index: Index, m: Manifest, folder: Folder, f: File): Option<Manifest> {
    var e := Entry(folder, f.name);
    if f.resolved.None? then None
    else if e in index && index[e] != f.resolved.value then None
    else Some(m.(entries := m.entries + {e}, sources := m.sources[f.name := f.resolved.value]))
  }

  /** A library that another file needs goes to the manifest's own folder if it cannot go to `lib`. The
      folder stays in use even if that fails too. */
  function AddDependency(index: Index, m: Manifest, f: File): (Manifest, bool) {
    match CheckAndAdd(index, m, Lib, f)
    case Some(added) => (added, true)
    case None =>
      var own := m.(override := true);
      match CheckAndAdd(index, own, Override(m.inst), f)
      case Some(added) => (added, true)
      case None => (own, false)
  }

  // ---------------------------------------------------------------- merging

  /** Merging stops at an entry whose place is taken by another file, or whose source cannot be resolved
      any more. */
  predicate Clashes(index: Index, m: Manifest, gone: set<Path>, e: Entry)
    requires e.name in m.sources
  {
    if e in index then index[e] != m.sources[e.name] else m.sources[e.name] in gone
  }

  function Duplicates(index: Index, m: Manifest): set<Entry> {
    set e | e in m.entries && e in index
  }

  /** What merging these entries of a manifest registers. */
  function Registered(index: Index, m: Manifest, entries: set<Entry>): Index
    requires forall e | e in entries :: e.name in m.sources
  {
    map e | e in entries && e !in index :: m.sources[e.name]
  }

  datatype Item = Link(source: Path) | Copy(source: Path)

  /** Duplicates are taken out of the manifest together with their sources, and only entries that still have
      a source are archived. A source that every node can see becomes a link. */
  function Archive(index: Index, m: Manifest, visible: set<Path>): map<Entry, Item>
    requires WellFormed(m)
  {
    var duplicateNames := set d | d in Duplicates(index, m) :: d.name;
    map e | e in m.entries && e !in index && e.name !in duplicateNames ::
      if m.sources[e.name] in visible then Link(m.sources[e.name]) else Copy(m.sources[e.name])
  }

  // ---------------------------------------------------------------- the session as a state machine

  /** One successful merge. `delivered` is whether the package reached the nodes, `started` whether the daemon
      that unpacks it was started, without which the package is of no use; `number` is the number that
      daemon was given. */
  datatype Merge = Merge(inst: nat, override: bool, archive: map<Entry, Item>, delivered: bool, started: bool,
                         number: nat)

  /** `live` holds the manifests the session still owns, `path` the library search path with the first
      folder first, `number` the number of the next daemon. `log` is a record of what happened. */
  datatype State = State(index: Index, live: map<nat, Manifest>, count: nat, path: seq<Folder>, number: nat,
                         log: seq<Merge>)

  datatype Event =
    | Create
    | Add(n: nat, folder: Folder, file: File)
    | Depend(n: nat, file: File)
    | Drop(n: nat)
    | Collide(n: nat, gone: set<Path>, visited: set<Entry>)
    | Ship(n: nat, visible: set<Path>, delivered: bool, started: bool)

  const INIT := State(map[], map[], 0, [Lib], 0, [])

  ghost predicate Enabled(s: State, ev: Event) {
    match ev
    case Create => true
    case Add(n, folder, _) => n in s.live && !folder.Override?
    case Depend(n, _) => n in s.live
    case Drop(n) => n in s.live && s.live[n].sources == map[]
    case Collide(n, gone, visited) =>
      n in s.live && WellFormed(s.live[n]) && CanCollide(s.index, s.live[n], gone, visited)
    case Ship(n, _, delivered, started) =>
      n in s.live && s.live[n].inst == n && s.live[n].sources != map[] && WellFormed(s.live[n])
      && CanMerge(s.index, s.live[n]) && (started ==> delivered)
  }

  /** Some entries were merged and the next one clashes. */
  ghost predicate CanCollide(index: Index, m: Manifest, gone: set<Path>, visited: set<Entry>)
    requires WellFormed(m)
  {
    && visited <= m.entries
    && (forall e | e in visited :: !Clashes(index, m, gone, e))
    && (exists e :: e in m.entries - visited && Clashes(index, m, gone, e))
  }

  predicate CanMerge(index: Index, m: Manifest)
    requires WellFormed(m)
  {
    forall e | e in m.entries && e in index :: index[e] == m.sources[e.name]
  }

  function Next(s: State, ev: Event): State
    requires Enabled(s, ev)
  {
    match ev
    case Create =>
      s.(count := s.count + 1, live := s.live[s.count + 1 := Manifest(s.count + 1, {}, map[], false)])
    case Add(n, folder, file) => Added(s, n, CheckAndAdd(s.index, s.live[n], folder, file))
    case Depend(n, file) => s.(live := s.live[n := AddDependency(s.index, s.live[n], file).0])
    case Drop(n) => s.(live := s.live - {n})
    case Collide(n, _, visited) =>
      s.(live := s.live - {n}, index := s.index + Registered(s.index, s.live[n], visited))
    case Ship(n, visible, delivered, started) => Shipped(s, s.live[n], visible, delivered, started)
  }

  function Shipped(s: State, m: Manifest, visible: set<Path>, delivered: bool, started: bool): State
    requires WellFormed(m)
  {
    State(s.index + Registered(s.index, m, m.entries), s.live - {m.inst}, s.count,
          if m.override then [Override(m.inst)] + s.path else s.path,
          if started then s.number + 1 else s.number,
          s.log + [Merge(m.inst, m.override, Archive(s.index, m, visible), delivered, started, s.number)])
  }

  function Added(s: State, n: nat, m: Option<Manifest>): State {
    if m.None? then s else s.(live := s.live[n := m.value])
  }

  ghost predicate Run(s: State, es: seq<Event>)
    decreases es
  {
    es == [] || (Enabled(s, es[0]) && Run(Next(s, es[0]), es[1..]))
  }

  function After(s: State, es: seq<Event>): State
    requires Run(s, es)
    decreases es
  {
    if es == [] then s else After(Next(s, es[0]), es[1..])
  }

  // ---------------------------------------------------------------- what every step keeps

  /** Owned manifests are numbered apart, and nothing in the session lies in the library folder of a manifest
      that can still change. */
  predicate LiveInv(s: State) {
    && (forall n | n in s.live :: 1 <= n <= s.count && s.live[n].inst == n && WellFormed(s.live[n]))
    && (forall e | e in s.index && e.folder.Override? :: e.folder.n <= s.count && e.folder.n !in s.live)
  }

  /** A merged manifest is gone for good, and what it archived is in the index, from the recorded source. */
  predicate MergeInv(s: State, k: Merge) {
    && 1 <= k.inst <= s.count && k.inst !in s.live
    && (forall e | e in k.archive :: e in s.index && s.index[e] == k.archive[e].source)
    && (forall e | e in k.archive && e.folder.Override? :: e.folder.n == k.inst && k.override)
  }

  predicate LogInv(s: State) {
    && (forall i | 0 <= i < |s.log| :: MergeInv(s, s.log[i]))
    && Apart(s.log)
  }

  /** The search path, read off the log: the folders of merged manifests, newest first, then `lib`. */
  function PathOf(log: seq<Merge>): seq<Folder> {
    if log == [] then [Lib]
    else
      var rest := PathOf(log[..|log| - 1]);
      var k := log[|log| - 1];
      if k.override then [Override(k.inst)] + rest else rest
  }

  function StartedIn(log: seq<Merge>): nat {
    if log == [] then 0 else StartedIn(log[..|log| - 1]) + if log[|log| - 1].started then 1 else 0
  }

  /** A daemon's number is the count of daemons started before it. */
  predicate NumberInv(s: State) {
    Follows(s.path, s.number, s.log)
  }

  predicate Follows(path: seq<Folder>, number: nat, log: seq<Merge>) {
    path == PathOf(log) && number == StartedIn(log) && Numbered(log)
  }

  predicate Inv(s: State) {
    LiveInv(s) && LogInv(s) && NumberInv(s)
  }

  lemma AddKeepsWellFormed(index: Index, m: Manifest, folder: Folder, f: File)
    requires WellFormed(m)
    requires folder.Override? ==> folder.n == m.inst && m.override
    ensures var r := CheckAndAdd(index, m, folder, f); r.Some? ==> WellFormed(r.value) && r.value.inst == m.inst
  {
  }

  lemma EditInv(s: State, n: nat, m: Manifest)
    requires Inv(s) && n in s.live && m.inst == n && WellFormed(m)
    ensures Inv(s.(live := s.live[n := m]))
  {
    var t := s.(live := s.live[n := m]);
    assert t.live.Keys == s.live.Keys;
    forall i | 0 <= i < |t.log| ensures MergeInv(t, t.log[i]) { assert MergeInv(s, s.log[i]); }
  }

  lemma CreateInv(s: State)
    requires Inv(s)
    ensures Inv(Next(s, Create))
  {
    var t := Next(s, Create);
    forall i | 0 <= i < |t.log| ensures MergeInv(t, t.log[i]) { assert MergeInv(s, s.log[i]); }
  }

  lemma DependInv(s: State, n: nat, f: File)
    requires Inv(s) && n in s.live
    ensures Inv(Next(s, Depend(n, f)))
  {
    var m := s.live[n];
    AddKeepsWellFormed(s.index, m, Lib, f);
    AddKeepsWellFormed(s.index, m.(override := true), Override(n), f);
    EditInv(s, n, AddDependency(s.index, m, f).0);
  }

  /** Merging all or some of a manifest's entries, whatever else happens, keeps the index sound. */
  lemma MergedInv(s: State, n: nat, entries: set<Entry>)
    requires Inv(s) && n in s.live && entries <= s.live[n].entries
    ensures var t := s.(live := s.live - {n}, index := s.index + Registered(s.index, s.live[n], entries));
            LiveInv(t) && LogInv(t)
  {
    var t := s.(live := s.live - {n}, index := s.index + Registered(s.index, s.live[n], entries));
    forall i | 0 <= i < |t.log| ensures MergeInv(t, t.log[i]) { assert MergeInv(s, s.log[i]); }
  }

  /** What a ship archives was not in the index before. */
  lemma ArchiveIsNew(s: State, ev: Event, k: Merge)
    requires Inv(s) && ev.Ship? && Enabled(s, ev) && MergeInv(s, k)
    ensures var m := s.live[ev.n]; k.inst != ev.n && k.archive.Keys !! Archive(s.index, m, ev.visible).Keys
  {
    assert forall e | e in k.archive :: e in s.index;
  }

  lemma ShippedMerge(s: State, ev: Event)
    requires Inv(s) && ev.Ship? && Enabled(s, ev)
    ensures var t := Next(s, ev); MergeInv(t, t.log[|s.log|])
  {
    var t := Next(s, ev);
    assert t.log[|s.log|].archive == Archive(s.index, s.live[ev.n], ev.visible);
  }

  lemma MergesStay(s: State, ev: Event, i: nat)
    requires Inv(s) && ev.Ship? && Enabled(s, ev) && i < |s.log|
    ensures MergeInv(Next(s, ev), s.log[i])
  {
    var t := Next(s, ev);
    MergedInv(s, ev.n, s.live[ev.n].entries);
    assert MergeInv(s.(live := t.live, index := t.index), s.log[i]);
  }

  /** Merges apart from each other in number and in what they archived. */
  predicate Apart(log: seq<Merge>) {
    forall i, j | 0 <= i < j < |log| :: log[i].inst != log[j].inst && log[i].archive.Keys !! log[j].archive.Keys
  }

  lemma ApartAppend(log: seq<Merge>, k: Merge)
    requires Apart(log)
    requires forall i | 0 <= i < |log| :: log[i].inst != k.inst && log[i].archive.Keys !! k.archive.Keys
    ensures Apart(log + [k])
  {
  }

  lemma ShipLog(s: State, ev: Event)
    requires Inv(s) && ev.Ship? && Enabled(s, ev)
    ensures LogInv(Next(s, ev))
  {
    var t := Next(s, ev);
    var k := t.log[|s.log|];
    ShippedMerge(s, ev);
    forall i | 0 <= i < |s.log|
      ensures MergeInv(t, s.log[i]) && s.log[i].inst != k.inst && s.log[i].archive.Keys !! k.archive.Keys
    {
      MergesStay(s, ev, i);
      ArchiveIsNew(s, ev, s.log[i]);
    }
    ApartAppend(s.log, k);
  }

  predicate Numbered(log: seq<Merge>) {
    forall i | 0 <= i < |log| :: log[i].number == StartedIn(log[..i])
  }

  lemma NumberedAppend(log: seq<Merge>, k: Merge)
    requires Numbered(log) && k.number == StartedIn(log)
    ensures Numbered(log + [k])
    ensures StartedIn(log + [k]) == StartedIn(log) + if k.started then 1 else 0
    ensures PathOf(log + [k]) == if k.override then [Override(k.inst)] + PathOf(log) else PathOf(log)
  {
    var more := log + [k];
    assert more[..|log|] == log;
    forall i | 0 <= i < |more| ensures more[i].number == StartedIn(more[..i])
    {
      if i < |log| { assert more[..i] == log[..i]; }
    }
  }

  lemma FollowsOn(path: seq<Folder>, number: nat, log: seq<Merge>, k: Merge)
    requires Follows(path, number, log) && k.number == number
    ensures Follows(if k.override then [Override(k.inst)] + path else path, if k.started then number + 1 else number,
                    log + [k])
  {
    NumberedAppend(log, k);
  }

  lemma ShipNumbers(s: State, m: Manifest, visible: set<Path>, delivered: bool, started: bool)
    requires NumberInv(s) && WellFormed(m)
    ensures NumberInv(Shipped(s, m, visible, delivered, started))
  {
    FollowsOn(s.path, s.number, s.log,
              Merge(m.inst, m.override, Archive(s.index, m, visible), delivered, started, s.number));
  }

  lemma ShipInv(s: State, ev: Event)
    requires Inv(s) && ev.Ship? && Enabled(s, ev)
    ensures Inv(Next(s, ev))
  {
    MergedInv(s, ev.n, s.live[ev.n].entries);
    ShipLog(s, ev);
    ShipNumbers(s, s.live[ev.n], ev.visible, ev.delivered, ev.started);
  }

  lemma NextInv(s: State, ev: Event)
    requires Inv(s) && Enabled(s, ev)
    ensures Inv(Next(s, ev))
  {
    match ev
    case Create => CreateInv(s);
    case Add(n, folder, file) =>
      var r := CheckAndAdd(s.index, s.live[n], folder, file);
      AddKeepsWellFormed(s.index, s.live[n], folder, file);
      if r.Some? { EditInv(s, n, r.value); }
    case Depend(n, file) => DependInv(s, n, file);
    case Drop(n) =>
      MergedInv(s, n, {});
      assert s.index + Registered(s.index, s.live[n], {}) == s.index;
    case Collide(n, gone, visited) => MergedInv(s, n, visited);
    case Ship(n, visible, delivered, started) => ShipInv(s, ev);
  }

  lemma {:induction false} RunInv(s: State, es: seq<Event>)
    requires Inv(s) && Run(s, es)
    ensures Inv(After(s, es))
    decreases es
  {
    if es != [] {
      NextInv(s, es[0]);
      RunInv(Next(s, es[0]), es[1..]);
    }
  }

  // ---------------------------------------------------------------- one archive entry per destination

  predicate Extends(a: Index, b: Index) {
    forall e | e in a :: e in b && b[e] == a[e]
  }

  /** Nothing is ever taken out of the index or given another source. */
  lemma {:induction false} SourcesNeverChange(s: State, es: seq<Event>)
    requires Run(s, es)
    ensures Extends(s.index, After(s, es).index)
    ensures |s.log| <= |After(s, es).log| && After(s, es).log[..|s.log|] == s.log
    decreases es
  {
    if es != [] {
      var t := Next(s, es[0]);
      assert Extends(s.index, t.index);
      assert |s.log| <= |t.log| && t.log[..|s.log|] == s.log;
      SourcesNeverChange(t, es[1..]);
      assert After(s, es).log[..|s.log|] == After(s, es).log[..|t.log|][..|s.log|];
    }
  }

  /** Over every run a destination is in at most one archive, and the file there comes from the source the
      session has recorded. */
  lemma ArchivedAtMostOnce(es: seq<Event>, e: Entry)
    requires Run(INIT, es)
    ensures var s := After(INIT, es);
            && (forall i, j | 0 <= i < j < |s.log| :: !(e in s.log[i].archive && e in s.log[j].archive))
            && (forall i | 0 <= i < |s.log| && e in s.log[i].archive ::
                  e in s.index && s.log[i].archive[e].source == s.index[e])
  {
    RunInv(INIT, es);
    var s := After(INIT, es);
    forall i | 0 <= i < |s.log| && e in s.log[i].archive
      ensures e in s.index && s.log[i].archive[e].source == s.index[e]
    {
      assert MergeInv(s, s.log[i]);
    }
  }

  // ---------------------------------------------------------------- index and archives agree

  /** Everything on the nodes: what a daemon that started found in its package. */
  function Unpacked(log: seq<Merge>): set<Entry> {
    if log == [] then {}
    else
      var k := log[|log| - 1];
      Unpacked(log[..|log| - 1]) + if k.started then k.archive.Keys else {}
  }

  /** What the session believes it sent and did not. */
  function Missing(s: State): set<Entry> {
    s.index.Keys - Unpacked(s.log)
  }

  /** What one step adds to that. */
  function LostBy(s: State, ev: Event): set<Entry>
    requires Enabled(s, ev)
  {
    match ev
    case Collide(n, _, visited) => visited - s.index.Keys
    case Ship(n, visible, _, started) =>
      s.live[n].entries - s.index.Keys - if started then Archive(s.index, s.live[n], visible).Keys else {}
    case _ => {}
  }

  function Lost(s: State, es: seq<Event>): set<Entry>
    requires Run(s, es)
    decreases es
  {
    if es == [] then {} else LostBy(s, es[0]) + Lost(Next(s, es[0]), es[1..])
  }

  lemma {:induction false} UnpackedIsIndexed(s: State, n: nat)
    requires LogInv(s) && n <= |s.log|
    ensures Unpacked(s.log[..n]) <= s.index.Keys
  {
    if n > 0 {
      UnpackedIsIndexed(s, n - 1);
      assert s.log[..n][..n - 1] == s.log[..n - 1];
      assert MergeInv(s, s.log[n - 1]);
    }
  }

  lemma UnpackedAppend(log: seq<Merge>, k: Merge)
    ensures Unpacked(log + [k]) == Unpacked(log) + if k.started then k.archive.Keys else {}
  {
    assert (log + [k])[..|log|] == log;
  }

  lemma Remainder(indexed: set<Entry>, sent: set<Entry>, entries: set<Entry>, archive: set<Entry>)
    requires sent <= indexed && archive !! indexed && archive <= entries
    ensures indexed + entries - (sent + archive) == (indexed - sent) + (entries - indexed - archive)
  {
  }

  /** What is missing after one more merge. */
  lemma OneMoreMerge(indexed: set<Entry>, log: seq<Merge>, k: Merge, entries: set<Entry>)
    requires Unpacked(log) <= indexed && k.archive.Keys !! indexed && k.archive.Keys <= entries
    ensures indexed + entries - Unpacked(log + [k])
            == (indexed - Unpacked(log)) + (entries - indexed - if k.started then k.archive.Keys else {})
  {
    UnpackedAppend(log, k);
    Remainder(indexed, Unpacked(log), entries, if k.started then k.archive.Keys else {});
  }

  lemma AllUnpackedIndexed(s: State)
    requires LogInv(s)
    ensures Unpacked(s.log) <= s.index.Keys
  {
    UnpackedIsIndexed(s, |s.log|);
    assert s.log[..|s.log|] == s.log;
  }

  lemma ShippedParts(s: State, ev: Event, k: Merge)
    requires Enabled(s, ev) && ev.Ship?
    requires k == Merge(ev.n, s.live[ev.n].override, Archive(s.index, s.live[ev.n], ev.visible), ev.delivered, ev.started,
                        s.number)
    ensures Next(s, ev).index.Keys == s.index.Keys + s.live[ev.n].entries && Next(s, ev).log == s.log + [k]
    ensures k.archive.Keys !! s.index.Keys && k.archive.Keys <= s.live[ev.n].entries
  {
  }

  lemma ShipLoses(s: State, ev: Event)
    requires Inv(s) && Enabled(s, ev) && ev.Ship?
    ensures Missing(Next(s, ev)) == Missing(s) + LostBy(s, ev)
  {
    var m := s.live[ev.n];
    var k := Merge(ev.n, m.override, Archive(s.index, m, ev.visible), ev.delivered, ev.started, s.number);
    AllUnpackedIndexed(s);
    ShippedParts(s, ev, k);
    OneMoreMerge(s.index.Keys, s.log, k, m.entries);
  }

  lemma StepLoses(s: State, ev: Event)
    requires Inv(s) && Enabled(s, ev)
    ensures Missing(Next(s, ev)) == Missing(s) + LostBy(s, ev)
  {
    match ev
    case Ship(_, _, _, _) => ShipLoses(s, ev);
    case Collide(_, _, visited) =>
      AllUnpackedIndexed(s);
      assert Next(s, ev).index.Keys == s.index.Keys + visited;
    case _ =>
  }

  /** What is missing after a run is exactly what its steps lost: nothing lost is made good later. */
  lemma {:induction false} RunLoses(s: State, es: seq<Event>)
    requires Inv(s) && Run(s, es)
    ensures Missing(After(s, es)) == Missing(s) + Lost(s, es)
    decreases es
  {
    if es != [] {
      StepLoses(s, es[0]);
      NextInv(s, es[0]);
      RunLoses(Next(s, es[0]), es[1..]);
    }
  }

  /** A name that is new in one folder and already sent to another, in the same manifest. */
  predicate Straddles(index: Index, m: Manifest, name: Name) {
    && (exists e :: e in m.entries && e.name == name && e in index)
    && (exists e :: e in m.entries && e.name == name && e !in index)
  }

  /** What loses something: a merge that stops after registering something new; a package with something new
      that does not arrive or whose daemon does not start; and otherwise exactly a manifest with a name
      that straddles two folders. */
  lemma LosesExactly(s: State, ev: Event)
    requires Inv(s) && Enabled(s, ev)
    ensures ev.Ship? && ev.started ==>
              (LostBy(s, ev) == {} <==> forall name: Name :: !Straddles(s.index, s.live[ev.n], name))
    ensures ev.Ship? && !ev.started ==> (LostBy(s, ev) == {} <==> s.live[ev.n].entries <= s.index.Keys)
    ensures ev.Collide? ==> (LostBy(s, ev) == {} <==> ev.visited <= s.index.Keys)
    ensures !ev.Ship? && !ev.Collide? ==> LostBy(s, ev) == {}
  {
    if ev.Ship? && ev.started { StraddlingLoses(s, ev); }
    if ev.Ship? && !ev.started {
      assert LostBy(s, ev) == s.live[ev.n].entries - s.index.Keys;
      NothingOutside(s.live[ev.n].entries, s.index.Keys);
    }
    if ev.Collide? { NothingOutside(ev.visited, s.index.Keys); }
  }

  lemma NothingOutside(a: set<Entry>, b: set<Entry>)
    ensures a - b == {} <==> a <= b
  {
    if a - b == {} {
      forall e | e in a ensures e in b { assert e !in a - b; }
    }
  }

  lemma StraddlingLoses(s: State, ev: Event)
    requires Inv(s) && Enabled(s, ev) && ev.Ship? && ev.started
    ensures LostBy(s, ev) == {} <==> forall name: Name :: !Straddles(s.index, s.live[ev.n], name)
  {
    var m := s.live[ev.n];
    var lost := LostBy(s, ev);
    forall e | e in lost ensures Straddles(s.index, m, e.name)
    {
      assert e in m.entries && e !in s.index && e !in Archive(s.index, m, ev.visible);
      assert exists d :: d in Duplicates(s.index, m) && d.name == e.name;
    }
    forall name: Name | Straddles(s.index, m, name) ensures lost != {}
    {
      var d :| d in m.entries && d.name == name && d in s.index;
      var e :| e in m.entries && e.name == name && e !in s.index;
      assert d in Duplicates(s.index, m);
      assert e in lost;
    }
  }

  /** Each manifest uses a name in one folder only, and no merge or package fails. */
  ghost predicate Orderly(s: State, es: seq<Event>)
    requires Run(s, es)
    decreases es
  {
    es == []
    || (&& !es[0].Collide?
        && (es[0].Ship? ==> es[0].started && OneFolderEach(s.live[es[0].n]))
        && Orderly(Next(s, es[0]), es[1..]))
  }

  predicate OneFolderEach(m: Manifest) {
    forall d, e | d in m.entries && e in m.entries && d.name == e.name :: d == e
  }

  lemma {:induction false} OrderlyLosesNothing(s: State, es: seq<Event>)
    requires Inv(s) && Run(s, es) && Orderly(s, es)
    ensures Lost(s, es) == {}
    decreases es
  {
    if es != [] {
      if es[0].Ship? { LosesExactly(s, es[0]); }
      NextInv(s, es[0]);
      OrderlyLosesNothing(Next(s, es[0]), es[1..]);
    }
  }

  /** What is on the nodes is exactly what the session's index says, just when no step of the run lost anything; in
      particular after every orderly run. */
  lemma IndexMatchesArchives(es: seq<Event>)
    requires Run(INIT, es)
    ensures var s := After(INIT, es);
            && Unpacked(s.log) <= s.index.Keys
            && (Unpacked(s.log) == s.index.Keys <==> Lost(INIT, es) == {})
            && (Orderly(INIT, es) ==> Unpacked(s.log) == s.index.Keys)
  {
    var s := After(INIT, es);
    RunInv(INIT, es);
    RunLoses(INIT, es);
    UnpackedIsIndexed(s, |s.log|);
    assert s.log[..|s.log|] == s.log;
    assert Missing(INIT) == {};
    if Missing(s) == {} {
      assert forall e | e in s.index.Keys :: e in Unpacked(s.log) by {
        forall e | e in s.index.Keys ensures e in Unpacked(s.log) { assert e !in Missing(s); }
      }
    }
    if Orderly(INIT, es) { OrderlyLosesNothing(INIT, es); }
  }

  lemma {:induction false} RunAppend(s: State, a: seq<Event>, b: seq<Event>)
    requires Run(s, a) && Run(After(s, a), b)
    ensures Run(s, a + b) && After(s, a + b) == After(After(s, a), b)
    decreases a
  {
    if a == [] {
      assert a + b == b;
    } else {
      RunAppend(Next(s, a[0]), a[1..], b);
      assert (a + b)[1..] == a[1..] + b;
    }
  }

  lemma RunOne(s: State, ev: Event)
    requires Enabled(s, ev)
    ensures Run(s, [ev]) && After(s, [ev]) == Next(s, ev)
  {
    assert [ev][1..] == [];
    assert Run(Next(s, ev), []);
  }

  lemma RunOnce(s: State, es: seq<Event>, t: State, ev: Event)
    requires Run(s, es) && After(s, es) == t && Enabled(t, ev)
    ensures Run(s, es + [ev]) && After(s, es + [ev]) == Next(t, ev)
  {
    RunOne(t, ev);
    RunAppend(s, es, [ev]);
  }

  /** One file sent to `bin`. */
  function SentOnce(name: Name, p: Path): State {
    State(map[Entry(Bin, name) := p], map[], 1, [Lib], 1,
          [Merge(1, false, map[Entry(Bin, name) := Copy(p)], true, true, 0)])
  }

  function WithManifest(s: State, m: Manifest): State {
    s.(live := map[m.inst := m], count := m.inst)
  }

  lemma AddStep(s: State, m: Manifest, folder: Folder, name: Name, p: Path)
    requires !folder.Override? && (Entry(folder, name) in s.index ==> s.index[Entry(folder, name)] == p)
    ensures var add := Add(m.inst, folder, File(name, Some(p)));
            && Enabled(WithManifest(s, m), add)
            && Next(WithManifest(s, m), add)
               == WithManifest(s, m.(entries := m.entries + {Entry(folder, name)}, sources := m.sources[name := p]))
  {
    var more := m.(entries := m.entries + {Entry(folder, name)}, sources := m.sources[name := p]);
    assert CheckAndAdd(s.index, m, folder, File(name, Some(p))) == Some(more);
    assert map[m.inst := m][m.inst := more] == map[m.inst := more];
  }

  lemma MergeOne(name: Name, p: Path, m: Manifest)
    requires m == Manifest(1, {} + {Entry(Bin, name)}, map[][name := p], false)
    ensures WellFormed(m) && m.sources != map[] && CanMerge(map[], m)
    ensures Archive(map[], m, {}) == map[Entry(Bin, name) := Copy(p)]
    ensures Registered(map[], m, m.entries) == map[Entry(Bin, name) := p]
  {
    assert name in m.sources;
  }

  lemma ShipOne(name: Name, p: Path, m: Manifest)
    requires m == Manifest(1, {} + {Entry(Bin, name)}, map[][name := p], false)
    ensures var ship := Ship(1, {}, true, true);
            Enabled(WithManifest(INIT, m), ship) && Next(WithManifest(INIT, m), ship) == SentOnce(name, p)
  {
    MergeOne(name, p, m);
    assert map[1 := m] - {1} == map[];
  }

  lemma OneAdded(name: Name, p: Path, m: Manifest) returns (es: seq<Event>)
    requires m == Manifest(1, {} + {Entry(Bin, name)}, map[][name := p], false)
    ensures Run(INIT, es) && After(INIT, es) == WithManifest(INIT, m)
  {
    var add, m0 := Add(1, Bin, File(name, Some(p))), Manifest(1, {}, map[], false);
    RunOne(INIT, Create);
    assert Next(INIT, Create) == WithManifest(INIT, m0);
    AddStep(INIT, m0, Bin, name, p);
    RunOnce(INIT, [Create], WithManifest(INIT, m0), add);
    es := [Create] + [add];
  }

  lemma FirstShip(name: Name, p: Path) returns (es: seq<Event>)
    ensures Run(INIT, es) && After(INIT, es) == SentOnce(name, p)
  {
    var m, ship := Manifest(1, {} + {Entry(Bin, name)}, map[][name := p], false), Ship(1, {}, true, true);
    es := OneAdded(name, p, m);
    ShipOne(name, p, m);
    RunOnce(INIT, es, WithManifest(INIT, m), ship);
    es := es + [ship];
  }

  lemma TwoFolders(name: Name, p: Path, q: Path, m: Manifest) returns (es: seq<Event>)
    requires m == Manifest(2, {} + {Entry(Bin, name)} + {Entry(Top, name)}, map[][name := p][name := q], false)
    ensures Run(SentOnce(name, p), es) && After(SentOnce(name, p), es) == WithManifest(SentOnce(name, p), m)
  {
    var s, f, g := SentOnce(name, p), File(name, Some(p)), File(name, Some(q));
    var m0 := Manifest(2, {}, map[], false);
    var m1 := Manifest(2, {} + {Entry(Bin, name)}, map[][name := p], false);
    RunOne(s, Create);
    assert Next(s, Create) == WithManifest(s, m0);
    AddStep(s, m0, Bin, name, p);
    RunOnce(s, [Create], WithManifest(s, m0), Add(2, Bin, f));
    AddStep(s, m1, Top, name, q);
    RunOnce(s, [Create] + [Add(2, Bin, f)], WithManifest(s, m1), Add(2, Top, g));
    es := [Create] + [Add(2, Bin, f)] + [Add(2, Top, g)];
  }

  /** The same, after `bin` was sent, from the start. */
  lemma SentThenTwo(name: Name, p: Path, q: Path, m: Manifest) returns (es: seq<Event>)
    requires m == Manifest(2, {} + {Entry(Bin, name)} + {Entry(Top, name)}, map[][name := p][name := q], false)
    ensures Run(INIT, es) && After(INIT, es) == WithManifest(SentOnce(name, p), m) && Inv(After(INIT, es))
  {
    es := FirstShip(name, p);
    var more := TwoFolders(name, p, q, m);
    RunAppend(INIT, es, more);
    es := es + more;
    RunInv(INIT, es);
  }

  lemma CollideTwo(name: Name, p: Path, q: Path, m: Manifest)
    requires p != q
    requires m == Manifest(2, {} + {Entry(Bin, name)} + {Entry(Top, name)}, map[][name := p][name := q], false)
    ensures var s, ev := WithManifest(SentOnce(name, p), m), Collide(2, {}, {Entry(Top, name)});
            Enabled(s, ev) && Entry(Top, name) in LostBy(s, ev)
  {
    assert name in m.sources && m.sources[name] == q;
    var index := SentOnce(name, p).index;
    assert Clashes(index, m, {}, Entry(Bin, name)) && !Clashes(index, m, {}, Entry(Top, name));
    assert Entry(Bin, name) in m.entries - {Entry(Top, name)};
  }

  /** A merge that stops loses what it registered before. `bin/a` is sent from p; the next manifest has it again,
      and then `a` as a plain file from q, which becomes the source of both: `a` is registered, `bin/a` clashes. */
  lemma CollisionLoses(name: Name, p: Path, q: Path) returns (es: seq<Event>)
    requires p != q
    ensures Run(INIT, es) && es != [] && es[|es| - 1].Collide? && Entry(Top, name) in Missing(After(INIT, es))
  {
    var m := Manifest(2, {} + {Entry(Bin, name)} + {Entry(Top, name)}, map[][name := p][name := q], false);
    var ev := Collide(2, {}, {Entry(Top, name)});
    es := SentThenTwo(name, p, q, m);
    CollideTwo(name, p, q, m);
    StepLoses(WithManifest(SentOnce(name, p), m), ev);
    RunOnce(INIT, es, WithManifest(SentOnce(name, p), m), ev);
    es := es + [ev];
  }

  lemma ShipTwo(name: Name, p: Path, m: Manifest)
    requires m == Manifest(2, {} + {Entry(Bin, name)} + {Entry(Top, name)}, map[][name := p][name := p], false)
    ensures var s, ship := WithManifest(SentOnce(name, p), m), Ship(2, {}, true, true);
            Enabled(s, ship) && Entry(Top, name) in LostBy(s, ship)
  {
    assert name in m.sources;
    assert Entry(Bin, name) in Duplicates(SentOnce(name, p).index, m);
  }

  /** A package whose daemon does not start is lost: there is a run after which its file is recorded as sent,
      and as nothing lost is made good it will never be on the nodes. */
  lemma FailedStartIsLost(name: Name, p: Path) returns (es: seq<Event>)
    ensures Run(INIT, es) && Entry(Bin, name) in Missing(After(INIT, es))
  {
    var m := Manifest(1, {} + {Entry(Bin, name)}, map[][name := p], false);
    var ship := Ship(1, {}, true, false);
    es := OneAdded(name, p, m);
    MergeOne(name, p, m);
    RunInv(INIT, es);
    StepLoses(WithManifest(INIT, m), ship);
    RunOnce(INIT, es, WithManifest(INIT, m), ship);
    es := es + [ship];
  }

  /** The condition can fail: there is a run after which a file is recorded as sent and is in no archive. The
      first ship sends `bin/a`; the second has `bin/a` again and also `a` as a plain file. */
  lemma StraddlingIsLost(name: Name, p: Path) returns (es: seq<Event>)
    ensures Run(INIT, es) && Entry(Top, name) in Missing(After(INIT, es))
  {
    var m := Manifest(2, {} + {Entry(Bin, name)} + {Entry(Top, name)}, map[][name := p][name := p], false);
    var ship := Ship(2, {}, true, true);
    es := SentThenTwo(name, p, p, m);
    var s := WithManifest(SentOnce(name, p), m);
    ShipTwo(name, p, m);
    StepLoses(s, ship);
    RunOnce(INIT, es, s, ship);
    es := es + [ship];
  }

  // ---------------------------------------------------------------- from where a file arrives

  /** The source a call gives to a base name in a manifest, if it does. */
  function Gives(s: State, ev: Event, n: nat, name: Name): Option<Path>
    requires Enabled(s, ev)
  {
    match ev
    case Add(k, folder, f) =>
      if k == n && f.name == name && CheckAndAdd(s.index, s.live[k], folder, f).Some? then f.resolved else None
    case Depend(k, f) =>
      if k == n && f.name == name && AddDependency(s.index, s.live[k], f).1 then f.resolved else None
    case _ => None
  }

  /** The last source given to a base name, starting from p. */
  function LastGiven(s: State, es: seq<Event>, n: nat, name: Name, p: Path): Path
    requires Run(s, es)
    decreases es
  {
    if es == [] then p
    else
      var given := Gives(s, es[0], n, name);
      LastGiven(Next(s, es[0]), es[1..], n, name, if given.Some? then given.value else p)
  }

  predicate Ends(ev: Event, n: nat) {
    (ev.Drop? || ev.Collide? || ev.Ship?) && ev.n == n
  }

  predicate StaysOpen(es: seq<Event>, n: nat) {
    forall i | 0 <= i < |es| :: !Ends(es[i], n)
  }

  lemma OthersStay(s: State, ev: Event, n: nat)
    requires Inv(s) && Enabled(s, ev) && n in s.live && !Ends(ev, n)
    requires !(ev.Add? && ev.n == n) && !(ev.Depend? && ev.n == n)
    ensures n in Next(s, ev).live && Next(s, ev).live[n] == s.live[n]
  {
  }

  /** What a manifest keeps when a file is added to it. */
  predicate Grows(m: Manifest, t: Manifest, name: Name, given: Option<Path>)
    requires name in m.sources
  {
    && m.entries <= t.entries && name in t.sources
    && t.sources[name] == if given.Some? then given.value else m.sources[name]
  }

  lemma AddGives(index: Index, m: Manifest, folder: Folder, f: File, name: Name)
    requires name in m.sources
    ensures var added := CheckAndAdd(index, m, folder, f);
            added.Some? ==> Grows(m, added.value, name, if f.name == name then f.resolved else None)
  {
  }

  lemma DependGives(index: Index, m: Manifest, f: File, name: Name)
    requires name in m.sources
    ensures var added := AddDependency(index, m, f);
            Grows(m, added.0, name, if f.name == name && added.1 then f.resolved else None)
  {
    AddGives(index, m, Lib, f, name);
    AddGives(index, m.(override := true), Override(m.inst), f, name);
  }

  lemma StepGives(s: State, ev: Event, n: nat, name: Name)
    requires Inv(s) && Enabled(s, ev) && n in s.live && name in s.live[n].sources && !Ends(ev, n)
    ensures n in Next(s, ev).live && Grows(s.live[n], Next(s, ev).live[n], name, Gives(s, ev, n, name))
  {
    if ev.Add? && ev.n == n {
      AddGives(s.index, s.live[n], ev.folder, ev.file, name);
    } else if ev.Depend? && ev.n == n {
      DependGives(s.index, s.live[n], ev.file, name);
    } else {
      OthersStay(s, ev, n);
    }
  }

  lemma {:induction false} SourceIsLastGiven(s: State, es: seq<Event>, n: nat, name: Name)
    requires Inv(s) && Run(s, es) && n in s.live && name in s.live[n].sources && StaysOpen(es, n)
    ensures n in After(s, es).live
    ensures Grows(s.live[n], After(s, es).live[n], name, Some(LastGiven(s, es, n, name, s.live[n].sources[name])))
    decreases es
  {
    if es != [] {
      assert !Ends(es[0], n);
      NextInv(s, es[0]);
      StepGives(s, es[0], n, name);
      OpenRest(es, n);
      SourceIsLastGiven(Next(s, es[0]), es[1..], n, name);
    }
  }

  lemma OpenRest(es: seq<Event>, n: nat)
    requires StaysOpen(es, n) && es != []
    ensures StaysOpen(es[1..], n)
  {
    assert forall i | 0 <= i < |es| - 1 :: es[1..][i] == es[i + 1];
  }

  /** The file at a destination on the nodes came from this source. */
  ghost predicate ArrivedFrom(s: State, e: Entry, p: Path) {
    exists i :: 0 <= i < |s.log| && s.log[i].started && e in s.log[i].archive && s.log[i].archive[e].source == p
  }

  lemma ArrivedExactly(s: State, e: Entry, p: Path)
    requires Inv(s) && e in s.index
    ensures ArrivedFrom(s, e, p) <==> s.index[e] == p && e !in Missing(s)
  {
    UnpackedBy(s, |s.log|, e);
    assert s.log[..|s.log|] == s.log;
    forall i | 0 <= i < |s.log| && e in s.log[i].archive ensures s.log[i].archive[e].source == s.index[e]
    {
      assert MergeInv(s, s.log[i]);
    }
  }

  lemma MergedSource(s: State, ship: Event, e: Entry)
    requires Inv(s) && Enabled(s, ship) && ship.Ship? && e in s.live[ship.n].entries
    ensures var u := Next(s, ship); e in u.index && u.index[e] == s.live[ship.n].sources[e.name]
  {
  }

  /** An entry of a shipped manifest is on the nodes afterwards exactly when it was already, or it is new, the
      daemon starts and its name does not straddle two folders. */
  predicate GetsThere(t: State, ship: Event, e: Entry)
    requires ship.Ship? && ship.n in t.live
  {
    if e in t.index then e !in Missing(t) else ship.started && !Straddles(t.index, t.live[ship.n], e.name)
  }

  lemma GetsThereExactly(t: State, ship: Event, e: Entry)
    requires Inv(t) && Enabled(t, ship) && ship.Ship? && e in t.live[ship.n].entries
    ensures e !in Missing(Next(t, ship)) <==> GetsThere(t, ship, e)
  {
    StepLoses(t, ship);
    if e !in t.index { NewIsArchived(t.index, t.live[ship.n], ship.visible, e); }
  }

  lemma NewIsArchived(index: Index, m: Manifest, visible: set<Path>, e: Entry)
    requires WellFormed(m) && e in m.entries && e !in index
    ensures e in Archive(index, m, visible) <==> !Straddles(index, m, e.name)
  {
    if Straddles(index, m, e.name) {
      var d :| d in m.entries && d.name == e.name && d in index;
      assert d in Duplicates(index, m);
    }
  }

  /** What is archived is sent as a link exactly when every node can see its source, and as a copy otherwise. */
  lemma LinkedExactly(index: Index, m: Manifest, visible: set<Path>, e: Entry)
    requires WellFormed(m) && e in Archive(index, m, visible)
    ensures var item, p := Archive(index, m, visible)[e], m.sources[e.name];
            item.source == p && (item.Link? <==> p in visible)
  {
  }

  /** Merging can stop, at some entry, exactly when some place was filled from another path, or a new file can no
      longer be resolved. */
  lemma StopsExactly(index: Index, m: Manifest, gone: set<Path>)
    requires WellFormed(m)
    ensures (exists visited :: CanCollide(index, m, gone, visited))
            <==> !CanMerge(index, m) || exists e :: e in m.entries && e !in index && m.sources[e.name] in gone
  {
    if e :| e in m.entries && Clashes(index, m, gone, e) {
      assert e in m.entries - {};
      assert CanCollide(index, m, gone, {});
    }
  }

  /** An entry of a manifest, whatever was called since, is recorded from the last source given to its base name
      in any folder; and it arrives from the source it was added with exactly when that is still the last one
      and the entry gets there, which can be told before the ship. */
  lemma ArrivesFromOwnSource(s: State, n: nat, e: Entry, es: seq<Event>, ship: Event)
    requires Inv(s) && n in s.live && e in s.live[n].entries && Run(s, es) && StaysOpen(es, n)
    requires ship.Ship? && ship.n == n && Enabled(After(s, es), ship)
    ensures var p, t := s.live[n].sources[e.name], After(s, es);
            var last, u := LastGiven(s, es, n, e.name, p), Next(t, ship);
            && e in u.index && u.index[e] == last
            && (ArrivedFrom(u, e, p) <==> last == p && GetsThere(t, ship, e))
  {
    RunInv(s, es);
    SourceIsLastGiven(s, es, n, e.name);
    var t := After(s, es);
    MergedSource(t, ship, e);
    NextInv(t, ship);
    ArrivedExactly(Next(t, ship), e, s.live[n].sources[e.name]);
    GetsThereExactly(t, ship, e);
  }

  /** Two files of one name, added for `bin` from p and as a plain file from q, in one manifest: what is recorded
      for `bin` comes from q. */
  lemma SameNameReplaces(name: Name, p: Path, q: Path) returns (es: seq<Event>)
    ensures Run(INIT, es)
    ensures Entry(Bin, name) in After(INIT, es).index && After(INIT, es).index[Entry(Bin, name)] == q
  {
    var m := Manifest(1, {} + {Entry(Bin, name)}, map[][name := p], false);
    var m2 := m.(entries := m.entries + {Entry(Top, name)}, sources := m.sources[name := q]);
    var add, ship := Add(1, Top, File(name, Some(q))), Ship(1, {}, true, true);
    es := OneAdded(name, p, m);
    AddStep(INIT, m, Top, name, q);
    RunOnce(INIT, es, WithManifest(INIT, m), add);
    es := es + [add];
    RunInv(INIT, es);
    var s := WithManifest(INIT, m2);
    assert name in m2.sources;
    assert Enabled(s, ship);
    MergedSource(s, ship, Entry(Bin, name));
    RunOnce(INIT, es, s, ship);
    es := es + [ship];
  }

  // ---------------------------------------------------------------- library folders and the search path

  /** A file may go to a place that is free or was filled from the same path. */
  predicate MayGo(index: Index, e: Entry, p: Path) {
    e in index ==> index[e] == p
  }

  /** What adding a file to a folder of a manifest comes to. */
  predicate IsPlaced(m: Manifest, t: Manifest, e: Entry, p: Path) {
    && t.inst == m.inst && t.entries == m.entries + {e} && e.name in t.sources && t.sources[e.name] == p
    && t.sources.Keys == m.sources.Keys + {e.name}
    && forall name: Name | name in m.sources && name != e.name :: t.sources[name] == m.sources[name]
  }

  /** A file is accepted exactly when it can be resolved and the place it is meant for is free, or was filled from
      the same path. */
  lemma AcceptedExactly(index: Index, m: Manifest, folder: Folder, f: File)
    ensures var r, e := CheckAndAdd(index, m, folder, f), Entry(folder, f.name);
            && (r.Some? <==> f.resolved.Some? && MayGo(index, e, f.resolved.value))
            && (r.Some? ==> IsPlaced(m, r.value, e, f.resolved.value) && r.value.override == m.override)
  {
  }

  /** A needed library goes to `lib` exactly when it may go there, and otherwise to the manifest's own folder, which
      comes into use exactly then. */
  lemma DependencyPlacedExactly(index: Index, m: Manifest, f: File)
    requires forall e | e in index :: e.folder != Override(m.inst)
    ensures var (t, ok) := AddDependency(index, m, f);
            && (ok <==> f.resolved.Some?)
            && (if ok then
                  var inLib := MayGo(index, Entry(Lib, f.name), f.resolved.value);
                  && IsPlaced(m, t, Entry(if inLib then Lib else Override(m.inst), f.name), f.resolved.value)
                  && (t.override <==> m.override || !inLib)
                else t == m.(override := true))
  {
    AcceptedExactly(index, m, Lib, f);
    AcceptedExactly(index, m.(override := true), Override(m.inst), f);
  }

  /** As long as a manifest can change, its own library folder is clear of the session: so over every run the
      fallback works for every library that can be resolved, and is used exactly for those that may not go to
      `lib`. */
  lemma FallbackNeverConflicts(es: seq<Event>, n: nat, f: File)
    requires Run(INIT, es) && n in After(INIT, es).live
    ensures var s := After(INIT, es);
            var (m, ok) := AddDependency(s.index, s.live[n], f);
            && (forall e | e in s.index :: e.folder != Override(n))
            && (ok <==> f.resolved.Some?)
            && (ok ==>
                  var inLib := MayGo(s.index, Entry(Lib, f.name), f.resolved.value);
                  && IsPlaced(s.live[n], m, Entry(if inLib then Lib else Override(n), f.name), f.resolved.value)
                  && (m.override <==> s.live[n].override || !inLib))
  {
    RunInv(INIT, es);
    var s := After(INIT, es);
    assert s.live[n].inst == n;
    DependencyPlacedExactly(s.index, s.live[n], f);
  }

  // ---------------------------------------------------------------- manifests that merge

  /** Where its entries were already taken in this index, a manifest has them from the same source. */
  predicate Agrees(index: Index, m: Manifest)
    requires WellFormed(m)
  {
    forall e | e in m.entries && e in index :: m.sources[e.name] == index[e]
  }

  lemma PlacedAgrees(base: Index, index: Index, m: Manifest, t: Manifest, e: Entry, p: Path)
    requires WellFormed(m) && WellFormed(t) && Agrees(base, m) && Extends(base, index)
    requires IsPlaced(m, t, e, p) && MayGo(index, e, p) && OneFolderEach(t)
    ensures Agrees(base, t)
  {
    forall d | d in t.entries && d in base ensures t.sources[d.name] == base[d]
    {
      if d.name == e.name { assert d == e; }
    }
  }

  lemma AddAgrees(base: Index, s: State, ev: Event)
    requires Inv(s) && Enabled(s, ev) && ev.Add? && Extends(base, s.index) && Agrees(base, s.live[ev.n])
    requires WellFormed(Next(s, ev).live[ev.n]) && OneFolderEach(Next(s, ev).live[ev.n])
    ensures Agrees(base, Next(s, ev).live[ev.n])
  {
    var m := s.live[ev.n];
    AcceptedExactly(s.index, m, ev.folder, ev.file);
    if CheckAndAdd(s.index, m, ev.folder, ev.file).Some? {
      PlacedAgrees(base, s.index, m, Next(s, ev).live[ev.n], Entry(ev.folder, ev.file.name), ev.file.resolved.value);
    }
  }

  lemma DependAgrees(base: Index, s: State, ev: Event)
    requires Inv(s) && Enabled(s, ev) && ev.Depend? && Extends(base, s.index) && Agrees(base, s.live[ev.n])
    requires WellFormed(Next(s, ev).live[ev.n]) && OneFolderEach(Next(s, ev).live[ev.n])
    ensures Agrees(base, Next(s, ev).live[ev.n])
  {
    var m, f, t := s.live[ev.n], ev.file, Next(s, ev).live[ev.n];
    assert m.inst == ev.n;
    DependencyPlacedExactly(s.index, m, f);
    if f.resolved.Some? {
      var lib := Entry(Lib, f.name);
      var e := if MayGo(s.index, lib, f.resolved.value) then lib else Entry(Override(ev.n), f.name);
      PlacedAgrees(base, s.index, m, t, e, f.resolved.value);
    }
  }

  lemma StepAgrees(base: Index, s: State, ev: Event, n: nat)
    requires Inv(s) && Enabled(s, ev) && n in s.live && !Ends(ev, n) && Extends(base, s.index)
    requires Inv(Next(s, ev)) && n in Next(s, ev).live && OneFolderEach(Next(s, ev).live[n])
    requires Agrees(base, s.live[n])
    ensures Agrees(base, Next(s, ev).live[n])
  {
    if ev.Add? && ev.n == n {
      AddAgrees(base, s, ev);
    } else if ev.Depend? && ev.n == n {
      DependAgrees(base, s, ev);
    } else {
      OthersStay(s, ev, n);
    }
  }

  lemma StepKeepsEntries(s: State, ev: Event, n: nat)
    requires Inv(s) && Enabled(s, ev) && n in s.live && !Ends(ev, n)
    ensures n in Next(s, ev).live && s.live[n].entries <= Next(s, ev).live[n].entries
  {
    if !(ev.Add? && ev.n == n) && !(ev.Depend? && ev.n == n) { OthersStay(s, ev, n); }
  }

  lemma {:induction false} EntriesStay(s: State, es: seq<Event>, n: nat)
    requires Inv(s) && Run(s, es) && n in s.live && StaysOpen(es, n)
    ensures n in After(s, es).live && s.live[n].entries <= After(s, es).live[n].entries
    decreases es
  {
    if es != [] {
      assert !Ends(es[0], n);
      NextInv(s, es[0]);
      StepKeepsEntries(s, es[0], n);
      OpenRest(es, n);
      EntriesStay(Next(s, es[0]), es[1..], n);
    }
  }

  lemma FewerFolders(m: Manifest, t: Manifest)
    requires m.entries <= t.entries && OneFolderEach(t)
    ensures OneFolderEach(m)
  {
  }

  lemma StepExtends(base: Index, s: State, ev: Event)
    requires Enabled(s, ev) && Extends(base, s.index)
    ensures Extends(base, Next(s, ev).index)
  {
  }

  lemma {:induction false} RunAgrees(base: Index, s: State, es: seq<Event>, n: nat)
    requires Inv(s) && Run(s, es) && n in s.live && StaysOpen(es, n) && Extends(base, s.index)
    requires Agrees(base, s.live[n])
    requires n in After(s, es).live && OneFolderEach(After(s, es).live[n])
    ensures WellFormed(After(s, es).live[n]) && Agrees(base, After(s, es).live[n])
    decreases es
  {
    if es != [] {
      var t := Next(s, es[0]);
      assert !Ends(es[0], n);
      NextInv(s, es[0]);
      StepKeepsEntries(s, es[0], n);
      OpenRest(es, n);
      EntriesStay(t, es[1..], n);
      FewerFolders(t.live[n], After(s, es).live[n]);
      StepAgrees(base, s, es[0], n);
      StepExtends(base, s, es[0]);
      RunAgrees(base, t, es[1..], n);
    }
  }

  /** What the check on each file is for: a manifest that puts each name in one folder only never clashes with what
      was sent before it was made. Whatever else the session did while it was filled, it can be merged exactly
      when no other manifest has meanwhile filled one of its places from another path. */
  lemma MergesExactly(s: State, es: seq<Event>, n: nat)
    requires Inv(s) && n in s.live && s.live[n].entries == {} && Run(s, es) && StaysOpen(es, n)
    requires n in After(s, es).live && OneFolderEach(After(s, es).live[n])
    ensures var t := After(s, es);
            && WellFormed(t.live[n])
            && (CanMerge(t.index, t.live[n])
                <==> forall e | e in t.live[n].entries && e in t.index && e !in s.index ::
                       t.index[e] == t.live[n].sources[e.name])
  {
    RunAgrees(s.index, s, es, n);
    SourcesNeverChange(s, es);
  }

  /** Searching the nodes along a path. */
  function Search(store: set<Entry>, path: seq<Folder>, name: Name): Option<Folder> {
    if path == [] then None
    else if Entry(path[0], name) in store then Some(path[0])
    else Search(store, path[1..], name)
  }

  /** A manifest's own copy of a library, on the nodes. */
  predicate Overrides(k: Merge, name: Name) {
    k.started && Entry(Override(k.inst), name) in k.archive
  }

  lemma {:induction false} UnpackedBy(s: State, n: nat, e: Entry)
    requires LogInv(s) && n <= |s.log|
    ensures e in Unpacked(s.log[..n]) <==> exists i :: 0 <= i < n && s.log[i].started && e in s.log[i].archive
  {
    if n > 0 {
      UnpackedBy(s, n - 1, e);
      assert s.log[..n][..n - 1] == s.log[..n - 1];
    }
  }

  /** The copy in a merged manifest's folder can only be its own. */
  lemma OwnFolder(s: State, k: nat, name: Name)
    requires LogInv(s) && k < |s.log|
    ensures Entry(Override(s.log[k].inst), name) in Unpacked(s.log) <==> Overrides(s.log[k], name)
  {
    var e := Entry(Override(s.log[k].inst), name);
    UnpackedBy(s, |s.log|, e);
    assert s.log[..|s.log|] == s.log;
    forall i | 0 <= i < |s.log| && e in s.log[i].archive ensures i == k { assert MergeInv(s, s.log[i]); }
  }

  lemma SearchHead(store: set<Entry>, f: Folder, rest: seq<Folder>, name: Name)
    ensures Search(store, [f] + rest, name) == if Entry(f, name) in store then Some(f) else Search(store, rest, name)
  {
    assert ([f] + rest)[1..] == rest;
  }

  /** Merge k is the last of the first n with a copy of its own. */
  predicate IsNewest(log: seq<Merge>, n: nat, k: nat, name: Name)
    requires n <= |log|
  {
    k < n && Overrides(log[k], name) && forall j | k < j < n :: !Overrides(log[j], name)
  }

  predicate NoneOverrides(log: seq<Merge>, n: nat, name: Name)
    requires n <= |log|
  {
    forall j | 0 <= j < n :: !Overrides(log[j], name)
  }

  /** What looking in the latest folder does. */
  lemma SearchStep(s: State, n: nat, name: Name)
    requires LogInv(s) && 0 < n <= |s.log|
    ensures Search(Unpacked(s.log), PathOf(s.log[..n]), name)
            == if Overrides(s.log[n - 1], name) then Some(Override(s.log[n - 1].inst))
               else Search(Unpacked(s.log), PathOf(s.log[..n - 1]), name)
  {
    var rest, last := PathOf(s.log[..n - 1]), s.log[n - 1];
    OwnFolder(s, n - 1, name);
    assert s.log[..n][..n - 1] == s.log[..n - 1];
    assert MergeInv(s, last);
    SearchHead(Unpacked(s.log), Override(last.inst), rest, name);
  }

  lemma {:induction false} SearchNewest(s: State, n: nat, k: nat, name: Name)
    requires LogInv(s) && n <= |s.log| && IsNewest(s.log, n, k, name)
    ensures Search(Unpacked(s.log), PathOf(s.log[..n]), name) == Some(Override(s.log[k].inst))
  {
    SearchStep(s, n, name);
    if k < n - 1 { SearchNewest(s, n - 1, k, name); }
  }

  lemma {:induction false} SearchBase(s: State, n: nat, name: Name)
    requires LogInv(s) && n <= |s.log| && NoneOverrides(s.log, n, name)
    ensures Search(Unpacked(s.log), PathOf(s.log[..n]), name)
            == if Entry(Lib, name) in Unpacked(s.log) then Some(Lib) else None
  {
    if n > 0 {
      SearchStep(s, n, name);
      SearchBase(s, n - 1, name);
    }
  }

  /** After every run the search path is the folders of merged manifests, newest first, then `lib`; and a
      search finds the copy sent by the newest manifest that has one of its own. */
  lemma NewestOverrideFound(es: seq<Event>, name: Name, k: nat)
    requires Run(INIT, es) && IsNewest(After(INIT, es).log, |After(INIT, es).log|, k, name)
    ensures var s := After(INIT, es);
            s.path == PathOf(s.log) && Search(Unpacked(s.log), s.path, name) == Some(Override(s.log[k].inst))
  {
    RunInv(INIT, es);
    var s := After(INIT, es);
    SearchNewest(s, |s.log|, k, name);
    assert s.log[..|s.log|] == s.log;
  }

  /** It finds the copy in `lib` only if no manifest has one of its own. */
  lemma BaseFoundOtherwise(es: seq<Event>, name: Name)
    requires Run(INIT, es) && NoneOverrides(After(INIT, es).log, |After(INIT, es).log|, name)
    ensures var s := After(INIT, es);
            Search(Unpacked(s.log), s.path, name)
            == if Entry(Lib, name) in Unpacked(s.log) then Some(Lib) else None
  {
    RunInv(INIT, es);
    var s := After(INIT, es);
    SearchBase(s, |s.log|, name);
    assert s.log[..|s.log|] == s.log;
  }

  // ---------------------------------------------------------------- daemon numbers

  lemma {:induction false} StartedGrows(log: seq<Merge>, i: nat, j: nat)
    requires i < j <= |log|
    ensures StartedIn(log[..i]) + (if log[i].started then 1 else 0) <= StartedIn(log[..j])
  {
    assert log[..j][..j - 1] == log[..j - 1];
    if i + 1 < j { StartedGrows(log, i, j - 1); }
  }

  lemma LogNumbers(log: seq<Merge>, i: nat, j: nat)
    requires i < j < |log| && forall h | 0 <= h < |log| :: log[h].number == StartedIn(log[..h])
    ensures log[i].number <= log[j].number <= StartedIn(log)
    ensures log[i].started ==> log[i].number < log[j].number
    ensures !log[i].started && j == i + 1 ==> log[i].number == log[j].number
  {
    StartedGrows(log, i, j);
    StartedGrows(log, j, |log|);
    assert log[..|log|] == log;
    if j == i + 1 { assert log[..j][..i] == log[..i]; }
  }

  /** Daemons that were started have different, increasing numbers, all below the next one; the number of a
      daemon that failed to start is used again. */
  lemma NumbersInOrder(es: seq<Event>, i: nat, j: nat)
    requires Run(INIT, es) && i < j < |After(INIT, es).log|
    ensures var log := After(INIT, es).log;
            && log[i].number <= log[j].number <= After(INIT, es).number
            && (log[i].started ==> log[i].number < log[j].number)
            && (!log[i].started && j == i + 1 ==> log[i].number == log[j].number)
  {
    RunInv(INIT, es);
    LogNumbers(After(INIT, es).log, i, j);
  }
}
