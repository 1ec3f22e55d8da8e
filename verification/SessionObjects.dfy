/** The session and manifest objects. Each method is tied to a step of the staging state machine. The sets of
    names by folder are one set of entries, which is gone through in any order. */
module SessionObjects {
  import opened Bytes
  import opened EnvStrings
  import opened Options
  import opened Staging
  import Pick

  const COLON: byte := 58

  /** A map of strings that says the same as an index. */
  ghost predicate Renders(paths: map<bytes, Path>, index: Index) {
    && (forall e | e in index :: Key(e) in paths && paths[Key(e)] == index[e])
    && (forall k | k in paths :: exists e :: e in index && Key(e) == k)
  }

  lemma LookupAgrees(paths: map<bytes, Path>, index: Index, e: Entry)
    requires Renders(paths, index)
    ensures Key(e) in paths <==> e in index
    ensures e in index ==> paths[Key(e)] == index[e]
  {
    if Key(e) in paths {
      var d :| d in index && Key(d) == Key(e);
      KeyInjective(d, e);
    }
  }

  lemma InsertAgrees(paths: map<bytes, Path>, index: Index, e: Entry, p: Path)
    requires Renders(paths, index) && e !in index
    ensures Renders(paths[Key(e) := p], index[e := p])
  {
    var more, with := paths[Key(e) := p], index[e := p];
    forall d | d in with ensures Key(d) in more && more[Key(d)] == with[d]
    {
      if d != e {
        if Key(d) == Key(e) { KeyInjective(d, e); }
      }
    }
    forall k | k in more ensures exists d :: d in with && Key(d) == k
    {
      if k == Key(e) {
        assert e in with;
      } else {
        var d :| d in index && Key(d) == k;
        assert d in with;
      }
    }
  }

  /** The search path as the daemon is given it. */
  function Joined(stage: bytes, path: seq<Folder>): bytes {
    if path == [] then []
    else
      stage + [SLASH] + FolderName(path[0]) + if |path| == 1 then [] else [COLON] + Joined(stage, path[1..])
  }

  lemma JoinedCons(stage: bytes, f: Folder, path: seq<Folder>)
    requires path != []
    ensures Joined(stage, [f] + path) == stage + [SLASH] + FolderName(f) + ([COLON] + Joined(stage, path))
  {
    assert ([f] + path)[1..] == path;
  }

  /** A search path as the loader takes it apart, at its colons. */
  function SplitPath(s: bytes): seq<bytes>
    decreases |s|
  {
    if COLON !in s then [s]
    else
      Rejoin(s, COLON);
      [UpTo(s, COLON)] + SplitPath(AfterFirst(s, COLON))
  }

  lemma PlaceHasNoColon(stage: bytes, f: Folder)
    requires COLON !in stage
    ensures COLON !in stage + [SLASH] + FolderName(f)
  {
    if f.Override? { assert COLON !in Decimal(f.n); }
  }

  /** What the loader searches: the stage directory's folders, in the order of the path. */
  lemma {:induction false} PathReadsBack(stage: bytes, path: seq<Folder>, i: nat)
    requires COLON !in stage && i < |path|
    ensures var places := SplitPath(Joined(stage, path));
            |places| == |path| && places[i] == stage + [SLASH] + FolderName(path[i])
    decreases |path|
  {
    var place := stage + [SLASH] + FolderName(path[0]);
    PlaceHasNoColon(stage, path[0]);
    if |path| == 1 {
      assert place + [] == place;
    } else {
      var rest := Joined(stage, path[1..]);
      assert Joined(stage, path) == place + ([COLON] + rest) == place + [COLON] + rest;
      SplitAtFirst(place, COLON, rest);
      assert (place + [COLON] + rest)[|place|] == COLON;
      PathReadsBack(stage, path[1..], if i > 0 then i - 1 else 0);
    }
  }

  class ManifestObject {
    const inst: nat
    const session: SessionObject
    var entries: set<Entry>
    var sources: map<Name, Path>
    var override: bool
    var isValid: bool

    constructor (session: SessionObject, inst: nat)
      ensures this.session == session && isValid
      ensures Value() == Manifest(inst, {}, map[], false)
    {
      this.session, this.inst := session, inst;
      entries, sources, override, isValid := {}, map[], false, true;
    }

    function Value(): Manifest
      reads this
    {
      Manifest(inst, entries, sources, override)
    }

    /** A refused file leaves the manifest alone. */
    method CheckAndAdd(folder: Folder, f: File) returns (ok: bool)
      requires session.Valid()
      modifies this`entries, this`sources
      ensures var r := Staging.CheckAndAdd(session.index, old(Value()), folder, f);
              ok == r.Some? && Value() == if ok then r.value else old(Value())
    {
      if f.resolved.None? { return false; }
      var shipped := session.GetSourcePath(Entry(folder, f.name));
      if shipped != [] && shipped != f.resolved.value { return false; }
      entries := entries + {Entry(folder, f.name)};
      sources := sources[f.name := f.resolved.value];
      ok := true;
    }

    method AddDependency(f: File) returns (ok: bool)
      requires session.Valid()
      modifies this`entries, this`sources, this`override
      ensures (Value(), ok) == Staging.AddDependency(session.index, old(Value()), f)
    {
      ok := CheckAndAdd(Lib, f);
      if !ok {
        override := true;
        ok := CheckAndAdd(Override(inst), f);
      }
    }

    method AddLibraries(libraries: seq<File>) returns (ok: bool)
      requires session.Valid()
      modifies this`entries, this`sources, this`override
      ensures (Value(), ok) == Dependencies(session.index, old(Value()), libraries)
    {
      ok := true;
      ghost var m := Value();
      assert libraries[..0] == [];
      for i := 0 to |libraries|
        invariant session.Valid() && ok
        invariant (Value(), true) == Dependencies(session.index, m, libraries[..i])
      {
        assert libraries[..i + 1][..i] == libraries[..i];
        ok := AddDependency(libraries[i]);
        if !ok {
          DependenciesFail(session.index, m, libraries, i + 1);
          return;
        }
      }
      assert libraries[..|libraries|] == libraries;
    }

    /** A binary or library the client names, then the libraries it needs; the first that fails ends it. */
    method AddWithLibraries(folder: Folder, f: File, libraries: seq<File>) returns (ok: bool)
      requires session.Valid()
      modifies this`entries, this`sources, this`override
      ensures !isValid ==> !ok && Value() == old(Value())
      ensures isValid ==> (Value(), ok) == AddedAll(session.index, old(Value()), folder, f, libraries)
    {
      if !isValid { return false; }
      ok := CheckAndAdd(folder, f);
      if !ok { return; }
      ok := AddLibraries(libraries);
    }

    /** For the session this is a run of additions, whatever other manifests it has. */
    method Add(folder: Folder, f: File, libraries: seq<File>) returns (ok: bool, ghost es: seq<Event>)
      requires session.Sound() && this in session.manifests && !folder.Override?
      modifies this`entries, this`sources, this`override
      ensures session.Sound()
      ensures Run(old(session.Whole()), es) && session.Whole() == After(old(session.Whole()), es)
      ensures ok == AddedAll(session.index, old(Value()), folder, f, libraries).1 && Adds(es, inst, folder, f, libraries)
    {
      session.LiveHas(this);
      es := AddedAllRuns(session.Whole(), inst, folder, f, libraries);
      RunInv(session.Whole(), es);
      ok := AddOwned(folder, f, libraries);
    }

    method AddOwned(folder: Folder, f: File, libraries: seq<File>) returns (ok: bool)
      requires session.Valid() && session.Owning() && this in session.manifests
      modifies this`entries, this`sources, this`override
      ensures session.Valid() && session.Owning()
      ensures (Value(), ok) == AddedAll(session.index, old(Value()), folder, f, libraries)
      ensures session.Live() == old(session.Live())[inst := Value()]
    {
      ghost var live := session.Live();
      ok := AddWithLibraries(folder, f, libraries);
      session.LiveIs(live[inst := Value()]);
    }

    /** Duplicates lose their place and their name its source. */
    method TakeOut(duplicates: set<Entry>)
      modifies this`entries, this`sources
      ensures entries == old(entries) - duplicates
      ensures sources == old(sources) - Names(duplicates)
    {
      var todo := duplicates;
      assert duplicates - todo == {};
      assert sources - Names({}) == sources;
      while todo != {}
        invariant todo <= duplicates
        invariant entries == old(entries) - (duplicates - todo)
        invariant sources == old(sources) - Names(duplicates - todo)
        decreases |todo|
      {
        var d := Pick.AnyOf(todo);
        entries := entries - {d};
        sources := sources - {d.name};
        assert duplicates - (todo - {d}) == duplicates - todo + {d};
        NamesMore(duplicates - todo, d);
        todo := todo - {d};
      }
    }

    /** Entries whose source is gone are passed over. */
    method FillArchive(visible: set<Path>) returns (archive: map<Entry, Item>)
      ensures archive == Filled(entries, sources, visible)
    {
      archive := map[];
      var todo := entries;
      assert entries - todo == {};
      while todo != {}
        invariant todo <= entries
        invariant archive == Filled(entries - todo, sources, visible)
        decreases |todo|
      {
        var e := Pick.AnyOf(todo);
        assert entries - (todo - {e}) == entries - todo + {e};
        FilledMore(entries - todo, e, sources, visible);
        if e.name in sources { archive := archive[e := ItemFor(sources[e.name], visible)]; }
        todo := todo - {e};
      }
    }

    /** What is left of a merged manifest once its duplicates are out. */
    method Pack(duplicates: set<Entry>, visible: set<Path>, ghost was: Index) returns (archive: map<Entry, Item>)
      requires WellFormed(Value()) && duplicates == Duplicates(was, Value())
      modifies this`entries, this`sources
      ensures archive == Archive(was, old(Value()), visible)
    {
      ArchiveFilled(was, Value(), visible);
      TakeOut(duplicates);
      archive := FillArchive(visible);
    }
  }

  function ItemFor(p: Path, visible: set<Path>): Item {
    if p in visible then Link(p) else Copy(p)
  }

  /** The archive of these entries, as far as they have a source. */
  function Filled(entries: set<Entry>, sources: map<Name, Path>, visible: set<Path>): map<Entry, Item> {
    map e | e in entries && e.name in sources :: ItemFor(sources[e.name], visible)
  }

  lemma FilledMore(entries: set<Entry>, e: Entry, sources: map<Name, Path>, visible: set<Path>)
    ensures Filled(entries + {e}, sources, visible)
            == if e.name in sources then Filled(entries, sources, visible)[e := ItemFor(sources[e.name], visible)]
               else Filled(entries, sources, visible)
  {
  }

  function Names(entries: set<Entry>): set<Name> {
    set e | e in entries :: e.name
  }

  lemma NamesMore(entries: set<Entry>, e: Entry)
    ensures Names(entries + {e}) == Names(entries) + {e.name}
  {
    forall n | n in Names(entries + {e}) ensures n in Names(entries) + {e.name} {
      var d :| d in entries + {e} && d.name == n;
      assert d != e ==> d in entries;
    }
    forall n | n in Names(entries) ensures n in Names(entries + {e}) {
      var d :| d in entries && d.name == n;
      assert d in entries + {e};
    }
    assert e in entries + {e};
  }

  /** Adding libraries one after another until one fails. */
  function Dependencies(index: Index, m: Manifest, libraries: seq<File>): (Manifest, bool) {
    if libraries == [] then (m, true)
    else
      var before := Dependencies(index, m, libraries[..|libraries| - 1]);
      if before.1 then Staging.AddDependency(index, before.0, libraries[|libraries| - 1]) else before
  }

  function AddedAll(index: Index, m: Manifest, folder: Folder, f: File, libraries: seq<File>): (Manifest, bool) {
    match Staging.CheckAndAdd(index, m, folder, f)
    case None => (m, false)
    case Some(added) => Dependencies(index, added, libraries)
  }

  /** The state with one manifest replaced. */
  function With(s: State, n: nat, m: Manifest): State {
    s.(live := s.live[n := m])
  }

  lemma {:induction false} DependenciesRun(s: State, n: nat, libraries: seq<File>) returns (es: seq<Event>)
    requires n in s.live
    ensures Run(s, es) && After(s, es) == With(s, n, Dependencies(s.index, s.live[n], libraries).0)
    ensures |es| <= |libraries| && forall i | 0 <= i < |es| :: es[i] == Depend(n, libraries[i])
    ensures Dependencies(s.index, s.live[n], libraries).1 ==> |es| == |libraries|
  {
    if libraries == [] {
      es := [];
      assert s.live[n := s.live[n]] == s.live;
    } else {
      var before, last := libraries[..|libraries| - 1], libraries[|libraries| - 1];
      es := DependenciesRun(s, n, before);
      if Dependencies(s.index, s.live[n], before).1 {
        var t := After(s, es);
        RunOnce(s, es, t, Depend(n, last));
        es := es + [Depend(n, last)];
        assert Next(t, Depend(n, last)).live == s.live[n := AddDependency(s.index, t.live[n], last).0];
      }
    }
  }

  /** The calls that add a file and, one after another, as far as it goes, the libraries it needs. */
  ghost predicate Adds(es: seq<Event>, n: nat, folder: Folder, f: File, libraries: seq<File>) {
    && 1 <= |es| <= 1 + |libraries| && es[0] == Event.Add(n, folder, f)
    && forall i | 1 <= i < |es| :: es[i] == Depend(n, libraries[i - 1])
  }

  lemma {:induction false} DependenciesExactly(index: Index, m: Manifest, libraries: seq<File>)
    requires forall e | e in index :: e.folder != Override(m.inst)
    ensures var (t, ok) := Dependencies(index, m, libraries);
            t.inst == m.inst && (ok <==> forall i | 0 <= i < |libraries| :: libraries[i].resolved.Some?)
    decreases |libraries|
  {
    if libraries != [] {
      var init, last := libraries[..|libraries| - 1], libraries[|libraries| - 1];
      DependenciesExactly(index, m, init);
      DependencyPlacedExactly(index, Dependencies(index, m, init).0, last);
      assert forall i | 0 <= i < |init| :: libraries[i] == init[i];
    }
  }

  /** A file and its libraries are all added exactly when the file is accepted and every library can be resolved: a
      library never fails for want of a place. */
  lemma AllAddedExactly(index: Index, m: Manifest, folder: Folder, f: File, libraries: seq<File>)
    requires forall e | e in index :: e.folder != Override(m.inst)
    ensures AddedAll(index, m, folder, f, libraries).1
            <==> && f.resolved.Some? && MayGo(index, Entry(folder, f.name), f.resolved.value)
                 && forall i | 0 <= i < |libraries| :: libraries[i].resolved.Some?
  {
    AcceptedExactly(index, m, folder, f);
    var added := Staging.CheckAndAdd(index, m, folder, f);
    if added.Some? { DependenciesExactly(index, added.value, libraries); }
  }

  lemma AddedAllRuns(s: State, n: nat, folder: Folder, f: File, libraries: seq<File>) returns (es: seq<Event>)
    requires n in s.live && !folder.Override?
    ensures Run(s, es) && After(s, es) == With(s, n, AddedAll(s.index, s.live[n], folder, f, libraries).0)
    ensures Adds(es, n, folder, f, libraries)
  {
    var add := Event.Add(n, folder, f);
    var added := Staging.CheckAndAdd(s.index, s.live[n], folder, f);
    RunOne(s, add);
    es := [add];
    if added.None? {
      assert s.live[n := s.live[n]] == s.live;
    } else {
      var t := With(s, n, added.value);
      var more := DependenciesRun(t, n, libraries);
      RunAppend(s, es, more);
      assert [add] + more == es + more;
      es := es + more;
      assert With(t, n, Dependencies(s.index, added.value, libraries).0).live
          == s.live[n := Dependencies(s.index, added.value, libraries).0];
    }
  }

  lemma {:induction false} DependenciesFail(index: Index, m: Manifest, libraries: seq<File>, i: nat)
    requires i <= |libraries| && !Dependencies(index, m, libraries[..i]).1
    ensures Dependencies(index, m, libraries) == Dependencies(index, m, libraries[..i])
    decreases |libraries| - i
  {
    if i < |libraries| {
      assert libraries[..i + 1][..i] == libraries[..i];
      DependenciesFail(index, m, libraries, i + 1);
    } else {
      assert libraries[..i] == libraries;
    }
  }

  /** How sending a manifest ended. */
  datatype Outcome = NotOwned | NothingToSend | Conflict | NotDelivered | NotStarted | Done

  class SessionObject {
    const stage: bytes
    var sourcePaths: map<bytes, Path>
    var manifests: set<ManifestObject>
    var manifestCount: nat
    var number: nat
    var ldLibraryPath: bytes
    ghost var index: Index
    ghost var path: seq<Folder>
    ghost var log: seq<Merge>

    ghost predicate Valid()
      reads this
    {
      Renders(sourcePaths, index) && path != [] && ldLibraryPath == Joined(stage, path)
    }

    /** The session, with these as the manifests it owns. */
    ghost function View(live: map<nat, Manifest>): State
      reads this
    {
      State(index, live, manifestCount, path, number, log)
    }

    /** Its manifests know it, can still be changed, and are told apart by their numbers. */
    ghost predicate Owning()
      reads this, manifests
    {
      && (forall m | m in manifests :: m.session == this && m.isValid && m.inst <= manifestCount)
      && (forall m, k | m in manifests && k in manifests && m.inst == k.inst :: m == k)
    }

    /** The manifests the session owns, by number. */
    ghost function Live(): map<nat, Manifest>
      requires Owning()
      reads this, manifests
    {
      map m | m in manifests :: m.inst := m.Value()
    }

    lemma LiveHas(m: ManifestObject)
      requires Owning() && m in manifests
      ensures m.inst in Live() && Live()[m.inst] == m.Value()
    {
    }

    lemma LiveIs(live: map<nat, Manifest>)
      requires Owning()
      requires forall m | m in manifests :: m.inst in live && live[m.inst] == m.Value()
      requires forall n | n in live :: exists m :: m in manifests && m.inst == n
      ensures Live() == live
    {
    }

    /** The session as the state machine sees it. */
    ghost function Whole(): State
      requires Owning()
      reads this, manifests
    {
      View(Live())
    }

    /** What every method keeps. */
    ghost predicate Sound()
      reads this, manifests
    {
      Valid() && Owning() && Inv(Whole())
    }

    constructor (stage: bytes)
      ensures Sound() && manifests == {} && Whole() == INIT
    {
      this.stage := stage;
      sourcePaths, manifests, manifestCount, number := map[], {}, 0, 0;
      ldLibraryPath := stage + [SLASH] + FolderName(Lib);
      index, path, log := map[], [Lib], [];
      new;
      assert Live() == map[];
    }

    /** The empty string if nothing was sent there. */
    method GetSourcePath(e: Entry) returns (p: bytes)
      requires Valid()
      ensures p == if e in index then index[e] else []
    {
      LookupAgrees(sourcePaths, index, e);
      p := if Key(e) in sourcePaths then sourcePaths[Key(e)] else [];
    }

    /** One step, whatever other manifests there are. */
    method CreateManifest() returns (m: ManifestObject)
      requires Sound()
      modifies this`manifests, this`manifestCount
      ensures Sound() && fresh(m) && manifests == old(manifests) + {m}
      ensures m.Value() == Manifest(old(manifestCount) + 1, {}, map[], false)
      ensures Whole() == Next(old(Whole()), Create)
    {
      CreateSteps(Whole());
      m := CreateOwned();
    }

    method CreateOwned() returns (m: ManifestObject)
      requires Valid() && Owning()
      modifies this`manifests, this`manifestCount
      ensures Valid() && Owning() && fresh(m) && manifests == old(manifests) + {m}
      ensures m.Value() == Manifest(old(manifestCount) + 1, {}, map[], false)
      ensures Whole() == Created(old(Whole()))
    {
      m := TakeNew();
    }

    method TakeNew() returns (m: ManifestObject)
      requires Owning()
      modifies this`manifests, this`manifestCount
      ensures Owning() && fresh(m) && manifests == old(manifests) + {m} && manifestCount == old(manifestCount) + 1
      ensures m.Value() == Manifest(manifestCount, {}, map[], false)
      ensures Live() == old(Live())[manifestCount := Manifest(manifestCount, {}, map[], false)]
    {
      ghost var live, others := Live(), manifests;
      manifestCount := manifestCount + 1;
      m := new ManifestObject(this, manifestCount);
      manifests := manifests + {m};
      forall n | n in live ensures exists k :: k in manifests && k.inst == n
      {
        var k :| k in others && k.inst == n;
        assert k in manifests;
      }
      assert m in manifests;
      LiveIs(live[m.inst := m.Value()]);
    }

    /** Registers an entry that is new and says whether it was there already; nothing, if it clashes. */
    method MergeEntry(e: Entry, source: Path, gone: set<Path>) returns (ok: bool, duplicate: bool)
      requires Valid()
      modifies this`sourcePaths, this`index
      ensures Valid()
      ensures ok == !(if e in old(index) then old(index)[e] != source else source in gone)
      ensures duplicate == (e in old(index))
      ensures index == if ok && !duplicate then old(index)[e := source] else old(index)
    {
      LookupAgrees(sourcePaths, index, e);
      var key := Key(e);
      duplicate := key in sourcePaths;
      if duplicate {
        ok := sourcePaths[key] == source;
      } else {
        ok := source !in gone;
        if ok {
          InsertAgrees(sourcePaths, index, e, source);
          sourcePaths := sourcePaths[key := source];
          index := index[e := source];
        }
      }
    }

    method MergeNext(m: Manifest, gone: set<Path>, e: Entry, duplicates: set<Entry>, ghost was: Index,
                     ghost visited: set<Entry>)
      returns (ok: bool, more: set<Entry>)
      requires Valid() && WellFormed(m) && e in m.entries - visited
      requires Merged(was, m, gone, visited, index, duplicates)
      modifies this`sourcePaths, this`index
      ensures Valid()
      ensures if ok then Merged(was, m, gone, visited + {e}, index, more)
              else Merged(was, m, gone, visited, index, more) && CanCollide(was, m, gone, visited)
    {
      var duplicate;
      MergedStep(was, m, gone, visited, index, duplicates, e);
      ok, duplicate := MergeEntry(e, m.sources[e.name], gone);
      more := if ok && duplicate then duplicates + {e} else duplicates;
    }

    /** Registers entries until one clashes, and collects those that were already there. `gone` is the sources
        that no longer resolve. */
    method MergeTransfered(m: Manifest, gone: set<Path>)
      returns (ok: bool, duplicates: set<Entry>, ghost visited: set<Entry>)
      requires Valid() && WellFormed(m)
      modifies this`sourcePaths, this`index
      ensures Valid()
      ensures Merged(old(index), m, gone, visited, index, duplicates)
      ensures if ok then visited == m.entries else CanCollide(old(index), m, gone, visited)
    {
      ok, duplicates, visited := true, {}, {};
      ghost var was := index;
      var todo := m.entries;
      NothingMerged(was, m, gone);
      while todo != {}
        invariant Valid() && todo <= m.entries && visited !! todo && visited + todo == m.entries
        invariant Merged(was, m, gone, visited, index, duplicates)
        decreases |todo|
      {
        var e := Pick.AnyOf(todo);
        ok, duplicates := MergeNext(m, gone, e, duplicates, was, visited);
        if !ok { return; }
        todo, visited := todo - {e}, visited + {e};
      }
    }

    method Prepend(inst: nat)
      requires Valid()
      modifies this`ldLibraryPath, this`path
      ensures Valid() && path == [Override(inst)] + old(path)
    {
      JoinedCons(stage, Override(inst), path);
      ldLibraryPath := stage + [SLASH] + FolderName(Override(inst)) + ([COLON] + ldLibraryPath);
      path := [Override(inst)] + path;
    }

    /** Puts the folder of a merged manifest on the search path and ships its archive. */
    method Deliver(inst: nat, override: bool, archive: map<Entry, Item>, delivered: bool, started: bool)
      returns (outcome: Outcome)
      requires Valid()
      modifies this`ldLibraryPath, this`path, this`number, this`log
      ensures Valid()
      ensures outcome == if !delivered then NotDelivered else if !started then NotStarted else Done
      ensures path == if override then [Override(inst)] + old(path) else old(path)
      ensures number == if outcome.Done? then old(number) + 1 else old(number)
      ensures log == old(log) + [Merge(inst, override, archive, delivered, outcome.Done?, old(number))]
    {
      if override { Prepend(inst); }
      log := log + [Merge(inst, override, archive, delivered, delivered && started, number)];
      if !delivered { return NotDelivered; }
      if !started { return NotStarted; }
      number := number + 1;
      outcome := Done;
    }

    /** Merges a manifest, ships what is new and starts the daemon that unpacks it; `live` is any manifests of
        which this is one. */
    method ShipManifest(m: ManifestObject, visible: set<Path>, gone: set<Path>, delivered: bool, started: bool,
                        ghost live: map<nat, Manifest>)
      returns (outcome: Outcome, ghost ev: Event)
      requires Valid() && WellFormed(m.Value()) && m.sources != map[] && m.inst in live && live[m.inst] == m.Value()
      modifies this`sourcePaths, this`index, this`ldLibraryPath, this`path, this`number, this`log
      modifies m`entries, m`sources
      ensures Valid()
      ensures Stepped(old(View(live)), ev, View(live - {m.inst}))
      ensures Matches(outcome, ev, m.inst, visible, gone, delivered, started)
      ensures !outcome.NotOwned? && !outcome.NothingToSend?
    {
      ghost var value, before := m.Value(), View(live);
      var ok, duplicates, visited := MergeTransfered(m.Value(), gone);
      if !ok {
        ev := Collide(m.inst, gone, visited);
        CollideSteps(before, value, ev, index);
        return Conflict, ev;
      }
      var archive := m.Pack(duplicates, visible, before.index);
      outcome := Deliver(m.inst, m.override, archive, delivered, started);
      ev := Ship(m.inst, visible, delivered, delivered && started);
      ShipSteps(before, value, gone, ev);
    }

    /** `delivered` and `started` are whether the package arrives and the daemon comes up. Whatever the outcome
        and whatever other manifests there are, it is one step of the state machine, and the manifest is
        no longer the session's. */
    method SendManifest(m: ManifestObject, visible: set<Path>, gone: set<Path>, delivered: bool, started: bool)
      returns (outcome: Outcome, ghost ev: Event)
      requires Sound()
      modifies this, m
      ensures Sound() && manifests == old(manifests) - {m}
      ensures outcome.NotOwned? <==> m !in old(manifests)
      ensures if outcome.NotOwned? then Whole() == old(Whole()) else Stepped(old(Whole()), ev, Whole()) && !m.isValid
      ensures Matches(outcome, ev, m.inst, visible, gone, delivered, started)
    {
      if m !in manifests {
        assert manifests == manifests - {m};
        ev := Create;
        return NotOwned, ev;
      }
      ghost var before := Whole();
      LiveHas(m);
      LiveIsWellFormed(before, m.inst);
      outcome, ev := SendOwned(m, visible, gone, delivered, started);
      NextInv(before, ev);
    }

    /** Adds the daemon's binary and what it needs, and then sends the manifest. If the binary cannot be added the
        manifest stays with the session. */
    method ExecManifest(m: ManifestObject, daemon: File, libraries: seq<File>, visible: set<Path>, gone: set<Path>,
                        delivered: bool, started: bool)
      returns (added: bool, outcome: Outcome, ghost es: seq<Event>)
      requires Sound()
      modifies this, m
      ensures Sound() && manifests == (if added then old(manifests) - {m} else old(manifests))
      ensures Run(old(Whole()), es) && Whole() == After(old(Whole()), es)
      ensures added ==> m in old(manifests) && !outcome.NotOwned?
      ensures m in old(manifests) ==> added == AddedAll(old(index), old(m.Value()), Bin, daemon, libraries).1
      ensures m in old(manifests) && !added ==> Adds(es, m.inst, Bin, daemon, libraries)
      ensures added ==> es != [] && Adds(es[..|es| - 1], m.inst, Bin, daemon, libraries)
                        && Matches(outcome, es[|es| - 1], m.inst, visible, gone, delivered, started)
    {
      es := [];
      if m !in manifests { return false, NotOwned, es; }
      ghost var before := Whole();
      added, es := m.Add(Bin, daemon, libraries);
      if !added { return false, Conflict, es; }
      ghost var full, ev := Whole(), Create;
      outcome, ev := SendManifest(m, visible, gone, delivered, started);
      RunOnce(before, es, full, ev);
      assert (es + [ev])[..|es|] == es;
      es := es + [ev];
    }

    method SendOwned(m: ManifestObject, visible: set<Path>, gone: set<Path>, delivered: bool, started: bool)
      returns (outcome: Outcome, ghost ev: Event)
      requires Valid() && Owning() && m in manifests && WellFormed(m.Value())
      modifies this, m
      ensures Valid() && Owning() && manifests == old(manifests) - {m} && !m.isValid
      ensures Stepped(old(Whole()), ev, Whole()) && !outcome.NotOwned?
      ensures Matches(outcome, ev, m.inst, visible, gone, delivered, started)
    {
      ghost var live := Live();
      LiveHas(m);
      LetGo(m);
      if m.sources == map[] {
        ev := Drop(m.inst);
        return NothingToSend, ev;
      }
      label before:
      outcome, ev := ShipManifest(m, visible, gone, delivered, started, live);
      SameLive@before();
    }

    /** Methods that leave the owned manifests alone leave the map of them alone. */
    twostate lemma SameLive()
      requires old(Owning()) && manifests == old(manifests) && manifestCount == old(manifestCount)
      requires forall m | m in manifests :: unchanged(m)
      ensures Owning() && Live() == old(Live())
    {
    }

    /** Drops the session's hold on a manifest, which can no longer be changed. */
    method LetGo(m: ManifestObject)
      requires Owning() && m in manifests
      modifies this`manifests, m`isValid
      ensures manifests == old(manifests) - {m} && !m.isValid && Owning()
      ensures Live() == old(Live()) - {m.inst}
    {
      ghost var live, all := Live(), manifests;
      m.isValid := false;
      manifests := manifests - {m};
      forall n | n in live - {m.inst} ensures exists k :: k in manifests && k.inst == n
      {
        var k :| k in all && k.inst == n;
        assert k in manifests;
      }
      LiveIs(live - {m.inst});
    }
  }

  function Created(s: State): State {
    s.(count := s.count + 1, live := s.live[s.count + 1 := Manifest(s.count + 1, {}, map[], false)])
  }

  lemma CreateSteps(s: State)
    requires Inv(s)
    ensures Created(s) == Next(s, Create) && Inv(Created(s))
  {
    NextInv(s, Create);
  }

  lemma LiveIsWellFormed(s: State, n: nat)
    requires Inv(s) && n in s.live
    ensures WellFormed(s.live[n])
  {
  }

  ghost predicate Stepped(s: State, ev: Event, t: State) {
    Enabled(s, ev) && Next(s, ev) == t
  }

  /** Which step of the state machine an outcome stands for. */
  ghost predicate Matches(outcome: Outcome, ev: Event, n: nat, visible: set<Path>, gone: set<Path>, delivered: bool,
                          started: bool)
  {
    match outcome
    case NotOwned => true
    case NothingToSend => ev == Drop(n)
    case Conflict => ev.Collide? && ev.n == n && ev.gone == gone
    case NotDelivered => !delivered && ev == Ship(n, visible, false, false)
    case NotStarted => delivered && !started && ev == Ship(n, visible, true, false)
    case Done => delivered && started && ev == Ship(n, visible, true, true)
  }

  /** How far merging has come. */
  ghost predicate Merged(was: Index, m: Manifest, gone: set<Path>, visited: set<Entry>, index: Index,
                         duplicates: set<Entry>)
    requires WellFormed(m)
  {
    && visited <= m.entries
    && (forall e | e in visited :: !Clashes(was, m, gone, e))
    && index == was + Registered(was, m, visited)
    && duplicates == set e | e in visited && e in was
  }

  lemma NothingMerged(was: Index, m: Manifest, gone: set<Path>)
    requires WellFormed(m)
    ensures Merged(was, m, gone, {}, was, {})
  {
    assert was + Registered(was, m, {}) == was;
  }

  lemma RegisteredMore(was: Index, m: Manifest, visited: set<Entry>, e: Entry)
    requires WellFormed(m) && visited <= m.entries && e in m.entries - visited
    ensures was + Registered(was, m, visited + {e})
            == if e in was then was + Registered(was, m, visited)
               else (was + Registered(was, m, visited))[e := m.sources[e.name]]
  {
  }

  lemma MergedStep(was: Index, m: Manifest, gone: set<Path>, visited: set<Entry>, index: Index,
                   duplicates: set<Entry>, e: Entry)
    requires WellFormed(m) && Merged(was, m, gone, visited, index, duplicates) && e in m.entries - visited
    ensures e in index <==> e in was
    ensures e in was ==> index[e] == was[e]
    ensures Clashes(was, m, gone, e) ==> CanCollide(was, m, gone, visited)
    ensures !Clashes(was, m, gone, e) ==>
              Merged(was, m, gone, visited + {e}, if e in was then index else index[e := m.sources[e.name]],
                     if e in was then duplicates + {e} else duplicates)
  {
    RegisteredMore(was, m, visited, e);
  }

  lemma CollideSteps(before: State, m: Manifest, ev: Event, index: Index)
    requires WellFormed(m) && m.inst in before.live && before.live[m.inst] == m && ev.Collide? && ev.n == m.inst
    requires CanCollide(before.index, m, ev.gone, ev.visited)
    requires index == before.index + Registered(before.index, m, ev.visited)
    ensures Stepped(before, ev, before.(live := before.live - {m.inst}, index := index))
  {
  }

  lemma ShipSteps(before: State, m: Manifest, gone: set<Path>, ev: Event)
    requires WellFormed(m) && m.sources != map[] && m.inst in before.live && before.live[m.inst] == m
    requires forall e | e in m.entries :: !Clashes(before.index, m, gone, e)
    requires ev.Ship? && ev.n == m.inst && (ev.started ==> ev.delivered)
    ensures Stepped(before, ev, Shipped(before, m, ev.visible, ev.delivered, ev.started))
  {
    forall e | e in m.entries && e in before.index ensures before.index[e] == m.sources[e.name]
    {
      assert !Clashes(before.index, m, gone, e);
    }
  }

  lemma ArchiveFilled(index: Index, m: Manifest, visible: set<Path>)
    requires WellFormed(m)
    ensures Filled(m.entries - Duplicates(index, m), m.sources - Names(Duplicates(index, m)), visible)
            == Archive(index, m, visible)
  {
  }
}
