/** How the daemon lends its own environment to an MPIR launch: it saves and overrides variables, removes
    the blacklisted ones, starts the launcher, and puts everything saved back, in the order it was saved,
    whether the launch returned or threw. */
module EnvRestore {
  import opened Bytes
  import opened EnvStrings
  import opened Options

  type Env = map<bytes, bytes>

  /** A name that setenv and unsetenv accept; with any other they do nothing. */
  predicate Settable(name: bytes) {
    name != [] && EQUALS !in name
  }

  /** Every variable in an environment has a name that can be set. */
  predicate Proper(env: Env) {
    forall v | v in env :: Settable(v)
  }

  function Lookup(env: Env, v: bytes): Option<bytes> {
    if v in env then Some(env[v]) else None
  }

  function With(env: Env, v: bytes, val: bytes): Env {
    if Settable(v) then env[v := val] else env
  }

  function Without(env: Env, v: bytes): Env {
    if Settable(v) then env - {v} else env
  }

  /** What a variable held before it was overridden or removed; nothing, if it was not set. */
  datatype Saved = Saved(name: bytes, was: Option<bytes>)

  datatype Lent = Lent(env: Env, saved: seq<Saved>)

  // ---------------------------------------------------------------- what the loops do

  function Overridden(env: Env, entries: seq<bytes>): Lent {
    if entries == [] then Lent(env, [])
    else
      var before := Overridden(env, entries[..|entries| - 1]);
      var (v, val) := Split2(entries[|entries| - 1], EQUALS);
      Lent(With(before.env, v, val), before.saved + [Saved(v, Lookup(before.env, v))])
  }

  function Stripped(lent: Lent, names: seq<bytes>): Lent {
    if names == [] then lent
    else
      var before := Stripped(lent, names[..|names| - 1]);
      var v := names[|names| - 1];
      Lent(Without(before.env, v),
           if v in before.env then before.saved + [Saved(v, Some(before.env[v]))] else before.saved)
  }

  function PutBack(env: Env, s: Saved): Env {
    if s.was.None? then Without(env, s.name) else With(env, s.name, s.was.value)
  }

  function Restored(env: Env, saved: seq<Saved>): Env {
    if saved == [] then env else PutBack(Restored(env, saved[..|saved| - 1]), saved[|saved| - 1])
  }

  /** The environment after a launch, from the one before it. */
  function AfterLaunch(env: Env, entries: seq<bytes>, names: seq<bytes>): Env {
    var lent := Stripped(Overridden(env, entries), names);
    Restored(lent.env, lent.saved)
  }

  class Environment {
    var vars: Env

    constructor (vars: Env)
      ensures this.vars == vars
    {
      this.vars := vars;
    }

    method Override(entries: seq<bytes>) returns (saved: seq<Saved>)
      modifies this
      ensures Lent(vars, saved) == Overridden(old(vars), entries)
    {
      saved := [];
      for i := 0 to |entries|
        invariant Lent(vars, saved) == Overridden(old(vars), entries[..i])
      {
        var (v, val) := Split2(entries[i], EQUALS);
        saved := saved + [Saved(v, Lookup(vars, v))];
        vars := With(vars, v, val);
        assert entries[..i + 1][..i] == entries[..i];
      }
      assert entries[..|entries|] == entries;
    }

    method Strip(names: seq<bytes>, before: seq<Saved>) returns (saved: seq<Saved>)
      modifies this
      ensures Lent(vars, saved) == Stripped(Lent(old(vars), before), names)
    {
      saved := before;
      for i := 0 to |names|
        invariant Lent(vars, saved) == Stripped(Lent(old(vars), before), names[..i])
      {
        if names[i] in vars {
          saved := saved + [Saved(names[i], Some(vars[names[i]]))];
        }
        vars := Without(vars, names[i]);
        assert names[..i + 1][..i] == names[..i];
      }
      assert names[..|names|] == names;
    }

    method Restore(saved: seq<Saved>)
      modifies this
      ensures vars == Restored(old(vars), saved)
    {
      for i := 0 to |saved|
        invariant vars == Restored(old(vars), saved[..i])
      {
        vars := PutBack(vars, saved[i]);
        assert saved[..i + 1][..i] == saved[..i];
      }
      assert saved[..|saved|] == saved;
    }

    /** `inherited` is the environment the launcher starts in. What was saved goes out of scope, and is put
        back, whether the launcher came up or not. */
    method LaunchMpir(entries: seq<bytes>, names: seq<bytes>) returns (inherited: Env)
      requires Proper(vars)
      modifies this
      ensures vars == AfterLaunch(old(vars), entries, names)
      ensures Distinct(entries, names) ==> vars == old(vars)
      ensures Inherits(inherited, old(vars), entries, names)
    {
      DistinctRestores(vars, entries, names);
      InheritedVars(vars, entries, names);
      var saved := Override(entries);
      saved := Strip(names, saved);
      inherited := vars;
      Restore(saved);
    }
  }

  // ---------------------------------------------------------------- one variable at a time

  /** The values a list of entries gives a variable, in order. */
  function Values(entries: seq<bytes>, v: bytes): seq<bytes> {
    if entries == [] then []
    else
      var before := Values(entries[..|entries| - 1], v);
      var (name, val) := Split2(entries[|entries| - 1], EQUALS);
      if name == v then before + [val] else before
  }

  /** The value of a variable once these values have been given to it. */
  function Current(was: Option<bytes>, vals: seq<bytes>): Option<bytes> {
    if vals == [] then was else Some(vals[|vals| - 1])
  }

  /** The latest thing saved about a variable. */
  function LastSaved(saved: seq<Saved>, v: bytes): Option<Option<bytes>> {
    if saved == [] then None
    else if saved[|saved| - 1].name == v then Some(saved[|saved| - 1].was)
    else LastSaved(saved[..|saved| - 1], v)
  }

  lemma LastSavedAppend(saved: seq<Saved>, x: Saved, v: bytes)
    ensures LastSaved(saved + [x], v) == if x.name == v then Some(x.was) else LastSaved(saved, v)
  {
    assert (saved + [x])[..|saved|] == saved;
  }

  lemma {:induction false} OverriddenVar(env: Env, entries: seq<bytes>, v: bytes)
    requires Settable(v)
    ensures var lent, vals := Overridden(env, entries), Values(entries, v);
            && Lookup(lent.env, v) == Current(Lookup(env, v), vals)
            && LastSaved(lent.saved, v)
               == if vals == [] then None else Some(Current(Lookup(env, v), vals[..|vals| - 1]))
  {
    if entries != [] {
      var n := |entries| - 1;
      var before := Overridden(env, entries[..n]);
      var (name, val) := Split2(entries[n], EQUALS);
      OverriddenVar(env, entries[..n], v);
      LastSavedAppend(before.saved, Saved(name, Lookup(before.env, name)), v);
      if name == v {
        var vals := Values(entries, v);
        assert vals[..|vals| - 1] == Values(entries[..n], v);
      }
    }
  }

  lemma {:induction false} StrippedVar(lent: Lent, names: seq<bytes>, v: bytes)
    requires Settable(v)
    ensures var out := Stripped(lent, names);
            && Lookup(out.env, v) == (if v in names then None else Lookup(lent.env, v))
            && LastSaved(out.saved, v)
               == if v in names && v in lent.env then Some(Lookup(lent.env, v)) else LastSaved(lent.saved, v)
  {
    if names != [] {
      var n := |names| - 1;
      var before := Stripped(lent, names[..n]);
      StrippedVar(lent, names[..n], v);
      assert names == names[..n] + [names[n]];
      if names[n] in before.env {
        LastSavedAppend(before.saved, Saved(names[n], Some(before.env[names[n]])), v);
      }
    }
  }

  lemma {:induction false} RestoredVar(env: Env, saved: seq<Saved>, v: bytes)
    requires Settable(v)
    ensures Lookup(Restored(env, saved), v)
            == if LastSaved(saved, v).None? then Lookup(env, v) else LastSaved(saved, v).value
  {
    if saved != [] { RestoredVar(env, saved[..|saved| - 1], v); }
  }

  lemma {:induction false} StaysProper(env: Env, entries: seq<bytes>, names: seq<bytes>)
    requires Proper(env)
    ensures Proper(AfterLaunch(env, entries, names))
  {
    OverriddenProper(env, entries);
    StrippedProper(Overridden(env, entries), names);
    var lent := Stripped(Overridden(env, entries), names);
    RestoredProper(lent.env, lent.saved);
  }

  lemma {:induction false} OverriddenProper(env: Env, entries: seq<bytes>)
    requires Proper(env)
    ensures Proper(Overridden(env, entries).env)
  {
    if entries != [] { OverriddenProper(env, entries[..|entries| - 1]); }
  }

  lemma {:induction false} StrippedProper(lent: Lent, names: seq<bytes>)
    requires Proper(lent.env)
    ensures Proper(Stripped(lent, names).env)
  {
    if names != [] { StrippedProper(lent, names[..|names| - 1]); }
  }

  lemma {:induction false} RestoredProper(env: Env, saved: seq<Saved>)
    requires Proper(env)
    ensures Proper(Restored(env, saved))
  {
    if saved != [] { RestoredProper(env, saved[..|saved| - 1]); }
  }

  // ---------------------------------------------------------------- when everything comes back

  /** A variable that is banned after being overridden, or overridden more than once, is saved again with
      an override in it; it comes back only if that override is what it held to begin with. */
  predicate Recovers(was: Option<bytes>, vals: seq<bytes>, banned: bool) {
    vals == []
    || was == Current(was, if banned then vals else vals[..|vals| - 1])
  }

  lemma VarAfterLaunch(env: Env, entries: seq<bytes>, names: seq<bytes>, v: bytes)
    requires Settable(v)
    ensures Lookup(AfterLaunch(env, entries, names), v) == Lookup(env, v)
            <==> Recovers(Lookup(env, v), Values(entries, v), v in names)
  {
    var lent := Overridden(env, entries);
    OverriddenVar(env, entries, v);
    StrippedVar(lent, names, v);
    var out := Stripped(lent, names);
    RestoredVar(out.env, out.saved, v);
  }

  lemma SameEnv(a: Env, b: Env)
    requires Proper(a) && Proper(b)
    ensures a == b <==> forall v | Settable(v) :: Lookup(a, v) == Lookup(b, v)
  {
    if forall v | Settable(v) :: Lookup(a, v) == Lookup(b, v) {
      forall v ensures v in a <==> v in b {
        if v in a { assert Lookup(a, v) == Lookup(b, v); }
        if v in b { assert Lookup(a, v) == Lookup(b, v); }
      }
      forall v | v in a ensures a[v] == b[v] { assert Lookup(a, v) == Lookup(b, v); }
    }
  }

  /** The environment after a launch is the one before it exactly when every overridden variable
      recovers; this can be read off the environment and the two lists beforehand. */
  lemma RestoredExactly(env: Env, entries: seq<bytes>, names: seq<bytes>)
    requires Proper(env)
    ensures AfterLaunch(env, entries, names) == env
            <==> forall v | Settable(v) :: Recovers(Lookup(env, v), Values(entries, v), v in names)
  {
    StaysProper(env, entries, names);
    SameEnv(AfterLaunch(env, entries, names), env);
    forall v | Settable(v)
      ensures Lookup(AfterLaunch(env, entries, names), v) == Lookup(env, v)
              <==> Recovers(Lookup(env, v), Values(entries, v), v in names)
    {
      VarAfterLaunch(env, entries, names, v);
    }
  }

  /** No variable is overridden twice, and none is both overridden and banned. */
  ghost predicate Distinct(entries: seq<bytes>, names: seq<bytes>) {
    forall v | Settable(v) :: |Values(entries, v)| <= 1 && (v in names ==> Values(entries, v) == [])
  }

  /** In particular it comes back for every environment when the names are distinct; a name may be on the
      blacklist any number of times. */
  lemma DistinctRestores(env: Env, entries: seq<bytes>, names: seq<bytes>)
    requires Proper(env)
    ensures Distinct(entries, names) ==> AfterLaunch(env, entries, names) == env
  {
    RestoredExactly(env, entries, names);
  }

  /** What a launched program finds in its environment: nothing that is banned, the last override of
      anything else, and what was there before where there is no override. */
  ghost predicate Inherits(inherited: Env, env: Env, entries: seq<bytes>, names: seq<bytes>) {
    forall v | Settable(v) ::
      Lookup(inherited, v) == (if v in names then None else Current(Lookup(env, v), Values(entries, v)))
  }

  lemma InheritedVars(env: Env, entries: seq<bytes>, names: seq<bytes>)
    ensures Inherits(Stripped(Overridden(env, entries), names).env, env, entries, names)
  {
    forall v | Settable(v)
      ensures Lookup(Stripped(Overridden(env, entries), names).env, v)
              == if v in names then None else Current(Lookup(env, v), Values(entries, v))
    {
      OverriddenVar(env, entries, v);
      StrippedVar(Overridden(env, entries), names, v);
    }
  }

  /** Distinct names are also needed if it is to work for every environment. */
  lemma DistinctNeeded(entries: seq<bytes>, names: seq<bytes>)
    requires forall env: Env | Proper(env) :: AfterLaunch(env, entries, names) == env
    ensures Distinct(entries, names)
  {
    forall v | Settable(v)
      ensures |Values(entries, v)| <= 1 && (v in names ==> Values(entries, v) == [])
    {
      var none: Env := map[];
      assert AfterLaunch(none, entries, names) == none;
      RestoredExactly(none, entries, names);
      assert Recovers(Lookup(none, v), Values(entries, v), v in names);
    }
  }

  /** A variable that was not set and is overridden twice does not become unset again. */
  lemma TwiceOverriddenStays(v: bytes, entries: seq<bytes>, x: bytes, y: bytes)
    requires Settable(v) && entries == [v + [EQUALS] + x] + [v + [EQUALS] + y]
    ensures AfterLaunch(map[], entries, []) != map[]
  {
    var none: Env := map[];
    TwoValues(v, entries, x, y);
    RestoredExactly(none, entries, []);
    assert !Recovers(Lookup(none, v), Values(entries, v), v in []);
  }

  lemma TwoValues(v: bytes, entries: seq<bytes>, x: bytes, y: bytes)
    requires EQUALS !in v && entries == [v + [EQUALS] + x] + [v + [EQUALS] + y]
    ensures |Values(entries, v)| == 2
  {
    SplitExactly(v, EQUALS, x);
    SplitExactly(v, EQUALS, y);
    assert entries[..1] == [v + [EQUALS] + x];
    assert |Values(entries[..1][..0], v)| == 0;
    assert |Values(entries[..1], v)| == 1;
  }
}
