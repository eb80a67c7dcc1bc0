/**
 The soundness theorem of the binding analyser, by induction over statements, and its
 consequences for the reported call sites.
 */
module BindingTheorem {
  import opened Wrappers
  import opened PythonFragment
  import opened BindingAnalyzer
  import opened PythonSemantics
  import opened BindingSoundness
  import opened BindingFrames

  /**
   How a name may fare when a statement that is analysed from `e0` to `e1` takes the store from
   `s0` to `s1`: a described name stays described; a name is described or keeps its value; and
   outside `stale` it is described.
   */
  predicate TracksName(s0: Store, e0: Env, s1: Store, e1: Env, stale: set<string>, n: string) {
    && (DescribesName(e0, s0, n) ==> DescribesName(e1, s1, n))
    && (DescribesName(e1, s1, n) || Get(s1, n) == Get(s0, n))
    && (n !in stale ==> DescribesName(e1, s1, n))
  }

  ghost predicate Tracks(s0: Store, e0: Env, s1: Store, e1: Env, stale: set<string>) {
    forall n :: TracksName(s0, e0, s1, e1, stale, n)
  }

  lemma TracksThen(s0: Store, e0: Env, s1: Store, e1: Env, s2: Store, e2: Env,
                   stale: set<string>, stale': set<string>)
    requires Tracks(s0, e0, s1, e1, stale) && Tracks(s1, e1, s2, e2, stale')
    ensures Tracks(s0, e0, s2, e2, stale')
  {
    forall n ensures TracksName(s0, e0, s2, e2, stale', n) {
      assert TracksName(s0, e0, s1, e1, stale, n) && TracksName(s1, e1, s2, e2, stale', n);
    }
  }

  /** The environment of one path may be replaced by the merge over all paths. */
  lemma TracksMerged(s0: Store, e0: Env, s1: Store, e1: Env, envs: seq<Env>, stale: set<string>, more: set<string>)
    requires Tracks(s0, e0, s1, e1, stale) && e1 in envs && stale <= more
    ensures Tracks(s0, e0, s1, MergeEnvironments(envs), more)
  {
    forall n ensures TracksName(s0, e0, s1, MergeEnvironments(envs), more, n) {
      assert TracksName(s0, e0, s1, e1, stale, n);
      if DescribesName(e1, s1, n) { MergedEnvironmentCovers(envs, e1, s1, n); }
    }
  }

  lemma TracksDescribes(s0: Store, e0: Env, s1: Store, e1: Env, stale: set<string>)
    requires Tracks(s0, e0, s1, e1, stale)
    ensures DescribesExcept(e1, s1, stale)
  {
    forall n | n !in stale ensures DescribesName(e1, s1, n) {
      assert TracksName(s0, e0, s1, e1, stale, n);
    }
  }

  lemma TracksItself(s: Store, e: Env, stale: set<string>)
    requires DescribesExcept(e, s, stale)
    ensures Tracks(s, e, s, e, stale)
  {}

  /** What the induction proves of one statement or block. */
  ghost predicate IsSound(st: State, a: Analysis, out: Outcome, r: Analysis, stale: set<string>) {
    && AllMet(st, out.st, r.visits)
    && (out.how.Normal? ==> Tracks(st.store, a.env, out.st.store, r.env, stale))
  }

  // ----- statements that bind -----

  /** Binding some names: those are described afterwards, the others are left alone. */
  lemma BindingTracks(s0: Store, e0: Env, s1: Store, e1: Env, bound: set<string>, stale: set<string>)
    requires DescribesExcept(e0, s0, stale)
    requires forall n <- bound :: DescribesName(e1, s1, n)
    requires forall n :: n !in bound ==> Get(s1, n) == Get(s0, n) && Get(e1, n) == Get(e0, n)
    ensures Tracks(s0, e0, s1, e1, stale - bound)
  {
    forall n ensures TracksName(s0, e0, s1, e1, stale - bound, n) {
      if n !in bound { assert DescribesName(e1, s1, n) == DescribesName(e0, s0, n); }
    }
  }

  lemma ImportDescribed(o: Oracle, st: State, names: seq<Alias>, a: Analysis, n: string)
    requires n in ImportedNames(names) && ExecImports(o, st, names).how.Normal?
    ensures DescribesName(BindImports(a, names).env, ExecImports(o, st, names).st.store, n)
    decreases names
  {
    var name := ImportedName(names[0]);
    var st1 := st.Next().Write(name, ImportedValue(o(st.pos), names[0]));
    var a1 := a.Bind(name, ImportBinding(names[0]));
    if n in ImportedNames(names[1..]) {
      ImportDescribed(o, st1, names[1..], a1, n);
    } else {
      ExecImportsFrame(o, st1, names[1..], n);
      BindImportsFrame(a1, names[1..], n);
    }
  }

  lemma FromImportDescribed(o: Oracle, st: State, level: nat, mod: string, names: seq<Alias>, a: Analysis, n: string)
    requires n in FromImportedNames(names) && ExecFromImports(o, st, level, mod, names).how.Normal?
    requires forall al <- names :: al.name != "*"
    ensures DescribesName(BindFromImports(a, level, mod, names).env,
                          ExecFromImports(o, st, level, mod, names).st.store, n)
    decreases names
  {
    var name := FromImportedName(names[0]);
    var st1 := st.Next().Write(name, FromImportedValue(o(st.pos), level, mod, names[0].name));
    var a1 := a.Bind(name, FromImportBinding(level, mod, names[0].name));
    if n in FromImportedNames(names[1..]) {
      FromImportDescribed(o, st1, level, mod, names[1..], a1, n);
    } else {
      ExecFromImportsFrame(o, st1, level, mod, names[1..], n);
      BindFromImportsFrame(a1, level, mod, names[1..], n);
    }
  }

  lemma AssignDescribed(o: Oracle, st: State, ts: seq<Target>, v: Value, kind: Binding, a: Analysis, n: string)
    requires n in BoundNamesOfAll(ts) && AssignAll(o, st, ts, v).how.Normal?
    requires Describes(Some(kind), Some(v))
    ensures DescribesName(BindTargets(a, ts, kind).env, AssignAll(o, st, ts, v).st.store, n)
    decreases ts
  {
    var st1 := AssignTo(o, st, ts[0], v).st;
    var a1 := BindTarget(a, ts[0], kind);
    if n in BoundNamesOfAll(ts[1..]) {
      AssignDescribed(o, st1, ts[1..], v, kind, a1, n);
    } else {
      AssignAllFrame(o, st1, ts[1..], v, n);
      BindTargetsFrame(a1, ts[1..], kind, n);
    }
  }

  lemma {:induction false} ImportSound(o: Oracle, st: State, s: Stmt, a: Analysis, stale: set<string>)
    requires s.Import? || s.ImportFrom?
    requires IsCovered(s, stale) && DescribesExcept(a.env, st.store, stale)
    ensures IsSound(st, a, Exec(o, st, s), VisitStmt(a, s), StaleAfter(s, stale))
  {
    var out, r := Exec(o, st, s), VisitStmt(a, s);
    if out.how.Normal? {
      forall n <- Bound(s) ensures DescribesName(r.env, out.st.store, n) {
        if s.Import? { ImportDescribed(o, st, s.names, a, n); }
        else { FromImportDescribed(o, st, s.level, s.mod, s.names, a, n); }
      }
      forall n | n !in Bound(s) ensures Get(out.st.store, n) == Get(st.store, n) && Get(r.env, n) == Get(a.env, n) {
        ExecFrame(o, st, s, stale, n);
        VisitFrame(a, s, n);
      }
      BindingTracks(st.store, a.env, out.st.store, r.env, Bound(s), stale);
    }
  }

  lemma {:induction false} AssignmentSound(o: Oracle, st: State, s: Stmt, a: Analysis, stale: set<string>)
    requires s.Assign? || s.AugAssign? || s.Delete?
    requires IsCovered(s, stale) && DescribesExcept(a.env, st.store, stale)
    ensures IsSound(st, a, Exec(o, st, s), VisitStmt(a, s), StaleAfter(s, stale))
  {
    var out, r := Exec(o, st, s), VisitStmt(a, s);
    if !s.Delete? { ExprCallsMet(o, st, s.value, a, stale); }
    if out.how.Normal? {
      forall n <- Bound(s) ensures DescribesName(r.env, out.st.store, n) {
        if s.Assign? {
          var v := Eval(o, st, s.value);
          EvalDescribed(o, st, s.value, a.env, stale);
          AssignDescribed(o, v.st, s.targets, v.value.value, AssignmentBinding(a.env, s.value),
                          VisitExpr(a, s.value), n);
        }
      }
      forall n | n !in Bound(s) ensures Get(out.st.store, n) == Get(st.store, n) && Get(r.env, n) == Get(a.env, n) {
        ExecFrame(o, st, s, stale, n);
        VisitFrame(a, s, n);
      }
      BindingTracks(st.store, a.env, out.st.store, r.env, Bound(s), stale);
    }
  }

  // ----- the induction -----

  lemma {:induction false} BlockSound(o: Oracle, st: State, ss: seq<Stmt>, a: Analysis, stale: set<string>)
    requires IsCoveredBlock(ss, stale) && DescribesExcept(a.env, st.store, stale)
    ensures IsSound(st, a, ExecBlock(o, st, ss), VisitBlock(a, ss), StaleAfterBlock(ss, stale))
    decreases ss, 0, 0
  {
    if ss == [] {
      TracksItself(st.store, a.env, stale);
    } else {
      var r, a1 := Exec(o, st, ss[0]), VisitStmt(a, ss[0]);
      StmtSound(o, st, ss[0], a, stale);
      if r.how.Normal? {
        var stale1 := StaleAfter(ss[0], stale);
        TracksDescribes(st.store, a.env, r.st.store, a1.env, stale1);
        BlockSound(o, r.st, ss[1..], a1, stale1);
        SoundThen(st, a, r, a1, stale1, ExecBlock(o, r.st, ss[1..]), VisitBlock(a1, ss[1..]),
                  StaleAfterBlock(ss, stale));
      } else {
        AllMetThen(st, r.st, r.st, a1.visits, VisitBlock(a, ss).visits);
      }
    }
  }

  lemma SoundThen(st: State, a: Analysis, mid: Outcome, a1: Analysis, stale1: set<string>,
                  out: Outcome, r: Analysis, stale2: set<string>)
    requires IsSound(st, a, mid, a1, stale1) && mid.how.Normal?
    requires IsSound(mid.st, a1, out, r, stale2) && a1.visits <= r.visits
    ensures IsSound(st, a, out, r, stale2)
  {
    AllMetThen(st, mid.st, out.st, a1.visits, r.visits);
    if out.how.Normal? {
      TracksThen(st.store, a.env, mid.st.store, a1.env, out.st.store, r.env, stale1, stale2);
    }
  }

  lemma {:induction false} StmtSound(o: Oracle, st: State, s: Stmt, a: Analysis, stale: set<string>)
    requires IsCovered(s, stale) && DescribesExcept(a.env, st.store, stale)
    ensures IsSound(st, a, Exec(o, st, s), VisitStmt(a, s), StaleAfter(s, stale))
    decreases s, 3, 0
  {
    match s
    case Import(_) => ImportSound(o, st, s, a, stale);
    case ImportFrom(_, _, _) => ImportSound(o, st, s, a, stale);
    case Assign(_, _) => AssignmentSound(o, st, s, a, stale);
    case AugAssign(_, _) => AssignmentSound(o, st, s, a, stale);
    case Delete(_) => AssignmentSound(o, st, s, a, stale);
    case ExprStmt(value) =>
      ExprCallsMet(o, st, value, a, stale);
      TracksItself(st.store, a.env, stale);
    case Return(value) => ExprCallsMet(o, st, value, a, stale);
    case Raise(value) => ExprCallsMet(o, st, value, a, stale);
    case If(_, _, _) => IfSound(o, st, s, a, stale);
    case Try(_, _, _) => TrySound(o, st, s, a, stale);
    case While(_, _, _) => WhileSound(o, st, s, a, stale);
    case For(_, _, _, _) => ForSound(o, st, s, a, stale);
    case With(_, _, _, _) => WithSound(o, st, s, a, stale);
  }

  lemma {:induction false} IfSound(o: Oracle, st: State, s: Stmt, a: Analysis, stale: set<string>)
    requires s.If? && IsCovered(s, stale) && DescribesExcept(a.env, st.store, stale)
    ensures IsSound(st, a, Exec(o, st, s), VisitStmt(a, s), StaleAfter(s, stale))
    decreases s, 2, 0
  {
    var t, a0 := Eval(o, st, s.test), VisitExpr(a, s.test);
    var b := VisitBlock(a0, s.body);
    var e := VisitBlock(b.In(a.env), s.orelse);
    var r := VisitStmt(a, s);
    ExprCallsMet(o, st, s.test, a, stale);
    if t.value.None? {
      AllMetThen(st, t.st, t.st, a0.visits, r.visits);
    } else {
      var st1 := t.st.Next();
      var paths := IfPaths(s, b.env, e.env);
      if o(t.st.pos).taken {
        var out := ExecBlock(o, st1, s.body);
        BlockSound(o, st1, s.body, a0, stale);
        AllMetThen(st, st1, out.st, a0.visits, b.visits);
        AllMetThen(st, out.st, out.st, b.visits, r.visits);
        if out.how.Normal? {
          if BlockTerminates(s.body) { TerminatingBlockNeverEnds(o, st1, s.body); }
          assert paths[0] == b.env;
          TracksMerged(st.store, a.env, out.st.store, b.env, paths, StaleAfterBlock(s.body, stale),
                       StaleAfter(s, stale));
        }
      } else {
        var out := ExecBlock(o, st1, s.orelse);
        BlockSound(o, st1, s.orelse, b.In(a.env), stale);
        AllMetThen(st, st1, out.st, a0.visits, r.visits);
        if out.how.Normal? {
          if BlockTerminates(s.orelse) { TerminatingBlockNeverEnds(o, st1, s.orelse); }
          assert paths[|paths| - 1] == e.env;
          TracksMerged(st.store, a.env, out.st.store, e.env, paths, StaleAfterBlock(s.orelse, stale),
                       StaleAfter(s, stale));
        }
      }
    }
  }

  lemma {:induction false} TrySound(o: Oracle, st: State, s: Stmt, a: Analysis, stale: set<string>)
    requires s.Try? && IsCovered(s, stale) && DescribesExcept(a.env, st.store, stale)
    ensures IsSound(st, a, Exec(o, st, s), VisitStmt(a, s), StaleAfter(s, stale))
    decreases s, 2, 0
  {
    var b, a1 := ExecBlock(o, st, s.body), VisitBlock(a, s.body);
    var ab := VisitTryBody(a, s);
    var h := VisitHandlers(ab, a.env, s.handlers);
    var paths := (if TryBodyTerminates(s) then [] else [ab.env]) + h.1;
    var out, r := Exec(o, st, s), VisitStmt(a, s);
    var stale1 := StaleAfterBlock(s.body, stale);
    BlockSound(o, st, s.body, a, stale);
    if b.how.Normal? {
      if BlockTerminates(s.body) { TerminatingBlockNeverEnds(o, st, s.body); }
      TracksDescribes(st.store, a.env, b.st.store, a1.env, stale1);
      BlockSound(o, b.st, s.orelse, a1, stale1);
      SoundThen(st, a, b, a1, stale1, out, ab, StaleAfterBlock(s.orelse, stale1));
      AllMetThen(st, out.st, out.st, ab.visits, r.visits);
      if out.how.Normal? {
        if BlockTerminates(s.orelse) { TerminatingBlockNeverEnds(o, b.st, s.orelse); }
        assert paths[0] == ab.env;
        TracksMerged(st.store, a.env, out.st.store, ab.env, paths, StaleAfterBlock(s.orelse, stale1),
                     StaleAfter(s, stale));
      }
    } else if b.how.Raised? {
      QuietRaiseKeepsStore(o, st, s.body, stale);
      var path := HandlersSound(o, b.st, s.handlers, ab, a.env, stale);
      AllMetThen(st, b.st, out.st, a1.visits, r.visits);
      if out.how.Normal? {
        TracksMerged(st.store, a.env, out.st.store, path, paths, StaleAfterHandlers(s.handlers, stale),
                     StaleAfter(s, stale));
      }
    } else {
      AllMetThen(st, out.st, out.st, a1.visits, r.visits);
    }
  }

  /** If a handler runs to its end, its environment is one of the paths out of the `try`. */
  lemma {:induction false} HandlersSound(o: Oracle, st: State, hs: seq<Handler>, a: Analysis, baseline: Env,
                                         stale: set<string>)
      returns (path: Env)
    requires AreCoveredHandlers(hs, stale) && DescribesExcept(baseline, st.store, stale)
    ensures var out, r := ExecHandlers(o, st, hs), VisitHandlers(a, baseline, hs);
            && AllMet(st, out.st, r.0.visits)
            && (out.how.Normal? ==>
                  path in r.1 && Tracks(st.store, baseline, out.st.store, path, StaleAfterHandlers(hs, stale)))
    decreases hs, 0, 0
  {
    path := baseline;
    if hs != [] {
      var h := hs[0];
      var k, a0 := EvalOptional(o, st, h.kind), a.In(baseline);
      var ah := VisitHandler(a, baseline, h);
      var out, r := ExecHandlers(o, st, hs), VisitHandlers(a, baseline, hs);
      if h.kind.Some? { ExprCallsMet(o, st, h.kind.value, a0, stale); }
      var ak := VisitOptionalExpr(a0, h.kind);
      if k.value.None? {
        AllMetThen(st, k.st, k.st, ak.visits, r.0.visits);
      } else if o(k.st.pos).taken {
        HandlerSound(o, k.st.Next(), h, ak, stale);
        AllMetThen(st, k.st.Next(), out.st, ak.visits, r.0.visits) by {
          AllMetThen(k.st.Next(), out.st, out.st, ah.visits, r.0.visits);
        }
        if out.how.Normal? {
          if BlockTerminates(h.body) { HandlerNeverEnds(o, k.st.Next(), h); }
          path := ah.env;
          assert r.1[0] == path;
          WidenStale(st.store, baseline, out.st.store, path, StaleAfterBlock(h.body, stale - OptionalName(h.name)),
                     StaleAfterHandlers(hs, stale));
        }
      } else {
        path := HandlersSound(o, k.st.Next(), hs[1..], ah, baseline, stale);
        AllMetThen(st, k.st.Next(), out.st, ak.visits, r.0.visits);
        if out.how.Normal? {
          WidenStale(st.store, baseline, out.st.store, path, StaleAfterHandlers(hs[1..], stale),
                     StaleAfterHandlers(hs, stale));
        }
      }
    }
  }

  lemma WidenStale(s0: Store, e0: Env, s1: Store, e1: Env, stale: set<string>, more: set<string>)
    requires Tracks(s0, e0, s1, e1, stale) && stale <= more
    ensures Tracks(s0, e0, s1, e1, more)
  {
    forall n ensures TracksName(s0, e0, s1, e1, more, n) { assert TracksName(s0, e0, s1, e1, stale, n); }
  }

  lemma HandlerNeverEnds(o: Oracle, st: State, h: Handler)
    requires BlockTerminates(h.body)
    ensures !ExecHandler(o, st, h).how.Normal?
  {
    TerminatingBlockNeverEnds(o, st, h.body);
    if h.name.Some? { TerminatingBlockNeverEnds(o, st.Next().Write(h.name.value, o(st.pos).value), h.body); }
  }

  /** `a` is the analysis just before the exception name is bound. */
  lemma {:induction false} HandlerSound(o: Oracle, st: State, h: Handler, a: Analysis, stale: set<string>)
    requires OptionalName(h.name) !! BoundIn(h.body)
    requires IsCoveredBlock(h.body, stale - OptionalName(h.name)) && DescribesExcept(a.env, st.store, stale)
    ensures IsSound(st, a, ExecHandler(o, st, h), VisitBlock(BindOptionalName(a, h.name), h.body),
                    StaleAfterBlock(h.body, stale - OptionalName(h.name)))
    decreases h, 0, 0
  {
    var stale0 := stale - OptionalName(h.name);
    if h.name.None? {
      assert stale0 == stale;
      BlockSound(o, st, h.body, a, stale);
    } else {
      var name := h.name.value;
      var entered, a0 := st.Next().Write(name, o(st.pos).value), a.Bind(name, Unknown);
      HandlerEntered(st.store, a, name, o(st.pos).value, stale);
      BlockSound(o, entered, h.body, a0, stale0);
      var b, r := ExecBlock(o, entered, h.body), VisitBlock(a0, h.body);
      if b.how.Normal? {
        VisitBlockFrame(a0, h.body, name);
        HandlerLeft(st.store, a, name, o(st.pos).value, b.st.store, r.env, StaleAfterBlock(h.body, stale0));
      }
    }
  }

  lemma HandlerEntered(s: Store, a: Analysis, name: string, v: Value, stale: set<string>)
    requires DescribesExcept(a.env, s, stale)
    ensures DescribesExcept(a.env[name := Unknown], s[name := v], stale - {name})
  {
    forall n | n !in stale - {name} ensures DescribesName(a.env[name := Unknown], s[name := v], n) {
      if n != name { assert DescribesName(a.env, s, n); }
    }
  }

  /** The exception's name, which the analyser has as unknown, is gone when the handler ends. */
  lemma HandlerLeft(s: Store, a: Analysis, name: string, v: Value, s1: Store, e1: Env, stale: set<string>)
    requires Tracks(s[name := v], a.env[name := Unknown], s1, e1, stale) && Get(e1, name) == Some(Unknown)
    ensures Tracks(s, a.env, s1 - {name}, e1, stale)
  {
    forall n ensures TracksName(s, a.env, s1 - {name}, e1, stale, n) {
      assert TracksName(s[name := v], a.env[name := Unknown], s1, e1, stale, n);
    }
  }

  // ----- loops -----

  /**
   The loop invariant: since the loop was entered with store `s0`, names not bound in the loop
   are untouched, and the merged environment tracks the rest.
   */
  ghost predicate LoopInvariant(s0: Store, e0: Env, s: Store, merged: Env, bound: set<string>, stale: set<string>) {
    && (forall n :: n !in bound ==> Get(s, n) == Get(s0, n))
    && Tracks(s0, e0, s, merged, stale)
  }

  lemma LoopEntered(s0: Store, e0: Env, e1: Env, bound: set<string>, stale: set<string>)
    requires DescribesExcept(e0, s0, stale)
    ensures LoopInvariant(s0, e0, s0, MergeEnvironments([e0, e1]), bound, stale)
  {
    TracksItself(s0, e0, stale);
    TracksMerged(s0, e0, s0, e0, [e0, e1], stale, stale);
  }

  /** One round that leaves every name described by the body's environment, or as it was. */
  lemma LoopRound(s0: Store, e0: Env, s: Store, s': Store, e1: Env, bound: set<string>, stale: set<string>)
    requires LoopInvariant(s0, e0, s, MergeEnvironments([e0, e1]), bound, stale)
    requires forall n :: n !in bound ==> Get(s', n) == Get(s, n)
    requires forall n :: DescribesName(e1, s', n) || Get(s', n) == Get(s, n)
    ensures LoopInvariant(s0, e0, s', MergeEnvironments([e0, e1]), bound, stale)
  {
    var merged := MergeEnvironments([e0, e1]);
    forall n ensures TracksName(s0, e0, s', merged, stale, n) {
      assert TracksName(s0, e0, s, merged, stale, n);
      if DescribesName(e1, s', n) { MergedEnvironmentCovers([e0, e1], e1, s', n); }
      else { assert DescribesName(merged, s', n) == DescribesName(merged, s, n); }
    }
  }

  lemma LoopDescribes(s0: Store, e0: Env, s: Store, merged: Env, bound: set<string>, stale: set<string>)
    requires LoopInvariant(s0, e0, s, merged, bound, stale) && DescribesExcept(e0, s0, stale)
    ensures DescribesExcept(e0, s, stale + bound)
  {
    forall n | n !in stale + bound ensures DescribesName(e0, s, n) {
      assert DescribesName(e0, s0, n) && Get(s, n) == Get(s0, n);
    }
  }

  lemma {:induction false} WhileSound(o: Oracle, st: State, s: Stmt, a: Analysis, stale: set<string>)
    requires s.While? && IsCovered(s, stale) && DescribesExcept(a.env, st.store, stale)
    ensures IsSound(st, a, Exec(o, st, s), VisitStmt(a, s), StaleAfter(s, stale))
    decreases s, 2, 0
  {
    var b := VisitBlock(VisitExpr(a, s.test), s.body);
    var merged := MergeEnvironments([a.env, b.env]);
    var k := o(st.pos).count;
    LoopEntered(st.store, a.env, b.env, BoundIn(s.body), stale);
    WhileRoundsSound(o, st.Next(), s, k, a, st.store, stale);
    LoopThenElse(o, st, s, a, ExecWhile(o, st.Next(), s, k), b.In(merged), stale);
  }

  /** The `else` block of a loop starts from the merged environment. */
  lemma {:induction false} LoopThenElse(o: Oracle, st: State, s: Stmt, a: Analysis, l: Outcome, a1: Analysis,
                                        stale: set<string>)
    requires (s.While? || s.For?) && IsCovered(s, stale)
    requires IsSound(st, a, l, a1, stale)
    ensures IsSound(st, a, if l.how.Normal? then ExecBlock(o, l.st, s.orelse) else l,
                    VisitBlock(a1, s.orelse), StaleAfterBlock(s.orelse, stale))
    decreases s, 1, 0
  {
    var r := VisitBlock(a1, s.orelse);
    if l.how.Normal? {
      TracksDescribes(st.store, a.env, l.st.store, a1.env, stale);
      BlockSound(o, l.st, s.orelse, a1, stale);
      SoundThen(st, a, l, a1, stale, ExecBlock(o, l.st, s.orelse), r, StaleAfterBlock(s.orelse, stale));
    } else {
      AllMetThen(st, l.st, l.st, a1.visits, r.visits);
    }
  }

  lemma {:induction false} WhileRoundsSound(o: Oracle, st: State, s: Stmt, k: nat, a: Analysis, s0: Store,
                                            stale: set<string>)
    requires s.While? && IsCovered(s, stale) && DescribesExcept(a.env, s0, stale)
    requires var b := VisitBlock(VisitExpr(a, s.test), s.body);
             LoopInvariant(s0, a.env, st.store, MergeEnvironments([a.env, b.env]), BoundIn(s.body), stale)
    ensures var out, b := ExecWhile(o, st, s, k), VisitBlock(VisitExpr(a, s.test), s.body);
            && AllMet(st, out.st, b.visits)
            && (out.how.Normal? ==> Tracks(s0, a.env, out.st.store, MergeEnvironments([a.env, b.env]), stale))
    decreases s, 1, k
  {
    var bound := BoundIn(s.body);
    var t, a0 := Eval(o, st, s.test), VisitExpr(a, s.test);
    var b, out := VisitBlock(a0, s.body), ExecWhile(o, st, s, k);
    LoopDescribes(s0, a.env, st.store, MergeEnvironments([a.env, b.env]), bound, stale);
    ExprCallsMet(o, st, s.test, a, stale + bound);
    AllMetThen(st, t.st, t.st, a0.visits, b.visits);
    if t.value.Some? && k > 0 {
      var round := ExecBlock(o, t.st, s.body);
      BlockSound(o, t.st, s.body, a0, stale + bound);
      AllMetThen(st, t.st, round.st, a0.visits, b.visits);
      if round.how.Normal? {
        forall n | n !in bound ensures Get(round.st.store, n) == Get(st.store, n) {
          ExecBlockFrame(o, t.st, s.body, stale + bound, n);
        }
        forall n ensures DescribesName(b.env, round.st.store, n) || Get(round.st.store, n) == Get(st.store, n) {
          assert TracksName(st.store, a.env, round.st.store, b.env, StaleAfterBlock(s.body, stale + bound), n);
        }
        LoopRound(s0, a.env, st.store, round.st.store, b.env, bound, stale);
        WhileRoundsSound(o, round.st, s, k - 1, a, s0, stale);
        AllMetThen(st, round.st, out.st, b.visits, b.visits);
      }
    }
  }

  lemma {:induction false} ForSound(o: Oracle, st: State, s: Stmt, a: Analysis, stale: set<string>)
    requires s.For? && IsCovered(s, stale) && DescribesExcept(a.env, st.store, stale)
    ensures IsSound(st, a, Exec(o, st, s), VisitStmt(a, s), StaleAfter(s, stale))
    decreases s, 2, 0
  {
    var i, ai := Eval(o, st, s.iter), VisitExpr(a, s.iter);
    var b := VisitBlock(BindAllUnknown(ai, BoundNames(s.target)), s.body);
    var merged := MergeEnvironments([a.env, b.env]);
    ExprCallsMet(o, st, s.iter, a, stale);
    if i.value.None? {
      AllMetThen(st, i.st, i.st, ai.visits, VisitStmt(a, s).visits);
    } else {
      var k := o(i.st.pos).count;
      var l := ExecFor(o, i.st.Next(), s, k);
      LoopEntered(st.store, a.env, b.env, BoundIn(s.body) + BoundNames(s.target), stale);
      ForRoundsSound(o, i.st.Next(), s, k, ai, st.store, stale);
      AllMetThen(st, i.st.Next(), l.st, ai.visits, b.visits);
      LoopThenElse(o, st, s, a, l, b.In(merged), stale);
    }
  }

  /** After a round's target is assigned, the environment of the body describes the store. */
  lemma ForTargetDescribed(o: Oracle, st: State, s: Stmt, t: Outcome, a: Analysis, s0: Store, merged: Env,
                           stale: set<string>)
    requires s.For? && DescribesExcept(a.env, s0, stale)
    requires t == AssignTo(o, st.Next(), s.target, o(st.pos).value) && t.how.Normal?
    requires LoopInvariant(s0, a.env, st.store, merged, BoundIn(s.body) + BoundNames(s.target), stale)
    ensures DescribesExcept(BindAllUnknown(a, BoundNames(s.target)).env, t.st.store,
                            (stale + BoundIn(s.body)) - BoundNames(s.target))
  {
    var names := BoundNames(s.target);
    var a0 := BindAllUnknown(a, names);
    forall n | n !in (stale + BoundIn(s.body)) - names ensures DescribesName(a0.env, t.st.store, n) {
      if n !in names {
        AssignToFrame(o, st.Next(), s.target, o(st.pos).value, n);
        assert DescribesName(a.env, s0, n) && Get(st.store, n) == Get(s0, n);
      }
    }
  }

  /** Names that the target did not bind are described after the body, or as they were before the round. */
  lemma DescribedOrSame(before: Store, names: set<string>, s0: Store, e0: Env, s1: Store, e1: Env, stale: set<string>)
    requires Tracks(s0, e0, s1, e1, stale)
    requires forall n :: n in names ==> Get(e0, n) == Some(Unknown)
    requires forall n :: n !in names ==> Get(s0, n) == Get(before, n)
    ensures forall n :: DescribesName(e1, s1, n) || Get(s1, n) == Get(before, n)
  {
    forall n ensures DescribesName(e1, s1, n) || Get(s1, n) == Get(before, n) {
      assert TracksName(s0, e0, s1, e1, stale, n);
      if n in names { assert DescribesName(e0, s0, n); }
    }
  }

  /** A round that assigns the target and runs the body keeps the invariant. */
  lemma ForRoundKeepsInvariant(o: Oracle, st: State, s: Stmt, t: Outcome, a: Analysis, b: Analysis, s0: Store,
                               stale: set<string>, stale1: set<string>)
    requires s.For? && IsCoveredBlock(s.body, stale1)
    requires t == AssignTo(o, st.Next(), s.target, o(st.pos).value) && t.how.Normal?
    requires ExecBlock(o, t.st, s.body).how.Normal?
    requires var a0 := BindAllUnknown(a, BoundNames(s.target));
             Tracks(t.st.store, a0.env, ExecBlock(o, t.st, s.body).st.store, b.env, StaleAfterBlock(s.body, stale1))
    requires LoopInvariant(s0, a.env, st.store, MergeEnvironments([a.env, b.env]),
                           BoundIn(s.body) + BoundNames(s.target), stale)
    ensures LoopInvariant(s0, a.env, ExecBlock(o, t.st, s.body).st.store, MergeEnvironments([a.env, b.env]),
                          BoundIn(s.body) + BoundNames(s.target), stale)
  {
    var names := BoundNames(s.target);
    var a0, after := BindAllUnknown(a, names), ExecBlock(o, t.st, s.body).st.store;
    forall n | n !in names ensures Get(t.st.store, n) == Get(st.store, n) {
      AssignToFrame(o, st.Next(), s.target, o(st.pos).value, n);
    }
    forall n | n !in BoundIn(s.body) + names ensures Get(after, n) == Get(st.store, n) {
      ExecBlockFrame(o, t.st, s.body, stale1, n);
    }
    DescribedOrSame(st.store, names, t.st.store, a0.env, after, b.env, StaleAfterBlock(s.body, stale1));
    LoopRound(s0, a.env, st.store, after, b.env, BoundIn(s.body) + names, stale);
  }

  lemma {:induction false} ForRoundsSound(o: Oracle, st: State, s: Stmt, k: nat, a: Analysis, s0: Store,
                                          stale: set<string>)
    requires s.For? && IsCovered(s, stale) && DescribesExcept(a.env, s0, stale)
    requires var b := VisitBlock(BindAllUnknown(a, BoundNames(s.target)), s.body);
             LoopInvariant(s0, a.env, st.store, MergeEnvironments([a.env, b.env]),
                           BoundIn(s.body) + BoundNames(s.target), stale)
    ensures var out, b := ExecFor(o, st, s, k), VisitBlock(BindAllUnknown(a, BoundNames(s.target)), s.body);
            && AllMet(st, out.st, b.visits)
            && (out.how.Normal? ==> Tracks(s0, a.env, out.st.store, MergeEnvironments([a.env, b.env]), stale))
    decreases s, 1, k + 1
  {
    var b, out := VisitBlock(BindAllUnknown(a, BoundNames(s.target)), s.body), ExecFor(o, st, s, k);
    if !o(st.pos).raises && k > 0 {
      var t := AssignTo(o, st.Next(), s.target, o(st.pos).value);
      if t.how.Normal? {
        ForRoundSound(o, st, s, t, a, s0, stale);
        var round := ExecBlock(o, t.st, s.body);
        if round.how.Normal? {
          ForRoundsSound(o, round.st, s, k - 1, a, s0, stale);
          AllMetThen(st, round.st, out.st, b.visits, b.visits);
        }
      }
    }
  }

  /** One round, from the assignment of its target to the end of the body. */
  lemma {:induction false} ForRoundSound(o: Oracle, st: State, s: Stmt, t: Outcome, a: Analysis, s0: Store,
                                         stale: set<string>)
    requires s.For? && IsCovered(s, stale) && DescribesExcept(a.env, s0, stale)
    requires t == AssignTo(o, st.Next(), s.target, o(st.pos).value) && t.how.Normal?
    requires var b := VisitBlock(BindAllUnknown(a, BoundNames(s.target)), s.body);
             LoopInvariant(s0, a.env, st.store, MergeEnvironments([a.env, b.env]),
                           BoundIn(s.body) + BoundNames(s.target), stale)
    ensures var round, b := ExecBlock(o, t.st, s.body), VisitBlock(BindAllUnknown(a, BoundNames(s.target)), s.body);
            && AllMet(st, round.st, b.visits)
            && (round.how.Normal? ==>
                  LoopInvariant(s0, a.env, round.st.store, MergeEnvironments([a.env, b.env]),
                                BoundIn(s.body) + BoundNames(s.target), stale))
    decreases s, 1, 0
  {
    var stale1 := (stale + BoundIn(s.body)) - BoundNames(s.target);
    var a0 := BindAllUnknown(a, BoundNames(s.target));
    var b := VisitBlock(a0, s.body);
    ForTargetDescribed(o, st, s, t, a, s0, MergeEnvironments([a.env, b.env]), stale);
    BlockSound(o, t.st, s.body, a0, stale1);
    if ExecBlock(o, t.st, s.body).how.Normal? {
      ForRoundKeepsInvariant(o, st, s, t, a, b, s0, stale, stale1);
    }
  }

  // ----- with -----

  lemma {:induction false} WithSound(o: Oracle, st: State, s: Stmt, a: Analysis, stale: set<string>)
    requires s.With? && IsCovered(s, stale) && DescribesExcept(a.env, st.store, stale)
    ensures IsSound(st, a, Exec(o, st, s), VisitStmt(a, s), StaleAfter(s, stale))
    decreases s, 2, 0
  {
    var names := OptionalBoundNames(s.asTarget);
    var c, ac := Eval(o, st, s.context), VisitExpr(a, s.context);
    var a0 := BindAllUnknown(ac, names);
    var out, r := Exec(o, st, s), VisitStmt(a, s);
    ExprCallsMet(o, st, s.context, a, stale);
    AllMetThen(st, c.st, c.st, ac.visits, r.visits);
    if c.value.Some? {
      var e := EnterWith(o, c.st, s);
      forall n | n !in names ensures Get(e.st.store, n) == Get(st.store, n) { EnterWithFrame(o, c.st, s, n); }
      BindingTracks(st.store, a.env, e.st.store, a0.env, names, stale);
      var b := if e.how.Normal? then ExecBlock(o, e.st, s.body) else e;
      if e.how.Normal? {
        TracksDescribes(st.store, a.env, e.st.store, a0.env, stale - names);
        BlockSound(o, e.st, s.body, a0, stale - names);
        AllMetThen(st, e.st, out.st, ac.visits, r.visits);
      }
      if out.how.Normal? {
        if s.maySuppress {
          forall n | n !in names ensures Get(out.st.store, n) == Get(st.store, n) && Get(r.env, n) == Get(a.env, n) {
            ExecFrame(o, st, s, stale, n);
            VisitFrame(a, s, n);
          }
          forall n <- names ensures DescribesName(r.env, out.st.store, n) { VisitBlockFrame(a0, s.body, n); }
          BindingTracks(st.store, a.env, out.st.store, r.env, names, stale);
        } else {
          TracksThen(st.store, a.env, e.st.store, a0.env, out.st.store, r.env, stale - names, StaleAfter(s, stale));
        }
      }
    }
  }

  // ----- the theorem and what the reported call sites mean -----

  /** Every run that reaches the end leaves every name with a value its binding describes. */
  lemma AnalysisDescribesEveryRun(o: Oracle, st: State, ss: seq<Stmt>, a: Analysis)
    requires IsCoveredBlock(ss, {})
    requires forall n :: DescribesName(a.env, st.store, n)
    ensures var out := ExecBlock(o, st, ss);
            out.how.Normal? ==> forall n :: DescribesName(VisitBlock(a, ss).env, out.st.store, n)
  {
    BlockSound(o, st, ss, a, {});
    var out, r := ExecBlock(o, st, ss), VisitBlock(a, ss);
    if out.how.Normal? {
      forall n ensures DescribesName(r.env, out.st.store, n) {
        assert TracksName(st.store, a.env, out.st.store, r.env, StaleAfterBlock(ss, {}), n);
        assert DescribesName(a.env, st.store, n);
      }
    }
  }

  /** A receiver on which the method exists in jsonschema, or the `None` of an optional import. */
  predicate IsJsonschemaReceiver(attr: string, v: Value, optional: bool) {
    || (attr == "validate" && (v == ModuleV || v == InstanceV))
    || (attr == "iter_errors" && v == InstanceV)
    || (attr == "check_schema" && (v == ModuleV || v == ConstructorV || v == InstanceV))
    || (attr in {"validate", "check_schema"} && v == NoneV && optional)
  }

  /** What it means that an event is rightly counted as an engine or meta call. */
  predicate IsTrueCall(env: Env, ev: Event) {
    match ev.func
    case Name(_) => ev.receiver == ValidateV
    case Attribute(value, attr) =>
      IsJsonschemaReceiver(attr, ev.receiver, ExpressionBinding(env, value) == OptionalJsonschemaModule)
    case _ => false
  }

  lemma RightClassification(env: Env, ev: Event)
    requires IsRightAbout(env, ev)
    requires Classify(env, ev.func) == Engine || Classify(env, ev.func) == Meta
    ensures IsTrueCall(env, ev)
  {}

  /**
   A reached `validate`, `iter_errors` or `check_schema` call is on the unresolved list under its
   own line, or it is on the engine or meta list and its receiver is what the list says.
   */
  lemma CandidateCallsAreAccountedFor(o: Oracle, st: State, ss: seq<Stmt>, a: Analysis, ev: Event)
    requires IsCoveredBlock(ss, {})
    requires forall n :: DescribesName(a.env, st.store, n)
    requires ev in ExecBlock(o, st, ss).st.events && ev !in st.events
    requires ev.func.Attribute? && ev.func.attr in CANDIDATE_ATTRIBUTES
    ensures var visits := VisitBlock(a, ss).visits;
            var meta := ev.func.attr == "check_schema";
            || (ev.line, if meta then UnresolvedMeta else UnresolvedEngine) in UnresolvedOf(visits)
            || (&& ev.line in (if meta then MetasOf(visits) else EnginesOf(visits))
                && exists env :: Visit(ev.line, ev.func, env) in visits && IsTrueCall(env, ev))
  {
    BlockSound(o, st, ss, a, {});
    var visits := VisitBlock(a, ss).visits;
    assert IsMet(ev, visits);
    var env :| Visit(ev.line, ev.func, env) in visits && IsRightAbout(env, ev);
    var v := Visit(ev.line, ev.func, env);
    if v.Kind() == Engine || v.Kind() == Meta {
      RightClassification(env, ev);
      assert v in visits && v.line == ev.line;
    } else {
      assert v in visits && (v.line, v.Kind()) in UnresolvedOf(visits);
    }
  }

  /**
   If every call the visitor met at a line was classified as an engine or meta call, then every
   call reached at that line is one.
   */
  lemma RecordedLinesAreTrue(o: Oracle, st: State, ss: seq<Stmt>, a: Analysis, ev: Event)
    requires IsCoveredBlock(ss, {})
    requires forall n :: DescribesName(a.env, st.store, n)
    requires ev in ExecBlock(o, st, ss).st.events && ev !in st.events
    requires forall v <- VisitBlock(a, ss).visits :: v.line == ev.line ==> v.Kind() == Engine || v.Kind() == Meta
    ensures exists env :: Visit(ev.line, ev.func, env) in VisitBlock(a, ss).visits && IsTrueCall(env, ev)
  {
    BlockSound(o, st, ss, a, {});
    var visits := VisitBlock(a, ss).visits;
    assert IsMet(ev, visits);
    var env :| Visit(ev.line, ev.func, env) in visits && IsRightAbout(env, ev);
    var v := Visit(ev.line, ev.func, env);
    assert v in visits && v.line == ev.line;
    RightClassification(env, ev);
  }
}
