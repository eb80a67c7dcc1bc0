/**
 What a statement leaves alone: a name it does not bind keeps its value when the statement
 runs and its binding when the statement is analysed.
 */
module BindingFrames {
  import opened Wrappers
  import opened PythonFragment
  import opened BindingAnalyzer
  import opened PythonSemantics
  import opened BindingSoundness

  // ----- running -----

  lemma ExecImportsFrame(o: Oracle, st: State, names: seq<Alias>, n: string)
    requires n !in ImportedNames(names)
    ensures Get(ExecImports(o, st, names).st.store, n) == Get(st.store, n)
    decreases names
  {}

  lemma ExecFromImportsFrame(o: Oracle, st: State, level: nat, mod: string, names: seq<Alias>, n: string)
    requires n !in FromImportedNames(names) && forall al <- names :: al.name != "*"
    ensures Get(ExecFromImports(o, st, level, mod, names).st.store, n) == Get(st.store, n)
    decreases names
  {}

  lemma AssignToFrame(o: Oracle, st: State, t: Target, v: Value, n: string)
    requires n !in BoundNames(t)
    ensures Get(AssignTo(o, st, t, v).st.store, n) == Get(st.store, n)
    decreases t, 0
  {
    match t
    case NameTarget(_) =>
    case Group(elts) => AssignPartsFrame(o, st, elts, n);
    case Starred(inner) => AssignToFrame(o, st.Next(), inner, o(st.pos).value, n);
    case Place =>
  }

  lemma AssignPartsFrame(o: Oracle, st: State, ts: seq<Target>, n: string)
    requires n !in BoundNamesOfAll(ts)
    ensures Get(AssignParts(o, st, ts).st.store, n) == Get(st.store, n)
    decreases ts, 0
  {
    if !o(st.pos).raises && ts != [] {
      AssignToFrame(o, st.Next(), ts[0], o(st.pos).value, n);
      AssignPartsFrame(o, AssignTo(o, st.Next(), ts[0], o(st.pos).value).st, ts[1..], n);
    }
  }

  lemma AssignAllFrame(o: Oracle, st: State, ts: seq<Target>, v: Value, n: string)
    requires n !in BoundNamesOfAll(ts)
    ensures Get(AssignAll(o, st, ts, v).st.store, n) == Get(st.store, n)
    decreases ts
  {
    if ts != [] {
      AssignToFrame(o, st, ts[0], v, n);
      AssignAllFrame(o, AssignTo(o, st, ts[0], v).st, ts[1..], v, n);
    }
  }

  lemma DeleteFromFrame(o: Oracle, st: State, t: Target, n: string)
    requires n !in BoundNames(t)
    ensures Get(DeleteFrom(o, st, t).st.store, n) == Get(st.store, n)
    decreases t, 0
  {
    match t
    case NameTarget(_) =>
    case Group(elts) => DeleteAllFrame(o, st, elts, n);
    case Starred(inner) => DeleteFromFrame(o, st, inner, n);
    case Place =>
  }

  lemma DeleteAllFrame(o: Oracle, st: State, ts: seq<Target>, n: string)
    requires n !in BoundNamesOfAll(ts)
    ensures Get(DeleteAll(o, st, ts).st.store, n) == Get(st.store, n)
    decreases ts, 0
  {
    if ts != [] {
      DeleteFromFrame(o, st, ts[0], n);
      DeleteAllFrame(o, DeleteFrom(o, st, ts[0]).st, ts[1..], n);
    }
  }

  predicate IsSimple(s: Stmt) {
    !s.If? && !s.Try? && !s.While? && !s.For? && !s.With?
  }

  lemma ExecSimpleFrame(o: Oracle, st: State, s: Stmt, stale: set<string>, n: string)
    requires IsSimple(s) && IsCovered(s, stale) && n !in Bound(s)
    ensures Get(Exec(o, st, s).st.store, n) == Get(st.store, n)
  {
    match s
    case Import(names) => ExecImportsFrame(o, st, names, n);
    case ImportFrom(level, mod, names) => ExecFromImportsFrame(o, st, level, mod, names, n);
    case Assign(targets, value) =>
      var r := Eval(o, st, value);
      if r.value.Some? { AssignAllFrame(o, r.st, targets, r.value.value, n); }
    case AugAssign(target, value) =>
      var r := Eval(o, st, value);
      AssignToFrame(o, r.st.Next(), target, o(r.st.pos).value, n);
    case Delete(targets) => DeleteAllFrame(o, st, targets, n);
    case _ =>
  }

  lemma {:induction false} ExecFrame(o: Oracle, st: State, s: Stmt, stale: set<string>, n: string)
    requires IsCovered(s, stale) && n !in Bound(s)
    ensures Get(Exec(o, st, s).st.store, n) == Get(st.store, n)
    decreases s, 3, 0
  {
    match s
    case If(test, body, orelse) =>
      var t := Eval(o, st, test);
      ExecBlockFrame(o, t.st.Next(), body, stale, n);
      ExecBlockFrame(o, t.st.Next(), orelse, stale, n);
    case Try(_, _, _) => ExecTryFrame(o, st, s, stale, n);
    case While(_, _, orelse) =>
      ExecWhileFrame(o, st.Next(), s, o(st.pos).count, stale, n);
      ExecBlockFrame(o, ExecWhile(o, st.Next(), s, o(st.pos).count).st, orelse, stale, n);
    case For(_, iter, _, orelse) =>
      var i := Eval(o, st, iter);
      ExecForFrame(o, i.st.Next(), s, o(i.st.pos).count, stale, n);
      ExecBlockFrame(o, ExecFor(o, i.st.Next(), s, o(i.st.pos).count).st, orelse, stale, n);
    case With(_, _, _, _) => ExecWithFrame(o, st, s, stale, n);
    case _ => ExecSimpleFrame(o, st, s, stale, n);
  }

  lemma {:induction false} ExecTryFrame(o: Oracle, st: State, s: Stmt, stale: set<string>, n: string)
    requires s.Try? && IsCovered(s, stale) && n !in Bound(s)
    ensures Get(Exec(o, st, s).st.store, n) == Get(st.store, n)
    decreases s, 2, 0
  {
    var b := ExecBlock(o, st, s.body);
    ExecBlockFrame(o, st, s.body, stale, n);
    ExecBlockFrame(o, b.st, s.orelse, StaleAfterBlock(s.body, stale), n);
    ExecHandlersFrame(o, b.st, s.handlers, stale, n);
  }

  lemma {:induction false} ExecWithFrame(o: Oracle, st: State, s: Stmt, stale: set<string>, n: string)
    requires s.With? && IsCovered(s, stale) && n !in Bound(s)
    ensures Get(Exec(o, st, s).st.store, n) == Get(st.store, n)
    decreases s, 2, 0
  {
    var c := Eval(o, st, s.context);
    EnterWithFrame(o, c.st, s, n);
    ExecBlockFrame(o, EnterWith(o, c.st, s).st, s.body, stale - OptionalBoundNames(s.asTarget), n);
  }

  lemma EnterWithFrame(o: Oracle, st: State, s: Stmt, n: string)
    requires s.With? && n !in OptionalBoundNames(s.asTarget)
    ensures Get(EnterWith(o, st, s).st.store, n) == Get(st.store, n)
  {
    if s.asTarget.Some? { AssignToFrame(o, st.Next(), s.asTarget.value, o(st.pos).value, n); }
  }

  lemma {:induction false} ExecWhileFrame(o: Oracle, st: State, s: Stmt, k: nat, stale: set<string>, n: string)
    requires s.While? && IsCovered(s, stale) && n !in Bound(s)
    ensures Get(ExecWhile(o, st, s, k).st.store, n) == Get(st.store, n)
    decreases s, 1, k
  {
    var t := Eval(o, st, s.test);
    if t.value.Some? && k > 0 {
      ExecBlockFrame(o, t.st, s.body, stale + BoundIn(s.body), n);
      ExecWhileFrame(o, ExecBlock(o, t.st, s.body).st, s, k - 1, stale, n);
    }
  }

  lemma {:induction false} ExecForFrame(o: Oracle, st: State, s: Stmt, k: nat, stale: set<string>, n: string)
    requires s.For? && IsCovered(s, stale) && n !in Bound(s)
    ensures Get(ExecFor(o, st, s, k).st.store, n) == Get(st.store, n)
    decreases s, 1, k
  {
    if !o(st.pos).raises && k > 0 {
      var t := AssignTo(o, st.Next(), s.target, o(st.pos).value);
      AssignToFrame(o, st.Next(), s.target, o(st.pos).value, n);
      ExecBlockFrame(o, t.st, s.body, (stale + BoundIn(s.body)) - BoundNames(s.target), n);
      ExecForFrame(o, ExecBlock(o, t.st, s.body).st, s, k - 1, stale, n);
    }
  }

  lemma {:induction false} ExecHandlersFrame(o: Oracle, st: State, hs: seq<Handler>, stale: set<string>, n: string)
    requires AreCoveredHandlers(hs, stale) && n !in BoundInHandlers(hs)
    ensures Get(ExecHandlers(o, st, hs).st.store, n) == Get(st.store, n)
    decreases hs, 0, 0
  {
    if hs != [] {
      var k := EvalOptional(o, st, hs[0].kind);
      var entered := if hs[0].name.None? then k.st.Next()
                     else k.st.Next().Next().Write(hs[0].name.value, o(k.st.pos + 1).value);
      ExecBlockFrame(o, entered, hs[0].body, stale - OptionalName(hs[0].name), n);
      ExecHandlersFrame(o, k.st.Next(), hs[1..], stale, n);
    }
  }

  lemma {:induction false} ExecBlockFrame(o: Oracle, st: State, ss: seq<Stmt>, stale: set<string>, n: string)
    requires IsCoveredBlock(ss, stale) && n !in BoundIn(ss)
    ensures Get(ExecBlock(o, st, ss).st.store, n) == Get(st.store, n)
    decreases ss, 0, 0
  {
    if ss != [] {
      ExecFrame(o, st, ss[0], stale, n);
      ExecBlockFrame(o, Exec(o, st, ss[0]).st, ss[1..], StaleAfter(ss[0], stale), n);
    }
  }

  // ----- analysing -----

  lemma BindImportsFrame(a: Analysis, names: seq<Alias>, n: string)
    requires n !in ImportedNames(names)
    ensures Get(BindImports(a, names).env, n) == Get(a.env, n)
    decreases names
  {}

  lemma BindFromImportsFrame(a: Analysis, level: nat, mod: string, names: seq<Alias>, n: string)
    requires n !in FromImportedNames(names)
    ensures Get(BindFromImports(a, level, mod, names).env, n) == Get(a.env, n)
    decreases names
  {}

  lemma BindTargetsFrame(a: Analysis, ts: seq<Target>, kind: Binding, n: string)
    requires n !in BoundNamesOfAll(ts)
    ensures Get(BindTargets(a, ts, kind).env, n) == Get(a.env, n)
    decreases ts
  {}

  lemma VisitSimpleFrame(a: Analysis, s: Stmt, n: string)
    requires IsSimple(s) && n !in Bound(s)
    ensures Get(VisitStmt(a, s).env, n) == Get(a.env, n)
  {
    match s
    case Import(names) => BindImportsFrame(a, names, n);
    case ImportFrom(level, mod, names) => BindFromImportsFrame(a, level, mod, names, n);
    case Assign(targets, value) => BindTargetsFrame(VisitExpr(a, value), targets, AssignmentBinding(a.env, value), n);
    case _ =>
  }

  lemma {:induction false} VisitFrame(a: Analysis, s: Stmt, n: string)
    requires n !in Bound(s)
    ensures Get(VisitStmt(a, s).env, n) == Get(a.env, n)
    decreases s, 2
  {
    match s
    case If(test, body, orelse) =>
      var b := VisitBlock(VisitExpr(a, test), body);
      var e := VisitBlock(b.In(a.env), orelse);
      VisitBlockFrame(VisitExpr(a, test), body, n);
      VisitBlockFrame(b.In(a.env), orelse, n);
      var reachable := IfPaths(s, b.env, e.env);
      if reachable != [] { MergedEnvironmentAgrees(reachable, n, Get(a.env, n)); }
    case Try(_, _, _) => VisitTryFrame(a, s, n);
    case While(test, _, _) =>
      VisitLoopFrame(VisitExpr(a, test), a.env, s, n);
    case For(target, iter, _, _) =>
      VisitLoopFrame(BindAllUnknown(VisitExpr(a, iter), BoundNames(target)), a.env, s, n);
    case With(context, target, body, _) =>
      VisitBlockFrame(BindAllUnknown(VisitExpr(a, context), OptionalBoundNames(target)), body, n);
    case _ => VisitSimpleFrame(a, s, n);
  }

  lemma {:induction false} VisitTryFrame(a: Analysis, s: Stmt, n: string)
    requires s.Try? && n !in Bound(s)
    ensures Get(VisitStmt(a, s).env, n) == Get(a.env, n)
    decreases s, 1
  {
    var b := VisitTryBody(a, s);
    VisitBlockFrame(a, s.body, n);
    VisitBlockFrame(VisitBlock(a, s.body), s.orelse, n);
    VisitHandlersFrame(b, a.env, s.handlers, n);
    var paths := (if TryBodyTerminates(s) then [] else [b.env]) + VisitHandlers(b, a.env, s.handlers).1;
    MergedEnvironmentAgrees(if paths == [] then [a.env] else paths, n, Get(a.env, n));
  }

  /** The body from `a0`, the merge with the environment before the loop, and the `else` block. */
  lemma {:induction false} VisitLoopFrame(a0: Analysis, baseline: Env, s: Stmt, n: string)
    requires (s.While? || s.For?) && n !in Bound(s) && Get(a0.env, n) == Get(baseline, n)
    ensures var b := VisitBlock(a0, s.body);
            Get(VisitBlock(b.In(MergeEnvironments([baseline, b.env])), s.orelse).env, n) == Get(baseline, n)
    decreases s, 1
  {
    var b := VisitBlock(a0, s.body);
    VisitBlockFrame(a0, s.body, n);
    MergedEnvironmentAgrees([baseline, b.env], n, Get(baseline, n));
    VisitBlockFrame(b.In(MergeEnvironments([baseline, b.env])), s.orelse, n);
  }

  lemma {:induction false} VisitHandlersFrame(a: Analysis, baseline: Env, hs: seq<Handler>, n: string)
    requires n !in BoundInHandlers(hs)
    ensures forall e <- VisitHandlers(a, baseline, hs).1 :: Get(e, n) == Get(baseline, n)
    decreases hs, 0
  {
    if hs != [] {
      var h := hs[0];
      VisitBlockFrame(BindOptionalName(VisitOptionalExpr(a.In(baseline), h.kind), h.name), h.body, n);
      VisitHandlersFrame(VisitHandler(a, baseline, h), baseline, hs[1..], n);
    }
  }

  lemma {:induction false} VisitBlockFrame(a: Analysis, ss: seq<Stmt>, n: string)
    requires n !in BoundIn(ss)
    ensures Get(VisitBlock(a, ss).env, n) == Get(a.env, n)
    decreases ss, 0
  {
    if ss != [] {
      VisitFrame(a, ss[0], n);
      VisitBlockFrame(VisitStmt(a, ss[0]), ss[1..], n);
    }
  }

  // ----- blocks that cannot end, and blocks that raise -----

  /** A block that the analyser takes to terminate never runs on to what follows it. */
  lemma {:induction false} TerminatingBlockNeverEnds(o: Oracle, st: State, ss: seq<Stmt>)
    requires BlockTerminates(ss)
    ensures !ExecBlock(o, st, ss).how.Normal?
    decreases ss
  {
    if |ss| == 1 {
      if ss[0].If? {
        var t := Eval(o, st, ss[0].test);
        TerminatingBlockNeverEnds(o, t.st.Next(), ss[0].body);
        TerminatingBlockNeverEnds(o, t.st.Next(), ss[0].orelse);
      }
    } else {
      assert ss[1..][|ss[1..]| - 1] == ss[|ss| - 1];
      TerminatingBlockNeverEnds(o, Exec(o, st, ss[0]).st, ss[1..]);
    }
  }

  lemma AssignNamesNeverRaises(o: Oracle, st: State, ts: seq<Target>, v: Value)
    requires forall t <- ts :: t.NameTarget?
    ensures AssignAll(o, st, ts, v).how.Normal?
    decreases ts
  {}

  lemma OneImportRaises(o: Oracle, st: State, names: seq<Alias>)
    requires |names| <= 1
    ensures ExecImports(o, st, names).how.Raised? ==> ExecImports(o, st, names).st.store == st.store
  {
    if !o(st.pos).raises && names != [] {
      var st1 := st.Next().Write(ImportedName(names[0]), ImportedValue(o(st.pos), names[0]));
      assert names[1..] == [] && ExecImports(o, st1, names[1..]).how.Normal?;
    }
  }

  lemma OneFromImportRaises(o: Oracle, st: State, level: nat, mod: string, names: seq<Alias>)
    requires |names| <= 1
    ensures var out := ExecFromImports(o, st, level, mod, names);
            out.how.Raised? ==> out.st.store == st.store
  {
    if !o(st.pos).raises && names != [] {
      var st1 := if names[0].name == "*" then st.Next().(store := st.store + o(st.pos).star)
                 else st.Next().Write(FromImportedName(names[0]),
                                      FromImportedValue(o(st.pos), level, mod, names[0].name));
      assert names[1..] == [] && ExecFromImports(o, st1, level, mod, names[1..]).how.Normal?;
    }
  }

  lemma {:induction false} AtomicRaiseKeepsStore(o: Oracle, st: State, s: Stmt)
    requires IsAtomic(s) && Exec(o, st, s).how.Raised?
    ensures Exec(o, st, s).st.store == st.store
  {
    match s
    case Assign(targets, value) =>
      var r := Eval(o, st, value);
      if r.value.Some? { AssignNamesNeverRaises(o, r.st, targets, r.value.value); }
    case Import(names) => OneImportRaises(o, st, names);
    case ImportFrom(level, mod, names) => OneFromImportRaises(o, st, level, mod, names);
    case Delete(targets) =>
      assert targets[1..] == [] && DeleteAll(o, DeleteFrom(o, st, targets[0]).st, targets[1..]).how.Normal?;
    case _ =>
  }

  /** A handler is entered with the store from before the `try`. */
  lemma {:induction false} QuietRaiseKeepsStore(o: Oracle, st: State, ss: seq<Stmt>, stale: set<string>)
    requires IsCoveredBlock(ss, stale) && IsQuietBeforeRaise(ss)
    requires ExecBlock(o, st, ss).how.Raised?
    ensures ExecBlock(o, st, ss).st.store == st.store
    decreases ss
  {
    if |ss| == 1 && IsAtomic(ss[0]) {
      if Exec(o, st, ss[0]).how.Raised? { AtomicRaiseKeepsStore(o, st, ss[0]); }
      assert ss[1..] == [];
    } else {
      var r := Exec(o, st, ss[0]);
      forall n ensures Get(r.st.store, n) == Get(st.store, n) { ExecFrame(o, st, ss[0], stale, n); }
      SameMap(r.st.store, st.store);
      if r.how.Normal? { QuietRaiseKeepsStore(o, r.st, ss[1..], StaleAfter(ss[0], stale)); }
    }
  }
}
