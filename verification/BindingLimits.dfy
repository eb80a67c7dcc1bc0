/**
 Programs just outside the class for which the analyser is sound.  Each breaks one clause of
 `IsCovered`, and for each some run ends with a value that its binding does not describe.
 */
module BindingLimits {
  import opened Wrappers
  import opened PythonFragment
  import opened BindingAnalyzer
  import opened PythonSemantics
  import opened BindingSoundness

  /** Some run that starts with every name described ends with `n` misdescribed. */
  ghost predicate IsMisdescribed(ss: seq<Stmt>, n: string) {
    exists o: Oracle, st: State, a: Analysis :: IsMisdescribedBy(o, st, a, ss, n)
  }

  ghost predicate IsMisdescribedBy(o: Oracle, st: State, a: Analysis, ss: seq<Stmt>, n: string) {
    && (forall m :: DescribesName(a.env, st.store, m))
    && ExecBlock(o, st, ss).how.Normal?
    && !DescribesName(VisitBlock(a, ss).env, ExecBlock(o, st, ss).st.store, n)
  }

  /** An empty module. */
  ghost predicate IsFresh(st: State, a: Analysis) {
    st.store == map[] && a.env == map[]
  }

  /** Nothing raises, tests succeed, loops go round twice, a star import binds `n`. */
  function Quiet(n: string): Choice {
    Choice(false, true, ForeignV(0), 2, map[n := ForeignV(0)])
  }

  const FOREIGN: Expr := Other([])

  function SetNone(n: string): Stmt { Assign([NameTarget(n)], NoneLiteral) }

  function SetForeign(n: string): Stmt { Assign([NameTarget(n)], FOREIGN) }

  lemma OneStatement(o: Oracle, st: State, a: Analysis, s: Stmt)
    ensures ExecBlock(o, st, [s]) == Exec(o, st, s)
    ensures VisitBlock(a, [s]) == VisitStmt(a, s)
  {
    assert [s][1..] == [];
    assert ExecBlock(o, Exec(o, st, s).st, [s][1..]) == Outcome(Exec(o, st, s).st, Normal);
    assert VisitBlock(VisitStmt(a, s), [s][1..]) == VisitStmt(a, s);
  }

  lemma Misdescribed(o: Oracle, st: State, a: Analysis, ss: seq<Stmt>, n: string, v: Option<Value>)
    requires IsFresh(st, a) && v != Some(NoneV)
    requires ExecBlock(o, st, ss).how.Normal? && Get(ExecBlock(o, st, ss).st.store, n) == v
    requires Get(VisitBlock(a, ss).env, n) == Some(NoneBinding)
    ensures IsMisdescribed(ss, n)
  {
    assert IsMisdescribedBy(o, st, a, ss, n);
  }

  lemma OneMisdescribed(o: Oracle, st: State, a: Analysis, s: Stmt, n: string, v: Option<Value>)
    requires IsFresh(st, a) && v != Some(NoneV)
    requires Exec(o, st, s).how.Normal? && Get(Exec(o, st, s).st.store, n) == v
    requires Get(VisitStmt(a, s).env, n) == Some(NoneBinding)
    ensures IsMisdescribed([s], n)
  {
    OneStatement(o, st, a, s);
    Misdescribed(o, st, a, [s], n, v);
  }

  lemma TwoStatements(o: Oracle, st: State, a: Analysis, s: Stmt, t: Stmt)
    ensures ExecBlock(o, st, [s, t])
         == if Exec(o, st, s).how.Normal? then Exec(o, Exec(o, st, s).st, t) else Exec(o, st, s)
    ensures VisitBlock(a, [s, t]) == VisitStmt(VisitStmt(a, s), t)
  {
    assert [s, t][1..] == [t];
    OneStatement(o, Exec(o, st, s).st, VisitStmt(a, s), t);
  }

  lemma SetNoneRuns(o: Oracle, st: State, a: Analysis, n: string)
    ensures Exec(o, st, SetNone(n)) == Outcome(st.Write(n, NoneV), Normal)
    ensures VisitStmt(a, SetNone(n)) == a.Bind(n, NoneBinding)
  {
    var ts := [NameTarget(n)];
    assert ts[1..] == [];
    assert AssignAll(o, st, ts, NoneV) == AssignAll(o, st.Write(n, NoneV), ts[1..], NoneV);
    assert BindTargets(a, ts, NoneBinding) == BindTargets(a.Bind(n, NoneBinding), ts[1..], NoneBinding);
  }

  lemma SetForeignRuns(o: Oracle, st: State, a: Analysis, n: string)
    requires !o(st.pos).raises
    ensures Exec(o, st, SetForeign(n)) == Outcome(st.Next().Write(n, o(st.pos).value), Normal)
    ensures VisitStmt(a, SetForeign(n)) == a.Bind(n, Unknown)
  {
    var ts := [NameTarget(n)];
    assert ts[1..] == [];
    var v := o(st.pos).value;
    assert AssignAll(o, st.Next(), ts, v) == AssignAll(o, st.Next().Write(n, v), ts[1..], v);
    assert BindTargets(a, ts, Unknown) == BindTargets(a.Bind(n, Unknown), ts[1..], Unknown);
  }

  /** A `try` body that rebinds a name and then raises: the handler starts from the old binding. */
  function HalfDoneTry(n: string): Stmt {
    Try([SetForeign(n), Raise(NoneLiteral)], [Handler(None, None, [])], [])
  }

  lemma HalfDoneTryRuns(o: Oracle, st: State, a: Analysis, n: string)
    requires forall k: nat :: o(k) == Quiet(n)
    ensures var out := Exec(o, st, HalfDoneTry(n));
            out.how.Normal? && Get(out.st.store, n) == Some(ForeignV(0))
  {
    var body, hs := [SetForeign(n), Raise(NoneLiteral)], [Handler(None, None, [])];
    SetForeignRuns(o, st, a, n);
    TwoStatements(o, st, a, SetForeign(n), Raise(NoneLiteral));
    var st2 := st.Next().Write(n, ForeignV(0));
    assert ExecBlock(o, st, body) == Outcome(st2, Raised);
    assert ExecHandlers(o, st2, hs) == Outcome(st2.Next(), Normal);
  }

  lemma HalfDoneTryVisited(a: Analysis, n: string)
    ensures Get(VisitStmt(a, HalfDoneTry(n)).env, n) == Get(a.env, n)
  {
    var s := HalfDoneTry(n);
    var ab, hs := VisitTryBody(a, s), s.handlers;
    assert BlockTerminates(s.body);
    assert hs[1..] == [] && VisitHandlers(ab.In(a.env), a.env, hs[1..]).1 == [];
    assert VisitHandlers(ab, a.env, hs).1 == [a.env] && [] + [a.env] == [a.env];
    MergedEnvironmentAgrees([a.env], n, Get(a.env, n));
  }

  lemma HalfDoneTryIsMisdescribed(st: State, a: Analysis, n: string)
    requires IsFresh(st, a)
    ensures IsMisdescribed([SetNone(n), HalfDoneTry(n)], n)
  {
    var o: Oracle := k => Quiet(n);
    SetNoneRuns(o, st, a, n);
    TwoStatements(o, st, a, SetNone(n), HalfDoneTry(n));
    HalfDoneTryRuns(o, st.Write(n, NoneV), a, n);
    HalfDoneTryVisited(a.Bind(n, NoneBinding), n);
    Misdescribed(o, st, a, [SetNone(n), HalfDoneTry(n)], n, Some(ForeignV(0)));
  }

  // ----- one statement that changes a name and then raises -----

  /** A `try` whose handler passes and whose `else` block returns: only the handler's path goes on. */
  function Guarded(s: Stmt): Stmt {
    Try([s], [Handler(None, None, [])], [Return(NoneLiteral)])
  }

  lemma GuardedRuns(o: Oracle, st: State, a: Analysis, s: Stmt)
    requires Exec(o, st, s).how.Raised? && o(Exec(o, st, s).st.pos).taken
    ensures Exec(o, st, Guarded(s)) == Outcome(Exec(o, st, s).st.Next(), Normal)
  {
    OneStatement(o, st, a, s);
    var h := Handler(None, None, []);
    assert ExecHandlers(o, Exec(o, st, s).st, [h]) == ExecHandler(o, Exec(o, st, s).st.Next(), h);
  }

  lemma GuardedVisited(o: Oracle, st: State, a: Analysis, s: Stmt, n: string)
    requires s.Import? || s.ImportFrom? || s.Assign? || s.Delete?
    ensures Get(VisitStmt(a, Guarded(s)).env, n) == Get(a.env, n)
  {
    var g := Guarded(s);
    var h, b := g.handlers[0], VisitTryBody(a, g);
    assert BlockTerminates(g.orelse) && TryBodyTerminates(g);
    assert g.handlers[1..] == [] && VisitHandler(b, a.env, h) == b.In(a.env);
    assert VisitHandlers(b.In(a.env), a.env, g.handlers[1..]).1 == [];
    assert VisitHandlers(b, a.env, g.handlers).1 == [a.env] && [] + [a.env] == [a.env];
    MergedEnvironmentAgrees([a.env], n, Get(a.env, n));
  }

  /** If the statement can raise after it has changed `n` from `None`, `n` ends misdescribed. */
  lemma GuardedIsMisdescribed(o: Oracle, st: State, a: Analysis, s: Stmt, n: string)
    requires IsFresh(st, a) && (s.Import? || s.ImportFrom? || s.Assign? || s.Delete?)
    requires var half := Exec(o, st.Write(n, NoneV), s);
             half.how.Raised? && o(half.st.pos).taken && Get(half.st.store, n) != Some(NoneV)
    ensures IsMisdescribed([SetNone(n), Guarded(s)], n)
  {
    var st1, a1 := st.Write(n, NoneV), a.Bind(n, NoneBinding);
    SetNoneRuns(o, st, a, n);
    TwoStatements(o, st, a, SetNone(n), Guarded(s));
    GuardedRuns(o, st1, a1, s);
    GuardedVisited(o, st1, a1, s, n);
    Misdescribed(o, st, a, [SetNone(n), Guarded(s)], n, Get(Exec(o, st1, s).st.store, n));
  }

  /** Only the answer at `bad` raises. */
  function RaisesAt(bad: nat): Oracle {
    (k: nat) => Choice(k == bad, true, ForeignV(0), 2, map[])
  }

  /** `import foreign as n, foreign`, where the second import fails. */
  lemma HalfDoneImportIsMisdescribed(st: State, a: Analysis, n: string)
    requires IsFresh(st, a)
    ensures IsMisdescribed([SetNone(n), Guarded(Import([Alias("foreign", Some(n)), Alias("foreign", None)]))], n)
  {
    var o, st1 := RaisesAt(st.pos + 1), st.Write(n, NoneV);
    var names := [Alias("foreign", Some(n)), Alias("foreign", None)];
    assert names[1..] == [names[1]];
    assert ExecImports(o, st1, names) == ExecImports(o, st1.Next().Write(n, ForeignV(0)), names[1..]);
    GuardedIsMisdescribed(o, st, a, Import(names), n);
  }

  /** `from foreign import x as n, y`, where the second name is missing. */
  lemma HalfDoneFromImportIsMisdescribed(st: State, a: Analysis, n: string)
    requires IsFresh(st, a)
    ensures IsMisdescribed([SetNone(n), Guarded(ImportFrom(0, "foreign", [Alias("x", Some(n)), Alias("y", None)]))], n)
  {
    var o, st1 := RaisesAt(st.pos + 1), st.Write(n, NoneV);
    var names := [Alias("x", Some(n)), Alias("y", None)];
    assert names[1..] == [names[1]];
    assert ExecFromImports(o, st1, 0, "foreign", names)
        == ExecFromImports(o, st1.Next().Write(n, ForeignV(0)), 0, "foreign", names[1..]);
    GuardedIsMisdescribed(o, st, a, ImportFrom(0, "foreign", names), n);
  }

  /** `n, m = ...`, where there is only one value. */
  lemma HalfDoneUnpackingIsMisdescribed(st: State, a: Analysis, n: string, m: string)
    requires IsFresh(st, a)
    ensures IsMisdescribed([SetNone(n), Guarded(Assign([Group([NameTarget(n), NameTarget(m)])], FOREIGN))], n)
  {
    var o, st1 := RaisesAt(st.pos + 2), st.Write(n, NoneV);
    var elts := [NameTarget(n), NameTarget(m)];
    var st2 := st1.Next();
    assert Eval(o, st1, FOREIGN) == Evaluation(st2, Some(ForeignV(0)));
    assert elts[1..] == [NameTarget(m)];
    assert AssignParts(o, st2, elts) == AssignParts(o, st2.Next().Write(n, ForeignV(0)), elts[1..]);
    assert AssignTo(o, st2, Group(elts), ForeignV(0)).how.Raised?;
    GuardedIsMisdescribed(o, st, a, Assign([Group(elts)], FOREIGN), n);
  }

  /** `n = x.y = ...`, where the attribute cannot be set. */
  lemma HalfDoneChainIsMisdescribed(st: State, a: Analysis, n: string)
    requires IsFresh(st, a)
    ensures IsMisdescribed([SetNone(n), Guarded(Assign([NameTarget(n), Place], FOREIGN))], n)
  {
    var o, st1 := RaisesAt(st.pos + 1), st.Write(n, NoneV);
    var targets := [NameTarget(n), Place];
    var st2 := st1.Next();
    assert Eval(o, st1, FOREIGN) == Evaluation(st2, Some(ForeignV(0)));
    assert targets[1..] == [Place];
    assert AssignAll(o, st2, targets, ForeignV(0))
        == AssignAll(o, st2.Write(n, ForeignV(0)), targets[1..], ForeignV(0));
    GuardedIsMisdescribed(o, st, a, Assign(targets, FOREIGN), n);
  }

  /** `del n, m`, where there is no `m`. */
  lemma HalfDoneDeleteIsMisdescribed(st: State, a: Analysis, n: string, m: string)
    requires IsFresh(st, a) && n != m
    ensures IsMisdescribed([SetNone(n), Guarded(Delete([NameTarget(n), NameTarget(m)]))], n)
  {
    var o: Oracle, st1 := k => Quiet(n), st.Write(n, NoneV);
    var targets := [NameTarget(n), NameTarget(m)];
    assert targets[1..] == [NameTarget(m)];
    assert DeleteAll(o, st1, targets) == DeleteAll(o, st1.Remove(n), targets[1..]);
    GuardedIsMisdescribed(o, st, a, Delete(targets), n);
  }

  /** A handler that rebinds its exception name: Python deletes the name when the handler ends. */
  function RebindingHandler(n: string): Stmt {
    Try([Raise(NoneLiteral)], [Handler(None, Some(n), [SetNone(n)])], [])
  }

  lemma RebindingHandlerRuns(o: Oracle, st: State, a: Analysis, n: string)
    requires forall k: nat :: o(k) == Quiet(n)
    ensures Exec(o, st, RebindingHandler(n)).how.Normal?
    ensures Get(Exec(o, st, RebindingHandler(n)).st.store, n) == None
  {
    var h := Handler(None, Some(n), [SetNone(n)]);
    var st1 := st.Next().Next().Write(n, ForeignV(0));
    OneStatement(o, st, a, Raise(NoneLiteral));
    OneStatement(o, st1, a, SetNone(n));
    SetNoneRuns(o, st1, a, n);
    assert ExecHandler(o, st.Next(), h) == Outcome(st1.Write(n, NoneV).Remove(n), Normal);
    assert ExecHandlers(o, st, [h]) == ExecHandler(o, st.Next(), h);
  }

  lemma RebindingBlockVisited(st: State, a: Analysis, env: Env, n: string)
    ensures VisitHandler(a, env, Handler(None, Some(n), [SetNone(n)])).env == env[n := Unknown][n := NoneBinding]
  {
    SetNoneRuns(o => Quiet(n), st, a.In(env).Bind(n, Unknown), n);
    OneStatement(o => Quiet(n), st, a.In(env).Bind(n, Unknown), SetNone(n));
  }

  lemma RebindingHandlerVisited(st: State, a: Analysis, n: string)
    ensures Get(VisitStmt(a, RebindingHandler(n)).env, n) == Some(NoneBinding)
  {
    var s := RebindingHandler(n);
    var h, ab := s.handlers[0], VisitTryBody(a, s);
    var env := a.env[n := Unknown][n := NoneBinding];
    RebindingBlockVisited(st, ab, a.env, n);
    assert s.handlers[1..] == [] && VisitHandlers(VisitHandler(ab, a.env, h), a.env, s.handlers[1..]).1 == [];
    assert VisitHandlers(ab, a.env, s.handlers).1 == [env] && [] + [env] == [env];
    MergedEnvironmentAgrees([env], n, Some(NoneBinding));
  }

  lemma RebindingHandlerIsMisdescribed(st: State, a: Analysis, n: string)
    requires IsFresh(st, a)
    ensures IsMisdescribed([RebindingHandler(n)], n)
  {
    var o: Oracle := k => Quiet(n);
    RebindingHandlerRuns(o, st, a, n);
    RebindingHandlerVisited(st, a, n);
    OneMisdescribed(o, st, a, RebindingHandler(n), n, None);
  }

  /** A suppressed exception skips the rest of a `with` body. */
  function SuppressingWith(n: string): Stmt {
    With(FOREIGN, None, [Raise(NoneLiteral), SetNone(n)], true)
  }

  lemma SuppressingWithIsMisdescribed(st: State, a: Analysis, n: string)
    requires IsFresh(st, a)
    ensures IsMisdescribed([SuppressingWith(n)], n)
  {
    var o: Oracle := k => Quiet(n);
    var s := SuppressingWith(n);
    var st1 := st.Next();
    assert Eval(o, st, FOREIGN).st == st1;
    TwoStatements(o, st1, a, Raise(NoneLiteral), SetNone(n));
    SetNoneRuns(o, st1, a, n);
    assert Exec(o, st, s) == Outcome(st1.Next(), Normal);
    assert VisitExpr(a, FOREIGN) == a && BindAllUnknown(a, {}) == a;
    OneMisdescribed(o, st, a, s, n, None);
  }

  /** A star import may rebind any name, and the analyser ignores it. */
  function StarImport(): Stmt {
    ImportFrom(0, "foreign", [Alias("*", None)])
  }

  lemma StarImportIsMisdescribed(st: State, a: Analysis, n: string)
    requires IsFresh(st, a)
    ensures IsMisdescribed([SetNone(n), StarImport()], n)
  {
    var o: Oracle := k => Quiet(n);
    var st1, a1 := st.Write(n, NoneV), a.Bind(n, NoneBinding);
    var names := [Alias("*", None)];
    SetNoneRuns(o, st, a, n);
    TwoStatements(o, st, a, SetNone(n), StarImport());
    assert names[1..] == [];
    var st2 := st1.Next().(store := st1.store + map[n := ForeignV(0)]);
    assert ExecFromImports(o, st1, 0, "foreign", names) == ExecFromImports(o, st2, 0, "foreign", names[1..]);
    assert BindFromImports(a1, 0, "foreign", names) == BindFromImports(a1, 0, "foreign", names[1..]);
    Misdescribed(o, st, a, [SetNone(n), StarImport()], n, Some(ForeignV(0)));
  }

  /** A loop that copies `m` to `n` before it rebinds `m`: the second round copies the new value. */
  function CopyingLoop(n: string, m: string): Stmt {
    While(NoneLiteral, [Assign([NameTarget(n)], Name(m)), SetForeign(m)], [])
  }

  lemma CopyRuns(o: Oracle, st: State, a: Analysis, n: string, m: string)
    requires m in st.store && Get(a.env, m) == Some(NoneBinding)
    ensures Exec(o, st, Assign([NameTarget(n)], Name(m))) == Outcome(st.Write(n, st.store[m]), Normal)
    ensures VisitStmt(a, Assign([NameTarget(n)], Name(m))) == a.Bind(n, NoneBinding)
  {
    var ts, v := [NameTarget(n)], st.store[m];
    assert ts[1..] == [];
    assert AssignAll(o, st, ts, v) == AssignAll(o, st.Write(n, v), ts[1..], v);
    assert BindTargets(a, ts, NoneBinding) == BindTargets(a.Bind(n, NoneBinding), ts[1..], NoneBinding);
  }

  lemma CopyingRound(o: Oracle, st: State, a: Analysis, n: string, m: string)
    requires n != m && m in st.store && Get(a.env, m) == Some(NoneBinding)
    requires !o(st.pos).raises
    ensures ExecBlock(o, st, CopyingLoop(n, m).body)
         == Outcome(st.Write(n, st.store[m]).Next().Write(m, o(st.pos).value), Normal)
    ensures VisitBlock(a, CopyingLoop(n, m).body) == a.Bind(n, NoneBinding).Bind(m, Unknown)
  {
    var copy := Assign([NameTarget(n)], Name(m));
    CopyRuns(o, st, a, n, m);
    SetForeignRuns(o, st.Write(n, st.store[m]), a.Bind(n, NoneBinding), m);
    TwoStatements(o, st, a, copy, SetForeign(m));
  }

  /** A loop that goes round twice, in terms of its two rounds. */
  lemma TwoRounds(o: Oracle, st: State, body: seq<Stmt>)
    requires o(st.pos).count == 2
    requires var one := ExecBlock(o, st.Next(), body);
             one.how.Normal? && ExecBlock(o, one.st, body).how.Normal?
    ensures Exec(o, st, While(NoneLiteral, body, [])) == ExecBlock(o, ExecBlock(o, st.Next(), body).st, body)
  {
    var s := While(NoneLiteral, body, []);
    var st1 := ExecBlock(o, st.Next(), body).st;
    var st2 := ExecBlock(o, st1, body).st;
    assert ExecWhile(o, st2, s, 0) == Outcome(st2, Normal);
    assert ExecWhile(o, st1, s, 1) == ExecWhile(o, st2, s, 0);
  }

  /** What the one pass over such a loop gives. */
  lemma OnePass(a: Analysis, body: seq<Stmt>)
    ensures var r, b := VisitStmt(a, While(NoneLiteral, body, [])), VisitBlock(a, body);
            r.visits == b.visits && r.env == MergeEnvironments([a.env, b.env])
  {
    assert VisitExpr(a, NoneLiteral) == a;
  }

  lemma CopyingLoopRuns(o: Oracle, st: State, a: Analysis, n: string, m: string)
    requires n != m && m in st.store && Get(a.env, m) == Some(NoneBinding)
    requires forall k: nat :: o(k) == Quiet(n)
    ensures Exec(o, st, CopyingLoop(n, m)).how.Normal?
    ensures Get(Exec(o, st, CopyingLoop(n, m)).st.store, n) == Some(ForeignV(0))
  {
    var body := CopyingLoop(n, m).body;
    var st1 := ExecBlock(o, st.Next(), body).st;
    CopyingRound(o, st.Next(), a, n, m);
    CopyingRound(o, st1, a, n, m);
    TwoRounds(o, st, body);
  }

  lemma CopyingLoopVisited(st: State, a: Analysis, n: string, m: string)
    requires n != m && m in st.store && Get(a.env, n) == Get(a.env, m) == Some(NoneBinding)
    ensures Get(VisitStmt(a, CopyingLoop(n, m)).env, n) == Some(NoneBinding)
  {
    var o: Oracle := k => Quiet(n);
    CopyingRound(o, st, a, n, m);
    OnePass(a, CopyingLoop(n, m).body);
    MergedEnvironmentAgrees([a.env, a.env[n := NoneBinding][m := Unknown]], n, Some(NoneBinding));
  }

  lemma CopyingLoopIsMisdescribed(st: State, a: Analysis, n: string, m: string)
    requires IsFresh(st, a) && n != m
    ensures IsMisdescribed([SetNone(n), SetNone(m), CopyingLoop(n, m)], n)
  {
    var o: Oracle := k => Quiet(n);
    var loop := CopyingLoop(n, m);
    var st1, a1 := st.Write(n, NoneV), a.Bind(n, NoneBinding);
    var st2, a2 := st1.Write(m, NoneV), a1.Bind(m, NoneBinding);
    SetNoneRuns(o, st, a, n);
    SetNoneRuns(o, st1, a1, m);
    TwoStatements(o, st1, a1, SetNone(m), loop);
    var program := [SetNone(n), SetNone(m), loop];
    assert program[1..] == [SetNone(m), loop];
    CopyingLoopRuns(o, st2, a2, n, m);
    CopyingLoopVisited(st2, a2, n, m);
    Misdescribed(o, st, a, program, n, Some(ForeignV(0)));
  }

  // ----- a recorded call with the wrong receiver -----

  /** Some run that starts with every name described reaches a recorded engine call on a foreign value. */
  ghost predicate IsMisrecorded(ss: seq<Stmt>, line: nat) {
    exists o: Oracle, st: State, a: Analysis, ev: Event :: IsMisrecordedBy(o, st, a, ss, line, ev)
  }

  ghost predicate IsMisrecordedBy(o: Oracle, st: State, a: Analysis, ss: seq<Stmt>, line: nat, ev: Event) {
    && (forall m :: DescribesName(a.env, st.store, m))
    && ev in ExecBlock(o, st, ss).st.events && ev !in st.events
    && ev.line == line && ev.func.Attribute? && ev.func.attr == "validate" && ev.receiver.ForeignV?
    && line in EnginesOf(VisitBlock(a, ss).visits)
  }

  function ValidateOn(n: string): Expr { Attribute(Name(n), "validate") }

  /** A loop that calls `n.validate()` before it rebinds `n`. */
  function StaleReceiverLoop(n: string, line: nat): Stmt {
    While(NoneLiteral, [ExprStmt(Call(line, ValidateOn(n), [])), SetForeign(n)], [])
  }

  lemma CallRound(o: Oracle, st: State, a: Analysis, n: string, line: nat)
    requires n in st.store && st.store[n] != NoneV && forall k: nat :: o(k) == Quiet(n)
    ensures var out := ExecBlock(o, st, StaleReceiverLoop(n, line).body);
            && out.how.Normal? && Get(out.st.store, n) == Some(ForeignV(0))
            && Reached(line, ValidateOn(n), st.store[n]) in out.st.events
  {
    var call := ExprStmt(Call(line, ValidateOn(n), []));
    var st1 := Exec(o, st, call).st;
    var f := EvalCallee(o, st, line, ValidateOn(n));
    assert Eval(o, st, Name(n)) == Evaluation(st, Some(st.store[n]));
    assert f.value.Some? && Reached(line, ValidateOn(n), st.store[n]) in f.st.events;
    assert EvalParts(o, f.st, []) == Evaluation(f.st, Some(NoneV));
    assert Exec(o, st, call).how.Normal? && Reached(line, ValidateOn(n), st.store[n]) in st1.events;
    SetForeignRuns(o, st1, a, n);
    TwoStatements(o, st, a, call, SetForeign(n));
  }

  lemma StaleReceiverVisited(o: Oracle, st: State, a: Analysis, n: string, line: nat)
    requires Get(a.env, n) == Some(JsonschemaModule)
    ensures line in EnginesOf(VisitStmt(a, StaleReceiverLoop(n, line)).visits)
  {
    var call := ExprStmt(Call(line, ValidateOn(n), []));
    var v := Visit(line, ValidateOn(n), a.env);
    assert v in VisitStmt(a, call).visits && v.Kind() == Engine;
    TwoStatements(o, st, a, call, SetForeign(n));
    OnePass(a, StaleReceiverLoop(n, line).body);
    assert v in VisitStmt(a, StaleReceiverLoop(n, line)).visits;
  }

  /** The second round reaches the call with a foreign receiver; its line is an engine call all the same. */
  lemma StaleReceiverIsMisrecorded(st: State, a: Analysis, n: string, line: nat)
    requires st.store == map[n := ModuleV] && a.env == map[n := JsonschemaModule] && st.events == {}
    ensures IsMisrecorded([StaleReceiverLoop(n, line)], line)
  {
    var o: Oracle := k => Quiet(n);
    var s := StaleReceiverLoop(n, line);
    CallRound(o, st.Next(), a, n, line);
    var st1 := ExecBlock(o, st.Next(), s.body).st;
    CallRound(o, st1, a, n, line);
    TwoRounds(o, st, s.body);
    StaleReceiverVisited(o, st, a, n, line);
    OneStatement(o, st, a, s);
    assert IsMisrecordedBy(o, st, a, [s], line, Reached(line, ValidateOn(n), ForeignV(0)));
  }
}
