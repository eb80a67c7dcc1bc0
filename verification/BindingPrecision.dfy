/**
 What soundness alone would let an analyser that always answers "unknown" get away with: the
 visitor meets every call, an unknown binding is given only where a foreign value is possible,
 and the import idioms it was written for are resolved.
 */
module BindingPrecision {
  import opened Wrappers
  import opened PythonFragment
  import opened BindingAnalyzer
  import opened PythonSemantics
  import opened BindingSoundness
  import opened BindingFrames
  import opened BindingLimits

  // ----- every call is met -----

  /** A call node: its line and what it calls. */
  type Site = (nat, Expr)

  function SitesOf(visits: set<Visit>): set<Site> { set v | v in visits :: (v.line, v.func) }

  function CallsIn(e: Expr): set<Site>
    decreases e
  {
    match e
    case Name(_) => {}
    case NoneLiteral => {}
    case Attribute(value, _) => CallsIn(value)
    case Call(line, func, args) => {(line, func)} + CallsIn(func) + CallsInAll(args)
    case IfExp(test, body, orelse) => CallsIn(test) + CallsIn(body) + CallsIn(orelse)
    case Other(parts) => CallsInAll(parts)
  }

  function CallsInAll(es: seq<Expr>): set<Site>
    decreases es
  {
    if es == [] then {} else CallsIn(es[0]) + CallsInAll(es[1..])
  }

  function CallsInOptional(e: Option<Expr>): set<Site> {
    if e.Some? then CallsIn(e.value) else {}
  }

  /** The calls written in a statement; the `else` of a `try` counts only if the body can end normally. */
  function CallsInStmt(s: Stmt): set<Site>
    decreases s, 0
  {
    match s
    case Import(_) => {}
    case ImportFrom(_, _, _) => {}
    case Assign(_, value) => CallsIn(value)
    case AugAssign(_, value) => CallsIn(value)
    case Delete(_) => {}
    case ExprStmt(value) => CallsIn(value)
    case Return(value) => CallsIn(value)
    case Raise(value) => CallsIn(value)
    case If(test, body, orelse) => CallsIn(test) + CallsInBlock(body) + CallsInBlock(orelse)
    case Try(body, handlers, orelse) =>
      CallsInBlock(body) + (if BlockTerminates(body) then {} else CallsInBlock(orelse)) + CallsInHandlers(handlers)
    case While(test, body, orelse) => CallsIn(test) + CallsInBlock(body) + CallsInBlock(orelse)
    case For(_, iter, body, orelse) => CallsIn(iter) + CallsInBlock(body) + CallsInBlock(orelse)
    case With(context, _, body, _) => CallsIn(context) + CallsInBlock(body)
  }

  function CallsInBlock(ss: seq<Stmt>): set<Site>
    decreases ss, 0
  {
    if ss == [] then {} else CallsInStmt(ss[0]) + CallsInBlock(ss[1..])
  }

  function CallsInHandlers(hs: seq<Handler>): set<Site>
    decreases hs, 0
  {
    if hs == [] then {} else CallsInOptional(hs[0].kind) + CallsInBlock(hs[0].body) + CallsInHandlers(hs[1..])
  }

  lemma SitesWithOneMore(visits: set<Visit>, v: Visit)
    ensures SitesOf(visits + {v}) == SitesOf(visits) + {(v.line, v.func)}
  {
    assert v in visits + {v};
    forall x <- visits ensures (x.line, x.func) in SitesOf(visits + {v}) { assert x in visits + {v}; }
  }

  lemma {:induction false} ExprVisitsItsCalls(a: Analysis, e: Expr)
    ensures SitesOf(VisitExpr(a, e).visits) == SitesOf(a.visits) + CallsIn(e)
    decreases e
  {
    match e
    case Name(_) =>
    case NoneLiteral =>
    case Attribute(value, _) => ExprVisitsItsCalls(a, value);
    case Call(line, func, args) =>
      var v := Visit(line, func, a.env);
      var a0 := a.(visits := a.visits + {v});
      SitesWithOneMore(a.visits, v);
      ExprVisitsItsCalls(a0, func);
      ExprsVisitTheirCalls(VisitExpr(a0, func), args);
    case IfExp(test, body, orelse) =>
      ExprVisitsItsCalls(a, test);
      ExprVisitsItsCalls(VisitExpr(a, test), body);
      ExprVisitsItsCalls(VisitExpr(VisitExpr(a, test), body), orelse);
    case Other(parts) => ExprsVisitTheirCalls(a, parts);
  }

  lemma {:induction false} ExprsVisitTheirCalls(a: Analysis, es: seq<Expr>)
    ensures SitesOf(VisitExprs(a, es).visits) == SitesOf(a.visits) + CallsInAll(es)
    decreases es
  {
    if es != [] {
      ExprVisitsItsCalls(a, es[0]);
      ExprsVisitTheirCalls(VisitExpr(a, es[0]), es[1..]);
    }
  }

  lemma {:induction false} StmtVisitsItsCalls(a: Analysis, s: Stmt)
    ensures SitesOf(VisitStmt(a, s).visits) == SitesOf(a.visits) + CallsInStmt(s)
    decreases s, 2
  {
    match s
    case If(_, _, _) => IfVisitsItsCalls(a, s);
    case Try(_, _, _) => TryVisitsItsCalls(a, s);
    case While(_, _, _) => LoopVisitsItsCalls(a, s);
    case For(_, _, _, _) => LoopVisitsItsCalls(a, s);
    case With(context, target, body, _) =>
      ExprVisitsItsCalls(a, context);
      BlockVisitsItsCalls(BindAllUnknown(VisitExpr(a, context), OptionalBoundNames(target)), body);
    case _ => SimpleVisitsItsCalls(a, s);
  }

  lemma SimpleVisitsItsCalls(a: Analysis, s: Stmt)
    requires IsSimple(s)
    ensures SitesOf(VisitStmt(a, s).visits) == SitesOf(a.visits) + CallsInStmt(s)
  {
    match s
    case Assign(_, value) => ExprVisitsItsCalls(a, value);
    case AugAssign(_, value) => ExprVisitsItsCalls(a, value);
    case ExprStmt(value) => ExprVisitsItsCalls(a, value);
    case Return(value) => ExprVisitsItsCalls(a, value);
    case Raise(value) => ExprVisitsItsCalls(a, value);
    case _ =>
  }

  lemma {:induction false} IfVisitsItsCalls(a: Analysis, s: Stmt)
    requires s.If?
    ensures SitesOf(VisitStmt(a, s).visits) == SitesOf(a.visits) + CallsInStmt(s)
    decreases s, 1
  {
    var a0 := VisitExpr(a, s.test);
    ExprVisitsItsCalls(a, s.test);
    BlockVisitsItsCalls(a0, s.body);
    BlockVisitsItsCalls(VisitBlock(a0, s.body).In(a.env), s.orelse);
  }

  lemma {:induction false} TryVisitsItsCalls(a: Analysis, s: Stmt)
    requires s.Try?
    ensures SitesOf(VisitStmt(a, s).visits) == SitesOf(a.visits) + CallsInStmt(s)
    decreases s, 1
  {
    BlockVisitsItsCalls(a, s.body);
    if !BlockTerminates(s.body) { BlockVisitsItsCalls(VisitBlock(a, s.body), s.orelse); }
    HandlersVisitTheirCalls(VisitTryBody(a, s), a.env, s.handlers);
  }

  lemma {:induction false} LoopVisitsItsCalls(a: Analysis, s: Stmt)
    requires s.While? || s.For?
    ensures SitesOf(VisitStmt(a, s).visits) == SitesOf(a.visits) + CallsInStmt(s)
    decreases s, 1
  {
    var head := if s.While? then s.test else s.iter;
    var a0 := if s.While? then VisitExpr(a, head) else BindAllUnknown(VisitExpr(a, head), BoundNames(s.target));
    var b := VisitBlock(a0, s.body);
    ExprVisitsItsCalls(a, head);
    BlockVisitsItsCalls(a0, s.body);
    BlockVisitsItsCalls(b.In(MergeEnvironments([a.env, b.env])), s.orelse);
  }

  /** The visitor meets exactly the calls that are written in the block, reachable or not. */
  lemma {:induction false} BlockVisitsItsCalls(a: Analysis, ss: seq<Stmt>)
    ensures SitesOf(VisitBlock(a, ss).visits) == SitesOf(a.visits) + CallsInBlock(ss)
    decreases ss, 0
  {
    if ss != [] {
      StmtVisitsItsCalls(a, ss[0]);
      BlockVisitsItsCalls(VisitStmt(a, ss[0]), ss[1..]);
    }
  }

  lemma {:induction false} HandlersVisitTheirCalls(a: Analysis, baseline: Env, hs: seq<Handler>)
    ensures SitesOf(VisitHandlers(a, baseline, hs).0.visits) == SitesOf(a.visits) + CallsInHandlers(hs)
    decreases hs, 0
  {
    if hs != [] {
      var h := hs[0];
      var k := VisitOptionalExpr(a.In(baseline), h.kind);
      if h.kind.Some? { ExprVisitsItsCalls(a.In(baseline), h.kind.value); }
      BlockVisitsItsCalls(BindOptionalName(k, h.name), h.body);
      HandlersVisitTheirCalls(VisitHandler(a, baseline, h), baseline, hs[1..]);
    }
  }

  // ----- unknown only where a foreign value is possible -----

  /**
   An attribute is unknown only if some value of the base yields a foreign value there, so that no
   other binding would be right; or if the base is `None`, where looking it up always raises.
   */
  lemma UnknownAttributeMayBeForeign(base: Binding, attr: string)
    requires AttributeBinding(base, attr) == Unknown
    ensures (base == NoneBinding && IsTrackedAttribute(attr))
         || exists c: Choice, v: Value :: Describes(Some(base), Some(v)) && AttributeOf(c, v, attr) == Some(ForeignV(0))
  {
    var c := Choice(false, true, ForeignV(0), 0, map[]);
    var v := Sample(base);
    assert Describes(Some(base), Some(v));
    assert (base == NoneBinding && IsTrackedAttribute(attr)) || AttributeOf(c, v, attr) == Some(ForeignV(0));
  }

  function Sample(k: Binding): (v: Value)
    ensures Describes(Some(k), Some(v))
  {
    match k
    case JsonschemaModule => ModuleV
    case OptionalJsonschemaModule => ModuleV
    case ValidateFunction => ValidateV
    case ValidatorConstructor => ConstructorV
    case ValidatorsModule => ValidatorsModuleV
    case ValidatorFor => ValidatorForV
    case ValidatorInstance => InstanceV
    case NoneBinding => NoneV
    case Unknown => ForeignV(0)
  }

  lemma UnknownCallMayBeForeign(callee: Binding)
    requires CallBinding(callee) == Unknown
    ensures exists c: Choice, v: Value :: Describes(Some(callee), Some(v)) && Invoke(c, v) == Some(ForeignV(0))
  {
    var c := Choice(false, true, ForeignV(0), 0, map[]);
    var v := Sample(callee);
    assert Describes(Some(callee), Some(v)) && Invoke(c, v) == Some(ForeignV(0));
  }

  /** The one set of bindings for which the merge says "unknown" although a stronger binding covers it. */
  const MODULE_OR_OPTIONAL: set<Option<Binding>> := {Some(JsonschemaModule), Some(OptionalJsonschemaModule)}

  lemma ModuleOrOptionalIsGivenUp()
    ensures MergeBinding(MODULE_OR_OPTIONAL) == Some(Unknown)
    ensures forall x <- MODULE_OR_OPTIONAL, v :: Describes(x, v) ==> Describes(Some(OptionalJsonschemaModule), v)
  {
    assert Some(JsonschemaModule) in MODULE_OR_OPTIONAL && Some(OptionalJsonschemaModule) in MODULE_OR_OPTIONAL;
    assert Some(NoneBinding) !in MODULE_OR_OPTIONAL;
  }

  /** Every value of `y` is one of `k`, which is not "unknown". */
  predicate IsCoveredBy(y: Option<Binding>, k: Option<Binding>) {
    y == k || (k == Some(OptionalJsonschemaModule) && (y == Some(JsonschemaModule) || y == Some(NoneBinding)))
  }

  lemma CoveredBy(y: Option<Binding>, k: Option<Binding>)
    requires k != Some(Unknown)
    requires forall v :: Describes(y, v) ==> Describes(k, v)
    ensures IsCoveredBy(y, k)
  {
    var v := if y.None? then None else Some(Sample(y.value));
    assert Describes(y, v) && Describes(k, v);
    if y == Some(OptionalJsonschemaModule) { assert Describes(y, Some(NoneV)) && Describes(k, Some(NoneV)); }
  }

  /** Otherwise a merge gives up only when no binding but "unknown" covers everything it merges. */
  lemma MergeIsStrongest(kinds: set<Option<Binding>>, k: Option<Binding>)
    requires MergeBinding(kinds) == Some(Unknown) && kinds != {} && kinds != MODULE_OR_OPTIONAL
    requires forall x <- kinds, v :: Describes(x, v) ==> Describes(k, v)
    ensures k == Some(Unknown)
  {
    if k != Some(Unknown) {
      forall y <- kinds ensures IsCoveredBy(y, k) {
        CoveredBy(y, k);
      }
      NarrowMergeIsNotUnknown(kinds, k);
    }
  }

  lemma BothOfTwo(kinds: set<Option<Binding>>, x: Option<Binding>, y: Option<Binding>)
    requires kinds <= MODULE_OR_OPTIONAL && x in kinds && y in kinds && x != y
    ensures kinds == MODULE_OR_OPTIONAL
  {}

  lemma NarrowMergeIsNotUnknown(kinds: set<Option<Binding>>, k: Option<Binding>)
    requires kinds != {} && kinds != MODULE_OR_OPTIONAL && k != Some(Unknown)
    requires forall y <- kinds :: IsCoveredBy(y, k)
    ensures MergeBinding(kinds) != Some(Unknown)
  {
    var x :| x in kinds;
    if forall y <- kinds :: y == x {
      assert kinds == {x};
    } else {
      var y :| y in kinds && y != x;
      assert k == Some(OptionalJsonschemaModule);
      if Some(NoneBinding) !in kinds {
        BothOfTwo(kinds, x, y);
        assert false;
      }
    }
  }

  // ----- the idioms -----

  /** `try: import jsonschema` / `except ...: jsonschema = None`, and then a call through the name. */
  function OptionalImport(kind: Option<Expr>): Stmt {
    Try([Import([Alias("jsonschema", None)])], [Handler(kind, None, [SetNone("jsonschema")])], [])
  }

  /** The handler that sets the name to `None`, from the environment before the `try`. */
  lemma NoneHandlerVisited(a: Analysis, baseline: Env, kind: Option<Expr>, j: string)
    ensures var h := Handler(kind, None, [SetNone(j)]);
            && VisitHandlers(a, baseline, [h]).1 == [baseline[j := NoneBinding]]
            && VisitHandlers(a, baseline, [h]).0.visits == VisitOptionalExpr(a.In(baseline), kind).visits
  {
    var h := Handler(kind, None, [SetNone(j)]);
    var k := VisitOptionalExpr(a.In(baseline), kind);
    var o: Oracle, st := n => Quiet(j), State(map[], 0, {});
    SetNoneRuns(o, st, k, j);
    OneStatement(o, st, k, SetNone(j));
    assert VisitHandler(a, baseline, h) == k.Bind(j, NoneBinding);
    assert [h][1..] == [] && VisitHandlers(k.Bind(j, NoneBinding), baseline, [h][1..]) == (k.Bind(j, NoneBinding), []);
    assert [baseline[j := NoneBinding]] + [] == [baseline[j := NoneBinding]];
  }

  /** For any import `i` that binds `j` to the module. */
  lemma GuardedImportBinds(a: Analysis, i: Stmt, kind: Option<Expr>, j: string)
    requires i.Import? && VisitStmt(a, i) == a.Bind(j, JsonschemaModule)
    ensures VisitStmt(a, Try([i], [Handler(kind, None, [SetNone(j)])], [])).env == a.env[j := OptionalJsonschemaModule]
  {
    var s := Try([i], [Handler(kind, None, [SetNone(j)])], []);
    var imported := a.Bind(j, JsonschemaModule);
    OneStatement(n => Quiet(j), State(map[], 0, {}), a, i);
    assert VisitTryBody(a, s) == imported;
    NoneHandlerVisited(imported, a.env, kind, j);
    assert [imported.env] + [a.env[j := NoneBinding]] == [a.env[j := JsonschemaModule], a.env[j := NoneBinding]];
    OptionalMerge(a.env, j);
  }

  lemma ImportVisited(a: Analysis)
    ensures VisitStmt(a, Import([Alias("jsonschema", None)])) == a.Bind("jsonschema", JsonschemaModule)
  {
    var names := [Alias("jsonschema", None)];
    assert names[1..] == [];
    FirstSegmentIsWhole("jsonschema");
    assert BindImports(a, names) == BindImports(a.Bind("jsonschema", JsonschemaModule), names[1..]);
  }

  lemma {:induction false} FirstSegmentIsWhole(s: string)
    requires '.' !in s
    ensures FirstSegment(s) == s
  {
    if s != "" {
      FirstSegmentIsWhole(s[1..]);
      assert s == [s[0]] + s[1..];
    }
  }

  /** Merging a module with `None` at one name leaves the other names alone. */
  lemma OptionalMerge(env: Env, j: string)
    ensures MergeEnvironments([env[j := JsonschemaModule], env[j := NoneBinding]]) == env[j := OptionalJsonschemaModule]
  {
    var envs := [env[j := JsonschemaModule], env[j := NoneBinding]];
    var merged, wanted := MergeEnvironments(envs), env[j := OptionalJsonschemaModule];
    forall n ensures Get(merged, n) == Get(wanted, n) {
      MergedKind(envs, n);
      KindsOfTwo(envs[0], envs[1], n);
      if n != j { assert Get(envs[0], n) == Get(envs[1], n) == Get(env, n); }
    }
    SameMap(merged, wanted);
  }

  lemma KindsOfTwo(e0: Env, e1: Env, n: string)
    ensures KindsOf([e0, e1], n) == {Get(e0, n), Get(e1, n)}
  {
    var envs := [e0, e1];
    assert Get(envs[0], n) in KindsOf(envs, n) && Get(envs[1], n) in KindsOf(envs, n);
  }

  /** A call through a name bound to the optional module. */
  lemma OptionalModuleCall(a: Analysis, s: Stmt, j: string, line: nat, args: seq<Expr>, attr: string)
    requires attr == "validate" || attr == "check_schema"
    requires Get(VisitStmt(a, s).env, j) == Some(OptionalJsonschemaModule)
    ensures var visits := VisitBlock(a, [s, ExprStmt(Call(line, Attribute(Name(j), attr), args))]).visits;
            line in (if attr == "validate" then EnginesOf(visits) else MetasOf(visits))
  {
    var func := Attribute(Name(j), attr);
    var call := ExprStmt(Call(line, func, args));
    var a1 := VisitStmt(a, s);
    TwoStatements(k => Quiet(j), State(map[], 0, {}), a, s, call);
    var v := Visit(line, func, a1.env);
    assert v in VisitStmt(a1, call).visits;
    assert v.Kind() == (if attr == "validate" then Engine else Meta);
  }

  /**
   After an optional import every `jsonschema.validate(...)` statement is an engine call and every
   `jsonschema.check_schema(...)` a meta call; and the program is one that the theorem covers.
   */
  lemma OptionalImportIsResolved(a: Analysis, kind: Option<Expr>, line: nat, args: seq<Expr>, attr: string)
    requires attr == "validate" || attr == "check_schema"
    ensures var visits := VisitBlock(a, [OptionalImport(kind),
                                         ExprStmt(Call(line, Attribute(Name("jsonschema"), attr), args))]).visits;
            line in (if attr == "validate" then EnginesOf(visits) else MetasOf(visits))
    ensures IsCovered(OptionalImport(kind), {})
  {
    ImportVisited(a);
    GuardedImportBinds(a, Import([Alias("jsonschema", None)]), kind, "jsonschema");
    OptionalModuleCall(a, OptionalImport(kind), "jsonschema", line, args, attr);
    OptionalImportIsCovered(kind);
  }

  lemma OneIsCovered(s: Stmt)
    ensures IsCoveredBlock([s], {}) <==> IsCovered(s, {})
  {
    assert [s][1..] == [];
    assert IsCoveredBlock([s][1..], StaleAfter(s, {}));
  }

  lemma SetNoneIsCovered(n: string)
    ensures IsCovered(SetNone(n), {})
  {}

  lemma GuardedIsCovered(i: Stmt, h: Handler)
    requires i.Import? && |i.names| <= 1 && h.name.None? && IsCoveredBlock(h.body, {})
    ensures IsCovered(Try([i], [h], []), {})
  {
    OneIsCovered(i);
    assert [i][1..] == [] && [h][1..] == [];
    assert StaleAfterBlock([i], {}) !! {};
    assert IsCoveredBlock([], StaleAfterBlock([i], {}));
    assert AreCoveredHandlers([h][1..], {});
    assert {} - OptionalName(h.name) == {};
    assert AreCoveredHandlers([h], {});
    assert IsQuietBeforeRaise([i]);
  }

  lemma OptionalImportIsCovered(kind: Option<Expr>)
    ensures IsCovered(OptionalImport(kind), {})
  {
    SetNoneIsCovered("jsonschema");
    OneIsCovered(SetNone("jsonschema"));
    GuardedIsCovered(Import([Alias("jsonschema", None)]), Handler(kind, None, [SetNone("jsonschema")]));
  }
}
