/**
 The flow-sensitive binding analyser of scripts/proofs/guard_relation_validates_schema_audit.py,
 for one scope: first as functions on environments, then as the visitor object that updates
 its bindings and result sets in place.
 */
module BindingAnalyzer {
  import opened Wrappers
  import opened PythonFragment

  datatype Binding =
    | JsonschemaModule | OptionalJsonschemaModule | ValidateFunction | ValidatorConstructor
    | ValidatorsModule | ValidatorFor | ValidatorInstance | NoneBinding | Unknown

  type Env = map<string, Binding>

  const JSONSCHEMA_CONSTRUCTORS: set<string> :=
    {"Draft3Validator", "Draft4Validator", "Draft6Validator",
     "Draft7Validator", "Draft201909Validator", "Draft202012Validator"}

  predicate IsModule(b: Binding) {
    b == JsonschemaModule || b == OptionalJsonschemaModule
  }

  // ----- merging -----

  function MergeBinding(kinds: set<Option<Binding>>): Option<Binding> {
    if exists k :: k in kinds && kinds == {k} then
      var k :| k in kinds && kinds == {k};
      k
    else if
      && kinds <= {Some(JsonschemaModule), Some(OptionalJsonschemaModule), Some(NoneBinding)}
      && Some(NoneBinding) in kinds
      && (Some(JsonschemaModule) in kinds || Some(OptionalJsonschemaModule) in kinds)
    then
      Some(OptionalJsonschemaModule)
    else
      Some(Unknown)
  }

  function AllNames(envs: seq<Env>): set<string> {
    set i, n | 0 <= i < |envs| && n in envs[i] :: n
  }

  function KindsOf(envs: seq<Env>, n: string): set<Option<Binding>> {
    set i | 0 <= i < |envs| :: Get(envs[i], n)
  }

  function MergeEnvironments(envs: seq<Env>): Env {
    map n | n in AllNames(envs) && MergeBinding(KindsOf(envs, n)).Some? :: MergeBinding(KindsOf(envs, n)).value
  }

  // ----- expressions -----

  function Known(b: Option<Binding>): Binding {
    if b.Some? then b.value else Unknown
  }

  function AttributeBinding(base: Binding, attr: string): Binding {
    if IsModule(base) && attr == "validate" then ValidateFunction
    else if IsModule(base) && attr in JSONSCHEMA_CONSTRUCTORS then ValidatorConstructor
    else if IsModule(base) && attr == "validators" then ValidatorsModule
    else if base == ValidatorsModule && attr == "validator_for" then ValidatorFor
    else Unknown
  }

  function CallBinding(callee: Binding): Binding {
    if callee == ValidatorFor then ValidatorConstructor
    else if callee == ValidatorConstructor then ValidatorInstance
    else Unknown
  }

  function ExpressionBinding(env: Env, e: Expr): Binding {
    match e
    case Name(id) => Known(Get(env, id))
    case NoneLiteral => NoneBinding
    case Attribute(value, attr) => AttributeBinding(ExpressionBinding(env, value), attr)
    case Call(_, func, _) => CallBinding(ExpressionBinding(env, func))
    case IfExp(_, body, orelse) =>
      Known(MergeBinding({Some(ExpressionBinding(env, body)), Some(ExpressionBinding(env, orelse))}))
    case Other(_) => Unknown
  }

  function AssignmentBinding(env: Env, e: Expr): Binding {
    var kind := ExpressionBinding(env, e);
    if kind == ValidatorInstance || kind == NoneBinding then kind else Unknown
  }

  // ----- call sites -----

  datatype CallKind = Engine | Meta | UnresolvedEngine | UnresolvedMeta | NotRecorded

  function Classify(env: Env, func: Expr): CallKind {
    match func
    case Name(id) => if Get(env, id) == Some(ValidateFunction) then Engine else NotRecorded
    case Attribute(value, attr) =>
      var receiver := ExpressionBinding(env, value);
      if attr == "validate" then
        if IsModule(receiver) || receiver == ValidatorInstance then Engine else UnresolvedEngine
      else if attr == "iter_errors" then
        if receiver == ValidatorInstance then Engine else UnresolvedEngine
      else if attr == "check_schema" then
        if IsModule(receiver) || receiver == ValidatorConstructor || receiver == ValidatorInstance
        then Meta else UnresolvedMeta
      else NotRecorded
    case _ => NotRecorded
  }

  /** A call node together with the environment in which the visitor met it. */
  datatype Visit = Visit(line: nat, func: Expr, env: Env) {
    function Kind(): CallKind { Classify(env, func) }
  }

  function EnginesOf(visits: set<Visit>): set<nat> {
    set v | v in visits && v.Kind() == Engine :: v.line
  }

  function MetasOf(visits: set<Visit>): set<nat> {
    set v | v in visits && v.Kind() == Meta :: v.line
  }

  function UnresolvedOf(visits: set<Visit>): set<(nat, CallKind)> {
    set v | v in visits && (v.Kind() == UnresolvedEngine || v.Kind() == UnresolvedMeta) :: (v.line, v.Kind())
  }

  // ----- the walk over expressions and statements -----

  /** The analyser's state: the bindings of its scope and the calls it has met. */
  datatype Analysis = Analysis(env: Env, visits: set<Visit>) {
    function In(e: Env): Analysis { this.(env := e) }
    function Bind(n: string, kind: Binding): Analysis { this.(env := env[n := kind]) }
  }

  function VisitExpr(a: Analysis, e: Expr): (r: Analysis)
    ensures r.env == a.env && a.visits <= r.visits
    decreases e
  {
    match e
    case Name(_) => a
    case NoneLiteral => a
    case Attribute(value, _) => VisitExpr(a, value)
    case Call(line, func, args) =>
      VisitExprs(VisitExpr(a.(visits := a.visits + {Visit(line, func, a.env)}), func), args)
    case IfExp(test, body, orelse) => VisitExpr(VisitExpr(VisitExpr(a, test), body), orelse)
    case Other(parts) => VisitExprs(a, parts)
  }

  function VisitExprs(a: Analysis, es: seq<Expr>): (r: Analysis)
    ensures r.env == a.env && a.visits <= r.visits
    decreases es
  {
    if es == [] then a else VisitExprs(VisitExpr(a, es[0]), es[1..])
  }

  function BlockTerminates(ss: seq<Stmt>): bool {
    if ss == [] then false
    else
      match ss[|ss| - 1]
      case Return(_) => true
      case Raise(_) => true
      case If(_, body, orelse) => orelse != [] && BlockTerminates(body) && BlockTerminates(orelse)
      case _ => false
  }

  function ImportBinding(al: Alias): Binding {
    if al.name == "jsonschema" then JsonschemaModule
    else if al.name == "jsonschema.validators" then
      if al.asname.Some? then ValidatorsModule else JsonschemaModule
    else Unknown
  }

  function BindImports(a: Analysis, names: seq<Alias>): (r: Analysis)
    ensures r.visits == a.visits
    decreases names
  {
    if names == [] then a
    else BindImports(a.Bind(ImportedName(names[0]), ImportBinding(names[0])), names[1..])
  }

  function FromImportBinding(level: nat, mod: string, name: string): Binding {
    if level == 0 && mod == "jsonschema" then
      if name == "validate" then ValidateFunction
      else if name in JSONSCHEMA_CONSTRUCTORS then ValidatorConstructor
      else if name == "validators" then ValidatorsModule
      else Unknown
    else if level == 0 && mod == "jsonschema.validators" then
      if name == "validator_for" then ValidatorFor
      else if name in JSONSCHEMA_CONSTRUCTORS then ValidatorConstructor
      else Unknown
    else Unknown
  }

  function BindFromImports(a: Analysis, level: nat, mod: string, names: seq<Alias>): (r: Analysis)
    ensures r.visits == a.visits
    decreases names
  {
    if names == [] then a
    else if names[0].name == "*" then BindFromImports(a, level, mod, names[1..])
    else
      BindFromImports(a.Bind(FromImportedName(names[0]), FromImportBinding(level, mod, names[0].name)),
                      level, mod, names[1..])
  }

  function BindAllUnknown(a: Analysis, names: set<string>): Analysis {
    a.(env := a.env + map n | n in names :: Unknown)
  }

  function BindTarget(a: Analysis, t: Target, kind: Binding): Analysis {
    if t.NameTarget? then a.Bind(t.id, kind) else BindAllUnknown(a, BoundNames(t))
  }

  function BindTargets(a: Analysis, ts: seq<Target>, kind: Binding): (r: Analysis)
    ensures r.visits == a.visits
    decreases ts
  {
    if ts == [] then a else BindTargets(BindTarget(a, ts[0], kind), ts[1..], kind)
  }

  function VisitOptionalExpr(a: Analysis, e: Option<Expr>): (r: Analysis)
    ensures r.env == a.env && a.visits <= r.visits
  {
    if e.Some? then VisitExpr(a, e.value) else a
  }

  function BindOptionalName(a: Analysis, n: Option<string>): Analysis {
    if n.Some? then a.Bind(n.value, Unknown) else a
  }

  function VisitStmt(a: Analysis, s: Stmt): (r: Analysis)
    ensures a.visits <= r.visits
    decreases s, 1
  {
    match s
    case Import(names) => BindImports(a, names)
    case ImportFrom(level, mod, names) => BindFromImports(a, level, mod, names)
    case Assign(targets, value) => BindTargets(VisitExpr(a, value), targets, AssignmentBinding(a.env, value))
    case AugAssign(target, value) => BindAllUnknown(VisitExpr(a, value), BoundNames(target))
    case Delete(targets) => BindAllUnknown(a, BoundNamesOfAll(targets))
    case ExprStmt(value) => VisitExpr(a, value)
    case Return(value) => VisitExpr(a, value)
    case Raise(value) => VisitExpr(a, value)
    case If(test, body, orelse) =>
      var a0 := VisitExpr(a, test);
      var b := VisitBlock(a0, body);
      var o := VisitBlock(b.In(a.env), orelse);
      var reachable := IfPaths(s, b.env, o.env);
      o.In(if reachable == [] then a.env else MergeEnvironments(reachable))
    case Try(body, handlers, orelse) =>
      var b := VisitTryBody(a, s);
      var h := VisitHandlers(b, a.env, handlers);
      var paths := (if TryBodyTerminates(s) then [] else [b.env]) + h.1;
      h.0.In(MergeEnvironments(if paths == [] then [a.env] else paths))
    case While(test, body, orelse) =>
      var a0 := VisitExpr(a, test);
      var b := VisitBlock(a0, body);
      VisitBlock(b.In(MergeEnvironments([a.env, b.env])), orelse)
    case For(target, iter, body, orelse) =>
      var a0 := BindAllUnknown(VisitExpr(a, iter), BoundNames(target));
      var b := VisitBlock(a0, body);
      VisitBlock(b.In(MergeEnvironments([a.env, b.env])), orelse)
    case With(context, target, body, _) =>
      VisitBlock(BindAllUnknown(VisitExpr(a, context), OptionalBoundNames(target)), body)
  }

  /** The branch environments that reach the statement after an `if`. */
  function IfPaths(s: Stmt, body: Env, orelse: Env): seq<Env>
    requires s.If?
  {
    (if BlockTerminates(s.body) then [] else [body]) + (if BlockTerminates(s.orelse) then [] else [orelse])
  }

  predicate TryBodyTerminates(s: Stmt)
    requires s.Try?
  {
    BlockTerminates(s.body) || (s.orelse != [] && BlockTerminates(s.orelse))
  }

  /** The body of a `try` and, unless the body terminates, its `else` block. */
  function VisitTryBody(a: Analysis, s: Stmt): (r: Analysis)
    requires s.Try?
    ensures a.visits <= r.visits
    decreases s, 0
  {
    var b := VisitBlock(a, s.body);
    if BlockTerminates(s.body) then b else VisitBlock(b, s.orelse)
  }

  /** Each handler starts from the environment before the `try`. */
  function VisitHandlers(a: Analysis, baseline: Env, hs: seq<Handler>): (r: (Analysis, seq<Env>))
    ensures a.visits <= r.0.visits
    decreases hs, 0
  {
    if hs == [] then (a, [])
    else
      var h := VisitHandler(a, baseline, hs[0]);
      var rest := VisitHandlers(h, baseline, hs[1..]);
      (rest.0, (if BlockTerminates(hs[0].body) then [] else [h.env]) + rest.1)
  }

  function VisitHandler(a: Analysis, baseline: Env, h: Handler): (r: Analysis)
    ensures a.visits <= r.visits
    decreases h, 0
  {
    VisitBlock(BindOptionalName(VisitOptionalExpr(a.In(baseline), h.kind), h.name), h.body)
  }

  function VisitBlock(a: Analysis, ss: seq<Stmt>): (r: Analysis)
    ensures a.visits <= r.visits
    decreases ss, 0
  {
    if ss == [] then a else VisitBlock(VisitStmt(a, ss[0]), ss[1..])
  }
}
