/**
 Soundness of the binding analyser: which values a binding kind describes, for which programs
 the analysis is sound, and the proof.
 */
module BindingSoundness {
  import opened Wrappers
  import opened PythonFragment
  import opened BindingAnalyzer
  import opened PythonSemantics

  /** The values, or absence of a value, that a name with binding `k` may have. */
  predicate Describes(k: Option<Binding>, v: Option<Value>) {
    match k
    case None => v == None
    case Some(JsonschemaModule) => v == Some(ModuleV)
    case Some(OptionalJsonschemaModule) => v == Some(ModuleV) || v == Some(NoneV)
    case Some(ValidateFunction) => v == Some(ValidateV)
    case Some(ValidatorConstructor) => v == Some(ConstructorV)
    case Some(ValidatorsModule) => v == Some(ValidatorsModuleV)
    case Some(ValidatorFor) => v == Some(ValidatorForV)
    case Some(ValidatorInstance) => v == Some(InstanceV)
    case Some(NoneBinding) => v == Some(NoneV)
    case Some(Unknown) => true
  }

  predicate DescribesName(env: Env, store: Store, n: string) {
    Describes(Get(env, n), Get(store, n))
  }

  /** Every name outside `stale` has a value described by its binding. */
  ghost predicate DescribesExcept(env: Env, store: Store, stale: set<string>) {
    forall n :: n !in stale ==> DescribesName(env, store, n)
  }

  // ----- merging covers its inputs, and is exact unless it gives up -----

  lemma MergeCovers(kinds: set<Option<Binding>>, k: Option<Binding>, v: Option<Value>)
    requires k in kinds && Describes(k, v)
    ensures Describes(MergeBinding(kinds), v)
  {
    if x :| x in kinds && kinds == {x} {
      assert k == x;
    }
  }

  lemma MergeIsExact(kinds: set<Option<Binding>>, v: Option<Value>)
    requires kinds != {}
    requires MergeBinding(kinds) != Some(Unknown) && Describes(MergeBinding(kinds), v)
    ensures exists k :: k in kinds && Describes(k, v)
  {
    if x :| x in kinds && kinds == {x} {
      assert Describes(x, v);
    } else if v == Some(NoneV) {
      assert Describes(Some(NoneBinding), v);
    } else if Some(JsonschemaModule) in kinds {
      assert Describes(Some(JsonschemaModule), v);
    } else {
      assert Describes(Some(OptionalJsonschemaModule), v);
    }
  }

  lemma MergedKind(envs: seq<Env>, n: string)
    requires envs != []
    ensures Get(MergeEnvironments(envs), n) == MergeBinding(KindsOf(envs, n))
  {
    assert Get(envs[0], n) in KindsOf(envs, n);
    if n !in AllNames(envs) {
      assert KindsOf(envs, n) == {None};
    }
  }

  lemma MergedEnvironmentCovers(envs: seq<Env>, env: Env, store: Store, n: string)
    requires env in envs && DescribesName(env, store, n)
    ensures DescribesName(MergeEnvironments(envs), store, n)
  {
    var i :| 0 <= i < |envs| && envs[i] == env;
    MergedKind(envs, n);
    assert Get(envs[i], n) in KindsOf(envs, n);
    MergeCovers(KindsOf(envs, n), Get(env, n), Get(store, n));
  }

  lemma MergedEnvironmentAgrees(envs: seq<Env>, n: string, k: Option<Binding>)
    requires envs != []
    requires forall i :: 0 <= i < |envs| ==> Get(envs[i], n) == k
    ensures Get(MergeEnvironments(envs), n) == k
  {
    MergedKind(envs, n);
    assert Get(envs[0], n) in KindsOf(envs, n);
    assert KindsOf(envs, n) == {k};
  }

  // ----- which names the analyser's answers depend on -----

  const BINDING_ATTRIBUTES: set<string> := {"validate", "validators", "validator_for"} + JSONSCHEMA_CONSTRUCTORS

  const CANDIDATE_ATTRIBUTES: set<string> := {"validate", "iter_errors", "check_schema"}

  /** The names whose bindings can decide the binding of `e`. */
  function Roots(e: Expr): set<string> {
    match e
    case Name(id) => {id}
    case NoneLiteral => {}
    case Attribute(value, attr) => if attr in BINDING_ATTRIBUTES then Roots(value) else {}
    case Call(_, func, _) => Roots(func)
    case IfExp(_, body, orelse) => Roots(body) + Roots(orelse)
    case Other(_) => {}
  }

  function ReceiverRoots(func: Expr): set<string> {
    match func
    case Name(id) => {id}
    case Attribute(value, attr) => if attr in CANDIDATE_ATTRIBUTES then Roots(value) else {}
    case _ => {}
  }

  /** The names whose bindings can decide how the calls inside `e` are classified. */
  function CallRoots(e: Expr): set<string>
    decreases e
  {
    match e
    case Name(_) => {}
    case NoneLiteral => {}
    case Attribute(value, _) => CallRoots(value)
    case Call(_, func, args) => ReceiverRoots(func) + CallRoots(func) + CallRootsOfAll(args)
    case IfExp(test, body, orelse) => CallRoots(test) + CallRoots(body) + CallRoots(orelse)
    case Other(parts) => CallRootsOfAll(parts)
  }

  function CallRootsOfAll(es: seq<Expr>): set<string>
    decreases es
  {
    if es == [] then {} else CallRoots(es[0]) + CallRootsOfAll(es[1..])
  }

  function OptionalCallRoots(e: Option<Expr>): set<string> {
    if e.Some? then CallRoots(e.value) else {}
  }

  // ----- the programs for which the analysis is sound -----

  /**
   A statement that either raises and changes no name, or does not raise.  Importing two names,
   unpacking, or deleting two names can fail half way.
   */
  predicate IsAtomic(s: Stmt) {
    match s
    case Import(names) => |names| <= 1
    case ImportFrom(_, _, names) => |names| <= 1
    case Assign(targets, _) => forall t <- targets :: t.NameTarget?
    case AugAssign(target, _) => target.NameTarget?
    case Delete(targets) => |targets| == 1 && targets[0].NameTarget?
    case _ => false
  }

  /** If the block raises, it has not changed any name. */
  predicate IsQuietBeforeRaise(ss: seq<Stmt>) {
    ss == []
    || (|ss| == 1 && IsAtomic(ss[0]))
    || (Bound(ss[0]) == {} && IsQuietBeforeRaise(ss[1..]))
  }

  /**
   The names of `stale` that may still be stale after `s` has run to its end.  A name is stale
   where the environment need not describe it: at the second and later rounds of a loop these
   are the names bound in the loop, until the round has bound them again.
   */
  function StaleAfter(s: Stmt, stale: set<string>): set<string>
    decreases s, 0
  {
    match s
    case If(_, body, orelse) =>
      (if BlockTerminates(body) then {} else StaleAfterBlock(body, stale))
      + (if BlockTerminates(orelse) then {} else StaleAfterBlock(orelse, stale))
    case Try(body, handlers, orelse) =>
      StaleAfterBlock(orelse, StaleAfterBlock(body, stale)) + StaleAfterHandlers(handlers, stale)
    case While(_, _, orelse) => StaleAfterBlock(orelse, stale)
    case For(_, _, _, orelse) => StaleAfterBlock(orelse, stale)
    case With(_, target, body, maySuppress) =>
      if maySuppress then stale - OptionalBoundNames(target)
      else StaleAfterBlock(body, stale - OptionalBoundNames(target))
    case _ => stale - Bound(s)
  }

  function StaleAfterBlock(ss: seq<Stmt>, stale: set<string>): set<string>
    decreases ss, 0
  {
    if ss == [] then stale else StaleAfterBlock(ss[1..], StaleAfter(ss[0], stale))
  }

  function StaleAfterHandlers(hs: seq<Handler>, stale: set<string>): set<string>
    decreases hs, 0
  {
    if hs == [] then {}
    else StaleAfterBlock(hs[0].body, stale - OptionalName(hs[0].name)) + StaleAfterHandlers(hs[1..], stale)
  }

  /**
   The statements for which the analysis is sound when the names in `stale` are stale.  Besides
   freshness of what the analyser reads, it asks for: no star import; a `try` body that changes
   no name before it raises; a handler that does not rebind its own exception name, which Python
   deletes when the handler ends; and nothing bound under a context manager that may suppress.
   */
  predicate IsCovered(s: Stmt, stale: set<string>)
    decreases s, 0
  {
    match s
    case Import(_) => true
    case ImportFrom(_, _, names) => forall al <- names :: al.name != "*"
    case Assign(_, value) => (Roots(value) + CallRoots(value)) !! stale
    case AugAssign(_, value) => CallRoots(value) !! stale
    case Delete(_) => true
    case ExprStmt(value) => CallRoots(value) !! stale
    case Return(value) => CallRoots(value) !! stale
    case Raise(value) => CallRoots(value) !! stale
    case If(test, body, orelse) =>
      CallRoots(test) !! stale && IsCoveredBlock(body, stale) && IsCoveredBlock(orelse, stale)
    case Try(body, handlers, orelse) =>
      && IsQuietBeforeRaise(body)
      && IsCoveredBlock(body, stale)
      && IsCoveredBlock(orelse, StaleAfterBlock(body, stale))
      && AreCoveredHandlers(handlers, stale)
    case While(test, body, orelse) =>
      && CallRoots(test) !! stale + BoundIn(body)
      && IsCoveredBlock(body, stale + BoundIn(body))
      && IsCoveredBlock(orelse, stale)
    case For(target, iter, body, orelse) =>
      && CallRoots(iter) !! stale
      && IsCoveredBlock(body, (stale + BoundIn(body)) - BoundNames(target))
      && IsCoveredBlock(orelse, stale)
    case With(context, target, body, maySuppress) =>
      && CallRoots(context) !! stale
      && (maySuppress ==> BoundIn(body) == {})
      && IsCoveredBlock(body, stale - OptionalBoundNames(target))
  }

  predicate IsCoveredBlock(ss: seq<Stmt>, stale: set<string>)
    decreases ss, 0
  {
    ss == [] || (IsCovered(ss[0], stale) && IsCoveredBlock(ss[1..], StaleAfter(ss[0], stale)))
  }

  predicate AreCoveredHandlers(hs: seq<Handler>, stale: set<string>)
    decreases hs, 0
  {
    hs == []
    || (&& OptionalCallRoots(hs[0].kind) !! stale
        && OptionalName(hs[0].name) !! BoundIn(hs[0].body)
        && IsCoveredBlock(hs[0].body, stale - OptionalName(hs[0].name))
        && AreCoveredHandlers(hs[1..], stale))
  }

  // ----- expressions -----

  lemma AttributeDescribed(c: Choice, base: Binding, v: Value, attr: string)
    requires attr in BINDING_ATTRIBUTES ==> Describes(Some(base), Some(v))
    ensures AttributeOf(c, v, attr).Some? ==> Describes(Some(AttributeBinding(base, attr)), AttributeOf(c, v, attr))
  {}

  /** The value of an expression is one that its binding describes. */
  lemma {:induction false} EvalDescribed(o: Oracle, st: State, e: Expr, env: Env, stale: set<string>)
    requires DescribesExcept(env, st.store, stale) && Roots(e) !! stale
    ensures var v := Eval(o, st, e).value;
            v.Some? ==> Describes(Some(ExpressionBinding(env, e)), v)
    decreases e, 0
  {
    match e
    case Name(id) => assert DescribesName(env, st.store, id);
    case NoneLiteral =>
    case Attribute(value, attr) =>
      var r := Eval(o, st, value);
      if r.value.Some? {
        if attr in BINDING_ATTRIBUTES { EvalDescribed(o, st, value, env, stale); }
        AttributeDescribed(o(r.st.pos), ExpressionBinding(env, value), r.value.value, attr);
      }
    case Call(line, func, args) => CalleeDescribed(o, st, line, func, env, stale);
    case IfExp(test, body, orelse) =>
      var t := Eval(o, st, test);
      if t.value.Some? {
        var arm := if o(t.st.pos).taken then body else orelse;
        EvalDescribed(o, t.st.Next(), arm, env, stale);
        var v := Eval(o, t.st.Next(), arm).value;
        if v.Some? {
          MergeCovers({Some(ExpressionBinding(env, body)), Some(ExpressionBinding(env, orelse))},
                      Some(ExpressionBinding(env, arm)), v);
        }
      }
    case Other(_) =>
  }

  lemma {:induction false} CalleeDescribed(o: Oracle, st: State, line: nat, func: Expr, env: Env, stale: set<string>)
    requires DescribesExcept(env, st.store, stale) && Roots(func) !! stale
    ensures var v := EvalCallee(o, st, line, func).value;
            v.Some? ==> Describes(Some(ExpressionBinding(env, func)), v)
    decreases func, 1
  {
    match func
    case Attribute(value, attr) =>
      var r := Eval(o, st, value);
      if r.value.Some? {
        if attr in BINDING_ATTRIBUTES { EvalDescribed(o, st, value, env, stale); }
        AttributeDescribed(o(r.st.pos), ExpressionBinding(env, value), r.value.value, attr);
      }
    case _ => EvalDescribed(o, st, func, env, stale);
  }

  /** The environment of a visit is right about the receiver of a candidate call. */
  predicate IsRightAbout(env: Env, ev: Event) {
    match ev.func
    case Name(id) => Describes(Some(Known(Get(env, id))), Some(ev.receiver))
    case Attribute(value, attr) =>
      attr in CANDIDATE_ATTRIBUTES ==> Describes(Some(ExpressionBinding(env, value)), Some(ev.receiver))
    case _ => true
  }

  /** The visitor has met this call, in an environment that is right about its receiver. */
  ghost predicate IsMet(ev: Event, visits: set<Visit>) {
    exists env :: Visit(ev.line, ev.func, env) in visits && IsRightAbout(env, ev)
  }

  ghost predicate AllMet(before: State, after: State, visits: set<Visit>) {
    forall ev :: ev in after.events && ev !in before.events ==> IsMet(ev, visits)
  }

  lemma AllMetThen(s0: State, s1: State, s2: State, fewer: set<Visit>, visits: set<Visit>)
    requires AllMet(s0, s1, fewer) && AllMet(s1, s2, visits) && fewer <= visits
    ensures AllMet(s0, s2, visits)
  {
    forall ev | ev in s2.events && ev !in s0.events
      ensures IsMet(ev, visits)
    {
      if ev in s1.events {
        var env :| Visit(ev.line, ev.func, env) in fewer && IsRightAbout(env, ev);
        assert Visit(ev.line, ev.func, env) in visits;
      }
    }
  }

  lemma {:induction false} ExprCallsMet(o: Oracle, st: State, e: Expr, a: Analysis, stale: set<string>)
    requires DescribesExcept(a.env, st.store, stale) && CallRoots(e) !! stale
    ensures AllMet(st, Eval(o, st, e).st, VisitExpr(a, e).visits)
    decreases e, 0
  {
    match e
    case Name(_) =>
    case NoneLiteral =>
    case Attribute(value, _) => ExprCallsMet(o, st, value, a, stale);
    case Call(line, func, args) =>
      var a0 := a.(visits := a.visits + {Visit(line, func, a.env)});
      var a1 := VisitExpr(a0, func);
      var f := EvalCallee(o, st, line, func);
      assert Visit(line, func, a.env) in a1.visits;
      CalleeCallsMet(o, st, line, func, a0, stale);
      if f.value.Some? {
        PartsCallsMet(o, f.st, args, a1, stale);
        AllMetThen(st, f.st, EvalParts(o, f.st, args).st, a1.visits, VisitExprs(a1, args).visits);
      } else {
        AllMetThen(st, f.st, f.st, a1.visits, VisitExprs(a1, args).visits);
      }
    case IfExp(test, body, orelse) =>
      var t := Eval(o, st, test);
      var a1, a2 := VisitExpr(a, test), VisitExpr(VisitExpr(a, test), body);
      ExprCallsMet(o, st, test, a, stale);
      if t.value.Some? {
        if o(t.st.pos).taken {
          ExprCallsMet(o, t.st.Next(), body, a1, stale);
          AllMetThen(st, t.st.Next(), Eval(o, t.st.Next(), body).st, a1.visits, a2.visits);
          AllMetThen(st, Eval(o, st, e).st, Eval(o, st, e).st, a2.visits, VisitExpr(a2, orelse).visits);
        } else {
          ExprCallsMet(o, t.st.Next(), orelse, a2, stale);
          AllMetThen(st, t.st.Next(), Eval(o, t.st.Next(), orelse).st, a1.visits, VisitExpr(a2, orelse).visits);
        }
      } else {
        AllMetThen(st, t.st, t.st, a1.visits, VisitExpr(a2, orelse).visits);
      }
    case Other(parts) => PartsCallsMet(o, st, parts, a, stale);
  }

  lemma {:induction false} CalleeCallsMet(o: Oracle, st: State, line: nat, func: Expr, a: Analysis, stale: set<string>)
    requires DescribesExcept(a.env, st.store, stale) && (ReceiverRoots(func) + CallRoots(func)) !! stale
    requires Visit(line, func, a.env) in a.visits
    ensures AllMet(st, EvalCallee(o, st, line, func).st, VisitExpr(a, func).visits)
    decreases func, 1
  {
    match func
    case Name(_) => EvalDescribed(o, st, func, a.env, stale);
    case Attribute(value, attr) =>
      ExprCallsMet(o, st, value, a, stale);
      var r := Eval(o, st, value);
      if r.value.Some? {
        if attr in CANDIDATE_ATTRIBUTES { EvalDescribed(o, st, value, a.env, stale); }
        assert IsRightAbout(a.env, Reached(line, func, r.value.value));
      }
    case _ => ExprCallsMet(o, st, func, a, stale);
  }

  lemma {:induction false} PartsCallsMet(o: Oracle, st: State, es: seq<Expr>, a: Analysis, stale: set<string>)
    requires DescribesExcept(a.env, st.store, stale) && CallRootsOfAll(es) !! stale
    ensures AllMet(st, EvalParts(o, st, es).st, VisitExprs(a, es).visits)
    decreases es, 0
  {
    if es == [] {
    } else {
      var a1 := VisitExpr(a, es[0]);
      if !o(st.pos).taken {
        PartsCallsMet(o, st.Next(), es[1..], a1, stale);
      } else {
        var r := Eval(o, st.Next(), es[0]);
        ExprCallsMet(o, st.Next(), es[0], a, stale);
        if r.value.Some? {
          PartsCallsMet(o, r.st, es[1..], a1, stale);
          AllMetThen(st, r.st, EvalParts(o, r.st, es[1..]).st, a1.visits, VisitExprs(a1, es[1..]).visits);
        } else {
          AllMetThen(st, r.st, r.st, a1.visits, VisitExprs(a1, es[1..]).visits);
        }
      }
    }
  }
}
