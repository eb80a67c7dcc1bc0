/**
 When a call is recorded: exactly when everything the environment allows for its receiver makes it
 an engine or meta call.  So the visitor may not give a call up, drop a binding it could keep, or
 merge in a branch that never goes on.
 */
module BindingRecording {
  import opened Wrappers
  import opened PythonFragment
  import opened BindingAnalyzer
  import opened PythonSemantics
  import opened BindingSoundness
  import opened BindingFrames
  import opened BindingTheorem
  import opened BindingLimits
  import opened BindingPrecision

  // ----- which calls are recorded -----

  predicate IsRecorded(kind: CallKind) { kind == Engine || kind == Meta }

  /** Whatever the called name or the receiver may be, the call is a true engine or meta call. */
  ghost predicate IsSurelyTrue(env: Env, func: Expr) {
    forall v: Value :: IsRightAbout(env, Reached(0, func, v)) ==> IsTrueCall(env, Reached(0, func, v))
  }

  lemma RecordedIff(env: Env, func: Expr)
    ensures IsRecorded(Classify(env, func)) <==> IsSurelyTrue(env, func)
  {
    if IsRecorded(Classify(env, func)) {
      forall v: Value | IsRightAbout(env, Reached(0, func, v)) ensures IsTrueCall(env, Reached(0, func, v)) {
        RightClassification(env, Reached(0, func, v));
      }
    } else {
      var v := match func
        case Name(id) => Sample(Known(Get(env, id)))
        case Attribute(value, _) => Sample(ExpressionBinding(env, value))
        case _ => NoneV;
      assert IsRightAbout(env, Reached(0, func, v)) && !IsTrueCall(env, Reached(0, func, v));
    }
  }

  predicate IsCandidate(func: Expr) { func.Attribute? && func.attr in CANDIDATE_ATTRIBUTES }

  predicate IsSchemaCheck(func: Expr) { func.Attribute? && func.attr == "check_schema" }

  /** Candidate calls that are not recorded are unresolved; all others are not mentioned. */
  lemma ClassesAre(env: Env, func: Expr)
    ensures IsSurelyTrue(env, func) ==> Classify(env, func) == if IsSchemaCheck(func) then Meta else Engine
    ensures !IsSurelyTrue(env, func) ==>
              Classify(env, func) == if !IsCandidate(func) then NotRecorded
                                     else if IsSchemaCheck(func) then UnresolvedMeta else UnresolvedEngine
  {
    RecordedIff(env, func);
  }

  /** So a visit whose call is surely true puts its line on the engine or the meta list. */
  lemma TrueCallsAreListed(visits: set<Visit>, v: Visit)
    requires v in visits && IsSurelyTrue(v.env, v.func)
    ensures v.line in (if IsSchemaCheck(v.func) then MetasOf(visits) else EnginesOf(visits))
  {
    ClassesAre(v.env, v.func);
  }

  // ----- a name that is not rebound keeps its binding in all visits -----

  lemma {:induction false} ExprVisitedInEnv(a: Analysis, e: Expr)
    ensures forall v <- VisitExpr(a, e).visits :: v in a.visits || v.env == a.env
    decreases e
  {
    match e
    case Name(_) =>
    case NoneLiteral =>
    case Attribute(value, _) => ExprVisitedInEnv(a, value);
    case Call(line, func, args) =>
      var a0 := a.(visits := a.visits + {Visit(line, func, a.env)});
      ExprVisitedInEnv(a0, func);
      ExprsVisitedInEnv(VisitExpr(a0, func), args);
    case IfExp(test, body, orelse) =>
      ExprVisitedInEnv(a, test);
      ExprVisitedInEnv(VisitExpr(a, test), body);
      ExprVisitedInEnv(VisitExpr(VisitExpr(a, test), body), orelse);
    case Other(parts) => ExprsVisitedInEnv(a, parts);
  }

  lemma {:induction false} ExprsVisitedInEnv(a: Analysis, es: seq<Expr>)
    ensures forall v <- VisitExprs(a, es).visits :: v in a.visits || v.env == a.env
    decreases es
  {
    if es != [] {
      ExprVisitedInEnv(a, es[0]);
      ExprsVisitedInEnv(VisitExpr(a, es[0]), es[1..]);
    }
  }

  /** The visits made between two analyses see `n` with the binding `k`. */
  ghost predicate SeeBinding(before: Analysis, after: Analysis, n: string, k: Option<Binding>) {
    forall v <- after.visits :: v in before.visits || Get(v.env, n) == k
  }

  lemma SeeThen(a: Analysis, b: Analysis, c: Analysis, n: string, k: Option<Binding>)
    requires SeeBinding(a, b, n, k) && SeeBinding(b, c, n, k)
    ensures SeeBinding(a, c, n, k)
  {}

  lemma {:induction false} StmtSeesBinding(a: Analysis, s: Stmt, n: string)
    requires n !in Bound(s)
    ensures SeeBinding(a, VisitStmt(a, s), n, Get(a.env, n))
    decreases s, 2
  {
    var k := Get(a.env, n);
    match s
    case Import(_) =>
    case ImportFrom(_, _, _) =>
    case Assign(_, value) => ExprVisitedInEnv(a, value);
    case AugAssign(_, value) => ExprVisitedInEnv(a, value);
    case Delete(_) =>
    case ExprStmt(value) => ExprVisitedInEnv(a, value);
    case Return(value) => ExprVisitedInEnv(a, value);
    case Raise(value) => ExprVisitedInEnv(a, value);
    case If(test, body, orelse) =>
      var a0 := VisitExpr(a, test);
      var b := VisitBlock(a0, body);
      ExprVisitedInEnv(a, test);
      BlockSeesBinding(a0, body, n);
      BlockSeesBinding(b.In(a.env), orelse, n);
    case Try(_, _, _) => TrySeesBinding(a, s, n);
    case While(test, _, _) =>
      ExprVisitedInEnv(a, test);
      LoopSeesBinding(VisitExpr(a, test), a.env, s, n);
    case For(target, iter, _, _) =>
      ExprVisitedInEnv(a, iter);
      LoopSeesBinding(BindAllUnknown(VisitExpr(a, iter), BoundNames(target)), a.env, s, n);
    case With(context, target, body, _) =>
      ExprVisitedInEnv(a, context);
      BlockSeesBinding(BindAllUnknown(VisitExpr(a, context), OptionalBoundNames(target)), body, n);
  }

  lemma {:induction false} TrySeesBinding(a: Analysis, s: Stmt, n: string)
    requires s.Try? && n !in Bound(s)
    ensures SeeBinding(a, VisitStmt(a, s), n, Get(a.env, n))
    decreases s, 1
  {
    var b := VisitBlock(a, s.body);
    BlockSeesBinding(a, s.body, n);
    VisitBlockFrame(a, s.body, n);
    if !BlockTerminates(s.body) { BlockSeesBinding(b, s.orelse, n); }
    HandlersSeeBinding(VisitTryBody(a, s), a.env, s.handlers, n);
  }

  lemma {:induction false} LoopSeesBinding(a0: Analysis, baseline: Env, s: Stmt, n: string)
    requires (s.While? || s.For?) && n !in Bound(s) && Get(a0.env, n) == Get(baseline, n)
    ensures var b := VisitBlock(a0, s.body);
            SeeBinding(a0, VisitBlock(b.In(MergeEnvironments([baseline, b.env])), s.orelse), n, Get(baseline, n))
    decreases s, 1
  {
    var b := VisitBlock(a0, s.body);
    BlockSeesBinding(a0, s.body, n);
    VisitBlockFrame(a0, s.body, n);
    MergedEnvironmentAgrees([baseline, b.env], n, Get(baseline, n));
    BlockSeesBinding(b.In(MergeEnvironments([baseline, b.env])), s.orelse, n);
  }

  lemma {:induction false} HandlersSeeBinding(a: Analysis, baseline: Env, hs: seq<Handler>, n: string)
    requires n !in BoundInHandlers(hs)
    ensures SeeBinding(a, VisitHandlers(a, baseline, hs).0, n, Get(baseline, n))
    decreases hs, 0
  {
    if hs != [] {
      var h := hs[0];
      var k := VisitOptionalExpr(a.In(baseline), h.kind);
      if h.kind.Some? { ExprVisitedInEnv(a.In(baseline), h.kind.value); }
      BlockSeesBinding(BindOptionalName(k, h.name), h.body, n);
      HandlersSeeBinding(VisitHandler(a, baseline, h), baseline, hs[1..], n);
    }
  }

  lemma {:induction false} BlockSeesBinding(a: Analysis, ss: seq<Stmt>, n: string)
    requires n !in BoundIn(ss)
    ensures SeeBinding(a, VisitBlock(a, ss), n, Get(a.env, n))
    decreases ss, 0
  {
    if ss != [] {
      var a1 := VisitStmt(a, ss[0]);
      StmtSeesBinding(a, ss[0], n);
      VisitFrame(a, ss[0], n);
      BlockSeesBinding(a1, ss[1..], n);
      SeeThen(a, a1, VisitBlock(a1, ss[1..]), n, Get(a.env, n));
    }
  }

  lemma {:induction false} BindingFromRoots(env: Env, env': Env, e: Expr)
    requires forall n <- Roots(e) :: Get(env, n) == Get(env', n)
    ensures ExpressionBinding(env, e) == ExpressionBinding(env', e)
    decreases e
  {
    match e
    case Name(_) =>
    case NoneLiteral =>
    case Attribute(value, attr) => if attr in BINDING_ATTRIBUTES { BindingFromRoots(env, env', value); }
    case Call(_, func, _) => BindingFromRoots(env, env', func);
    case IfExp(_, body, orelse) =>
      BindingFromRoots(env, env', body);
      BindingFromRoots(env, env', orelse);
    case Other(_) =>
  }

  lemma ClassFromRoots(env: Env, env': Env, func: Expr)
    requires forall n <- ReceiverRoots(func) :: Get(env, n) == Get(env', n)
    ensures Classify(env, func) == Classify(env', func)
  {
    match func
    case Attribute(value, attr) => if attr in CANDIDATE_ATTRIBUTES { BindingFromRoots(env, env', value); }
    case _ =>
  }

  /**
   Wherever a call is written in a block -- in a branch, a loop, a handler, an argument -- it is
   classified as it would be before the block, if the block does not rebind what it is called on.
   */
  lemma UnreboundCallsKeepTheirClass(env: Env, ss: seq<Stmt>, line: nat, func: Expr) returns (v: Visit)
    requires (line, func) in CallsInBlock(ss) && ReceiverRoots(func) !! BoundIn(ss)
    ensures v in VisitBlock(Analysis(env, {}), ss).visits
    ensures v.line == line && v.func == func && v.Kind() == Classify(env, func)
  {
    var a := Analysis(env, {});
    BlockVisitsItsCalls(a, ss);
    v :| v in VisitBlock(a, ss).visits && (v.line, v.func) == (line, func);
    forall n <- ReceiverRoots(func) ensures Get(v.env, n) == Get(env, n) { BlockSeesBinding(a, ss, n); }
    ClassFromRoots(v.env, env, func);
  }

  /** In particular it is on its list if it is surely a true call before the block. */
  lemma UnreboundTrueCallsAreListed(env: Env, ss: seq<Stmt>, line: nat, func: Expr)
    requires (line, func) in CallsInBlock(ss) && ReceiverRoots(func) !! BoundIn(ss) && IsSurelyTrue(env, func)
    ensures var visits := VisitBlock(Analysis(env, {}), ss).visits;
            line in (if IsSchemaCheck(func) then MetasOf(visits) else EnginesOf(visits))
  {
    var v := UnreboundCallsKeepTheirClass(env, ss, line, func);
    ClassesAre(env, func);
  }

  // ----- the binding of an expression is the value that it can have -----

  /** Names, attributes and calls; no conditional, which may take either arm. */
  predicate IsChain(e: Expr) {
    match e
    case Name(_) => true
    case Attribute(value, _) => IsChain(value)
    case Call(_, func, _) => IsChain(func)
    case _ => false
  }

  /** Nothing raises, arguments are not reached, and every open value is foreign. */
  const PLAIN := Choice(false, false, ForeignV(0), 0, map[])

  /** One of the stores that the environment describes. */
  function SampleStore(env: Env): Store { map n | n in env :: Sample(env[n]) }

  lemma AttributeSample(base: Binding, attr: string)
    ensures var v := AttributeOf(PLAIN, Sample(base), attr);
            if base == NoneBinding && IsTrackedAttribute(attr) then v == None
            else v == Some(Sample(AttributeBinding(base, attr)))
  {}

  lemma CallSample(callee: Binding)
    ensures Invoke(PLAIN, Sample(callee)) == Some(Sample(CallBinding(callee)))
  {}

  /** Some attribute of `None` is looked up that `None` does not have. */
  predicate HitsNone(env: Env, e: Expr) {
    match e
    case Attribute(value, attr) =>
      HitsNone(env, value) || (ExpressionBinding(env, value) == NoneBinding && IsTrackedAttribute(attr))
    case Call(_, func, _) => HitsNone(env, func)
    case _ => false
  }

  /** What the expression gives: the sample value of its binding, unless it fails on `None`. */
  predicate IsSampled(env: Env, e: Expr, v: Option<Value>) {
    v == if HitsNone(env, e) then None else Some(Sample(ExpressionBinding(env, e)))
  }

  /**
   Evaluated in that store, an expression has the sample value of its binding; so the analyser knows
   what there is to know.
   */
  lemma {:induction false} ChainHasSampleValue(env: Env, st: State, e: Expr)
    requires IsChain(e) && st.store == SampleStore(env)
    ensures IsSampled(env, e, Eval(k => PLAIN, st, e).value)
    decreases e, 0
  {
    match e
    case Name(_) =>
    case Attribute(value, attr) =>
      ChainHasSampleValue(env, st, value);
      AttributeSample(ExpressionBinding(env, value), attr);
    case Call(line, func, args) =>
      CalleeHasSampleValue(env, st, line, func);
      var f := EvalCallee(k => PLAIN, st, line, func);
      if f.value.Some? { NoPartsReached(f.st, args); }
      CallSample(ExpressionBinding(env, func));
  }

  lemma {:induction false} CalleeHasSampleValue(env: Env, st: State, line: nat, func: Expr)
    requires IsChain(func) && st.store == SampleStore(env)
    ensures IsSampled(env, func, EvalCallee(k => PLAIN, st, line, func).value)
    decreases func, 1
  {
    match func
    case Attribute(value, attr) =>
      ChainHasSampleValue(env, st, value);
      AttributeSample(ExpressionBinding(env, value), attr);
    case Name(_) => ChainHasSampleValue(env, st, func);
    case Call(_, _, _) => ChainHasSampleValue(env, st, func);
  }

  lemma {:induction false} NoPartsReached(st: State, es: seq<Expr>)
    ensures EvalParts(k => PLAIN, st, es).value == Some(NoneV)
    decreases es
  {
    if es != [] { NoPartsReached(st.Next(), es[1..]); }
  }

  lemma SampleStoreIsDescribed(env: Env)
    ensures forall n :: DescribesName(env, SampleStore(env), n)
  {}

  /** A conditional is unknown only if no other binding covers both arms, but for one pair. */
  lemma ConditionalIsStrongest(env: Env, test: Expr, body: Expr, orelse: Expr, k: Option<Binding>)
    requires ExpressionBinding(env, IfExp(test, body, orelse)) == Unknown
    requires {Some(ExpressionBinding(env, body)), Some(ExpressionBinding(env, orelse))} != MODULE_OR_OPTIONAL
    requires forall v :: Describes(Some(ExpressionBinding(env, body)), v) ==> Describes(k, v)
    requires forall v :: Describes(Some(ExpressionBinding(env, orelse)), v) ==> Describes(k, v)
    ensures k == Some(Unknown)
  {
    var kinds := {Some(ExpressionBinding(env, body)), Some(ExpressionBinding(env, orelse))};
    assert kinds != {} && None !in kinds;
    PairIsKnown(kinds);
    MergeIsStrongest(kinds, k);
  }

  lemma PairIsKnown(kinds: set<Option<Binding>>)
    requires kinds != {} && None !in kinds
    ensures MergeBinding(kinds).Some?
  {}

  /** An assigned name keeps what is surely an instance or surely `None`, and nothing else. */
  lemma AssignedBindingIs(env: Env, e: Expr)
    ensures (forall v :: Describes(Some(ExpressionBinding(env, e)), Some(v)) ==> v == InstanceV) ==>
              AssignmentBinding(env, e) == ValidatorInstance
    ensures (forall v :: Describes(Some(ExpressionBinding(env, e)), Some(v)) ==> v == NoneV) ==>
              AssignmentBinding(env, e) == NoneBinding
    ensures AssignmentBinding(env, e) in {ValidatorInstance, NoneBinding, Unknown}
  {
    assert Describes(Some(ExpressionBinding(env, e)), Some(Sample(ExpressionBinding(env, e))));
  }

  /** An import is unknown only where the imported value may be foreign. */
  lemma UnknownImportMayBeForeign(al: Alias, level: nat, mod: string)
    ensures ImportBinding(al) == Unknown ==> ImportedValue(PLAIN, al) == ForeignV(0)
    ensures FromImportBinding(level, mod, al.name) == Unknown ==>
              FromImportedValue(PLAIN, level, mod, al.name) == ForeignV(0)
  {}

  /** `import a.b.c` binds `a`; an alias binds itself. */
  lemma ImportedNameIs(head: string, rest: string, as_: string)
    requires '.' !in head
    ensures ImportedName(Alias(head, None)) == head
    ensures ImportedName(Alias(head + "." + rest, None)) == head
    ensures ImportedName(Alias(head, Some(as_))) == as_ && FromImportedName(Alias(head, Some(as_))) == as_
    ensures FromImportedName(Alias(head, None)) == head
  {
    FirstSegmentIsWhole(head);
    FirstSegmentStops(head, rest);
  }

  lemma {:induction false} FirstSegmentStops(head: string, rest: string)
    requires '.' !in head
    ensures FirstSegment(head + "." + rest) == head
  {
    if head != "" {
      FirstSegmentStops(head[1..], rest);
      assert (head + "." + rest)[1..] == head[1..] + "." + rest;
    }
  }

  // ----- branches that do not go on are left out -----

  /** A block ends for sure where its last statement does. */
  lemma BlockEnds(ss: seq<Stmt>, e: Expr, body: seq<Stmt>, orelse: seq<Stmt>)
    ensures BlockTerminates(ss + [Return(e)]) && BlockTerminates(ss + [Raise(e)])
    ensures orelse != [] && BlockTerminates(body) && BlockTerminates(orelse) ==>
              BlockTerminates(ss + [If(e, body, orelse)])
  {}

  /** After an `if`, a branch that ends for sure leaves no trace in the environment. */
  lemma EndedBranchIsDropped(a: Analysis, test: Expr, body: seq<Stmt>, orelse: seq<Stmt>, n: string)
    ensures var r, b := VisitStmt(a, If(test, body, orelse)), VisitBlock(VisitExpr(a, test), body);
            var e := VisitBlock(b.In(a.env), orelse);
            && (BlockTerminates(body) && !BlockTerminates(orelse) ==> Get(r.env, n) == Get(e.env, n))
            && (BlockTerminates(orelse) && !BlockTerminates(body) ==> Get(r.env, n) == Get(b.env, n))
            && (BlockTerminates(body) && BlockTerminates(orelse) ==> Get(r.env, n) == Get(a.env, n))
            && (Get(b.env, n) == Get(e.env, n) && !BlockTerminates(body) ==> Get(r.env, n) == Get(b.env, n))
  {
    var b := VisitBlock(VisitExpr(a, test), body);
    var e := VisitBlock(b.In(a.env), orelse);
    if BlockTerminates(body) && !BlockTerminates(orelse) {
      MergedEnvironmentAgrees([e.env], n, Get(e.env, n));
      assert [] + [e.env] == [e.env];
    }
    if BlockTerminates(orelse) && !BlockTerminates(body) {
      MergedEnvironmentAgrees([b.env], n, Get(b.env, n));
      assert [b.env] + [] == [b.env];
    }
    if Get(b.env, n) == Get(e.env, n) && !BlockTerminates(body) && !BlockTerminates(orelse) {
      MergedEnvironmentAgrees([b.env, e.env], n, Get(b.env, n));
      assert [b.env] + [e.env] == [b.env, e.env];
    }
  }

  /** After a `try`, likewise for its body and a handler. */
  lemma EndedHandlerIsDropped(a: Analysis, body: seq<Stmt>, h: Handler, n: string)
    ensures var r, b := VisitStmt(a, Try(body, [h], [])), VisitBlock(a, body);
            var e := VisitHandler(b, a.env, h);
            && (BlockTerminates(h.body) && !BlockTerminates(body) ==> Get(r.env, n) == Get(b.env, n))
            && (BlockTerminates(body) && !BlockTerminates(h.body) ==> Get(r.env, n) == Get(e.env, n))
            && (BlockTerminates(body) && BlockTerminates(h.body) ==> Get(r.env, n) == Get(a.env, n))
            && (Get(b.env, n) == Get(e.env, n) && !BlockTerminates(body) ==> Get(r.env, n) == Get(b.env, n))
  {
    var s := Try(body, [h], []);
    var b := VisitBlock(a, body);
    var e := VisitHandler(b, a.env, h);
    assert VisitTryBody(a, s) == b && [h][1..] == [];
    var paths := VisitHandlers(b, a.env, [h]).1;
    assert VisitHandlers(e, a.env, []).1 == [] && paths == if BlockTerminates(h.body) then [] else [e.env];
    var all := (if BlockTerminates(body) then [] else [b.env]) + paths;
    assert BlockTerminates(body) && BlockTerminates(h.body) ==> all == [];
    assert BlockTerminates(body) && !BlockTerminates(h.body) ==> all == [e.env];
    assert !BlockTerminates(body) && BlockTerminates(h.body) ==> all == [b.env];
    assert !BlockTerminates(body) && !BlockTerminates(h.body) ==> all == [b.env, e.env];
    if all == [] {
      MergedEnvironmentAgrees([a.env], n, Get(a.env, n));
    } else if forall x <- all :: Get(x, n) == Get(all[0], n) {
      MergedEnvironmentAgrees(all, n, Get(all[0], n));
    }
  }

  /** A loop keeps a binding on which the environments before it and after its body agree. */
  lemma LoopKeepsAgreement(a: Analysis, s: Stmt, n: string)
    requires (s.While? || s.For?) && s.orelse == []
    ensures var a0 := if s.While? then VisitExpr(a, s.test)
                      else BindAllUnknown(VisitExpr(a, s.iter), BoundNames(s.target));
            Get(VisitBlock(a0, s.body).env, n) == Get(a.env, n) ==> Get(VisitStmt(a, s).env, n) == Get(a.env, n)
  {
    var a0 := if s.While? then VisitExpr(a, s.test) else BindAllUnknown(VisitExpr(a, s.iter), BoundNames(s.target));
    var b := VisitBlock(a0, s.body);
    if Get(b.env, n) == Get(a.env, n) { MergedEnvironmentAgrees([a.env, b.env], n, Get(a.env, n)); }
  }

  /** What is rebound in a way that the analyser does not follow is unknown. */
  lemma RebindingIsUnknown(a: Analysis, target: Target, targets: seq<Target>, value: Expr, n: string)
    ensures n in BoundNames(target) ==> Get(VisitStmt(a, AugAssign(target, value)).env, n) == Some(Unknown)
    ensures n in BoundNamesOfAll(targets) ==> Get(VisitStmt(a, Delete(targets)).env, n) == Some(Unknown)
    ensures n in BoundNames(target) ==> Get(VisitStmt(a, With(value, Some(target), [], false)).env, n) == Some(Unknown)
  {}

  /** The names that a target is said to bind are those that a store into it can write. */
  lemma {:induction false} BoundNamesAreWritten(st: State, t: Target, v: Value, n: string)
    requires n in BoundNames(t)
    ensures var r := AssignTo(k => PLAIN, st, t, v);
            r.how.Normal? && (Get(r.st.store, n) == Some(v) || Get(r.st.store, n) == Some(ForeignV(0)))
    decreases t, 0
  {
    match t
    case NameTarget(_) =>
    case Group(elts) => AllBoundNamesAreWritten(st, elts, n);
    case Starred(inner) => BoundNamesAreWritten(st.Next(), inner, ForeignV(0), n);
  }

  lemma {:induction false} PlainStoreEnds(st: State, t: Target, v: Value)
    ensures AssignTo(k => PLAIN, st, t, v).how.Normal?
    decreases t, 0
  {
    match t
    case NameTarget(_) =>
    case Group(elts) => PlainStoresEnd(st, elts);
    case Starred(inner) => PlainStoreEnds(st.Next(), inner, ForeignV(0));
    case Place =>
  }

  lemma {:induction false} PlainStoresEnd(st: State, ts: seq<Target>)
    ensures AssignParts(k => PLAIN, st, ts).how.Normal?
    decreases ts, 0
  {
    if ts != [] {
      PlainStoreEnds(st.Next(), ts[0], ForeignV(0));
      PlainStoresEnd(AssignTo(k => PLAIN, st.Next(), ts[0], ForeignV(0)).st, ts[1..]);
    }
  }

  lemma {:induction false} AllBoundNamesAreWritten(st: State, ts: seq<Target>, n: string)
    requires n in BoundNamesOfAll(ts)
    ensures var r := AssignParts(k => PLAIN, st, ts);
            r.how.Normal? && Get(r.st.store, n) == Some(ForeignV(0))
    decreases ts, 0
  {
    var first := AssignTo(k => PLAIN, st.Next(), ts[0], ForeignV(0));
    PlainStoreEnds(st.Next(), ts[0], ForeignV(0));
    PlainStoresEnd(first.st, ts[1..]);
    if n in BoundNamesOfAll(ts[1..]) {
      AllBoundNamesAreWritten(first.st, ts[1..], n);
    } else {
      BoundNamesAreWritten(st.Next(), ts[0], ForeignV(0), n);
      AssignPartsFrame(k => PLAIN, first.st, ts[1..], n);
    }
  }

  // ----- the idioms, end to end -----

  lemma OneFromImport(a: Analysis, level: nat, mod: string, name: string)
    requires name != "*"
    ensures VisitStmt(a, ImportFrom(level, mod, [Alias(name, None)]))
         == a.Bind(name, FromImportBinding(level, mod, name))
  {
    var names := [Alias(name, None)];
    assert names[1..] == [];
    assert BindFromImports(a, level, mod, names)
        == BindFromImports(a.Bind(name, FromImportBinding(level, mod, name)), level, mod, names[1..]);
  }

  lemma OneAssignment(a: Analysis, n: string, value: Expr)
    ensures VisitStmt(a, Assign([NameTarget(n)], value)) == VisitExpr(a, value).Bind(n, AssignmentBinding(a.env, value))
  {
    var ts := [NameTarget(n)];
    assert ts[1..] == [];
    var kind := AssignmentBinding(a.env, value);
    assert BindTargets(VisitExpr(a, value), ts, kind) == BindTargets(VisitExpr(a, value).Bind(n, kind), ts[1..], kind);
  }

  /** A call statement whose class is Engine in the environment puts its line on the list. */
  lemma EngineStatement(a: Analysis, line: nat, func: Expr, args: seq<Expr>)
    requires Classify(a.env, func) == Engine
    ensures line in EnginesOf(VisitStmt(a, ExprStmt(Call(line, func, args))).visits)
  {
    var v := Visit(line, func, a.env);
    assert v in VisitStmt(a, ExprStmt(Call(line, func, args))).visits && v.Kind() == Engine;
  }

  /** `from jsonschema import validate` and then `validate(...)`. */
  lemma ImportedFunctionIsResolved(a: Analysis, line: nat, args: seq<Expr>)
    ensures var ss := [ImportFrom(0, "jsonschema", [Alias("validate", None)]),
                       ExprStmt(Call(line, Name("validate"), args))];
            line in EnginesOf(VisitBlock(a, ss).visits)
  {
    var i, call := ImportFrom(0, "jsonschema", [Alias("validate", None)]), ExprStmt(Call(line, Name("validate"), args));
    OneFromImport(a, 0, "jsonschema", "validate");
    TwoStatements(k => PLAIN, State(map[], 0, {}), a, i, call);
    EngineStatement(VisitStmt(a, i), line, Name("validate"), args);
  }

  /** A name bound to a constructor: `v = Constructor(...)` and then `v.iter_errors(...)`. */
  lemma ConstructedInstance(a: Analysis, c: string, v: string, l: nat, args: seq<Expr>, line: nat, args': seq<Expr>,
                            attr: string)
    requires Get(a.env, c) == Some(ValidatorConstructor) && (attr == "iter_errors" || attr == "validate")
    ensures var ss := [Assign([NameTarget(v)], Call(l, Name(c), args)),
                       ExprStmt(Call(line, Attribute(Name(v), attr), args'))];
            line in EnginesOf(VisitBlock(a, ss).visits)
  {
    var made := Assign([NameTarget(v)], Call(l, Name(c), args));
    var call := ExprStmt(Call(line, Attribute(Name(v), attr), args'));
    OneAssignment(a, v, Call(l, Name(c), args));
    assert ExpressionBinding(a.env, Name(c)) == ValidatorConstructor;
    assert AssignmentBinding(a.env, Call(l, Name(c), args)) == ValidatorInstance;
    assert ExpressionBinding(VisitStmt(a, made).env, Name(v)) == ValidatorInstance;
    TwoStatements(k => PLAIN, State(map[], 0, {}), a, made, call);
    EngineStatement(VisitStmt(a, made), line, Attribute(Name(v), attr), args');
  }

  /** The six validator classes that the analyser knows. */
  predicate IsDraft(name: string) {
    || name == "Draft3Validator" || name == "Draft4Validator" || name == "Draft6Validator"
    || name == "Draft7Validator" || name == "Draft201909Validator" || name == "Draft202012Validator"
  }

  /** They, and no other names, are constructors where they are imported or looked up. */
  lemma ConstructorsAre(name: string)
    ensures FromImportBinding(0, "jsonschema", name) == ValidatorConstructor <==> IsDraft(name)
    ensures FromImportBinding(0, "jsonschema.validators", name) == ValidatorConstructor <==> IsDraft(name)
    ensures AttributeBinding(JsonschemaModule, name) == ValidatorConstructor <==> IsDraft(name)
  {
    assert "validate"[0] == 'v' && "validators"[0] == 'v' && "validator_for"[0] == 'v';
    assert IsDraft(name) ==> name[0] == 'D';
  }

  /** `from jsonschema import Draft7Validator`, `v = Draft7Validator(...)`, `v.iter_errors(...)`. */
  lemma ConstructedInstanceIsResolved(a: Analysis, draft: string, v: string, l: nat, args: seq<Expr>, line: nat,
                                      args': seq<Expr>)
    requires IsDraft(draft)
    ensures var ss := [ImportFrom(0, "jsonschema", [Alias(draft, None)]),
                       Assign([NameTarget(v)], Call(l, Name(draft), args)),
                       ExprStmt(Call(line, Attribute(Name(v), "iter_errors"), args'))];
            line in EnginesOf(VisitBlock(a, ss).visits)
  {
    var i := ImportFrom(0, "jsonschema", [Alias(draft, None)]);
    var rest := [Assign([NameTarget(v)], Call(l, Name(draft), args)),
                 ExprStmt(Call(line, Attribute(Name(v), "iter_errors"), args'))];
    ConstructorsAre(draft);
    OneFromImport(a, 0, "jsonschema", draft);
    ConstructedInstance(VisitStmt(a, i), draft, v, l, args, line, args', "iter_errors");
    assert ([i] + rest)[1..] == rest && [i] + rest == [i, rest[0], rest[1]];
  }
}
