/**
 The visitor object of the binding analyser: it updates its bindings and result sets in place,
 saves and restores the bindings around branches, and merges them at joins.
 */
module BindingVisitor {
  import opened Wrappers
  import opened PythonFragment
  import opened BindingAnalyzer

  /** One more visited call adds exactly its own entry to the three result sets. */
  lemma OneMoreVisit(visits: set<Visit>, v: Visit)
    ensures EnginesOf(visits + {v}) == EnginesOf(visits) + (if v.Kind() == Engine then {v.line} else {})
    ensures MetasOf(visits + {v}) == MetasOf(visits) + (if v.Kind() == Meta then {v.line} else {})
    ensures UnresolvedOf(visits + {v})
         == UnresolvedOf(visits)
            + (if v.Kind() == UnresolvedEngine || v.Kind() == UnresolvedMeta then {(v.line, v.Kind())} else {})
  {
    var more := visits + {v};
    assert forall w :: w in more <==> w in visits || w == v;
  }

  /** Visiting handlers one at a time, with the paths collected so far. */
  lemma FirstHandler(a: Analysis, baseline: Env, hs: seq<Handler>, paths: seq<Env>)
    requires hs != []
    ensures var h := VisitHandler(a, baseline, hs[0]);
            var all, rest := VisitHandlers(a, baseline, hs), VisitHandlers(h, baseline, hs[1..]);
            && all.0 == rest.0
            && paths + all.1 == (paths + (if BlockTerminates(hs[0].body) then [] else [h.env])) + rest.1
  {
    var h := VisitHandler(a, baseline, hs[0]);
    var rest := VisitHandlers(h, baseline, hs[1..]).1;
    assert paths + ([h.env] + rest) == (paths + [h.env]) + rest && paths + ([] + rest) == (paths + []) + rest;
  }

  method MergeInto(envs: seq<Env>) returns (merged: Env)
    ensures merged == MergeEnvironments(envs)
  {
    var names := AllNames(envs);
    merged := map[];
    while names != {}
      invariant names <= AllNames(envs)
      invariant merged == map n | n in AllNames(envs) - names && MergeBinding(KindsOf(envs, n)).Some?
                            :: MergeBinding(KindsOf(envs, n)).value
      decreases |names|
    {
      var name :| name in names;
      var kind := MergeBinding(KindsOf(envs, name));
      if kind.Some? {
        merged := merged[name := kind.value];
      }
      names := names - {name};
    }
  }

  class Visitor {
    var bindings: Env
    var engines: set<nat>
    var metas: set<nat>
    var unresolved: set<(nat, CallKind)>
    ghost var visits: set<Visit>

    ghost predicate Valid()
      reads this
    {
      engines == EnginesOf(visits) && metas == MetasOf(visits) && unresolved == UnresolvedOf(visits)
    }

    ghost function View(): Analysis
      reads this
    {
      Analysis(bindings, visits)
    }

    constructor ()
      ensures Valid() && View() == Analysis(map[], {})
    {
      bindings, engines, metas, unresolved, visits := map[], {}, {}, {}, {};
    }

    method Bind(name: string, kind: Binding)
      modifies this`bindings
      ensures View() == old(View()).Bind(name, kind)
    {
      bindings := bindings[name := kind];
    }

    method BindAll(names: set<string>)
      modifies this`bindings
      ensures View() == BindAllUnknown(old(View()), names)
    {
      var rest := names;
      while rest != {}
        invariant rest <= names
        invariant bindings == old(bindings) + map n | n in names - rest :: Unknown
        decreases |rest|
      {
        var name :| name in rest;
        Bind(name, Unknown);
        rest := rest - {name};
      }
    }

    method VisitCall(line: nat, func: Expr)
      requires Valid()
      modifies this`engines, this`metas, this`unresolved, this`visits
      ensures Valid() && visits == old(visits) + {Visit(line, func, bindings)}
    {
      ghost var v := Visit(line, func, bindings);
      OneMoreVisit(visits, v);
      var kind := Classify(bindings, func);
      if kind == Engine {
        engines := engines + {line};
      } else if kind == Meta {
        metas := metas + {line};
      } else if kind == UnresolvedEngine || kind == UnresolvedMeta {
        unresolved := unresolved + {(line, kind)};
      }
      visits := visits + {v};
    }

    method VisitExpression(e: Expr)
      requires Valid()
      modifies this`engines, this`metas, this`unresolved, this`visits
      ensures Valid() && View() == VisitExpr(old(View()), e)
      decreases e, 0
    {
      match e
      case Name(_) =>
      case NoneLiteral =>
      case Attribute(value, _) => VisitExpression(value);
      case Call(line, func, args) =>
        VisitCall(line, func);
        VisitExpression(func);
        VisitExpressions(args);
      case IfExp(test, body, orelse) =>
        VisitExpression(test);
        VisitExpression(body);
        VisitExpression(orelse);
      case Other(parts) => VisitExpressions(parts);
    }

    method VisitExpressions(es: seq<Expr>)
      requires Valid()
      modifies this`engines, this`metas, this`unresolved, this`visits
      ensures Valid() && View() == VisitExprs(old(View()), es)
      decreases es, 0
    {
      for i := 0 to |es|
        invariant Valid() && bindings == old(bindings)
        invariant VisitExprs(View(), es[i..]) == VisitExprs(old(View()), es)
      {
        VisitExpression(es[i]);
      }
    }

    method VisitImport(names: seq<Alias>)
      modifies this`bindings
      ensures View() == BindImports(old(View()), names)
    {
      for i := 0 to |names|
        invariant BindImports(View(), names[i..]) == BindImports(old(View()), names)
      {
        Bind(ImportedName(names[i]), ImportBinding(names[i]));
      }
    }

    method VisitImportFrom(level: nat, mod: string, names: seq<Alias>)
      modifies this`bindings
      ensures View() == BindFromImports(old(View()), level, mod, names)
    {
      for i := 0 to |names|
        invariant BindFromImports(View(), level, mod, names[i..]) == BindFromImports(old(View()), level, mod, names)
      {
        if names[i].name != "*" {
          Bind(FromImportedName(names[i]), FromImportBinding(level, mod, names[i].name));
        }
      }
    }

    method VisitAssign(targets: seq<Target>, value: Expr)
      requires Valid()
      modifies this
      ensures Valid() && View() == VisitStmt(old(View()), Assign(targets, value))
    {
      VisitExpression(value);
      var kind := AssignmentBinding(bindings, value);
      ghost var evaluated := View();
      for i := 0 to |targets|
        invariant Valid()
        invariant BindTargets(View(), targets[i..], kind) == BindTargets(evaluated, targets, kind)
      {
        if targets[i].NameTarget? {
          Bind(targets[i].id, kind);
        } else {
          BindAll(BoundNames(targets[i]));
        }
      }
    }

    /** Analyses a branch from the given bindings and hands back what it leaves behind. */
    method AnalyzeBranch(ss: seq<Stmt>, baseline: Env) returns (result: Env, terminates: bool)
      requires Valid()
      modifies this
      ensures Valid() && View() == VisitBlock(old(View()).In(baseline), ss)
      ensures result == bindings && terminates == BlockTerminates(ss)
      decreases ss, 1
    {
      bindings := baseline;
      VisitStatements(ss);
      result, terminates := bindings, BlockTerminates(ss);
    }

    method VisitIf(s: Stmt)
      requires Valid() && s.If?
      modifies this
      ensures Valid() && View() == VisitStmt(old(View()), s)
      decreases s, 0
    {
      VisitExpression(s.test);
      var baseline := bindings;
      var body, bodyTerminates := AnalyzeBranch(s.body, baseline);
      var other, otherTerminates := baseline, false;
      if s.orelse != [] {
        other, otherTerminates := AnalyzeBranch(s.orelse, baseline);
      }
      var reachable: seq<Env> := [];
      if !bodyTerminates { reachable := reachable + [body]; }
      if !otherTerminates { reachable := reachable + [other]; }
      assert reachable == IfPaths(s, body, other);
      if reachable != [] {
        bindings := MergeInto(reachable);
      } else {
        bindings := baseline;
      }
    }

    method VisitTry(s: Stmt)
      requires Valid() && s.Try?
      modifies this
      ensures Valid() && View() == VisitStmt(old(View()), s)
      decreases s, 0
    {
      var baseline := bindings;
      var body, terminates := AnalyzeBranch(s.body, baseline);
      if !terminates && s.orelse != [] {
        body, terminates := AnalyzeBranch(s.orelse, body);
      }
      assert View() == VisitTryBody(old(View()), s);
      var paths: seq<Env> := if terminates then [] else [body];
      var others := VisitHandlerBlocks(s.handlers, baseline);
      paths := paths + others;
      if paths == [] {
        paths := [baseline];
      }
      bindings := MergeInto(paths);
    }

    /** Each handler starts from `baseline`; those that run on contribute a path. */
    method VisitHandlerBlocks(hs: seq<Handler>, baseline: Env) returns (paths: seq<Env>)
      requires Valid()
      modifies this
      ensures Valid() && visits == VisitHandlers(old(View()), baseline, hs).0.visits
      ensures paths == VisitHandlers(old(View()), baseline, hs).1
      decreases hs, 0
    {
      paths := [];
      ghost var all := VisitHandlers(View(), baseline, hs);
      for i := 0 to |hs|
        invariant Valid()
        invariant VisitHandlers(View(), baseline, hs[i..]).0.visits == all.0.visits
        invariant paths + VisitHandlers(View(), baseline, hs[i..]).1 == all.1
      {
        FirstHandler(View(), baseline, hs[i..], paths);
        assert hs[i..][0] == hs[i] && hs[i..][1..] == hs[i + 1..];
        VisitHandlerBlock(hs[i], baseline);
        paths := paths + (if BlockTerminates(hs[i].body) then [] else [bindings]);
      }
    }

    method VisitHandlerBlock(h: Handler, baseline: Env)
      requires Valid()
      modifies this
      ensures Valid() && View() == VisitHandler(old(View()), baseline, h)
      decreases h, 0
    {
      bindings := baseline;
      if h.kind.Some? { VisitExpression(h.kind.value); }
      if h.name.Some? { Bind(h.name.value, Unknown); }
      VisitStatements(h.body);
    }

    method VisitWhile(s: Stmt)
      requires Valid() && s.While?
      modifies this
      ensures Valid() && View() == VisitStmt(old(View()), s)
      decreases s, 0
    {
      VisitExpression(s.test);
      var baseline := bindings;
      var body, _ := AnalyzeBranch(s.body, baseline);
      bindings := MergeInto([baseline, body]);
      VisitStatements(s.orelse);
    }

    method VisitFor(s: Stmt)
      requires Valid() && s.For?
      modifies this
      ensures Valid() && View() == VisitStmt(old(View()), s)
      decreases s, 0
    {
      VisitExpression(s.iter);
      var baseline := bindings;
      BindAll(BoundNames(s.target));
      VisitStatements(s.body);
      bindings := MergeInto([baseline, bindings]);
      VisitStatements(s.orelse);
    }

    method VisitStatement(s: Stmt)
      requires Valid()
      modifies this
      ensures Valid() && View() == VisitStmt(old(View()), s)
      decreases s, 1
    {
      match s
      case Import(names) => VisitImport(names);
      case ImportFrom(level, mod, names) => VisitImportFrom(level, mod, names);
      case Assign(targets, value) => VisitAssign(targets, value);
      case AugAssign(target, value) =>
        VisitExpression(value);
        BindAll(BoundNames(target));
      case Delete(targets) => BindAll(BoundNamesOfAll(targets));
      case ExprStmt(value) => VisitExpression(value);
      case Return(value) => VisitExpression(value);
      case Raise(value) => VisitExpression(value);
      case If(_, _, _) => VisitIf(s);
      case Try(_, _, _) => VisitTry(s);
      case While(_, _, _) => VisitWhile(s);
      case For(_, _, _, _) => VisitFor(s);
      case With(context, target, body, _) =>
        VisitExpression(context);
        if target.Some? {
          BindAll(BoundNames(target.value));
        } else {
          assert BindAllUnknown(View(), {}).env == bindings;
        }
        VisitStatements(body);
    }

    method VisitStatements(ss: seq<Stmt>)
      requires Valid()
      modifies this
      ensures Valid() && View() == VisitBlock(old(View()), ss)
      decreases ss, 0
    {
      for i := 0 to |ss|
        invariant Valid()
        invariant VisitBlock(View(), ss[i..]) == VisitBlock(old(View()), ss)
      {
        VisitStatement(ss[i]);
      }
    }
  }

  /** Analyses a module and returns its engine, meta and unresolved call sites. */
  method Analyze(ss: seq<Stmt>) returns (engines: set<nat>, metas: set<nat>, unresolved: set<(nat, CallKind)>)
    ensures var visits := VisitBlock(Analysis(map[], {}), ss).visits;
            engines == EnginesOf(visits) && metas == MetasOf(visits) && unresolved == UnresolvedOf(visits)
  {
    var visitor := new Visitor();
    visitor.VisitStatements(ss);
    engines, metas, unresolved := visitor.engines, visitor.metas, visitor.unresolved;
  }
}
