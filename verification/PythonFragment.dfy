/**
 The single-scope fragment of Python that the binding analyser is modelled on.

 A call carries its source line, because the analyser reports calls by line.  A
 `Place` is an attribute or subscript target: it binds no name.  A `With` statement
 says whether its context manager may swallow an exception raised in its body.
 */
module PythonFragment {
  import opened Wrappers

  datatype Expr =
    | Name(id: string)
    | NoneLiteral
    | Attribute(value: Expr, attr: string)
    | Call(line: nat, func: Expr, args: seq<Expr>)
    | IfExp(test: Expr, body: Expr, orelse: Expr)
    | Other(parts: seq<Expr>)

  datatype Target =
    | NameTarget(id: string)
    | Group(elts: seq<Target>)
    | Starred(inner: Target)
    | Place

  datatype Alias = Alias(name: string, asname: Option<string>)

  datatype Handler = Handler(kind: Option<Expr>, name: Option<string>, body: seq<Stmt>)

  datatype Stmt =
    | Import(names: seq<Alias>)
    | ImportFrom(level: nat, mod: string, names: seq<Alias>)
    | Assign(targets: seq<Target>, value: Expr)
    | AugAssign(target: Target, value: Expr)
    | Delete(targets: seq<Target>)
    | ExprStmt(value: Expr)
    | Return(value: Expr)
    | Raise(value: Expr)
    | If(test: Expr, body: seq<Stmt>, orelse: seq<Stmt>)
    | Try(body: seq<Stmt>, handlers: seq<Handler>, orelse: seq<Stmt>)
    | While(test: Expr, body: seq<Stmt>, orelse: seq<Stmt>)
    | For(target: Target, iter: Expr, body: seq<Stmt>, orelse: seq<Stmt>)
    | With(context: Expr, asTarget: Option<Target>, body: seq<Stmt>, maySuppress: bool)

  /** The part of a dotted name before its first dot. */
  function FirstSegment(name: string): string {
    if name == "" || name[0] == '.' then "" else [name[0]] + FirstSegment(name[1..])
  }

  function ImportedName(a: Alias): string {
    if a.asname.Some? then a.asname.value else FirstSegment(a.name)
  }

  function FromImportedName(a: Alias): string {
    if a.asname.Some? then a.asname.value else a.name
  }

  function BoundNames(t: Target): set<string> {
    match t
    case NameTarget(id) => {id}
    case Group(elts) => BoundNamesOfAll(elts)
    case Starred(inner) => BoundNames(inner)
    case Place => {}
  }

  function BoundNamesOfAll(ts: seq<Target>): set<string> {
    if ts == [] then {} else BoundNames(ts[0]) + BoundNamesOfAll(ts[1..])
  }

  function ImportedNames(names: seq<Alias>): set<string> {
    if names == [] then {} else {ImportedName(names[0])} + ImportedNames(names[1..])
  }

  function FromImportedNames(names: seq<Alias>): set<string> {
    if names == [] then {} else {FromImportedName(names[0])} + FromImportedNames(names[1..])
  }

  function OptionalName(name: Option<string>): set<string> {
    if name.Some? then {name.value} else {}
  }

  function OptionalBoundNames(t: Option<Target>): set<string> {
    if t.Some? then BoundNames(t.value) else {}
  }

  /** Every name that a statement may bind, rebind or delete. */
  function Bound(s: Stmt): set<string> {
    match s
    case Import(names) => ImportedNames(names)
    case ImportFrom(_, _, names) => FromImportedNames(names)
    case Assign(targets, _) => BoundNamesOfAll(targets)
    case AugAssign(target, _) => BoundNames(target)
    case Delete(targets) => BoundNamesOfAll(targets)
    case ExprStmt(_) => {}
    case Return(_) => {}
    case Raise(_) => {}
    case If(_, body, orelse) => BoundIn(body) + BoundIn(orelse)
    case Try(body, handlers, orelse) => BoundIn(body) + BoundInHandlers(handlers) + BoundIn(orelse)
    case While(_, body, orelse) => BoundIn(body) + BoundIn(orelse)
    case For(target, _, body, orelse) => BoundNames(target) + BoundIn(body) + BoundIn(orelse)
    case With(_, target, body, _) => OptionalBoundNames(target) + BoundIn(body)
  }

  function BoundIn(ss: seq<Stmt>): set<string> {
    if ss == [] then {} else Bound(ss[0]) + BoundIn(ss[1..])
  }

  function BoundInHandlers(hs: seq<Handler>): set<string> {
    if hs == [] then {} else OptionalName(hs[0].name) + BoundIn(hs[0].body) + BoundInHandlers(hs[1..])
  }

  /** Lookup in a store or environment; `None` when the name is absent. */
  function Get<T>(m: map<string, T>, n: string): Option<T> {
    if n in m then Some(m[n]) else None
  }

  lemma SameMap<T>(m: map<string, T>, m': map<string, T>)
    requires forall n :: Get(m, n) == Get(m', n)
    ensures m == m'
  {
    forall n ensures n in m <==> n in m' { assert Get(m, n) == Get(m', n); }
    forall n | n in m ensures m[n] == m'[n] { assert Get(m, n) == Get(m', n); }
  }
}
