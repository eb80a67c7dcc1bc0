/**
 What the fragment does when it runs.  Everything the analyser does not look at -- the value
 of a foreign expression, which branch a test takes, whether an evaluation raises, how often
 a loop goes round -- is answered by an oracle, so a statement about every oracle is a
 statement about every run.
 */
module PythonSemantics {
  import opened Wrappers
  import opened PythonFragment
  import opened BindingAnalyzer

  datatype Value =
    | ModuleV | ValidatorsModuleV | ValidateV | ConstructorV | ValidatorForV | InstanceV | NoneV
    | ForeignV(tag: nat)

  type Store = map<string, Value>

  /** One answer of the oracle; each use reads the fields it needs. */
  datatype Choice = Choice(raises: bool, taken: bool, value: Value, count: nat, star: Store)

  type Oracle = nat -> Choice

  /** A call site reached at run time: the value of its receiver, or of the called name. */
  datatype Event = Reached(line: nat, func: Expr, receiver: Value)

  datatype State = State(store: Store, pos: nat, events: set<Event>) {
    function Next(): State { this.(pos := pos + 1) }
    function Log(e: Event): State { this.(events := events + {e}) }
    function Write(n: string, v: Value): State { this.(store := store[n := v]) }
    function Remove(n: string): State { this.(store := store - {n}) }
  }

  // ----- expressions -----

  /** The state after an evaluation, and the value unless the evaluation raised. */
  datatype Evaluation = Evaluation(st: State, value: Option<Value>)

  /** `None` has none of the attributes that the analyser knows by name. */
  predicate IsTrackedAttribute(attr: string) {
    attr in {"validate", "iter_errors", "check_schema", "validators"} + JSONSCHEMA_CONSTRUCTORS
  }

  function AttributeOf(c: Choice, v: Value, attr: string): Option<Value> {
    if c.raises then None
    else
      match v
      case ModuleV =>
        if attr == "validate" then Some(ValidateV)
        else if attr in JSONSCHEMA_CONSTRUCTORS then Some(ConstructorV)
        else if attr == "validators" then Some(ValidatorsModuleV)
        else Some(c.value)
      case ValidatorsModuleV => if attr == "validator_for" then Some(ValidatorForV) else Some(c.value)
      case NoneV => if IsTrackedAttribute(attr) then None else Some(c.value)
      case _ => Some(c.value)
  }

  function Invoke(c: Choice, callee: Value): Option<Value> {
    if c.raises then None
    else if callee == ValidatorForV then Some(ConstructorV)
    else if callee == ConstructorV then Some(InstanceV)
    else Some(c.value)
  }

  function Eval(o: Oracle, st: State, e: Expr): (r: Evaluation)
    ensures r.st.store == st.store && st.events <= r.st.events
    decreases e, 0
  {
    match e
    case Name(id) =>
      if id in st.store then Evaluation(st, Some(st.store[id]))
      else Evaluation(st.Next(), if o(st.pos).raises then None else Some(o(st.pos).value))
    case NoneLiteral => Evaluation(st, Some(NoneV))
    case Attribute(value, attr) =>
      var r := Eval(o, st, value);
      if r.value.None? then r
      else Evaluation(r.st.Next(), AttributeOf(o(r.st.pos), r.value.value, attr))
    case Call(line, func, args) =>
      var f := EvalCallee(o, st, line, func);
      if f.value.None? then f
      else
        var rest := EvalParts(o, f.st, args);
        if rest.value.None? then rest
        else Evaluation(rest.st.Next(), Invoke(o(rest.st.pos), f.value.value))
    case IfExp(test, body, orelse) =>
      var t := Eval(o, st, test);
      if t.value.None? then t
      else Eval(o, t.st.Next(), if o(t.st.pos).taken then body else orelse)
    case Other(parts) =>
      var rest := EvalParts(o, st, parts);
      Evaluation(rest.st.Next(), if rest.value.None? || o(rest.st.pos).raises then None else Some(o(rest.st.pos).value))
  }

  /** Evaluates what is called; the receiver is known before its attribute is looked up. */
  function EvalCallee(o: Oracle, st: State, line: nat, func: Expr): (r: Evaluation)
    ensures r.st.store == st.store && st.events <= r.st.events
    decreases func, 1
  {
    match func
    case Name(id) =>
      var r := Eval(o, st, func);
      if r.value.None? then r
      else Evaluation(r.st.Log(Reached(line, func, r.value.value)), r.value)
    case Attribute(value, attr) =>
      var r := Eval(o, st, value);
      if r.value.None? then r
      else
        var logged := r.st.Log(Reached(line, func, r.value.value));
        Evaluation(logged.Next(), AttributeOf(o(logged.pos), r.value.value, attr))
    case _ => Eval(o, st, func)
  }

  /** Evaluates the parts that are reached, from left to right; a part may be short-circuited. */
  function EvalParts(o: Oracle, st: State, es: seq<Expr>): (r: Evaluation)
    ensures r.st.store == st.store && st.events <= r.st.events
    decreases es, 0
  {
    if es == [] then Evaluation(st, Some(NoneV))
    else if !o(st.pos).taken then EvalParts(o, st.Next(), es[1..])
    else
      var r := Eval(o, st.Next(), es[0]);
      if r.value.None? then r else EvalParts(o, r.st, es[1..])
  }

  function EvalOptional(o: Oracle, st: State, e: Option<Expr>): (r: Evaluation)
    ensures r.st.store == st.store && st.events <= r.st.events
  {
    if e.Some? then Eval(o, st, e.value) else Evaluation(st, Some(NoneV))
  }

  // ----- statements -----

  datatype Completion = Normal | Returned | Raised

  datatype Outcome = Outcome(st: State, how: Completion)

  function ImportedValue(c: Choice, al: Alias): Value {
    if al.name == "jsonschema" then ModuleV
    else if al.name == "jsonschema.validators" then if al.asname.Some? then ValidatorsModuleV else ModuleV
    else c.value
  }

  function ExecImports(o: Oracle, st: State, names: seq<Alias>): (r: Outcome)
    ensures r.st.events == st.events
    decreases names
  {
    if names == [] then Outcome(st, Normal)
    else if o(st.pos).raises then Outcome(st.Next(), Raised)
    else
      ExecImports(o, st.Next().Write(ImportedName(names[0]), ImportedValue(o(st.pos), names[0])), names[1..])
  }

  function FromImportedValue(c: Choice, level: nat, mod: string, name: string): Value {
    if level == 0 && mod == "jsonschema" && name == "validate" then ValidateV
    else if level == 0 && mod == "jsonschema" && name in JSONSCHEMA_CONSTRUCTORS then ConstructorV
    else if level == 0 && mod == "jsonschema" && name == "validators" then ValidatorsModuleV
    else if level == 0 && mod == "jsonschema.validators" && name == "validator_for" then ValidatorForV
    else if level == 0 && mod == "jsonschema.validators" && name in JSONSCHEMA_CONSTRUCTORS then ConstructorV
    else c.value
  }

  /** `from m import *` may bind any names at all. */
  function ExecFromImports(o: Oracle, st: State, level: nat, mod: string, names: seq<Alias>): (r: Outcome)
    ensures r.st.events == st.events
    decreases names
  {
    if names == [] then Outcome(st, Normal)
    else if o(st.pos).raises then Outcome(st.Next(), Raised)
    else if names[0].name == "*" then
      ExecFromImports(o, st.Next().(store := st.store + o(st.pos).star), level, mod, names[1..])
    else
      ExecFromImports(o, st.Next().Write(FromImportedName(names[0]),
                                         FromImportedValue(o(st.pos), level, mod, names[0].name)),
                      level, mod, names[1..])
  }

  /** Stores into a target; unpacking assigns its parts in turn and may raise between them. */
  function AssignTo(o: Oracle, st: State, t: Target, v: Value): (r: Outcome)
    ensures r.st.events == st.events
    decreases t, 0
  {
    match t
    case NameTarget(id) => Outcome(st.Write(id, v), Normal)
    case Group(elts) => AssignParts(o, st, elts)
    case Starred(inner) => AssignTo(o, st.Next(), inner, o(st.pos).value)
    case Place => Outcome(st.Next(), if o(st.pos).raises then Raised else Normal)
  }

  function AssignParts(o: Oracle, st: State, ts: seq<Target>): (r: Outcome)
    ensures r.st.events == st.events
    decreases ts, 0
  {
    if o(st.pos).raises then Outcome(st.Next(), Raised)
    else if ts == [] then Outcome(st, Normal)
    else
      var r := AssignTo(o, st.Next(), ts[0], o(st.pos).value);
      if r.how.Normal? then AssignParts(o, r.st, ts[1..]) else r
  }

  function AssignAll(o: Oracle, st: State, ts: seq<Target>, v: Value): (r: Outcome)
    ensures r.st.events == st.events
    decreases ts
  {
    if ts == [] then Outcome(st, Normal)
    else
      var r := AssignTo(o, st, ts[0], v);
      if r.how.Normal? then AssignAll(o, r.st, ts[1..], v) else r
  }

  function DeleteFrom(o: Oracle, st: State, t: Target): (r: Outcome)
    ensures r.st.events == st.events
    decreases t, 0
  {
    match t
    case NameTarget(id) => if id in st.store then Outcome(st.Remove(id), Normal) else Outcome(st, Raised)
    case Group(elts) => DeleteAll(o, st, elts)
    case Starred(inner) => DeleteFrom(o, st, inner)
    case Place => Outcome(st.Next(), if o(st.pos).raises then Raised else Normal)
  }

  function DeleteAll(o: Oracle, st: State, ts: seq<Target>): (r: Outcome)
    ensures r.st.events == st.events
    decreases ts, 0
  {
    if ts == [] then Outcome(st, Normal)
    else
      var r := DeleteFrom(o, st, ts[0]);
      if r.how.Normal? then DeleteAll(o, r.st, ts[1..]) else r
  }

  function Exec(o: Oracle, st: State, s: Stmt): (r: Outcome)
    ensures st.events <= r.st.events
    decreases s, 2, 0
  {
    match s
    case Import(names) => ExecImports(o, st, names)
    case ImportFrom(level, mod, names) => ExecFromImports(o, st, level, mod, names)
    case Assign(targets, value) =>
      var r := Eval(o, st, value);
      if r.value.None? then Outcome(r.st, Raised) else AssignAll(o, r.st, targets, r.value.value)
    case AugAssign(target, value) =>
      var r := Eval(o, st, value);
      if r.value.None? || o(r.st.pos).raises then Outcome(r.st.Next(), Raised)
      else AssignTo(o, r.st.Next(), target, o(r.st.pos).value)
    case Delete(targets) => DeleteAll(o, st, targets)
    case ExprStmt(value) =>
      var r := Eval(o, st, value);
      Outcome(r.st, if r.value.None? then Raised else Normal)
    case Return(value) =>
      var r := Eval(o, st, value);
      Outcome(r.st, if r.value.None? then Raised else Returned)
    case Raise(value) =>
      var r := Eval(o, st, value);
      Outcome(r.st, Raised)
    case If(test, body, orelse) =>
      var t := Eval(o, st, test);
      if t.value.None? then Outcome(t.st, Raised)
      else ExecBlock(o, t.st.Next(), if o(t.st.pos).taken then body else orelse)
    case Try(body, handlers, orelse) =>
      var b := ExecBlock(o, st, body);
      if b.how.Normal? then ExecBlock(o, b.st, orelse)
      else if b.how.Raised? then ExecHandlers(o, b.st, handlers)
      else b
    case While(test, body, orelse) =>
      var l := ExecWhile(o, st.Next(), s, o(st.pos).count);
      if l.how.Normal? then ExecBlock(o, l.st, orelse) else l
    case For(target, iter, body, orelse) =>
      var i := Eval(o, st, iter);
      if i.value.None? then Outcome(i.st, Raised)
      else
        var l := ExecFor(o, i.st.Next(), s, o(i.st.pos).count);
        if l.how.Normal? then ExecBlock(o, l.st, orelse) else l
    case With(context, target, body, maySuppress) =>
      var c := Eval(o, st, context);
      if c.value.None? then Outcome(c.st, Raised)
      else
        var e := EnterWith(o, c.st, s);
        var b := if e.how.Normal? then ExecBlock(o, e.st, body) else e;
        Leave(o, b, maySuppress)
  }

  /** Leaving the context may swallow an exception, if the manager does that, and may itself raise. */
  function Leave(o: Oracle, b: Outcome, maySuppress: bool): (r: Outcome)
    ensures r.st.events == b.st.events && r.st.store == b.st.store
  {
    var c := o(b.st.pos);
    Outcome(b.st.Next(),
            if b.how.Raised? then if maySuppress && c.taken then Normal else Raised
            else if c.raises then Raised else b.how)
  }

  /** Entering the context may raise before anything is bound. */
  function EnterWith(o: Oracle, st: State, s: Stmt): (r: Outcome)
    requires s.With?
    ensures r.st.events == st.events
  {
    if s.asTarget.None? then Outcome(st, Normal)
    else AssignTo(o, st.Next(), s.asTarget.value, o(st.pos).value)
  }

  /** The test is evaluated before each of `n` rounds and once more before the loop is left. */
  function ExecWhile(o: Oracle, st: State, s: Stmt, n: nat): (r: Outcome)
    requires s.While?
    ensures st.events <= r.st.events
    decreases s, 1, n
  {
    var t := Eval(o, st, s.test);
    if t.value.None? then Outcome(t.st, Raised)
    else if n == 0 then Outcome(t.st, Normal)
    else
      var b := ExecBlock(o, t.st, s.body);
      if b.how.Normal? then ExecWhile(o, b.st, s, n - 1) else b
  }

  function ExecFor(o: Oracle, st: State, s: Stmt, n: nat): (r: Outcome)
    requires s.For?
    ensures st.events <= r.st.events
    decreases s, 1, n
  {
    if o(st.pos).raises then Outcome(st.Next(), Raised)
    else if n == 0 then Outcome(st, Normal)
    else
      var t := AssignTo(o, st.Next(), s.target, o(st.pos).value);
      if !t.how.Normal? then t
      else
        var b := ExecBlock(o, t.st, s.body);
        if b.how.Normal? then ExecFor(o, b.st, s, n - 1) else b
  }

  /** The first handler that matches runs; if none does, the exception goes on. */
  function ExecHandlers(o: Oracle, st: State, hs: seq<Handler>): (r: Outcome)
    ensures st.events <= r.st.events
    decreases hs, 0, 0
  {
    if hs == [] then Outcome(st, Raised)
    else
      var k := EvalOptional(o, st, hs[0].kind);
      if k.value.None? then Outcome(k.st, Raised)
      else if o(k.st.pos).taken then ExecHandler(o, k.st.Next(), hs[0])
      else ExecHandlers(o, k.st.Next(), hs[1..])
  }

  /** The caught exception's name exists only while the handler runs. */
  function ExecHandler(o: Oracle, st: State, h: Handler): (r: Outcome)
    ensures st.events <= r.st.events
    decreases h, 0, 0
  {
    if h.name.None? then ExecBlock(o, st, h.body)
    else
      var b := ExecBlock(o, st.Next().Write(h.name.value, o(st.pos).value), h.body);
      Outcome(b.st.Remove(h.name.value), b.how)
  }

  function ExecBlock(o: Oracle, st: State, ss: seq<Stmt>): (r: Outcome)
    ensures st.events <= r.st.events
    decreases ss, 0, 0
  {
    if ss == [] then Outcome(st, Normal)
    else
      var r := Exec(o, st, ss[0]);
      if r.how.Normal? then ExecBlock(o, r.st, ss[1..]) else r
  }
}
