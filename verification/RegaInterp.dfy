/** The script interpreter: what a run does to variables and output, and how many statements
    and expressions it can work through, whatever the object model answers. */
module RegaInterp {
  import opened Collections
  import opened RegaGrammar

  const CAP := 1_000_000

  /** Objects are known by a number; Null is an object value without an object. */
  datatype Value =
    | Str(s: string)
    | Num(n: real)
    | Bool(b: bool)
    | Null
    | Obj(id: nat)
    | List(items: seq<Value>)

  const EMPTY := Str("")

  /** Everything outside the interpreter: library functions, and an object model whose answers
      may differ from one question to the next (`tick` numbers the questions). */
  datatype World = World(
    parse: string -> Option<real>,
    format: real -> string,
    fold: (string, string) -> bool,
    url: string -> string,
    mod: (real, real) -> real,
    bits: (real, real) -> real,
    textMethod: (Value, string, seq<Value>) -> Value,
    naming: (nat, nat) -> string,
    invoke: (nat, nat, string, seq<Value>) -> Option<Value>,
    byKey: (nat, string) -> Option<nat>,
    collection: (nat, string) -> Option<nat>,
    iface: (nat, string) -> Option<nat>,
    exec: (nat, string) -> (string, bool),
    serial: Option<string>,
    clock: (nat, string) -> string,
    unix: nat -> real)

  datatype State = State(vars: map<string, Value>, out: string, tick: nat, steps: nat)

  // ----- coercions -----

  function Rendered(w: World, tick: nat, v: Value): string
    decreases v, 1
  {
    match v
    case Str(s) => s
    case Num(n) => w.format(n)
    case Bool(b) => if b then "true" else "false"
    case Null => ""
    case Obj(id) => w.naming(tick, id)
    case List(items) => Tabbed(w, tick, items)
  }

  function Tabbed(w: World, tick: nat, items: seq<Value>): string
    decreases items, 0
  {
    if items == [] then ""
    else if |items| == 1 then Rendered(w, tick, items[0])
    else Rendered(w, tick, items[0]) + "\t" + Tabbed(w, tick, items[1..])
  }

  function NumberOf(w: World, v: Value): real {
    match v
    case Num(n) => n
    case Bool(b) => if b then 1.0 else 0.0
    case Str(s) => if w.parse(s).Some? then w.parse(s).value else 0.0
    case List(items) => |items| as real
    case _ => 0.0
  }

  predicate Truth(w: World, v: Value) {
    match v
    case Bool(b) => b
    case Num(n) => n != 0.0
    case Str(s) => s != "" && !w.fold(s, "false")
    case Null => false
    case Obj(_) => true
    case List(items) => items != []
  }

  predicate Numeric(w: World, v: Value) {
    v.Num? || v.Bool? || (v.Str? && w.parse(v.s).Some?)
  }

  /** The elements of a list; a string iterates as its non-empty tab-separated parts. */
  function Items(v: Value): seq<Value> {
    match v
    case List(items) => items
    case Str(s) => Pieces(s, "")
    case _ => []
  }

  function Pieces(s: string, word: string): seq<Value> {
    var flushed := if word == "" then [] else [Str(word)];
    if s == "" then flushed
    else if s[0] == '\t' then flushed + Pieces(s[1..], "")
    else Pieces(s[1..], word + [s[0]])
  }

  function ObjectOf(v: Value): Option<nat> {
    if v.Obj? then Some(v.id) else None
  }

  predicate Equal(w: World, tick: nat, a: Value, b: Value) {
    if a.Obj? || a.Null? || b.Obj? || b.Null? then ObjectOf(a) == ObjectOf(b)
    else if a.Bool? || b.Bool? then Truth(w, a) == Truth(w, b)
    else if Numeric(w, a) && Numeric(w, b) then NumberOf(w, a) == NumberOf(w, b)
    else Rendered(w, tick, a) == Rendered(w, tick, b)
  }

  /** The operators on numbers; None is an operator the interpreter does not know. */
  function Arithmetic(w: World, op: string, a: real, b: real): Option<Value> {
    match op
    case "<" => Some(Bool(a < b))
    case ">" => Some(Bool(a > b))
    case "<=" => Some(Bool(a <= b))
    case ">=" => Some(Bool(a >= b))
    case "+" => Some(Num(a + b))
    case "-" => Some(Num(a - b))
    case "*" => Some(Num(a * b))
    case "/" => Some(Num(if b == 0.0 then 0.0 else a / b))
    case "%" => Some(Num(if b == 0.0 then 0.0 else w.mod(a, b)))
    case "&" => Some(Num(w.bits(a, b)))
    case _ => None
  }

  /** Both operands evaluated. */
  function Operate(w: World, tick: nat, op: string, l: Value, r: Value): (v: Option<Value>)
    ensures Precedence(op).Some? ==> v.Some?
  {
    match op
    case "&&" => Some(Bool(Truth(w, r)))
    case "||" => Some(Bool(Truth(w, r)))
    case "#" => Some(Str(Rendered(w, tick, l) + Rendered(w, tick, r)))
    case "==" => Some(Bool(Equal(w, tick, l, r)))
    case "!=" => Some(Bool(!Equal(w, tick, l, r)))
    case "+" =>
      if !Numeric(w, l) || !Numeric(w, r) then Some(Str(Rendered(w, tick, l) + Rendered(w, tick, r)))
      else Arithmetic(w, op, NumberOf(w, l), NumberOf(w, r))
    case _ => Arithmetic(w, op, NumberOf(w, l), NumberOf(w, r))
  }

  // ----- expressions -----

  function Step(s: State): State { s.(steps := s.steps + 1) }

  function Ask(s: State): State { s.(tick := s.tick + 1) }

  predicate Namespace(name: string) { name in {"dom", "system", "interfaces", "localtime", "systime"} }

  /** A member of a namespace that no variable hides; its receiver is not evaluated. */
  predicate InNamespace(e: Expr, vars: map<string, Value>)
    requires e.Member?
  {
    e.receiver.Ident? && e.receiver.name !in vars && Namespace(e.receiver.name)
  }

  function Eval1(w: World, e: Expr, s0: State): (Option<Value>, State)
    decreases e, 1
  {
    var s := Step(s0);
    match e
    case StringLit(t) => (Some(Str(t)), s)
    case NumberLit(n) => (Some(Num(n)), s)
    case BoolLit(b) => (Some(Bool(b)), s)
    case Ident(name) => (Some(if name in s.vars then s.vars[name] else Str(name)), s)
    case Ref(name) => (Some(Str("&" + name)), s)
    case Unary(op, operand) =>
      var (v, s1) := Eval1(w, operand, s);
      if v.None? then (None, s1)
      else (Some(if op == "!" then Bool(!Truth(w, v.value)) else Num(-NumberOf(w, v.value))), s1)
    case Binary(op, left, right) =>
      var (l, s1) := Eval1(w, left, s);
      if l.None? then (None, s1)
      else if op == "&&" && !Truth(w, l.value) then (Some(Bool(false)), s1)
      else if op == "||" && Truth(w, l.value) then (Some(Bool(true)), s1)
      else
        var (r, s2) := Eval1(w, right, s1);
        if r.None? then (None, s2) else (Operate(w, s2.tick, op, l.value, r.value), s2)
    case Call(name, args) =>
      var (vs, s1) := EvalArgs(w, args, [], s);
      if vs.None? then (None, s1) else Builtin(w, name, vs.value, s1)
    case Member(receiver, name, args) =>
      if !InNamespace(e, s.vars) then
        var (r, s1) := Eval1(w, receiver, s);
        if r.None? then (None, s1)
        else
          var (vs, s2) := EvalArgs(w, args, [], s1);
          if vs.None? then (None, s2) else Dispatch(w, r.value, name, vs.value, s2)
      else if receiver.name == "system" && name != "GetVar" then
        if name == "Exec" && args != [] then
          var (command, s1) := Eval1(w, args[0], s);
          if command.None? then (None, s1) else Execute(w, command.value, args, s1)
        else if name == "Exec" then (Some(Bool(false)), s)
        else (Some(if name in {"Save", "SaveObjectModel"} then Bool(true) else EMPTY), s)
      else
        var (vs, s1) := EvalArgs(w, args, [], s);
        if vs.None? then (None, s1) else Answer(w, receiver.name, name, vs.value, s1)
  }

  /** Left to right, after the values in `done`. */
  function EvalArgs(w: World, es: seq<Expr>, done: seq<Value>, s: State): (Option<seq<Value>>, State)
    decreases es, 0
  {
    if es == [] then (Some(done), s)
    else
      var (v, s1) := Eval1(w, es[0], s);
      if v.None? then (None, s1) else EvalArgs(w, es[1..], done + [v.value], s1)
  }

  function Written(w: World, tick: nat, vs: seq<Value>, asUrl: bool): string {
    if vs == [] then ""
    else
      var t := Rendered(w, tick, vs[0]);
      (if asUrl then w.url(t) else t) + Written(w, tick, vs[1..], asUrl)
  }

  function Builtin(w: World, name: string, vs: seq<Value>, s: State): (Option<Value>, State) {
    match name
    case "Write" => (Some(EMPTY), s.(out := s.out + Written(w, s.tick, vs, false)))
    case "WriteLine" => (Some(EMPTY), s.(out := s.out + Written(w, s.tick, vs, false) + "\n"))
    case "WriteURL" => (Some(EMPTY), s.(out := s.out + Written(w, s.tick, vs, true)))
    case _ => (None, s)
  }

  function Dispatch(w: World, r: Value, name: string, vs: seq<Value>, s: State): (Option<Value>, State) {
    match r
    case Null => (Some(EMPTY), s)
    case Obj(id) => (w.invoke(s.tick, id, name, vs), Ask(s))
    case _ => (Some(w.textMethod(r, name, vs)), s)
  }

  /** Only the command of system.Exec has been evaluated; a reference after it names the
      variable that receives the output. */
  function Execute(w: World, command: Value, args: seq<Expr>, s: State): (Option<Value>, State) {
    var (output, ok) := w.exec(s.tick, Rendered(w, s.tick, command));
    var s1 := Ask(s);
    (Some(Bool(ok)), if |args| > 1 && args[1].Ref? then s1.(vars := s1.vars[args[1].name := Str(output)]) else s1)
  }

  function Found(o: Option<nat>): Value { if o.Some? then Obj(o.value) else Null }

  function Answer(w: World, root: string, name: string, vs: seq<Value>, s: State): (Option<Value>, State) {
    var first := if vs == [] then "" else Rendered(w, s.tick, vs[0]);
    match root
    case "dom" =>
      if vs == [] || name != "GetObject" then (Some(Null), s)
      else (Some(Found(if "ID_" <= first then w.collection(s.tick, first) else w.byKey(s.tick, first))), Ask(s))
    case "system" =>
      (Some(if vs != [] && w.fold(first, "SERIALNO") && w.serial.Some? then Str(w.serial.value) else EMPTY), s)
    case "interfaces" =>
      if vs == [] || name != "Get" then (Some(Null), s) else (Some(Found(w.iface(s.tick, first))), Ask(s))
    case _ =>
      if name in {"ToInteger", "ToTime"} then (Some(Num(w.unix(s.tick))), Ask(s))
      else (Some(Str(w.clock(s.tick, if name == "Format" && vs != [] then first else "%F %T"))), Ask(s))
  }

  // ----- statements -----

  function Set(s: State, name: string, v: Value): State { s.(vars := s.vars[name := v]) }

  /** Whether the statement ended well, and the state it left. */
  function Exec(w: World, t: Stmt, s0: State): (bool, State)
    decreases t, CAP + 1
  {
    var s := Step(s0);
    match t
    case Decl(_, name, None) => (true, Set(s, name, EMPTY))
    case Decl(_, name, Some(init)) =>
      var (v, s1) := Eval1(w, init, s);
      if v.None? then (false, s1) else (true, Set(s1, name, v.value))
    case Assign(name, value) =>
      var (v, s1) := Eval1(w, value, s);
      if v.None? then (false, s1) else (true, Set(s1, name, v.value))
    case Eval(value) =>
      var (v, s1) := Eval1(w, value, s);
      (v.Some?, s1)
    case If(cond, then_, els) =>
      var (v, s1) := Eval1(w, cond, s);
      if v.None? then (false, s1) else ExecAll(w, if Truth(w, v.value) then then_ else els, s1)
    case Foreach(_, list, _) =>
      var (v, s1) := Eval1(w, list, s);
      if v.None? then (false, s1) else Each(w, t, Items(v.value), 0, s1)
    case While(_, _) => Loop(w, t, 0, s)
  }

  function ExecAll(w: World, ts: seq<Stmt>, s: State): (bool, State)
    decreases ts, 0
  {
    if ts == [] then (true, s)
    else
      var (ok, s1) := Exec(w, ts[0], s);
      if !ok then (false, s1) else ExecAll(w, ts[1..], s1)
  }

  /** A foreach from its item i on. */
  function Each(w: World, t: Stmt, items: seq<Value>, i: nat, s: State): (bool, State)
    requires t.Foreach? && i <= CAP
    decreases t, CAP - i
  {
    if i >= |items| then (true, s)
    else if i >= CAP then (false, s)
    else
      var (ok, s1) := ExecAll(w, t.body, Set(s, t.variable, items[i]));
      if !ok then (false, s1) else Each(w, t, items, i + 1, s1)
  }

  /** A while from its round i on. */
  function Loop(w: World, t: Stmt, i: nat, s: State): (bool, State)
    requires t.While? && i <= CAP
    decreases t, CAP - i
  {
    if i >= CAP then (false, s)
    else
      var (c, s1) := Eval1(w, t.cond, s);
      if c.None? then (false, s1)
      else if !Truth(w, c.value) then (true, s1)
      else
        var (ok, s2) := ExecAll(w, t.body, s1);
        if !ok then (false, s2) else Loop(w, t, i + 1, s2)
  }

  // ----- cost -----

  function Cost(e: Expr): (n: nat)
    decreases e, 1
  {
    match e
    case Unary(_, operand) => 1 + Cost(operand)
    case Binary(_, left, right) => 1 + Cost(left) + Cost(right)
    case Call(_, args) => 1 + ArgsCost(args)
    case Member(receiver, _, args) => 1 + Cost(receiver) + ArgsCost(args)
    case _ => 1
  }

  function ArgsCost(es: seq<Expr>): (n: nat)
    decreases es, 0
  {
    if es == [] then 0 else Cost(es[0]) + ArgsCost(es[1..])
  }

  /** A loop entry multiplies what it repeats by the cap. */
  function StmtCost(t: Stmt): (n: nat)
    decreases t, 1
  {
    match t
    case Decl(_, _, init) => if init.Some? then 1 + Cost(init.value) else 1
    case Assign(_, value) => 1 + Cost(value)
    case Eval(value) => 1 + Cost(value)
    case If(cond, then_, els) =>
      var a, b := BodyCost(then_), BodyCost(els);
      1 + Cost(cond) + (if a > b then a else b)
    case Foreach(_, list, body) => 1 + Cost(list) + CAP * BodyCost(body)
    case While(cond, body) => 1 + CAP * (Cost(cond) + BodyCost(body))
  }

  function BodyCost(ts: seq<Stmt>): (n: nat)
    decreases ts, 0
  {
    if ts == [] then 0 else StmtCost(ts[0]) + BodyCost(ts[1..])
  }

  /** What any evaluation may do to a state: at most `n` more steps, output only appended to,
      declared names kept. */
  predicate Within(s: State, s1: State, n: nat) {
    s.steps <= s1.steps <= s.steps + n && s.out <= s1.out && s.vars.Keys <= s1.vars.Keys && s.tick <= s1.tick
  }

  lemma WithinThen(s: State, s1: State, s2: State, n: nat, m: nat)
    requires Within(s, s1, n) && Within(s1, s2, m)
    ensures Within(s, s2, n + m)
  {
  }

  lemma AnswersWithin(w: World, r: Value, name: string, vs: seq<Value>, args: seq<Expr>, s: State)
    ensures Within(s, Builtin(w, name, vs, s).1, 0)
    ensures Within(s, Dispatch(w, r, name, vs, s).1, 0)
    ensures Within(s, Execute(w, r, args, s).1, 0)
    ensures forall root :: Within(s, Answer(w, root, name, vs, s).1, 0)
  {
  }

  lemma {:induction false} ExprWithin(w: World, e: Expr, s0: State)
    ensures Within(s0, Eval1(w, e, s0).1, Cost(e))
    decreases e, 1
  {
    hide Within, Builtin, Dispatch, Execute, Answer, Operate, Truth, NumberOf;
    var s := Step(s0);
    StepWithin(s0);
    match e
    case Unary(op, operand) =>
      ExprWithin(w, operand, s);
      WithinThen(s0, s, Eval1(w, operand, s).1, 1, Cost(operand));
    case Binary(op, left, right) => BinaryWithin(w, e, s0);
    case Call(name, args) => CallWithin(w, e, s0);
    case Member(receiver, name, args) => MemberWithin(w, e, s0);
    case _ =>
  }

  lemma StepWithin(s: State)
    ensures Within(s, Step(s), 1)
  {
  }

  lemma WithinMore(s: State, s1: State, n: nat, m: nat)
    requires Within(s, s1, n) && n <= m
    ensures Within(s, s1, m)
  {
  }

  lemma {:induction false} BinaryWithin(w: World, e: Expr, s0: State)
    requires e.Binary?
    ensures Within(s0, Eval1(w, e, s0).1, Cost(e))
    decreases e, 0
  {
    hide Within, Operate, Truth;
    var s := Step(s0);
    StepWithin(s0);
    ExprWithin(w, e.left, s);
    var s1 := Eval1(w, e.left, s).1;
    ExprWithin(w, e.right, s1);
    WithinThen(s0, s, s1, 1, Cost(e.left));
    WithinThen(s0, s1, Eval1(w, e.right, s1).1, 1 + Cost(e.left), Cost(e.right));
    WithinMore(s0, s1, 1 + Cost(e.left), Cost(e));
  }

  lemma {:induction false} CallWithin(w: World, e: Expr, s0: State)
    requires e.Call?
    ensures Within(s0, Eval1(w, e, s0).1, Cost(e))
    decreases e, 0
  {
    hide Within, Builtin;
    var s := Step(s0);
    StepWithin(s0);
    ArgsWithin(w, e.args, [], s);
    var (vs, s1) := EvalArgs(w, e.args, [], s);
    WithinThen(s0, s, s1, 1, ArgsCost(e.args));
    if vs.Some? {
      AnswersWithin(w, Null, e.name, vs.value, [], s1);
      WithinThen(s0, s1, Builtin(w, e.name, vs.value, s1).1, 1 + ArgsCost(e.args), 0);
    }
  }

  lemma {:induction false} MemberWithin(w: World, e: Expr, s0: State)
    requires e.Member?
    ensures Within(s0, Eval1(w, e, s0).1, Cost(e))
    decreases e, 0
  {
    hide Within, Dispatch, Execute, Answer;
    var s := Step(s0);
    StepWithin(s0);
    var last := Eval1(w, e, s0).1;
    var n := ArgsCost(e.args);
    if !InNamespace(e, s.vars) {
      ExprWithin(w, e.receiver, s);
      var (r, s1) := Eval1(w, e.receiver, s);
      WithinThen(s0, s, s1, 1, Cost(e.receiver));
      if r.Some? {
        ArgsWithin(w, e.args, [], s1);
        var (vs, s2) := EvalArgs(w, e.args, [], s1);
        WithinThen(s0, s1, s2, 1 + Cost(e.receiver), n);
        if vs.Some? {
          AnswersWithin(w, r.value, e.name, vs.value, e.args, s2);
          WithinThen(s0, s2, last, Cost(e), 0);
        }
      } else {
        WithinMore(s0, s1, 1 + Cost(e.receiver), Cost(e));
      }
    } else if e.receiver.name == "system" && e.name != "GetVar" {
      if e.name == "Exec" && e.args != [] {
        ExprWithin(w, e.args[0], s);
        var (command, s1) := Eval1(w, e.args[0], s);
        WithinThen(s0, s, s1, 1, Cost(e.args[0]));
        WithinMore(s0, s1, 1 + Cost(e.args[0]), Cost(e));
        if command.Some? {
          AnswersWithin(w, command.value, e.name, [], e.args, s1);
          WithinThen(s0, s1, last, Cost(e), 0);
        }
      } else {
        WithinMore(s0, s, 1, Cost(e));
      }
    } else {
      ArgsWithin(w, e.args, [], s);
      var (vs, s1) := EvalArgs(w, e.args, [], s);
      WithinThen(s0, s, s1, 1, n);
      WithinMore(s0, s1, 1 + n, Cost(e));
      if vs.Some? {
        AnswersWithin(w, Null, e.name, vs.value, e.args, s1);
        WithinThen(s0, s1, last, Cost(e), 0);
      }
    }
  }

  lemma {:induction false} ArgsWithin(w: World, es: seq<Expr>, done: seq<Value>, s: State)
    ensures Within(s, EvalArgs(w, es, done, s).1, ArgsCost(es))
    decreases es, 0
  {
    if es != [] {
      hide Eval1;
      ExprWithin(w, es[0], s);
      var (v, s1) := Eval1(w, es[0], s);
      if v.Some? { ArgsWithin(w, es[1..], done + [v.value], s1); }
    }
  }

  function Times(n: nat, c: nat): nat { if n == 0 then 0 else c + Times(n - 1, c) }

  lemma {:induction false} TimesIs(n: nat, c: nat)
    ensures Times(n, c) == n * c
  {
    if n > 0 {
      TimesIs(n - 1, c);
      assert n * c == c + (n - 1) * c;
    }
  }

  lemma {:induction false} StmtWithin(w: World, t: Stmt, s0: State)
    ensures Within(s0, Exec(w, t, s0).1, StmtCost(t))
    decreases t, CAP + 1
  {
    hide Eval1, Truth, Items, Each, Loop;
    var s := Step(s0);
    match t
    case Decl(_, _, init) => if init.Some? { ExprWithin(w, init.value, s); }
    case Assign(_, value) => ExprWithin(w, value, s);
    case Eval(value) => ExprWithin(w, value, s);
    case If(cond, then_, els) =>
      ExprWithin(w, cond, s);
      BodyWithin(w, then_, Eval1(w, cond, s).1);
      BodyWithin(w, els, Eval1(w, cond, s).1);
    case Foreach(_, list, body) =>
      ExprWithin(w, list, s);
      var (v, s1) := Eval1(w, list, s);
      if v.Some? {
        EachWithin(w, t, Items(v.value), 0, s1);
        TimesIs(CAP, BodyCost(body));
      }
    case While(cond, body) =>
      LoopWithin(w, t, 0, s);
      TimesIs(CAP, Cost(cond) + BodyCost(body));
  }

  lemma {:induction false} BodyWithin(w: World, ts: seq<Stmt>, s: State)
    ensures Within(s, ExecAll(w, ts, s).1, BodyCost(ts))
    decreases ts, 0
  {
    if ts != [] {
      hide Exec;
      StmtWithin(w, ts[0], s);
      var (ok, s1) := Exec(w, ts[0], s);
      if ok { BodyWithin(w, ts[1..], s1); }
    }
  }

  lemma {:induction false} EachWithin(w: World, t: Stmt, items: seq<Value>, i: nat, s: State)
    requires t.Foreach? && i <= CAP
    ensures Within(s, Each(w, t, items, i, s).1, Times(CAP - i, BodyCost(t.body)))
    decreases t, CAP - i
  {
    hide ExecAll;
    if i < |items| && i < CAP {
      var bound := Set(s, t.variable, items[i]);
      BodyWithin(w, t.body, bound);
      var (ok, s1) := ExecAll(w, t.body, bound);
      if ok { EachWithin(w, t, items, i + 1, s1); }
    }
  }

  lemma {:induction false} LoopWithin(w: World, t: Stmt, i: nat, s: State)
    requires t.While? && i <= CAP
    ensures Within(s, Loop(w, t, i, s).1, Times(CAP - i, Cost(t.cond) + BodyCost(t.body)))
    decreases t, CAP - i
  {
    hide ExecAll, Eval1, Truth;
    if i < CAP {
      ExprWithin(w, t.cond, s);
      var (c, s1) := Eval1(w, t.cond, s);
      if c.Some? && Truth(w, c.value) {
        BodyWithin(w, t.body, s1);
        var (ok, s2) := ExecAll(w, t.body, s1);
        if ok { LoopWithin(w, t, i + 1, s2); }
      }
    }
  }

  /** Whatever the object model answers, a run ends after at most the cost read off the text,
      keeps every name it has declared and never takes output back. */
  lemma CostBound(w: World, program: seq<Stmt>, s: State)
    ensures Within(s, ExecAll(w, program, s).1, BodyCost(program))
  {
    BodyWithin(w, program, s);
  }

  // ----- the bound is reached -----

  /** Loops nested `depth` deep over the same list. */
  function Nest(depth: nat): Stmt {
    if depth == 0 then Decl("var", "x", None) else Foreach("x", Ident("ids"), [Nest(depth - 1)])
  }

  lemma {:induction false} NestReaches(w: World, depth: nat, s: State)
    requires "ids" in s.vars && s.vars["ids"].List? && |s.vars["ids"].items| == CAP
    ensures var (ok, s1) := Exec(w, Nest(depth), s);
      ok && s1.steps == s.steps + StmtCost(Nest(depth)) && "ids" in s1.vars && s1.vars["ids"] == s.vars["ids"]
    decreases depth, CAP + 1
  {
    if depth > 0 {
      NestOnce(w, depth, s);
      RoundsReach(w, depth, 0, Step(Step(s)));
      hide Exec, StmtCost;
    }
  }

  /** The outermost loop costs itself, its list and all its rounds. */
  lemma NestOnce(w: World, depth: nat, s: State)
    requires depth > 0 && "ids" in s.vars && s.vars["ids"].List?
    ensures Exec(w, Nest(depth), s) == Each(w, Nest(depth), s.vars["ids"].items, 0, Step(Step(s)))
    ensures StmtCost(Nest(depth)) == 2 + Times(CAP, BodyCost([Nest(depth - 1)]))
  {
    hide Each, BodyCost;
    TimesIs(CAP, BodyCost([Nest(depth - 1)]));
  }

  lemma OneStatement(w: World, t: Stmt, s: State)
    ensures ExecAll(w, [t], s) == Exec(w, t, s) && BodyCost([t]) == StmtCost(t)
  {
    hide Exec, StmtCost;
    assert [t][1..] == [];
  }

  lemma {:induction false} RoundsReach(w: World, depth: nat, i: nat, s: State)
    requires depth > 0 && i <= CAP
    requires "ids" in s.vars && s.vars["ids"].List? && |s.vars["ids"].items| == CAP
    ensures var (ok, s1) := Each(w, Nest(depth), s.vars["ids"].items, i, s);
      && ok && s1.steps == s.steps + Times(CAP - i, BodyCost([Nest(depth - 1)]))
      && "ids" in s1.vars && s1.vars["ids"] == s.vars["ids"]
    decreases depth, CAP - i
  {
    if i < CAP {
      var bound := Set(s, "x", s.vars["ids"].items[i]);
      NestReaches(w, depth - 1, bound);
      OneStatement(w, Nest(depth - 1), bound);
      hide Exec, ExecAll, StmtCost;
      var s1 := Exec(w, Nest(depth - 1), bound).1;
      RoundsReach(w, depth, i + 1, s1);
    }
  }

  // ----- expressions that ask nothing -----

  predicate Silent(e: Expr) {
    match e
    case Unary(_, operand) => Silent(operand)
    case Binary(op, left, right) => Precedence(op).Some? && Silent(left) && Silent(right)
    case Call(_, _) => false
    case Member(_, _, _) => false
    case _ => true
  }

  /** What such an expression means: every part has a value, and both sides of an operator are
      always looked at. */
  function Meaning(w: World, tick: nat, vars: map<string, Value>, e: Expr): Value
    requires Silent(e)
  {
    match e
    case StringLit(t) => Str(t)
    case NumberLit(n) => Num(n)
    case BoolLit(b) => Bool(b)
    case Ident(name) => if name in vars then vars[name] else Str(name)
    case Ref(name) => Str("&" + name)
    case Unary(op, operand) =>
      var v := Meaning(w, tick, vars, operand);
      if op == "!" then Bool(!Truth(w, v)) else Num(-NumberOf(w, v))
    case Binary(op, left, right) =>
      var l, r := Meaning(w, tick, vars, left), Meaning(w, tick, vars, right);
      if op == "&&" then Bool(Truth(w, l) && Truth(w, r))
      else if op == "||" then Bool(Truth(w, l) || Truth(w, r))
      else Operate(w, tick, op, l, r).value
  }

  /** Without calls, an expression of known operators always has its meaning as value, however
      evaluation cuts it short, and changes nothing. */
  lemma {:induction false} SilentMeans(w: World, e: Expr, s: State)
    requires Silent(e)
    ensures var (v, s1) := Eval1(w, e, s); v == Some(Meaning(w, s.tick, s.vars, e)) && s1 == s.(steps := s1.steps)
  {
    hide Truth, NumberOf, Equal, Rendered;
    match e
    case Unary(_, operand) => SilentMeans(w, operand, Step(s));
    case Binary(op, left, right) =>
      SilentMeans(w, left, Step(s));
      SilentMeans(w, right, Eval1(w, left, Step(s)).1);
    case _ =>
  }
}
