/** The interpreter in its own form: one set of variables and one output per run, updated in
    place by loops and recursive calls; proved against the functions of RegaInterp. */
module RegaRun {
  import opened Collections
  import opened RegaGrammar
  import opened RegaInterp
  import opened RegaScript
  import opened RegaStatements
  import opened RegaReader
  import RegaExecution

  class Interpreter {
    const w: World
    var vars: map<string, Value>
    var out: string
    /** Questions asked so far, and statements and expressions worked through. */
    var tick: nat
    ghost var steps: nat

    ghost function Now(): State
      reads this
    {
      State(vars, out, tick, steps)
    }

    constructor (world: World)
      ensures w == world && Now() == State(map[], "", 0, 0)
    {
      w := world;
      vars, out, tick, steps := map[], "", 0, 0;
    }

    method Evaluate(e: Expr) returns (v: Option<RegaInterp.Value>)
      modifies this
      ensures (v, Now()) == Eval1(w, e, old(Now()))
      decreases e, 2
    {
      hide Truth, NumberOf, Operate;
      if e.Member? {
        v := EvaluateMember(e);
        return;
      }
      steps := steps + 1;
      match e
      case StringLit(t) => v := Some(Str(t));
      case NumberLit(n) => v := Some(Num(n));
      case BoolLit(b) => v := Some(Bool(b));
      case Ident(name) => v := Some(if name in vars then vars[name] else Str(name));
      case Ref(name) => v := Some(Str("&" + name));
      case Unary(op, operand) =>
        v := Evaluate(operand);
        if v.Some? {
          v := Some(if op == "!" then Bool(!Truth(w, v.value)) else Num(-NumberOf(w, v.value)));
        }
      case Binary(op, left, right) =>
        var l := Evaluate(left);
        if l.None? { return None; }
        if op == "&&" && !Truth(w, l.value) { return Some(Bool(false)); }
        if op == "||" && Truth(w, l.value) { return Some(Bool(true)); }
        var r := Evaluate(right);
        if r.None? { return None; }
        v := Operate(w, tick, op, l.value, r.value);
      case Call(name, args) =>
        var vs := EvaluateArgs(args);
        if vs.None? { return None; }
        v := CallBuiltin(name, vs.value);
    }

    method EvaluateArgs(es: seq<Expr>) returns (vs: Option<seq<RegaInterp.Value>>)
      modifies this
      ensures (vs, Now()) == EvalArgs(w, es, [], old(Now()))
      decreases es, 0
    {
      hide Eval1;
      ghost var start := Now();
      var done: seq<RegaInterp.Value> := [];
      assert es[0..] == es;
      for i := 0 to |es|
        invariant EvalArgs(w, es[i..], done, Now()) == EvalArgs(w, es, [], start)
      {
        var last := es[i..];
        assert last[1..] == es[i + 1..];
        var v := Evaluate(es[i]);
        if v.None? { return None; }
        done := done + [v.value];
      }
      vs := Some(done);
    }

    method CallBuiltin(name: string, args: seq<RegaInterp.Value>) returns (v: Option<RegaInterp.Value>)
      modifies this`out
      ensures (v, Now()) == Builtin(w, name, args, old(Now()))
    {
      match name
      case "Write" =>
        WriteAll(args, false);
        v := Some(EMPTY);
      case "WriteLine" =>
        WriteAll(args, false);
        out := out + "\n";
        v := Some(EMPTY);
      case "WriteURL" =>
        WriteAll(args, true);
        v := Some(EMPTY);
      case _ => v := None;
    }

    method WriteAll(args: seq<RegaInterp.Value>, asUrl: bool)
      modifies this`out
      ensures out == old(out) + Written(w, tick, args, asUrl)
    {
      hide Rendered;
      ghost var start := out;
      assert args[0..] == args;
      for i := 0 to |args|
        invariant out + Written(w, tick, args[i..], asUrl) == start + Written(w, tick, args, asUrl)
      {
        var last := args[i..];
        assert last[1..] == args[i + 1..];
        var t := Rendered(w, tick, args[i]);
        out := out + if asUrl then w.url(t) else t;
      }
    }

    method EvaluateMember(e: Expr) returns (v: Option<RegaInterp.Value>)
      requires e.Member?
      modifies this
      ensures (v, Now()) == Eval1(w, e, old(Now()))
      decreases e, 1
    {
      hide Rendered, Written, Answer, Dispatch, RegaInterp.Execute;
      steps := steps + 1;
      if e.receiver.Ident? && e.receiver.name !in vars && Namespace(e.receiver.name) {
        if e.receiver.name == "system" && e.name != "GetVar" {
          if e.name == "Exec" && e.args != [] {
            v := EvaluateExec(e.args);
          } else if e.name == "Exec" {
            v := Some(Bool(false));
          } else if e.name in {"Save", "SaveObjectModel"} {
            v := Some(Bool(true));
          } else {
            v := Some(EMPTY);
          }
        } else {
          var vs := EvaluateArgs(e.args);
          if vs.None? { return None; }
          v := AnswerFor(e.receiver.name, e.name, vs.value);
        }
        return;
      }
      var r := Evaluate(e.receiver);
      if r.None? { return None; }
      var vs := EvaluateArgs(e.args);
      if vs.None? { return None; }
      v := DispatchOn(r.value, e.name, vs.value);
    }

    /** Only the command is evaluated; a reference after it receives the output. */
    method EvaluateExec(args: seq<Expr>) returns (v: Option<RegaInterp.Value>)
      requires args != []
      modifies this
      ensures var (command, s1) := Eval1(w, args[0], old(Now()));
        (v, Now()) == if command.None? then (None, s1) else RegaInterp.Execute(w, command.value, args, s1)
      decreases args, 0
    {
      hide Rendered, Eval1;
      var command := Evaluate(args[0]);
      if command.None? { return None; }
      var (output, ok) := w.exec(tick, Rendered(w, tick, command.value));
      tick := tick + 1;
      if |args| > 1 && args[1].Ref? {
        vars := vars[args[1].name := Str(output)];
      }
      v := Some(Bool(ok));
    }

    method AnswerFor(root: string, name: string, vs: seq<RegaInterp.Value>) returns (v: Option<RegaInterp.Value>)
      modifies this`tick
      ensures (v, Now()) == Answer(w, root, name, vs, old(Now()))
    {
      hide Rendered;
      var (answer, s) := Answer(w, root, name, vs, State(vars, out, tick, 0));
      v, tick := answer, s.tick;
    }

    /** An object answers for itself, no object answers nothing, a scalar as text. */
    method DispatchOn(r: RegaInterp.Value, name: string, vs: seq<RegaInterp.Value>)
      returns (v: Option<RegaInterp.Value>)
      modifies this`tick
      ensures (v, Now()) == Dispatch(w, r, name, vs, old(Now()))
    {
      match r
      case Null => v := Some(EMPTY);
      case Obj(id) =>
        v := w.invoke(tick, id, name, vs);
        tick := tick + 1;
      case _ => v := Some(w.textMethod(r, name, vs));
    }

    method Execute(t: Stmt) returns (ok: bool)
      modifies this
      ensures (ok, Now()) == Exec(w, t, old(Now()))
      decreases t, 2
    {
      hide Eval1, Truth, Items, ExecAll;
      steps := steps + 1;
      match t
      case Decl(_, name, init) =>
        var v := Some(EMPTY);
        if init.Some? { v := Evaluate(init.value); }
        if v.Some? { vars := vars[name := v.value]; }
        ok := v.Some?;
      case Assign(name, value) =>
        var v := Evaluate(value);
        if v.Some? { vars := vars[name := v.value]; }
        ok := v.Some?;
      case Eval(value) =>
        var v := Evaluate(value);
        ok := v.Some?;
      case If(cond, then_, els) =>
        var v := Evaluate(cond);
        if v.None? { return false; }
        var branch := els;
        if Truth(w, v.value) { branch := then_; }
        ok := ExecuteAll(branch);
      case Foreach(_, list, _) =>
        var v := Evaluate(list);
        if v.None? { return false; }
        ok := RunForeach(t, Items(v.value));
      case While(_, _) =>
        ok := RunWhile(t);
    }

    method RunForeach(t: Stmt, items: seq<RegaInterp.Value>) returns (ok: bool)
      requires t.Foreach?
      modifies this
      ensures (ok, Now()) == Each(w, t, items, 0, old(Now()))
      decreases t, 1
    {
      hide ExecAll;
      ghost var start := Now();
      for i := 0 to |items|
        invariant i <= CAP
        invariant Each(w, t, items, i, Now()) == Each(w, t, items, 0, start)
      {
        if i >= CAP { return false; }
        vars := vars[t.variable := items[i]];
        var done := ExecuteAll(t.body);
        if !done { return false; }
      }
      ok := true;
    }

    method RunWhile(t: Stmt) returns (ok: bool)
      requires t.While?
      modifies this
      ensures (ok, Now()) == Loop(w, t, 0, old(Now()))
      decreases t, 1
    {
      hide ExecAll, Eval1, Truth;
      ghost var start := Now();
      var i: nat := 0;
      while true
        invariant i <= CAP
        invariant Loop(w, t, i, Now()) == Loop(w, t, 0, start)
        decreases CAP - i
      {
        if i >= CAP { return false; }
        var c := Evaluate(t.cond);
        if c.None? { return false; }
        if !Truth(w, c.value) { return true; }
        var done := ExecuteAll(t.body);
        if !done { return false; }
        i := i + 1;
      }
    }

    method ExecuteAll(ts: seq<Stmt>) returns (ok: bool)
      modifies this
      ensures (ok, Now()) == ExecAll(w, ts, old(Now()))
      decreases ts, 0
    {
      hide Exec;
      ghost var start := Now();
      assert ts[0..] == ts;
      for i := 0 to |ts|
        invariant ExecAll(w, ts[i..], Now()) == ExecAll(w, ts, start)
      {
        var last := ts[i..];
        assert last[1..] == ts[i + 1..];
        var done := Execute(ts[i]);
        if !done { return false; }
      }
      ok := true;
    }
  }

  /** Runs a program from nothing: what it writes and how it ends is the one thing the program
      means, and it stays within its cost, whatever the world answers. */
  method Run(w: World, program: seq<Stmt>) returns (output: string, ok: bool)
    ensures RegaExecution.Means(w, program, output, ok)
    ensures var (ended, s) := ExecAll(w, program, State(map[], "", 0, 0));
      ok == ended && output == s.out && s.steps <= BodyCost(program)
  {
    hide RegaExecution.Means;
    var interpreter := new Interpreter(w);
    CostBound(w, program, interpreter.Now());
    ok := interpreter.ExecuteAll(program);
    output := interpreter.out;
    RegaExecution.MeansOnce(w, program, output, ok);
  }

  /** Parses and runs: a script that is refused runs nothing, an accepted one writes what it means. */
  method RunTokens(w: World, num: NumberParser, tokens: seq<Token>) returns (r: Answered<(string, bool)>)
    requires Lexed(tokens)
    ensures var script := ParseScript(num, tokens, 0);
      if script.Refused? then r == Given(("", false))
      else if script.Panics? then r == Crashed
      else r.Given? && RegaExecution.Means(w, AstItems(num, script.value.items), r.value.0, r.value.1)
  {
    hide ParseScript, ExecAll, AstItems, Lexed, RegaExecution.Means;
    var parser := new Parser(num, tokens);
    var program := parser.Program();
    if program.Crashed? { return Crashed; }
    if program.Rejected? { return Given(("", false)); }
    var output, ok := Run(w, program.value);
    r := Given((output, ok));
  }
}
