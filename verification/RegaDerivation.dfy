/** Derivations of expressions and statements, one rule per form, and that the interpreter does
    exactly what they say. */
module RegaDerivation {
  import opened Collections
  import opened RegaGrammar
  import opened RegaInterp
  import opened RegaMeaning

  /** An expression looked at: what was before, the value or none for a failure, what is after,
      and what was looked at for it, in order. */
  datatype Seen = Seen(pre: Env, val: Option<Value>, post: Env, parts: seq<Seen>)

  // ----- rules of expressions -----

  /** Left to right, each where the one before ended, up to the first failure. */
  ghost predicate InOrder(w: World, es: seq<Expr>, pre: Env, parts: seq<Seen>)
    decreases parts
  {
    if es == [] then parts == []
    else
      && parts != [] && Evaluates(w, es[0], parts[0]) && parts[0].pre == pre
      && if parts[0].val.None? then |parts| == 1 else InOrder(w, es[1..], parts[0].post, parts[1..])
  }

  function After(pre: Env, parts: seq<Seen>): Env {
    if parts == [] then pre else parts[|parts| - 1].post
  }

  /** The values of all parts, or none as soon as one failed. */
  function Answers(parts: seq<Seen>): Option<seq<Value>> {
    if parts == [] then Some([])
    else if parts[0].val.None? || Answers(parts[1..]).None? then None
    else Some([parts[0].val.value] + Answers(parts[1..]).value)
  }

  /** A value without looking at anything. */
  predicate AtOnce(d: Seen, v: Value) { d == Seen(d.pre, Some(v), d.pre, []) }

  /** The first operand of && is false, or that of || is true. */
  predicate Decided(w: World, op: string, parts: seq<Seen>) {
    parts != [] && parts[0].val.Some? && var left := IsTrue(w, parts[0].val.value);
    (op == "&&" && !left) || (op == "||" && left)
  }

  ghost predicate Evaluates(w: World, e: Expr, d: Seen)
    decreases d
  {
    match e
    case StringLit(t) => AtOnce(d, Str(t))
    case NumberLit(n) => AtOnce(d, Num(n))
    case BoolLit(b) => AtOnce(d, Bool(b))
    case Ident(name) => AtOnce(d, if name in d.pre.vars then d.pre.vars[name] else Str(name))
    case Ref(name) => AtOnce(d, Str("&" + name))
    case Unary(op, x) =>
      && InOrder(w, [x], d.pre, d.parts)
      && Ends(d, vs => Turned(w, op, vs, d.val) && d.post == After(d.pre, d.parts))
    case Binary(op, l, r) =>
      && InOrder(w, if Decided(w, op, d.parts) then [l] else [l, r], d.pre, d.parts)
      && Ends(d, vs => d.post == After(d.pre, d.parts) &&
           if Decided(w, op, d.parts) then d.val == Some(Bool(op == "||"))
           else Applied(w, d.post.tick, op, vs, d.val))
    case Call(name, args) =>
      && InOrder(w, args, d.pre, d.parts)
      && Ends(d, vs => Writes(w, name, vs, After(d.pre, d.parts), d.val, d.post))
    case Member(receiver, name, args) =>
      if receiver.Ident? && receiver.name !in d.pre.vars
         && receiver.name in {"dom", "system", "interfaces", "localtime", "systime"} then
        && InOrder(w, if receiver.name != "system" || name == "GetVar" then args
                      else if name == "Exec" && args != [] then [args[0]] else [], d.pre, d.parts)
        && Ends(d, vs => Replies(w, receiver.name, name, args, vs, After(d.pre, d.parts), d.val, d.post))
      else
        && InOrder(w, [receiver] + args, d.pre, d.parts)
        && Ends(d, vs => vs != [] && Sends(w, vs[0], name, vs[1..], After(d.pre, d.parts), d.val, d.post))
  }

  /** A failed part is the end of it; otherwise the rule speaks of the values. */
  ghost predicate Ends(d: Seen, rule: seq<Value> -> bool) {
    var vs := Answers(d.parts);
    if vs.None? then d.val == None && d.post == After(d.pre, d.parts) else rule(vs.value)
  }

  ghost predicate Turned(w: World, op: string, vs: seq<Value>, val: Option<Value>) {
    |vs| == 1 && val.Some?
    && if op == "!" then val.value == Bool(!IsTrue(w, vs[0])) else val.value.Num? && CountsAs(w, vs[0], -val.value.n)
  }

  /** The value the operator gives, or a failure when it gives none. */
  ghost predicate Applied(w: World, tick: nat, op: string, vs: seq<Value>, val: Option<Value>) {
    |vs| == 2
    && if val.Some? then Gives(w, tick, op, vs[0], vs[1], val.value)
       else forall v :: !Gives(w, tick, op, vs[0], vs[1], v)
  }

  function Concat(texts: seq<string>): string {
    if texts == [] then "" else texts[0] + Concat(texts[1..])
  }

  /** The three functions that write; any other is unknown. */
  predicate Writes(w: World, name: string, vs: seq<Value>, pre: Env, val: Option<Value>, post: Env) {
    var texts := AsTexts(w, pre.tick, vs);
    match name
    case "Write" => val == Some(Str("")) && post == pre.(out := pre.out + Concat(texts))
    case "WriteLine" => val == Some(Str("")) && post == pre.(out := pre.out + Concat(texts) + "\n")
    case "WriteURL" =>
      && val == Some(Str(""))
      && post == pre.(out := pre.out + Concat(seq(|texts|, i requires 0 <= i < |texts| => w.url(texts[i]))))
    case _ => val == None && post == pre
  }

  /** An object answers for itself and may fail, no object answers nothing, the rest as text. */
  predicate Sends(w: World, r: Value, name: string, vs: seq<Value>, pre: Env, val: Option<Value>, post: Env) {
    match r
    case Obj(id) => val == w.invoke(pre.tick, id, name, vs) && post == Asked(pre)
    case Null => val == Some(Str("")) && post == pre
    case _ => val == Some(w.textMethod(r, name, vs)) && post == pre
  }

  predicate Finds(found: Option<nat>, val: Option<Value>) {
    val == Some(if found.Some? then Obj(found.value) else Null)
  }

  /** The namespaces of the central. */
  predicate Replies(w: World, root: string, name: string, args: seq<Expr>, vs: seq<Value>, pre: Env,
                    val: Option<Value>, post: Env)
  {
    var texts := AsTexts(w, pre.tick, vs);
    if root == "dom" && name == "GetObject" && vs != [] then
      && post == Asked(pre)
      && Finds(if "ID_" <= texts[0] then w.collection(pre.tick, texts[0]) else w.byKey(pre.tick, texts[0]), val)
    else if root == "interfaces" && name == "Get" && vs != [] then
      post == Asked(pre) && Finds(w.iface(pre.tick, texts[0]), val)
    else if root == "dom" || root == "interfaces" then post == pre && val == Some(Null)
    else if root == "localtime" || root == "systime" then
      && post == Asked(pre)
      && val == Some(
           if name == "ToInteger" || name == "ToTime" then Num(w.unix(pre.tick))
           else Str(w.clock(pre.tick, if name == "Format" && vs != [] then texts[0] else "%F %T")))
    else if root == "system" && name == "Exec" && vs != [] then
      // The output goes to the variable a reference after the command names.
      var ran := w.exec(pre.tick, texts[0]);
      && val == Some(Bool(ran.1))
      && post == if |args| > 1 && args[1].Ref? then Bind(Asked(pre), args[1].name, Str(ran.0)) else Asked(pre)
    else
      && root == "system" && post == pre
      && val == Some(
           if name == "Exec" then Bool(false)
           else if name == "Save" || name == "SaveObjectModel" then Bool(true)
           else if name == "GetVar" && vs != [] && w.fold(texts[0], "SERIALNO") && w.serial.Some?
           then Str(w.serial.value)
           else Str(""))
  }

  // ----- the interpreter follows the rules of expressions -----

  predicate Agrees(d: Seen, r: (Option<Value>, State)) { d.val == r.0 && d.post == EnvOf(r.1) }

  predicate ListAgrees(pre: Env, parts: seq<Seen>, r: (Option<seq<Value>>, State)) {
    Answers(parts) == r.0 && After(pre, parts) == EnvOf(r.1)
  }

  lemma OneAnswer(x: Seen)
    ensures Answers([x]) == if x.val.None? then None else Some([x.val.value])
  {
    assert [x][1..] == [] && [x][0] == x;
    if x.val.Some? { assert [x.val.value] + [] == [x.val.value]; }
  }

  lemma UnaryIs(w: World, op: string, x: Expr, s: State, d: Seen)
    requires d.pre == EnvOf(s) && InOrder(w, [x], d.pre, d.parts)
    requires d.parts != [] && Agrees(d.parts[0], Eval1(w, x, Step(s)))
    ensures Evaluates(w, Unary(op, x), d) <==> Agrees(d, Eval1(w, Unary(op, x), s))
  {
    hide Truth, IsTrue, NumberOf, CountsAs;
    var part := d.parts[0];
    assert d.parts == [part];
    OneAnswer(part);
    if part.val.Some? {
      TruthIs(w, part.val.value);
      if d.val.Some? && d.val.value.Num? { NumberIs(w, part.val.value, -d.val.value.n); }
    }
  }

  lemma TwoAnswers(x: Seen, y: Seen)
    ensures Answers([x, y])
         == if x.val.None? || y.val.None? then None else Some([x.val.value, y.val.value])
  {
    OneAnswer(y);
    assert [x, y][1..] == [y];
    if x.val.Some? && y.val.Some? { assert [x.val.value] + [y.val.value] == [x.val.value, y.val.value]; }
  }

  /** The first operand, and the second unless it is decided. */
  lemma BinaryIs(w: World, op: string, l: Expr, r: Expr, s: State, d: Seen)
    requires d.pre == EnvOf(s)
    requires InOrder(w, if Decided(w, op, d.parts) then [l] else [l, r], d.pre, d.parts)
    requires d.parts != [] && Agrees(d.parts[0], Eval1(w, l, Step(s)))
    requires |d.parts| == 2 ==> Agrees(d.parts[1], Eval1(w, r, Eval1(w, l, Step(s)).1))
    ensures Evaluates(w, Binary(op, l, r), d) <==> Agrees(d, Eval1(w, Binary(op, l, r), s))
  {
    hide Truth, IsTrue, Operate, Gives, Evaluates;
    var parts := d.parts;
    TwoInOrder(w, l, r, d.pre, parts);
    OneAnswer(parts[0]);
    if parts[0].val.Some? { TruthIs(w, parts[0].val.value); }
    if |parts| == 1 {
      assert parts == [parts[0]];
    } else {
      assert parts == [parts[0], parts[1]];
      TwoAnswers(parts[0], parts[1]);
      if parts[1].val.Some? { AppliedIs(w, d.post.tick, op, parts[0].val.value, parts[1].val.value, d.val); }
    }
    EvaluatesBinary(w, op, l, r, d);
  }

  lemma OneInOrder(w: World, x: Expr, pre: Env, parts: seq<Seen>)
    ensures InOrder(w, [x], pre, parts) ==> |parts| == 1
  {
    hide Evaluates;
    assert [x][1..] == [];
    if InOrder(w, [x], pre, parts) && parts[0].val.Some? { assert InOrder(w, [x][1..], parts[0].post, parts[1..]); }
  }

  lemma TwoInOrder(w: World, l: Expr, r: Expr, pre: Env, parts: seq<Seen>)
    ensures InOrder(w, [l], pre, parts) ==> |parts| == 1
    ensures InOrder(w, [l, r], pre, parts) ==>
      1 <= |parts| <= 2 && (|parts| == 1 <==> parts[0].val.None?)
  {
    hide Evaluates;
    OneInOrder(w, l, pre, parts);
    assert [l, r][1..] == [r];
    if InOrder(w, [l, r], pre, parts) && parts[0].val.Some? { OneInOrder(w, r, parts[0].post, parts[1..]); }
  }

  lemma AppliedIs(w: World, tick: nat, op: string, l: Value, r: Value, val: Option<Value>)
    ensures Applied(w, tick, op, [l, r], val) <==> val == Operate(w, tick, op, l, r)
  {
    hide Operate, Gives;
    var given := Operate(w, tick, op, l, r);
    assert [l, r][0] == l && [l, r][1] == r;
    forall v ensures given == Some(v) <==> Gives(w, tick, op, l, r, v) {
      OperatorIs(w, tick, op, l, r, v);
    }
    if given.Some? { OperatorIs(w, tick, op, l, r, given.value); }
    if val.Some? { OperatorIs(w, tick, op, l, r, val.value); }
  }

  lemma EvaluatesBinary(w: World, op: string, l: Expr, r: Expr, d: Seen)
    ensures Evaluates(w, Binary(op, l, r), d) <==>
      && InOrder(w, if Decided(w, op, d.parts) then [l] else [l, r], d.pre, d.parts)
      && var vs := Answers(d.parts);
      && d.post == After(d.pre, d.parts)
      && if vs.None? then d.val == None
         else if Decided(w, op, d.parts) then d.val == Some(Bool(op == "||"))
         else Applied(w, d.post.tick, op, vs.value, d.val)
  {
    hide InOrder, Applied, Decided;
  }

  lemma {:induction false} WrittenIs(w: World, tick: nat, vs: seq<Value>, asUrl: bool)
    ensures var texts := AsTexts(w, tick, vs);
      Written(w, tick, vs, asUrl)
      == Concat(if asUrl then seq(|texts|, i requires 0 <= i < |texts| => w.url(texts[i])) else texts)
  {
    if vs != [] {
      TextIs(w, tick, vs[0]);
      WrittenIs(w, tick, vs[1..], asUrl);
      var texts := AsTexts(w, tick, vs);
      assert texts[1..] == AsTexts(w, tick, vs[1..]);
      var urls := seq(|texts|, i requires 0 <= i < |texts| => w.url(texts[i]));
      assert urls[1..] == seq(|texts[1..]|, i requires 0 <= i < |texts[1..]| => w.url(texts[1..][i]));
    }
  }

  lemma WritesIs(w: World, name: string, vs: seq<Value>, s: State, val: Option<Value>, post: Env)
    ensures Writes(w, name, vs, EnvOf(s), val, post)
        <==> val == Builtin(w, name, vs, s).0 && post == EnvOf(Builtin(w, name, vs, s).1)
  {
    hide Written, AsTexts, Concat;
    WrittenIs(w, s.tick, vs, false);
    WrittenIs(w, s.tick, vs, true);
  }

  lemma SendsIs(w: World, r: Value, name: string, vs: seq<Value>, s: State, val: Option<Value>, post: Env)
    ensures Sends(w, r, name, vs, EnvOf(s), val, post)
        <==> val == Dispatch(w, r, name, vs, s).0 && post == EnvOf(Dispatch(w, r, name, vs, s).1)
  {
  }

  lemma RepliesIs(w: World, root: string, name: string, args: seq<Expr>, vs: seq<Value>, s: State,
                  val: Option<Value>, post: Env)
    requires root in {"dom", "system", "interfaces", "localtime", "systime"} && (root == "system" ==> name == "GetVar")
    ensures Replies(w, root, name, args, vs, EnvOf(s), val, post)
        <==> val == Answer(w, root, name, vs, s).0 && post == EnvOf(Answer(w, root, name, vs, s).1)
  {
    hide AsText, Rendered;
    if vs != [] { TextIs(w, s.tick, vs[0]); }
  }

  lemma ExecIs(w: World, args: seq<Expr>, command: Value, s: State, val: Option<Value>, post: Env)
    ensures Replies(w, "system", "Exec", args, [command], EnvOf(s), val, post)
        <==> val == Execute(w, command, args, s).0 && post == EnvOf(Execute(w, command, args, s).1)
  {
    hide AsText, Rendered;
    TextIs(w, s.tick, command);
    assert AsTexts(w, s.tick, [command])[0] == AsText(w, s.tick, command);
  }

  lemma CallIs(w: World, name: string, args: seq<Expr>, s: State, d: Seen)
    requires d.pre == EnvOf(s) && InOrder(w, args, d.pre, d.parts)
    requires ListAgrees(d.pre, d.parts, EvalArgs(w, args, [], Step(s)))
    ensures Evaluates(w, Call(name, args), d) <==> Agrees(d, Eval1(w, Call(name, args), s))
  {
    hide Writes, Builtin, EvalArgs, InOrder;
    var (vs, s1) := EvalArgs(w, args, [], Step(s));
    if vs.Some? { WritesIs(w, name, vs.value, s1, d.val, d.post); }
  }

  /** What a namespace member looks at before it answers. */
  function Looked(e: Expr): seq<Expr>
    requires e.Member? && e.receiver.Ident?
  {
    if e.receiver.name != "system" || e.name == "GetVar" then e.args
    else if e.name == "Exec" && e.args != [] then [e.args[0]]
    else []
  }

  lemma NamespaceIs(w: World, e: Expr, s: State, d: Seen)
    requires e.Member? && InNamespace(e, s.vars) && d.pre == EnvOf(s) && InOrder(w, Looked(e), d.pre, d.parts)
    requires ListAgrees(d.pre, d.parts, EvalArgs(w, Looked(e), [], Step(s)))
    ensures Evaluates(w, e, d) <==> Agrees(d, Eval1(w, e, s))
  {
    hide Replies, Answer, RegaInterp.Execute, InOrder;
    var root := e.receiver.name;
    var (vs, s1) := EvalArgs(w, Looked(e), [], Step(s));
    if vs.Some? {
      if root != "system" || e.name == "GetVar" {
        hide EvalArgs;
        RepliesIs(w, root, e.name, e.args, vs.value, s1, d.val, d.post);
      } else if e.name == "Exec" && e.args != [] {
        OneEvaluated(w, e.args[0], Step(s));
        ExecIs(w, e.args, vs.value[0], s1, d.val, d.post);
      } else {
        StillReplies(w, e.name, e.args, s1, d.val, d.post);
      }
    } else if root == "system" && e.name == "Exec" && e.args != [] {
      OneEvaluated(w, e.args[0], Step(s));
    }
  }

  lemma OneEvaluated(w: World, x: Expr, s: State)
    ensures var (v, s1) := Eval1(w, x, s);
      EvalArgs(w, [x], [], s) == (if v.None? then None else Some([v.value]), s1)
  {
    hide Eval1;
    var (v, s1) := Eval1(w, x, s);
    assert [x][1..] == [];
    if v.Some? { assert [] + [v.value] == [v.value] && EvalArgs(w, [], [v.value], s1) == (Some([v.value]), s1); }
  }

  lemma StillReplies(w: World, name: string, args: seq<Expr>, s: State, val: Option<Value>, post: Env)
    requires name != "GetVar" && (name == "Exec" ==> args == [])
    ensures Replies(w, "system", name, args, [], EnvOf(s), val, post) <==>
      && post == EnvOf(s)
      && val == Some(if name == "Exec" then Bool(false) else if name in {"Save", "SaveObjectModel"} then Bool(true)
                     else EMPTY)
  {
  }

  /** The receiver first, then the arguments. */
  lemma MethodIs(w: World, e: Expr, s: State, d: Seen)
    requires e.Member? && !InNamespace(e, s.vars) && d.pre == EnvOf(s)
    requires InOrder(w, [e.receiver] + e.args, d.pre, d.parts)
    requires Agrees(d.parts[0], Eval1(w, e.receiver, Step(s)))
    requires d.parts[0].val.Some? ==>
      ListAgrees(d.parts[0].post, d.parts[1..], EvalArgs(w, e.args, [], Eval1(w, e.receiver, Step(s)).1))
    ensures Evaluates(w, e, d) <==> Agrees(d, Eval1(w, e, s))
  {
    var parts := d.parts;
    FirstAndRest(w, [e.receiver] + e.args, d.pre, parts);
    var (r, s1) := Eval1(w, e.receiver, Step(s));
    assert Eval1(w, e, s) == EvalMethod(w, e, s);
    assert Evaluates(w, e, d) <==>
      Ends(d, vs => vs != [] && Sends(w, vs[0], e.name, vs[1..], After(d.pre, parts), d.val, d.post));
    hide Sends, Dispatch, EvalArgs, InOrder, Eval1, Evaluates, InNamespace, Answers, After;
    if r.Some? {
      var (vs, s2) := EvalArgs(w, e.args, [], s1);
      if vs.Some? {
        assert ([r.value] + vs.value)[1..] == vs.value;
        SendsIs(w, r.value, e.name, vs.value, s2, d.val, d.post);
      }
    }
  }

  /** The receiver, then the arguments, then the call. */
  function EvalMethod(w: World, e: Expr, s: State): (Option<Value>, State)
    requires e.Member?
  {
    var (r, s1) := Eval1(w, e.receiver, Step(s));
    if r.None? then (None, s1)
    else
      var (vs, s2) := EvalArgs(w, e.args, [], s1);
      if vs.None? then (None, s2) else Dispatch(w, r.value, e.name, vs.value, s2)
  }

  lemma FirstAndRest(w: World, es: seq<Expr>, pre: Env, parts: seq<Seen>)
    requires es != [] && InOrder(w, es, pre, parts)
    ensures parts != []
    ensures parts[0].val.None? ==> Answers(parts) == None && After(pre, parts) == parts[0].post
    ensures parts[0].val.Some? ==>
      && After(pre, parts) == After(parts[0].post, parts[1..])
      && Answers(parts) == if Answers(parts[1..]).None? then None
                           else Some([parts[0].val.value] + Answers(parts[1..]).value)
  {
    hide Evaluates;
    if |parts| > 1 { assert parts[|parts| - 1] == parts[1..][|parts[1..]| - 1]; }
  }

  /** What is derived for an expression is what the interpreter does. */
  lemma {:induction false} ExprSound(w: World, e: Expr, d: Seen, s: State)
    requires Evaluates(w, e, d) && d.pre == EnvOf(s)
    ensures Agrees(d, Eval1(w, e, s))
    decreases d
  {
    var s0 := Step(s);
    match e
    case Unary(op, x) =>
      ExprSound(w, x, d.parts[0], s0);
      hide Evaluates, Eval1;
      UnaryIs(w, op, x, s, d);
    case Binary(op, l, r) => BinarySound(w, e, d, s);
    case Call(name, args) =>
      Gathered(w, args, d.parts, s0);
      hide Evaluates, Eval1;
      CallIs(w, name, args, s, d);
    case Member(receiver, name, args) =>
      if InNamespace(e, s.vars) {
        Gathered(w, Looked(e), d.parts, s0);
        hide Evaluates, Eval1;
        NamespaceIs(w, e, s, d);
      } else {
        assert ([receiver] + args)[1..] == args;
        ExprSound(w, receiver, d.parts[0], s0);
        if d.parts[0].val.Some? { Gathered(w, args, d.parts[1..], Eval1(w, receiver, s0).1); }
        hide Evaluates, Eval1;
        MethodIs(w, e, s, d);
      }
    case _ =>
  }

  lemma {:induction false} BinarySound(w: World, e: Expr, d: Seen, s: State)
    requires e.Binary? && Evaluates(w, e, d) && d.pre == EnvOf(s)
    ensures Agrees(d, Eval1(w, e, s))
    decreases d, 0
  {
    var (op, l, r, s0) := (e.op, e.left, e.right, Step(s));
    TwoInOrder(w, l, r, d.pre, d.parts);
    assert [l, r][1..] == [r];
    ExprSound(w, l, d.parts[0], s0);
    if |d.parts| == 2 {
      assert InOrder(w, [r], d.parts[0].post, d.parts[1..]);
      ExprSound(w, r, d.parts[1], Eval1(w, l, s0).1);
    }
    hide Evaluates, Eval1, InOrder;
    BinaryIs(w, op, l, r, s, d);
  }

  lemma {:induction false} ListSound(w: World, es: seq<Expr>, parts: seq<Seen>, s: State, done: seq<Value>)
    requires InOrder(w, es, EnvOf(s), parts)
    ensures var (vs, s1) := EvalArgs(w, es, done, s);
      && EnvOf(s1) == After(EnvOf(s), parts)
      && vs == if Answers(parts).None? then None else Some(done + Answers(parts).value)
    decreases parts, 0
  {
    if es != [] {
      ExprSound(w, es[0], parts[0], s);
      var (v, s1) := Eval1(w, es[0], s);
      hide Eval1, Evaluates;
      if v.Some? {
        ListSound(w, es[1..], parts[1..], s1, done + [v.value]);
        if Answers(parts[1..]).Some? {
          assert done + [v.value] + Answers(parts[1..]).value == done + ([v.value] + Answers(parts[1..]).value);
        }
      }
    } else {
      assert done + [] == done;
    }
  }

  lemma {:induction false} Gathered(w: World, es: seq<Expr>, parts: seq<Seen>, s: State)
    requires InOrder(w, es, EnvOf(s), parts)
    ensures ListAgrees(EnvOf(s), parts, EvalArgs(w, es, [], s))
    decreases parts, 1
  {
    ListSound(w, es, parts, s, []);
    if Answers(parts).Some? { assert [] + Answers(parts).value == Answers(parts).value; }
  }

  /** And whatever the interpreter does has a derivation. */
  lemma {:induction false} ExprBuilt(w: World, e: Expr, s: State) returns (d: Seen)
    ensures Evaluates(w, e, d) && d.pre == EnvOf(s) && Agrees(d, Eval1(w, e, s))
    decreases e, 1
  {
    var s0, res := Step(s), Eval1(w, e, s);
    d := Seen(EnvOf(s), res.0, EnvOf(res.1), []);
    match e
    case Unary(op, x) =>
      var part := ExprBuilt(w, x, s0);
      d := d.(parts := [part]);
      assert [x][1..] == [] && [part][1..] == [];
      assert InOrder(w, [x], d.pre, d.parts);
      hide Evaluates, Eval1;
      UnaryIs(w, op, x, s, d);
    case Binary(op, l, r) => d := BinaryBuilt(w, e, s);
    case Call(name, args) =>
      var parts := ListBuilt(w, args, s0);
      d := d.(parts := parts);
      Gathered(w, args, parts, s0);
      hide Evaluates, Eval1;
      CallIs(w, name, args, s, d);
    case Member(receiver, name, args) => d := MemberBuilt(w, e, s);
    case _ =>
  }

  lemma {:induction false} BinaryBuilt(w: World, e: Expr, s: State) returns (d: Seen)
    requires e.Binary?
    ensures Evaluates(w, e, d) && d.pre == EnvOf(s) && Agrees(d, Eval1(w, e, s))
    decreases e, 0
  {
    var op, l, r, s0, res := e.op, e.left, e.right, Step(s), Eval1(w, e, s);
    var first := ExprBuilt(w, l, s0);
    d := Seen(EnvOf(s), res.0, EnvOf(res.1), [first]);
    assert [l][1..] == [] && [l, r][1..] == [r] && [r][1..] == [] && [first][1..] == [];
    if first.val.Some? && !Decided(w, op, [first]) {
      var second := ExprBuilt(w, r, Eval1(w, l, s0).1);
      d := d.(parts := [first, second]);
      assert [first, second][1..] == [second] && [second][1..] == [];
      assert InOrder(w, [r], first.post, [second]);
    }
    assert InOrder(w, if Decided(w, op, d.parts) then [l] else [l, r], d.pre, d.parts);
    hide Evaluates, Eval1, InOrder;
    BinaryIs(w, op, l, r, s, d);
  }

  lemma {:induction false} MemberBuilt(w: World, e: Expr, s: State) returns (d: Seen)
    requires e.Member?
    ensures Evaluates(w, e, d) && d.pre == EnvOf(s) && Agrees(d, Eval1(w, e, s))
    decreases e, 0
  {
    var s0, res := Step(s), Eval1(w, e, s);
    if InNamespace(e, s.vars) {
      var parts: seq<Seen> := [];
      if Looked(e) == e.args {
        parts := ListBuilt(w, e.args, s0);
      } else if Looked(e) != [] {
        var part := ExprBuilt(w, e.args[0], s0);
        parts := [part];
        assert [e.args[0]][1..] == [] && [part][1..] == [];
      }
      assert InOrder(w, Looked(e), EnvOf(s0), parts);
      d := Seen(EnvOf(s), res.0, EnvOf(res.1), parts);
      Gathered(w, Looked(e), parts, s0);
      hide Evaluates, Eval1, InOrder;
      NamespaceIs(w, e, s, d);
    } else {
      var first := ExprBuilt(w, e.receiver, s0);
      var rest: seq<Seen> := [];
      var s1 := Eval1(w, e.receiver, s0).1;
      assert ([e.receiver] + e.args)[1..] == e.args;
      if first.val.Some? {
        rest := ListBuilt(w, e.args, s1);
        Gathered(w, e.args, rest, s1);
      }
      d := Seen(EnvOf(s), res.0, EnvOf(res.1), [first] + rest);
      assert d.parts[1..] == rest;
      hide Evaluates, Eval1;
      MethodIs(w, e, s, d);
    }
  }

  lemma {:induction false} ListBuilt(w: World, es: seq<Expr>, s: State) returns (parts: seq<Seen>)
    ensures InOrder(w, es, EnvOf(s), parts)
    decreases es, 0
  {
    parts := [];
    if es != [] {
      var first := ExprBuilt(w, es[0], s);
      parts := [first];
      if first.val.Some? {
        var rest := ListBuilt(w, es[1..], Eval1(w, es[0], s).1);
        parts := [first] + rest;
        assert parts[1..] == rest;
      }
    }
  }
}
