/** Derivations of statements, with every round of every loop, and that a run of a script ends as a
    derivation says and as no other does. */
module RegaExecution {
  import opened Collections
  import opened RegaGrammar
  import opened RegaInterp
  import opened RegaMeaning
  import opened RegaDerivation

  /** A statement, or one round of a loop, carried out: what was before, whether it went well, what
      is after, the expressions looked at, and the statements or rounds inside, in order. */
  datatype Ran = Ran(pre: Env, ok: bool, post: Env, seen: seq<Seen>, inner: seq<Ran>)

  /** One statement after the other up to the first that fails. */
  ghost predicate Block(w: World, ts: seq<Stmt>, pre: Env, runs: seq<Ran>, ok: bool, post: Env)
    decreases runs
  {
    if ts == [] then runs == [] && ok && post == pre
    else
      && runs != [] && Carried(w, ts[0], runs[0]) && runs[0].pre == pre
      && if runs[0].ok then Block(w, ts[1..], runs[0].post, runs[1..], ok, post)
         else |runs| == 1 && !ok && post == runs[0].post
  }

  /** The one expression of a statement, looked at first. */
  ghost predicate Looks(w: World, e: Expr, d: Ran) {
    |d.seen| == 1 && Evaluates(w, e, d.seen[0]) && d.seen[0].pre == d.pre
  }

  /** An expression failed, and nothing else happened. */
  predicate Failed(d: Ran)
    requires |d.seen| == 1
  {
    d.seen[0].val.None? && !d.ok && d.inner == [] && d.post == d.seen[0].post
  }

  ghost predicate Carried(w: World, t: Stmt, d: Ran)
    decreases d
  {
    match t
    case Decl(_, name, None) => d == Ran(d.pre, true, Bind(d.pre, name, Str("")), [], [])
    case Decl(_, name, Some(init)) => Looks(w, init, d) && (Failed(d) || Binds(d, name))
    case Assign(name, value) => Looks(w, value, d) && (Failed(d) || Binds(d, name))
    case Eval(value) =>
      && Looks(w, value, d)
      && (Failed(d) || (d.seen[0].val.Some? && d.ok && d.inner == [] && d.post == d.seen[0].post))
    case If(cond, then_, els) =>
      && Looks(w, cond, d)
      && (Failed(d) || (d.seen[0].val.Some? &&
            if IsTrue(w, d.seen[0].val.value) then Block(w, then_, d.seen[0].post, d.inner, d.ok, d.post)
            else Block(w, els, d.seen[0].post, d.inner, d.ok, d.post)))
    case Foreach(variable, list, body) =>
      && Looks(w, list, d)
      && (Failed(d) || (d.seen[0].val.Some? &&
            exists items :: Walks(d.seen[0].val.value, items)
              && Rounds(w, variable, body, items, 0, d.seen[0].post, d.inner, d.ok, d.post)))
    case While(cond, body) => d.seen == [] && Turns(w, cond, body, 0, d.pre, d.inner, d.ok, d.post)
  }

  /** The value goes into the variable. */
  predicate Binds(d: Ran, name: string)
    requires |d.seen| == 1
  {
    d.seen[0].val.Some? && d.ok && d.inner == [] && d.post == Bind(d.seen[0].post, name, d.seen[0].val.value)
  }

  /** A foreach from item i on: each round binds the item and carries out the body; the first that
      fails ends it, and so does a round beyond the millionth. */
  ghost predicate Rounds(w: World, variable: string, body: seq<Stmt>, items: seq<Value>, i: nat, pre: Env,
                         rounds: seq<Ran>, ok: bool, post: Env)
    decreases rounds
  {
    if i >= |items| || i == 1_000_000 then rounds == [] && post == pre && ok == (i >= |items|)
    else
      && rounds != [] && rounds[0].pre == Bind(pre, variable, items[i]) && rounds[0].seen == []
      && Block(w, body, rounds[0].pre, rounds[0].inner, rounds[0].ok, rounds[0].post)
      && if rounds[0].ok then Rounds(w, variable, body, items, i + 1, rounds[0].post, rounds[1..], ok, post)
         else |rounds| == 1 && !ok && post == rounds[0].post
  }

  /** A while from turn i on: it ends well when the condition is false, and fails with the condition,
      with the body, or at the turn after the millionth. */
  ghost predicate Turns(w: World, cond: Expr, body: seq<Stmt>, i: nat, pre: Env, turns: seq<Ran>, ok: bool, post: Env)
    decreases turns
  {
    if i == 1_000_000 then turns == [] && !ok && post == pre
    else
      && turns != [] && turns[0].pre == pre && Looks(w, cond, turns[0])
      && var c := turns[0].seen[0];
      if c.val.None? || !IsTrue(w, c.val.value) then
        |turns| == 1 && turns[0].inner == [] && ok == c.val.Some? && post == c.post
        && turns[0].ok == ok && turns[0].post == post
      else
        && Block(w, body, c.post, turns[0].inner, turns[0].ok, turns[0].post)
        && if turns[0].ok then Turns(w, cond, body, i + 1, turns[0].post, turns[1..], ok, post)
           else |turns| == 1 && !ok && post == turns[0].post
  }

  // ----- the interpreter follows the rules -----

  predicate Same(ok: bool, post: Env, r: (bool, State)) { ok == r.0 && post == EnvOf(r.1) }

  lemma {:induction false} StmtSound(w: World, t: Stmt, d: Ran, s: State)
    requires Carried(w, t, d) && d.pre == EnvOf(s)
    ensures Same(d.ok, d.post, Exec(w, t, s))
    decreases d, 1
  {
    hide Evaluates, Eval1, Items, Truth, IsTrue, Walks;
    var s0 := Step(s);
    if d.seen != [] { SeenIs(w, t, d, s0); }
    match t
    case If(cond, then_, els) =>
      if d.seen[0].val.Some? {
        TruthIs(w, d.seen[0].val.value);
        var branch := if IsTrue(w, d.seen[0].val.value) then then_ else els;
        BlockSound(w, branch, d.inner, d.ok, d.post, Eval1(w, cond, s0).1);
      }
    case Foreach(variable, list, body) =>
      if d.seen[0].val.Some? {
        var items :| Walks(d.seen[0].val.value, items)
          && Rounds(w, variable, body, items, 0, d.seen[0].post, d.inner, d.ok, d.post);
        ItemsAre(d.seen[0].val.value, items);
        RoundsSound(w, t, items, 0, d.inner, d.ok, d.post, Eval1(w, list, s0).1);
      }
    case While(cond, body) => TurnsSound(w, t, 0, d.inner, d.ok, d.post, s0);
    case _ =>
  }

  /** The expression a statement looks at first. */
  function FirstOf(t: Stmt): Option<Expr> {
    match t
    case Decl(_, _, init) => init
    case Assign(_, value) => Some(value)
    case Eval(value) => Some(value)
    case If(cond, _, _) => Some(cond)
    case Foreach(_, list, _) => Some(list)
    case While(_, _) => None
  }

  lemma SeenIs(w: World, t: Stmt, d: Ran, s: State)
    requires Carried(w, t, d) && d.pre == EnvOf(s) && d.seen != []
    ensures FirstOf(t).Some? && |d.seen| == 1 && Agrees(d.seen[0], Eval1(w, FirstOf(t).value, s))
  {
    hide Evaluates, Eval1, Block, Rounds;
    ExprSound(w, FirstOf(t).value, d.seen[0], s);
  }

  lemma {:induction false} BlockSound(w: World, ts: seq<Stmt>, runs: seq<Ran>, ok: bool, post: Env, s: State)
    requires Block(w, ts, EnvOf(s), runs, ok, post)
    ensures Same(ok, post, ExecAll(w, ts, s))
    decreases runs
  {
    hide Carried, Exec;
    if ts != [] {
      StmtSound(w, ts[0], runs[0], s);
      if runs[0].ok { BlockSound(w, ts[1..], runs[1..], ok, post, Exec(w, ts[0], s).1); }
    }
  }

  lemma {:induction false} RoundsSound(w: World, t: Stmt, items: seq<Value>, i: nat, rounds: seq<Ran>, ok: bool,
                                       post: Env, s: State)
    requires t.Foreach? && i <= CAP && Rounds(w, t.variable, t.body, items, i, EnvOf(s), rounds, ok, post)
    ensures Same(ok, post, Each(w, t, items, i, s))
    decreases rounds
  {
    hide Block, ExecAll;
    if i < |items| && i < CAP {
      var bound := Set(s, t.variable, items[i]);
      BlockSound(w, t.body, rounds[0].inner, rounds[0].ok, rounds[0].post, bound);
      if rounds[0].ok { RoundsSound(w, t, items, i + 1, rounds[1..], ok, post, ExecAll(w, t.body, bound).1); }
    }
  }

  lemma {:induction false} TurnsSound(w: World, t: Stmt, i: nat, turns: seq<Ran>, ok: bool, post: Env, s: State)
    requires t.While? && i <= CAP && Turns(w, t.cond, t.body, i, EnvOf(s), turns, ok, post)
    ensures Same(ok, post, Loop(w, t, i, s))
    decreases turns
  {
    hide Block, ExecAll, Evaluates, Eval1, IsTrue, Truth;
    if i < CAP {
      var c := turns[0].seen[0];
      ExprSound(w, t.cond, c, s);
      var s1 := Eval1(w, t.cond, s).1;
      if c.val.Some? {
        TruthIs(w, c.val.value);
        if IsTrue(w, c.val.value) {
          BlockSound(w, t.body, turns[0].inner, turns[0].ok, turns[0].post, s1);
          if turns[0].ok { TurnsSound(w, t, i + 1, turns[1..], ok, post, ExecAll(w, t.body, s1).1); }
        }
      }
    }
  }

  // ----- whatever the interpreter does has a derivation -----

  lemma {:induction false} StmtBuilt(w: World, t: Stmt, s: State) returns (d: Ran)
    ensures Carried(w, t, d) && d.pre == EnvOf(s)
    ensures Same(d.ok, d.post, Exec(w, t, s))
    decreases t, CAP + 2
  {
    hide Evaluates, Eval1, Items, Truth, IsTrue, Walks;
    var s0, res := Step(s), Exec(w, t, s);
    d := Ran(EnvOf(s), res.0, EnvOf(res.1), [], []);
    if FirstOf(t).Some? {
      var first := ExprBuilt(w, FirstOf(t).value, s0);
      d := d.(seen := [first]);
      if first.val.Some? {
        var s1 := Eval1(w, FirstOf(t).value, s0).1;
        TruthIs(w, first.val.value);
        if t.If? {
          var inner := BlockBuilt(w, if IsTrue(w, first.val.value) then t.then_ else t.els, s1);
          d := d.(inner := inner);
        } else if t.Foreach? {
          var items := Items(first.val.value);
          ItemsAre(first.val.value, items);
          var rounds := RoundsBuilt(w, t, items, 0, s1);
          d := d.(inner := rounds);
        }
      }
    } else if t.While? {
      var turns := TurnsBuilt(w, t, 0, s0);
      d := d.(inner := turns);
    }
  }

  lemma {:induction false} BlockBuilt(w: World, ts: seq<Stmt>, s: State) returns (runs: seq<Ran>)
    ensures var (ok, s1) := ExecAll(w, ts, s); Block(w, ts, EnvOf(s), runs, ok, EnvOf(s1))
    decreases ts, 0
  {
    hide Carried, Exec;
    runs := [];
    if ts != [] {
      var first := StmtBuilt(w, ts[0], s);
      runs := [first];
      if first.ok {
        var rest := BlockBuilt(w, ts[1..], Exec(w, ts[0], s).1);
        runs := [first] + rest;
        assert runs[1..] == rest;
      }
    }
  }

  lemma {:induction false} RoundsBuilt(w: World, t: Stmt, items: seq<Value>, i: nat, s: State)
    returns (rounds: seq<Ran>)
    requires t.Foreach? && i <= CAP
    ensures var (ok, s1) := Each(w, t, items, i, s);
      Rounds(w, t.variable, t.body, items, i, EnvOf(s), rounds, ok, EnvOf(s1))
    decreases t, CAP - i
  {
    hide Block, ExecAll;
    rounds := [];
    if i < |items| && i < CAP {
      var bound := Set(s, t.variable, items[i]);
      var inner := BlockBuilt(w, t.body, bound);
      var (ok, s1) := ExecAll(w, t.body, bound);
      var first := Ran(EnvOf(bound), ok, EnvOf(s1), [], inner);
      rounds := [first];
      if ok {
        var rest := RoundsBuilt(w, t, items, i + 1, s1);
        rounds := [first] + rest;
        assert rounds[1..] == rest;
      }
    }
  }

  lemma {:induction false} TurnsBuilt(w: World, t: Stmt, i: nat, s: State) returns (turns: seq<Ran>)
    requires t.While? && i <= CAP
    ensures var (ok, s1) := Loop(w, t, i, s); Turns(w, t.cond, t.body, i, EnvOf(s), turns, ok, EnvOf(s1))
    decreases t, CAP - i
  {
    hide Block, ExecAll, Evaluates, Eval1, IsTrue, Truth;
    turns := [];
    if i < CAP {
      var c := ExprBuilt(w, t.cond, s);
      var s1 := Eval1(w, t.cond, s).1;
      if c.val.Some? { TruthIs(w, c.val.value); }
      if c.val.None? || !IsTrue(w, c.val.value) {
        turns := [Ran(EnvOf(s), c.val.Some?, c.post, [c], [])];
      } else {
        var inner := BlockBuilt(w, t.body, s1);
        var (ok, s2) := ExecAll(w, t.body, s1);
        var first := Ran(EnvOf(s), ok, EnvOf(s2), [c], inner);
        turns := [first];
        if ok {
          var rest := TurnsBuilt(w, t, i + 1, s2);
          turns := [first] + rest;
          assert turns[1..] == rest;
        }
      }
    }
  }

  /** A program has a derivation to an end exactly when that is how the interpreter ends: with the
      same variables, the same output, the same questions asked, and failed or not. */
  lemma MeansWhatRuns(w: World, program: seq<Stmt>, s: State, ok: bool, post: Env)
    ensures (exists runs :: Block(w, program, EnvOf(s), runs, ok, post)) <==> Same(ok, post, ExecAll(w, program, s))
  {
    hide Block, ExecAll;
    var runs := BlockBuilt(w, program, s);
    if runs' :| Block(w, program, EnvOf(s), runs', ok, post) {
      BlockSound(w, program, runs', ok, post, s);
    }
  }

  /** The same for one expression. */
  lemma ValueIsDerived(w: World, e: Expr, s: State, val: Option<Value>, post: Env)
    ensures (exists d :: Evaluates(w, e, d) && d.pre == EnvOf(s) && d.val == val && d.post == post)
        <==> val == Eval1(w, e, s).0 && post == EnvOf(Eval1(w, e, s).1)
  {
    hide Evaluates, Eval1;
    var built := ExprBuilt(w, e, s);
    if d :| Evaluates(w, e, d) && d.pre == EnvOf(s) && d.val == val && d.post == post {
      ExprSound(w, e, d, s);
    }
  }

  /** The script, from nothing, writes this and ends so. */
  ghost predicate Means(w: World, program: seq<Stmt>, output: string, ok: bool) {
    exists runs, post :: Block(w, program, START, runs, ok, post) && post.out == output
  }

  lemma MeansSome(w: World, program: seq<Stmt>)
    ensures var (ended, s) := ExecAll(w, program, State(map[], "", 0, 0)); Means(w, program, s.out, ended)
  {
    hide Block, ExecAll;
    var start := State(map[], "", 0, 0);
    assert EnvOf(start) == START;
    var (ended, s) := ExecAll(w, program, start);
    MeansWhatRuns(w, program, start, ended, EnvOf(s));
    var runs :| Block(w, program, START, runs, ended, EnvOf(s));
    assert EnvOf(s).out == s.out;
  }

  lemma MeansOnly(w: World, program: seq<Stmt>, output: string, ok: bool)
    requires Means(w, program, output, ok)
    ensures var (ended, s) := ExecAll(w, program, State(map[], "", 0, 0)); ok == ended && output == s.out
  {
    var start := State(map[], "", 0, 0);
    assert EnvOf(start) == START;
    var runs, post :| Block(w, program, START, runs, ok, post) && post.out == output;
    hide Block, ExecAll;
    BlockSound(w, program, runs, ok, post, start);
  }

  /** Every script means exactly one thing. */
  lemma MeansOnce(w: World, program: seq<Stmt>, output: string, ok: bool)
    ensures var (ended, s) := ExecAll(w, program, State(map[], "", 0, 0));
      Means(w, program, output, ok) <==> ok == ended && output == s.out
  {
    MeansSome(w, program);
    hide ExecAll, Means;
    if Means(w, program, output, ok) { MeansOnly(w, program, output, ok); }
  }
}
