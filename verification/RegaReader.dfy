/** The parser as the object that advances a position over the tokens, proved to read what the
    functions on positions read and to stop where they stop. */
module RegaReader {
  import opened Collections
  import opened RegaGrammar
  import opened RegaScript
  import opened RegaParser
  import opened RegaStatements

  // ----- an argument list half read -----

  /** The arguments read, then the rest of the list, are the list from its start. */
  ghost predicate Collects(num: NumberParser, ts: seq<Token>, start: nat, cs: seq<Cst>, pos: nat)
    requires Lexed(ts) && start < |ts| && pos < |ts|
  {
    match ParseArgumentList(num, ts, pos)
    case Fail => ParseArgumentList(num, ts, start) == Fail
    case Ok(rest, end) => ParseArgumentList(num, ts, start) == Ok(cs + rest, end)
  }

  lemma CollectsNothing(num: NumberParser, ts: seq<Token>, start: nat)
    requires Lexed(ts) && start < |ts|
    ensures Collects(num, ts, start, [], start)
  {
    hide ParseArgumentList;
    var whole := ParseArgumentList(num, ts, start);
    assert whole.Ok? ==> [] + whole.value == whole.value;
  }

  /** One more argument: a comma goes on, a bracket closes, anything else fails. */
  lemma CollectsNext(num: NumberParser, ts: seq<Token>, start: nat, cs: seq<Cst>, pos: nat)
    requires Lexed(ts) && start < |ts| && pos < |ts| && Collects(num, ts, start, cs, pos)
    ensures var arg := Climb(num, ts, pos, 0);
      if arg.Fail? then ParseArgumentList(num, ts, start) == Fail
      else if Is(ts[arg.pos], ",") then arg.pos + 1 < |ts| && Collects(num, ts, start, cs + [arg.value], arg.pos + 1)
      else if Is(ts[arg.pos], ")") then ParseArgumentList(num, ts, start) == Ok(cs + [arg.value], arg.pos + 1)
      else ParseArgumentList(num, ts, start) == Fail
  {
    hide Lexed, Climb;
    var arg := Climb(num, ts, pos, 0);
    if arg.Ok? && Is(ts[arg.pos], ",") {
      MarkIs();
      MarkAt(ts, arg.pos, ",");
      var rest := ParseArgumentList(num, ts, arg.pos + 1);
      if rest.Ok? { assert cs + ([arg.value] + rest.value) == (cs + [arg.value]) + rest.value; }
    }
  }

  lemma {:induction false} AstAppend(num: NumberParser, cs: seq<Cst>, c: Cst)
    ensures AstAll(num, cs + [c]) == AstAll(num, cs) + [Ast(num, c)]
  {
    if cs == [] {
      assert cs + [c] == [c];
      assert [c][1..] == [];
    } else {
      assert (cs + [c])[1..] == cs[1..] + [c];
      AstAppend(num, cs[1..], c);
    }
  }

  // ----- a list of statements half read -----

  /** The statements read, then the rest of the body, are the body from its start. */
  ghost predicate BodyCollects(num: NumberParser, ts: seq<Token>, start: nat, items: seq<CItem>, pos: nat)
    requires Lexed(ts) && start < |ts| && pos < |ts|
  {
    match ParseBody(num, ts, pos)
    case Refused => ParseBody(num, ts, start) == Refused
    case Panics => ParseBody(num, ts, start) == Panics
    case Done(rest, end) => ParseBody(num, ts, start) == Done(items + rest, end)
  }

  lemma BodyStarts(num: NumberParser, ts: seq<Token>, start: nat)
    requires Lexed(ts) && start < |ts|
    ensures BodyCollects(num, ts, start, [], start)
  {
    hide ParseBody;
    var whole := ParseBody(num, ts, start);
    assert whole.Done? ==> [] + whole.value == whole.value;
  }

  lemma BodyNext(num: NumberParser, ts: seq<Token>, start: nat, items: seq<CItem>, pos: nat)
    requires Lexed(ts) && start < |ts| && pos < |ts| && BodyCollects(num, ts, start, items, pos)
    requires !Is(ts[pos], "}")
    ensures var item := ParseItem(num, ts, pos);
      if item.Panics? then ParseBody(num, ts, start) == Panics
      else if item.Refused? || item.value.None? then ParseBody(num, ts, start) == Refused
      else BodyCollects(num, ts, start, items + [item.value.value], item.pos)
  {
    hide Lexed, ParseItem;
    var item := ParseItem(num, ts, pos);
    if item.Done? && item.value.Some? {
      var rest := ParseBody(num, ts, item.pos);
      if rest.Done? { assert items + ([item.value.value] + rest.value) == (items + [item.value.value]) + rest.value; }
    }
  }

  ghost predicate ScriptCollects(num: NumberParser, ts: seq<Token>, items: seq<CItem>, pos: nat)
    requires Lexed(ts) && pos < |ts|
  {
    match ParseScript(num, ts, pos)
    case Refused => ParseScript(num, ts, 0) == Refused
    case Panics => ParseScript(num, ts, 0) == Panics
    case Done(rest, end) => ParseScript(num, ts, 0) == Done(CScript(items + rest.items, rest.skips), end)
  }

  lemma ScriptStarts(num: NumberParser, ts: seq<Token>)
    requires Lexed(ts)
    ensures ScriptCollects(num, ts, [], 0)
  {
    hide ParseScript;
    var whole := ParseScript(num, ts, 0);
    assert whole.Done? ==> [] + whole.value.items == whole.value.items;
  }

  lemma ScriptNext(num: NumberParser, ts: seq<Token>, items: seq<CItem>, pos: nat)
    requires Lexed(ts) && pos < |ts| && ScriptCollects(num, ts, items, pos)
    ensures var item := ParseItem(num, ts, pos);
      if item.Panics? then ParseScript(num, ts, 0) == Panics
      else if item.Refused? then ParseScript(num, ts, 0) == Refused
      else if item.value.None? then ParseScript(num, ts, 0) == Done(CScript(items, item.pos - pos), item.pos)
      else ScriptCollects(num, ts, items + [item.value.value], item.pos)
  {
    hide Lexed, ParseItem;
    var item := ParseItem(num, ts, pos);
    if item.Done? && item.value.Some? {
      var rest := ParseScript(num, ts, item.pos);
      if rest.Done? {
        assert items + ([item.value.value] + rest.value.items) == (items + [item.value.value]) + rest.value.items;
      }
    } else if item.Done? {
      assert items + [] == items;
    }
  }

  lemma {:induction false} ItemsAppend(num: NumberParser, items: seq<CItem>, i: CItem)
    ensures AstItems(num, items + [i]) == AstItems(num, items) + [AstItem(num, i)]
  {
    hide AstItem;
    if items == [] {
      assert items + [i] == [i];
      assert [i][1..] == [];
    } else {
      assert (items + [i])[1..] == items[1..] + [i];
      ItemsAppend(num, items[1..], i);
    }
  }

  /** What a statement method answers; Crashed is where the parser looks past the last token. */
  datatype Answered<+T> = Rejected | Crashed | Given(value: T)

  // ----- the parser as the object that advances a position -----

  class Parser {
    const num: NumberParser
    const tokens: seq<Token>
    var pos: nat

    constructor (num: NumberParser, tokens: seq<Token>)
      ensures this.num == num && this.tokens == tokens && pos == 0
    {
      this.num, this.tokens, pos := num, tokens, 0;
    }

    /** A call read what the function on positions reads, and stopped where it stops. */
    predicate Read(out: Option<Expr>, r: Parse<Cst>)
      reads this
    {
      match r
      case Fail => out.None?
      case Ok(c, end) => out == Some(Ast(num, c)) && pos == end
    }

    predicate ReadAll(out: Option<seq<Expr>>, r: Parse<seq<Cst>>)
      reads this
    {
      match r
      case Fail => out.None?
      case Ok(cs, end) => out == Some(AstAll(num, cs)) && pos == end
    }

    method Accept(text: string) returns (ok: bool)
      requires pos < |tokens|
      modifies `pos
      ensures ok <==> Is(tokens[old(pos)], text)
      ensures pos == if ok then old(pos) + 1 else old(pos)
    {
      ok := tokens[pos].text == text && tokens[pos].kind != Text;
      if ok { pos := pos + 1; }
    }

    method Expression() returns (e: Option<Expr>)
      requires Lexed(tokens) && pos < |tokens|
      modifies `pos
      ensures Read(e, Climb(num, tokens, old(pos), 0))
      decreases |tokens| - pos, 5
    {
      e := BinaryFrom(0);
    }

    method BinaryFrom(min: nat) returns (e: Option<Expr>)
      requires Lexed(tokens) && pos < |tokens|
      modifies `pos
      ensures Read(e, Climb(num, tokens, old(pos), min))
      decreases |tokens| - pos, 4
    {
      hide Lexed, Precedence, ParseUnary;
      var left := UnaryExpr();
      if left.None? { return None; }
      ghost var first := ParseUnary(num, tokens, old(pos)).value;
      while true
        invariant old(pos) < pos < |tokens| && left == Some(Ast(num, first))
        invariant Climb(num, tokens, old(pos), min) == ClimbFrom(num, tokens, pos, first, min)
        decreases |tokens| - pos
      {
        var t := tokens[pos];
        if t.kind != Operator { return left; }
        var prec := Precedence(t.text);
        if prec.None? || prec.value < min { return left; }
        OperatorAt(tokens, pos);
        ghost var at := pos;
        pos := pos + 1;
        var right := BinaryFrom(prec.value + 1);
        if right.None? { return None; }
        first := CBinary(t.text, first, Climb(num, tokens, at + 1, prec.value + 1).value);
        left := Some(Binary(t.text, left.value, right.value));
      }
    }

    method UnaryExpr() returns (e: Option<Expr>)
      requires Lexed(tokens) && pos < |tokens|
      modifies `pos
      ensures Read(e, ParseUnary(num, tokens, old(pos)))
      decreases |tokens| - pos, 3
    {
      var t := tokens[pos];
      if t.kind == Operator && (t.text == "!" || t.text == "-") {
        OperatorAt(tokens, pos);
        pos := pos + 1;
        var x := UnaryExpr();
        if x.None? { return None; }
        return Some(Unary(t.text, x.value));
      }
      if t.kind == Operator && t.text == "&" {
        OperatorAt(tokens, pos);
        pos := pos + 1;
        var name := tokens[pos];
        pos := pos + 1;
        if name.kind != Word { return None; }
        return Some(Ref(name.text));
      }
      e := PostfixExpr();
    }

    method PostfixExpr() returns (e: Option<Expr>)
      requires Lexed(tokens) && pos < |tokens|
      modifies `pos
      ensures Read(e, ParsePostfix(num, tokens, old(pos)))
      decreases |tokens| - pos, 2
    {
      hide Lexed, ParsePrimary, ParseArguments;
      e := PrimaryExpr();
      if e.None? { return None; }
      ghost var node := ParsePrimary(num, tokens, old(pos)).value;
      while true
        invariant old(pos) < pos < |tokens| && e == Some(Ast(num, node))
        invariant ParsePostfix(num, tokens, old(pos)) == ParseMembers(num, tokens, pos, node)
        decreases |tokens| - pos
      {
        ghost var at := pos;
        var dot := Accept(".");
        if !dot { return e; }
        MarkAt(tokens, at, ".");
        var name := tokens[pos];
        pos := pos + 1;
        if name.kind != Word { return None; }
        WordAt(tokens, at + 1);
        var args: seq<Expr> := [];
        ghost var cargs: seq<Cst> := [];
        var open := Accept("(");
        if open {
          MarkAt(tokens, at + 2, "(");
          var list := Arguments();
          if list.None? { return None; }
          args, cargs := list.value, ParseArguments(num, tokens, at + 3).value;
        }
        node := CMember(node, name.text, open, cargs);
        e := Some(Member(e.value, name.text, args));
      }
    }

    method PrimaryExpr() returns (e: Option<Expr>)
      requires Lexed(tokens) && pos < |tokens|
      modifies `pos
      ensures Read(e, ParsePrimary(num, tokens, old(pos)))
      decreases |tokens| - pos, 1
    {
      ghost var at := pos;
      var t := tokens[pos];
      pos := pos + 1;
      if t.kind == Text { return Some(StringLit(t.text)); }
      if t.kind == Number {
        var n := num(t.text);
        if n.None? { return None; }
        return Some(NumberLit(n.value));
      }
      if t.text == "(" {
        MarkAt(tokens, at, "(");
        e := Expression();
        if e.None? { return None; }
        var close := Accept(")");
        if !close { return None; }
        return;
      }
      if t.kind == Word {
        if t.text == "true" { return Some(BoolLit(true)); }
        if t.text == "false" { return Some(BoolLit(false)); }
        WordAt(tokens, at);
        var open := Accept("(");
        if open {
          MarkAt(tokens, at + 1, "(");
          var args := Arguments();
          if args.None? { return None; }
          return Some(Call(t.text, args.value));
        }
        return Some(Ident(t.text));
      }
      return None;
    }

    method Arguments() returns (args: Option<seq<Expr>>)
      requires Lexed(tokens) && pos < |tokens|
      modifies `pos
      ensures ReadAll(args, ParseArguments(num, tokens, old(pos)))
      decreases |tokens| - pos, 6
    {
      hide Lexed, Climb, Precedence, ParseArgumentList;
      var close := Accept(")");
      if close { return Some([]); }
      ghost var start := pos;
      var es: seq<Expr> := [];
      ghost var cs: seq<Cst> := [];
      CollectsNothing(num, tokens, start);
      while true
        invariant start <= pos < |tokens| && es == AstAll(num, cs) && Collects(num, tokens, start, cs, pos)
        decreases |tokens| - pos
      {
        ghost var at := pos;
        var arg := Expression();
        CollectsNext(num, tokens, start, cs, at);
        if arg.None? { return None; }
        ghost var c := Climb(num, tokens, at, 0).value;
        AstAppend(num, cs, c);
        es, cs := es + [arg.value], cs + [c];
        var comma := Accept(",");
        if comma { continue; }
        close := Accept(")");
        if !close { return None; }
        return Some(es);
      }
    }

    // ----- statements -----

    predicate Gave(out: Answered<Stmt>, r: Outcome<CStmt>)
      reads this
    {
      match r
      case Refused => out == Rejected
      case Panics => out == Crashed
      case Done(s, end) => out == Given(AstStmt(num, s)) && pos == end
    }

    predicate GaveItem(out: Answered<Option<Stmt>>, r: Outcome<Option<CItem>>)
      reads this
    {
      match r
      case Refused => out == Rejected
      case Panics => out == Crashed
      case Done(i, end) => out == Given(if i.Some? then Some(AstItem(num, i.value)) else None) && pos == end
    }

    predicate GaveBlock(out: Answered<seq<Stmt>>, r: Outcome<CBlock>)
      reads this
    {
      match r
      case Refused => out == Rejected
      case Panics => out == Crashed
      case Done(b, end) => out == Given(AstBlock(num, b)) && pos == end
    }

    predicate GaveElse(out: Answered<seq<Stmt>>, r: Outcome<CElse>)
      reads this
    {
      match r
      case Refused => out == Rejected
      case Panics => out == Crashed
      case Done(e, end) => out == Given(AstElse(num, e)) && pos == end
    }

    predicate GaveScript(out: Answered<seq<Stmt>>, r: Outcome<CScript>)
      reads this
    {
      match r
      case Refused => out == Rejected
      case Panics => out == Crashed
      case Done(s, end) => out == Given(AstItems(num, s.items)) && pos == end
    }

    method Program() returns (r: Answered<seq<Stmt>>)
      requires Lexed(tokens) && pos == 0
      modifies `pos
      ensures GaveScript(r, ParseScript(num, tokens, 0))
    {
      hide Lexed, ParseItem, ParseScript, AstItem;
      LastIsEnd(tokens);
      var out: seq<Stmt> := [];
      ghost var items: seq<CItem> := [];
      ScriptStarts(num, tokens);
      while tokens[pos].kind != EndOfFile
        invariant pos < |tokens| && out == AstItems(num, items) && ScriptCollects(num, tokens, items, pos)
        decreases |tokens| - pos
      {
        ghost var at := pos;
        var s := Statement();
        ScriptNext(num, tokens, items, at);
        if s.Rejected? { return Rejected; }
        if s.Crashed? { return Crashed; }
        if s.value.None? { return Given(out); }
        ghost var i := ParseItem(num, tokens, at).value.value;
        ItemsAppend(num, items, i);
        out, items := out + [s.value.value], items + [i];
      }
      ScriptNext(num, tokens, items, pos);
      AtEnd(num, tokens, pos);
      r := Given(out);
    }

    method Statement() returns (r: Answered<Option<Stmt>>)
      requires Lexed(tokens) && pos < |tokens|
      modifies `pos
      ensures GaveItem(r, ParseItem(num, tokens, old(pos)))
      decreases |tokens| - pos, 3
    {
      hide Lexed, ParseStmt, DeclType, AstStmt, ParseDecl, ParseIf, ParseForeach, ParseWhile, ParseSimple;
      var stray := true;
      while stray
        invariant old(pos) <= pos < |tokens| && Skip(tokens, pos) == Skip(tokens, old(pos))
        invariant !stray ==> !Is(tokens[pos], ";")
        decreases |tokens| - pos, stray
      {
        BraceMarks();
        if Is(tokens[pos], ";") { MarkAt(tokens, pos, ";"); }
        stray := Accept(";");
      }
      var t := tokens[pos];
      if t.kind == EndOfFile { return Given(None); }
      ghost var at := pos;
      var s := Dispatch();
      r := if s.Given? then Given(Some(s.value)) else if s.Crashed? then Crashed else Rejected;
    }

    method Dispatch() returns (r: Answered<Stmt>)
      requires Lexed(tokens) && pos < |tokens|
      modifies `pos
      ensures Gave(r, ParseStmt(num, tokens, old(pos)))
      decreases |tokens| - pos, 2
    {
      hide Lexed, DeclType, AstStmt, ParseDecl, ParseIf, ParseForeach, ParseWhile, ParseSimple;
      var t := tokens[pos];
      if t.kind == Word {
        WordAt(tokens, pos);
        if DeclType(t.text) && tokens[pos + 1].kind == Word { r := Declaration(); return; }
        if t.text == "if" { r := IfStatement(); return; }
        if t.text == "foreach" { r := ForeachStatement(); return; }
        if t.text == "while" { r := WhileStatement(); return; }
      }
      r := SimpleStatement();
    }

    method Declaration() returns (r: Answered<Stmt>)
      requires Lexed(tokens) && pos + 1 < |tokens| && tokens[pos].kind == Word && tokens[pos + 1].kind == Word
      modifies `pos
      ensures Gave(r, ParseDecl(num, tokens, old(pos)))
    {
      hide Lexed, Climb;
      var typeName := tokens[pos].text;
      WordAt(tokens, pos);
      pos := pos + 1;
      var name := tokens[pos].text;
      WordAt(tokens, pos);
      pos := pos + 1;
      var init: Option<Expr> := None;
      ghost var at := pos;
      var has := Accept("=");
      if has {
        EqualsIs(tokens, at);
        init := Expression();
        if init.None? { return Rejected; }
      }
      Semicolon();
      r := Given(Decl(typeName, name, init));
    }

    /** The semicolon after a statement is optional. */
    method Semicolon()
      requires Lexed(tokens) && pos < |tokens|
      modifies `pos
      ensures pos == Past(tokens, old(pos))
    {
      var _ := Accept(";");
    }

    method SimpleStatement() returns (r: Answered<Stmt>)
      requires Lexed(tokens) && pos < |tokens|
      modifies `pos
      ensures Gave(r, ParseSimple(num, tokens, old(pos)))
    {
      hide Lexed, Climb;
      var start := pos;
      if tokens[pos].kind == Word {
        WordAt(tokens, pos);
        var name := tokens[pos].text;
        pos := pos + 1;
        var assigns := Accept("=");
        if assigns {
          EqualsIs(tokens, start + 1);
          var value := Expression();
          if value.None? { return Rejected; }
          Semicolon();
          return Given(Assign(name, value.value));
        }
        pos := start;
      }
      var value := Expression();
      if value.None? { return Rejected; }
      Semicolon();
      r := Given(Eval(value.value));
    }

    /** An expression and the closing bracket after it. */
    method Closed() returns (e: Option<Expr>)
      requires Lexed(tokens) && pos < |tokens|
      modifies `pos
      ensures if ParseClosed(num, tokens, old(pos)).Done?
              then e == Some(Ast(num, ParseClosed(num, tokens, old(pos)).value))
                && pos == ParseClosed(num, tokens, old(pos)).pos
              else e.None?
    {
      hide Lexed, Climb;
      e := Expression();
      if e.None? { return None; }
      var close := Accept(")");
      if !close { return None; }
    }

    method IfStatement() returns (r: Answered<Stmt>)
      requires Lexed(tokens) && pos + 1 < |tokens|
      modifies `pos
      ensures Gave(r, ParseIf(num, tokens, old(pos)))
      decreases |tokens| - pos, 1
    {
      hide Lexed, ParseClosed, ParseBlock, ParseElse, AstBlock, AstElse;
      pos := pos + 1;
      ghost var at := pos;
      var open := Accept("(");
      if !open { return Rejected; }
      MarkIs();
      MarkAt(tokens, at, "(");
      var cond := Closed();
      if cond.None? { return Rejected; }
      var then_ := Block();
      if then_.Rejected? { return Rejected; }
      if then_.Crashed? { return Crashed; }
      var els := ElseBranch();
      if els.Rejected? { return Rejected; }
      if els.Crashed? { return Crashed; }
      r := Given(If(cond.value, then_.value, els.value));
    }

    method ElseBranch() returns (r: Answered<seq<Stmt>>)
      requires Lexed(tokens) && pos < |tokens|
      modifies `pos
      ensures GaveElse(r, ParseElse(num, tokens, old(pos)))
      decreases |tokens| - pos, 2
    {
      hide Lexed, ParseIf, ParseBlock, AstStmt, AstBlock;
      ghost var start := pos;
      if Is(tokens[pos], "elseif") {
        WordIs(tokens, pos, "elseif");
        var nested := IfStatement();
        return Nested(nested);
      }
      var other := Accept("else");
      if !other { return Given([]); }
      WordIs(tokens, start, "else");
      if Is(tokens[pos], "if") {
        WordIs(tokens, pos, "if");
        var nested := IfStatement();
        return Nested(nested);
      }
      r := Block();
    }

    static function Nested(s: Answered<Stmt>): (r: Answered<seq<Stmt>>)
      ensures r.Given? <==> s.Given?
    {
      match s
      case Rejected => Rejected
      case Crashed => Crashed
      case Given(v) => Given([v])
    }

    method ForeachStatement() returns (r: Answered<Stmt>)
      requires Lexed(tokens) && pos + 1 < |tokens|
      modifies `pos
      ensures Gave(r, ParseForeach(num, tokens, old(pos)))
      decreases |tokens| - pos, 1
    {
      hide Lexed, ParseClosed, ParseBlock, AstBlock;
      pos := pos + 1;
      ghost var at := pos;
      MarkIs();
      var open := Accept("(");
      if !open { return Rejected; }
      MarkAt(tokens, at, "(");
      var variable := tokens[pos].text;
      pos := pos + 1;
      if pos == |tokens| { return Crashed; }
      var comma := Accept(",");
      if !comma { return Rejected; }
      MarkAt(tokens, at + 2, ",");
      var list := Closed();
      if list.None? { return Rejected; }
      var body := Block();
      if body.Rejected? { return Rejected; }
      if body.Crashed? { return Crashed; }
      r := Given(Foreach(variable, list.value, body.value));
    }

    method WhileStatement() returns (r: Answered<Stmt>)
      requires Lexed(tokens) && pos + 1 < |tokens|
      modifies `pos
      ensures Gave(r, ParseWhile(num, tokens, old(pos)))
      decreases |tokens| - pos, 1
    {
      hide Lexed, ParseClosed, ParseBlock, AstBlock;
      pos := pos + 1;
      ghost var at := pos;
      var open := Accept("(");
      if !open { return Rejected; }
      MarkIs();
      MarkAt(tokens, at, "(");
      var cond := Closed();
      if cond.None? { return Rejected; }
      var body := Block();
      if body.Rejected? { return Rejected; }
      if body.Crashed? { return Crashed; }
      r := Given(While(cond.value, body.value));
    }

    method Block() returns (r: Answered<seq<Stmt>>)
      requires Lexed(tokens) && pos < |tokens|
      modifies `pos
      ensures GaveBlock(r, ParseBlock(num, tokens, old(pos)))
      decreases |tokens| - pos, 4
    {
      hide Lexed, ParseItem, ParseBody, AstItem;
      ghost var before := pos;
      var brace := Accept("{");
      if !brace {
        var s := Statement();
        if s.Rejected? { return Rejected; }
        if s.Crashed? { return Crashed; }
        return Given(if s.value.None? then [] else [s.value.value]);
      }
      BraceMarks();
      MarkAt(tokens, before, "{");
      ghost var start := pos;
      var out: seq<Stmt> := [];
      ghost var items: seq<CItem> := [];
      BodyStarts(num, tokens, start);
      while !Is(tokens[pos], "}")
        invariant start <= pos < |tokens| && out == AstItems(num, items) && BodyCollects(num, tokens, start, items, pos)
        decreases |tokens| - pos
      {
        ghost var at := pos;
        if tokens[pos].kind == EndOfFile {
          EndsBody(num, tokens, pos);
          return Rejected;
        }
        var s := Statement();
        BodyNext(num, tokens, start, items, at);
        if s.Rejected? { return Rejected; }
        if s.Crashed? { return Crashed; }
        if s.value.None? { return Rejected; }
        ghost var i := ParseItem(num, tokens, at).value.value;
        ItemsAppend(num, items, i);
        out, items := out + [s.value.value], items + [i];
      }
      ghost var at := pos;
      pos := pos + 1;
      ClosesBody(num, tokens, start, items, at);
      r := Given(out);
    }
  }

  lemma AtEnd(num: NumberParser, ts: seq<Token>, pos: nat)
    requires Lexed(ts) && pos < |ts| && ts[pos].kind == EndOfFile
    ensures ParseItem(num, ts, pos) == Done(None, pos)
  {
    hide ParseStmt;
  }

  lemma EndsBody(num: NumberParser, ts: seq<Token>, pos: nat)
    requires Lexed(ts) && pos < |ts| && ts[pos].kind == EndOfFile && !Is(ts[pos], "}")
    ensures ParseBody(num, ts, pos) == Refused
  {
    AtEnd(num, ts, pos);
  }

  lemma ClosesBody(num: NumberParser, ts: seq<Token>, start: nat, items: seq<CItem>, pos: nat)
    requires Lexed(ts) && start < |ts| && pos < |ts| && BodyCollects(num, ts, start, items, pos) && Is(ts[pos], "}")
    ensures ParseBody(num, ts, start) == Done(items, pos + 1)
  {
    hide Lexed;
    assert items + [] == items;
  }
}
