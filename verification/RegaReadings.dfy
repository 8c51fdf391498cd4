/** How texts are read, token by token: which operator binds tighter, what a prefix takes, and what
    each part of a statement becomes. */
module RegaReadings {
  import opened Collections
  import opened RegaGrammar
  import opened RegaParser
  import opened RegaScript
  import opened RegaStatements

  /** The binary operators, loosest first. */
  const LEVELS: seq<seq<string>> :=
    [["||"], ["&&"], ["==", "!=", "<", ">", "<=", ">="], ["#"], ["+", "-"], ["*", "/", "%"], ["&"]]

  /** The operator stands in that level. */
  predicate InLevel(op: string, level: nat) { level < |LEVELS| && op in LEVELS[level] }

  function Name(x: string): Token { Token(Word, x) }

  lemma LevelIs(op: string, level: nat)
    requires InLevel(op, level)
    ensures Precedence(op) == Some(level + 1) && IsOperator(op)
  {
  }

  /** `x p y q z` is read with the tighter operator first, and from the left in one level. */
  lemma TwoOperators(num: NumberParser, p: string, i: nat, q: string, j: nat, x: string, y: string, z: string)
    requires InLevel(p, i) && InLevel(q, j) && Plain(x) && Plain(y) && Plain(z)
    ensures var ts := [Name(x), Op(p), Name(y), Op(q), Name(z), END];
      && Lexed(ts)
      && var r := Whole(num, ts);
      && r.Ok? && r.pos == 5
      && Ast(num, r.value) ==
         if i < j then Binary(p, Ident(x), Binary(q, Ident(y), Ident(z)))
         else Binary(q, Binary(p, Ident(x), Ident(y)), Ident(z))
  {
    var tree;
    if i < j {
      tree := RightFirst(num, p, i, q, j, x, y, z);
    } else {
      tree := LeftFirst(num, p, i, q, j, x, y, z);
    }
    assert Print(tree) + [END] == [Name(x), Op(p), Name(y), Op(q), Name(z), END];
    hide Print, WellFormed, Ast, InLevel, Plain;
    ParsePrint(num, tree);
  }

  lemma NameMeans(num: NumberParser, x: string)
    requires Plain(x)
    ensures var c := CIdent(x);
      WellFormed(num, c) && Ast(num, c) == Ident(x) && Print(c) == [Name(x)] && Level(c) == 9
  {
  }

  lemma BinaryMeans(num: NumberParser, op: string, level: nat, l: Cst, r: Cst)
    requires InLevel(op, level) && WellFormed(num, l) && WellFormed(num, r) && Level(l) > level && Level(r) > level + 1
    ensures var c := CBinary(op, l, r);
      && WellFormed(num, c) && Ast(num, c) == Binary(op, Ast(num, l), Ast(num, r))
      && Print(c) == Print(l) + [Op(op)] + Print(r) && Level(c) == level + 1
  {
    LevelIs(op, level);
    hide IsOperator, Precedence, InLevel;
  }

  lemma RightFirst(num: NumberParser, p: string, i: nat, q: string, j: nat, x: string, y: string, z: string)
    returns (tree: Cst)
    requires InLevel(p, i) && InLevel(q, j) && Plain(x) && Plain(y) && Plain(z) && i < j
    ensures WellFormed(num, tree) && Print(tree) == [Name(x), Op(p), Name(y), Op(q), Name(z)]
    ensures Ast(num, tree) == Binary(p, Ident(x), Binary(q, Ident(y), Ident(z)))
  {
    NameMeans(num, x);
    NameMeans(num, y);
    NameMeans(num, z);
    assert i < 7 && j < 7;
    hide InLevel, WellFormed, Ast, Print, Plain, Level;
    BinaryMeans(num, q, j, CIdent(y), CIdent(z));
    tree := CBinary(p, CIdent(x), CBinary(q, CIdent(y), CIdent(z)));
    BinaryMeans(num, p, i, CIdent(x), tree.right);
  }

  lemma LeftFirst(num: NumberParser, p: string, i: nat, q: string, j: nat, x: string, y: string, z: string)
    returns (tree: Cst)
    requires InLevel(p, i) && InLevel(q, j) && Plain(x) && Plain(y) && Plain(z) && j <= i
    ensures WellFormed(num, tree) && Print(tree) == [Name(x), Op(p), Name(y), Op(q), Name(z)]
    ensures Ast(num, tree) == Binary(q, Binary(p, Ident(x), Ident(y)), Ident(z))
  {
    NameMeans(num, x);
    NameMeans(num, y);
    NameMeans(num, z);
    assert i < 7 && j < 7;
    hide InLevel, WellFormed, Ast, Print, Plain, Level;
    BinaryMeans(num, p, i, CIdent(x), CIdent(y));
    tree := CBinary(q, CBinary(p, CIdent(x), CIdent(y)), CIdent(z));
    BinaryMeans(num, q, j, tree.left, CIdent(z));
  }

  lemma ChainMeans(num: NumberParser, x: string, m: string)
    requires Plain(x) && IsWord(m)
    ensures var member := CMember(CIdent(x), m, false, []);
      WellFormed(num, member) && Ast(num, member) == Member(Ident(x), m, [])
  {
    hide IsWord, Plain;
    var args: seq<Cst> := [];
    assert Ast(num, CMember(CIdent(x), m, false, args)) == Member(Ast(num, CIdent(x)), m, AstAll(num, args));
    assert Ast(num, CIdent(x)) == Ident(x) && AstAll(num, args) == [];
  }

  /** A prefix takes the member chain behind it and nothing further. */
  lemma PrefixThenOperator(num: NumberParser, u: string, p: string, i: nat, x: string, m: string, y: string)
    requires IsPrefix(u) && InLevel(p, i) && Plain(x) && IsWord(m) && Plain(y)
    ensures var ts := [Op(u), Name(x), Mark("."), Name(m), Op(p), Name(y), END];
      && Lexed(ts)
      && var r := Whole(num, ts);
      && r.Ok? && r.pos == 6 && Ast(num, r.value) == Binary(p, Unary(u, Member(Ident(x), m, [])), Ident(y))
  {
    LevelIs(p, i);
    var member := CMember(CIdent(x), m, false, []);
    var tree := CBinary(p, CUnary(u, member), CIdent(y));
    ChainMeans(num, x, m);
    assert WellFormed(num, tree.left) && Ast(num, tree.left) == Unary(u, Member(Ident(x), m, []));
    hide Precedence, IsOperator, Plain, IsWord;
    assert Print(member) == [Name(x), Mark("."), Name(m)];
    assert Print(tree) == [Op(u), Name(x), Mark("."), Name(m), Op(p), Name(y)];
    assert Print(tree) + [END] == [Op(u), Name(x), Mark("."), Name(m), Op(p), Name(y), END];
    ParsePrint(num, tree);
  }

  // ----- statements -----

  /** A text that is one statement alone is read as that statement. */
  lemma OneStatement(num: NumberParser, s: CStmt, ts: seq<Token>)
    requires Lexed(ts) && Good(num, s, END) && ts == PrintStmt(s) + [END]
    ensures var r := ParseScript(num, ts, 0); r.Done? && AstItems(num, r.value.items) == [AstStmt(num, s)]
  {
    var item := CItem(0, s);
    var script := CScript([item], 0);
    assert Semis(0) == [] && PrintItem(item) == PrintStmt(s);
    assert [item][1..] == [] && PrintItems([item]) == PrintItem(item) + PrintItems([]) == PrintStmt(s);
    assert PrintScript(script) == PrintStmt(s);
    assert Next(Semis(0), END) == END && Next(PrintItems([item][1..]), END) == END;
    assert GoodItem(num, item, END) && GoodItems(num, [], END);
    assert GoodItems(num, [item], END) && GoodScript(num, script);
    assert AstItems(num, [item]) == [AstItem(num, item)] + AstItems(num, []);
    hide PrintStmt, Good, ParseScript, AstStmt;
    AcceptsScripts(num, ts, script);
  }

  lemma IfGood(num: NumberParser, cond: Cst, a: seq<CItem>, b: seq<CItem>)
    requires WellFormed(num, cond) && GoodItems(num, a, Mark("}")) && GoodItems(num, b, Mark("}"))
    ensures var s := CIf(cond, Braced(a), Else(Braced(b)));
      Good(num, s, END) && AstStmt(num, s) == If(Ast(num, cond), AstItems(num, a), AstItems(num, b))
  {
    var s := CIf(cond, Braced(a), Else(Braced(b)));
    hide Print, PrintItems, GoodItems, WellFormed, AstItems, Ast;
    assert GoodBlock(num, Braced(b), END) && GoodBlock(num, Braced(a), Next(PrintElse(s.els), END));
    assert GoodElse(num, s.els, END) by { assert PrintBlock(Braced(b))[0] == Mark("{"); }
    assert AstElse(num, s.els) == AstBlock(num, Braced(b)) == AstItems(num, b);
  }

  lemma IfText(cond: Cst, a: seq<CItem>, b: seq<CItem>)
    ensures PrintStmt(CIf(cond, Braced(a), Else(Braced(b)))) + [END]
         == [Name("if"), Mark("(")] + Print(cond) + [Mark(")"), Mark("{")] + PrintItems(a)
            + [Mark("}"), Name("else"), Mark("{")] + PrintItems(b) + [Mark("}"), END]
  {
    hide Print, PrintItems;
    var els := Else(Braced(b));
    assert PrintElse(els) == [Name("else")] + PrintBlock(Braced(b));
    assert PrintBlock(Braced(b)) == [Mark("{")] + (PrintItems(b) + [Mark("}")]);
    assert PrintBlock(Braced(a)) == [Mark("{")] + (PrintItems(a) + [Mark("}")]);
  }

  /** Between braces after `if (` and `)` stands what is done when the condition holds, between those
      after `else` what is done otherwise. */
  lemma IfReads(num: NumberParser, cond: Cst, a: seq<CItem>, b: seq<CItem>, ts: seq<Token>)
    requires WellFormed(num, cond) && GoodItems(num, a, Mark("}")) && GoodItems(num, b, Mark("}")) && Lexed(ts)
    requires ts == [Name("if"), Mark("(")] + Print(cond) + [Mark(")"), Mark("{")] + PrintItems(a)
                   + [Mark("}"), Name("else"), Mark("{")] + PrintItems(b) + [Mark("}"), END]
    ensures var r := ParseScript(num, ts, 0);
      r.Done? && AstItems(num, r.value.items) == [If(Ast(num, cond), AstItems(num, a), AstItems(num, b))]
  {
    hide Print, PrintItems, GoodItems, WellFormed, AstItems, Ast, ParseScript, Lexed, PrintStmt, AstStmt, Good;
    IfGood(num, cond, a, b);
    IfText(cond, a, b);
    OneStatement(num, CIf(cond, Braced(a), Else(Braced(b))), ts);
  }

  lemma InnerIf(num: NumberParser, cond: Cst, a: seq<CItem>, inner: Cst, b: seq<CItem>, joined: bool)
    requires WellFormed(num, cond) && GoodItems(num, a, Mark("}"))
    requires WellFormed(num, inner) && GoodItems(num, b, Mark("}"))
    ensures var s := CIf(cond, Braced(a), ElseIf(joined, CIf(inner, Braced(b), NoElse)));
      && Good(num, s, END)
      && AstStmt(num, s)
         == If(Ast(num, cond), AstItems(num, a), [If(Ast(num, inner), AstItems(num, b), [])])
  {
    var nested := CIf(inner, Braced(b), NoElse);
    var els := ElseIf(joined, nested);
    hide Print, PrintItems, GoodItems, WellFormed, AstItems, Ast;
    assert GoodBlock(num, Braced(b), Next(PrintElse(NoElse), END)) && GoodElse(num, NoElse, END);
    assert Good(num, nested, END);
    assert GoodBlock(num, Braced(a), Next(PrintElse(els), END)) && GoodElse(num, els, END);
    assert AstStmt(num, nested) == If(Ast(num, inner), AstBlock(num, Braced(b)), AstElse(num, NoElse));
    assert AstElse(num, els) == [AstStmt(num, nested)];
  }

  /** A condition in brackets and what is done in braces. */
  function Clause(cond: Cst, items: seq<CItem>): seq<Token> {
    [Mark("(")] + Print(cond) + [Mark(")"), Mark("{")] + PrintItems(items) + [Mark("}")]
  }

  lemma HeadText(word: string, cond: Cst, a: seq<CItem>)
    ensures Head(word, cond) + PrintBlock(Braced(a)) == [Name(word)] + Clause(cond, a)
  {
    hide Print, PrintItems;
    assert PrintBlock(Braced(a)) == [Mark("{")] + (PrintItems(a) + [Mark("}")]);
  }

  lemma NestedText(inner: Cst, b: seq<CItem>, joined: bool)
    ensures PrintElse(ElseIf(joined, CIf(inner, Braced(b), NoElse)))
         == (if joined then [Name("elseif")] else [Name("else"), Name("if")]) + Clause(inner, b)
  {
    var nested := CIf(inner, Braced(b), NoElse);
    HeadText("if", inner, b);
    assert PrintElse(NoElse) == [];
    var text := Head("if", inner) + PrintBlock(Braced(b));
    assert PrintStmt(nested) == text + [] == text;
    assert PrintElse(ElseIf(joined, nested))
        == if joined then [Name("elseif")] + PrintStmt(nested)[1..] else [Name("else")] + PrintStmt(nested);
    hide Clause, Head, PrintBlock, PrintStmt, PrintElse;
  }

  lemma InnerText(cond: Cst, a: seq<CItem>, inner: Cst, b: seq<CItem>, joined: bool)
    ensures PrintStmt(CIf(cond, Braced(a), ElseIf(joined, CIf(inner, Braced(b), NoElse)))) + [END]
         == [Name("if")] + Clause(cond, a) + (if joined then [Name("elseif")] else [Name("else"), Name("if")])
            + Clause(inner, b) + [END]
  {
    var els := ElseIf(joined, CIf(inner, Braced(b), NoElse));
    HeadText("if", cond, a);
    NestedText(inner, b, joined);
    assert PrintStmt(CIf(cond, Braced(a), els)) == Head("if", cond) + PrintBlock(Braced(a)) + PrintElse(els);
    var word := if joined then [Name("elseif")] else [Name("else"), Name("if")];
    hide Clause, PrintElse, Head, PrintBlock, PrintStmt;
    InOneRow([Name("if")] + Clause(cond, a), word, Clause(inner, b));
  }

  lemma InOneRow(a: seq<Token>, b: seq<Token>, c: seq<Token>)
    ensures a + (b + c) + [END] == a + b + c + [END]
  {
  }

  /** After `elseif` or `else if` stands a condition looked at when the first does not hold. */
  lemma ElseIfReads(num: NumberParser, cond: Cst, a: seq<CItem>, inner: Cst, b: seq<CItem>, joined: bool,
                    ts: seq<Token>)
    requires WellFormed(num, cond) && GoodItems(num, a, Mark("}")) && Lexed(ts)
    requires WellFormed(num, inner) && GoodItems(num, b, Mark("}"))
    requires ts == [Name("if")] + Clause(cond, a) + (if joined then [Name("elseif")] else [Name("else"), Name("if")])
                   + Clause(inner, b) + [END]
    ensures var r := ParseScript(num, ts, 0);
      && r.Done?
      && AstItems(num, r.value.items)
         == [If(Ast(num, cond), AstItems(num, a), [If(Ast(num, inner), AstItems(num, b), [])])]
  {
    hide Clause, GoodItems, WellFormed, AstItems, Ast, ParseScript, Lexed, PrintStmt, AstStmt, Good;
    InnerIf(num, cond, a, inner, b, joined);
    InnerText(cond, a, inner, b, joined);
    OneStatement(num, CIf(cond, Braced(a), ElseIf(joined, CIf(inner, Braced(b), NoElse))), ts);
  }

  /** A foreach names its variable before its list, a while its condition; both then have a body. */
  lemma LoopsRead(num: NumberParser, x: string, e: Cst, body: seq<CItem>, ts: seq<Token>)
    requires IsWord(x) && WellFormed(num, e) && GoodItems(num, body, Mark("}")) && Lexed(ts)
    ensures ts == [Name("foreach"), Mark("("), Name(x), Mark(",")] + Print(e) + [Mark(")"), Mark("{")]
                  + PrintItems(body) + [Mark("}"), END] ==>
      var r := ParseScript(num, ts, 0);
      r.Done? && AstItems(num, r.value.items) == [Foreach(x, Ast(num, e), AstItems(num, body))]
    ensures ts == [Name("while"), Mark("(")] + Print(e) + [Mark(")"), Mark("{")]
                  + PrintItems(body) + [Mark("}"), END] ==>
      var r := ParseScript(num, ts, 0);
      r.Done? && AstItems(num, r.value.items) == [While(Ast(num, e), AstItems(num, body))]
  {
    hide Print, PrintItems, GoodItems, WellFormed, AstItems, Ast, ParseScript, Lexed, IsWord;
    var each, loop := CForeach(Name(x), e, Braced(body)), CWhile(e, Braced(body));
    if ts == [Name("foreach"), Mark("("), Name(x), Mark(",")] + Print(e) + [Mark(")"), Mark("{")]
       + PrintItems(body) + [Mark("}"), END] {
      assert ts == PrintStmt(each) + [END];
      OneStatement(num, each, ts);
    }
    if ts == [Name("while"), Mark("(")] + Print(e) + [Mark(")"), Mark("{")] + PrintItems(body) + [Mark("}"), END] {
      assert ts == PrintStmt(loop) + [END];
      OneStatement(num, loop, ts);
    }
  }

  /** A type and a name declare, with or without a value; a name and `=` assign; the rest is only
      looked at. */
  lemma SimpleRead(num: NumberParser, typeName: string, x: string, e: Cst, ts: seq<Token>)
    requires typeName in {"string", "integer", "boolean", "bool", "object", "var", "idarray", "time", "real", "float"}
    requires IsWord(x) && x !in {"if", "foreach", "while"} && WellFormed(num, e) && Lexed(ts)
    ensures ts == [Name(typeName), Name(x), Mark(";"), END] ==>
      var r := ParseScript(num, ts, 0); r.Done? && AstItems(num, r.value.items) == [Decl(typeName, x, None)]
    ensures ts == [Name(typeName), Name(x), Op("=")] + Print(e) + [Mark(";"), END] ==>
      var r := ParseScript(num, ts, 0);
      r.Done? && AstItems(num, r.value.items) == [Decl(typeName, x, Some(Ast(num, e)))]
    ensures ts == [Name(x), Op("=")] + Print(e) + [Mark(";"), END] ==>
      var r := ParseScript(num, ts, 0); r.Done? && AstItems(num, r.value.items) == [Assign(x, Ast(num, e))]
    ensures ts == Print(e) + [Mark(";"), END] && Bare(Print(e)[0], ts[1]) ==>
      var r := ParseScript(num, ts, 0); r.Done? && AstItems(num, r.value.items) == [Eval(Ast(num, e))]
  {
    assert DeclType(typeName) && !Keyword(x);
    hide DeclType, Keyword, Print, WellFormed, AstItems, Ast, ParseScript, Lexed, IsWord, Bare;
    SimpleTexts(num, typeName, x, e, ts);
  }

  lemma SimpleTexts(num: NumberParser, typeName: string, x: string, e: Cst, ts: seq<Token>)
    requires DeclType(typeName) && IsWord(x) && !Keyword(x) && WellFormed(num, e) && Lexed(ts)
    ensures ts == [Name(typeName), Name(x), Mark(";"), END] ==>
      var r := ParseScript(num, ts, 0); r.Done? && AstItems(num, r.value.items) == [Decl(typeName, x, None)]
    ensures ts == [Name(typeName), Name(x), Op("=")] + Print(e) + [Mark(";"), END] ==>
      var r := ParseScript(num, ts, 0);
      r.Done? && AstItems(num, r.value.items) == [Decl(typeName, x, Some(Ast(num, e)))]
    ensures ts == [Name(x), Op("=")] + Print(e) + [Mark(";"), END] ==>
      var r := ParseScript(num, ts, 0); r.Done? && AstItems(num, r.value.items) == [Assign(x, Ast(num, e))]
    ensures ts == Print(e) + [Mark(";"), END] && Bare(Print(e)[0], ts[1]) ==>
      var r := ParseScript(num, ts, 0); r.Done? && AstItems(num, r.value.items) == [Eval(Ast(num, e))]
  {
    hide Print, WellFormed, AstItems, Ast, ParseScript, Lexed, IsWord, DeclType;
    if ts == [Name(typeName), Name(x), Mark(";"), END] {
      var s := CDecl(typeName, x, None, true);
      assert ts == PrintStmt(s) + [END];
      OneStatement(num, s, ts);
    }
    if ts == [Name(typeName), Name(x), Op("=")] + Print(e) + [Mark(";"), END] {
      var s := CDecl(typeName, x, Some(e), true);
      assert ts == PrintStmt(s) + [END];
      OneStatement(num, s, ts);
    }
    if ts == [Name(x), Op("=")] + Print(e) + [Mark(";"), END] {
      var s := CAssign(x, e, true);
      assert ts == PrintStmt(s) + [END];
      OneStatement(num, s, ts);
    }
    if ts == Print(e) + [Mark(";"), END] && Bare(Print(e)[0], ts[1]) {
      var s := CEval(e, true);
      assert ts == PrintStmt(s) + [END];
      OneStatement(num, s, ts);
    }
  }
}
