/** A printer of scripts that leaves out the braces of a single statement unless an else behind it
    would be taken for that of an inner if, and the proof that its text is read back. */
module RegaTidy {
  import opened Collections
  import opened RegaGrammar
  import opened RegaScript
  import opened RegaStatements

  // ----- an else belongs to the nearest if without one -----

  /** The statement ends with an if that has no else yet. */
  predicate OpenEnd(s: CStmt)
    decreases s, 1
  {
    match s
    case CIf(_, _, els) => OpenElse(els)
    case CForeach(_, _, body) => OpenBlock(body)
    case CWhile(_, body) => OpenBlock(body)
    case _ => false
  }

  predicate OpenBlock(b: CBlock)
    decreases b, 1
  {
    b.Single? && OpenItem(b.item)
  }

  predicate OpenItem(i: CItem)
    decreases i, 1
  {
    OpenEnd(i.s)
  }

  predicate OpenElse(e: CElse)
    decreases e, 1
  {
    match e
    case NoElse => true
    case Else(block) => OpenBlock(block)
    case ElseIf(_, nested) => OpenEnd(nested)
  }

  /** In no script does an else follow a statement that ends with an open if. */
  lemma {:induction false} ElseIsNearest(num: NumberParser, s: CStmt, t: Token)
    requires Good(num, s, t) && OpenEnd(s)
    ensures !ElseWord(t)
    decreases s, 1
  {
    match s
    case CIf(_, _, els) => ElseElseIsNearest(num, els, t);
    case CForeach(_, _, body) => BlockElseIsNearest(num, body, t);
    case CWhile(_, body) => BlockElseIsNearest(num, body, t);
    case _ =>
  }

  lemma {:induction false} ElseElseIsNearest(num: NumberParser, e: CElse, t: Token)
    requires GoodElse(num, e, t) && OpenElse(e)
    ensures !ElseWord(t)
    decreases e, 1
  {
    match e
    case NoElse =>
    case Else(block) => BlockElseIsNearest(num, block, t);
    case ElseIf(_, nested) => ElseIsNearest(num, nested, t);
  }

  lemma {:induction false} BlockElseIsNearest(num: NumberParser, b: CBlock, t: Token)
    requires GoodBlock(num, b, t) && OpenBlock(b)
    ensures !ElseWord(t)
    decreases b, 1
  {
    ElseIsNearest(num, b.item.s, t);
  }

  // ----- the printer -----

  predicate PrintableStmt(num: NumberParser, fmt: NumberPrinter, s: Stmt)
    decreases s, 1
  {
    match s
    case Decl(typeName, name, init) =>
      DeclType(typeName) && IsWord(name) && (init.Some? ==> Printable(num, fmt, init.value))
    case Assign(name, e) => IsWord(name) && !Keyword(name) && Printable(num, fmt, e)
    case Eval(e) => Printable(num, fmt, e)
    case If(cond, then_, els) =>
      Printable(num, fmt, cond) && PrintableStmts(num, fmt, then_) && PrintableStmts(num, fmt, els)
    case Foreach(_, list, body) => Printable(num, fmt, list) && PrintableStmts(num, fmt, body)
    case While(cond, body) => Printable(num, fmt, cond) && PrintableStmts(num, fmt, body)
  }

  predicate PrintableStmts(num: NumberParser, fmt: NumberPrinter, ss: seq<Stmt>)
    decreases ss, 0
  {
    ss == [] || (PrintableStmt(num, fmt, ss[0]) && PrintableStmts(num, fmt, ss[1..]))
  }

  /** An expression that opens with a keyword needs a bracket to stand as a statement. */
  function Guard(c: Cst): Cst {
    if Print(c)[0].kind == Word && Keyword(Print(c)[0].text) then CParen(c) else c
  }

  function Tidy(fmt: NumberPrinter, s: Stmt): CStmt
    decreases s, 2
  {
    match s
    case Decl(typeName, name, init) =>
      CDecl(typeName, name, if init.Some? then Some(Minimal(fmt, init.value)) else None, true)
    case Assign(name, e) => CAssign(name, Minimal(fmt, e), true)
    case Eval(e) => CEval(Guard(Minimal(fmt, e)), true)
    case If(cond, then_, els) => CIf(Minimal(fmt, cond), TidyThen(fmt, then_, els != []), TidyElse(fmt, els))
    case Foreach(v, list, body) =>
      CForeach(Token(if IsWord(v) then Word else Text, v), Minimal(fmt, list), TidyBlock(fmt, body))
    case While(cond, body) => CWhile(Minimal(fmt, cond), TidyBlock(fmt, body))
  }

  /** A statement that would be taken for an else keeps a semicolon in front. */
  function TidyItem(fmt: NumberPrinter, s: Stmt): CItem
    decreases s, 3
  {
    var c := Tidy(fmt, s);
    CItem(if ElseWord(PrintStmt(c)[0]) then 1 else 0, c)
  }

  function TidyItems(fmt: NumberPrinter, ss: seq<Stmt>): seq<CItem>
    decreases ss, 0
  {
    if ss == [] then [] else [TidyItem(fmt, ss[0])] + TidyItems(fmt, ss[1..])
  }

  function TidyBlock(fmt: NumberPrinter, ss: seq<Stmt>): CBlock
    decreases ss, 1
  {
    if |ss| == 1 then Single(TidyItem(fmt, ss[0])) else Braced(TidyItems(fmt, ss))
  }

  function TidyThen(fmt: NumberPrinter, ss: seq<Stmt>, more: bool): CBlock
    decreases ss, 2
  {
    if more && OpenBlock(TidyBlock(fmt, ss)) then Braced(TidyItems(fmt, ss)) else TidyBlock(fmt, ss)
  }

  function TidyElse(fmt: NumberPrinter, ss: seq<Stmt>): CElse
    decreases ss, 2
  {
    if ss == [] then NoElse
    else if |ss| == 1 && ss[0].If? then ElseIf(false, Tidy(fmt, ss[0]))
    else Else(TidyBlock(fmt, ss))
  }

  function TidyScript(fmt: NumberPrinter, ss: seq<Stmt>): CScript { CScript(TidyItems(fmt, ss), 0) }

  // ----- its text is a script of the grammar with the same meaning -----

  /** Inside an expression no word and no assignment follows a word. */
  lemma {:induction false} SecondToken(num: NumberParser, c: Cst)
    requires WellFormed(num, c) && |Print(c)| > 1 && Print(c)[0].kind == Word
    ensures Print(c)[1].kind != Word && !Is(Print(c)[1], "=")
    decreases c
  {
    hide IsWord, IsOperator, WellFormedAll;
    match c
    case CBinary(_, l, _) => if |Print(l)| > 1 { SecondToken(num, l); }
    case CMember(x, _, _, _) => if |Print(x)| > 1 { SecondToken(num, x); }
    case _ =>
  }

  lemma GuardBare(num: NumberParser, c: Cst, t: Token)
    requires WellFormed(num, c)
    ensures WellFormed(num, Guard(c)) && Ast(num, Guard(c)) == Ast(num, c)
    ensures Bare(Print(Guard(c))[0], Next(Print(Guard(c))[1..] + [Mark(";")], t))
    ensures !Is(Print(Guard(c))[0], "if")
  {
    hide WellFormed, DeclType;
    assert WellFormed(num, Guard(c)) by { ParenGood(num, c); }
    var text := Print(Guard(c));
    if text[0].kind == Word && |text| > 1 { SecondToken(num, Guard(c)); }
    FirstLexeme(num, Guard(c));
  }

  lemma ParenGood(num: NumberParser, c: Cst)
    requires WellFormed(num, c)
    ensures WellFormed(num, CParen(c))
  {
  }

  /** A token that reads if is a word or a string literal. */
  lemma FirstLexeme(num: NumberParser, c: Cst)
    requires WellFormed(num, c)
    ensures Is(Print(c)[0], "if") ==> Print(c)[0].kind == Word
  {
    hide WellFormed, Print;
    RegaParser.PrintLexed(num, c);
    assert Print(c)[0] in Print(c);
    assert Lexeme(Print(c)[0]);
  }

  lemma TidyFirst(num: NumberParser, fmt: NumberPrinter, s: Stmt)
    requires PrintableStmt(num, fmt, s)
    ensures !s.If? ==> !Is(PrintStmt(Tidy(fmt, s))[0], "if")
  {
    hide Print, Guard, Printable, PrintableStmts, TidyBlock, Minimal;
    if s.Eval? {
      MinimalMeans(num, fmt, s.value);
      GuardBare(num, Minimal(fmt, s.value), END);
    }
  }

  lemma ItemFirst(num: NumberParser, fmt: NumberPrinter, s: Stmt)
    requires PrintableStmt(num, fmt, s)
    ensures !ElseWord(PrintItem(TidyItem(fmt, s))[0])
    ensures !s.If? ==> !Is(PrintItem(TidyItem(fmt, s))[0], "if")
  {
    hide Tidy, PrintStmt, PrintableStmt;
    TidyFirst(num, fmt, s);
    assert Semis(1)[0] == Mark(";");
  }

  lemma {:induction false} TidyMeans(num: NumberParser, fmt: NumberPrinter, s: Stmt, t: Token)
    requires PrintableStmt(num, fmt, s) && (OpenEnd(Tidy(fmt, s)) ==> !ElseWord(t))
    ensures Good(num, Tidy(fmt, s), t) && AstStmt(num, Tidy(fmt, s)) == s
    decreases s, 2
  {
    hide IsWord, DeclType, Keyword, WellFormed, Printable, Minimal, Ast, Print, TidyBlock, TidyThen, TidyElse,
        OpenBlock, OpenElse, GoodBlock, GoodElse, AstBlock, AstElse, PrintableStmts, ElseWord, Bare;
    match s
    case Decl(_, _, init) => if init.Some? { MinimalMeans(num, fmt, init.value); }
    case Assign(_, e) => MinimalMeans(num, fmt, e);
    case Eval(e) =>
      MinimalMeans(num, fmt, e);
      GuardBare(num, Minimal(fmt, e), t);
    case If(cond, then_, els) =>
      MinimalMeans(num, fmt, cond);
      ElseFirst(fmt, els, t);
      ThenMeans(num, fmt, then_, els != [], Next(PrintElse(TidyElse(fmt, els)), t));
      ElseMeans(num, fmt, els, t);
    case Foreach(v, list, body) =>
      MinimalMeans(num, fmt, list);
      BlockMeans(num, fmt, body, t);
    case While(cond, body) =>
      MinimalMeans(num, fmt, cond);
      BlockMeans(num, fmt, body, t);
  }

  lemma ElseFirst(fmt: NumberPrinter, ss: seq<Stmt>, t: Token)
    ensures ss == [] ==> Next(PrintElse(TidyElse(fmt, ss)), t) == t && OpenElse(TidyElse(fmt, ss))
  {
    hide Tidy, TidyBlock;
  }

  lemma {:induction false} ThenMeans(num: NumberParser, fmt: NumberPrinter, ss: seq<Stmt>, more: bool, t: Token)
    requires PrintableStmts(num, fmt, ss) && (more || !ElseWord(t))
    ensures GoodBlock(num, TidyThen(fmt, ss, more), t) && AstBlock(num, TidyThen(fmt, ss, more)) == ss
    decreases ss, 2
  {
    hide PrintableStmts, ElseWord, GoodItems, AstItems;
    if more && OpenBlock(TidyBlock(fmt, ss)) {
      BraceNotElse();
      ItemsMean(num, fmt, ss, Mark("}"));
    } else {
      BlockMeans(num, fmt, ss, t);
    }
  }

  lemma BraceNotElse()
    ensures !ElseWord(Mark("}")) && !ElseWord(END)
  {
  }

  lemma {:induction false} BlockMeans(num: NumberParser, fmt: NumberPrinter, ss: seq<Stmt>, t: Token)
    requires PrintableStmts(num, fmt, ss) && (OpenBlock(TidyBlock(fmt, ss)) ==> !ElseWord(t))
    ensures GoodBlock(num, TidyBlock(fmt, ss), t) && AstBlock(num, TidyBlock(fmt, ss)) == ss
    decreases ss, 1
  {
    hide ElseWord, GoodItems, AstItems, PrintableStmt, Tidy;
    if |ss| == 1 {
      assert OpenItem(TidyItem(fmt, ss[0])) == OpenEnd(Tidy(fmt, ss[0]));
      TidyMeans(num, fmt, ss[0], t);
    } else {
      BraceNotElse();
      ItemsMean(num, fmt, ss, Mark("}"));
    }
  }

  lemma {:induction false} ElseMeans(num: NumberParser, fmt: NumberPrinter, ss: seq<Stmt>, t: Token)
    requires PrintableStmts(num, fmt, ss) && (OpenElse(TidyElse(fmt, ss)) ==> !ElseWord(t))
    ensures GoodElse(num, TidyElse(fmt, ss), t) && AstElse(num, TidyElse(fmt, ss)) == ss
    decreases ss, 2
  {
    hide ElseWord, Tidy, PrintableStmt, GoodBlock, AstBlock, Good, AstStmt, Is;
    if |ss| == 1 && ss[0].If? {
      TidyMeans(num, fmt, ss[0], t);
      TidyIf(fmt, ss[0]);
    } else if ss != [] {
      BlockMeans(num, fmt, ss, t);
      BlockFirst(num, fmt, ss, t);
    }
  }

  lemma TidyIf(fmt: NumberPrinter, s: Stmt)
    requires s.If?
    ensures Tidy(fmt, s).CIf?
  {
  }

  lemma BlockFirst(num: NumberParser, fmt: NumberPrinter, ss: seq<Stmt>, t: Token)
    requires PrintableStmts(num, fmt, ss) && ss != [] && !(|ss| == 1 && ss[0].If?)
    ensures !Is(Next(PrintBlock(TidyBlock(fmt, ss)), t), "if")
  {
    hide PrintableStmt, TidyItem, PrintItem;
    if |ss| == 1 { ItemFirst(num, fmt, ss[0]); }
  }

  lemma {:induction false} ItemsMean(num: NumberParser, fmt: NumberPrinter, ss: seq<Stmt>, t: Token)
    requires PrintableStmts(num, fmt, ss) && !ElseWord(t)
    ensures GoodItems(num, TidyItems(fmt, ss), t) && AstItems(num, TidyItems(fmt, ss)) == ss
    decreases ss, 0
  {
    hide PrintableStmt, ElseWord, Tidy, Good, AstStmt;
    if ss != [] {
      var rest := TidyItems(fmt, ss[1..]);
      ItemsFirst(num, fmt, ss[1..], t);
      TidyMeans(num, fmt, ss[0], Next(PrintItems(rest), t));
      ItemsMean(num, fmt, ss[1..], t);
      assert ([TidyItem(fmt, ss[0])] + rest)[1..] == rest;
    }
  }

  lemma ItemsFirst(num: NumberParser, fmt: NumberPrinter, ss: seq<Stmt>, t: Token)
    requires PrintableStmts(num, fmt, ss) && !ElseWord(t)
    ensures !ElseWord(Next(PrintItems(TidyItems(fmt, ss)), t))
  {
    hide PrintableStmt, TidyItem, PrintItem, ElseWord;
    if ss != [] { ItemFirst(num, fmt, ss[0]); }
  }

  /** Printing a program and parsing the text gives the program back. */
  lemma ScriptRoundTrip(num: NumberParser, fmt: NumberPrinter, program: seq<Stmt>)
    requires PrintableStmts(num, fmt, program)
    ensures Lexed(PrintScript(TidyScript(fmt, program)) + [END])
    ensures var r := ParseScript(num, PrintScript(TidyScript(fmt, program)) + [END], 0);
      r.Done? && AstItems(num, r.value.items) == program
  {
    hide PrintableStmts, GoodItems, AstItems, TidyItems, ParseScript, Lexed, PrintItems;
    BraceNotElse();
    ItemsMean(num, fmt, program, END);
    var s := TidyScript(fmt, program);
    ScriptLexed(num, s);
    AcceptsScripts(num, PrintScript(s) + [END], s);
  }

  lemma OneItemScript(c: CStmt)
    ensures PrintScript(CScript([CItem(0, c)], 0)) == PrintStmt(c)
  {
    hide PrintStmt;
    assert [CItem(0, c)][1..] == [];
    assert PrintItem(CItem(0, c)) == PrintStmt(c);
    assert PrintItems([CItem(0, c)]) == PrintStmt(c);
  }

  lemma OneItemGood(num: NumberParser, c: CStmt)
    requires Good(num, c, END)
    ensures GoodScript(num, CScript([CItem(0, c)], 0))
  {
    hide Good;
    var items := [CItem(0, c)];
    assert items[1..] == [] && PrintItems(items[1..]) == [] && GoodItems(num, items[1..], END);
    assert GoodItem(num, items[0], END);
    assert GoodItems(num, items, END);
    assert Next(Semis(0), END) == END;
  }

  /** The script `while (a) ; b;` is a loop around b. */
  lemma BodyScript(num: NumberParser)
    ensures var ts := Head("while", CIdent("a")) + [Mark(";"), Token(Word, "b"), Mark(";"), END];
      Lexed(ts) && var r := ParseScript(num, ts, 0);
      r.Done? && AstItems(num, r.value.items) == [While(Ident("a"), [Eval(Ident("b"))])]
  {
    var ts := Head("while", CIdent("a")) + [Mark(";"), Token(Word, "b"), Mark(";"), END];
    var loop := CWhile(CIdent("a"), Single(CItem(1, CEval(CIdent("b"), true))));
    var s := CScript([CItem(0, loop)], 0);
    assert IsWord("a") && IsWord("b");
    assert [CItem(0, loop)][1..] == [];
    assert PrintStmt(loop) + [END] == ts by { assert Semis(1) == [Mark(";")]; }
    OneItemScript(loop);
    assert Good(num, CEval(CIdent("b"), true), END);
    assert Good(num, loop, END);
    OneItemGood(num, loop);
    ScriptLexed(num, s);
    AcceptsScripts(num, ts, s);
    assert AstItems(num, s.items) == [AstStmt(num, loop)];
  }
}
