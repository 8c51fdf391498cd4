/** The scripts on which the statement parser looks past its last token: those that stop right after
    the opening bracket of a foreach, at a place where a statement may begin. */
module RegaCut {
  import opened Collections
  import opened RegaGrammar
  import opened RegaScript
  import opened RegaParser
  import opened RegaStatements

  /** A statement that stops after `foreach (`, by the place where it stops. */
  datatype Cut =
    | Here
    | InThen(cond: Cst, block: CutBlock)
    | InElse(cond: Cst, then_: CBlock, els: CutElse)
    | InForeach(variable: Token, list: Cst, block: CutBlock)
    | InWhile(cond: Cst, block: CutBlock)

  datatype CutBlock = CutBraced(body: CutScript) | CutSingle(last: CutItem)

  datatype CutElse = CutBranch(block: CutBlock) | CutElseIf(joined: bool, nested: Cut)

  datatype CutItem = CutItem(skips: nat, s: Cut)

  datatype CutScript = CutScript(items: seq<CItem>, last: CutItem)

  const FOREACH := [Token(Word, "foreach"), Mark("(")]

  /** The script ends right after the opening bracket of a foreach. */
  predicate CutOff(text: seq<Token>) {
    |text| >= 2 && text[|text| - 2..] == FOREACH
  }

  predicate IsIf(c: Cut) { c.InThen? || c.InElse? }

  function PrintCut(c: Cut): (ts: seq<Token>)
    ensures |ts| >= 2
    ensures IsIf(c) ==> |ts| > 2 && ts[0] == Token(Word, "if")
    decreases c
  {
    match c
    case Here => FOREACH
    case InThen(cond, block) => Head("if", cond) + PrintCutBlock(block)
    case InElse(cond, then_, els) => Head("if", cond) + (PrintBlock(then_) + PrintCutElse(els))
    case InForeach(variable, list, block) =>
      FOREACH + ([variable, Mark(",")] + ((Print(list) + [Mark(")")]) + PrintCutBlock(block)))
    case InWhile(cond, block) => Head("while", cond) + PrintCutBlock(block)
  }

  function PrintCutElse(e: CutElse): (ts: seq<Token>)
    ensures |ts| >= 2
    decreases e
  {
    match e
    case CutBranch(block) => [Token(Word, "else")] + PrintCutBlock(block)
    case CutElseIf(joined, nested) =>
      if joined && IsIf(nested) then [Token(Word, "elseif")] + PrintCut(nested)[1..]
      else [Token(Word, "else")] + PrintCut(nested)
  }

  function PrintCutBlock(b: CutBlock): (ts: seq<Token>)
    ensures |ts| >= 2
    decreases b
  {
    match b
    case CutBraced(body) => [Mark("{")] + PrintCutScript(body)
    case CutSingle(last) => PrintCutItem(last)
  }

  function PrintCutItem(i: CutItem): (ts: seq<Token>)
    ensures |ts| >= 2
    decreases i
  {
    Semis(i.skips) + PrintCut(i.s)
  }

  function PrintCutScript(s: CutScript): (ts: seq<Token>)
    ensures |ts| >= 2
    decreases s
  {
    PrintItems(s.items) + PrintCutItem(s.last)
  }

  predicate GoodCut(num: NumberParser, c: Cut)
    decreases c
  {
    match c
    case Here => true
    case InThen(cond, block) => WellFormed(num, cond) && GoodCutBlock(num, block)
    case InElse(cond, then_, els) =>
      WellFormed(num, cond) && GoodBlock(num, then_, PrintCutElse(els)[0]) && GoodCutElse(num, els)
    case InForeach(variable, list, block) => Lexeme(variable) && WellFormed(num, list) && GoodCutBlock(num, block)
    case InWhile(cond, block) => WellFormed(num, cond) && GoodCutBlock(num, block)
  }

  predicate GoodCutElse(num: NumberParser, e: CutElse)
    decreases e
  {
    match e
    case CutBranch(block) => GoodCutBlock(num, block) && !Is(PrintCutBlock(block)[0], "if")
    case CutElseIf(_, nested) => IsIf(nested) && GoodCut(num, nested)
  }

  predicate GoodCutBlock(num: NumberParser, b: CutBlock)
    decreases b
  {
    match b
    case CutBraced(body) => GoodCutScript(num, body)
    case CutSingle(last) => GoodCutItem(num, last)
  }

  predicate GoodCutItem(num: NumberParser, i: CutItem)
    decreases i
  {
    GoodCut(num, i.s)
  }

  predicate GoodCutScript(num: NumberParser, s: CutScript)
    decreases s
  {
    GoodItems(num, s.items, PrintCutItem(s.last)[0]) && GoodCutItem(num, s.last)
  }

  /** What is still to come from here is this text and the end marker. */
  predicate Rest(ts: seq<Token>, pos: nat, text: seq<Token>) {
    Lexed(ts) && pos < |ts| && text == ts[pos..|ts| - 1]
  }

  // ----- whoever looks past the end reads a cut script -----

  lemma {:induction false} StmtCut(num: NumberParser, ts: seq<Token>, pos: nat) returns (c: Cut)
    requires Lexed(ts) && pos < |ts| && ParseStmt(num, ts, pos).Panics?
    ensures GoodCut(num, c) && Rest(ts, pos, PrintCut(c))
    decreases |ts| - pos, 2
  {
    hide Lexed, GoodCut, PrintCut, Rest, ParseIf, ParseWhile, ParseForeach, DeclType, ParseSimple, ParseDecl;
    WordAt(ts, pos);
    if ts[pos].text == "if" {
      c := IfCut(num, ts, pos);
      IfCutText(ts, pos, c);
    } else if ts[pos].text == "while" {
      c := WhileCut(num, ts, pos);
    } else {
      c := ForeachCut(num, ts, pos);
    }
  }

  lemma IfCutText(ts: seq<Token>, pos: nat, c: Cut)
    requires Lexed(ts) && pos + 1 < |ts| && ts[pos] == Token(Word, "if")
    requires IsIf(c) && Rest(ts, pos + 1, PrintCut(c)[1..])
    ensures Rest(ts, pos, PrintCut(c))
  {
    assert PrintCut(c) == [PrintCut(c)[0]] + PrintCut(c)[1..];
    assert ts[pos..|ts| - 1] == [ts[pos]] + ts[pos + 1..|ts| - 1];
  }

  lemma RestFirst(ts: seq<Token>, pos: nat, text: seq<Token>)
    requires Rest(ts, pos, text) && text != []
    ensures ts[pos] == text[0] && pos + 1 < |ts|
  {
  }

  lemma RestJoin(ts: seq<Token>, pos: nat, mid: nat, text: seq<Token>)
    requires pos <= mid && Rest(ts, mid, text)
    ensures Rest(ts, pos, ts[pos..mid] + text)
  {
  }

  lemma {:induction false} IfCut(num: NumberParser, ts: seq<Token>, pos: nat) returns (c: Cut)
    requires Lexed(ts) && pos + 1 < |ts| && ParseIf(num, ts, pos).Panics?
    ensures IsIf(c) && GoodCut(num, c) && Rest(ts, pos + 1, PrintCut(c)[1..])
    decreases |ts| - pos, 1
  {
    hide Lexed, WellFormed, Print, ParseClosed, ParseBlock, ParseElse, PrintBlock, GoodBlock, Is, GoodCutBlock,
        PrintCutBlock, GoodCutElse, PrintCutElse, Head;
    MarkIs();
    MarkAt(ts, pos + 1, "(");
    var end := |ts| - 1;
    var cond := ParseClosed(num, ts, pos + 2);
    ClosedSound(num, ts, pos + 2);
    var then_ := ParseBlock(num, ts, cond.pos);
    if then_.Panics? {
      var b := BlockCut(num, ts, cond.pos);
      c := InThen(cond.value, b);
      HeadThen(ts, pos, cond.pos, end, "if", cond.value, PrintCutBlock(b));
    } else {
      BlockSound(num, ts, cond.pos);
      var e := ElseCut(num, ts, then_.pos);
      RestFirst(ts, then_.pos, PrintCutElse(e));
      Joined(ts, cond.pos, then_.pos, end);
      c := InElse(cond.value, then_.value, e);
      HeadThen(ts, pos, cond.pos, end, "if", cond.value, PrintBlock(then_.value) + PrintCutElse(e));
    }
  }

  lemma {:induction false} ElseCut(num: NumberParser, ts: seq<Token>, pos: nat) returns (e: CutElse)
    requires Lexed(ts) && pos < |ts| && ParseElse(num, ts, pos).Panics?
    ensures GoodCutElse(num, e) && Rest(ts, pos, PrintCutElse(e))
    decreases |ts| - pos, 2
  {
    hide Lexed, GoodCut, PrintCut, ParseIf, ParseBlock, GoodCutBlock, PrintCutBlock;
    assert ts[pos..|ts| - 1] == [ts[pos]] + ts[pos + 1..|ts| - 1] by { RestLong(num, ts, pos); }
    if Is(ts[pos], "elseif") {
      WordIs(ts, pos, "elseif");
      var nested := IfCut(num, ts, pos);
      e := CutElseIf(true, nested);
    } else {
      WordIs(ts, pos, "else");
      if Is(ts[pos + 1], "if") {
        WordIs(ts, pos + 1, "if");
        var nested := IfCut(num, ts, pos + 1);
        IfCutText(ts, pos + 1, nested);
        e := CutElseIf(false, nested);
      } else {
        var b := BlockCut(num, ts, pos + 1);
        RestFirst(ts, pos + 1, PrintCutBlock(b));
        e := CutBranch(b);
      }
    }
  }

  lemma RestLong(num: NumberParser, ts: seq<Token>, pos: nat)
    requires Lexed(ts) && pos < |ts| && ParseElse(num, ts, pos).Panics?
    ensures pos + 1 < |ts|
  {
    hide ParseIf, ParseBlock;
    if Is(ts[pos], "elseif") { WordIs(ts, pos, "elseif"); } else { WordIs(ts, pos, "else"); }
  }

  lemma {:induction false} WhileCut(num: NumberParser, ts: seq<Token>, pos: nat) returns (c: Cut)
    requires Lexed(ts) && pos + 1 < |ts| && ts[pos] == Token(Word, "while") && ParseWhile(num, ts, pos).Panics?
    ensures GoodCut(num, c) && Rest(ts, pos, PrintCut(c))
    decreases |ts| - pos, 1
  {
    hide Lexed, WellFormed, Print, ParseClosed, ParseBlock, Is, GoodCutBlock, PrintCutBlock, Head;
    MarkIs();
    MarkAt(ts, pos + 1, "(");
    var cond := ParseClosed(num, ts, pos + 2);
    ClosedSound(num, ts, pos + 2);
    var b := BlockCut(num, ts, cond.pos);
    c := InWhile(cond.value, b);
    HeadThen(ts, pos, cond.pos, |ts| - 1, "while", cond.value, PrintCutBlock(b));
  }

  lemma {:induction false} ForeachCut(num: NumberParser, ts: seq<Token>, pos: nat) returns (c: Cut)
    requires Lexed(ts) && pos + 1 < |ts| && ts[pos] == Token(Word, "foreach") && ParseForeach(num, ts, pos).Panics?
    ensures GoodCut(num, c) && Rest(ts, pos, PrintCut(c))
    decreases |ts| - pos, 1
  {
    hide WellFormed, Print, ParseClosed, ParseBlock, Is, Lexeme, GoodCutBlock, PrintCutBlock;
    MarkIs();
    MarkAt(ts, pos + 1, "(");
    var end := |ts| - 1;
    assert ts[pos..pos + 2] == FOREACH;
    if pos + 3 == |ts| {
      c := Here;
    } else {
      MarkAt(ts, pos + 3, ",");
      var list := ParseClosed(num, ts, pos + 4);
      ClosedSound(num, ts, pos + 4);
      var b := BlockCut(num, ts, list.pos);
      c := InForeach(ts[pos + 2], list.value, b);
      Joined(ts, pos + 4, list.pos, end);
      assert ts[pos + 2..pos + 4] == [ts[pos + 2], ts[pos + 3]];
      Joined(ts, pos + 2, pos + 4, end);
      Joined(ts, pos, pos + 2, end);
    }
  }

  lemma {:induction false} ItemCut(num: NumberParser, ts: seq<Token>, pos: nat) returns (i: CutItem)
    requires Lexed(ts) && pos < |ts| && ParseItem(num, ts, pos).Panics?
    ensures GoodCutItem(num, i) && Rest(ts, pos, PrintCutItem(i))
    decreases |ts| - pos, 3
  {
    hide Lexed, GoodCut, PrintCut, ParseStmt;
    var at := Skip(ts, pos);
    SkipSound(ts, pos);
    var c := StmtCut(num, ts, at);
    i := CutItem(at - pos, c);
    RestJoin(ts, pos, at, PrintCut(c));
  }

  lemma {:induction false} BlockCut(num: NumberParser, ts: seq<Token>, pos: nat) returns (b: CutBlock)
    requires Lexed(ts) && pos < |ts| && ParseBlock(num, ts, pos).Panics?
    ensures GoodCutBlock(num, b) && Rest(ts, pos, PrintCutBlock(b))
    decreases |ts| - pos, 4
  {
    hide Lexed, GoodCutItem, PrintCutItem, ParseItem, ParseBody, GoodCutScript, PrintCutScript;
    if Is(ts[pos], "{") {
      BraceMarks();
      MarkAt(ts, pos, "{");
      var body := BodyCut(num, ts, pos + 1);
      assert ts[pos..pos + 1] == [ts[pos]];
      RestJoin(ts, pos, pos + 1, PrintCutScript(body));
      b := CutBraced(body);
    } else {
      var i := ItemCut(num, ts, pos);
      b := CutSingle(i);
    }
  }

  lemma CutNext(num: NumberParser, ts: seq<Token>, pos: nat, mid: nat, i: CItem, rest: CutScript)
    requires pos <= mid && Rest(ts, mid, PrintCutScript(rest)) && GoodCutScript(num, rest)
    requires PrintItem(i) == ts[pos..mid] && GoodItem(num, i, ts[mid])
    ensures var s := CutScript([i] + rest.items, rest.last);
      GoodCutScript(num, s) && Rest(ts, pos, PrintCutScript(s))
  {
    hide Lexed, GoodItem, PrintItem, GoodCutItem, PrintCutItem;
    var s := CutScript([i] + rest.items, rest.last);
    assert s.items[1..] == rest.items;
    RestFirst(ts, mid, PrintCutScript(rest));
    RestJoin(ts, pos, mid, PrintCutScript(rest));
    assert PrintCutScript(s) == PrintItem(i) + PrintCutScript(rest);
  }

  lemma NoItems(num: NumberParser, ts: seq<Token>, pos: nat, last: CutItem)
    requires GoodCutItem(num, last) && Rest(ts, pos, PrintCutItem(last))
    ensures GoodCutScript(num, CutScript([], last)) && Rest(ts, pos, PrintCutScript(CutScript([], last)))
  {
    assert [] + PrintCutItem(last) == PrintCutItem(last);
  }

  lemma {:induction false} BodyCut(num: NumberParser, ts: seq<Token>, pos: nat) returns (s: CutScript)
    requires Lexed(ts) && pos < |ts| && ParseBody(num, ts, pos).Panics?
    ensures GoodCutScript(num, s) && Rest(ts, pos, PrintCutScript(s))
    decreases |ts| - pos, 4
  {
    hide Lexed, ParseItem, GoodCutItem, PrintCutItem, GoodCutScript, PrintCutScript, Rest, GoodItem, PrintItem;
    var item := ParseItem(num, ts, pos);
    if item.Panics? {
      var last := ItemCut(num, ts, pos);
      NoItems(num, ts, pos, last);
      s := CutScript([], last);
    } else {
      ItemSound(num, ts, pos);
      var rest := BodyCut(num, ts, item.pos);
      CutNext(num, ts, pos, item.pos, item.value.value, rest);
      s := CutScript([item.value.value] + rest.items, rest.last);
    }
  }

  lemma {:induction false} ScriptCut(num: NumberParser, ts: seq<Token>, pos: nat) returns (s: CutScript)
    requires Lexed(ts) && pos < |ts| && ParseScript(num, ts, pos).Panics?
    ensures GoodCutScript(num, s) && Rest(ts, pos, PrintCutScript(s))
    decreases |ts| - pos
  {
    hide Lexed, ParseItem, GoodCutItem, PrintCutItem, GoodCutScript, PrintCutScript, Rest, GoodItem, PrintItem;
    var item := ParseItem(num, ts, pos);
    if item.Panics? {
      var last := ItemCut(num, ts, pos);
      NoItems(num, ts, pos, last);
      s := CutScript([], last);
    } else {
      ItemSound(num, ts, pos);
      var rest := ScriptCut(num, ts, item.pos);
      CutNext(num, ts, pos, item.pos, item.value.value, rest);
      s := CutScript([item.value.value] + rest.items, rest.last);
    }
  }

  // ----- whatever is cut off there makes the parser look past the end -----

  lemma RestSplit(ts: seq<Token>, pos: nat, a: seq<Token>, b: seq<Token>)
    requires Rest(ts, pos, a + b)
    ensures Occurs(ts, pos, a) && Rest(ts, pos + |a|, b)
  {
    hide Lexed;
    assert ts[pos..pos + |a + b|] == a + b;
    OccursSplit(ts, pos, a, b);
  }

  lemma HeadRest(ts: seq<Token>, pos: nat, word: string, e: Cst, rest: seq<Token>)
    requires Rest(ts, pos + 1, (Head(word, e) + rest)[1..])
    ensures var at := pos + 2 + |Print(e)| + 1;
      && ts[pos + 1] == Mark("(") && Occurs(ts, pos + 2, Print(e) + [Mark(")")]) && Rest(ts, at, rest)
  {
    hide Rest, Occurs, Print;
    var inner := Print(e) + [Mark(")")];
    assert (Head(word, e) + rest)[1..] == [Mark("(")] + (inner + rest);
    RestSplit(ts, pos + 1, [Mark("(")], inner + rest);
    OccursFirst(ts, pos + 1, [Mark("(")]);
    RestSplit(ts, pos + 2, inner, rest);
  }

  lemma RestAfter(ts: seq<Token>, pos: nat, text: seq<Token>)
    requires Rest(ts, pos, text) && text != []
    ensures Rest(ts, pos + 1, text[1..])
  {
    assert text == [text[0]] + text[1..];
    RestSplit(ts, pos, [text[0]], text[1..]);
  }

  /** A cut statement opens with its keyword. */
  lemma CutOpens(c: Cut)
    ensures PrintCut(c)[0] == Token(Word, if IsIf(c) then "if" else if c.InWhile? then "while" else "foreach")
  {
    hide PrintCutBlock, PrintCutElse, Print, PrintBlock;
  }

  lemma {:induction false} StmtPanics(num: NumberParser, ts: seq<Token>, pos: nat, c: Cut)
    requires GoodCut(num, c) && Rest(ts, pos, PrintCut(c))
    ensures ParseStmt(num, ts, pos).Panics?
    decreases c, 1
  {
    hide GoodCut, PrintCut, Lexed, ParseIf, ParseWhile, ParseForeach, ParseSimple, ParseDecl;
    CutOpens(c);
    RestFirst(ts, pos, PrintCut(c));
    if IsIf(c) {
      RestAfter(ts, pos, PrintCut(c));
      IfPanics(num, ts, pos, c);
    } else if c.InWhile? {
      WhilePanics(num, ts, pos, c);
    } else {
      ForeachPanics(num, ts, pos, c);
    }
  }

  lemma {:induction false} IfPanics(num: NumberParser, ts: seq<Token>, pos: nat, c: Cut)
    requires IsIf(c) && GoodCut(num, c) && Rest(ts, pos + 1, PrintCut(c)[1..])
    ensures ParseIf(num, ts, pos).Panics?
    decreases c, 0
  {
    hide Lexed, Rest, Occurs, WellFormed, Print, PrintBlock, GoodBlock, ParseClosed, ParseBlock, ParseElse, Head,
        PrintCutBlock, PrintCutElse, GoodCutBlock, GoodCutElse;
    var rest := if c.InThen? then PrintCutBlock(c.block) else PrintBlock(c.then_) + PrintCutElse(c.els);
    HeadRest(ts, pos, "if", c.cond, rest);
    var at := pos + 2 + |Print(c.cond)| + 1;
    RestWithin(ts, at, rest);
    ClosedComplete(num, ts, pos + 2, c.cond);
    if c.InThen? {
      BlockPanics(num, ts, at, c.block);
    } else {
      var mid := at + |PrintBlock(c.then_)|;
      RestSplit(ts, at, PrintBlock(c.then_), PrintCutElse(c.els));
      RestWithin(ts, mid, PrintCutElse(c.els));
      BlockComplete(num, ts, at, c.then_);
      ElsePanics(num, ts, mid, c.els);
    }
  }

  lemma RestWithin(ts: seq<Token>, pos: nat, text: seq<Token>)
    requires Rest(ts, pos, text)
    ensures Lexed(ts) && pos + |text| < |ts| && (text != [] ==> ts[pos] == text[0])
  {
  }

  lemma {:induction false} WhilePanics(num: NumberParser, ts: seq<Token>, pos: nat, c: Cut)
    requires c.InWhile? && GoodCut(num, c) && Rest(ts, pos, PrintCut(c))
    ensures pos + 1 < |ts| && ParseWhile(num, ts, pos).Panics?
    decreases c, 0
  {
    hide Lexed, Rest, Occurs, WellFormed, Print, ParseClosed, ParseBlock, Head, PrintCutBlock, GoodCutBlock;
    RestAfter(ts, pos, PrintCut(c));
    RestWithin(ts, pos + 1, PrintCut(c)[1..]);
    HeadRest(ts, pos, "while", c.cond, PrintCutBlock(c.block));
    RestWithin(ts, pos + 2 + |Print(c.cond)| + 1, PrintCutBlock(c.block));
    ClosedComplete(num, ts, pos + 2, c.cond);
    BlockPanics(num, ts, pos + 2 + |Print(c.cond)| + 1, c.block);
  }

  lemma ForeachRest(ts: seq<Token>, pos: nat, c: Cut)
    requires c.InForeach? && Rest(ts, pos, PrintCut(c))
    ensures var at := pos + 4 + |Print(c.list)| + 1;
      && at < |ts| && ts[pos + 1] == Mark("(") && ts[pos + 3] == Mark(",")
      && Occurs(ts, pos + 4, Print(c.list) + [Mark(")")]) && Rest(ts, at, PrintCutBlock(c.block))
  {
    hide Rest, Occurs, Print, PrintCutBlock;
    var inner, name := Print(c.list) + [Mark(")")], [c.variable, Mark(",")];
    RestSplit(ts, pos, FOREACH, name + (inner + PrintCutBlock(c.block)));
    OccursBoth(ts, pos, FOREACH[0], FOREACH[1]);
    RestSplit(ts, pos + 2, name, inner + PrintCutBlock(c.block));
    OccursBoth(ts, pos + 2, name[0], name[1]);
    RestSplit(ts, pos + 4, inner, PrintCutBlock(c.block));
    RestWithin(ts, pos + 4 + |inner|, PrintCutBlock(c.block));
  }

  lemma {:induction false} ForeachPanics(num: NumberParser, ts: seq<Token>, pos: nat, c: Cut)
    requires (c.Here? || c.InForeach?) && GoodCut(num, c) && Rest(ts, pos, PrintCut(c))
    ensures pos + 1 < |ts| && ParseForeach(num, ts, pos).Panics?
    decreases c, 0
  {
    hide Lexed, Rest, Occurs, WellFormed, Print, ParseClosed, ParseBlock, PrintCutBlock, GoodCutBlock, Lexeme;
    RestWithin(ts, pos, PrintCut(c));
    if c.Here? {
      HereEnds(ts, pos);
    } else {
      ForeachRest(ts, pos, c);
      RestWithin(ts, pos + 4 + |Print(c.list)| + 1, PrintCutBlock(c.block));
      ClosedComplete(num, ts, pos + 4, c.list);
      BlockPanics(num, ts, pos + 4 + |Print(c.list)| + 1, c.block);
    }
  }

  lemma HereEnds(ts: seq<Token>, pos: nat)
    requires Rest(ts, pos, FOREACH)
    ensures pos + 3 == |ts| && ts[pos + 1] == Mark("(")
  {
    assert ts[pos..|ts| - 1][1] == ts[pos + 1];
  }

  lemma {:induction false} ElsePanics(num: NumberParser, ts: seq<Token>, pos: nat, e: CutElse)
    requires GoodCutElse(num, e) && Rest(ts, pos, PrintCutElse(e))
    ensures ParseElse(num, ts, pos).Panics?
    decreases e, 0
  {
    hide Lexed, Rest, GoodCut, PrintCut, ParseIf, ParseBlock, GoodCutBlock, PrintCutBlock;
    RestWithin(ts, pos, PrintCutElse(e));
    RestAfter(ts, pos, PrintCutElse(e));
    match e
    case CutBranch(block) =>
      assert PrintCutElse(e)[1..] == PrintCutBlock(block);
      RestWithin(ts, pos + 1, PrintCutBlock(block));
      BlockPanics(num, ts, pos + 1, block);
    case CutElseIf(joined, nested) =>
      if joined {
        assert PrintCutElse(e)[1..] == PrintCut(nested)[1..];
        IfPanics(num, ts, pos, nested);
      } else {
        assert PrintCutElse(e)[1..] == PrintCut(nested);
        RestWithin(ts, pos + 1, PrintCut(nested));
        CutOpens(nested);
        RestAfter(ts, pos + 1, PrintCut(nested));
        IfPanics(num, ts, pos + 1, nested);
      }
  }

  lemma {:induction false} ItemPanics(num: NumberParser, ts: seq<Token>, pos: nat, i: CutItem)
    requires GoodCutItem(num, i) && Rest(ts, pos, PrintCutItem(i))
    ensures ParseItem(num, ts, pos).Panics? && !Is(ts[pos], "{") && !Is(ts[pos], "}")
    decreases i, 0
  {
    hide Lexed, Rest, GoodCut, PrintCut, ParseStmt, Occurs;
    RestWithin(ts, pos, PrintCutItem(i));
    RestSplit(ts, pos, Semis(i.skips), PrintCut(i.s));
    RestWithin(ts, pos + i.skips, PrintCut(i.s));
    CutOpens(i.s);
    SkipComplete(ts, pos, i.skips);
    StmtPanics(num, ts, pos + i.skips, i.s);
  }

  lemma {:induction false} BlockPanics(num: NumberParser, ts: seq<Token>, pos: nat, b: CutBlock)
    requires GoodCutBlock(num, b) && Rest(ts, pos, PrintCutBlock(b))
    ensures ParseBlock(num, ts, pos).Panics?
    decreases b, 0
  {
    hide Lexed, Rest, GoodCutItem, PrintCutItem, GoodCutScript, PrintCutScript, ParseItem, ParseBody;
    RestWithin(ts, pos, PrintCutBlock(b));
    match b
    case CutBraced(body) =>
      RestSplit(ts, pos, [Mark("{")], PrintCutScript(body));
      BodyPanics(num, ts, pos + 1, body);
    case CutSingle(last) => ItemPanics(num, ts, pos, last);
  }

  /** The first statement of a cut script that has one. */
  lemma FirstOfCut(num: NumberParser, ts: seq<Token>, pos: nat, s: CutScript)
    requires GoodCutScript(num, s) && Rest(ts, pos, PrintCutScript(s)) && s.items != []
    ensures var mid, rest := pos + |PrintItem(s.items[0])|, CutScript(s.items[1..], s.last);
      && ParseItem(num, ts, pos) == Done(Some(s.items[0]), mid) && !Is(ts[pos], "}")
      && GoodCutScript(num, rest) && Rest(ts, mid, PrintCutScript(rest))
  {
    hide Lexed, Rest, Occurs, GoodItem, PrintItem, ParseItem, GoodCutItem, PrintCutItem;
    var first, rest := PrintItem(s.items[0]), CutScript(s.items[1..], s.last);
    assert PrintCutScript(s) == first + PrintCutScript(rest);
    RestSplit(ts, pos, first, PrintCutScript(rest));
    RestWithin(ts, pos, PrintCutScript(s));
    RestWithin(ts, pos + |first|, PrintCutScript(rest));
    ItemComplete(num, ts, pos, s.items[0]);
  }

  lemma {:induction false} BodyPanics(num: NumberParser, ts: seq<Token>, pos: nat, s: CutScript)
    requires GoodCutScript(num, s) && Rest(ts, pos, PrintCutScript(s))
    ensures ParseBody(num, ts, pos).Panics?
    decreases s.last, 1, |s.items|
  {
    hide Lexed, Rest, ParseItem, GoodItems, PrintItem, GoodCutItem, PrintCutItem;
    RestWithin(ts, pos, PrintCutScript(s));
    if s.items == [] {
      assert [] + PrintCutItem(s.last) == PrintCutItem(s.last);
      ItemPanics(num, ts, pos, s.last);
    } else {
      FirstOfCut(num, ts, pos, s);
      BodyPanics(num, ts, pos + |PrintItem(s.items[0])|, CutScript(s.items[1..], s.last));
    }
  }

  lemma {:induction false} ScriptPanics(num: NumberParser, ts: seq<Token>, pos: nat, s: CutScript)
    requires GoodCutScript(num, s) && Rest(ts, pos, PrintCutScript(s))
    ensures ParseScript(num, ts, pos).Panics?
    decreases |s.items|
  {
    hide Lexed, Rest, ParseItem, GoodItems, PrintItem, GoodCutItem, PrintCutItem;
    RestWithin(ts, pos, PrintCutScript(s));
    if s.items == [] {
      assert [] + PrintCutItem(s.last) == PrintCutItem(s.last);
      ItemPanics(num, ts, pos, s.last);
    } else {
      FirstOfCut(num, ts, pos, s);
      ScriptPanics(num, ts, pos + |PrintItem(s.items[0])|, CutScript(s.items[1..], s.last));
    }
  }

  // ----- how cut and complete scripts end -----

  lemma CutLast(a: seq<Token>, b: seq<Token>)
    requires CutOff(b)
    ensures CutOff(a + b)
  {
    assert (a + b)[|a + b| - 2..] == b[|b| - 2..];
  }

  lemma {:induction false} CutEnds(num: NumberParser, c: Cut)
    requires GoodCut(num, c)
    ensures CutOff(PrintCut(c)) && (IsIf(c) ==> CutOff(PrintCut(c)[1..]))
    decreases c
  {
    hide CutOff, WellFormed, Print, GoodBlock, PrintBlock;
    match c
    case Here => assert CutOff(FOREACH) by { ForeachCutOff(); }
    case InThen(cond, block) =>
      BlockEnds(num, block);
      HeadLast("if", cond, PrintCutBlock(block));
    case InElse(cond, then_, els) =>
      ElseEnds(num, els);
      CutLast(PrintBlock(then_), PrintCutElse(els));
      HeadLast("if", cond, PrintBlock(then_) + PrintCutElse(els));
    case InForeach(variable, list, block) =>
      BlockEnds(num, block);
      CutLast(Print(list) + [Mark(")")], PrintCutBlock(block));
      CutLast([variable, Mark(",")], (Print(list) + [Mark(")")]) + PrintCutBlock(block));
      CutLast(FOREACH, [variable, Mark(",")] + ((Print(list) + [Mark(")")]) + PrintCutBlock(block)));
    case InWhile(cond, block) =>
      BlockEnds(num, block);
      HeadLast("while", cond, PrintCutBlock(block));
  }

  lemma ForeachCutOff()
    ensures CutOff(FOREACH)
  {
  }

  lemma HeadLast(word: string, e: Cst, rest: seq<Token>)
    requires CutOff(rest)
    ensures CutOff(Head(word, e) + rest) && CutOff((Head(word, e) + rest)[1..])
  {
    hide CutOff, Print;
    CutLast(Head(word, e), rest);
    CutLast(Head(word, e)[1..], rest);
    assert (Head(word, e) + rest)[1..] == Head(word, e)[1..] + rest;
  }

  lemma {:induction false} ElseEnds(num: NumberParser, e: CutElse)
    requires GoodCutElse(num, e)
    ensures CutOff(PrintCutElse(e))
    decreases e
  {
    hide CutOff, GoodCut, PrintCut, GoodCutBlock, PrintCutBlock;
    match e
    case CutBranch(block) =>
      BlockEnds(num, block);
      CutLast([Token(Word, "else")], PrintCutBlock(block));
    case CutElseIf(joined, nested) =>
      CutEnds(num, nested);
      CutLast([Token(Word, "elseif")], PrintCut(nested)[1..]);
      CutLast([Token(Word, "else")], PrintCut(nested));
  }

  lemma {:induction false} BlockEnds(num: NumberParser, b: CutBlock)
    requires GoodCutBlock(num, b)
    ensures CutOff(PrintCutBlock(b))
    decreases b
  {
    hide CutOff, GoodCut, PrintCut, GoodItems, PrintItems;
    match b
    case CutBraced(body) =>
      ItemEnds(num, body.last);
      CutLast(PrintItems(body.items), PrintCutItem(body.last));
      CutLast([Mark("{")], PrintCutScript(body));
    case CutSingle(last) => ItemEnds(num, last);
  }

  lemma {:induction false} ItemEnds(num: NumberParser, i: CutItem)
    requires GoodCutItem(num, i)
    ensures CutOff(PrintCutItem(i))
    decreases i
  {
    hide CutOff, GoodCut, PrintCut;
    CutEnds(num, i.s);
    CutLast(Semis(i.skips), PrintCut(i.s));
  }

  /** The text does not end with an opening bracket. */
  predicate Shut(text: seq<Token>) {
    text != [] ==> !Is(text[|text| - 1], "(")
  }

  lemma ShutBoth(a: seq<Token>, b: seq<Token>)
    requires Shut(a) && Shut(b)
    ensures Shut(a + b)
  {
  }

  lemma {:induction false} ExprShut(num: NumberParser, c: Cst)
    requires WellFormed(num, c)
    ensures Shut(Print(c))
    decreases c, 1
  {
    hide Precedence, IsOperator, IsPrefix, IsWord, IsDigits, WellFormedAll, Shut;
    match c
    case CUnary(op, x) =>
      ExprShut(num, x);
      OperatorShut(op);
      ShutBoth([Op(op)], Print(x));
    case CBinary(op, l, r) =>
      ExprShut(num, r);
      ExprShut(num, l);
      OperatorShut(op);
      ShutBoth(Print(l), [Op(op)]);
      ShutBoth(Print(l) + [Op(op)], Print(r));
    case _ => OperandShut(num, c);
  }

  lemma OperatorShut(op: string)
    requires IsOperator(op) || IsPrefix(op)
    ensures Shut([Op(op)])
  {
  }

  lemma DigitsShut(s: string)
    ensures IsDigits(s) ==> s != "("
  {
  }

  lemma OperandShut(num: NumberParser, c: Cst)
    requires WellFormed(num, c) && !c.CUnary? && !c.CBinary?
    ensures Shut(Print(c))
  {
    hide Precedence, IsOperator, IsPrefix, IsDigits, WellFormedAll;
    match c
    case CCall(_, args) => ArgsShut(args);
    case CMember(_, name, called, args) => ArgsShut(args);
    case CNumber(digits) => assert IsDigits(digits) && digits != "(" by { DigitsShut(digits); }
    case _ =>
  }

  lemma {:induction false} ArgsShut(args: seq<Cst>)
    ensures Shut(PrintArgs(args))
  {
    if |args| > 1 { ArgsShut(args[1..]); }
  }

  lemma {:induction false} StmtShut(num: NumberParser, s: CStmt, t: Token)
    requires Good(num, s, t)
    ensures Shut(PrintStmt(s))
    decreases s, 1
  {
    hide Print, WellFormed, Bare, DeclType, Keyword, Closes;
    match s
    case CDecl(_, _, init, _) => if init.Some? { ExprShut(num, init.value); }
    case CAssign(_, e, _) => ExprShut(num, e);
    case CEval(e, _) => ExprShut(num, e);
    case CIf(cond, then_, els) =>
      BlockShut(num, then_, Next(PrintElse(els), t));
      ElseShut(num, els, t);
      ShutBoth(PrintBlock(then_), PrintElse(els));
    case CForeach(_, _, body) => BlockShut(num, body, t);
    case CWhile(_, body) => BlockShut(num, body, t);
  }

  lemma {:induction false} ElseShut(num: NumberParser, e: CElse, t: Token)
    requires GoodElse(num, e, t)
    ensures Shut(PrintElse(e))
    decreases e, 1
  {
    match e
    case NoElse =>
    case Else(block) => BlockShut(num, block, t);
    case ElseIf(_, nested) => StmtShut(num, nested, t);
  }

  lemma {:induction false} BlockShut(num: NumberParser, b: CBlock, t: Token)
    requires GoodBlock(num, b, t)
    ensures Shut(PrintBlock(b))
    decreases b, 1
  {
    match b
    case Braced(items) =>
    case Single(item) => StmtShut(num, item.s, t);
    case Missing(skips) => SemisShut(skips);
  }

  lemma {:induction false} SemisShut(n: nat)
    ensures Shut(Semis(n))
  {
    if n > 0 { SemisShut(n - 1); }
  }

  lemma {:induction false} ItemsShut(num: NumberParser, items: seq<CItem>, t: Token)
    requires GoodItems(num, items, t)
    ensures Shut(PrintItems(items))
  {
    if items != [] {
      var i := items[0];
      StmtShut(num, i.s, Next(PrintItems(items[1..]), t));
      SemisShut(i.skips);
      ShutBoth(Semis(i.skips), PrintStmt(i.s));
      ItemsShut(num, items[1..], t);
      ShutBoth(PrintItem(i), PrintItems(items[1..]));
    }
  }

  lemma NotBoth(text: seq<Token>)
    ensures !(Shut(text) && CutOff(text))
  {
    assert |text| >= 2 ==> text[|text| - 1] == text[|text| - 2..][1];
  }

  lemma ScriptShut(num: NumberParser, s: CScript)
    requires GoodScript(num, s)
    ensures !CutOff(PrintScript(s))
  {
    ItemsShut(num, s.items, Next(Semis(s.skips), END));
    SemisShut(s.skips);
    ShutBoth(PrintItems(s.items), Semis(s.skips));
    NotBoth(PrintScript(s));
  }

  // ----- the theorems -----

  /** The parser looks past its last token if and only if the tokens are those of a cut script. */
  lemma PanicsExactly(num: NumberParser, ts: seq<Token>)
    requires Lexed(ts)
    ensures ParseScript(num, ts, 0).Panics? <==>
            exists s :: GoodCutScript(num, s) && PrintCutScript(s) + [END] == ts
  {
    hide Lexed, ParseScript, GoodCutScript, PrintCutScript;
    LastIsEnd(ts);
    assert ts[0..|ts| - 1] + [END] == ts;
    if ParseScript(num, ts, 0).Panics? {
      var s := ScriptCut(num, ts, 0);
      assert PrintCutScript(s) + [END] == ts;
    }
    if s :| GoodCutScript(num, s) && PrintCutScript(s) + [END] == ts {
      assert PrintCutScript(s) == ts[0..|ts| - 1];
      ScriptPanics(num, ts, 0, s);
    }
  }

  lemma Shortest(num: NumberParser)
    ensures GoodCutScript(num, CutScript([], CutItem(0, Here)))
    ensures PrintCutScript(CutScript([], CutItem(0, Here))) == FOREACH
  {
    assert PrintCutItem(CutItem(0, Here)) == [] + FOREACH == FOREACH;
  }

  /** A caller can tell: a script that does not end with `foreach (` is read within its tokens, and
      one that does is never accepted. The shortest of these makes the parser look past its end. */
  lemma PanicsWhenCutOff(num: NumberParser, ts: seq<Token>)
    requires Lexed(ts)
    ensures !CutOff(ts[..|ts| - 1]) ==> !ParseScript(num, ts, 0).Panics?
    ensures CutOff(ts[..|ts| - 1]) ==> !ParseScript(num, ts, 0).Done?
    ensures ts == FOREACH + [END] ==> ParseScript(num, ts, 0).Panics?
  {
    hide Lexed, ParseScript, GoodScript, PrintScript, CutOff, GoodCutItem, PrintCutItem;
    LastIsEnd(ts);
    var r := ParseScript(num, ts, 0);
    assert ts[0..|ts| - 1] == ts[..|ts| - 1];
    if r.Panics? {
      var s := ScriptCut(num, ts, 0);
      ItemEnds(num, s.last);
      CutLast(PrintItems(s.items), PrintCutItem(s.last));
    } else if r.Done? {
      ScriptSound(num, ts, 0);
      ScriptShut(num, r.value);
    }
    if ts == FOREACH + [END] {
      Shortest(num);
      PanicsExactly(num, ts);
    }
  }
}
