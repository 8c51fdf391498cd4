/** The statement parser as functions on positions, proved to read exactly the statement grammar. */
module RegaStatements {
  import opened Collections
  import opened RegaGrammar
  import opened RegaScript
  import opened RegaParser

  /** Panics: the parser looks past the last token. */
  datatype Outcome<+T> = Refused | Panics | Done(value: T, pos: nat)

  function Skip(ts: seq<Token>, pos: nat): (at: nat)
    requires Lexed(ts) && pos < |ts|
    ensures pos <= at < |ts| && !Is(ts[at], ";")
    decreases |ts| - pos
  {
    if Is(ts[pos], ";") then Skip(ts, pos + 1) else pos
  }

  /** Past the semicolon of a statement, if there is one. */
  function Past(ts: seq<Token>, pos: nat): (at: nat)
    requires Lexed(ts) && pos < |ts|
    ensures pos <= at < |ts|
  {
    if Is(ts[pos], ";") then pos + 1 else pos
  }

  /** An expression and the closing bracket after it. */
  function ParseClosed(num: NumberParser, ts: seq<Token>, pos: nat): (r: Outcome<Cst>)
    requires Lexed(ts) && pos < |ts|
    ensures r.Done? ==> pos < r.pos < |ts|
    ensures !r.Panics?
  {
    var e := Climb(num, ts, pos, 0);
    if e.Fail? || !Is(ts[e.pos], ")") then Refused else Done(e.value, e.pos + 1)
  }

  function ParseStmt(num: NumberParser, ts: seq<Token>, pos: nat): (r: Outcome<CStmt>)
    requires Lexed(ts) && pos < |ts|
    ensures r.Done? ==> pos < r.pos < |ts|
    decreases |ts| - pos, 2
  {
    var t := ts[pos];
    if t.kind == Word && DeclType(t.text) && ts[pos + 1].kind == Word then ParseDecl(num, ts, pos)
    else if t.kind == Word && t.text == "if" then ParseIf(num, ts, pos)
    else if t.kind == Word && t.text == "foreach" then ParseForeach(num, ts, pos)
    else if t.kind == Word && t.text == "while" then ParseWhile(num, ts, pos)
    else ParseSimple(num, ts, pos)
  }

  function ParseDecl(num: NumberParser, ts: seq<Token>, pos: nat): (r: Outcome<CStmt>)
    requires Lexed(ts) && pos + 1 < |ts| && ts[pos + 1].kind == Word
    ensures r.Done? ==> pos < r.pos < |ts|
    ensures !r.Panics?
  {
    if !Is(ts[pos + 2], "=") then
      Done(CDecl(ts[pos].text, ts[pos + 1].text, None, Is(ts[pos + 2], ";")), Past(ts, pos + 2))
    else
      var e := Climb(num, ts, pos + 3, 0);
      if e.Fail? then Refused
      else Done(CDecl(ts[pos].text, ts[pos + 1].text, Some(e.value), Is(ts[e.pos], ";")), Past(ts, e.pos))
  }

  function ParseSimple(num: NumberParser, ts: seq<Token>, pos: nat): (r: Outcome<CStmt>)
    requires Lexed(ts) && pos < |ts|
    ensures r.Done? ==> pos < r.pos < |ts|
    ensures !r.Panics?
  {
    if ts[pos].kind == Word && Is(ts[pos + 1], "=") then
      var e := Climb(num, ts, pos + 2, 0);
      if e.Fail? then Refused else Done(CAssign(ts[pos].text, e.value, Is(ts[e.pos], ";")), Past(ts, e.pos))
    else
      var e := Climb(num, ts, pos, 0);
      if e.Fail? then Refused else Done(CEval(e.value, Is(ts[e.pos], ";")), Past(ts, e.pos))
  }

  /** After its first word, which is if or elseif. */
  function ParseIf(num: NumberParser, ts: seq<Token>, pos: nat): (r: Outcome<CStmt>)
    requires Lexed(ts) && pos + 1 < |ts|
    ensures r.Done? ==> pos < r.pos < |ts| && r.value.CIf?
    decreases |ts| - pos, 1
  {
    if !Is(ts[pos + 1], "(") then Refused
    else
      var cond := ParseClosed(num, ts, pos + 2);
      if !cond.Done? then Refused
      else
        var then_ := ParseBlock(num, ts, cond.pos);
        if then_.Panics? then Panics
        else if then_.Refused? then Refused
        else
          var els := ParseElse(num, ts, then_.pos);
          if els.Panics? then Panics
          else if els.Refused? then Refused
          else Done(CIf(cond.value, then_.value, els.value), els.pos)
  }

  function ParseElse(num: NumberParser, ts: seq<Token>, pos: nat): (r: Outcome<CElse>)
    requires Lexed(ts) && pos < |ts|
    ensures r.Done? ==> pos <= r.pos < |ts|
    decreases |ts| - pos, 2
  {
    if Is(ts[pos], "elseif") then
      var nested := ParseIf(num, ts, pos);
      if nested.Panics? then Panics
      else if nested.Refused? then Refused
      else Done(ElseIf(true, nested.value), nested.pos)
    else if !Is(ts[pos], "else") then Done(NoElse, pos)
    else if Is(ts[pos + 1], "if") then
      var nested := ParseIf(num, ts, pos + 1);
      if nested.Panics? then Panics
      else if nested.Refused? then Refused
      else Done(ElseIf(false, nested.value), nested.pos)
    else
      var block := ParseBlock(num, ts, pos + 1);
      if block.Panics? then Panics else if block.Refused? then Refused else Done(Else(block.value), block.pos)
  }

  /** The variable is whatever token comes next; if that is the end marker, the comma is looked for
      past the end of the tokens. */
  function ParseForeach(num: NumberParser, ts: seq<Token>, pos: nat): (r: Outcome<CStmt>)
    requires Lexed(ts) && pos + 1 < |ts|
    ensures r.Done? ==> pos < r.pos < |ts|
    decreases |ts| - pos, 1
  {
    if !Is(ts[pos + 1], "(") then Refused
    else if pos + 3 == |ts| then Panics
    else if !Is(ts[pos + 3], ",") then Refused
    else
      var list := ParseClosed(num, ts, pos + 4);
      if !list.Done? then Refused
      else
        var body := ParseBlock(num, ts, list.pos);
        if body.Panics? then Panics
        else if body.Refused? then Refused
        else Done(CForeach(ts[pos + 2], list.value, body.value), body.pos)
  }

  function ParseWhile(num: NumberParser, ts: seq<Token>, pos: nat): (r: Outcome<CStmt>)
    requires Lexed(ts) && pos + 1 < |ts|
    ensures r.Done? ==> pos < r.pos < |ts|
    decreases |ts| - pos, 1
  {
    if !Is(ts[pos + 1], "(") then Refused
    else
      var cond := ParseClosed(num, ts, pos + 2);
      if !cond.Done? then Refused
      else
        var body := ParseBlock(num, ts, cond.pos);
        if body.Panics? then Panics
        else if body.Refused? then Refused
        else Done(CWhile(cond.value, body.value), body.pos)
  }

  /** A statement with the semicolons in front of it, or none at the end of the script. */
  function ParseItem(num: NumberParser, ts: seq<Token>, pos: nat): (r: Outcome<Option<CItem>>)
    requires Lexed(ts) && pos < |ts|
    ensures r.Done? ==> pos <= r.pos < |ts|
    ensures r.Done? && r.value.Some? ==> pos < r.pos
    decreases |ts| - pos, 3
  {
    var at := Skip(ts, pos);
    if ts[at].kind == EndOfFile then Done(None, at)
    else
      var s := ParseStmt(num, ts, at);
      if s.Panics? then Panics
      else if s.Refused? then Refused
      else Done(Some(CItem(at - pos, s.value)), s.pos)
  }

  function ParseBlock(num: NumberParser, ts: seq<Token>, pos: nat): (r: Outcome<CBlock>)
    requires Lexed(ts) && pos < |ts|
    ensures r.Done? ==> pos <= r.pos < |ts|
    decreases |ts| - pos, 4
  {
    if Is(ts[pos], "{") then
      var body := ParseBody(num, ts, pos + 1);
      if body.Panics? then Panics else if body.Refused? then Refused else Done(Braced(body.value), body.pos)
    else
      var item := ParseItem(num, ts, pos);
      if item.Panics? then Panics
      else if item.Refused? then Refused
      else Done(if item.value.Some? then Single(item.value.value) else Missing(item.pos - pos), item.pos)
  }

  /** The statements up to and with the closing brace. */
  function ParseBody(num: NumberParser, ts: seq<Token>, pos: nat): (r: Outcome<seq<CItem>>)
    requires Lexed(ts) && pos < |ts|
    ensures r.Done? ==> pos < r.pos < |ts|
    decreases |ts| - pos, 4
  {
    if Is(ts[pos], "}") then Done([], pos + 1)
    else
      var item := ParseItem(num, ts, pos);
      if item.Panics? then Panics
      else if item.Refused? || item.value.None? then Refused
      else
        var rest := ParseBody(num, ts, item.pos);
        if rest.Panics? then Panics
        else if rest.Refused? then Refused
        else Done([item.value.value] + rest.value, rest.pos)
  }

  function ParseScript(num: NumberParser, ts: seq<Token>, pos: nat): (r: Outcome<CScript>)
    requires Lexed(ts) && pos < |ts|
    ensures r.Done? ==> r.pos == |ts| - 1
    decreases |ts| - pos, 4
  {
    var item := ParseItem(num, ts, pos);
    if item.Panics? then Panics
    else if item.Refused? then Refused
    else if item.value.None? then Done(CScript([], item.pos - pos), item.pos)
    else
      var rest := ParseScript(num, ts, item.pos);
      if rest.Panics? then Panics
      else if rest.Refused? then Refused
      else Done(CScript([item.value.value] + rest.value.items, rest.value.skips), rest.pos)
  }

  // ----- what a token is, from what was seen of it -----

  lemma WordIs(ts: seq<Token>, pos: nat, text: string)
    requires Lexed(ts) && pos < |ts| && Is(ts[pos], text) && text in {"if", "else", "elseif"}
    ensures ts[pos] == Token(Word, text) && pos + 1 < |ts|
  {
    assert Lexeme(ts[pos]);
  }

  lemma EqualsIs(ts: seq<Token>, pos: nat)
    requires Lexed(ts) && pos < |ts| && Is(ts[pos], "=")
    ensures ts[pos] == Op("=") && pos + 1 < |ts|
  {
    assert Lexeme(ts[pos]);
  }

  lemma BraceMarks()
    ensures IsMark("{") && IsMark("}") && IsMark(";")
  {
  }

  lemma NextIs(ts: seq<Token>, a: nat, b: nat)
    requires a <= b < |ts|
    ensures Next(ts[a..b], ts[b]) == ts[a]
  {
  }

  lemma NextBefore(text: seq<Token>, t: Token, ts: seq<Token>, a: nat, b: nat)
    requires a <= b <= |ts| && text + [t] == ts[a..b]
    ensures Next(text, t) == ts[a]
  {
    assert (text + [t])[0] == ts[a..b][0];
  }

  lemma NextOfBoth(a: seq<Token>, b: seq<Token>, t: Token)
    ensures Next(a + b, t) == Next(a, Next(b, t))
  {
  }

  lemma LastIsEnd(ts: seq<Token>)
    requires Lexed(ts)
    ensures ts != [] && ts[|ts| - 1] == END
  {
  }

  lemma Joined(ts: seq<Token>, a: nat, b: nat, c: nat)
    requires a <= b <= c <= |ts|
    ensures ts[a..b] + ts[b..c] == ts[a..c]
  {
  }

  lemma {:induction false} SkipSound(ts: seq<Token>, pos: nat)
    requires Lexed(ts) && pos < |ts|
    ensures ts[pos..Skip(ts, pos)] == Semis(Skip(ts, pos) - pos)
    decreases |ts| - pos
  {
    if Is(ts[pos], ";") {
      BraceMarks();
      MarkAt(ts, pos, ";");
      SkipSound(ts, pos + 1);
      assert ts[pos..Skip(ts, pos)] == [ts[pos]] + ts[pos + 1..Skip(ts, pos)];
    }
  }

  lemma PastSound(num: NumberParser, ts: seq<Token>, pos: nat, e: Cst)
    requires Lexed(ts) && pos < |ts|
    ensures ts[pos..Past(ts, pos)] == Ending(Is(ts[pos], ";"))
    ensures Ends(e, ts[pos]) && !Extends(ts[pos], 0) ==> Closes(e, Is(ts[pos], ";"), ts[Past(ts, pos)])
  {
    if Is(ts[pos], ";") {
      BraceMarks();
      MarkAt(ts, pos, ";");
      assert ts[pos..pos + 1] == [ts[pos]];
    }
  }

  // ----- soundness: what is accepted is written as the grammar says -----

  lemma ClosedSound(num: NumberParser, ts: seq<Token>, pos: nat)
    requires Lexed(ts) && pos < |ts| && ParseClosed(num, ts, pos).Done?
    ensures var r := ParseClosed(num, ts, pos);
      WellFormed(num, r.value) && Print(r.value) + [Mark(")")] == ts[pos..r.pos]
  {
    hide Lexed, Climb, WellFormed, Print, Is;
    var e := Climb(num, ts, pos, 0);
    ClimbSound(num, ts, pos, 0);
    MarkIs();
    MarkAt(ts, e.pos, ")");
    assert ts[pos..e.pos + 1] == ts[pos..e.pos] + [ts[e.pos]];
  }

  lemma DeclSound(num: NumberParser, ts: seq<Token>, pos: nat)
    requires Lexed(ts) && pos + 1 < |ts| && ts[pos].kind == Word && DeclType(ts[pos].text) && ts[pos + 1].kind == Word
    requires ParseDecl(num, ts, pos).Done?
    ensures var r := ParseDecl(num, ts, pos); Good(num, r.value, ts[r.pos]) && PrintStmt(r.value) == ts[pos..r.pos]
  {
    hide Lexed, DeclType, Climb, WellFormed, Print, IsWord, Ends, Extends, Is;
    WordAt(ts, pos);
    WordAt(ts, pos + 1);
    var r := ParseDecl(num, ts, pos);
    assert ts[pos..pos + 2] == [ts[pos], ts[pos + 1]];
    if Is(ts[pos + 2], "=") {
      EqualsIs(ts, pos + 2);
      var e := Climb(num, ts, pos + 3, 0);
      ClimbSound(num, ts, pos + 3, 0);
      PastSound(num, ts, e.pos, e.value);
      assert ts[pos + 2..r.pos] == [ts[pos + 2]] + ts[pos + 3..e.pos] + ts[e.pos..r.pos];
    } else {
      PastSound(num, ts, pos + 2, CString(""));
      assert [] + Ending(Is(ts[pos + 2], ";")) == ts[pos + 2..r.pos];
    }
    Joined(ts, pos, pos + 2, r.pos);
  }

  lemma SimpleSound(num: NumberParser, ts: seq<Token>, pos: nat)
    requires Lexed(ts) && pos < |ts| && ParseSimple(num, ts, pos).Done?
    requires ts[pos].kind == Word ==> !Keyword(ts[pos].text) && !(DeclType(ts[pos].text) && ts[pos + 1].kind == Word)
    ensures var r := ParseSimple(num, ts, pos); Good(num, r.value, ts[r.pos]) && PrintStmt(r.value) == ts[pos..r.pos]
  {
    hide Lexed, DeclType, Keyword, Climb, WellFormed, Print, IsWord, Ends, Extends, Is;
    var r := ParseSimple(num, ts, pos);
    if ts[pos].kind == Word && Is(ts[pos + 1], "=") {
      WordAt(ts, pos);
      EqualsIs(ts, pos + 1);
      var e := Climb(num, ts, pos + 2, 0);
      ClimbSound(num, ts, pos + 2, 0);
      PastSound(num, ts, e.pos, e.value);
      assert ts[pos..pos + 2] == [ts[pos], ts[pos + 1]];
      Joined(ts, pos + 2, e.pos, r.pos);
      Joined(ts, pos, pos + 2, r.pos);
    } else {
      var e := Climb(num, ts, pos, 0);
      ClimbSound(num, ts, pos, 0);
      PastSound(num, ts, e.pos, e.value);
      Joined(ts, pos, e.pos, r.pos);
      Joined(ts, pos + 1, e.pos, r.pos);
      NextIs(ts, pos + 1, r.pos);
      assert ts[pos..e.pos][1..] == ts[pos + 1..e.pos];
    }
  }

  lemma {:induction false} StmtSound(num: NumberParser, ts: seq<Token>, pos: nat)
    requires Lexed(ts) && pos < |ts| && ParseStmt(num, ts, pos).Done?
    ensures var r := ParseStmt(num, ts, pos); Good(num, r.value, ts[r.pos]) && PrintStmt(r.value) == ts[pos..r.pos]
    decreases |ts| - pos, 2
  {
    hide Lexed, DeclType, Good, PrintStmt, ParseDecl, ParseIf, ParseForeach, ParseWhile, ParseSimple;
    var t := ts[pos];
    if t.kind == Word { WordAt(ts, pos); }
    if t.kind == Word && DeclType(t.text) && ts[pos + 1].kind == Word {
      DeclSound(num, ts, pos);
    } else if t.kind == Word && t.text == "if" {
      IfSound(num, ts, pos);
      IfText(num, ts, pos, ParseIf(num, ts, pos));
    } else if t.kind == Word && t.text == "foreach" {
      ForeachSound(num, ts, pos);
    } else if t.kind == Word && t.text == "while" {
      WhileSound(num, ts, pos);
    } else {
      SimpleSound(num, ts, pos);
    }
  }

  /** An if with its own word in front. */
  lemma IfText(num: NumberParser, ts: seq<Token>, pos: nat, r: Outcome<CStmt>)
    requires r.Done? && r.value.CIf? && pos < r.pos <= |ts| && ts[pos] == Token(Word, "if")
    requires PrintStmt(r.value)[1..] == ts[pos + 1..r.pos]
    ensures PrintStmt(r.value) == ts[pos..r.pos]
  {
    assert PrintStmt(r.value) == [PrintStmt(r.value)[0]] + PrintStmt(r.value)[1..];
    assert ts[pos..r.pos] == [ts[pos]] + ts[pos + 1..r.pos];
  }

  lemma {:induction false} IfSound(num: NumberParser, ts: seq<Token>, pos: nat)
    requires Lexed(ts) && pos + 1 < |ts| && ParseIf(num, ts, pos).Done?
    ensures var r := ParseIf(num, ts, pos);
      Good(num, r.value, ts[r.pos]) && PrintStmt(r.value)[1..] == ts[pos + 1..r.pos]
    decreases |ts| - pos, 1
  {
    hide Lexed, WellFormed, Print, ParseClosed, ParseBlock, ParseElse, PrintBlock, PrintElse, GoodBlock, GoodElse, Is;
    MarkIs();
    MarkAt(ts, pos + 1, "(");
    var cond := ParseClosed(num, ts, pos + 2);
    ClosedSound(num, ts, pos + 2);
    var then_ := ParseBlock(num, ts, cond.pos);
    BlockSound(num, ts, cond.pos);
    var els := ParseElse(num, ts, then_.pos);
    ElseSound(num, ts, then_.pos);
    NextIs(ts, then_.pos, els.pos);
    Joined(ts, cond.pos, then_.pos, els.pos);
    HeadThen(ts, pos, cond.pos, els.pos, "if", cond.value, ts[cond.pos..els.pos]);
  }

  lemma HeadThen(ts: seq<Token>, pos: nat, mid: nat, end: nat, word: string, e: Cst, rest: seq<Token>)
    requires pos + 1 < mid <= end <= |ts| && ts[pos + 1] == Mark("(")
    requires Print(e) + [Mark(")")] == ts[pos + 2..mid] && rest == ts[mid..end]
    ensures (Head(word, e) + rest)[1..] == ts[pos + 1..end]
    ensures ts[pos] == Token(Word, word) ==> Head(word, e) + rest == ts[pos..end]
  {
    assert Head(word, e) == [Token(Word, word), ts[pos + 1]] + ts[pos + 2..mid];
  }

  lemma {:induction false} WhileSound(num: NumberParser, ts: seq<Token>, pos: nat)
    requires Lexed(ts) && pos + 1 < |ts| && ts[pos] == Token(Word, "while") && ParseWhile(num, ts, pos).Done?
    ensures var r := ParseWhile(num, ts, pos); Good(num, r.value, ts[r.pos]) && PrintStmt(r.value) == ts[pos..r.pos]
    decreases |ts| - pos, 1
  {
    hide Lexed, WellFormed, Print, ParseClosed, ParseBlock, PrintBlock, GoodBlock, Is;
    MarkIs();
    MarkAt(ts, pos + 1, "(");
    var cond := ParseClosed(num, ts, pos + 2);
    ClosedSound(num, ts, pos + 2);
    var body := ParseBlock(num, ts, cond.pos);
    BlockSound(num, ts, cond.pos);
    HeadThen(ts, pos, cond.pos, body.pos, "while", cond.value, ts[cond.pos..body.pos]);
  }

  lemma {:induction false} ForeachSound(num: NumberParser, ts: seq<Token>, pos: nat)
    requires Lexed(ts) && pos + 1 < |ts| && ts[pos] == Token(Word, "foreach") && ParseForeach(num, ts, pos).Done?
    ensures var r := ParseForeach(num, ts, pos); Good(num, r.value, ts[r.pos]) && PrintStmt(r.value) == ts[pos..r.pos]
    decreases |ts| - pos, 1
  {
    hide WellFormed, Print, ParseClosed, ParseBlock, PrintBlock, GoodBlock, Is, Lexeme;
    MarkIs();
    MarkAt(ts, pos + 1, "(");
    MarkAt(ts, pos + 3, ",");
    var list := ParseClosed(num, ts, pos + 4);
    ClosedSound(num, ts, pos + 4);
    var body := ParseBlock(num, ts, list.pos);
    BlockSound(num, ts, list.pos);
    Joined(ts, pos + 4, list.pos, body.pos);
    assert ts[pos..pos + 4] == [ts[pos], ts[pos + 1], ts[pos + 2], ts[pos + 3]];
    Joined(ts, pos, pos + 4, body.pos);
  }

  lemma {:induction false} ElseSound(num: NumberParser, ts: seq<Token>, pos: nat)
    requires Lexed(ts) && pos < |ts| && ParseElse(num, ts, pos).Done?
    ensures var r := ParseElse(num, ts, pos); GoodElse(num, r.value, ts[r.pos]) && PrintElse(r.value) == ts[pos..r.pos]
    decreases |ts| - pos, 2
  {
    hide Lexed, ParseIf, ParseBlock, PrintBlock, PrintStmt, GoodBlock, Good, Is;
    if Is(ts[pos], "elseif") {
      WordIs(ts, pos, "elseif");
      IfSound(num, ts, pos);
      var nested := ParseIf(num, ts, pos);
      assert ts[pos..nested.pos] == [ts[pos]] + ts[pos + 1..nested.pos];
    } else if Is(ts[pos], "else") {
      WordIs(ts, pos, "else");
      if Is(ts[pos + 1], "if") {
        WordIs(ts, pos + 1, "if");
        IfSound(num, ts, pos + 1);
        var nested := ParseIf(num, ts, pos + 1);
        IfText(num, ts, pos + 1, nested);
        assert ts[pos..nested.pos] == [ts[pos]] + ts[pos + 1..nested.pos];
      } else {
        BlockSound(num, ts, pos + 1);
        var block := ParseBlock(num, ts, pos + 1);
        NextIs(ts, pos + 1, block.pos);
        assert ts[pos..block.pos] == [ts[pos]] + ts[pos + 1..block.pos];
      }
    }
  }

  lemma {:induction false} ItemSound(num: NumberParser, ts: seq<Token>, pos: nat)
    requires Lexed(ts) && pos < |ts| && ParseItem(num, ts, pos).Done?
    ensures var r := ParseItem(num, ts, pos);
      if r.value.None? then ts[pos..r.pos] == Semis(r.pos - pos) && ts[r.pos].kind == EndOfFile
      else GoodItem(num, r.value.value, ts[r.pos]) && PrintItem(r.value.value) == ts[pos..r.pos]
    decreases |ts| - pos, 3
  {
    hide Lexed, ParseStmt, PrintStmt, Good;
    var at := Skip(ts, pos);
    SkipSound(ts, pos);
    if ts[at].kind != EndOfFile {
      StmtSound(num, ts, at);
      Joined(ts, pos, at, ParseStmt(num, ts, at).pos);
    }
  }

  lemma {:induction false} BlockSound(num: NumberParser, ts: seq<Token>, pos: nat)
    requires Lexed(ts) && pos < |ts| && ParseBlock(num, ts, pos).Done?
    ensures var r := ParseBlock(num, ts, pos);
      GoodBlock(num, r.value, ts[r.pos]) && PrintBlock(r.value) == ts[pos..r.pos]
    decreases |ts| - pos, 4
  {
    hide Lexed, ParseItem, ParseBody, PrintItem, PrintItems, GoodItem, GoodItems;
    if Is(ts[pos], "{") {
      BraceMarks();
      MarkAt(ts, pos, "{");
      BodySound(num, ts, pos + 1);
      var body := ParseBody(num, ts, pos + 1);
      assert ts[pos..body.pos] == [ts[pos]] + ts[pos + 1..body.pos];
    } else {
      ItemSound(num, ts, pos);
    }
  }

  lemma {:induction false} BodySound(num: NumberParser, ts: seq<Token>, pos: nat)
    requires Lexed(ts) && pos < |ts| && ParseBody(num, ts, pos).Done?
    ensures var r := ParseBody(num, ts, pos);
      GoodItems(num, r.value, Mark("}")) && PrintItems(r.value) + [Mark("}")] == ts[pos..r.pos]
    decreases |ts| - pos, 4
  {
    hide Lexed, ParseItem, PrintItem, GoodItem;
    if Is(ts[pos], "}") {
      BraceMarks();
      MarkAt(ts, pos, "}");
      assert ts[pos..pos + 1] == [ts[pos]];
    } else {
      ItemSound(num, ts, pos);
      var item := ParseItem(num, ts, pos);
      BodySound(num, ts, item.pos);
      var rest := ParseBody(num, ts, item.pos);
      NextBefore(PrintItems(rest.value), Mark("}"), ts, item.pos, rest.pos);
      assert ([item.value.value] + rest.value)[1..] == rest.value;
      Joined(ts, pos, item.pos, rest.pos);
    }
  }

  lemma ScriptGrows(num: NumberParser, i: CItem, rest: CScript)
    requires GoodScript(num, rest) && GoodItem(num, i, Next(PrintScript(rest), END))
    ensures var s := CScript([i] + rest.items, rest.skips);
      GoodScript(num, s) && PrintScript(s) == PrintItem(i) + PrintScript(rest)
  {
    hide GoodItem, PrintItem;
    assert ([i] + rest.items)[1..] == rest.items;
    NextOfBoth(PrintItems(rest.items), Semis(rest.skips), END);
    Regroup(PrintItem(i), PrintItems(rest.items), Semis(rest.skips));
  }

  lemma OnlySemis(num: NumberParser, n: nat)
    ensures GoodScript(num, CScript([], n)) && PrintScript(CScript([], n)) == Semis(n)
  {
    assert [] + Semis(n) == Semis(n);
  }

  lemma {:induction false} ScriptSound(num: NumberParser, ts: seq<Token>, pos: nat)
    requires Lexed(ts) && pos < |ts| && ParseScript(num, ts, pos).Done?
    ensures var r := ParseScript(num, ts, pos);
      GoodScript(num, r.value) && PrintScript(r.value) == ts[pos..|ts| - 1]
    decreases |ts| - pos, 4
  {
    hide Lexed, ParseItem, PrintItem, GoodItem, GoodScript, PrintScript, Semis;
    LastIsEnd(ts);
    ItemSound(num, ts, pos);
    var item := ParseItem(num, ts, pos);
    if item.value.Some? {
      ScriptSound(num, ts, item.pos);
      var rest := ParseScript(num, ts, item.pos);
      Joined(ts, pos, item.pos, |ts| - 1);
      NextIs(ts, item.pos, |ts| - 1);
      ScriptGrows(num, item.value.value, rest.value);
    } else {
      OnlySemis(num, item.pos - pos);
    }
  }

  // ----- completeness: whatever the grammar writes is read back -----

  lemma OccursNext(ts: seq<Token>, pos: nat, part: seq<Token>)
    requires Occurs(ts, pos, part) && pos + |part| < |ts|
    ensures Next(part, ts[pos + |part|]) == ts[pos]
  {
    if part != [] { OccursFirst(ts, pos, part); }
  }

  lemma OccursAfter(ts: seq<Token>, pos: nat, part: seq<Token>)
    requires Occurs(ts, pos, part) && part != []
    ensures Occurs(ts, pos + 1, part[1..])
  {
    assert part == [part[0]] + part[1..];
    OccursSplit(ts, pos, [part[0]], part[1..]);
  }

  lemma {:induction false} SkipComplete(ts: seq<Token>, pos: nat, n: nat)
    requires Lexed(ts) && Occurs(ts, pos, Semis(n)) && pos + n < |ts| && !Is(ts[pos + n], ";")
    ensures Skip(ts, pos) == pos + n
    decreases n
  {
    hide Lexed, Occurs;
    if n > 0 {
      OccursFirst(ts, pos, Semis(n));
      OccursAfter(ts, pos, Semis(n));
      SkipComplete(ts, pos + 1, n - 1);
    }
  }

  lemma PastComplete(ts: seq<Token>, pos: nat, semi: bool)
    requires Lexed(ts) && Occurs(ts, pos, Ending(semi)) && pos + |Ending(semi)| < |ts|
    requires semi || !Is(ts[pos], ";")
    ensures Is(ts[pos], ";") == semi && Past(ts, pos) == pos + |Ending(semi)|
  {
    if semi { OccursFirst(ts, pos, Ending(semi)); }
  }

  /** An expression that ends a statement, with or without its semicolon. */
  lemma EndingComplete(num: NumberParser, ts: seq<Token>, pos: nat, e: Cst, semi: bool)
    requires Lexed(ts) && WellFormed(num, e) && Occurs(ts, pos, Print(e) + Ending(semi))
    requires pos + |Print(e) + Ending(semi)| < |ts|
    requires Closes(e, semi, ts[pos + |Print(e) + Ending(semi)|])
    ensures var end := pos + |Print(e)|;
      Climb(num, ts, pos, 0) == Ok(e, end) && Is(ts[end], ";") == semi && Past(ts, end) == end + |Ending(semi)|
  {
    hide Lexed, WellFormed, Print, Occurs, Climb, Past, Is;
    OccursSplit(ts, pos, Print(e), Ending(semi));
    var end := pos + |Print(e)|;
    if semi {
      OccursFirst(ts, end, Ending(semi));
      SemiEnds(e);
    }
    PastComplete(ts, end, semi);
    ClimbComplete(num, ts, pos, e, 0);
  }

  lemma SemiEnds(e: Cst)
    ensures Ends(e, Mark(";")) && !Extends(Mark(";"), 0) && Is(Mark(";"), ";")
  {
  }

  lemma ClosedComplete(num: NumberParser, ts: seq<Token>, pos: nat, e: Cst)
    requires Lexed(ts) && WellFormed(num, e) && Occurs(ts, pos, Print(e) + [Mark(")")])
    requires pos + |Print(e)| + 1 < |ts|
    ensures ParseClosed(num, ts, pos) == Done(e, pos + |Print(e)| + 1)
  {
    hide Lexed, WellFormed, Print, Occurs, Climb, Ends, Extends, Is;
    OccursSplit(ts, pos, Print(e), [Mark(")")]);
    OccursFirst(ts, pos + |Print(e)|, [Mark(")")]);
    MarkEnds(")");
    ClimbComplete(num, ts, pos, e, 0);
  }

  /** The first token of an expression: no mark but an opening bracket. */
  lemma {:induction false} ExprOpens(num: NumberParser, c: Cst)
    requires WellFormed(num, c)
    ensures var t := Print(c)[0];
      t.kind != EndOfFile && !Is(t, ";") && !Is(t, "{") && !Is(t, "}") && !Is(t, "=") && !Is(t, ",")
    decreases c
  {
    hide Precedence, IsOperator, WellFormedAll;
    match c
    case CBinary(_, l, _) => ExprOpens(num, l);
    case CMember(x, _, _, _) => ExprOpens(num, x);
    case _ =>
  }

  lemma StmtOpens(num: NumberParser, s: CStmt, t: Token)
    requires Good(num, s, t)
    ensures var f := PrintStmt(s)[0]; f.kind != EndOfFile && !Is(f, ";") && !Is(f, "{") && !Is(f, "}")
  {
    hide GoodBlock, GoodElse, PrintBlock, PrintElse, WellFormed, Print;
    match s
    case CEval(e, _) => ExprOpens(num, e);
    case CDecl(_, _, _, _) =>
    case _ =>
  }

  lemma DeclOccurs(ts: seq<Token>, pos: nat, s: CStmt)
    requires s.CDecl? && Occurs(ts, pos, PrintStmt(s))
    ensures pos + 1 < |ts| && ts[pos] == Token(Word, s.typeName) && ts[pos + 1] == Token(Word, s.name)
    ensures s.init.None? ==> Occurs(ts, pos + 2, Ending(s.semi)) && |PrintStmt(s)| == 2 + |Ending(s.semi)|
    ensures s.init.Some? ==> Occurs(ts, pos + 2, [Op("=")] + (Print(s.init.value) + Ending(s.semi)))
    ensures s.init.Some? ==> |PrintStmt(s)| == 3 + |Print(s.init.value)| + |Ending(s.semi)|
  {
    hide PrintStmt, Print, Occurs, Ending;
    PrintDecl(s);
    var rest := if s.init.Some? then [Op("=")] + (Print(s.init.value) + Ending(s.semi)) else Ending(s.semi);
    TwoOccur(ts, pos, Token(Word, s.typeName), Token(Word, s.name), rest);
  }

  lemma PrintDecl(s: CStmt)
    requires s.CDecl?
    ensures PrintStmt(s) == [Token(Word, s.typeName), Token(Word, s.name)]
         + (if s.init.Some? then [Op("=")] + (Print(s.init.value) + Ending(s.semi)) else Ending(s.semi))
  {
    hide Print, Ending;
    if s.init.Some? {
      Regroup([Op("=")], Print(s.init.value), Ending(s.semi));
    } else {
      assert [] + Ending(s.semi) == Ending(s.semi);
    }
  }

  lemma DeclComplete(num: NumberParser, ts: seq<Token>, pos: nat, s: CStmt)
    requires Lexed(ts) && s.CDecl? && Occurs(ts, pos, PrintStmt(s)) && pos + |PrintStmt(s)| < |ts|
    requires Good(num, s, ts[pos + |PrintStmt(s)|])
    ensures pos + 1 < |ts| && ts[pos] == Token(Word, s.typeName) && ts[pos + 1] == Token(Word, s.name)
    ensures ParseDecl(num, ts, pos) == Done(s, pos + |PrintStmt(s)|)
  {
    hide Lexed, WellFormed, PrintStmt, Print, Occurs, Climb, Past, DeclType, IsWord, Closes;
    DeclOccurs(ts, pos, s);
    if s.init.Some? {
      OccursSplit(ts, pos + 2, [Op("=")], Print(s.init.value) + Ending(s.semi));
      OccursFirst(ts, pos + 2, [Op("=")]);
      EndingComplete(num, ts, pos + 3, s.init.value, s.semi);
    } else {
      if s.semi { OccursFirst(ts, pos + 2, Ending(s.semi)); }
      PastComplete(ts, pos + 2, s.semi);
    }
  }

  lemma AssignComplete(num: NumberParser, ts: seq<Token>, pos: nat, s: CStmt)
    requires Lexed(ts) && s.CAssign? && Occurs(ts, pos, PrintStmt(s)) && pos + |PrintStmt(s)| < |ts|
    requires Good(num, s, ts[pos + |PrintStmt(s)|])
    ensures ts[pos] == Token(Word, s.name) && pos + 1 < |ts| && ts[pos + 1] == Op("=")
    ensures ParseSimple(num, ts, pos) == Done(s, pos + |PrintStmt(s)|)
  {
    hide Lexed, WellFormed, Print, Occurs, Climb, Past, IsWord;
    TwoOccur(ts, pos, Token(Word, s.name), Op("="), Print(s.value) + Ending(s.semi));
    EndingComplete(num, ts, pos + 2, s.value, s.semi);
  }

  lemma EvalComplete(num: NumberParser, ts: seq<Token>, pos: nat, s: CStmt)
    requires Lexed(ts) && s.CEval? && Occurs(ts, pos, PrintStmt(s)) && pos + |PrintStmt(s)| < |ts|
    requires Good(num, s, ts[pos + |PrintStmt(s)|])
    ensures ts[pos].kind == Word ==> pos + 1 < |ts| && Bare(ts[pos], ts[pos + 1])
    ensures ParseSimple(num, ts, pos) == Done(s, pos + |PrintStmt(s)|)
  {
    hide Lexed, WellFormed, Print, Occurs, Climb, Past, Is, DeclType, Keyword;
    OccursFirst(ts, pos, PrintStmt(s));
    OccursAfter(ts, pos, PrintStmt(s));
    assert PrintStmt(s)[1..] == Print(s.value)[1..] + Ending(s.semi);
    OccursNext(ts, pos + 1, PrintStmt(s)[1..]);
    EndingComplete(num, ts, pos, s.value, s.semi);
  }

  lemma {:induction false} StmtComplete(num: NumberParser, ts: seq<Token>, pos: nat, s: CStmt)
    requires Lexed(ts) && Occurs(ts, pos, PrintStmt(s)) && pos + |PrintStmt(s)| < |ts|
    requires Good(num, s, ts[pos + |PrintStmt(s)|])
    ensures ParseStmt(num, ts, pos) == Done(s, pos + |PrintStmt(s)|)
    decreases s, 1
  {
    hide Lexed, WellFormed, Occurs, ParseDecl, ParseSimple, ParseIf, ParseForeach, ParseWhile;
    match s
    case CDecl(_, _, _, _) => DeclComplete(num, ts, pos, s);
    case CAssign(_, _, _) => AssignComplete(num, ts, pos, s);
    case CEval(_, _) => EvalComplete(num, ts, pos, s);
    case CIf(_, _, _) =>
      OccursFirst(ts, pos, PrintStmt(s));
      OccursAfter(ts, pos, PrintStmt(s));
      IfComplete(num, ts, pos, s);
    case CForeach(_, _, _) =>
      OccursFirst(ts, pos, PrintStmt(s));
      ForeachComplete(num, ts, pos, s);
    case CWhile(_, _) =>
      OccursFirst(ts, pos, PrintStmt(s));
      WhileComplete(num, ts, pos, s);
  }

  /** A head after its first word, and what comes after it. */
  lemma HeadOccurs(ts: seq<Token>, pos: nat, word: string, e: Cst, rest: seq<Token>)
    requires Occurs(ts, pos + 1, (Head(word, e) + rest)[1..])
    ensures var at := pos + 2 + |Print(e)| + 1;
      && pos + 1 < |ts| && ts[pos + 1] == Mark("(") && Occurs(ts, pos + 2, Print(e) + [Mark(")")])
      && Occurs(ts, at, rest) && |Head(word, e) + rest| == at - pos + |rest|
  {
    hide Occurs, Print;
    var inner := Print(e) + [Mark(")")];
    assert (Head(word, e) + rest)[1..] == [Mark("(")] + (inner + rest);
    OccursSplit(ts, pos + 1, [Mark("(")], inner + rest);
    OccursFirst(ts, pos + 1, [Mark("(")] + (inner + rest));
    OccursFits(ts, pos + 1, [Mark("(")] + (inner + rest));
    OccursSplit(ts, pos + 2, inner, rest);
  }

  lemma {:induction false} IfComplete(num: NumberParser, ts: seq<Token>, pos: nat, s: CStmt)
    requires Lexed(ts) && s.CIf? && Occurs(ts, pos + 1, PrintStmt(s)[1..]) && pos + |PrintStmt(s)| < |ts|
    requires Good(num, s, ts[pos + |PrintStmt(s)|])
    ensures ParseIf(num, ts, pos) == Done(s, pos + |PrintStmt(s)|)
    decreases s, 0
  {
    hide Lexed, WellFormed, Occurs, Print, PrintBlock, PrintElse, GoodBlock, GoodElse, ParseClosed, ParseBlock,
        ParseElse, Head;
    var rest := PrintBlock(s.then_) + PrintElse(s.els);
    HeadOccurs(ts, pos, "if", s.cond, rest);
    var at := pos + 2 + |Print(s.cond)| + 1;
    var mid := at + |PrintBlock(s.then_)|;
    OccursSplit(ts, at, PrintBlock(s.then_), PrintElse(s.els));
    OccursNext(ts, mid, PrintElse(s.els));
    ClosedComplete(num, ts, pos + 2, s.cond);
    BlockComplete(num, ts, at, s.then_);
    ElseComplete(num, ts, mid, s.els);
  }

  lemma {:induction false} WhileComplete(num: NumberParser, ts: seq<Token>, pos: nat, s: CStmt)
    requires Lexed(ts) && s.CWhile? && Occurs(ts, pos, PrintStmt(s)) && pos + |PrintStmt(s)| < |ts|
    requires Good(num, s, ts[pos + |PrintStmt(s)|])
    ensures ParseWhile(num, ts, pos) == Done(s, pos + |PrintStmt(s)|)
    decreases s, 0
  {
    hide Lexed, WellFormed, Occurs, Print, PrintBlock, GoodBlock, ParseClosed, ParseBlock, Head;
    OccursAfter(ts, pos, PrintStmt(s));
    HeadOccurs(ts, pos, "while", s.cond, PrintBlock(s.body));
    ClosedComplete(num, ts, pos + 2, s.cond);
    BlockComplete(num, ts, pos + 2 + |Print(s.cond)| + 1, s.body);
  }

  lemma ForeachOccurs(ts: seq<Token>, pos: nat, s: CStmt)
    requires s.CForeach? && Occurs(ts, pos, PrintStmt(s))
    ensures var at := pos + 4 + |Print(s.list)| + 1;
      && pos + 3 < |ts| && ts[pos + 1] == Mark("(") && ts[pos + 2] == s.variable && ts[pos + 3] == Mark(",")
      && Occurs(ts, pos + 4, Print(s.list) + [Mark(")")]) && Occurs(ts, at, PrintBlock(s.body))
      && |PrintStmt(s)| == at - pos + |PrintBlock(s.body)|
  {
    hide Occurs, Print, PrintBlock;
    var inner := Print(s.list) + [Mark(")")];
    var rest := inner + PrintBlock(s.body);
    var front := [Token(Word, "foreach"), Mark("(")];
    assert PrintStmt(s) == front + ([s.variable, Mark(",")] + rest);
    TwoOccur(ts, pos, front[0], front[1], [s.variable, Mark(",")] + rest);
    TwoOccur(ts, pos + 2, s.variable, Mark(","), rest);
    OccursSplit(ts, pos + 4, inner, PrintBlock(s.body));
    OccursFits(ts, pos + 4, rest);
  }

  lemma {:induction false} ForeachComplete(num: NumberParser, ts: seq<Token>, pos: nat, s: CStmt)
    requires Lexed(ts) && s.CForeach? && Occurs(ts, pos, PrintStmt(s)) && pos + |PrintStmt(s)| < |ts|
    requires Good(num, s, ts[pos + |PrintStmt(s)|])
    ensures ParseForeach(num, ts, pos) == Done(s, pos + |PrintStmt(s)|)
    decreases s, 0
  {
    hide Lexed, WellFormed, Occurs, Print, PrintBlock, PrintStmt, GoodBlock, ParseClosed, ParseBlock, Lexeme;
    ForeachOccurs(ts, pos, s);
    ClosedComplete(num, ts, pos + 4, s.list);
    BlockComplete(num, ts, pos + 4 + |Print(s.list)| + 1, s.body);
  }

  lemma {:induction false} ElseComplete(num: NumberParser, ts: seq<Token>, pos: nat, e: CElse)
    requires Lexed(ts) && Occurs(ts, pos, PrintElse(e)) && pos + |PrintElse(e)| < |ts|
    requires GoodElse(num, e, ts[pos + |PrintElse(e)|])
    ensures ParseElse(num, ts, pos) == Done(e, pos + |PrintElse(e)|)
    decreases e, 1
  {
    hide Lexed, Occurs, PrintBlock, PrintStmt, GoodBlock, Good, ParseIf, ParseBlock;
    if e != NoElse {
      OccursFirst(ts, pos, PrintElse(e));
      OccursAfter(ts, pos, PrintElse(e));
    }
    match e
    case NoElse =>
    case Else(block) =>
      assert PrintElse(e)[1..] == PrintBlock(block);
      OccursNext(ts, pos + 1, PrintBlock(block));
      BlockComplete(num, ts, pos + 1, block);
    case ElseIf(joined, nested) =>
      if joined {
        assert PrintElse(e)[1..] == PrintStmt(nested)[1..];
        IfComplete(num, ts, pos, nested);
      } else {
        assert PrintElse(e)[1..] == PrintStmt(nested);
        OccursFirst(ts, pos + 1, PrintStmt(nested));
        OccursAfter(ts, pos + 1, PrintStmt(nested));
        IfWord(nested);
        IfComplete(num, ts, pos + 1, nested);
      }
  }

  lemma IfWord(s: CStmt)
    requires s.CIf?
    ensures PrintStmt(s)[0] == Token(Word, "if") && Is(PrintStmt(s)[0], "if")
  {
  }

  lemma {:induction false} ItemComplete(num: NumberParser, ts: seq<Token>, pos: nat, i: CItem)
    requires Lexed(ts) && Occurs(ts, pos, PrintItem(i)) && pos + |PrintItem(i)| < |ts|
    requires GoodItem(num, i, ts[pos + |PrintItem(i)|])
    ensures ParseItem(num, ts, pos) == Done(Some(i), pos + |PrintItem(i)|)
    ensures !Is(ts[pos], "{") && !Is(ts[pos], "}")
    decreases i, 1
  {
    hide Lexed, Occurs, PrintStmt, Good, ParseStmt;
    OccursSplit(ts, pos, Semis(i.skips), PrintStmt(i.s));
    StmtOpens(num, i.s, ts[pos + |PrintItem(i)|]);
    OccursFirst(ts, pos + i.skips, PrintStmt(i.s));
    OccursFirst(ts, pos, PrintItem(i));
    SkipComplete(ts, pos, i.skips);
    StmtComplete(num, ts, pos + i.skips, i.s);
  }

  lemma {:induction false} BlockComplete(num: NumberParser, ts: seq<Token>, pos: nat, b: CBlock)
    requires Lexed(ts) && Occurs(ts, pos, PrintBlock(b)) && pos + |PrintBlock(b)| < |ts|
    requires GoodBlock(num, b, ts[pos + |PrintBlock(b)|])
    ensures ParseBlock(num, ts, pos) == Done(b, pos + |PrintBlock(b)|)
    decreases b, 1
  {
    hide Occurs, PrintItem, PrintItems, GoodItem, GoodItems, ParseItem, ParseBody, Lexed, Skip;
    match b
    case Braced(items) =>
      OccursFirst(ts, pos, PrintBlock(b));
      OccursSplit(ts, pos, [Mark("{")], PrintItems(items) + [Mark("}")]);
      BodyComplete(num, ts, pos + 1, items);
    case Single(item) => ItemComplete(num, ts, pos, item);
    case Missing(skips) => MissingComplete(num, ts, pos, skips);
  }

  lemma MissingComplete(num: NumberParser, ts: seq<Token>, pos: nat, skips: nat)
    requires Lexed(ts) && Occurs(ts, pos, Semis(skips)) && pos + skips < |ts| && ts[pos + skips].kind == EndOfFile
    ensures !Is(ts[pos], "{") && ParseItem(num, ts, pos) == Done(None, pos + skips)
  {
    if skips > 0 { OccursFirst(ts, pos, Semis(skips)); }
    assert ts[pos + skips] == END;
    SkipComplete(ts, pos, skips);
  }

  lemma {:induction false} BodyComplete(num: NumberParser, ts: seq<Token>, pos: nat, items: seq<CItem>)
    requires Lexed(ts) && Occurs(ts, pos, PrintItems(items) + [Mark("}")]) && pos + |PrintItems(items)| + 1 < |ts|
    requires GoodItems(num, items, Mark("}"))
    ensures ParseBody(num, ts, pos) == Done(items, pos + |PrintItems(items)| + 1)
    decreases items, 0
  {
    hide Lexed, Occurs, PrintItem, GoodItem, ParseItem;
    if items == [] {
      assert PrintItems(items) + [Mark("}")] == [Mark("}")];
      OccursFirst(ts, pos, [Mark("}")]);
    } else {
      var first, rest := PrintItem(items[0]), PrintItems(items[1..]);
      assert PrintItems(items) + [Mark("}")] == first + (rest + [Mark("}")]);
      OccursSplit(ts, pos, first, rest + [Mark("}")]);
      OccursFirst(ts, pos + |first|, rest + [Mark("}")]);
      ItemComplete(num, ts, pos, items[0]);
      BodyComplete(num, ts, pos + |first|, items[1..]);
      assert [items[0]] + items[1..] == items;
    }
  }

  lemma {:induction false} ScriptComplete(num: NumberParser, ts: seq<Token>, pos: nat, s: CScript)
    requires Lexed(ts) && Occurs(ts, pos, PrintScript(s)) && pos + |PrintScript(s)| == |ts| - 1
    requires GoodScript(num, s)
    ensures ParseScript(num, ts, pos) == Done(s, |ts| - 1)
    decreases |s.items|
  {
    hide Lexed, Occurs, PrintItem, GoodItem, ParseItem;
    LastIsEnd(ts);
    if s.items == [] {
      assert PrintScript(s) == Semis(s.skips);
      MissingComplete(num, ts, pos, s.skips);
    } else {
      var first, rest := PrintItem(s.items[0]), CScript(s.items[1..], s.skips);
      assert PrintScript(s) == first + PrintScript(rest);
      OccursSplit(ts, pos, first, PrintScript(rest));
      OccursNext(ts, pos + |first|, PrintScript(rest));
      NextOfBoth(PrintItems(rest.items), Semis(rest.skips), END);
      ItemComplete(num, ts, pos, s.items[0]);
      ScriptComplete(num, ts, pos + |first|, rest);
      assert [s.items[0]] + s.items[1..] == s.items;
    }
  }

  // ----- the theorems -----

  lemma FixedWords()
    ensures IsMark("(") && IsMark(")") && IsMark(",") && IsMark("{") && IsMark("}") && IsMark(";") && IsOperator("=")
    ensures forall w :: DeclType(w) || Keyword(w) || w in {"else", "elseif"} ==> IsWord(w)
  {
  }

  lemma Keywords()
    ensures Keyword("if") && Keyword("while") && Keyword("foreach")
  {
  }

  lemma HeadLexed(num: NumberParser, word: string, e: Cst)
    requires WellFormed(num, e) && IsWord(word)
    ensures forall x <- Head(word, e) :: Lexeme(x)
  {
    hide IsWord, Print;
    PrintLexed(num, e);
    FixedWords();
  }

  lemma {:induction false} StmtLexed(num: NumberParser, s: CStmt, t: Token)
    requires Good(num, s, t)
    ensures forall x <- PrintStmt(s) :: Lexeme(x)
    decreases s, 1
  {
    hide Print, WellFormed, Bare, DeclType, Keyword, IsWord, Closes, Head;
    FixedWords();
    assert Keyword("if") && Keyword("while") && Keyword("foreach") by { Keywords(); }
    match s
    case CDecl(_, _, init, _) => if init.Some? { PrintLexed(num, init.value); }
    case CAssign(_, e, _) => PrintLexed(num, e);
    case CEval(e, _) => PrintLexed(num, e);
    case CIf(cond, then_, els) =>
      HeadLexed(num, "if", cond);
      BlockLexed(num, then_, Next(PrintElse(els), t));
      ElseLexed(num, els, t);
    case CForeach(_, list, body) => PrintLexed(num, list); BlockLexed(num, body, t);
    case CWhile(cond, body) => HeadLexed(num, "while", cond); BlockLexed(num, body, t);
  }

  lemma {:induction false} ElseLexed(num: NumberParser, e: CElse, t: Token)
    requires GoodElse(num, e, t)
    ensures forall x <- PrintElse(e) :: Lexeme(x)
    decreases e, 1
  {
    FixedWords();
    match e
    case NoElse =>
    case Else(block) => BlockLexed(num, block, t);
    case ElseIf(_, nested) => StmtLexed(num, nested, t);
  }

  lemma {:induction false} BlockLexed(num: NumberParser, b: CBlock, t: Token)
    requires GoodBlock(num, b, t)
    ensures forall x <- PrintBlock(b) :: Lexeme(x)
    decreases b, 1
  {
    match b
    case Braced(items) => ItemsLexed(num, items, Mark("}"));
    case Single(item) => ItemLexed(num, item, t);
    case Missing(skips) => SemisLexed(skips);
  }

  lemma {:induction false} ItemLexed(num: NumberParser, i: CItem, t: Token)
    requires GoodItem(num, i, t)
    ensures forall x <- PrintItem(i) :: Lexeme(x)
    decreases i, 1
  {
    SemisLexed(i.skips);
    StmtLexed(num, i.s, t);
  }

  lemma {:induction false} ItemsLexed(num: NumberParser, items: seq<CItem>, t: Token)
    requires GoodItems(num, items, t)
    ensures forall x <- PrintItems(items) :: Lexeme(x)
    decreases items, 0
  {
    if items != [] {
      ItemLexed(num, items[0], Next(PrintItems(items[1..]), t));
      ItemsLexed(num, items[1..], t);
    }
  }

  lemma {:induction false} SemisLexed(n: nat)
    ensures forall x <- Semis(n) :: Lexeme(x)
  {
    if n > 0 { SemisLexed(n - 1); }
  }

  lemma ScriptLexed(num: NumberParser, s: CScript)
    requires GoodScript(num, s)
    ensures Lexed(PrintScript(s) + [END])
  {
    hide Lexeme, GoodItems, PrintItems, Semis;
    ItemsLexed(num, s.items, Next(Semis(s.skips), END));
    SemisLexed(s.skips);
    var text := PrintScript(s);
    forall i | 0 <= i < |text| ensures Lexeme((text + [END])[i]) {
      assert text[i] in text;
    }
  }

  /** A token stream is read as a script if and only if it is the text of that script. */
  lemma AcceptsScripts(num: NumberParser, ts: seq<Token>, s: CScript)
    requires Lexed(ts)
    ensures ParseScript(num, ts, 0) == Done(s, |ts| - 1) <==> GoodScript(num, s) && PrintScript(s) + [END] == ts
  {
    hide Lexed, ParseScript, GoodScript, PrintScript;
    LastIsEnd(ts);
    assert ts == ts[..|ts| - 1] + [END];
    if ParseScript(num, ts, 0) == Done(s, |ts| - 1) {
      ScriptSound(num, ts, 0);
      assert ts[0..|ts| - 1] == ts[..|ts| - 1];
    }
    if GoodScript(num, s) && PrintScript(s) + [END] == ts {
      assert ts[0..0 + |PrintScript(s)|] == PrintScript(s);
      ScriptComplete(num, ts, 0, s);
    }
  }

  /** Two scripts never share a text. */
  lemma ScriptsUnambiguous(num: NumberParser, a: CScript, b: CScript)
    requires GoodScript(num, a) && GoodScript(num, b) && PrintScript(a) == PrintScript(b)
    ensures a == b
  {
    hide ParseScript, GoodScript, PrintScript;
    ScriptLexed(num, a);
    AcceptsScripts(num, PrintScript(a) + [END], a);
    AcceptsScripts(num, PrintScript(a) + [END], b);
  }

  // ----- semicolons of their own -----

  /** They are skipped in front of a statement, but refused in front of a closing brace. */
  lemma StraySemicolon(num: NumberParser, ts: seq<Token>, pos: nat)
    requires Lexed(ts) && pos < |ts| && Is(ts[Skip(ts, pos)], "}")
    ensures Is(ts[pos], ";") ==> ParseBody(num, ts, pos) == Refused
  {
    if Is(ts[pos], ";") {
      var at := Skip(ts, pos);
      BraceMarks();
      MarkAt(ts, at, "}");
      assert ParsePrimary(num, ts, at) == Fail;
      assert ParseUnary(num, ts, at) == Fail;
      assert Climb(num, ts, at, 0) == Fail;
      assert ParseStmt(num, ts, at) == Refused;
    }
  }

  /** The script `while (a) { ; }` is refused. */
  lemma StrayScript(num: NumberParser)
    ensures var ts := Head("while", CIdent("a")) + [Mark("{"), Mark(";"), Mark("}"), END];
      Lexed(ts) && ParseScript(num, ts, 0) == Refused
  {
    var ts := Head("while", CIdent("a")) + [Mark("{"), Mark(";"), Mark("}"), END];
    FixedWords();
    Keywords();
    assert IsWord("a");
    assert Lexed(ts);
    assert WellFormed(num, CIdent("a"));
    StrayRead(num, ts);
  }

  lemma StrayRead(num: NumberParser, ts: seq<Token>)
    requires Lexed(ts) && ts == [Token(Word, "while"), Mark("("), Token(Word, "a"), Mark(")"), Mark("{"), Mark(";"),
                                 Mark("}"), END]
    requires WellFormed(num, CIdent("a"))
    ensures ParseScript(num, ts, 0) == Refused
  {
    hide Lexed, WellFormed, Climb, ParseBody, DeclType;
    assert Occurs(ts, 2, Print(CIdent("a")));
    MarkEnds(")");
    ClimbComplete(num, ts, 2, CIdent("a"), 0);
    StraySemicolon(num, ts, 5);
    assert ParseBlock(num, ts, 4) == Refused;
    assert ParseWhile(num, ts, 0) == Refused;
    assert ParseStmt(num, ts, 0) == Refused;
  }

  /** In the place of a body they are not one: the statement behind them is. */
  lemma SemicolonBody(num: NumberParser, ts: seq<Token>, pos: nat)
    requires Lexed(ts) && pos < |ts| && Is(ts[pos], ";") && ParseBlock(num, ts, pos).Done?
    ensures var at, r := Skip(ts, pos), ParseBlock(num, ts, pos);
      if ts[at] == END then AstBlock(num, r.value) == []
      else
        && ParseStmt(num, ts, at).Done? && r.pos == ParseStmt(num, ts, at).pos
        && AstBlock(num, r.value) == [AstStmt(num, ParseStmt(num, ts, at).value)]
  {
    hide ParseStmt;
    var at := Skip(ts, pos);
    if ts[at].kind == EndOfFile { assert ts[at] == END; }
  }
}
