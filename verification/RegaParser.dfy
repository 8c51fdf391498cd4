/** The expression parser by precedence climbing, as functions on positions, proved to accept exactly
    the grammar. */
module RegaParser {
  import opened Collections
  import opened RegaGrammar

  datatype Parse<+T> = Fail | Ok(value: T, pos: nat)

  function Climb(num: NumberParser, ts: seq<Token>, pos: nat, min: nat): (r: Parse<Cst>)
    requires Lexed(ts) && pos < |ts|
    ensures r.Ok? ==> pos < r.pos < |ts|
    decreases |ts| - pos, 4
  {
    var first := ParseUnary(num, ts, pos);
    if first.Fail? then Fail else ClimbFrom(num, ts, first.pos, first.value, min)
  }

  /** The operator loop, with the left operand read so far. */
  function ClimbFrom(num: NumberParser, ts: seq<Token>, pos: nat, left: Cst, min: nat): (r: Parse<Cst>)
    requires Lexed(ts) && pos < |ts|
    ensures r.Ok? ==> pos <= r.pos < |ts|
    decreases |ts| - pos, 0
  {
    if !Extends(ts[pos], min) then Ok(left, pos)
    else
      var right := Climb(num, ts, pos + 1, Precedence(ts[pos].text).value + 1);
      if right.Fail? then Fail else ClimbFrom(num, ts, right.pos, CBinary(ts[pos].text, left, right.value), min)
  }

  function ParseUnary(num: NumberParser, ts: seq<Token>, pos: nat): (r: Parse<Cst>)
    requires Lexed(ts) && pos < |ts|
    ensures r.Ok? ==> pos < r.pos < |ts|
    decreases |ts| - pos, 3
  {
    var t := ts[pos];
    if t.kind == Operator && IsPrefix(t.text) then
      var x := ParseUnary(num, ts, pos + 1);
      if x.Fail? then Fail else Ok(CUnary(t.text, x.value), x.pos)
    else if t.kind == Operator && t.text == "&" then
      if ts[pos + 1].kind != Word then Fail else Ok(CRef(ts[pos + 1].text), pos + 2)
    else ParsePostfix(num, ts, pos)
  }

  function ParsePostfix(num: NumberParser, ts: seq<Token>, pos: nat): (r: Parse<Cst>)
    requires Lexed(ts) && pos < |ts|
    ensures r.Ok? ==> pos < r.pos < |ts|
    decreases |ts| - pos, 2
  {
    var node := ParsePrimary(num, ts, pos);
    if node.Fail? then Fail else ParseMembers(num, ts, node.pos, node.value)
  }

  function ParseMembers(num: NumberParser, ts: seq<Token>, pos: nat, node: Cst): (r: Parse<Cst>)
    requires Lexed(ts) && pos < |ts|
    ensures r.Ok? ==> pos <= r.pos < |ts|
    decreases |ts| - pos, 0
  {
    if !Is(ts[pos], ".") then Ok(node, pos)
    else if ts[pos + 1].kind != Word then Fail
    else if !Is(ts[pos + 2], "(") then ParseMembers(num, ts, pos + 2, CMember(node, ts[pos + 1].text, false, []))
    else
      var args := ParseArguments(num, ts, pos + 3);
      if args.Fail? then Fail
      else ParseMembers(num, ts, args.pos, CMember(node, ts[pos + 1].text, true, args.value))
  }

  function ParsePrimary(num: NumberParser, ts: seq<Token>, pos: nat): (r: Parse<Cst>)
    requires Lexed(ts) && pos < |ts|
    ensures r.Ok? ==> pos < r.pos < |ts|
    decreases |ts| - pos, 1
  {
    var t := ts[pos];
    if t.kind == Text then Ok(CString(t.text), pos + 1)
    else if t.kind == Number then (if num(t.text).None? then Fail else Ok(CNumber(t.text), pos + 1))
    else if t.text == "(" then
      var inner := Climb(num, ts, pos + 1, 0);
      if inner.Fail? || !Is(ts[inner.pos], ")") then Fail else Ok(CParen(inner.value), inner.pos + 1)
    else if t.kind == Word then
      if t.text == "true" then Ok(CBool(true), pos + 1)
      else if t.text == "false" then Ok(CBool(false), pos + 1)
      else if Is(ts[pos + 1], "(") then
        var args := ParseArguments(num, ts, pos + 2);
        if args.Fail? then Fail else Ok(CCall(t.text, args.value), args.pos)
      else Ok(CIdent(t.text), pos + 1)
    else Fail
  }

  function ParseArguments(num: NumberParser, ts: seq<Token>, pos: nat): (r: Parse<seq<Cst>>)
    requires Lexed(ts) && pos < |ts|
    ensures r.Ok? ==> pos < r.pos < |ts|
    decreases |ts| - pos, 6
  {
    if Is(ts[pos], ")") then Ok([], pos + 1) else ParseArgumentList(num, ts, pos)
  }

  function ParseArgumentList(num: NumberParser, ts: seq<Token>, pos: nat): (r: Parse<seq<Cst>>)
    requires Lexed(ts) && pos < |ts|
    ensures r.Ok? ==> pos < r.pos < |ts|
    decreases |ts| - pos, 5
  {
    var arg := Climb(num, ts, pos, 0);
    if arg.Fail? then Fail
    else if Is(ts[arg.pos], ",") then
      var rest := ParseArgumentList(num, ts, arg.pos + 1);
      if rest.Fail? then Fail else Ok([arg.value] + rest.value, rest.pos)
    else if Is(ts[arg.pos], ")") then Ok([arg.value], arg.pos + 1)
    else Fail
  }

  // ----- what a token is, from what was seen of it -----

  lemma MarkAt(ts: seq<Token>, pos: nat, text: string)
    requires Lexed(ts) && pos < |ts| && Is(ts[pos], text) && IsMark(text)
    ensures ts[pos] == Mark(text) && pos + 1 < |ts|
  {
    assert Lexeme(ts[pos]);
  }

  lemma MarkIs()
    ensures IsMark("(") && IsMark(")") && IsMark(",") && IsMark(".")
  {
  }

  lemma OperatorAt(ts: seq<Token>, pos: nat)
    requires Lexed(ts) && pos < |ts| && ts[pos].kind == Operator
    ensures ts[pos] == Op(ts[pos].text) && IsOperator(ts[pos].text) && pos + 1 < |ts|
  {
    assert Lexeme(ts[pos]);
  }

  lemma WordAt(ts: seq<Token>, pos: nat)
    requires Lexed(ts) && pos < |ts| && ts[pos].kind == Word
    ensures ts[pos] == Token(Word, ts[pos].text) && IsWord(ts[pos].text) && pos + 1 < |ts|
  {
    assert Lexeme(ts[pos]);
  }

  lemma Slices(ts: seq<Token>, a: nat, b: nat, c: nat)
    requires a <= b < c <= |ts|
    ensures ts[a..b] + [ts[b]] + ts[b + 1..c] == ts[a..c]
    ensures ts[a..b] + ([ts[b]] + ts[b + 1..c]) == ts[a..c]
  {
  }

  // ----- soundness: what is accepted is written as the grammar says -----

  lemma {:induction false} ClimbSound(num: NumberParser, ts: seq<Token>, pos: nat, min: nat)
    requires Lexed(ts) && pos < |ts| && min <= UNARY && Climb(num, ts, pos, min).Ok?
    ensures var r := Climb(num, ts, pos, min);
      && WellFormed(num, r.value) && Level(r.value) >= min && Print(r.value) == ts[pos..r.pos]
      && !Extends(ts[r.pos], min) && Ends(r.value, ts[r.pos])
    decreases |ts| - pos, 4
  {
    UnarySound(num, ts, pos);
    var first := ParseUnary(num, ts, pos);
    ClimbFromSound(num, ts, pos, first.pos, first.value, min);
  }

  lemma {:induction false} ClimbFromSound(num: NumberParser, ts: seq<Token>, start: nat, pos: nat, left: Cst, min: nat)
    requires Lexed(ts) && start < pos < |ts| && min <= UNARY && ClimbFrom(num, ts, pos, left, min).Ok?
    requires WellFormed(num, left) && Level(left) >= min && Print(left) == ts[start..pos]
    requires !Extends(ts[pos], Level(left) + 1) && Ends(left, ts[pos])
    ensures var r := ClimbFrom(num, ts, pos, left, min);
      && WellFormed(num, r.value) && Level(r.value) >= min && Print(r.value) == ts[start..r.pos]
      && !Extends(ts[r.pos], min) && Ends(r.value, ts[r.pos])
    decreases |ts| - pos, 0
  {
    hide Lexed, IsWord, IsOperator, IsMark, IsPrefix, IsDigits, Plain, Precedence, Climb;
    if Extends(ts[pos], min) {
      var op := ts[pos].text;
      OperatorAt(ts, pos);
      var right := Climb(num, ts, pos + 1, Precedence(op).value + 1);
      ClimbSound(num, ts, pos + 1, Precedence(op).value + 1);
      Slices(ts, start, pos, right.pos);
      ClimbFromSound(num, ts, start, right.pos, CBinary(op, left, right.value), min);
    }
  }

  lemma {:induction false} UnarySound(num: NumberParser, ts: seq<Token>, pos: nat)
    requires Lexed(ts) && pos < |ts| && ParseUnary(num, ts, pos).Ok?
    ensures var r := ParseUnary(num, ts, pos);
      && WellFormed(num, r.value) && Level(r.value) >= UNARY && Print(r.value) == ts[pos..r.pos]
      && Ends(r.value, ts[r.pos])
    decreases |ts| - pos, 3
  {
    hide Lexed, IsWord, IsOperator, IsDigits, WellFormed, Print, Ends, Level, Is, ParsePrimary, ParseMembers;
    var t := ts[pos];
    if t.kind == Operator && IsPrefix(t.text) {
      OperatorAt(ts, pos);
      UnarySound(num, ts, pos + 1);
      var x := ParseUnary(num, ts, pos + 1);
      UnaryGood(num, t.text, x.value, ts[x.pos]);
      FirstSlice(ts, pos, x.pos);
    } else if t.kind == Operator && t.text == "&" {
      OperatorAt(ts, pos);
      WordAt(ts, pos + 1);
      RefGood(num, ts[pos + 1].text, ts[pos + 2]);
      TwoSlice(ts, pos);
    } else {
      var node := ParsePrimary(num, ts, pos);
      PrimarySound(num, ts, pos);
      MembersSound(num, ts, pos, node.pos, node.value);
    }
  }

  lemma UnaryGood(num: NumberParser, op: string, x: Cst, t: Token)
    requires IsPrefix(op) && WellFormed(num, x) && Level(x) >= UNARY && Ends(x, t)
    ensures var c := CUnary(op, x);
      WellFormed(num, c) && Level(c) == UNARY && Print(c) == [Op(op)] + Print(x) && Ends(c, t)
  {
    hide Is;
  }

  lemma RefGood(num: NumberParser, name: string, t: Token)
    requires IsWord(name)
    ensures WellFormed(num, CRef(name)) && Level(CRef(name)) == UNARY
    ensures Print(CRef(name)) == [Op("&"), Token(Word, name)] && Ends(CRef(name), t)
  {
    hide IsWord;
  }

  lemma FirstSlice(ts: seq<Token>, a: nat, b: nat)
    requires a < b <= |ts|
    ensures [ts[a]] + ts[a + 1..b] == ts[a..b]
  {
  }

  lemma TwoSlice(ts: seq<Token>, a: nat)
    requires a + 2 <= |ts|
    ensures [ts[a], ts[a + 1]] == ts[a..a + 2]
  {
  }

  lemma {:induction false} MembersSound(num: NumberParser, ts: seq<Token>, start: nat, pos: nat, node: Cst)
    requires Lexed(ts) && start < pos < |ts| && ParseMembers(num, ts, pos, node).Ok?
    requires WellFormed(num, node) && Level(node) == POSTFIX && Print(node) == ts[start..pos]
    requires Callable(node) ==> !Is(ts[pos], "(")
    ensures var r := ParseMembers(num, ts, pos, node);
      && WellFormed(num, r.value) && Level(r.value) == POSTFIX && Print(r.value) == ts[start..r.pos]
      && Ends(r.value, ts[r.pos])
    decreases |ts| - pos, 0
  {
    hide Lexed, IsWord, IsOperator, IsMark, ParseArguments, WellFormed, WellFormedAll, Print, Ends, Level;
    if !Is(ts[pos], ".") {
      PostfixEnds(node, ts[pos]);
    } else {
      MarkIs();
      MarkAt(ts, pos, ".");
      WordAt(ts, pos + 1);
      hide Is;
      if !Is(ts[pos + 2], "(") {
        Slices(ts, start, pos, pos + 2);
        MemberGood(num, node, ts[pos + 1].text, false, []);
        MembersSound(num, ts, start, pos + 2, CMember(node, ts[pos + 1].text, false, []));
      } else {
        MarkAt(ts, pos + 2, "(");
        var args := ParseArguments(num, ts, pos + 3);
        ArgumentsSound(num, ts, pos + 3);
        MemberSlices(ts, start, pos, args.pos);
        MemberGood(num, node, ts[pos + 1].text, true, args.value);
        MembersSound(num, ts, start, args.pos, CMember(node, ts[pos + 1].text, true, args.value));
      }
    }
  }

  lemma PostfixEnds(c: Cst, t: Token)
    requires Level(c) == POSTFIX && !Is(t, ".") && (Callable(c) ==> !Is(t, "("))
    ensures Ends(c, t)
  {
    hide Precedence;
  }

  lemma MemberGood(num: NumberParser, x: Cst, name: string, called: bool, args: seq<Cst>)
    requires WellFormed(num, x) && Level(x) == POSTFIX && IsWord(name) && WellFormedAll(num, args)
    requires args != [] ==> called
    ensures var c := CMember(x, name, called, args);
      && WellFormed(num, c) && Level(c) == POSTFIX
      && Print(c) == Print(x) + [Mark("."), Token(Word, name)] + (if called then [Mark("(")] + PrintArgs(args) else [])
  {
  }

  lemma MemberSlices(ts: seq<Token>, a: nat, b: nat, c: nat)
    requires a <= b && b + 3 <= c <= |ts|
    ensures ts[a..b] + [ts[b], ts[b + 1]] + ([ts[b + 2]] + ts[b + 3..c]) == ts[a..c]
  {
  }

  lemma {:induction false} PrimarySound(num: NumberParser, ts: seq<Token>, pos: nat)
    requires Lexed(ts) && pos < |ts| && ParsePrimary(num, ts, pos).Ok?
    ensures var r := ParsePrimary(num, ts, pos);
      && WellFormed(num, r.value) && Level(r.value) == POSTFIX && Print(r.value) == ts[pos..r.pos]
      && (Callable(r.value) ==> !Is(ts[r.pos], "("))
    decreases |ts| - pos, 1
  {
    hide Lexed, IsWord, IsOperator, IsMark, Climb, ParseArguments, WellFormed, WellFormedAll, Print, PrintArgs, Level;
    var t := ts[pos];
    if t.kind != Text && t.kind != Number && t.text == "(" {
      MarkIs();
      MarkAt(ts, pos, "(");
      hide Is;
      var inner := Climb(num, ts, pos + 1, 0);
      ClimbSound(num, ts, pos + 1, 0);
      MarkAt(ts, inner.pos, ")");
      BracketSlices(ts, pos, inner.pos);
      ParenGood(num, inner.value);
    } else if t.kind == Word && t.text != "true" && t.text != "false" && Is(ts[pos + 1], "(") {
      WordAt(ts, pos);
      MarkIs();
      MarkAt(ts, pos + 1, "(");
      hide Is;
      var args := ParseArguments(num, ts, pos + 2);
      ArgumentsSound(num, ts, pos + 2);
      BracketSlices(ts, pos, args.pos - 1);
      CallGood(num, t.text, args.value);
    } else {
      SinglePrimary(num, ts, pos);
    }
  }

  lemma ParenGood(num: NumberParser, inner: Cst)
    requires WellFormed(num, inner)
    ensures var c := CParen(inner);
      WellFormed(num, c) && Level(c) == POSTFIX && Print(c) == [Mark("(")] + Print(inner) + [Mark(")")]
  {
  }

  lemma CallGood(num: NumberParser, name: string, args: seq<Cst>)
    requires IsWord(name) && name != "true" && name != "false" && WellFormedAll(num, args)
    ensures var c := CCall(name, args);
      WellFormed(num, c) && Level(c) == POSTFIX && Print(c) == [Token(Word, name), Mark("(")] + PrintArgs(args)
  {
    hide IsWord;
  }

  lemma BracketSlices(ts: seq<Token>, a: nat, b: nat)
    requires a < b < |ts|
    ensures [ts[a]] + ts[a + 1..b] + [ts[b]] == ts[a..b + 1]
    ensures [ts[a], ts[a + 1]] + ts[a + 2..b + 1] == ts[a..b + 1]
  {
  }

  lemma SinglePrimary(num: NumberParser, ts: seq<Token>, pos: nat)
    requires Lexed(ts) && pos < |ts| && ParsePrimary(num, ts, pos).Ok?
    requires ParsePrimary(num, ts, pos).pos == pos + 1 && !ParsePrimary(num, ts, pos).value.CParen?
    requires !ParsePrimary(num, ts, pos).value.CCall?
    ensures var r := ParsePrimary(num, ts, pos);
      && WellFormed(num, r.value) && Level(r.value) == POSTFIX && Print(r.value) == ts[pos..r.pos]
      && (Callable(r.value) ==> !Is(ts[r.pos], "("))
  {
    assert Lexeme(ts[pos]);
    assert ts[pos..pos + 1] == [ts[pos]];
  }

  lemma {:induction false} ArgumentsSound(num: NumberParser, ts: seq<Token>, pos: nat)
    requires Lexed(ts) && pos < |ts| && ParseArguments(num, ts, pos).Ok?
    ensures var r := ParseArguments(num, ts, pos);
      WellFormedAll(num, r.value) && PrintArgs(r.value) == ts[pos..r.pos]
    decreases |ts| - pos, 6
  {
    if Is(ts[pos], ")") {
      assert Lexeme(ts[pos]);
      assert ts[pos..pos + 1] == [ts[pos]];
    } else {
      ArgumentListSound(num, ts, pos);
    }
  }

  lemma {:induction false} ArgumentListSound(num: NumberParser, ts: seq<Token>, pos: nat)
    requires Lexed(ts) && pos < |ts| && ParseArgumentList(num, ts, pos).Ok?
    ensures var r := ParseArgumentList(num, ts, pos);
      r.value != [] && WellFormedAll(num, r.value) && PrintArgs(r.value) == ts[pos..r.pos]
    decreases |ts| - pos, 5
  {
    hide Lexed, IsWord, IsOperator, IsMark, Climb, Print, WellFormed, PrintArgs, WellFormedAll, Level, Ends, Extends;
    var arg := Climb(num, ts, pos, 0);
    ClimbSound(num, ts, pos, 0);
    if Is(ts[arg.pos], ",") {
      MarkAt(ts, arg.pos, ",");
      ArgumentListSound(num, ts, arg.pos + 1);
      var rest := ParseArgumentList(num, ts, arg.pos + 1);
      ArgsGood(num, arg.value, rest.value);
      Slices(ts, pos, arg.pos, rest.pos);
    } else {
      MarkAt(ts, arg.pos, ")");
      LastGood(num, arg.value);
      assert ts[pos..arg.pos + 1] == ts[pos..arg.pos] + [ts[arg.pos]];
    }
  }

  lemma ArgsGood(num: NumberParser, c: Cst, rest: seq<Cst>)
    requires WellFormed(num, c) && WellFormedAll(num, rest) && rest != []
    ensures WellFormedAll(num, [c] + rest) && PrintArgs([c] + rest) == Print(c) + ([Mark(",")] + PrintArgs(rest))
  {
    hide WellFormed, Print;
    assert ([c] + rest)[1..] == rest;
    Regroup(Print(c), [Mark(",")], PrintArgs(rest));
  }

  lemma LastGood(num: NumberParser, c: Cst)
    requires WellFormed(num, c)
    ensures WellFormedAll(num, [c]) && PrintArgs([c]) == Print(c) + [Mark(")")]
  {
    hide WellFormed, Print;
    assert [c][1..] == [];
  }

  // ----- completeness: whatever the grammar writes is read back -----

  lemma OccursFirst(ts: seq<Token>, pos: nat, part: seq<Token>)
    requires Occurs(ts, pos, part) && part != []
    ensures ts[pos] == part[0]
  {
    assert ts[pos..pos + |part|][0] == ts[pos];
  }

  /** No expression opens with a closing bracket, and one that binds as tightly as a postfix
      does not open with an operator. */
  lemma {:induction false} FirstToken(num: NumberParser, c: Cst)
    requires WellFormed(num, c)
    ensures !Is(Print(c)[0], ")")
    ensures Level(c) == POSTFIX ==> Print(c)[0].kind != Operator
    decreases c
  {
    hide Precedence, IsOperator, WellFormedAll;
    match c
    case CBinary(_, l, _) => FirstToken(num, l);
    case CMember(x, _, _, _) => FirstToken(num, x);
    case _ =>
  }

  lemma OperatorEnds(op: string)
    requires Precedence(op).Some?
    ensures forall c :: Ends(c, Op(op))
    ensures forall m :: Extends(Op(op), m) <==> Precedence(op).value >= m
  {
  }

  lemma RightEnds(c: Cst, t: Token)
    requires c.CBinary?
    ensures Ends(c, t) <==> Ends(c.right, t)
  {
  }

  lemma MarkEnds(text: string)
    requires text == "," || text == ")"
    ensures forall c :: Ends(c, Mark(text))
    ensures !Extends(Mark(text), 0) && !Is(Mark(","), ")") && !Is(Mark(")"), ",") && Is(Mark(text), text)
  {
  }

  lemma ExtendsLess(t: Token, low: nat, high: nat)
    requires low <= high && Extends(t, high)
    ensures Extends(t, low)
  {
  }

  lemma {:induction false} ClimbReaches(num: NumberParser, ts: seq<Token>, pos: nat, c: Cst, min: nat)
    requires Lexed(ts) && WellFormed(num, c) && Level(c) >= min
    requires Occurs(ts, pos, Print(c)) && pos + |Print(c)| < |ts|
    requires Ends(c, ts[pos + |Print(c)|]) && !Extends(ts[pos + |Print(c)|], Level(c) + 1)
    ensures Climb(num, ts, pos, min) == ClimbFrom(num, ts, pos + |Print(c)|, c, min)
    decreases c, 5
  {
    hide Lexed, IsOperator, IsMark, IsWord, IsPrefix, Occurs, Precedence, Extends, Ends, Climb, ClimbFrom;
    if c.CBinary? {
      BinaryOccurs(ts, pos, c);
      OperatorEnds(c.op);
      var l, r, p := c.left, c.right, Precedence(c.op).value;
      var mid, end := pos + |Print(l)|, pos + |Print(c)|;
      if Extends(ts[end], Level(r) + 1) { ExtendsLess(ts[end], p + 1, Level(r) + 1); }
      RightEnds(c, ts[end]);
      ClimbReaches(num, ts, pos, l, min);
      ClimbReaches(num, ts, mid + 1, r, p + 1);
      ClimbStep(num, ts, mid, end, c, min);
    } else {
      UnaryComplete(num, ts, pos, c);
      ClimbUnary(num, ts, pos, min);
    }
  }

  lemma ClimbUnary(num: NumberParser, ts: seq<Token>, pos: nat, min: nat)
    requires Lexed(ts) && pos < |ts| && ParseUnary(num, ts, pos).Ok?
    ensures var first := ParseUnary(num, ts, pos);
      Climb(num, ts, pos, min) == ClimbFrom(num, ts, first.pos, first.value, min)
  {
    hide Lexed, ParseUnary, ClimbFrom;
  }

  lemma BinaryOccurs(ts: seq<Token>, pos: nat, c: Cst)
    requires c.CBinary? && Occurs(ts, pos, Print(c))
    ensures var mid := pos + |Print(c.left)|;
      && Occurs(ts, pos, Print(c.left)) && Occurs(ts, mid + 1, Print(c.right))
      && ts[mid] == Op(c.op) && |Print(c)| == |Print(c.left)| + 1 + |Print(c.right)|
  {
    hide Occurs, Print;
    PrintBinary(c);
    MarkBetween(ts, pos, Print(c.left), Op(c.op), Print(c.right));
  }

  lemma PrintBinary(c: Cst)
    requires c.CBinary?
    ensures Print(c) == Print(c.left) + ([Op(c.op)] + Print(c.right))
  {
    Regroup(Print(c.left), [Op(c.op)], Print(c.right));
  }

  lemma Regroup(a: seq<Token>, b: seq<Token>, c: seq<Token>)
    ensures a + b + c == a + (b + c)
  {
  }

  /** One turn of the operator loop, when the right operand ends where the loop would stop. */
  lemma ClimbStep(num: NumberParser, ts: seq<Token>, mid: nat, end: nat, c: Cst, min: nat)
    requires Lexed(ts) && c.CBinary? && Precedence(c.op).Some? && Precedence(c.op).value >= min
    requires mid + 1 < end < |ts| && ts[mid] == Op(c.op)
    requires Climb(num, ts, mid + 1, Precedence(c.op).value + 1)
        == ClimbFrom(num, ts, end, c.right, Precedence(c.op).value + 1)
    requires !Extends(ts[end], Precedence(c.op).value + 1)
    ensures ClimbFrom(num, ts, mid, c.left, min) == ClimbFrom(num, ts, end, c, min)
  {
    hide Lexed, Precedence, Climb;
    assert Extends(ts[mid], min);
  }

  lemma {:induction false} ClimbComplete(num: NumberParser, ts: seq<Token>, pos: nat, c: Cst, min: nat)
    requires Lexed(ts) && WellFormed(num, c) && Level(c) >= min
    requires Occurs(ts, pos, Print(c)) && pos + |Print(c)| < |ts|
    requires Ends(c, ts[pos + |Print(c)|]) && !Extends(ts[pos + |Print(c)|], min)
    ensures Climb(num, ts, pos, min) == Ok(c, pos + |Print(c)|)
    decreases c, 6
  {
    ClimbReaches(num, ts, pos, c, min);
  }

  lemma {:induction false} UnaryComplete(num: NumberParser, ts: seq<Token>, pos: nat, c: Cst)
    requires Lexed(ts) && WellFormed(num, c) && Level(c) >= UNARY
    requires Occurs(ts, pos, Print(c)) && pos + |Print(c)| < |ts| && Ends(c, ts[pos + |Print(c)|])
    ensures ParseUnary(num, ts, pos) == Ok(c, pos + |Print(c)|)
    decreases c, 4
  {
    hide Lexed, IsOperator, IsMark, IsWord, Occurs, Precedence;
    OccursFirst(ts, pos, Print(c));
    match c
    case CUnary(op, x) =>
      OccursSplit(ts, pos, [Op(op)], Print(x));
      UnaryComplete(num, ts, pos + 1, x);
    case CRef(name) =>
      assert Print(c) == [Op("&")] + [Token(Word, name)];
      OccursSplit(ts, pos, [Op("&")], [Token(Word, name)]);
      OccursFirst(ts, pos + 1, [Token(Word, name)]);
    case CBinary(_, _, _) =>
    case _ =>
      FirstToken(num, c);
      PostfixReaches(num, ts, pos, c);
  }

  lemma {:induction false} PostfixReaches(num: NumberParser, ts: seq<Token>, pos: nat, c: Cst)
    requires Lexed(ts) && WellFormed(num, c) && Level(c) == POSTFIX
    requires Occurs(ts, pos, Print(c)) && pos + |Print(c)| < |ts|
    requires Callable(c) ==> !Is(ts[pos + |Print(c)|], "(")
    ensures ParsePostfix(num, ts, pos) == ParseMembers(num, ts, pos + |Print(c)|, c)
    decreases c, 3
  {
    hide Lexed, IsOperator, IsMark, IsWord, Occurs, Precedence, Is, ParsePostfix, ParseMembers, ParsePrimary,
        ParseArguments;
    if c.CMember? {
      MarkNotCall();
      MemberOccurs(ts, pos, c);
      var at := pos + |Print(c.receiver)|;
      PostfixReaches(num, ts, pos, c.receiver);
      if c.called { ArgumentsComplete(num, ts, at + 3, c.args); }
      MemberStep(num, ts, at, c);
    } else {
      PrimaryComplete(num, ts, pos, c);
      PostfixPrimary(num, ts, pos);
    }
  }

  lemma PostfixPrimary(num: NumberParser, ts: seq<Token>, pos: nat)
    requires Lexed(ts) && pos < |ts| && ParsePrimary(num, ts, pos).Ok?
    ensures var node := ParsePrimary(num, ts, pos);
      ParsePostfix(num, ts, pos) == ParseMembers(num, ts, node.pos, node.value)
  {
    hide Lexed, ParsePrimary, ParseMembers;
  }

  lemma MemberOccurs(ts: seq<Token>, pos: nat, c: Cst)
    requires c.CMember? && Occurs(ts, pos, Print(c))
    ensures var at := pos + |Print(c.receiver)|;
      && Occurs(ts, pos, Print(c.receiver))
      && at + 1 < |ts| && ts[at] == Mark(".") && ts[at + 1] == Token(Word, c.name)
      && (c.called ==> at + 2 < |ts| && ts[at + 2] == Mark("(") && Occurs(ts, at + 3, PrintArgs(c.args)))
      && |Print(c)| == |Print(c.receiver)| + 2 + (if c.called then 1 + |PrintArgs(c.args)| else 0)
  {
    hide Occurs, Print, PrintArgs;
    var at := pos + |Print(c.receiver)|;
    var tail := if c.called then [Mark("(")] + PrintArgs(c.args) else [];
    PrintMember(c);
    OccursSplit(ts, pos, Print(c.receiver), [Mark("."), Token(Word, c.name)] + tail);
    TwoOccur(ts, at, Mark("."), Token(Word, c.name), tail);
    if c.called {
      OccursSplit(ts, at + 2, [Mark("(")], PrintArgs(c.args));
      OccursFirst(ts, at + 2, [Mark("(")]);
      OccursFits(ts, at + 2, tail);
    }
  }

  lemma PrintMember(c: Cst)
    requires c.CMember?
    ensures var tail := if c.called then [Mark("(")] + PrintArgs(c.args) else [];
      Print(c) == Print(c.receiver) + ([Mark("."), Token(Word, c.name)] + tail)
  {
    var tail := if c.called then [Mark("(")] + PrintArgs(c.args) else [];
    Regroup(Print(c.receiver), [Mark("."), Token(Word, c.name)], tail);
  }

  lemma TwoOccur(ts: seq<Token>, pos: nat, a: Token, b: Token, rest: seq<Token>)
    requires Occurs(ts, pos, [a, b] + rest)
    ensures pos + 1 < |ts| && ts[pos] == a && ts[pos + 1] == b && Occurs(ts, pos + 2, rest)
  {
    hide Occurs;
    OccursSplit(ts, pos, [a, b], rest);
    OccursBoth(ts, pos, a, b);
  }

  lemma OccursBoth(ts: seq<Token>, pos: nat, a: Token, b: Token)
    requires Occurs(ts, pos, [a, b])
    ensures pos + 1 < |ts| && ts[pos] == a && ts[pos + 1] == b
  {
    assert ts[pos..pos + 2][0] == ts[pos] && ts[pos..pos + 2][1] == ts[pos + 1];
  }

  lemma OccursFits(ts: seq<Token>, pos: nat, part: seq<Token>)
    requires Occurs(ts, pos, part)
    ensures pos + |part| <= |ts|
  {
  }

  lemma MarkNotCall()
    ensures Is(Mark("."), ".") && !Is(Mark("."), "(") && Is(Mark("("), "(")
  {
  }

  lemma MemberStep(num: NumberParser, ts: seq<Token>, at: nat, c: Cst)
    requires Lexed(ts) && c.CMember? && at + 2 < |ts|
    requires Is(ts[at], ".") && ts[at + 1] == Token(Word, c.name)
    requires c.called <==> Is(ts[at + 2], "(")
    requires !c.called ==> c.args == []
    requires c.called
        ==> at + 3 < |ts| && ParseArguments(num, ts, at + 3).Ok? && ParseArguments(num, ts, at + 3).value == c.args
    ensures ParseMembers(num, ts, at, c.receiver)
         == ParseMembers(num, ts, if c.called then ParseArguments(num, ts, at + 3).pos else at + 2, c)
  {
    hide Is, Lexed, ParseArguments;
  }

  lemma {:induction false} PrimaryComplete(num: NumberParser, ts: seq<Token>, pos: nat, c: Cst)
    requires Lexed(ts) && WellFormed(num, c) && Level(c) == POSTFIX && !c.CMember?
    requires Occurs(ts, pos, Print(c)) && pos + |Print(c)| < |ts|
    requires Callable(c) ==> !Is(ts[pos + |Print(c)|], "(")
    ensures ParsePrimary(num, ts, pos) == Ok(c, pos + |Print(c)|)
    decreases c, 2
  {
    hide Lexed, IsOperator, IsMark, IsWord, Occurs, Climb, ParseArguments, IsDigits, Print, PrintArgs, ParsePrimary;
    match c
    case CCall(name, args) =>
      CallOccurs(ts, pos, name, args);
      ArgumentsComplete(num, ts, pos + 2, args);
      CallRead(num, ts, pos, name);
    case CParen(inner) =>
      ParenOccurs(ts, pos, inner);
      MarkEnds(")");
      ClimbComplete(num, ts, pos + 1, inner, 0);
      ParenRead(num, ts, pos);
    case _ => SingleComplete(num, ts, pos, c);
  }

  lemma CallOccurs(ts: seq<Token>, pos: nat, name: string, args: seq<Cst>)
    requires Occurs(ts, pos, Print(CCall(name, args)))
    ensures pos + 1 < |ts| && ts[pos] == Token(Word, name) && ts[pos + 1] == Mark("(")
    ensures Occurs(ts, pos + 2, PrintArgs(args)) && |Print(CCall(name, args))| == 2 + |PrintArgs(args)|
  {
    hide Occurs, PrintArgs;
    TwoOccur(ts, pos, Token(Word, name), Mark("("), PrintArgs(args));
  }

  lemma CallRead(num: NumberParser, ts: seq<Token>, pos: nat, name: string)
    requires Lexed(ts) && pos + 2 < |ts| && ts[pos] == Token(Word, name) && ts[pos + 1] == Mark("(") && Plain(name)
    ensures var args := ParseArguments(num, ts, pos + 2);
      ParsePrimary(num, ts, pos) == if args.Fail? then Fail else Ok(CCall(name, args.value), args.pos)
  {
    hide Lexed, ParseArguments, IsDigits;
  }

  lemma ParenRead(num: NumberParser, ts: seq<Token>, pos: nat)
    requires Lexed(ts) && pos + 1 < |ts| && ts[pos] == Mark("(")
    ensures var inner := Climb(num, ts, pos + 1, 0);
      ParsePrimary(num, ts, pos)
      == if inner.Fail? || !Is(ts[inner.pos], ")") then Fail else Ok(CParen(inner.value), inner.pos + 1)
  {
    hide Lexed, Climb;
  }

  lemma SingleComplete(num: NumberParser, ts: seq<Token>, pos: nat, c: Cst)
    requires Lexed(ts) && WellFormed(num, c) && Level(c) == POSTFIX && !c.CMember? && !c.CCall? && !c.CParen?
    requires Occurs(ts, pos, Print(c)) && pos + |Print(c)| < |ts|
    requires Callable(c) ==> !Is(ts[pos + |Print(c)|], "(")
    ensures ParsePrimary(num, ts, pos) == Ok(c, pos + |Print(c)|)
  {
    hide Lexed, IsOperator, IsMark, Occurs, Precedence, Climb, ParseArguments, IsDigits, IsPrefix;
    OccursFirst(ts, pos, Print(c));
  }

  lemma ParenOccurs(ts: seq<Token>, pos: nat, inner: Cst)
    requires Occurs(ts, pos, Print(CParen(inner)))
    ensures var at := pos + 1 + |Print(inner)|;
      && Occurs(ts, pos + 1, Print(inner)) && at < |ts| && ts[pos] == Mark("(") && ts[at] == Mark(")")
      && |Print(CParen(inner))| == |Print(inner)| + 2
  {
    hide Occurs;
    assert Print(CParen(inner)) == [Mark("(")] + (Print(inner) + [Mark(")")]);
    OccursSplit(ts, pos, [Mark("(")], Print(inner) + [Mark(")")]);
    OccursFirst(ts, pos, [Mark("(")]);
    OccursSplit(ts, pos + 1, Print(inner), [Mark(")")]);
    OccursFirst(ts, pos + 1 + |Print(inner)|, [Mark(")")]);
  }

  lemma {:induction false} ArgumentsComplete(num: NumberParser, ts: seq<Token>, pos: nat, args: seq<Cst>)
    requires Lexed(ts) && WellFormedAll(num, args)
    requires Occurs(ts, pos, PrintArgs(args)) && pos + |PrintArgs(args)| < |ts|
    ensures ParseArguments(num, ts, pos) == Ok(args, pos + |PrintArgs(args)|)
    decreases args, 1
  {
    hide Lexed, IsOperator, IsMark, IsWord, Occurs, Precedence, Is, Ends, Extends, Climb, ParseArgumentList;
    OccursFirst(ts, pos, PrintArgs(args));
    MarkEnds(")");
    if args != [] {
      FirstToken(num, args[0]);
      assert PrintArgs(args)[0] == Print(args[0])[0];
      ArgumentListComplete(num, ts, pos, args);
    }
  }

  /** The last argument of a list, and the bracket that closes it. */
  lemma LastOccurs(ts: seq<Token>, pos: nat, args: seq<Cst>)
    requires |args| == 1 && Occurs(ts, pos, PrintArgs(args))
    ensures var at := pos + |Print(args[0])|;
      Occurs(ts, pos, Print(args[0])) && at < |ts| && ts[at] == Mark(")") && |PrintArgs(args)| == |Print(args[0])| + 1
  {
    hide Occurs, Print;
    assert [Mark(")")] + [] == [Mark(")")];
    MarkBetween(ts, pos, Print(args[0]), Mark(")"), []);
  }

  lemma MoreArgs(args: seq<Cst>)
    requires |args| > 1
    ensures PrintArgs(args) == Print(args[0]) + ([Mark(",")] + PrintArgs(args[1..]))
  {
    hide Print;
  }

  /** An argument, the comma after it and the rest of the list. */
  lemma MoreOccurs(ts: seq<Token>, pos: nat, args: seq<Cst>)
    requires |args| > 1 && Occurs(ts, pos, PrintArgs(args))
    ensures var at := pos + |Print(args[0])|;
      && Occurs(ts, pos, Print(args[0])) && at < |ts| && ts[at] == Mark(",") && Occurs(ts, at + 1, PrintArgs(args[1..]))
      && |PrintArgs(args)| == |Print(args[0])| + 1 + |PrintArgs(args[1..])|
  {
    hide Occurs, Print, PrintArgs;
    MoreArgs(args);
    MarkBetween(ts, pos, Print(args[0]), Mark(","), PrintArgs(args[1..]));
  }

  lemma MarkBetween(ts: seq<Token>, pos: nat, first: seq<Token>, mark: Token, rest: seq<Token>)
    requires Occurs(ts, pos, first + ([mark] + rest))
    ensures var at := pos + |first|;
      Occurs(ts, pos, first) && at < |ts| && ts[at] == mark && Occurs(ts, at + 1, rest)
          && |first + ([mark] + rest)| == |first| + 1 + |rest|
  {
    hide Occurs;
    OccursSplit(ts, pos, first, [mark] + rest);
    OccursSplit(ts, pos + |first|, [mark], rest);
    OccursFirst(ts, pos + |first|, [mark]);
  }

  lemma {:induction false} ArgumentListComplete(num: NumberParser, ts: seq<Token>, pos: nat, args: seq<Cst>)
    requires Lexed(ts) && WellFormedAll(num, args) && args != []
    requires Occurs(ts, pos, PrintArgs(args)) && pos + |PrintArgs(args)| < |ts|
    ensures ParseArgumentList(num, ts, pos) == Ok(args, pos + |PrintArgs(args)|)
    decreases args, 0
  {
    hide Lexed, IsOperator, IsMark, IsWord, IsDigits, IsPrefix, Occurs, Precedence, Ends, Extends, Climb, Print,
        PrintArgs, WellFormed;
    MarkEnds(",");
    MarkEnds(")");
    if |args| == 1 { LastOccurs(ts, pos, args); } else { MoreOccurs(ts, pos, args); }
    ClimbComplete(num, ts, pos, args[0], 0);
    if |args| > 1 {
      ArgumentListComplete(num, ts, pos + |Print(args[0])| + 1, args[1..]);
      assert [args[0]] + args[1..] == args;
    } else {
      assert [args[0]] == args;
    }
  }

  // ----- the theorems -----

  function Whole(num: NumberParser, ts: seq<Token>): Parse<Cst>
    requires Lexed(ts)
  {
    Climb(num, ts, 0, 0)
  }

  lemma {:induction false} PrintLexed(num: NumberParser, c: Cst)
    requires WellFormed(num, c)
    ensures forall t <- Print(c) :: Lexeme(t)
    decreases c, 1
  {
    hide IsDigits, IsWord, Precedence;
    match c
    case CUnary(_, x) => PrintLexed(num, x);
    case CBinary(_, l, r) => PrintLexed(num, l); PrintLexed(num, r);
    case CCall(_, args) => PrintArgsLexed(num, args);
    case CMember(x, _, _, args) => PrintLexed(num, x); PrintArgsLexed(num, args);
    case CParen(inner) => PrintLexed(num, inner);
    case CBool(b) => assert IsWord("true") && IsWord("false") by { WordsTrueFalse(); }
    case _ =>
  }

  lemma WordsTrueFalse()
    ensures IsWord("true") && IsWord("false")
  {
  }

  lemma {:induction false} PrintArgsLexed(num: NumberParser, args: seq<Cst>)
    requires WellFormedAll(num, args)
    ensures forall t <- PrintArgs(args) :: Lexeme(t)
    decreases args, 0
  {
    if args != [] {
      PrintLexed(num, args[0]);
      PrintArgsLexed(num, args[1..]);
    }
  }

  lemma PrintedIsLexed(num: NumberParser, c: Cst)
    requires WellFormed(num, c)
    ensures Lexed(Print(c) + [END])
  {
    PrintLexed(num, c);
    var ts := Print(c) + [END];
    forall i | 0 <= i < |ts| - 1 ensures Lexeme(ts[i]) {
      assert ts[i] == Print(c)[i];
      assert ts[i] in Print(c);
    }
  }

  /** Parsing the text of a tree gives that tree and stops exactly at its end. */
  lemma ParsePrint(num: NumberParser, c: Cst)
    requires WellFormed(num, c)
    ensures Lexed(Print(c) + [END])
    ensures Whole(num, Print(c) + [END]) == Ok(c, |Print(c)|)
  {
    PrintedIsLexed(num, c);
    var ts := Print(c) + [END];
    assert ts[0..0 + |Print(c)|] == Print(c);
    ClimbComplete(num, ts, 0, c, 0);
  }

  /** Printing an expression with only the required brackets and parsing it gives it back. */
  lemma RoundTrip(num: NumberParser, fmt: NumberPrinter, e: Expr)
    requires Printable(num, fmt, e)
    ensures WellFormed(num, Minimal(fmt, e)) && Lexed(Print(Minimal(fmt, e)) + [END])
    ensures var r := Whole(num, Print(Minimal(fmt, e)) + [END]);
            r.Ok? && r.pos == |Print(Minimal(fmt, e))| && WellFormed(num, r.value) && Ast(num, r.value) == e
  {
    MinimalMeans(num, fmt, e);
    ParsePrint(num, Minimal(fmt, e));
  }

  lemma SliceOccurs(ts: seq<Token>, pos: nat, end: nat, part: seq<Token>)
    requires pos <= end <= |ts| && part == ts[pos..end]
    ensures Occurs(ts, pos, part) && pos + |part| == end
  {
  }

  /** The parser accepts exactly what the grammar writes: it reads a tree and stops if and only if
      the text up to there is that of the tree and the next token does not carry it on. */
  lemma AcceptsGrammar(num: NumberParser, ts: seq<Token>, pos: nat, c: Cst, end: nat)
    requires Lexed(ts) && pos <= end < |ts|
    ensures Climb(num, ts, pos, 0) == Ok(c, end) <==>
            WellFormed(num, c) && Print(c) == ts[pos..end] && Ends(c, ts[end]) && !Extends(ts[end], 0)
  {
    hide Lexed, WellFormed, Ends, Extends, Climb, Print, Level, Occurs;
    if Climb(num, ts, pos, 0) == Ok(c, end) { ClimbSound(num, ts, pos, 0); }
    if WellFormed(num, c) && Print(c) == ts[pos..end] && Ends(c, ts[end]) && !Extends(ts[end], 0) {
      SliceOccurs(ts, pos, end, Print(c));
      ClimbComplete(num, ts, pos, c, 0);
    }
  }

  lemma Unambiguous(num: NumberParser, a: Cst, b: Cst)
    requires WellFormed(num, a) && WellFormed(num, b) && Print(a) == Print(b)
    ensures a == b
  {
    ParsePrint(num, a);
    ParsePrint(num, b);
  }
}
