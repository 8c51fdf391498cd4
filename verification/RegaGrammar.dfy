/** Tokens, syntax trees and the expression grammar of ReGa scripts. A concrete tree keeps
    the parentheses and call brackets of the text; `Print` writes it out as tokens. */
module RegaGrammar {
  import opened Collections

  datatype Kind = EndOfFile | Word | Number | Text | Operator | Punct

  datatype Token = Token(kind: Kind, text: string)

  /** The library's number parser. */
  type NumberParser = string -> Option<real>

  datatype Expr =
    | StringLit(s: string)
    | NumberLit(n: real)
    | BoolLit(b: bool)
    | Ident(name: string)
    | Ref(name: string)
    | Unary(op: string, operand: Expr)
    | Binary(op: string, left: Expr, right: Expr)
    | Call(name: string, args: seq<Expr>)
    | Member(receiver: Expr, name: string, args: seq<Expr>)

  datatype Stmt =
    | Decl(typeName: string, name: string, init: Option<Expr>)
    | Assign(name: string, value: Expr)
    | Eval(value: Expr)
    | If(cond: Expr, then_: seq<Stmt>, els: seq<Stmt>)
    | Foreach(variable: string, list: Expr, body: seq<Stmt>)
    | While(cond: Expr, body: seq<Stmt>)

  datatype Cst =
    | CString(s: string)
    | CNumber(digits: string)
    | CBool(b: bool)
    | CIdent(name: string)
    | CRef(name: string)
    | CUnary(op: string, operand: Cst)
    | CBinary(op: string, left: Cst, right: Cst)
    | CCall(name: string, args: seq<Cst>)
    | CMember(receiver: Cst, name: string, called: bool, args: seq<Cst>)
    | CParen(inner: Cst)

  // ----- tokens -----

  predicate Letter(c: char) {
    'A' <= c <= 'Z' || 'a' <= c <= 'z' || c as int in {0xAA, 0xB5, 0xBA}
    || (0xC0 <= c as int <= 0xFF && c as int != 0xD7 && c as int != 0xF7)
  }

  predicate WordStart(c: char) { c == '_' || c == '$' || Letter(c) }

  predicate WordPart(c: char) { WordStart(c) || '0' <= c <= '9' }

  predicate IsWord(s: string) {
    s != "" && WordStart(s[0]) && forall i :: 0 <= i < |s| ==> WordPart(s[i])
  }

  predicate IsDigits(s: string) {
    s != "" && '0' <= s[0] <= '9' && forall i :: 0 <= i < |s| ==> '0' <= s[i] <= '9' || s[i] == '.'
  }

  predicate IsOperator(s: string) {
    s in {"==", "!=", "<=", ">=", "&&", "||", "<", ">", "=", "+", "-", "*", "/", "%", "#", "!", "&"}
  }

  predicate IsMark(s: string) { s in {"(", ")", "{", "}", ";", ",", "."} }

  predicate IsPrefix(op: string) { op == "!" || op == "-" }

  /** The lexemes the lexer emits before its end marker. */
  predicate Lexeme(t: Token) {
    match t.kind
    case EndOfFile => false
    case Word => IsWord(t.text)
    case Number => IsDigits(t.text)
    case Text => true
    case Operator => IsOperator(t.text)
    case Punct => IsMark(t.text)
  }

  /** Token streams: lexemes, then exactly one end marker. */
  predicate Lexed(ts: seq<Token>) {
    && ts != [] && ts[|ts| - 1] == END
    && forall i :: 0 <= i < |ts| - 1 ==> Lexeme(ts[i])
  }

  const END := Token(EndOfFile, "")

  function Op(s: string): Token { Token(Operator, s) }
  function Mark(s: string): Token { Token(Punct, s) }

  /** Matching by text, as long as the token is not a string literal. */
  predicate Is(t: Token, text: string) { t.text == text && t.kind != Text }

  // ----- precedence -----

  const UNARY := 8
  const POSTFIX := 9

  function Precedence(op: string): (p: Option<nat>)
    ensures p.Some? ==> 1 <= p.value <= 7
  {
    if op == "||" then Some(1)
    else if op == "&&" then Some(2)
    else if op in {"==", "!=", "<", ">", "<=", ">="} then Some(3)
    else if op == "#" then Some(4)
    else if op in {"+", "-"} then Some(5)
    else if op in {"*", "/", "%"} then Some(6)
    else if op == "&" then Some(7)
    else None
  }

  function Level(c: Cst): (l: nat)
    ensures l <= POSTFIX
  {
    match c
    case CBinary(op, _, _) => if Precedence(op).Some? then Precedence(op).value else 0
    case CUnary(_, _) => UNARY
    case CRef(_) => UNARY
    case _ => POSTFIX
  }

  predicate Plain(name: string) { IsWord(name) && name != "true" && name != "false" }

  /** A tree whose operands bind at least as tightly as the precedence table requires. */
  predicate WellFormed(num: NumberParser, c: Cst)
    decreases c, 1
  {
    match c
    case CString(_) => true
    case CNumber(digits) => IsDigits(digits) && num(digits).Some?
    case CBool(_) => true
    case CIdent(name) => Plain(name)
    case CRef(name) => IsWord(name)
    case CUnary(op, x) => IsPrefix(op) && Level(x) >= UNARY && WellFormed(num, x)
    case CBinary(op, l, r) =>
      && IsOperator(op) && Precedence(op).Some?
      && Level(l) >= Precedence(op).value && Level(r) > Precedence(op).value
      && WellFormed(num, l) && WellFormed(num, r)
    case CCall(name, args) => Plain(name) && WellFormedAll(num, args)
    case CMember(x, name, called, args) =>
      IsWord(name) && Level(x) == POSTFIX && WellFormed(num, x) && (args != [] ==> called) && WellFormedAll(num, args)
    case CParen(inner) => WellFormed(num, inner)
  }

  predicate WellFormedAll(num: NumberParser, cs: seq<Cst>)
    decreases cs, 0
  {
    cs == [] || (WellFormed(num, cs[0]) && WellFormedAll(num, cs[1..]))
  }

  /** The meaning of a tree: brackets are gone. */
  function Ast(num: NumberParser, c: Cst): Expr
    decreases c, 1
  {
    match c
    case CString(s) => StringLit(s)
    case CNumber(digits) => NumberLit(if num(digits).Some? then num(digits).value else 0.0)
    case CBool(b) => BoolLit(b)
    case CIdent(name) => Ident(name)
    case CRef(name) => Ref(name)
    case CUnary(op, x) => Unary(op, Ast(num, x))
    case CBinary(op, l, r) => Binary(op, Ast(num, l), Ast(num, r))
    case CCall(name, args) => Call(name, AstAll(num, args))
    case CMember(x, name, _, args) => Member(Ast(num, x), name, AstAll(num, args))
    case CParen(inner) => Ast(num, inner)
  }

  function AstAll(num: NumberParser, cs: seq<Cst>): (es: seq<Expr>)
    ensures |es| == |cs|
    decreases cs, 0
  {
    if cs == [] then [] else [Ast(num, cs[0])] + AstAll(num, cs[1..])
  }

  function Print(c: Cst): (ts: seq<Token>)
    ensures ts != []
    decreases c, 1
  {
    match c
    case CString(s) => [Token(Text, s)]
    case CNumber(digits) => [Token(Number, digits)]
    case CBool(b) => [Token(Word, if b then "true" else "false")]
    case CIdent(name) => [Token(Word, name)]
    case CRef(name) => [Op("&"), Token(Word, name)]
    case CUnary(op, x) => [Op(op)] + Print(x)
    case CBinary(op, l, r) => Print(l) + [Op(op)] + Print(r)
    case CCall(name, args) => [Token(Word, name), Mark("(")] + PrintArgs(args)
    case CMember(x, name, called, args) =>
      Print(x) + [Mark("."), Token(Word, name)] + (if called then [Mark("(")] + PrintArgs(args) else [])
    case CParen(inner) => [Mark("(")] + Print(inner) + [Mark(")")]
  }

  /** An argument list after its opening bracket, up to and with the closing one. */
  function PrintArgs(args: seq<Cst>): (ts: seq<Token>)
    ensures ts != []
    decreases args, 0
  {
    if args == [] then [Mark(")")]
    else if |args| == 1 then Print(args[0]) + [Mark(")")]
    else Print(args[0]) + [Mark(",")] + PrintArgs(args[1..])
  }

  /** The operand a text ends with. */
  function Tail(c: Cst): Cst {
    match c
    case CUnary(_, x) => Tail(x)
    case CBinary(_, _, r) => Tail(r)
    case _ => c
  }

  /** A binary operator that binds at least as tightly as min. */
  predicate Extends(t: Token, min: nat) {
    t.kind == Operator && Precedence(t.text).Some? && Precedence(t.text).value >= min
  }

  predicate Callable(c: Cst) { c.CIdent? || (c.CMember? && !c.called) }

  /** The token after a text does not carry its last operand on as a member or a call. A reference
      takes no member, and only a name without an argument list takes a call. */
  predicate Ends(c: Cst, t: Token) {
    (Tail(c).CRef? || !Is(t, ".")) && (Callable(Tail(c)) ==> !Is(t, "("))
  }

  // ----- the printer with only the brackets the precedence table requires -----

  type NumberPrinter = real -> string

  predicate Printable(num: NumberParser, fmt: NumberPrinter, e: Expr)
    decreases e, 1
  {
    match e
    case StringLit(_) => true
    case NumberLit(n) => IsDigits(fmt(n)) && num(fmt(n)) == Some(n)
    case BoolLit(_) => true
    case Ident(name) => Plain(name)
    case Ref(name) => IsWord(name)
    case Unary(op, x) => IsPrefix(op) && Printable(num, fmt, x)
    case Binary(op, l, r) => IsOperator(op) && Precedence(op).Some? && Printable(num, fmt, l) && Printable(num, fmt, r)
    case Call(name, args) => Plain(name) && PrintableAll(num, fmt, args)
    case Member(x, name, args) => IsWord(name) && Printable(num, fmt, x) && PrintableAll(num, fmt, args)
  }

  predicate PrintableAll(num: NumberParser, fmt: NumberPrinter, es: seq<Expr>)
    decreases es, 0
  {
    es == [] || (Printable(num, fmt, es[0]) && PrintableAll(num, fmt, es[1..]))
  }

  /** Brackets only where the tree binds more loosely than its place requires. */
  function Wrap(c: Cst, level: nat): Cst {
    if Level(c) >= level then c else CParen(c)
  }

  function Minimal(fmt: NumberPrinter, e: Expr): Cst
    decreases e, 1
  {
    match e
    case StringLit(s) => CString(s)
    case NumberLit(n) => CNumber(fmt(n))
    case BoolLit(b) => CBool(b)
    case Ident(name) => CIdent(name)
    case Ref(name) => CRef(name)
    case Unary(op, x) => CUnary(op, Wrap(Minimal(fmt, x), UNARY))
    case Binary(op, l, r) =>
      var p := if Precedence(op).Some? then Precedence(op).value else 0;
      CBinary(op, Wrap(Minimal(fmt, l), p), Wrap(Minimal(fmt, r), p + 1))
    case Call(name, args) => CCall(name, MinimalAll(fmt, args))
    case Member(x, name, args) => CMember(Wrap(Minimal(fmt, x), POSTFIX), name, args != [], MinimalAll(fmt, args))
  }

  function MinimalAll(fmt: NumberPrinter, es: seq<Expr>): (cs: seq<Cst>)
    ensures |cs| == |es|
    decreases es, 0
  {
    if es == [] then [] else [Minimal(fmt, es[0])] + MinimalAll(fmt, es[1..])
  }

  lemma {:induction false} MinimalMeans(num: NumberParser, fmt: NumberPrinter, e: Expr)
    requires Printable(num, fmt, e)
    ensures WellFormed(num, Minimal(fmt, e)) && Ast(num, Minimal(fmt, e)) == e
    decreases e, 1
  {
    hide IsOperator, IsWord, IsDigits, IsPrefix, Precedence, Plain;
    match e
    case Unary(op, x) => MinimalMeans(num, fmt, x);
    case Binary(op, l, r) =>
      MinimalMeans(num, fmt, l);
      MinimalMeans(num, fmt, r);
      BinaryMeans(num, fmt, op, l, r);
    case Call(name, args) => MinimalAllMeans(num, fmt, args);
    case Member(x, name, args) =>
      MinimalMeans(num, fmt, x);
      MinimalAllMeans(num, fmt, args);
      MemberMeans(num, fmt, x, name, args);
    case _ =>
  }

  lemma BinaryMeans(num: NumberParser, fmt: NumberPrinter, op: string, l: Expr, r: Expr)
    requires Printable(num, fmt, Binary(op, l, r))
    requires WellFormed(num, Minimal(fmt, l)) && Ast(num, Minimal(fmt, l)) == l
    requires WellFormed(num, Minimal(fmt, r)) && Ast(num, Minimal(fmt, r)) == r
    ensures var e := Binary(op, l, r); WellFormed(num, Minimal(fmt, e)) && Ast(num, Minimal(fmt, e)) == e
  {
    hide IsOperator, IsWord, IsDigits, IsPrefix, Precedence, Plain;
  }

  lemma MemberMeans(num: NumberParser, fmt: NumberPrinter, x: Expr, name: string, args: seq<Expr>)
    requires Printable(num, fmt, Member(x, name, args))
    requires WellFormed(num, Minimal(fmt, x)) && Ast(num, Minimal(fmt, x)) == x
    requires WellFormedAll(num, MinimalAll(fmt, args)) && AstAll(num, MinimalAll(fmt, args)) == args
    ensures var e := Member(x, name, args); WellFormed(num, Minimal(fmt, e)) && Ast(num, Minimal(fmt, e)) == e
  {
    hide IsOperator, IsWord, IsDigits, IsPrefix, Precedence, Plain;
  }

  lemma {:induction false} MinimalAllMeans(num: NumberParser, fmt: NumberPrinter, es: seq<Expr>)
    requires PrintableAll(num, fmt, es)
    ensures WellFormedAll(num, MinimalAll(fmt, es)) && AstAll(num, MinimalAll(fmt, es)) == es
    decreases es, 0
  {
    if es != [] {
      MinimalMeans(num, fmt, es[0]);
      MinimalAllMeans(num, fmt, es[1..]);
    }
  }

  /** No text of the same meaning is shorter: every bracket of the minimal form is required. */
  lemma {:induction false} MinimalIsShortest(num: NumberParser, fmt: NumberPrinter, c: Cst, level: nat)
    requires WellFormed(num, c) && level <= Level(c)
    ensures |Print(Wrap(Minimal(fmt, Ast(num, c)), level))| <= |Print(c)|
    decreases c, 1
  {
    hide IsOperator, IsWord, IsDigits, IsPrefix, Plain;
    match c
    case CUnary(op, x) =>
      MinimalIsShortest(num, fmt, x, UNARY);
      UnaryLength(num, fmt, op, x);
    case CBinary(op, l, r) =>
      MinimalIsShortest(num, fmt, l, Precedence(op).value);
      MinimalIsShortest(num, fmt, r, Precedence(op).value + 1);
      BinaryLength(num, fmt, op, l, r);
    case CCall(name, args) => ArgsAreShortest(num, fmt, args);
    case CMember(x, name, called, args) =>
      MinimalIsShortest(num, fmt, x, POSTFIX);
      ArgsAreShortest(num, fmt, args);
      MemberLength(num, fmt, x, name, called, args);
    case CParen(inner) => MinimalIsShortest(num, fmt, inner, 0);
    case _ =>
  }

  lemma UnaryLength(num: NumberParser, fmt: NumberPrinter, op: string, x: Cst)
    ensures var c := Minimal(fmt, Ast(num, CUnary(op, x)));
      && c == CUnary(op, Wrap(Minimal(fmt, Ast(num, x)), UNARY)) && Level(c) == UNARY
      && |Print(c)| == 1 + |Print(c.operand)| && |Print(CUnary(op, x))| == 1 + |Print(x)|
  {
    hide Wrap;
  }

  lemma MemberLength(num: NumberParser, fmt: NumberPrinter, x: Cst, name: string, called: bool, args: seq<Cst>)
    requires args != [] ==> called
    ensures var c, t := Minimal(fmt, Ast(num, CMember(x, name, called, args))), CMember(x, name, called, args);
      && c == CMember(Wrap(Minimal(fmt, Ast(num, x)), POSTFIX), name, args != [], MinimalAll(fmt, AstAll(num, args)))
      && |Print(c)| == |Print(c.receiver)| + 2 + (if args != [] then 1 + |PrintArgs(c.args)| else 0)
      && |Print(t)| == |Print(x)| + 2 + (if called then 1 + |PrintArgs(args)| else 0) && Level(c) == POSTFIX
  {
    hide Wrap, PrintArgs;
  }

  lemma BinaryLength(num: NumberParser, fmt: NumberPrinter, op: string, l: Cst, r: Cst)
    requires Precedence(op).Some?
    ensures var p, c := Precedence(op).value, Minimal(fmt, Ast(num, CBinary(op, l, r)));
      && c == CBinary(op, Wrap(Minimal(fmt, Ast(num, l)), p), Wrap(Minimal(fmt, Ast(num, r)), p + 1))
      && |Print(c)| == |Print(c.left)| + 1 + |Print(c.right)|
      && |Print(CBinary(op, l, r))| == |Print(l)| + 1 + |Print(r)| && Level(c) == Level(CBinary(op, l, r))
  {
    hide Wrap, IsOperator, Precedence;
  }

  lemma {:induction false} ArgsAreShortest(num: NumberParser, fmt: NumberPrinter, args: seq<Cst>)
    requires WellFormedAll(num, args)
    ensures |PrintArgs(MinimalAll(fmt, AstAll(num, args)))| <= |PrintArgs(args)|
    decreases args, 0
  {
    if args != [] {
      MinimalIsShortest(num, fmt, args[0], 0);
      ArgsAreShortest(num, fmt, args[1..]);
      var es := AstAll(num, args);
      assert es[1..] == AstAll(num, args[1..]);
      assert MinimalAll(fmt, es)[1..] == MinimalAll(fmt, es[1..]);
    }
  }
}
