/** The statement grammar of ReGa scripts. A tree keeps what the text leaves open: stray and missing
    semicolons, braces or none, and the two spellings of an else branch that is an if. */
module RegaScript {
  import opened Collections
  import opened RegaGrammar

  datatype CStmt =
    | CDecl(typeName: string, name: string, init: Option<Cst>, semi: bool)
    | CAssign(name: string, value: Cst, semi: bool)
    | CEval(value: Cst, semi: bool)
    | CIf(cond: Cst, then_: CBlock, els: CElse)
    | CForeach(variable: Token, list: Cst, body: CBlock)
    | CWhile(cond: Cst, body: CBlock)

  /** A statement and the semicolons in front of it. */
  datatype CItem = CItem(skips: nat, s: CStmt)

  /** Missing is a body that the end of the script cuts off. */
  datatype CBlock = Braced(items: seq<CItem>) | Single(item: CItem) | Missing(skips: nat)

  datatype CElse = NoElse | Else(block: CBlock) | ElseIf(joined: bool, nested: CStmt)

  datatype CScript = CScript(items: seq<CItem>, skips: nat)

  predicate DeclType(s: string) {
    s in {"string", "integer", "boolean", "bool", "object", "var", "idarray", "time", "real", "float"}
  }

  predicate Keyword(s: string) { s in {"if", "foreach", "while"} }

  predicate ElseWord(t: Token) { Is(t, "else") || Is(t, "elseif") }

  // ----- text -----

  function Semis(n: nat): (ts: seq<Token>)
    ensures |ts| == n
  {
    if n == 0 then [] else [Mark(";")] + Semis(n - 1)
  }

  function Ending(semi: bool): seq<Token> { if semi then [Mark(";")] else [] }

  function Head(word: string, e: Cst): seq<Token> {
    [Token(Word, word), Mark("(")] + (Print(e) + [Mark(")")])
  }

  function PrintStmt(s: CStmt): (ts: seq<Token>)
    ensures ts != []
    decreases s, 1
  {
    match s
    case CDecl(typeName, name, init, semi) =>
      [Token(Word, typeName), Token(Word, name)]
      + ((if init.Some? then [Op("=")] + Print(init.value) else []) + Ending(semi))
    case CAssign(name, e, semi) => [Token(Word, name), Op("=")] + (Print(e) + Ending(semi))
    case CEval(e, semi) => Print(e) + Ending(semi)
    case CIf(cond, then_, els) => Head("if", cond) + (PrintBlock(then_) + PrintElse(els))
    case CForeach(variable, list, body) =>
      [Token(Word, "foreach"), Mark("("), variable, Mark(",")] + ((Print(list) + [Mark(")")]) + PrintBlock(body))
    case CWhile(cond, body) => Head("while", cond) + PrintBlock(body)
  }

  function PrintItem(i: CItem): (ts: seq<Token>)
    ensures |ts| > i.skips
    decreases i, 1
  {
    Semis(i.skips) + PrintStmt(i.s)
  }

  function PrintItems(items: seq<CItem>): seq<Token>
    decreases items, 0
  {
    if items == [] then [] else PrintItem(items[0]) + PrintItems(items[1..])
  }

  function PrintBlock(b: CBlock): seq<Token>
    decreases b, 1
  {
    match b
    case Braced(items) => [Mark("{")] + (PrintItems(items) + [Mark("}")])
    case Single(item) => PrintItem(item)
    case Missing(skips) => Semis(skips)
  }

  function PrintElse(e: CElse): seq<Token>
    decreases e, 1
  {
    match e
    case NoElse => []
    case Else(block) => [Token(Word, "else")] + PrintBlock(block)
    case ElseIf(joined, nested) =>
      // The nested if is spelled with its own word only after a separate else.
      if joined then [Token(Word, "elseif")] + PrintStmt(nested)[1..]
      else [Token(Word, "else")] + PrintStmt(nested)
  }

  function PrintScript(s: CScript): seq<Token> { PrintItems(s.items) + Semis(s.skips) }

  // ----- what may follow -----

  /** The token that follows when this text and then t are still to come. */
  function Next(text: seq<Token>, t: Token): Token { if text == [] then t else text[0] }

  /** An expression at the end of a statement: t neither carries it on nor is taken for its semicolon. */
  predicate Closes(e: Cst, semi: bool, t: Token) {
    semi || (!Is(t, ";") && !Extends(t, 0) && Ends(e, t))
  }

  /** A bare expression is not taken for a declaration, an assignment or a keyword statement. */
  predicate Bare(first: Token, second: Token) {
    first.kind == Word ==>
      !Keyword(first.text) && !(DeclType(first.text) && second.kind == Word) && !Is(second, "=")
  }

  /** The statement is written as the parser reads it when t comes next. */
  predicate Good(num: NumberParser, s: CStmt, t: Token)
    decreases s, 1
  {
    match s
    case CDecl(typeName, name, None, semi) =>
      DeclType(typeName) && IsWord(name) && (!semi ==> !Is(t, "=") && !Is(t, ";"))
    case CDecl(typeName, name, Some(e), semi) =>
      DeclType(typeName) && IsWord(name) && WellFormed(num, e) && Closes(e, semi, t)
    case CAssign(name, e, semi) => IsWord(name) && !Keyword(name) && WellFormed(num, e) && Closes(e, semi, t)
    case CEval(e, semi) =>
      && WellFormed(num, e) && Closes(e, semi, t)
      && Bare(Print(e)[0], Next(Print(e)[1..] + Ending(semi), t))
    case CIf(cond, then_, els) =>
      && WellFormed(num, cond) && GoodBlock(num, then_, Next(PrintElse(els), t)) && GoodElse(num, els, t)
    case CForeach(variable, list, body) => Lexeme(variable) && WellFormed(num, list) && GoodBlock(num, body, t)
    case CWhile(cond, body) => WellFormed(num, cond) && GoodBlock(num, body, t)
  }

  predicate GoodItems(num: NumberParser, items: seq<CItem>, t: Token)
    decreases items, 0
  {
    items == [] || (GoodItem(num, items[0], Next(PrintItems(items[1..]), t)) && GoodItems(num, items[1..], t))
  }

  predicate GoodItem(num: NumberParser, i: CItem, t: Token)
    decreases i, 1
  {
    Good(num, i.s, t)
  }

  predicate GoodBlock(num: NumberParser, b: CBlock, t: Token)
    decreases b, 1
  {
    match b
    case Braced(items) => GoodItems(num, items, Mark("}"))
    case Single(item) => GoodItem(num, item, t)
    case Missing(_) => t.kind == EndOfFile
  }

  predicate GoodElse(num: NumberParser, e: CElse, t: Token)
    decreases e, 1
  {
    match e
    case NoElse => !ElseWord(t)
    case Else(block) => GoodBlock(num, block, t) && !Is(Next(PrintBlock(block), t), "if")
    case ElseIf(_, nested) => nested.CIf? && Good(num, nested, t)
  }

  predicate GoodScript(num: NumberParser, s: CScript) {
    GoodItems(num, s.items, Next(Semis(s.skips), END))
  }

  // ----- meaning -----

  function AstStmt(num: NumberParser, s: CStmt): Stmt
    decreases s, 1
  {
    match s
    case CDecl(typeName, name, init, _) =>
      Decl(typeName, name, if init.Some? then Some(Ast(num, init.value)) else None)
    case CAssign(name, e, _) => Assign(name, Ast(num, e))
    case CEval(e, _) => Eval(Ast(num, e))
    case CIf(cond, then_, els) => If(Ast(num, cond), AstBlock(num, then_), AstElse(num, els))
    case CForeach(variable, list, body) => Foreach(variable.text, Ast(num, list), AstBlock(num, body))
    case CWhile(cond, body) => While(Ast(num, cond), AstBlock(num, body))
  }

  function AstItems(num: NumberParser, items: seq<CItem>): (ss: seq<Stmt>)
    ensures |ss| == |items|
    decreases items, 0
  {
    if items == [] then [] else [AstItem(num, items[0])] + AstItems(num, items[1..])
  }

  function AstItem(num: NumberParser, i: CItem): Stmt
    decreases i, 1
  {
    AstStmt(num, i.s)
  }

  function AstBlock(num: NumberParser, b: CBlock): seq<Stmt>
    decreases b, 1
  {
    match b
    case Braced(items) => AstItems(num, items)
    case Single(item) => [AstItem(num, item)]
    case Missing(_) => []
  }

  function AstElse(num: NumberParser, e: CElse): seq<Stmt>
    decreases e, 1
  {
    match e
    case NoElse => []
    case Else(block) => AstBlock(num, block)
    case ElseIf(_, nested) => [AstStmt(num, nested)]
  }
}
