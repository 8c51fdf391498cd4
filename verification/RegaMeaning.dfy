/** The meaning of scripts as derivations: one rule for every form of statement and expression, with
    its own account of truth, numbers, text and operators. A run of the interpreter is exactly what
    a derivation says. */
module RegaMeaning {
  import opened Collections
  import opened RegaGrammar
  import opened RegaInterp

  /** What a script reads and changes: its variables, its output, and the questions asked so far. */
  datatype Env = Env(vars: map<string, Value>, out: string, tick: nat)

  const START := Env(map[], "", 0)

  function EnvOf(s: State): Env { Env(s.vars, s.out, s.tick) }

  function Bind(e: Env, name: string, v: Value): Env { e.(vars := e.vars[name := v]) }

  function Asked(e: Env): Env { e.(tick := e.tick + 1) }

  // ----- truth, numbers and text -----

  /** False are false itself, zero, no object, and whatever is empty or says "false". */
  predicate IsTrue(w: World, v: Value) {
    && v != Bool(false) && v != Num(0.0) && v != Null && v != List([]) && v != Str("")
    && !(v.Str? && w.fold(v.s, "false"))
  }

  lemma TruthIs(w: World, v: Value)
    ensures Truth(w, v) <==> IsTrue(w, v)
  {
  }

  /** What counts as a number without doubt: numbers, true and false, and text that spells one. */
  predicate Spells(w: World, v: Value, n: real) {
    v == Num(n) || (v == Bool(true) && n == 1.0) || (v == Bool(false) && n == 0.0)
    || (v.Str? && w.parse(v.s) == Some(n))
  }

  /** A list counts as its length, anything else that spells no number as zero. */
  ghost predicate CountsAs(w: World, v: Value, n: real) {
    Spells(w, v, n)
    || ((forall m :: !Spells(w, v, m)) && n == if v.List? then |v.items| as real else 0.0)
  }

  lemma NumberIs(w: World, v: Value, n: real)
    ensures CountsAs(w, v, n) <==> n == NumberOf(w, v)
    ensures Numeric(w, v) <==> exists m :: Spells(w, v, m)
  {
    if Numeric(w, v) { assert Spells(w, v, NumberOf(w, v)); }
  }

  /** With tabs between them. */
  function Tabs(texts: seq<string>): string {
    if texts == [] then "" else if |texts| == 1 then texts[0] else texts[0] + "\t" + Tabs(texts[1..])
  }

  function AsText(w: World, tick: nat, v: Value): string {
    match v
    case Str(s) => s
    case Num(n) => w.format(n)
    case Bool(true) => "true"
    case Bool(false) => "false"
    case Null => ""
    case Obj(id) => w.naming(tick, id)
    case List(items) => Tabs(seq(|items|, i requires 0 <= i < |items| => AsText(w, tick, items[i])))
  }

  lemma {:induction false} TextIs(w: World, tick: nat, v: Value)
    ensures Rendered(w, tick, v) == AsText(w, tick, v)
    decreases v, 1
  {
    if v.List? { TextsAre(w, tick, v.items); }
  }

  function AsTexts(w: World, tick: nat, vs: seq<Value>): (texts: seq<string>)
    ensures |texts| == |vs|
  {
    seq(|vs|, i requires 0 <= i < |vs| => AsText(w, tick, vs[i]))
  }

  lemma {:induction false} TextsAre(w: World, tick: nat, vs: seq<Value>)
    ensures Tabbed(w, tick, vs) == Tabs(AsTexts(w, tick, vs))
    decreases vs, 0
  {
    if vs != [] {
      TextIs(w, tick, vs[0]);
      TextsAre(w, tick, vs[1..]);
      assert AsTexts(w, tick, vs)[1..] == AsTexts(w, tick, vs[1..]);
    }
  }

  /** The first word of a text ends before its first tab. */
  predicate WordEnd(s: string, k: nat) {
    0 < k <= |s| && (forall i :: 0 <= i < k ==> s[i] != '\t') && (k < |s| ==> s[k] == '\t')
  }

  /** A text is walked as the words its tabs separate; empty ones are left out. */
  ghost predicate Words(s: string, words: seq<Value>)
    decreases |s|
  {
    if s == "" then words == []
    else if s[0] == '\t' then Words(s[1..], words)
    else words != [] && exists k: nat :: WordEnd(s, k) && words[0] == Str(s[..k]) && Words(s[k..], words[1..])
  }

  /** What a foreach walks: the items of a list, the words of a text, nothing else. */
  ghost predicate Walks(v: Value, items: seq<Value>) {
    match v
    case List(list) => items == list
    case Str(s) => Words(s, items)
    case _ => items == []
  }

  /** The word read so far is put in front of what follows. */
  lemma {:induction false} PiecesAreWords(s: string, word: string, words: seq<Value>)
    requires forall i :: 0 <= i < |word| ==> word[i] != '\t'
    ensures Words(word + s, words) <==> words == Pieces(s, word)
    decreases |s|, |word|
  {
    if s == "" {
      assert word + s == word;
      if word != "" { LastWord(word, words); }
    } else if s[0] == '\t' {
      PiecesAreWords(s[1..], "", words);
      assert "" + s[1..] == s[1..];
      if word != "" {
        FirstWord(word, s, words);
        if words != [] {
          PiecesAreWords(s[1..], "", words[1..]);
          assert words == [words[0]] + words[1..];
        }
      } else {
        assert word + s == s;
      }
    } else {
      assert word + s == (word + [s[0]]) + s[1..];
      PiecesAreWords(s[1..], word + [s[0]], words);
    }
  }

  lemma LastWord(word: string, words: seq<Value>)
    requires word != "" && forall i :: 0 <= i < |word| ==> word[i] != '\t'
    ensures Words(word, words) <==> words == [Str(word)]
  {
    assert WordEnd(word, |word|) && word[..|word|] == word && word[|word|..] == "";
    if words != [] {
      assert Words("", words[1..]) <==> words[1..] == [];
      assert words == [words[0]] + words[1..];
    }
  }

  lemma FirstWord(word: string, s: string, words: seq<Value>)
    requires word != "" && (forall i :: 0 <= i < |word| ==> word[i] != '\t') && s != "" && s[0] == '\t'
    ensures Words(word + s, words) <==> words != [] && words[0] == Str(word) && Words(s[1..], words[1..])
  {
    var t := word + s;
    assert WordEnd(t, |word|) && t[..|word|] == word && t[|word|..] == s;
    forall k | WordEnd(t, k) ensures k == |word| {
    }
  }

  lemma ItemsAre(v: Value, items: seq<Value>)
    ensures Walks(v, items) <==> items == Items(v)
  {
    if v.Str? {
      PiecesAreWords(v.s, "", items);
      assert "" + v.s == v.s;
    }
  }

  // ----- operators -----

  /** An object equals itself only, no object whatever is none; truth is compared as truth, numbers
      as numbers, and anything else as text. */
  ghost predicate Same(w: World, tick: nat, a: Value, b: Value) {
    if a.Obj? || b.Obj? then a == b
    else if a.Null? || b.Null? then true
    else if a.Bool? || b.Bool? then IsTrue(w, a) == IsTrue(w, b)
    else if (exists n :: Spells(w, a, n)) && (exists n :: Spells(w, b, n)) then
      exists n :: Spells(w, a, n) && Spells(w, b, n)
    else AsText(w, tick, a) == AsText(w, tick, b)
  }

  lemma SameIs(w: World, tick: nat, a: Value, b: Value)
    ensures Equal(w, tick, a, b) <==> Same(w, tick, a, b)
  {
    hide AsText, Rendered;
    TruthIs(w, a);
    TruthIs(w, b);
    TextIs(w, tick, a);
    TextIs(w, tick, b);
    NumberIs(w, a, NumberOf(w, a));
    NumberIs(w, b, NumberOf(w, b));
    if Numeric(w, a) && Numeric(w, b) && !a.Bool? && !b.Bool? {
      assert Spells(w, a, NumberOf(w, a)) && Spells(w, b, NumberOf(w, b));
    }
  }

  /** What the operators on numbers give. */
  predicate Reckons(w: World, op: string, a: real, b: real, v: Value) {
    match op
    case "<" => v == Bool(b > a)
    case ">" => v == Bool(a > b)
    case "<=" => v == Bool(!(a > b))
    case ">=" => v == Bool(!(b > a))
    case "+" => v.Num? && v.n - b == a
    case "-" => v.Num? && v.n + b == a
    case "*" => v.Num? && v.n == a * b
    case "/" => v.Num? && if b == 0.0 then v.n == 0.0 else Times(v.n, b, a)
    case "%" => v == Num(if b == 0.0 then 0.0 else w.mod(a, b))
    case "&" => v == Num(w.bits(a, b))
    case _ => false
  }

  predicate Times(q: real, b: real, a: real) { q * b == a }

  /** What an operator gives once both sides are looked at; no value at all for an unknown one. */
  ghost predicate Gives(w: World, tick: nat, op: string, l: Value, r: Value, v: Value) {
    if op == "&&" || op == "||" then v == Bool(IsTrue(w, r))
    else if op == "==" then v == Bool(Same(w, tick, l, r))
    else if op == "!=" then v == Bool(!Same(w, tick, l, r))
    else if op == "#" || (op == "+" && !((exists n :: Spells(w, l, n)) && (exists n :: Spells(w, r, n)))) then
      v == Str(AsText(w, tick, l) + AsText(w, tick, r))
    else exists a, b :: CountsAs(w, l, a) && CountsAs(w, r, b) && Reckons(w, op, a, b, v)
  }

  lemma Quotient(a: real, b: real, q: real)
    requires b != 0.0
    ensures Times(q, b, a) <==> q == a / b
  {
  }

  /** Every operator gives at most one value, the one the interpreter gives. */
  lemma OperatorIs(w: World, tick: nat, op: string, l: Value, r: Value, v: Value)
    ensures Operate(w, tick, op, l, r) == Some(v) <==> Gives(w, tick, op, l, r, v)
  {
    hide AsText, Rendered, Same, Equal, IsTrue, Truth, CountsAs, Numeric, Reckons, Arithmetic, NumberOf, Spells;
    SameIs(w, tick, l, r);
    TruthIs(w, r);
    TextIs(w, tick, l);
    TextIs(w, tick, r);
    var a, b := NumberOf(w, l), NumberOf(w, r);
    NumberIs(w, l, a);
    NumberIs(w, r, b);
    ReckonsOnly(w, op, l, r, v);
    ReckonsIs(w, op, a, b, v);
  }

  lemma ReckonsOnly(w: World, op: string, l: Value, r: Value, v: Value)
    ensures (exists a, b :: CountsAs(w, l, a) && CountsAs(w, r, b) && Reckons(w, op, a, b, v))
        <==> Reckons(w, op, NumberOf(w, l), NumberOf(w, r), v)
  {
    hide CountsAs, Reckons, NumberOf;
    forall x ensures CountsAs(w, l, x) <==> x == NumberOf(w, l) { NumberIs(w, l, x); }
    forall y ensures CountsAs(w, r, y) <==> y == NumberOf(w, r) { NumberIs(w, r, y); }
  }

  lemma ReckonsIs(w: World, op: string, a: real, b: real, v: Value)
    ensures Arithmetic(w, op, a, b) == Some(v) <==> Reckons(w, op, a, b, v)
  {
    if op == "/" && b != 0.0 && v.Num? { Quotient(a, b, v.n); }
    hide Times;
    if op == "-" {
      assert v.Num? ==> (v.n + b == a <==> v.n == a - b);
    } else if op == "+" {
      assert v.Num? ==> (v.n - b == a <==> v.n == a + b);
    }
  }
}
