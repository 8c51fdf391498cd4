/** The string operations the store and the event ring rely on: splitting a path at
    slashes, joining it again, and asking whether one path lies under another. */
module Text {

  predicate SlashFree(s: string) {
    '/' !in s
  }

  predicate AllSlashFree(parts: seq<string>) {
    forall i :: 0 <= i < |parts| ==> SlashFree(parts[i])
  }

  /** Splits at every slash; the result is never empty. */
  function Split(s: string): (parts: seq<string>)
    ensures |parts| >= 1
    ensures AllSlashFree(parts)
  {
    if s == "" then [""]
    else
      var rest := Split(s[1..]);
      if s[0] == '/' then [""] + rest else [[s[0]] + rest[0]] + rest[1..]
  }

  function Join(parts: seq<string>): string
  {
    if parts == [] then ""
    else if |parts| == 1 then parts[0]
    else parts[0] + "/" + Join(parts[1..])
  }

  /** p names q itself or something below it. */
  predicate Under(p: string, q: string) {
    p == q || q + "/" <= p
  }

  /** Removes leading and trailing slashes. */
  function Trim(s: string): string
    decreases |s|
  {
    if s == "" then ""
    else if s[0] == '/' then Trim(s[1..])
    else if s[|s| - 1] == '/' then Trim(s[..|s| - 1])
    else s
  }

  lemma {:induction false} JoinSplit(s: string)
    ensures Join(Split(s)) == s
  {
    if s != "" {
      JoinSplit(s[1..]);
      var rest := Split(s[1..]);
      if s[0] == '/' {
        assert Split(s)[1..] == rest;
      } else if |rest| > 1 {
        assert Split(s)[1..] == rest[1..];
      }
    }
  }

  lemma {:induction false} SplitWhole(s: string)
    requires SlashFree(s)
    ensures Split(s) == [s]
  {
    if s != "" {
      SplitWhole(s[1..]);
      assert s[0] in s;
      assert s == [s[0]] + s[1..];
    }
  }

  /** Splitting off the first character, as the definition does it. */
  lemma SplitStep(c: char, s: string)
    ensures Split([c] + s) == if c == '/' then [""] + Split(s) else [[c] + Split(s)[0]] + Split(s)[1..]
  {
    assert ([c] + s)[1..] == s;
  }

  lemma FirstPart(c: char, x: seq<string>, y: seq<string>)
    requires x != []
    ensures [""] + (x + y) == [""] + x + y
    ensures [[c] + (x + y)[0]] + (x + y)[1..] == [[c] + x[0]] + x[1..] + y
  {
  }

  lemma {:induction false} SplitConcat(a: string, b: string)
    ensures Split(a + "/" + b) == Split(a) + Split(b)
  {
    hide Split;
    if a == "" {
      assert a + "/" + b == ['/'] + b;
      SplitStep('/', b);
      SplitWhole(a);
    } else {
      var c, tail := a[0], a[1..] + "/" + b;
      assert a == [c] + a[1..] && a + "/" + b == [c] + tail;
      SplitStep(c, a[1..]);
      SplitStep(c, tail);
      SplitConcat(a[1..], b);
      FirstPart(c, Split(a[1..]), Split(b));
    }
  }

  lemma {:induction false} JoinConcat(a: seq<string>, b: seq<string>)
    requires a != [] && b != []
    ensures Join(a + b) == Join(a) + "/" + Join(b)
  {
    if |a| == 1 {
      assert (a + b)[1..] == b;
    } else {
      JoinConcat(a[1..], b);
      assert (a + b)[1..] == a[1..] + b;
    }
  }

  /** Splitting and joining are inverse on slash-free parts. */
  lemma {:induction false} SplitJoin(parts: seq<string>)
    requires parts != [] && AllSlashFree(parts)
    ensures Split(Join(parts)) == parts
  {
    SplitWhole(parts[0]);
    if |parts| > 1 {
      SplitJoin(parts[1..]);
      SplitConcat(parts[0], Join(parts[1..]));
    }
  }

  lemma SplitInjective(a: string, b: string)
    requires Split(a) == Split(b)
    ensures a == b
  {
    JoinSplit(a);
    JoinSplit(b);
  }

  /** Lying under a path is having its parts as a prefix: the slash in the test keeps
      "room/eg2" from counting as under "room/eg". */
  lemma UnderIsPrefix(p: string, q: string)
    ensures Under(p, q) <==> Split(q) <= Split(p)
  {
    hide Split, Join;
    JoinSplit(p);
    JoinSplit(q);
    if q + "/" <= p {
      var tail := p[|q| + 1..];
      assert p == q + "/" + tail;
      SplitConcat(q, tail);
    }
    if Split(q) <= Split(p) && Split(q) != Split(p) {
      var rest := Split(p)[|Split(q)|..];
      assert Split(p) == Split(q) + rest;
      JoinConcat(Split(q), rest);
    }
  }

  /** Replacing the prefix `from` by `to` in a path under `from` replaces its parts. */
  lemma RebaseParts(p: string, from: string, to: string)
    requires Under(p, from)
    ensures |from| <= |p|
    ensures Split(from) <= Split(p)
    ensures Split(to + p[|from|..]) == Split(to) + Split(p)[|Split(from)|..]
  {
    UnderIsPrefix(p, from);
    if p == from {
      assert to + p[|from|..] == to;
    } else {
      var tail := p[|from| + 1..];
      assert p == from + "/" + tail;
      assert to + p[|from|..] == to + "/" + tail;
      SplitConcat(from, tail);
      SplitConcat(to, tail);
    }
  }
}
