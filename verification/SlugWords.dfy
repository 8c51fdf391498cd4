/** What a slug is made of: the words of the text, joined by single dashes. */
module SlugWords {
  import opened Decimal
  import opened TokenName

  predicate Usable(c: char) { 'a' <= c <= 'z' || '0' <= c <= '9' }

  predicate Word(s: string) { s != "" && forall i :: 0 <= i < |s| ==> Usable(s[i]) }

  predicate Gap(s: string) { forall i :: 0 <= i < |s| ==> !Usable(s[i]) }

  /** The words of a text, in order: its longest runs of usable characters. */
  ghost predicate Splits(s: string, words: seq<string>)
    decreases |words|
  {
    if words == [] then Gap(s)
    else
      var w, front := words[|words| - 1], words[..|words| - 1];
      exists i, j :: LastWord(s, i, j, w) && Splits(s[..i], front)
  }

  predicate LastWord(s: string, i: int, j: int, w: string) {
    0 <= i < j <= |s| && w == s[i..j] && Word(w) && Gap(s[j..]) && (i == 0 || !Usable(s[i - 1]))
  }

  function Joined(words: seq<string>): string {
    if words == [] then ""
    else if |words| == 1 then words[0]
    else Joined(words[..|words| - 1]) + "-" + words[|words| - 1]
  }

  predicate Ends(s: string) { s != "" && Usable(s[|s| - 1]) }

  /** Every text splits into words. */
  lemma {:induction false} SplitsSomehow(s: string) returns (words: seq<string>)
    ensures Splits(s, words)
  {
    if s == "" { return []; }
    hide Usable, Splits, LastWord, Ends, Gap;
    var t, c := s[..|s| - 1], s[|s| - 1];
    words := SplitsSomehow(t);
    if !Usable(c) {
      GapAfter(s, words);
    } else if Ends(t) {
      words := LongerWord(s, words);
    } else {
      NewWord(s, words);
      words := words + [[c]];
    }
  }

  lemma NewWord(s: string, words: seq<string>)
    requires s != "" && Usable(s[|s| - 1]) && !Ends(s[..|s| - 1]) && Splits(s[..|s| - 1], words)
    ensures Splits(s, words + [[s[|s| - 1]]])
  {
    hide Usable;
    var longer := words + [[s[|s| - 1]]];
    assert LastWord(s, |s| - 1, |s|, longer[|words|]);
    assert longer[..|longer| - 1] == words;
  }

  lemma SameCharacters()
    ensures forall c :: Usable(c) <==> Alnum(c)
  {
  }

  lemma LaterGap(s: string, i: int, j: int, w: string)
    requires s != "" && !Usable(s[|s| - 1]) && j < |s|
    ensures LastWord(s, i, j, w) <==> LastWord(s[..|s| - 1], i, j, w)
    ensures 0 <= i < j ==> s[..|s| - 1][..i] == s[..i]
  {
    hide Usable, Word;
    if 0 <= i < j {
      assert s[j..] == s[..|s| - 1][j..] + [s[|s| - 1]];
    }
  }

  lemma GapAfter(s: string, words: seq<string>)
    requires s != "" && !Usable(s[|s| - 1]) && Splits(s[..|s| - 1], words)
    ensures Splits(s, words)
  {
    hide Usable, Word;
    if words != [] {
      var t, w := s[..|s| - 1], words[|words| - 1];
      var i, j :| LastWord(t, i, j, w) && Splits(t[..i], words[..|words| - 1]);
      LaterGap(s, i, j, w);
      hide LastWord;
    }
  }

  lemma LastOf(s: string, j: int)
    ensures 0 <= j < |s| ==> s[j..][|s| - 1 - j] == s[|s| - 1]
  {
  }

  lemma LongerEnd(s: string, i: int, j: int, w: string)
    requires s != "" && Usable(s[|s| - 1]) && Ends(s[..|s| - 1]) && LastWord(s[..|s| - 1], i, j, w)
    ensures 0 <= i < j == |s| - 1 && LastWord(s, i, |s|, s[i..]) && s[..|s| - 1][..i] == s[..i]
  {
    var t, c := s[..|s| - 1], s[|s| - 1];
    LastOf(t, j);
    assert s[i..] == w + [c] && s[i..|s|] == s[i..] && s[|s|..] == "";
    assert i > 0 ==> s[i - 1] == t[i - 1];
  }

  lemma LongerWord(s: string, words: seq<string>) returns (longer: seq<string>)
    requires s != "" && Usable(s[|s| - 1]) && Ends(s[..|s| - 1]) && Splits(s[..|s| - 1], words)
    ensures Splits(s, longer)
  {
    hide Usable;
    var t := s[..|s| - 1];
    assert words != [];
    var w, front := words[|words| - 1], words[..|words| - 1];
    var i, j :| LastWord(t, i, j, w) && Splits(t[..i], front);
    LongerEnd(s, i, j, w);
    hide LastWord, Ends;
    longer := front + [s[i..]];
    assert longer[..|longer| - 1] == front && longer[|longer| - 1] == s[i..];
    assert Splits(s[..i], longer[..|longer| - 1]);
  }

  lemma JoinedAppend(words: seq<string>, w: string)
    ensures Joined(words + [w]) == if words == [] then w else Joined(words) + "-" + w
  {
    assert (words + [w])[..|words|] == words;
  }

  /** The squashed text is the words joined, and a dash where the text goes on after the last. */
  ghost predicate Squashed(s: string, words: seq<string>) {
    && Squash(s) == Joined(words) + (if words != [] && !Ends(s) then "-" else "")
    && (words != [] ==> Ends(Joined(words)))
  }

  lemma {:induction false} SquashIs(s: string, words: seq<string>)
    requires Splits(s, words)
    ensures Squashed(s, words)
  {
    if words == [] {
      NoWord(s);
    } else {
      var w, front := words[|words| - 1], words[..|words| - 1];
      var i, j :| LastWord(s, i, j, w) && Splits(s[..i], front);
      assert words == front + [w];
      hide Squashed, Ends, Joined, Squash, Splits, LastWord;
      if j < |s| {
        Shorter(s, words, i, j);
        SquashIs(s[..|s| - 1], words);
        AfterGap(s, words, i, j);
      } else if j - i > 1 {
        var v := ShorterWord(s, front, w, i);
        SquashIs(s[..|s| - 1], front + [v]);
        AfterLetter(s, front, v, w, i);
      } else {
        OneLetter(s, w, i);
        SquashIs(s[..i], front);
        AfterFirst(s, front, w, i);
      }
    }
  }

  lemma NoWord(s: string)
    requires Gap(s)
    ensures Squashed(s, [])
  {
    SameCharacters();
    SquashDashed(s);
  }

  lemma Shorter(s: string, words: seq<string>, i: int, j: int)
    requires words != [] && j < |s| && LastWord(s, i, j, words[|words| - 1]) && Splits(s[..i], words[..|words| - 1])
    ensures s != "" && Splits(s[..|s| - 1], words)
  {
    LastIsGap(s, i, j, words[|words| - 1]);
    LaterGap(s, i, j, words[|words| - 1]);
    hide LastWord;
  }

  lemma LastIsGap(s: string, i: int, j: int, w: string)
    requires LastWord(s, i, j, w) && j < |s|
    ensures 0 <= i < j && !Usable(s[|s| - 1])
  {
    hide Usable, Word;
    assert s[j..][|s| - 1 - j] == s[|s| - 1];
  }

  lemma AfterGap(s: string, words: seq<string>, i: int, j: int)
    requires words != [] && j < |s| && LastWord(s, i, j, words[|words| - 1]) && Squashed(s[..|s| - 1], words)
    ensures Squashed(s, words)
  {
    SameCharacters();
    hide Word, Joined;
    var t, whole := s[..|s| - 1], Joined(words);
    assert s[j..][|s| - 1 - j] == s[|s| - 1];
    assert EndsDash(whole + "-") && !EndsDash(whole);
    assert Squash(s) == whole + "-";
  }

  lemma ShorterWord(s: string, front: seq<string>, w: string, i: int) returns (v: string)
    requires i + 1 < |s| && LastWord(s, i, |s|, w) && Splits(s[..i], front)
    ensures v == w[..|w| - 1] && Splits(s[..|s| - 1], front + [v])
  {
    hide Usable;
    var t := s[..|s| - 1];
    v := w[..|w| - 1];
    assert t[..i] == s[..i] && t[i..|t|] == v && t[|t|..] == "";
    assert LastWord(t, i, |t|, v);
    assert (front + [v])[..|front|] == front && (front + [v])[|front|] == v;
  }

  lemma AfterLetter(s: string, front: seq<string>, v: string, w: string, i: int)
    requires i + 1 < |s| && LastWord(s, i, |s|, w) && v == w[..|w| - 1] && Squashed(s[..|s| - 1], front + [v])
    ensures Squashed(s, front + [w])
  {
    JoinedAppend(front, w);
    JoinedAppend(front, v);
    NextLetter(s, v, w, i);
    hide Joined, LastWord, Usable, Squash;
    var c := s[|s| - 1];
    assert Joined(front + [w]) == Joined(front + [v]) + [c];
  }

  lemma NextLetter(s: string, v: string, w: string, i: int)
    requires i + 1 < |s| && LastWord(s, i, |s|, w) && v == w[..|w| - 1]
    ensures var c := s[|s| - 1];
      Usable(c) && w == v + [c] && Squash(s) == Squash(s[..|s| - 1]) + [c] && Ends(s[..|s| - 1])
  {
    WordEnd(s, v, w, i);
    assert Usable(s[|s| - 1]) <==> Alnum(s[|s| - 1]);
    hide Usable, Alnum, LastWord;
  }

  lemma WordEnd(s: string, v: string, w: string, i: int)
    requires i + 1 < |s| && LastWord(s, i, |s|, w) && v == w[..|w| - 1]
    ensures Usable(s[|s| - 1]) && w == v + [s[|s| - 1]] && Ends(s[..|s| - 1])
  {
    hide Usable, Gap;
    var n := |s| - i;
    assert w == s[i..] && |w| == n;
    assert w[n - 1] == s[|s| - 1] && w[n - 2] == s[|s| - 2];
    assert Usable(w[n - 1]) && Usable(w[n - 2]);
  }

  lemma OneLetter(s: string, w: string, i: int)
    requires i + 1 == |s| && LastWord(s, i, |s|, w)
    ensures s[..|s| - 1] == s[..i] && w == [s[i]]
  {
  }

  lemma AfterFirst(s: string, front: seq<string>, w: string, i: int)
    requires i + 1 == |s| && LastWord(s, i, |s|, w) && w == [s[i]] && Squashed(s[..i], front)
    ensures Squashed(s, front + [w])
  {
    JoinedAppend(front, w);
    FirstLetter(s, w, i);
    assert Joined([]) == "";
    hide Joined, LastWord, Usable;
    var whole := Joined(front + [w]);
    assert whole[|whole| - 1] == w[0];
  }

  lemma FirstLetter(s: string, w: string, i: int)
    requires i + 1 == |s| && LastWord(s, i, |s|, w) && w == [s[i]]
    ensures Usable(s[i]) && Squash(s) == Squash(s[..i]) + w && !Ends(s[..i])
  {
    SameCharacters();
    var t := s[..i];
    assert s[..|s| - 1] == t && (i > 0 ==> t[i - 1] == s[i - 1]);
  }

  /** The slug of a lower-cased text: its words joined by dashes, cut after 28 characters and not at
      a dash, and led by "app-" when fewer than two characters are left. */
  lemma SlugIs(s: string, words: seq<string>)
    requires Splits(s, words)
    ensures var whole := Joined(words);
      var cut := if |whole| <= 28 then whole else if whole[27] == '-' then whole[..27] else whole[..28];
      Slug(s) == if |cut| < 2 then "app-" + cut else cut
  {
    SquashIs(s, words);
    SquashDashed(s);
    var whole := Joined(words);
    assert Ends(whole) ==> !EndsDash(whole);
    assert words == [] ==> whole == "";
    hide Squash, Joined, Splits, TrimDashes, Dashed, Ends;
    TrimmedIs(Squash(s), whole);
    if |whole| > 28 {
      hide EndsDash;
      FrontOf(whole);
    }
  }

  lemma FrontOf(whole: string)
    requires Dashed(whole) && |whole| > 28
    ensures TrimDashes(whole[..28]) == if whole[27] == '-' then whole[..27] else whole[..28]
  {
    FrontIsDashed(whole);
    hide Dashed;
    TrimmedIs(whole[..28], if whole[27] == '-' then whole[..27] else whole[..28]);
  }

  lemma FrontIsDashed(whole: string)
    requires Dashed(whole) && |whole| > 28
    ensures Dashed(whole[..28])
    ensures whole[27] == '-' ==> whole[..28] == whole[..27] + "-" && !EndsDash(whole[..27])
  {
  }

  lemma TrimmedIs(s: string, t: string)
    requires Dashed(s) && (s == t || s == t + "-") && !EndsDash(t) && (t == "" ==> s == "")
    ensures TrimDashes(s) == t && Dashed(t)
  {
    if s == t {
      assert TrimDashes(t) == t;
    } else {
      assert s[..|s| - 1] == t && TrimDashes(t) == t;
    }
  }

  // ----- the name of a token -----

  /** The slug, or the slug with a dash and the number. */
  predicate Nth(slug: string, n: nat, name: string) {
    if n == 1 then name == slug
    else slug <= name && |name| > |slug| && name[|slug|] == '-' && Numeral(n, name[|slug| + 1..])
  }

  lemma NthIs(slug: string, n: nat, name: string)
    requires n >= 1
    ensures Nth(slug, n, name) <==> name == Candidate(slug, n)
  {
    var own := slug + "-" + FormatUint(n);
    assert own[|slug|] == '-' && own[|slug| + 1..] == FormatUint(n);
    NumeralIs(n, FormatUint(n));
    if slug <= name && |name| > |slug| && name[|slug|] == '-' {
      NumeralIs(n, name[|slug| + 1..]);
      assert name == slug + "-" + name[|slug| + 1..];
    }
  }

  /** A paired token is named after its slug, or else with the smallest number from 2 on that gives a
      name no token has. */
  lemma NameIs(taken: set<string>, slug: string)
    ensures FreeName(taken, slug) !in taken
    ensures exists n :: n >= 1 && Nth(slug, n, FreeName(taken, slug)) && TakenBefore(taken, slug, n)
  {
    var name := FreeName(taken, slug);
    var n :|
      && 1 <= n <= |taken| + 1 && name == Candidate(slug, n)
      && forall k :: 1 <= k < n ==> Candidate(slug, k) in taken;
    NthIs(slug, n, name);
    forall k, other | 1 <= k < n && Nth(slug, k, other) ensures other in taken { NthIs(slug, k, other); }
  }

  ghost predicate TakenBefore(taken: set<string>, slug: string, n: int) {
    forall k, name :: 1 <= k < n && Nth(slug, k, name) ==> name in taken
  }
}
