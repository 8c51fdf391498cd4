/** Names of paired tokens: the slug made of a text, and the first suffix no token has yet. */
module TokenName {
  import opened Collections
  import opened Decimal

  const MAX_SLUG := 28

  predicate Alnum(c: char) { 'a' <= c <= 'z' || '0' <= c <= '9' }

  // ----- slugs -----

  predicate EndsDash(s: string) { s != "" && s[|s| - 1] == '-' }

  /** Runs of other characters as one dash, none in front. */
  function Squash(s: string): string {
    if s == "" then ""
    else
      var b, c := Squash(s[..|s| - 1]), s[|s| - 1];
      if Alnum(c) then b + [c] else if b != "" && !EndsDash(b) then b + "-" else b
  }

  function TrimDashes(s: string): string {
    if s == "" then ""
    else if s[0] == '-' then TrimDashes(s[1..])
    else if s[|s| - 1] == '-' then TrimDashes(s[..|s| - 1])
    else s
  }

  function Cut(s: string): string {
    if |s| > MAX_SLUG then TrimDashes(s[..MAX_SLUG]) else s
  }

  function Pad(s: string): string { if |s| < 2 then "app-" + s else s }

  /** The slug of a lower-cased text. */
  function Slug(s: string): string { Pad(Cut(TrimDashes(Squash(s)))) }

  method Slugify(lowered: string) returns (out: string)
    ensures out == Slug(lowered)
  {
    var b, dash := "", false;
    for i := 0 to |lowered|
      invariant b == Squash(lowered[..i]) && (dash <==> EndsDash(b))
    {
      assert lowered[..i + 1][..i] == lowered[..i];
      var r := lowered[i];
      if Alnum(r) {
        b := b + [r];
        dash := false;
        continue;
      }
      if !dash && |b| > 0 {
        b := b + "-";
        dash := true;
      }
    }
    assert lowered[..|lowered|] == lowered;
    out := TrimDashes(b);
    if |out| > MAX_SLUG { out := TrimDashes(out[..MAX_SLUG]); }
    if |out| < 2 { out := "app-" + out; }
  }

  /** Lower-case letters, digits and single dashes, none in front. */
  predicate Dashed(s: string) {
    && (forall i :: 0 <= i < |s| ==> Alnum(s[i]) || s[i] == '-')
    && (forall i :: 0 < i < |s| ==> Alnum(s[i - 1]) || Alnum(s[i]))
    && (s != "" ==> s[0] != '-')
  }

  predicate Clean(s: string) { Dashed(s) && !EndsDash(s) }

  lemma {:induction false} SquashDashed(s: string)
    ensures Dashed(Squash(s))
    ensures Squash(s) == "" <==> forall c :: c in s ==> !Alnum(c)
  {
    if s != "" {
      SquashDashed(s[..|s| - 1]);
      assert s == s[..|s| - 1] + [s[|s| - 1]];
    }
  }

  lemma TrimClean(s: string)
    requires Dashed(s)
    ensures var t := TrimDashes(s); Clean(t) && t <= s && |s| - 1 <= |t| && (t == "" <==> s == "")
  {
    if EndsDash(s) {
      var t := s[..|s| - 1];
      assert t != "" && Alnum(t[|t| - 1]);
      assert TrimDashes(t) == t;
    }
  }

  /** Two to 28 characters of [a-z0-9-], no double dash, no dash in front; a dash at the end only
      when the text held no letter or digit at all. */
  lemma SlugShape(s: string)
    ensures var r := Slug(s); 2 <= |r| <= MAX_SLUG && Dashed(r)
    ensures EndsDash(Slug(s)) <==> forall c :: c in s ==> !Alnum(c)
    ensures EndsDash(Slug(s)) ==> Slug(s) == "app-"
  {
    hide Squash, TrimDashes, Cut, Pad, Dashed, Clean, EndsDash;
    SquashDashed(s);
    TrimClean(Squash(s));
    var t := TrimDashes(Squash(s));
    CutClean(t);
    PadShape(Cut(t));
    assert EndsDash(Slug(s)) <==> Squash(s) == "";
  }

  lemma CutClean(t: string)
    requires Clean(t)
    ensures Clean(Cut(t)) && |Cut(t)| <= MAX_SLUG && (Cut(t) == "" <==> t == "")
  {
    hide TrimDashes;
    if |t| > MAX_SLUG {
      var front := t[..MAX_SLUG];
      assert Dashed(front) by { hide EndsDash; FrontDashed(t); }
      TrimClean(front);
    }
  }

  lemma FrontDashed(t: string)
    requires Dashed(t) && |t| > MAX_SLUG
    ensures Dashed(t[..MAX_SLUG])
  {
  }

  lemma PadShape(c: string)
    requires Clean(c) && |c| <= MAX_SLUG
    ensures 2 <= |Pad(c)| <= MAX_SLUG && Dashed(Pad(c)) && (EndsDash(Pad(c)) <==> c == "")
    ensures c == "" ==> Pad(c) == "app-"
  {
    if |c| == 1 {
      assert Alnum(c[0]) && Pad(c) == ['a', 'p', 'p', '-', c[0]];
    } else if c == "" {
      assert Pad(c) == "app-";
    }
  }

  lemma {:induction false} SquashOfDashed(s: string)
    requires Dashed(s)
    ensures Squash(s) == s
  {
    if s != "" {
      var t := s[..|s| - 1];
      assert s == t + [s[|s| - 1]];
      SquashOfDashed(t);
    }
  }

  /** A slug is its own slug, unless nothing of the text was usable. */
  lemma SlugStable(s: string)
    ensures Slug(Slug(s)) == Slug(s) <==> exists c :: c in s && Alnum(c)
  {
    SlugShape(s);
    var r := Slug(s);
    SquashOfDashed(r);
    TrimClean(r);
    if EndsDash(r) {
      assert |TrimDashes(r)| == 3;
    } else {
      assert TrimDashes(r) == r;
    }
  }

  // ----- the first free name -----

  /** The names tried, in order: the slug, then -2, -3, … */
  function Candidate(slug: string, n: nat): string {
    if n < 2 then slug else slug + "-" + FormatUint(n)
  }

  lemma CandidatesDiffer(slug: string, m: nat, n: nat)
    requires 1 <= m < n
    ensures Candidate(slug, m) != Candidate(slug, n)
  {
    if m >= 2 {
      ParseFormat(m);
      ParseFormat(n);
      var a, b := Candidate(slug, m), Candidate(slug, n);
      assert a[|slug| + 1..] == FormatUint(m) && b[|slug| + 1..] == FormatUint(n);
    }
  }

  function Tried(slug: string, n: nat): (names: set<string>) {
    set k | 1 <= k <= n :: Candidate(slug, k)
  }

  lemma {:induction false} TriedSize(slug: string, n: nat)
    ensures |Tried(slug, n)| == n
  {
    if n > 0 {
      TriedSize(slug, n - 1);
      forall k | 1 <= k < n ensures Candidate(slug, k) != Candidate(slug, n) { CandidatesDiffer(slug, k, n); }
      assert Tried(slug, n) == Tried(slug, n - 1) + {Candidate(slug, n)};
    }
  }

  /** Among |taken| + 1 candidates one is free. */
  lemma SomeFree(taken: set<string>, slug: string)
    ensures exists n :: 1 <= n <= |taken| + 1 && Candidate(slug, n) !in taken
  {
    if forall n :: 1 <= n <= |taken| + 1 ==> Candidate(slug, n) in taken {
      TriedSize(slug, |taken| + 1);
      SubsetSize(Tried(slug, |taken| + 1), taken);
    }
  }

  ghost predicate FirstFree(taken: set<string>, slug: string, name: string) {
    && name !in taken
    && exists n ::
      && 1 <= n <= |taken| + 1 && name == Candidate(slug, n)
      && forall k :: 1 <= k < n ==> Candidate(slug, k) in taken
  }

  function FreeFrom(taken: set<string>, slug: string, n: nat): (name: string)
    requires 1 <= n <= |taken| + 1 && forall k :: 1 <= k < n ==> Candidate(slug, k) in taken
    ensures FirstFree(taken, slug, name)
    decreases |taken| + 1 - n
  {
    SomeFree(taken, slug);
    if Candidate(slug, n) !in taken then Candidate(slug, n) else FreeFrom(taken, slug, n + 1)
  }

  function FreeName(taken: set<string>, slug: string): (name: string)
    ensures FirstFree(taken, slug, name)
  {
    FreeFrom(taken, slug, 1)
  }

  lemma FirstFreeUnique(taken: set<string>, slug: string, a: string, b: string)
    requires FirstFree(taken, slug, a) && FirstFree(taken, slug, b)
    ensures a == b
  {
    var m :| 1 <= m <= |taken| + 1 && a == Candidate(slug, m) && forall k :: 1 <= k < m ==> Candidate(slug, k) in taken;
    var n :| 1 <= n <= |taken| + 1 && b == Candidate(slug, n) && forall k :: 1 <= k < n ==> Candidate(slug, k) in taken;
    assert m == n;
  }

  method FindFree(taken: set<string>, slug: string) returns (name: string)
    ensures FirstFree(taken, slug, name)
  {
    name := slug;
    var n := 2;
    TriedSize(slug, 0);
    while name in taken
      invariant n >= 2 && name == Candidate(slug, n - 1)
      invariant forall k :: 1 <= k < n - 1 ==> Candidate(slug, k) in taken
      invariant n <= |taken| + 2
      decreases |taken| + 2 - n
    {
      TriedSize(slug, n - 1);
      SubsetSize(Tried(slug, n - 1), taken);
      name := slug + "-" + FormatUint(n);
      n := n + 1;
    }
  }

  // ----- the token table -----

  datatype Entry = Entry(name: string, scopes: seq<string>)

  type Table = map<string, Entry>

  function TakenNames(tokens: Table): set<string> { set secret | secret in tokens :: tokens[secret].name }

  predicate NamesUnique(tokens: Table) {
    forall a, b :: a in tokens && b in tokens && tokens[a].name == tokens[b].name ==> a == b
  }

  class Tokens {
    var tokens: Table

    constructor ()
      ensures tokens == map[]
    {
      tokens := map[];
    }

    /** The new token gets the first free name for its text. */
    method AddPairedToken(secret: string, lowered: string, scopes: seq<string>) returns (name: string)
      modifies this
      ensures name == FreeName(TakenNames(old(tokens)), Slug(lowered))
      ensures tokens == old(tokens)[secret := Entry(name, scopes)]
    {
      var slug := Slugify(lowered);
      var taken := {};
      var left := tokens.Keys;
      while left != {}
        invariant left <= tokens.Keys
        invariant taken == set k | k in tokens && k !in left :: tokens[k].name
      {
        var k :| k in left;
        taken := taken + {tokens[k].name};
        left := left - {k};
      }
      assert taken == TakenNames(tokens);
      name := FindFree(taken, slug);
      FirstFreeUnique(taken, slug, name, FreeName(taken, slug));
      tokens := tokens[secret := Entry(name, scopes)];
    }
  }

  /** Names stay unique however many tokens are paired. */
  lemma AddKeepsUnique(tokens: Table, secret: string, slug: string, name: string, scopes: seq<string>)
    requires NamesUnique(tokens) && FirstFree(TakenNames(tokens), slug, name)
    ensures NamesUnique(tokens[secret := Entry(name, scopes)])
  {
    assert forall k :: k in tokens ==> tokens[k].name in TakenNames(tokens);
  }

  /** A text without a letter or digit. */
  lemma SlugOfNothing()
    ensures Slug("!") == "app-" && Slug("app-") == "app"
  {
    SlugOfMark();
    var s := "app-";
    assert Dashed(s);
    SquashOfDashed(s);
    assert s[..3] == "app" && TrimDashes("app") == "app";
  }

  lemma SlugOfMark()
    ensures Slug("!") == "app-"
  {
    assert "!"[..0] == "" && Squash("!") == "";
    SlugShape("!");
  }
}
