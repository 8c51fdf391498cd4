/** Small notions shared by all parts: optional values, sizes of sets, occurrences in a sequence. */
module Collections {
  datatype Option<+T> = None | Some(value: T)

  lemma SubsetSize<T>(a: set<T>, b: set<T>)
    requires a <= b
    ensures |a| <= |b|
  {
    assert b == a + (b - a);
  }

  /** The part stands at this position. */
  predicate Occurs<T(==)>(s: seq<T>, at: nat, part: seq<T>) {
    at + |part| <= |s| && s[at..at + |part|] == part
  }

  lemma OccursSplit<T>(s: seq<T>, at: nat, x: seq<T>, y: seq<T>)
    requires Occurs(s, at, x + y)
    ensures Occurs(s, at, x) && Occurs(s, at + |x|, y)
  {
    assert x == (x + y)[..|x|] && y == (x + y)[|x|..];
    assert s[at..at + |x|] == s[at..at + |x + y|][..|x|];
    assert s[at + |x|..at + |x + y|] == s[at..at + |x + y|][|x|..];
  }
}
