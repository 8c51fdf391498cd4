/** Sets of names in ascending order, as every listing and event batch uses them. */
module Names {

  predicate Leq(a: string, b: string) {
    if a == "" then true
    else if b == "" then false
    else if a[0] != b[0] then a[0] < b[0]
    else Leq(a[1..], b[1..])
  }

  lemma {:induction false} LeqTotal(a: string, b: string)
    ensures Leq(a, b) || Leq(b, a)
    ensures Leq(a, b) && Leq(b, a) ==> a == b
  {
    if a != "" && b != "" && a[0] == b[0] {
      LeqTotal(a[1..], b[1..]);
      assert a == [a[0]] + a[1..] && b == [b[0]] + b[1..];
    }
  }

  lemma {:induction false} LeqTransitive(a: string, b: string, c: string)
    requires Leq(a, b) && Leq(b, c)
    ensures Leq(a, c)
  {
    if a != "" && b != "" && c != "" && a[0] == b[0] == c[0] {
      LeqTransitive(a[1..], b[1..], c[1..]);
    }
  }

  lemma {:induction false} HasLeast(s: set<string>) returns (least: string)
    requires s != {}
    ensures least in s && forall y :: y in s ==> Leq(least, y)
  {
    var x :| x in s;
    LeqTotal(x, x);
    if s == {x} {
      least := x;
    } else {
      var m := HasLeast(s - {x});
      LeqTotal(x, m);
      least := if Leq(x, m) then x else m;
      forall y | y in s ensures Leq(least, y) {
        if y != x && least == x { LeqTransitive(x, m, y); }
      }
    }
  }

  function Least(s: set<string>): (x: string)
    requires s != {}
    ensures x in s && forall y :: y in s ==> Leq(x, y)
  {
    assert exists x :: x in s && forall y :: y in s ==> Leq(x, y) by { var x := HasLeast(s); }
    assert forall x, x' | x in s && x' in s && Leq(x, x') && Leq(x', x) :: x == x' by {
      forall x, x' | x in s && x' in s && Leq(x, x') && Leq(x', x) ensures x == x' { LeqTotal(x, x'); }
    }
    var x :| x in s && forall y :: y in s ==> Leq(x, y);
    x
  }

  function Sorted(s: set<string>): (names: seq<string>)
    ensures forall x :: x in names <==> x in s
    ensures forall i, j :: 0 <= i < j < |names| ==> names[i] != names[j] && Leq(names[i], names[j])
    decreases |s|
  {
    if s == {} then []
    else
      var x := Least(s);
      [x] + Sorted(s - {x})
  }
}
