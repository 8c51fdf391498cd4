/** The node forest of one enum: lookup by node ids, the in-place edits as functions on
    values, and what each edit does to every lookup. */
module MetaTree {
  import opened Collections
  import opened Text

  datatype Node = Node(id: string, name: string, icon: string, children: seq<Node>)

  datatype Label = Label(name: string, icon: string)

  predicate DistinctIds(f: seq<Node>) {
    forall i, j :: 0 <= i < j < |f| ==> f[i].id != f[j].id
  }

  /** Sibling ids are unique, ids hold no slash, and no node lies deeper than `levels`. */
  predicate Good(f: seq<Node>, levels: nat)
    decreases levels
  {
    if levels == 0 then f == []
    else DistinctIds(f) && forall i :: 0 <= i < |f| ==> SlashFree(f[i].id) && Good(f[i].children, levels - 1)
  }

  /** The first position of id, or |f|. */
  function FindIndex(f: seq<Node>, id: string): (i: nat)
    ensures i <= |f|
    ensures i < |f| ==> f[i].id == id
    ensures forall j :: 0 <= j < i ==> f[j].id != id
  {
    if f == [] then 0
    else if f[0].id == id then 0
    else
      var i := FindIndex(f[1..], id);
      assert forall j :: 0 < j < i + 1 ==> f[j] == f[1..][j - 1];
      i + 1
  }

  function Resolve(f: seq<Node>, ids: seq<string>): Option<Node>
    decreases |ids|
  {
    if ids == [] then None
    else
      var i := FindIndex(f, ids[0]);
      if i == |f| then None
      else if |ids| == 1 then Some(f[i])
      else Resolve(f[i].children, ids[1..])
  }

  function LabelOf(n: Node): Label { Label(n.name, n.icon) }

  function LabelAt(f: seq<Node>, ids: seq<string>): Option<Label> {
    var n := Resolve(f, ids);
    if n.None? then None else Some(LabelOf(n.value))
  }

  /** A child list exists at the root and below every node. */
  predicate HasList(f: seq<Node>, ids: seq<string>) {
    ids == [] || Resolve(f, ids).Some?
  }

  function ListAt(f: seq<Node>, ids: seq<string>): seq<Node>
    requires HasList(f, ids)
  {
    if ids == [] then f else Resolve(f, ids).value.children
  }

  /** The forest with the child list below ids replaced. */
  function WithList(f: seq<Node>, ids: seq<string>, list: seq<Node>): seq<Node>
    requires HasList(f, ids)
    decreases |ids|
  {
    if ids == [] then list
    else
      var i := FindIndex(f, ids[0]);
      f[i := f[i].(children := WithList(f[i].children, ids[1..], list))]
  }

  function Max(a: int, b: int): int { if a >= b then a else b }

  /** 1 for a leaf. */
  function SubtreeDepth(n: Node): (d: nat)
    ensures d >= 1
  {
    1 + ForestDepth(n.children)
  }

  function ForestDepth(f: seq<Node>): nat {
    if f == [] then 0 else Max(SubtreeDepth(f[0]), ForestDepth(f[1..]))
  }

  function InsertAt(list: seq<Node>, n: Node, position: Option<int>): seq<Node> {
    var pos := if position.None? then |list| else Clamp(position.value, |list|);
    list[..pos] + [n] + list[pos..]
  }

  function Clamp(p: int, hi: nat): (r: nat)
    ensures r <= hi
  {
    if p < 0 then 0 else if p > hi then hi else p
  }

  function RemoveAt(list: seq<Node>, i: nat): seq<Node>
    requires i < |list|
  {
    list[..i] + list[i + 1..]
  }

  // ----- lookups in an edited list -----

  lemma FindIndexIs(f: seq<Node>, id: string, i: nat)
    requires i < |f| && f[i].id == id
    requires forall j :: 0 <= j < i ==> f[j].id != id
    ensures FindIndex(f, id) == i
  {
  }

  lemma FindIndexNone(f: seq<Node>, id: string)
    requires forall j :: 0 <= j < |f| ==> f[j].id != id
    ensures FindIndex(f, id) == |f|
  {
  }

  /** Where an id is found decides what is found, for every non-empty path. */
  lemma SameHead(f: seq<Node>, g: seq<Node>, ids: seq<string>)
    requires ids != []
    requires FindIndex(f, ids[0]) == |f| <==> FindIndex(g, ids[0]) == |g|
    requires FindIndex(f, ids[0]) < |f| ==> f[FindIndex(f, ids[0])] == g[FindIndex(g, ids[0])]
    ensures Resolve(f, ids) == Resolve(g, ids)
  {
  }

  lemma ResolveInserted(list: seq<Node>, n: Node, position: Option<int>, ids: seq<string>)
    requires FindIndex(list, n.id) == |list|
    requires ids != []
    ensures Resolve(InsertAt(list, n, position), ids) == Resolve(if ids[0] == n.id then [n] else list, ids)
  {
    var g := InsertAt(list, n, position);
    var pos := if position.None? then |list| else Clamp(position.value, |list|);
    if ids[0] == n.id {
      FindIndexIs(g, n.id, pos);
      SameHead(g, [n], ids);
    } else {
      var i := FindIndex(list, ids[0]);
      if i == |list| {
        FindIndexNone(g, ids[0]);
      } else {
        FindIndexIs(g, ids[0], if i < pos then i else i + 1);
      }
      SameHead(g, list, ids);
    }
  }

  lemma ResolveRemoved(list: seq<Node>, i: nat, ids: seq<string>)
    requires i < |list| && DistinctIds(list)
    requires ids != []
    ensures Resolve(RemoveAt(list, i), ids) == if ids[0] == list[i].id then None else Resolve(list, ids)
  {
    var g := RemoveAt(list, i);
    if ids[0] == list[i].id {
      FindIndexNone(g, ids[0]);
    } else {
      var k := FindIndex(list, ids[0]);
      if k == |list| {
        FindIndexNone(g, ids[0]);
      } else {
        FindIndexIs(g, ids[0], if k < i then k else k - 1);
      }
      SameHead(g, list, ids);
    }
  }

  // ----- lookups in an edited forest -----

  lemma {:induction false} ResolveBelow(f: seq<Node>, p: seq<string>, x: seq<string>)
    requires HasList(f, p) && x != []
    ensures Resolve(f, p + x) == Resolve(ListAt(f, p), x)
    decreases |p|
  {
    if p == [] {
      assert p + x == x;
    } else {
      assert (p + x)[1..] == p[1..] + x;
      ResolveBelow(f[FindIndex(f, p[0])].children, p[1..], x);
    }
  }

  lemma {:induction false} WithListInside(f: seq<Node>, p: seq<string>, list: seq<Node>, x: seq<string>)
    requires HasList(f, p) && x != []
    ensures Resolve(WithList(f, p, list), p + x) == Resolve(list, x)
    decreases |p|
  {
    if p == [] {
      assert p + x == x;
    } else {
      assert (p + x)[1..] == p[1..] + x;
      var i := FindIndex(f, p[0]);
      FindIndexIs(WithList(f, p, list), p[0], i);
      WithListInside(f[i].children, p[1..], list, x);
    }
  }

  lemma {:induction false} WithListOutside(f: seq<Node>, p: seq<string>, list: seq<Node>, ids: seq<string>)
    requires HasList(f, p)
    requires !(p < ids)
    ensures LabelAt(WithList(f, p, list), ids) == LabelAt(f, ids)
    decreases |p|
  {
    if p != [] && ids != [] {
      var g := WithList(f, p, list);
      var i, k := FindIndex(f, p[0]), FindIndex(f, ids[0]);
      if k == |f| {
        FindIndexNone(g, ids[0]);
      } else {
        FindIndexIs(g, ids[0], k);
        if k == i && |ids| > 1 {
          assert ids == [ids[0]] + ids[1..] && p == [p[0]] + p[1..];
          WithListOutside(f[i].children, p[1..], list, ids[1..]);
        }
      }
    }
  }

  /** Editing one child list keeps the forest well formed. */
  lemma {:induction false} WithListGood(f: seq<Node>, p: seq<string>, list: seq<Node>, levels: nat)
    requires HasList(f, p) && Good(f, levels)
    requires |p| <= levels ==> Good(list, levels - |p|)
    ensures |p| <= levels
    ensures Good(WithList(f, p, list), levels)
    decreases |p|
  {
    hide Good;
    if p != [] {
      var i := FindIndex(f, p[0]);
      GoodChild(f, i, levels);
      WithListGood(f[i].children, p[1..], list, levels - 1);
      GoodReplaced(f, i, WithList(f[i].children, p[1..], list), levels);
    }
  }

  lemma GoodReplaced(f: seq<Node>, i: nat, children: seq<Node>, levels: nat)
    requires levels > 0 && Good(f, levels) && i < |f| && Good(children, levels - 1)
    ensures Good(f[i := f[i].(children := children)], levels)
  {
  }

  lemma {:induction false} ListGood(f: seq<Node>, p: seq<string>, levels: nat)
    requires HasList(f, p) && Good(f, levels)
    ensures |p| <= levels
    ensures Good(ListAt(f, p), levels - |p|)
    decreases |p|
  {
    hide Good;
    if p != [] {
      var i := FindIndex(f, p[0]);
      GoodChild(f, i, levels);
      ListGood(f[i].children, p[1..], levels - 1);
    }
  }

  lemma GoodChild(f: seq<Node>, i: nat, levels: nat)
    requires Good(f, levels) && i < |f|
    ensures levels > 0 && Good(f[i].children, levels - 1)
  {
  }

  /** Every path that resolves in a well-formed forest is slash-free and within the depth. */
  lemma {:induction false} ResolvedPathGood(f: seq<Node>, ids: seq<string>, levels: nat)
    requires Good(f, levels) && Resolve(f, ids).Some?
    ensures |ids| <= levels && AllSlashFree(ids)
    decreases |ids|
  {
    var i := FindIndex(f, ids[0]);
    if |ids| > 1 { ResolvedPathGood(f[i].children, ids[1..], levels - 1); }
  }

  /** subtreeDepth measures exactly the depth a subtree is well formed at. */
  lemma {:induction false} DepthGood(f: seq<Node>, levels: nat, room: nat)
    requires Good(f, levels)
    ensures Good(f, room) <==> ForestDepth(f) <= room
    decreases levels
  {
    if f != [] {
      forall i | 0 <= i < |f| && room >= 1
        ensures Good(f[i].children, room - 1) <==> SubtreeDepth(f[i]) <= room
      {
        DepthGood(f[i].children, levels - 1, room - 1);
      }
      DepthBound(f, room);
    }
  }

  lemma {:induction false} DepthBound(f: seq<Node>, room: nat)
    ensures ForestDepth(f) <= room <==> forall i :: 0 <= i < |f| ==> SubtreeDepth(f[i]) <= room
  {
    if f != [] {
      DepthBound(f[1..], room);
      assert forall i :: 0 < i < |f| ==> f[i] == f[1..][i - 1];
      assert (forall i :: 0 <= i < |f| ==> SubtreeDepth(f[i]) <= room)
        ==> forall i :: 0 <= i < |f[1..]| ==> SubtreeDepth(f[1..][i]) <= room;
    }
  }

  // ----- the three edits of the store -----

  function Parent(q: seq<string>): seq<string>
    requires q != []
  {
    q[..|q| - 1]
  }

  function Last(q: seq<string>): string
    requires q != []
  {
    q[|q| - 1]
  }

  lemma ParentHasList(f: seq<Node>, q: seq<string>)
    requires Resolve(f, q).Some?
    ensures HasList(f, Parent(q))
    ensures var list := ListAt(f, Parent(q)); var i := FindIndex(list, Last(q));
            i < |list| && list[i] == Resolve(f, q).value
    decreases |q|
  {
    if |q| > 1 {
      ParentHasList(f[FindIndex(f, q[0])].children, q[1..]);
      assert Parent(q)[1..] == Parent(q[1..]);
    }
  }

  /** The position of a node among its siblings. */
  function SiblingIndex(f: seq<Node>, q: seq<string>): (i: nat)
    requires Resolve(f, q).Some?
    ensures HasList(f, Parent(q)) && i < |ListAt(f, Parent(q))|
    ensures ListAt(f, Parent(q))[i] == Resolve(f, q).value
  {
    ParentHasList(f, q);
    FindIndex(ListAt(f, Parent(q)), Last(q))
  }

  function Relabel(f: seq<Node>, q: seq<string>, tag: Label): seq<Node>
    requires Resolve(f, q).Some?
  {
    var i := SiblingIndex(f, q);
    var list := ListAt(f, Parent(q));
    WithList(f, Parent(q), list[i := list[i].(name := tag.name, icon := tag.icon)])
  }

  function Detach(f: seq<Node>, q: seq<string>): seq<Node>
    requires Resolve(f, q).Some?
  {
    var i := SiblingIndex(f, q);
    WithList(f, Parent(q), RemoveAt(ListAt(f, Parent(q)), i))
  }

  function Attach(f: seq<Node>, p: seq<string>, n: Node, position: Option<int>): seq<Node>
    requires HasList(f, p)
  {
    WithList(f, p, InsertAt(ListAt(f, p), n, position))
  }

  /** Splits a path at a child list it goes through. */
  lemma ThroughList(f: seq<Node>, p: seq<string>, list: seq<Node>, ids: seq<string>) returns (x: seq<string>)
    requires HasList(f, p) && p < ids
    ensures ids == p + x && x != []
    ensures Resolve(f, ids) == Resolve(ListAt(f, p), x)
    ensures Resolve(WithList(f, p, list), ids) == Resolve(list, x)
  {
    x := ids[|p|..];
    ResolveBelow(f, p, x);
    WithListInside(f, p, list, x);
  }

  lemma PrefixStep(p: seq<string>, id: string, ids: seq<string>)
    requires p < ids
    ensures p + [id] <= ids <==> ids[|p|] == id
  {
  }

  lemma ResolveRelabeled(list: seq<Node>, i: nat, tag: Label, x: seq<string>)
    requires x != []
    requires i < |list| && FindIndex(list, list[i].id) == i
    ensures LabelAt(list[i := list[i].(name := tag.name, icon := tag.icon)], x)
         == if x == [list[i].id] then Some(tag) else LabelAt(list, x)
  {
    var list' := list[i := list[i].(name := tag.name, icon := tag.icon)];
    var k := FindIndex(list, x[0]);
    if k == |list| { FindIndexNone(list', x[0]); } else { FindIndexIs(list', x[0], k); }
    if k == i && |x| == 1 { assert x == [list[i].id]; }
  }

  lemma ParentThenLast(q: seq<string>)
    requires q != []
    ensures q == Parent(q) + [Last(q)] && Parent(q) < q
  {
  }

  lemma SameTail(p: seq<string>, x: seq<string>, last: string)
    ensures p + x == p + [last] <==> x == [last]
  {
    assert (p + x)[|p|..] == x && (p + [last])[|p|..] == [last];
  }

  lemma RelabelLookup(f: seq<Node>, q: seq<string>, tag: Label, ids: seq<string>)
    requires Resolve(f, q).Some?
    ensures LabelAt(Relabel(f, q, tag), ids) == if ids == q then Some(tag) else LabelAt(f, ids)
  {
    assert q != [];
    ParentThenLast(q);
    hide WithList, Good, Resolve, Parent, Last;
    var p, i := Parent(q), SiblingIndex(f, q);
    var list := ListAt(f, p);
    var list' := list[i := list[i].(name := tag.name, icon := tag.icon)];
    ParentHasList(f, q);
    if p < ids {
      var x := ThroughList(f, p, list', ids);
      SameTail(p, x, Last(q));
      ResolveRelabeled(list, i, tag, x);
    } else {
      WithListOutside(f, p, list', ids);
    }
  }

  lemma RelabelGood(f: seq<Node>, q: seq<string>, tag: Label, levels: nat)
    requires Good(f, levels) && Resolve(f, q).Some?
    ensures Good(Relabel(f, q, tag), levels)
  {
    var p, i := Parent(q), SiblingIndex(f, q);
    var list := ListAt(f, p);
    ListGood(f, p, levels);
    WithListGood(f, p, list[i := list[i].(name := tag.name, icon := tag.icon)], levels);
  }

  lemma RelabelNode(f: seq<Node>, q: seq<string>, tag: Label)
    requires Resolve(f, q).Some?
    ensures Resolve(Relabel(f, q, tag), q)
         == Some(Resolve(f, q).value.(name := tag.name, icon := tag.icon))
  {
    var p, i := Parent(q), SiblingIndex(f, q);
    var list := ListAt(f, p);
    var list' := list[i := list[i].(name := tag.name, icon := tag.icon)];
    ParentHasList(f, q);
    var x := ThroughList(f, p, list', q);
    assert x == [Last(q)];
    FindIndexIs(list', Last(q), i);
  }

  lemma {:induction false} WithListTwice(f: seq<Node>, p: seq<string>, a: seq<Node>, b: seq<Node>)
    requires HasList(f, p)
    ensures HasList(WithList(f, p, a), p) && ListAt(WithList(f, p, a), p) == a
    ensures WithList(WithList(f, p, a), p, b) == WithList(f, p, b)
    decreases |p|
  {
    if p != [] {
      var i := FindIndex(f, p[0]);
      WithListTwice(f[i].children, p[1..], a, b);
      FindIndexIs(WithList(f, p, a), p[0], i);
    }
  }

  /** A relabelled node keeps its position. */
  lemma RelabelIndex(f: seq<Node>, q: seq<string>, tag: Label)
    requires Resolve(f, q).Some?
    ensures Resolve(Relabel(f, q, tag), q).Some?
    ensures SiblingIndex(Relabel(f, q, tag), q) == SiblingIndex(f, q)
    ensures Resolve(Relabel(f, q, tag), q).value.id == Resolve(f, q).value.id
  {
    RelabelNode(f, q, tag);
    var p, i := Parent(q), SiblingIndex(f, q);
    var list := ListAt(f, p);
    var list' := list[i := list[i].(name := tag.name, icon := tag.icon)];
    WithListTwice(f, p, list', list');
    FindIndexIs(list', Last(q), i);
  }

  lemma DetachLookupIn(f: seq<Node>, q: seq<string>, ids: seq<string>)
    requires Resolve(f, q).Some? && HasList(f, Parent(q)) && DistinctIds(ListAt(f, Parent(q)))
    ensures LabelAt(Detach(f, q), ids) == if q <= ids then None else LabelAt(f, ids)
  {
    var p, i := Parent(q), SiblingIndex(f, q);
    var list := ListAt(f, p);
    ParentHasList(f, q);
    assert q == p + [Last(q)];
    if p < ids {
      var x := ThroughList(f, p, RemoveAt(list, i), ids);
      ResolveRemoved(list, i, x);
      PrefixStep(p, Last(q), ids);
    } else {
      WithListOutside(f, p, RemoveAt(list, i), ids);
    }
  }

  lemma DetachLookup(f: seq<Node>, q: seq<string>, levels: nat, ids: seq<string>)
    requires Good(f, levels) && Resolve(f, q).Some?
    ensures LabelAt(Detach(f, q), ids) == if q <= ids then None else LabelAt(f, ids)
  {
    ParentHasList(f, q);
    ListGood(f, Parent(q), levels);
    ResolvedPathGood(f, q, levels);
    DetachLookupIn(f, q, ids);
  }

  lemma DetachGood(f: seq<Node>, q: seq<string>, levels: nat)
    requires Good(f, levels) && Resolve(f, q).Some?
    ensures Good(Detach(f, q), levels)
  {
    var p := Parent(q);
    ParentHasList(f, q);
    ListGood(f, p, levels);
    WithListGood(f, p, RemoveAt(ListAt(f, p), SiblingIndex(f, q)), levels);
  }

  /** What an attached node adds: itself, and its subtree below it. */
  lemma AttachLookup(f: seq<Node>, p: seq<string>, n: Node, position: Option<int>, ids: seq<string>)
    requires HasList(f, p) && FindIndex(ListAt(f, p), n.id) == |ListAt(f, p)|
    ensures p + [n.id] <= ids ==>
              Resolve(Attach(f, p, n, position), ids) == Resolve([n], ids[|p|..]) && Resolve(f, ids).None?
    ensures !(p + [n.id] <= ids) ==> LabelAt(Attach(f, p, n, position), ids) == LabelAt(f, ids)
  {
    var list := ListAt(f, p);
    if p < ids {
      var x := ThroughList(f, p, InsertAt(list, n, position), ids);
      ResolveInserted(list, n, position, x);
      PrefixStep(p, n.id, ids);
    } else {
      WithListOutside(f, p, InsertAt(list, n, position), ids);
    }
  }

  lemma AttachGood(f: seq<Node>, p: seq<string>, n: Node, position: Option<int>, levels: nat)
    requires Good(f, levels)
    requires HasList(f, p) && FindIndex(ListAt(f, p), n.id) == |ListAt(f, p)|
    requires |p| <= levels && Good([n], levels - |p|)
    ensures Good(Attach(f, p, n, position), levels)
  {
    hide Good, InsertAt, HasList, ListAt, WithList;
    ListGood(f, p, levels);
    InsertGood(ListAt(f, p), n, position, levels - |p|);
    WithListGood(f, p, InsertAt(ListAt(f, p), n, position), levels);
  }

  lemma InsertGood(list: seq<Node>, n: Node, position: Option<int>, levels: nat)
    requires Good(list, levels) && Good([n], levels) && FindIndex(list, n.id) == |list|
    ensures Good(InsertAt(list, n, position), levels)
  {
    assert [n][0] == n;
  }

  /** Below a resolved node, the forest and the node alone give the same lookups. */
  lemma ResolveAlone(f: seq<Node>, q: seq<string>, x: seq<string>)
    requires Resolve(f, q).Some?
    ensures Resolve([Resolve(f, q).value], [Last(q)] + x) == Resolve(f, q + x)
  {
    ParentHasList(f, q);
    var n := Resolve(f, q).value;
    if x == [] {
      assert q + x == q && [Last(q)] + x == [Last(q)];
    } else {
      ResolveBelow(f, q, x);
      assert ([Last(q)] + x)[1..] == x;
    }
  }
}
