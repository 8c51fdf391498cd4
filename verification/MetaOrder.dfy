/** The order of siblings: the ids of every child list of a tree, and what attaching, detaching,
    relabelling and moving a node do to each of them. */
module MetaOrder {
  import opened Collections
  import opened Text
  import opened MetaTree
  import opened MetaOps
  import opened MetaSafety

  function IdsOf(list: seq<Node>): (ids: seq<string>)
    ensures |ids| == |list|
  {
    seq(|list|, i requires 0 <= i < |list| => list[i].id)
  }

  /** The ids of the list at a place, if there is one. */
  function ListIds(f: seq<Node>, ids: seq<string>): Option<seq<string>> {
    if HasList(f, ids) then Some(IdsOf(ListAt(f, ids))) else None
  }

  /** At the place asked for, not beyond either end; at the end when none is. */
  function Inserted(ids: seq<string>, id: string, position: Option<int>): seq<string> {
    var at :=
      if position.None? || position.value > |ids| then |ids| else if position.value < 0 then 0 else position.value;
    ids[..at] + [id] + ids[at..]
  }

  /** Without the id, the others in their order. */
  function Without(ids: seq<string>, id: string): seq<string> {
    if ids == [] then [] else (if ids[0] == id then [] else [ids[0]]) + Without(ids[1..], id)
  }

  lemma {:induction false} WithoutOne(ids: seq<string>, i: nat)
    requires i < |ids| && forall j :: 0 <= j < |ids| && j != i ==> ids[j] != ids[i]
    ensures Without(ids, ids[i]) == ids[..i] + ids[i + 1..]
  {
    if i == 0 {
      WithoutNone(ids[1..], ids[0]);
    } else {
      WithoutOne(ids[1..], i - 1);
      assert ids[1..][..i - 1] == ids[1..i] && ids[1..][i..] == ids[i + 1..];
      assert ids[..i] == [ids[0]] + ids[1..i];
    }
  }

  lemma {:induction false} WithoutNone(ids: seq<string>, id: string)
    requires id !in ids
    ensures Without(ids, id) == ids
  {
    if ids != [] { WithoutNone(ids[1..], id); }
  }

  lemma {:induction false} WithListIds(f: seq<Node>, p: seq<string>, list: seq<Node>, ids: seq<string>)
    requires HasList(f, p) && !(p < ids)
    ensures ListIds(WithList(f, p, list), ids) == if ids == p then Some(IdsOf(list)) else ListIds(f, ids)
    decreases |p|
  {
    if p != [] {
      var g := WithList(f, p, list);
      var i := FindIndex(f, p[0]);
      assert IdsOf(g) == IdsOf(f);
      if ids != [] {
        var k := FindIndex(f, ids[0]);
        if k == |f| {
          FindIndexNone(g, ids[0]);
        } else {
          FindIndexIs(g, ids[0], k);
          assert ids == [ids[0]] + ids[1..] && p == [p[0]] + p[1..];
          if k == i { WithListIds(f[i].children, p[1..], list, ids[1..]); }
        }
      }
    }
  }

  /** Inside a replaced list, the list decides. */
  lemma InsideIds(f: seq<Node>, p: seq<string>, list: seq<Node>, x: seq<string>)
    requires HasList(f, p) && x != []
    ensures ListIds(WithList(f, p, list), p + x) == ListIds(list, x)
    ensures ListIds(f, p + x) == ListIds(ListAt(f, p), x)
  {
    WithListInside(f, p, list, x);
    ResolveBelow(f, p, x);
  }

  /** A list replaced by one of the same order changes no order. */
  lemma SameOrder(f: seq<Node>, p: seq<string>, list: seq<Node>, ids: seq<string>)
    requires HasList(f, p) && IdsOf(list) == IdsOf(ListAt(f, p))
    requires p < ids ==> ListIds(list, ids[|p|..]) == ListIds(ListAt(f, p), ids[|p|..])
    ensures ListIds(WithList(f, p, list), ids) == ListIds(f, ids)
  {
    hide WithList, Resolve;
    if p < ids {
      assert ids == p + ids[|p|..];
      InsideIds(f, p, list, ids[|p|..]);
    } else {
      WithListIds(f, p, list, ids);
    }
  }

  lemma RelabelOrder(f: seq<Node>, q: seq<string>, tag: Label, ids: seq<string>)
    requires Resolve(f, q).Some?
    ensures ListIds(Relabel(f, q, tag), ids) == ListIds(f, ids)
  {
    assert q != [];
    hide WithList, Resolve, ListIds;
    ParentHasList(f, q);
    var p, i := Parent(q), SiblingIndex(f, q);
    var list := ListAt(f, p);
    var list' := list[i := list[i].(name := tag.name, icon := tag.icon)];
    if p < ids { RelabelledIds(list, i, tag, ids[|p|..]); }
    SameOrder(f, p, list', ids);
  }

  lemma RelabelledIds(list: seq<Node>, i: nat, tag: Label, x: seq<string>)
    requires x != [] && i < |list| && FindIndex(list, list[i].id) == i
    ensures ListIds(list[i := list[i].(name := tag.name, icon := tag.icon)], x) == ListIds(list, x)
  {
    var list' := list[i := list[i].(name := tag.name, icon := tag.icon)];
    var k := FindIndex(list, x[0]);
    if k == |list| { FindIndexNone(list', x[0]); } else { FindIndexIs(list', x[0], k); }
  }

  lemma DetachInside(f: seq<Node>, p: seq<string>, i: nat, ids: seq<string>)
    requires HasList(f, p) && i < |ListAt(f, p)| && DistinctIds(ListAt(f, p)) && p < ids
    ensures ListIds(WithList(f, p, RemoveAt(ListAt(f, p), i)), ids)
         == if p + [ListAt(f, p)[i].id] <= ids then None else ListIds(f, ids)
  {
    hide WithList, Resolve, DistinctIds, RemoveAt;
    var list, x := ListAt(f, p), ids[|p|..];
    assert ids == p + x;
    InsideIds(f, p, RemoveAt(list, i), x);
    ResolveRemoved(list, i, x);
    PrefixStep(p, list[i].id, ids);
  }

  lemma DetachBeside(f: seq<Node>, p: seq<string>, i: nat, ids: seq<string>)
    requires HasList(f, p) && i < |ListAt(f, p)| && DistinctIds(ListAt(f, p)) && !(p < ids)
    ensures ListIds(WithList(f, p, RemoveAt(ListAt(f, p), i)), ids)
         == if ids == p then Some(Without(ListIds(f, ids).value, ListAt(f, p)[i].id)) else ListIds(f, ids)
    ensures ids == p ==> ListIds(f, ids).Some?
  {
    hide WithList, Resolve, DistinctIds, RemoveAt;
    WithListIds(f, p, RemoveAt(ListAt(f, p), i), ids);
    RemovedIds(ListAt(f, p), i);
  }

  lemma DetachOrder(f: seq<Node>, q: seq<string>, levels: nat, ids: seq<string>)
    requires Good(f, levels) && Resolve(f, q).Some?
    ensures q != []
    ensures ListIds(Detach(f, q), ids)
         == if q <= ids then None
            else if ids == Parent(q) && ListIds(f, ids).Some? then Some(Without(ListIds(f, ids).value, Last(q)))
            else ListIds(f, ids)
  {
    var i := DetachedAt(f, q, levels);
    var p := Parent(q);
    assert q == p + [Last(q)];
    hide WithList, Resolve, Good, DistinctIds, ListIds, Without, RemoveAt, Detach, SiblingIndex;
    if p < ids { DetachInside(f, p, i, ids); } else { DetachBeside(f, p, i, ids); }
  }

  lemma DetachedAt(f: seq<Node>, q: seq<string>, levels: nat) returns (i: nat)
    requires Good(f, levels) && Resolve(f, q).Some?
    ensures q != [] && HasList(f, Parent(q)) && var list := ListAt(f, Parent(q));
      && DistinctIds(list) && i < |list| && list[i].id == Last(q)
      && Detach(f, q) == WithList(f, Parent(q), RemoveAt(list, i))
  {
    assert q != [];
    hide WithList, DistinctIds;
    ParentHasList(f, q);
    ListGood(f, Parent(q), levels);
    ResolvedPathGood(f, q, levels);
    i := SiblingIndex(f, q);
    hide Resolve;
    assert DistinctIds(ListAt(f, Parent(q)));
  }

  lemma RemovedIds(list: seq<Node>, i: nat)
    requires i < |list| && DistinctIds(list)
    ensures IdsOf(RemoveAt(list, i)) == Without(IdsOf(list), list[i].id)
  {
    WithoutOne(IdsOf(list), i);
  }

  lemma AttachOrder(f: seq<Node>, p: seq<string>, n: Node, position: Option<int>, ids: seq<string>)
    requires HasList(f, p) && FindIndex(ListAt(f, p), n.id) == |ListAt(f, p)|
    ensures ListIds(Attach(f, p, n, position), ids)
         == if p + [n.id] <= ids then ListIds([n], ids[|p|..])
            else if ids == p then Some(Inserted(ListIds(f, p).value, n.id, position))
            else ListIds(f, ids)
  {
    hide WithList, Resolve;
    var list := ListAt(f, p);
    if p < ids {
      var x := ids[|p|..];
      assert ids == p + x;
      InsideIds(f, p, InsertAt(list, n, position), x);
      ResolveInserted(list, n, position, x);
      PrefixStep(p, n.id, ids);
    } else {
      WithListIds(f, p, InsertAt(list, n, position), ids);
      assert IdsOf(InsertAt(list, n, position)) == Inserted(IdsOf(list), n.id, position);
    }
  }

  /** Moving or reordering the node at q: the list it leaves loses it, the list it goes to has it at
      the position asked for or else the one it had, its own lists come along, the others stay. */
  lemma PlaceOrder(tree: seq<Node>, q: seq<string>, pids: seq<string>, position: Option<int>, ids: seq<string>)
    requires Good(tree, MAX_DEPTH) && Resolve(tree, q).Some? && !(q <= pids)
    requires HasList(Detach(tree, q), pids) && Place(tree, q, pids, position).Done?
    ensures q != [] && ListIds(tree, pids).Some?
    ensures var t, order := pids + [Last(q)], ListIds(Place(tree, q, pids, position).value, ids);
      var at := if position.None? then Some(SiblingIndex(tree, q)) else position;
      order ==
        if t <= ids then ListIds(tree, q + ids[|t|..])
        else if ids == pids then Some(Inserted(Without(ListIds(tree, pids).value, Last(q)), Last(q), at))
        else if q <= ids then None
        else if ids == Parent(q) && ListIds(tree, ids).Some? then Some(Without(ListIds(tree, ids).value, Last(q)))
        else ListIds(tree, ids)
  {
    assert q != [];
    ParentHasList(tree, q);
    var t, rest, n := pids + [Last(q)], Detach(tree, q), Resolve(tree, q).value;
    assert n.id == Last(q);
    var at := if position.None? then Some(SiblingIndex(tree, q)) else position;
    hide Good, Detach, Attach, Resolve, SiblingIndex, ListIds, Without, Inserted;
    AttachOrder(rest, pids, n, at, ids);
    LeftOrder(tree, q, pids);
    DetachOrder(tree, q, MAX_DEPTH, ids);
    if t <= ids {
      LastThenRest(pids, Last(q), ids);
      ResolveAlone(tree, q, ids[|t|..]);
      AloneIds(tree, q, ids[|t|..]);
    }
  }

  /** The list a node goes to does not hold it once it is taken out. */
  lemma LeftOrder(tree: seq<Node>, q: seq<string>, pids: seq<string>)
    requires Good(tree, MAX_DEPTH) && Resolve(tree, q).Some? && !(q <= pids) && q != []
    requires HasList(Detach(tree, q), pids)
    requires var list := ListAt(Detach(tree, q), pids); FindIndex(list, Last(q)) == |list|
    ensures ListIds(tree, pids).Some?
    ensures ListIds(Detach(tree, q), pids) == Some(Without(ListIds(tree, pids).value, Last(q)))
  {
    hide Good, Detach, Resolve;
    var rest := Detach(tree, q);
    DetachOrder(tree, q, MAX_DEPTH, pids);
    NotAmong(rest, pids, Last(q));
    WithoutNone(ListIds(rest, pids).value, Last(q));
  }

  /** Every list of a tree after a node patch. */
  lemma PatchedTreeOrder(st: State, enum: string, plan: PatchPlan, position: Option<int>, ids: seq<string>)
    requires Planned(st, enum, plan)
    requires plan.target == plan.source || !(plan.source + "/" <= plan.target)
    requires PatchedTree(st, enum, plan, position).Done?
    ensures plan.q != [] && ListIds(st.enums[enum].tree, plan.pids).Some?
    ensures var tree, q, own := st.enums[enum].tree, plan.q, Last(plan.q);
      var t, order := plan.pids + [own], ListIds(PatchedTree(st, enum, plan, position).value, ids);
      order ==
        if plan.target == plan.source && position.None? then ListIds(tree, ids)
        else if t <= ids then ListIds(tree, q + ids[|t|..])
        else if ids == plan.pids
          then Some(Inserted(Without(ListIds(tree, ids).value, own), own,
                             if position.None? then Some(SiblingIndex(tree, q)) else position))
        else if q <= ids then None
        else if ids == Parent(q) && ListIds(tree, ids).Some? then Some(Without(ListIds(tree, ids).value, own))
        else ListIds(tree, ids)
  {
    PlanIds(st, enum, plan);
    PlanPlaceable(st, enum, plan);
    var tree0, q, t := st.enums[enum].tree, plan.q, plan.pids + [Last(plan.q)];
    var tree := Relabel(tree0, q, plan.tag);
    RelabelIndex(tree0, q, plan.tag);
    hide Good, Relabel, Detach, Place, Resolve, ListIds, Inserted, Without, NodePath, SiblingIndex;
    RelabelOrder(tree0, q, plan.tag, ids);
    RelabelOrder(tree0, q, plan.tag, plan.pids);
    if t <= ids { RelabelOrder(tree0, q, plan.tag, q + ids[|t|..]); }
    if plan.target != plan.source || position.Some? { PlaceOrder(tree, q, plan.pids, position, ids); }
    HasOrder(tree0, plan.pids);
  }

  lemma HasOrder(f: seq<Node>, ids: seq<string>)
    ensures HasList(f, ids) <==> ListIds(f, ids).Some?
  {
  }

  lemma NotAmong(f: seq<Node>, p: seq<string>, id: string)
    requires HasList(f, p) && FindIndex(ListAt(f, p), id) == |ListAt(f, p)|
    ensures id !in ListIds(f, p).value
  {
  }

  lemma AloneIds(f: seq<Node>, q: seq<string>, x: seq<string>)
    requires Resolve(f, q).Some? && Resolve([Resolve(f, q).value], [Last(q)] + x) == Resolve(f, q + x)
    ensures q != [] && ListIds([Resolve(f, q).value], [Last(q)] + x) == ListIds(f, q + x)
  {
  }
}
