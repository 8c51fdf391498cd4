/** What each mutation does to every path of the store, and that none of them leaves an
    object pointing at a path that does not resolve. */
module MetaSafety {
  import opened Collections
  import opened Text
  import opened MetaTree
  import opened MetaOps
  import Names

  /** The label a full path names, if it names a node. */
  function PathLabel(st: State, p: string): Option<Label> {
    if HasPath(st, p) then LabelAt(st.enums[Split(p)[0]].tree, Split(p)[1..]) else None
  }

  /** The node a full path names. */
  function PathNode(st: State, p: string): Option<Node> {
    if HasPath(st, p) then Resolve(st.enums[Split(p)[0]].tree, Split(p)[1..]) else None
  }

  // ----- paths as enum id and node ids -----

  lemma NodePathParts(enum: string, ids: seq<string>)
    requires SlashFree(enum) && ids != [] && AllSlashFree(ids)
    ensures Split(NodePath(enum, ids)) == [enum] + ids
  {
    SplitConcat(enum, Join(ids));
    SplitWhole(enum);
    SplitJoin(ids);
  }

  /** p lies under a node path exactly when it is in that enum and its ids extend the node's. */
  lemma UnderNode(p: string, enum: string, q: seq<string>)
    requires SlashFree(enum) && q != [] && AllSlashFree(q)
    ensures Under(p, NodePath(enum, q)) <==> Split(p)[0] == enum && q <= Split(p)[1..]
    ensures p == NodePath(enum, q) <==> Split(p)[0] == enum && q == Split(p)[1..]
  {
    hide Split, Under, NodePath;
    NodePathParts(enum, q);
    UnderIsPrefix(p, NodePath(enum, q));
    HeadTailPrefix(enum, q, Split(p));
    if Split(p) == [enum] + q { SplitInjective(p, NodePath(enum, q)); }
  }

  lemma HeadTailPrefix(enum: string, q: seq<string>, parts: seq<string>)
    requires parts != []
    ensures [enum] + q <= parts <==> parts[0] == enum && q <= parts[1..]
    ensures parts == [enum] + q <==> parts[0] == enum && q == parts[1..]
  {
    assert parts == [parts[0]] + parts[1..];
    if [enum] + q <= parts { assert parts[1..][..|q|] == ([enum] + q)[1..]; }
  }

  lemma UnderEnum(p: string, enum: string)
    requires SlashFree(enum)
    ensures Under(p, enum) <==> Split(p)[0] == enum
  {
    SplitWhole(enum);
    UnderIsPrefix(p, enum);
  }

  /** The ids of a path moved from q to t. */
  lemma MovedParts(p: string, enum: string, q: seq<string>, t: seq<string>)
    requires SlashFree(enum) && q != [] && AllSlashFree(q) && t != [] && AllSlashFree(t)
    requires Under(p, NodePath(enum, t))
    ensures |NodePath(enum, t)| <= |p|
    ensures t <= Split(p)[1..]
    ensures Split(NodePath(enum, q) + p[|NodePath(enum, t)|..]) == [enum] + q + Split(p)[1..][|t|..]
    ensures Under(NodePath(enum, q) + p[|NodePath(enum, t)|..], NodePath(enum, q))
  {
    var from, to := NodePath(enum, t), NodePath(enum, q);
    UnderNode(p, enum, t);
    NodePathParts(enum, q);
    NodePathParts(enum, t);
    RebaseParts(p, from, to);
    TailAfter(Split(p), enum, t);
    var moved := to + p[|from|..];
    assert [enum] + q <= Split(moved);
    UnderIsPrefix(moved, to);
  }

  lemma TailAfter(s: seq<string>, e: string, t: seq<string>)
    requires |s| >= 1 + |t|
    ensures s[|[e] + t|..] == s[1..][|t|..]
  {
  }

  // ----- rewriting object paths -----

  /** Every path of a rewritten list stems from one of the old ones, and in order none is lost
      unless it is dropped. */
  lemma {:induction false} RewriteOrigin(paths: seq<string>, from: string, to: string, i: nat)
    requires i < |RewriteList(paths, from, to)|
    ensures exists k :: 0 <= k < |paths| && StemsFrom(RewriteList(paths, from, to)[i], paths[k], from, to)
  {
    hide Under, StemsFrom;
    var head := HeadOf(paths[0], from, to);
    HeadStems(paths[0], from, to);
    if i < |head| {
      assert RewriteList(paths, from, to)[i] == head[0];
    } else {
      RewriteOrigin(paths[1..], from, to, i - |head|);
      var p' := RewriteList(paths[1..], from, to)[i - |head|];
      var k :| 0 <= k < |paths[1..]| && StemsFrom(p', paths[1..][k], from, to);
      assert paths[k + 1] == paths[1..][k];
    }
  }

  /** A kept path is the old one, with the prefix replaced if it was under it. */
  predicate StemsFrom(p': string, p: string, from: string, to: string) {
    p' == (if Under(p, from) then to + p[|from|..] else p) && (Under(p, from) ==> to != "")
  }

  function HeadOf(p: string, from: string, to: string): (head: seq<string>)
    ensures |head| <= 1
  {
    if !Under(p, from) then [p] else if to == "" then [] else [to + p[|from|..]]
  }

  lemma HeadStems(p: string, from: string, to: string)
    ensures HeadOf(p, from, to) != [] ==> StemsFrom(HeadOf(p, from, to)[0], p, from, to)
  {
  }

  lemma RewriteResolves(st': State, paths: seq<string>, from: string, to: string)
    requires forall k :: 0 <= k < |paths| && !Under(paths[k], from) ==> HasPath(st', paths[k])
    requires to != "" ==> forall k ::
        0 <= k < |paths| && Under(paths[k], from) ==> HasPath(st', to + paths[k][|from|..])
    ensures PathsResolve(st', RewriteList(paths, from, to))
  {
    forall i | 0 <= i < |RewriteList(paths, from, to)|
      ensures HasPath(st', RewriteList(paths, from, to)[i])
    {
      RewriteOrigin(paths, from, to, i);
      var k :| 0 <= k < |paths| && StemsFrom(RewriteList(paths, from, to)[i], paths[k], from, to);
    }
  }

  lemma NoneUnder(objects: map<string, Object>, path: string)
    requires ObjectsUnder(objects, path) == []
    ensures forall r, i :: r in objects && 0 <= i < |objects[r].enums| ==> !Under(objects[r].enums[i], path)
  {
    forall r, i | r in objects && 0 <= i < |objects[r].enums|
      ensures !Under(objects[r].enums[i], path)
    {
      assert r in ObjectsUnder(objects, path) <==> HoldsUnder(objects[r].enums, path);
    }
  }

  // ----- what each operation does to every path -----

  /** Attaching a leaf adds exactly its own path to a tree. */
  lemma LeafLookup(tree: seq<Node>, pids: seq<string>, n: Node, position: Option<int>, ids: seq<string>)
    requires HasList(tree, pids) && FindIndex(ListAt(tree, pids), n.id) == |ListAt(tree, pids)| && n.children == []
    ensures LabelAt(Attach(tree, pids, n, position), ids) ==
            if ids == pids + [n.id] then Some(LabelOf(n)) else LabelAt(tree, ids)
    ensures LabelAt(tree, pids + [n.id]) == None
  {
    hide HasList, ListAt, Attach;
    var q := pids + [n.id];
    AttachLookup(tree, pids, n, position, ids);
    AttachLookup(tree, pids, n, position, q);
    assert q[|pids|..] == [n.id];
    if q <= ids {
      assert ids[|pids|] == n.id;
      assert |ids| == |q| ==> ids == q;
    }
  }

  lemma HasLabel(st: State, p: string)
    ensures HasPath(st, p) <==> PathLabel(st, p).Some?
  {
    hide Split;
  }

  lemma CreateNodeEffect(rules: Rules, st: State, enum: string, parent: Option<string>, id: string,
                         name: string, icon: string, position: Option<int>, p: string)
    requires Shaped(st)
    requires CreateNode(rules, st, enum, parent, id, name, icon, position).Done?
    ensures var step := CreateNode(rules, st, enum, parent, id, name, icon, position).value;
            |step.changes| == 1 && step.changes[0].NodeCreated?
            && HasPath(step.st, step.changes[0].path) && !HasPath(st, step.changes[0].path)
            && PathLabel(step.st, p) ==
               if p == step.changes[0].path then Some(step.changes[0].tag) else PathLabel(st, p)
  {
    ParentIdsResolve(st, enum, parent);
    assert SlashFree(id) && SlashFree(enum);
    hide HasPath, PathLabel, LabelAt, Split, NodePath, Attach, ParentIds, Under, TreesGood, HasList, ListAt, WithTree,
        Shaped;
    var pids := ParentIds(st, enum, parent).value;
    var tree := st.enums[enum].tree;
    var n := Node(id, rules.cleanName(name).value, icon, []);
    var q := pids + [id];
    var path, st' := NodePath(enum, q), CreateNode(rules, st, enum, parent, id, name, icon, position).value.st;
    UnderNode(p, enum, q);
    UnderNode(path, enum, q);
    LeafLookup(tree, pids, n, position, Split(p)[1..]);
    LeafLookup(tree, pids, n, position, q);
    TreeReplaced(st, enum, Attach(tree, pids, n, position), p);
    TreeReplaced(st, enum, Attach(tree, pids, n, position), path);
    HasLabel(st, path);
    HasLabel(st', path);
  }

  lemma CreateNodeShape(rules: Rules, st: State, enum: string, parent: Option<string>, id: string,
                        name: string, icon: string, position: Option<int>)
    requires Shaped(st)
    requires CreateNode(rules, st, enum, parent, id, name, icon, position).Done?
    ensures Shaped(CreateNode(rules, st, enum, parent, id, name, icon, position).value.st)
  {
    ParentIdsResolve(st, enum, parent);
    var pids := ParentIds(st, enum, parent).value;
    var n := Node(id, rules.cleanName(name).value, icon, []);
    assert SlashFree(id);
    assert Good([n], MAX_DEPTH - |pids|);
    AttachGood(st.enums[enum].tree, pids, n, position, MAX_DEPTH);
  }

  lemma CreateNodeKeeps(rules: Rules, st: State, enum: string, parent: Option<string>, id: string,
                        name: string, icon: string, position: Option<int>)
    requires WellFormed(st)
    requires CreateNode(rules, st, enum, parent, id, name, icon, position).Done?
    ensures WellFormed(CreateNode(rules, st, enum, parent, id, name, icon, position).value.st)
  {
    CreateNodeShape(rules, st, enum, parent, id, name, icon, position);
    var st' := CreateNode(rules, st, enum, parent, id, name, icon, position).value.st;
    hide Good;
    KeepsPaths(st, st');
    forall p | HasPath(st, p) ensures HasPath(st', p) {
      CreateNodeEffect(rules, st, enum, parent, id, name, icon, position, p);
    }
  }

  /** Objects untouched and every old path kept: references stay resolvable. */
  lemma KeepsPaths(st: State, st': State)
    ensures WellFormed(st) && st'.objects == st.objects && (forall p :: HasPath(st, p) ==> HasPath(st', p))
      ==> forall r <- st'.objects :: PathsResolve(st', st'.objects[r].enums)
  {
  }

  lemma DeleteNodeEffect(st: State, enum: string, rel: string, detach: bool, p: string)
    requires Shaped(st) && DeleteNode(st, enum, rel, detach).Done?
    ensures var step := DeleteNode(st, enum, rel, detach).value;
            |step.changes| == 1 && step.changes[0].NodeDeleted? && HasPath(st, step.changes[0].path)
            && PathLabel(step.st, p) == if Under(p, step.changes[0].path) then None else PathLabel(st, p)
  {
    assert SlashFree(enum) by { assert enum in st.enums; }
    hide Good, Resolve, Detach, HasPath, PathLabel, LabelAt, Split, NodePath, Under, RelIds, MembersCheck;
    var q := RelIds(st, enum, rel).value;
    var tree, path := st.enums[enum].tree, NodePath(enum, q);
    ResolvedPathGood(tree, q, MAX_DEPTH);
    UnderNode(p, enum, q);
    UnderNode(path, enum, q);
    DetachLookup(tree, q, MAX_DEPTH, Split(p)[1..]);
    TreeReplaced(st, enum, Detach(tree, q), p);
    TreeReplaced(st, enum, tree, path);
    HasLabel(st, path);
    LabelOfNode(tree, q);
    SameTrees(WithTree(st, enum, Detach(tree, q)), DeleteNode(st, enum, rel, detach).value.st, p);
  }

  lemma LabelOfNode(tree: seq<Node>, q: seq<string>)
    ensures LabelAt(tree, q).Some? <==> Resolve(tree, q).Some?
  {
  }

  lemma SameTrees(a: State, b: State, p: string)
    requires a.enums == b.enums
    ensures PathLabel(a, p) == PathLabel(b, p)
  {
  }

  lemma DeleteNodeShape(st: State, enum: string, rel: string, detach: bool)
    requires Shaped(st) && DeleteNode(st, enum, rel, detach).Done?
    ensures Shaped(DeleteNode(st, enum, rel, detach).value.st)
  {
    DetachGood(st.enums[enum].tree, RelIds(st, enum, rel).value, MAX_DEPTH);
  }

  lemma DeleteNodeKeeps(st: State, enum: string, rel: string, detach: bool)
    requires WellFormed(st) && DeleteNode(st, enum, rel, detach).Done?
    ensures WellFormed(DeleteNode(st, enum, rel, detach).value.st)
  {
    var q := RelIds(st, enum, rel).value;
    var path := NodePath(enum, q);
    var st' := DeleteNode(st, enum, rel, detach).value.st;
    DeleteNodeShape(st, enum, rel, detach);
    hide Good;
    forall p | HasPath(st, p) && !Under(p, path) ensures HasPath(st', p) {
      DeleteNodeEffect(st, enum, rel, detach, p);
    }
    MembersGone(st, st', path, detach);
  }

  /** The paths that do not lie under the given one, in order. */
  function Outside(paths: seq<string>, path: string): (rest: seq<string>)
    ensures !HoldsUnder(rest, path)
    ensures !HoldsUnder(paths, path) ==> rest == paths
  {
    if paths == [] then []
    else
      assert HoldsUnder(paths[1..], path) || Under(paths[0], path) ==> HoldsUnder(paths, path) by {
        HoldsMore(paths, path);
      }
      (if Under(paths[0], path) then [] else [paths[0]]) + Outside(paths[1..], path)
  }

  lemma HoldsMore(paths: seq<string>, path: string)
    requires paths != []
    ensures HoldsUnder(paths, path) <==> HoldsUnder(paths[1..], path) || Under(paths[0], path)
  {
    if HoldsUnder(paths[1..], path) {
      var i :| 0 <= i < |paths[1..]| && Under(paths[1..][i], path);
      assert Under(paths[i + 1], path);
    }
    if HoldsUnder(paths, path) {
      var i :| 0 <= i < |paths| && Under(paths[i], path);
      if i > 0 { assert Under(paths[1..][i - 1], path); }
    }
  }

  lemma {:induction false} StripIsOutside(paths: seq<string>, path: string)
    ensures RewriteList(paths, path, "") == Outside(paths, path)
  {
    if paths != [] { StripIsOutside(paths[1..], path); }
  }

  /** After the member check passes no object holds a path under the removed one; every object
      keeps its other paths in order, and everything else. */
  lemma MembersStripped(objects: map<string, Object>, path: string, detach: bool, ref: string)
    requires MembersCheck(objects, path, detach).Done? && ref in objects
    ensures var after := MembersCheck(objects, path, detach).value;
      && after.Keys == objects.Keys && !HoldsUnder(after[ref].enums, path)
      && after[ref] == objects[ref].(enums := Outside(objects[ref].enums, path))
  {
    StripIsOutside(objects[ref].enums, path);
    if ObjectsUnder(objects, path) == [] {
      NoneUnder(objects, path);
    }
  }

  /** After the member check every path that objects hold still names a node. */
  lemma MembersGone(st: State, st': State, path: string, detach: bool)
    requires WellFormed(st) && MembersCheck(st.objects, path, detach) == Done(st'.objects)
    requires forall p :: HasPath(st, p) && !Under(p, path) ==> HasPath(st', p)
    ensures forall r <- st'.objects :: PathsResolve(st', st'.objects[r].enums)
  {
    if ObjectsUnder(st.objects, path) == [] { NoneUnder(st.objects, path); }
    forall r | r in st'.objects ensures PathsResolve(st', st'.objects[r].enums) {
      if ObjectsUnder(st.objects, path) != [] { RewriteResolves(st', st.objects[r].enums, path, ""); }
    }
  }

  lemma DeleteEnumEffect(st: State, id: string, detach: bool, p: string)
    requires Shaped(st) && DeleteEnum(st, id, detach).Done?
    ensures PathLabel(DeleteEnum(st, id, detach).value.st, p) == if Under(p, id) then None else PathLabel(st, p)
  {
    UnderEnum(p, id);
  }

  lemma DeleteEnumKeeps(st: State, id: string, detach: bool)
    requires WellFormed(st) && DeleteEnum(st, id, detach).Done?
    ensures WellFormed(DeleteEnum(st, id, detach).value.st)
  {
    var st' := DeleteEnum(st, id, detach).value.st;
    forall p | HasPath(st, p) && !Under(p, id) ensures HasPath(st', p) {
      DeleteEnumEffect(st, id, detach, p);
    }
    MembersGone(st, st', id, detach);
  }

  // ----- node patches: relabel, reorder, move -----

  lemma LastThenRest(pids: seq<string>, last: string, ids: seq<string>)
    requires pids + [last] <= ids
    ensures ids[|pids|..] == [last] + ids[|pids| + 1..]
  {
    assert ids[|pids|] == last;
  }

  /** Moving the node at q below pids: lookups under the new place are those under the old
      one, the old place is empty, and nothing was under the new place before. */
  lemma PlaceLookup(tree: seq<Node>, q: seq<string>, pids: seq<string>, position: Option<int>, ids: seq<string>)
    requires Good(tree, MAX_DEPTH) && Resolve(tree, q).Some? && !(q <= pids)
    requires HasList(Detach(tree, q), pids) && Place(tree, q, pids, position).Done?
    ensures var t := pids + [Last(q)]; var tree' := Place(tree, q, pids, position).value;
      && (t <= ids ==> Resolve(tree', ids) == Resolve(tree, q + ids[|t|..]))
      && (t <= ids && t != q ==> Resolve(tree, ids).None?)
      && (!(t <= ids) ==> LabelAt(tree', ids) == if q <= ids then None else LabelAt(tree, ids))
  {
    assert q != [];
    hide Good, Detach, Attach, Resolve;
    ParentHasList(tree, q);
    var t, rest, n := pids + [Last(q)], Detach(tree, q), Resolve(tree, q).value;
    var pos := if position.None? then Some(SiblingIndex(tree, q)) else position;
    AttachLookup(rest, pids, n, pos, ids);
    DetachLookup(tree, q, MAX_DEPTH, ids);
    if t <= ids {
      var x := ids[|t|..];
      LastThenRest(pids, Last(q), ids);
      ResolveAlone(tree, q, x);
      if t != q {
        TargetFree(tree, q, pids, position);
        Comparable(q, pids, Last(q), ids);
      }
    }
  }

  lemma Comparable(q: seq<string>, pids: seq<string>, id: string, ids: seq<string>)
    requires !(q <= pids) && !(pids + [id] <= q) && pids + [id] <= ids
    ensures !(q <= ids)
  {
  }

  /** The place a node moves to is not above it: that place would still be taken. */
  lemma TargetFree(tree: seq<Node>, q: seq<string>, pids: seq<string>, position: Option<int>)
    requires Good(tree, MAX_DEPTH) && Resolve(tree, q).Some?
    requires HasList(Detach(tree, q), pids) && Place(tree, q, pids, position).Done?
    requires pids + [Last(q)] != q
    ensures !(pids + [Last(q)] <= q)
  {
    assert q != [];
    hide Good, Resolve, Detach, Attach;
    var t := pids + [Last(q)];
    ParentHasList(tree, q);
    AttachLookup(Detach(tree, q), pids, Resolve(tree, q).value, position, t);
    DetachLookup(tree, q, MAX_DEPTH, t);
    if t <= q {
      assert t == q[..|t|];
      PrefixResolves(tree, q, |t|);
    }
  }

  lemma {:induction false} PrefixResolves(f: seq<Node>, q: seq<string>, k: nat)
    requires Resolve(f, q).Some? && 1 <= k <= |q|
    ensures Resolve(f, q[..k]).Some?
    decreases |q|
  {
    if k > 1 {
      assert q[..k][1..] == q[1..][..k - 1];
      PrefixResolves(f[FindIndex(f, q[0])].children, q[1..], k - 1);
    }
  }

  lemma AloneGood(list: seq<Node>, i: nat, levels: nat)
    requires i < |list| && Good(list, levels)
    ensures Good([list[i]], levels)
  {
  }

  lemma RoomFor(n: Node, levels: nat, room: nat)
    requires Good([n], levels)
    requires SubtreeDepth(n) <= room || levels <= room
    ensures Good([n], room)
  {
    DepthGood([n], levels, room);
    DepthGood([n], levels, levels);
    assert ForestDepth([n]) == SubtreeDepth(n);
  }

  lemma NodeGood(tree: seq<Node>, q: seq<string>)
    requires Good(tree, MAX_DEPTH) && Resolve(tree, q).Some?
    ensures 1 <= |q| <= MAX_DEPTH && Good([Resolve(tree, q).value], MAX_DEPTH - |q| + 1)
  {
    assert q != [];
    hide Good, Resolve, ListAt, FindIndex;
    ResolvedPathGood(tree, q, MAX_DEPTH);
    ParentHasList(tree, q);
    ListGood(tree, Parent(q), MAX_DEPTH);
    AloneGood(ListAt(tree, Parent(q)), SiblingIndex(tree, q), MAX_DEPTH - |q| + 1);
  }

  lemma NodeRoom(tree: seq<Node>, q: seq<string>, room: nat)
    requires Good(tree, MAX_DEPTH) && Resolve(tree, q).Some?
    requires SubtreeDepth(Resolve(tree, q).value) <= room || MAX_DEPTH - |q| + 1 <= room
    ensures |q| <= MAX_DEPTH && Good([Resolve(tree, q).value], room)
  {
    hide Good, Resolve, SubtreeDepth;
    NodeGood(tree, q);
    RoomFor(Resolve(tree, q).value, MAX_DEPTH - |q| + 1, room);
  }

  lemma PlaceGood(tree: seq<Node>, q: seq<string>, pids: seq<string>, position: Option<int>)
    requires Good(tree, MAX_DEPTH) && Resolve(tree, q).Some? && !(q <= pids) && HasList(tree, pids)
    requires HasList(Detach(tree, q), pids) && Place(tree, q, pids, position).Done?
    requires |pids| + SubtreeDepth(Resolve(tree, q).value) <= MAX_DEPTH || pids == Parent(q)
    ensures Good(Place(tree, q, pids, position).value, MAX_DEPTH)
  {
    hide Good, Resolve, Detach, Attach, SiblingIndex, HasPath, WithList, FindIndex, ListAt, SubtreeDepth, HasList;
    DetachGood(tree, q, MAX_DEPTH);
    ListGood(tree, pids, MAX_DEPTH);
    NodeRoom(tree, q, MAX_DEPTH - |pids|);
    AttachGood(Detach(tree, q), pids, Resolve(tree, q).value,
               if position.None? then Some(SiblingIndex(tree, q)) else position, MAX_DEPTH);
  }

  /** The tree a node patch leaves, looked up at any ids. */
  lemma PatchedLookup(st: State, enum: string, plan: PatchPlan, position: Option<int>, ids: seq<string>)
    requires Planned(st, enum, plan)
    requires plan.target == plan.source || !(plan.source + "/" <= plan.target)
    requires PatchedTree(st, enum, plan, position).Done?
    ensures var t, tree0 := plan.pids + [Last(plan.q)], st.enums[enum].tree;
      var tree' := PatchedTree(st, enum, plan, position).value;
      && (t <= ids ==> LabelAt(tree', ids) == if ids == t then Some(plan.tag) else LabelAt(tree0, plan.q + ids[|t|..]))
      && (t <= ids && t != plan.q ==> LabelAt(tree0, ids).None?)
      && (!(t <= ids) ==> LabelAt(tree', ids) == if plan.q <= ids then None else LabelAt(tree0, ids))
  {
    hide Good, Resolve, Relabel, Detach, Place;
    PlanPlaceable(st, enum, plan);
    var t, tree0 := plan.pids + [Last(plan.q)], st.enums[enum].tree;
    var tree := Relabel(tree0, plan.q, plan.tag);
    assert plan.q == Parent(plan.q) + [Last(plan.q)];
    RelabelLookup(tree0, plan.q, plan.tag, ids);
    if t <= ids {
      RelabelLookup(tree0, plan.q, plan.tag, plan.q + ids[|t|..]);
      TailEmpty(plan.q, t, ids);
    }
    if plan.target != plan.source || position.Some? {
      PlaceLookup(tree, plan.q, plan.pids, position, ids);
    }
  }

  lemma TailEmpty(q: seq<string>, t: seq<string>, ids: seq<string>)
    requires t <= ids
    ensures ids == t <==> q + ids[|t|..] == q
    ensures t == q ==> q + ids[|t|..] == ids
  {
    assert |q + ids[|t|..]| == |q| + |ids| - |t|;
  }

  /** In the enum whose tree is replaced, a path is looked up in the new tree; elsewhere nothing changes. */
  lemma TreeReplaced(st: State, enum: string, tree: seq<Node>, p: string)
    requires enum in st.enums
    ensures PathLabel(WithTree(st, enum, tree), p)
         == if Split(p)[0] == enum then LabelAt(tree, Split(p)[1..]) else PathLabel(st, p)
    ensures PathLabel(st, p) == if Split(p)[0] == enum then LabelAt(st.enums[enum].tree, Split(p)[1..])
        else PathLabel(st, p)
  {
  }

  /** The new place, for a path at or below the target. */
  lemma PatchedInside(st: State, enum: string, plan: PatchPlan, position: Option<int>, p: string)
    requires Planned(st, enum, plan) && Under(p, plan.target)
    requires plan.target == plan.source || !(plan.source + "/" <= plan.target)
    requires PatchedTree(st, enum, plan, position).Done?
    ensures var st' := WithTree(st, enum, PatchedTree(st, enum, plan, position).value);
      && |plan.target| <= |p|
      && PathLabel(st', p)
          == (if p == plan.target then Some(plan.tag) else PathLabel(st, plan.source + p[|plan.target|..]))
      && (plan.target != plan.source ==> PathLabel(st, p).None?)
  {
    PlanIds(st, enum, plan);
    var t, ids := plan.pids + [Last(plan.q)], Split(p)[1..];
    hide Planned, Good, PatchedTree, PathLabel, Split, Under, NodePath, LabelAt, WithTree, Last;
    PatchedLookup(st, enum, plan, position, ids);
    UnderNode(p, enum, t);
    MovedParts(p, enum, plan.q, t);
    var was := plan.source + p[|plan.target|..];
    TailOfMoved(was, enum, plan.q, ids[|t|..]);
    TreeReplaced(st, enum, PatchedTree(st, enum, plan, position).value, p);
    TreeReplaced(st, enum, st.enums[enum].tree, was);
  }

  lemma TailOfMoved(was: string, enum: string, q: seq<string>, x: seq<string>)
    requires Split(was) == [enum] + q + x
    ensures Split(was)[0] == enum && Split(was)[1..] == q + x
  {
    hide Split;
    assert [enum] + q + x == [enum] + (q + x);
  }

  /** Every other path: gone below the old place, and as it was anywhere else. */
  lemma PatchedOutside(st: State, enum: string, plan: PatchPlan, position: Option<int>, p: string)
    requires Planned(st, enum, plan) && !Under(p, plan.target)
    requires plan.target == plan.source || !(plan.source + "/" <= plan.target)
    requires PatchedTree(st, enum, plan, position).Done?
    ensures var st' := WithTree(st, enum, PatchedTree(st, enum, plan, position).value);
      PathLabel(st', p) == if Under(p, plan.source) then None else PathLabel(st, p)
  {
    PlanIds(st, enum, plan);
    var t, ids := plan.pids + [Last(plan.q)], Split(p)[1..];
    hide Planned, Good, PatchedTree, PathLabel, Split, Under, NodePath, LabelAt, WithTree, Last;
    PatchedLookup(st, enum, plan, position, ids);
    UnderNode(p, enum, t);
    UnderNode(p, enum, plan.q);
    TreeReplaced(st, enum, PatchedTree(st, enum, plan, position).value, p);
  }

  lemma PatchedSource(st: State, enum: string, plan: PatchPlan)
    requires Planned(st, enum, plan)
    ensures PathLabel(st, plan.source).Some?
  {
    PlanIds(st, enum, plan);
    hide Planned, PathLabel, Split, Under, NodePath, LabelAt, Resolve;
    UnderNode(plan.source, enum, plan.q);
    TreeReplaced(st, enum, st.enums[enum].tree, plan.source);
    LabelOfNode(st.enums[enum].tree, plan.q);
  }

  /** What a plan says about ids and paths. */
  lemma PlanIds(st: State, enum: string, plan: PatchPlan)
    requires Planned(st, enum, plan)
    ensures enum in st.enums && SlashFree(enum) && plan.q != [] && AllSlashFree(plan.q)
    ensures Resolve(st.enums[enum].tree, plan.q).Some?
    ensures var t := plan.pids + [Last(plan.q)];
      && t != [] && AllSlashFree(t) && plan.source == NodePath(enum, plan.q) && plan.target == NodePath(enum, t)
      && (plan.target == plan.source <==> t == plan.q)
  {
    hide Good, NodePath;
    PlanPaths(enum, plan.q, plan.pids);
  }

  /** What a node patch does to every full path. */
  lemma PatchNodeEffect(rules: Rules, st: State, enum: string, rel: string, patch: NodePatch, p: string)
    requires Shaped(st) && PatchNode(rules, st, enum, rel, patch).Done?
    ensures PlanPatch(rules, st, enum, rel, patch).Done?
    ensures var plan := PlanPatch(rules, st, enum, rel, patch).value;
      var st' := PatchNode(rules, st, enum, rel, patch).value.st;
      && HasPath(st, plan.source)
      && (Under(p, plan.target) ==>
            |plan.target| <= |p| &&
            PathLabel(st', p) ==
            if p == plan.target then Some(plan.tag) else PathLabel(st, plan.source + p[|plan.target|..]))
      && (Under(p, plan.target) && plan.target != plan.source ==> !HasPath(st, p))
      && (!Under(p, plan.target) ==> PathLabel(st', p) == if Under(p, plan.source) then None else PathLabel(st, p))
  {
    hide Good, Resolve, Relabel, Detach, Place, NodePath, PatchedTree, Under, Split, PlanPatch;
    var plan := PlanPatch(rules, st, enum, rel, patch).value;
    PatchedSource(st, enum, plan);
    HasLabel(st, plan.source);
    HasLabel(st, p);
    if Under(p, plan.target) {
      PatchedInside(st, enum, plan, patch.position, p);
    } else {
      PatchedOutside(st, enum, plan, patch.position, p);
    }
  }

  lemma QNotEmpty(st: State, enum: string, plan: PatchPlan)
    requires Planned(st, enum, plan)
    ensures plan.q != []
  {
  }

  lemma PatchedGood(st: State, enum: string, plan: PatchPlan, position: Option<int>)
    requires Planned(st, enum, plan)
    requires plan.target == plan.source
      || (!(plan.source + "/" <= plan.target)
          && |plan.pids| + SubtreeDepth(Resolve(st.enums[enum].tree, plan.q).value) <= MAX_DEPTH)
    requires PatchedTree(st, enum, plan, position).Done?
    ensures Good(PatchedTree(st, enum, plan, position).value, MAX_DEPTH)
  {
    hide Good, Resolve, Relabel, Detach, Place;
    PlanPlaceable(st, enum, plan);
    var tree := Relabel(st.enums[enum].tree, plan.q, plan.tag);
    if plan.target != plan.source || position.Some? {
      PlaceGood(tree, plan.q, plan.pids, position);
    }
  }

  lemma PatchNodeShape(rules: Rules, st: State, enum: string, rel: string, patch: NodePatch)
    requires Shaped(st) && PatchNode(rules, st, enum, rel, patch).Done?
    ensures Shaped(PatchNode(rules, st, enum, rel, patch).value.st)
  {
    hide Good, Resolve, Relabel, Detach, Place, NodePath, PatchedTree, HasPath;
    PatchedGood(st, enum, PlanPatch(rules, st, enum, rel, patch).value, patch.position);
  }

  lemma PatchNodeKeeps(rules: Rules, st: State, enum: string, rel: string, patch: NodePatch)
    requires WellFormed(st) && PatchNode(rules, st, enum, rel, patch).Done?
    ensures WellFormed(PatchNode(rules, st, enum, rel, patch).value.st)
  {
    hide Good, Resolve, Relabel, Detach, Place, NodePath, PatchedTree, HasPath;
    var plan := PlanPatch(rules, st, enum, rel, patch).value;
    var st' := PatchNode(rules, st, enum, rel, patch).value.st;
    PatchNodeShape(rules, st, enum, rel, patch);
    forall p | HasPath(st, p) ensures plan.target == plan.source ==> HasPath(st', p)
      ensures !Under(p, plan.source) ==> HasPath(st', p)
      ensures Under(p, plan.source) ==> HasPath(st', plan.target + p[|plan.source|..])
    {
      PatchNodeKeepsPath(rules, st, enum, rel, patch, p);
    }
    TargetNotEmpty(st, enum, plan);
    forall r | r in st'.objects ensures PathsResolve(st', st'.objects[r].enums) {
      if plan.target != plan.source { RewriteResolves(st', st.objects[r].enums, plan.source, plan.target); }
    }
  }

  lemma TargetNotEmpty(st: State, enum: string, plan: PatchPlan)
    requires Planned(st, enum, plan)
    ensures plan.target != ""
  {
  }

  lemma PatchNodeKeepsPath(rules: Rules, st: State, enum: string, rel: string, patch: NodePatch, p: string)
    requires Shaped(st) && PatchNode(rules, st, enum, rel, patch).Done? && HasPath(st, p)
    ensures var plan := PlanPatch(rules, st, enum, rel, patch).value;
      var st' := PatchNode(rules, st, enum, rel, patch).value.st;
      && (plan.target == plan.source || !Under(p, plan.source) ==> HasPath(st', p))
      && (Under(p, plan.source) ==> HasPath(st', plan.target + p[|plan.source|..]))
  {
    hide Good, Resolve, Relabel, Detach, Place, PlanPatch, Shaped, Split;
    PatchNodeEffect(rules, st, enum, rel, patch, p);
    var plan := PlanPatch(rules, st, enum, rel, patch).value;
    if Under(p, plan.source) {
      var p' := plan.target + p[|plan.source|..];
      PatchNodeEffect(rules, st, enum, rel, patch, p');
      Rebased(p, plan.source, plan.target);
    }
  }

  lemma Rebased(p: string, from: string, to: string)
    requires Under(p, from)
    ensures |from| <= |p|
    ensures var p' := to + p[|from|..]; Under(p', to) && |to| <= |p'| && from + p'[|to|..] == p
    ensures to + p[|from|..] == to ==> p == from
  {
    var p' := to + p[|from|..];
    assert p'[|to|..] == p[|from|..];
    assert p == from + p[|from|..];
    if p != from { assert p[|from|..] == "/" + p[|from| + 1..]; }
  }

  // ----- a move keeps membership -----

  /** The whole subtree below a moved node is found again, node for node, at the new place. */
  lemma MovedNode(st: State, enum: string, plan: PatchPlan, position: Option<int>, x: seq<string>)
    requires Planned(st, enum, plan)
    requires plan.target != plan.source && !(plan.source + "/" <= plan.target)
    requires PatchedTree(st, enum, plan, position).Done?
    ensures plan.q != []
    ensures Resolve(PatchedTree(st, enum, plan, position).value, plan.pids + [Last(plan.q)] + x)
         == if x == []
             then Some(Resolve(st.enums[enum].tree, plan.q).value.(name := plan.tag.name, icon := plan.tag.icon))
            else Resolve(st.enums[enum].tree, plan.q + x)
  {
    hide Good, Resolve, Relabel, Detach, Place;
    QNotEmpty(st, enum, plan);
    PlanPlaceable(st, enum, plan);
    var tree0 := st.enums[enum].tree;
    var tree := Relabel(tree0, plan.q, plan.tag);
    var ids := plan.pids + [Last(plan.q)] + x;
    PlaceLookup(tree, plan.q, plan.pids, position, ids);
    assert ids[|plan.pids + [Last(plan.q)]|..] == x;
    if x == [] {
      assert plan.q + x == plan.q;
    } else {
      ResolveBelow(tree, plan.q, x);
      ResolveBelow(tree0, plan.q, x);
    }
  }

  lemma NodeAt(st: State, enum: string, ids: seq<string>, p: string)
    requires enum in st.enums && ids != [] && Split(p) == [enum] + ids
    ensures PathNode(st, p) == Resolve(st.enums[enum].tree, ids)
  {
    assert Split(p)[1..] == ids;
  }

  lemma MovedPathNode(rules: Rules, st: State, enum: string, rel: string, patch: NodePatch, p: string)
    requires Shaped(st) && PatchNode(rules, st, enum, rel, patch).Done?
    requires var plan := PlanPatch(rules, st, enum, rel, patch).value;
             plan.target != plan.source && Under(p, plan.source)
    ensures var plan := PlanPatch(rules, st, enum, rel, patch).value;
      PathNode(PatchNode(rules, st, enum, rel, patch).value.st, plan.target + p[|plan.source|..])
      == if p == plan.source && PathNode(st, p).Some?
         then Some(PathNode(st, p).value.(name := plan.tag.name, icon := plan.tag.icon))
         else PathNode(st, p)
  {
    hide Good, Resolve, Relabel, Detach, Place, PathNode, PatchedTree, Split, Under, NodePath;
    var plan := PlanPatch(rules, st, enum, rel, patch).value;
    QNotEmpty(st, enum, plan);
    var t := plan.pids + [Last(plan.q)];
    MovedParts(p, enum, t, plan.q);
    UnderNode(p, enum, plan.q);
    var x := Split(p)[1..][|plan.q|..];
    var st' := PatchNode(rules, st, enum, rel, patch).value.st;
    MovedNode(st, enum, plan, patch.position, x);
    assert Split(p) == [enum] + (plan.q + x) by {
      assert Split(p) == [Split(p)[0]] + Split(p)[1..];
      assert Split(p)[1..] == plan.q + x;
    }
    NodeAt(st, enum, plan.q + x, p);
    assert [enum] + t + x == [enum] + (t + x);
    NodeAt(st', enum, t + x, plan.target + p[|plan.source|..]);
    assert x == [] <==> plan.q + x == plan.q;
    assert x == [] ==> plan.q + x == plan.q;
  }

  lemma {:induction false} RewriteEach(paths: seq<string>, from: string, to: string, i: nat)
    requires to != "" && i < |paths|
    ensures |RewriteList(paths, from, to)| == |paths|
    ensures RewriteList(paths, from, to)[i] == if Under(paths[i], from) then to + paths[i][|from|..] else paths[i]
  {
    if |paths| > 1 {
      RewriteEach(paths[1..], from, to, if i == 0 then 0 else i - 1);
    }
  }

  /** Moving a node keeps every membership: each object keeps as many paths, in order; a path
      into the moved subtree now names the very node it named before (the moved node itself
      with its new label), and every other path that named a node still names one with the same
      label. */
  lemma MoveKeepsMembership(rules: Rules, st: State, enum: string, rel: string, patch: NodePatch, ref: string, i: nat)
    requires Shaped(st) && PatchNode(rules, st, enum, rel, patch).Done?
    requires ref in st.objects && i < |st.objects[ref].enums| && HasPath(st, st.objects[ref].enums[i])
    ensures var plan := PlanPatch(rules, st, enum, rel, patch).value;
      var st' := PatchNode(rules, st, enum, rel, patch).value.st;
      && ref in st'.objects && |st'.objects[ref].enums| == |st.objects[ref].enums|
      && var p, p' := st.objects[ref].enums[i], st'.objects[ref].enums[i];
      && PathNode(st, p).Some?
      && (Under(p, plan.source) && p != plan.source && plan.target != plan.source
          ==> PathNode(st', p') == PathNode(st, p))
      && (p == plan.source && plan.target != plan.source ==>
            PathNode(st', p') == Some(PathNode(st, p).value.(name := plan.tag.name, icon := plan.tag.icon)))
      && PathLabel(st', p') == if p == plan.source then Some(plan.tag) else PathLabel(st, p)
  {
    hide Good, Resolve, Relabel, Detach, Place, PatchedTree, Split, NodePath, PlanPatch, PathNode, Under;
    var plan := PlanPatch(rules, st, enum, rel, patch).value;
    var st' := PatchNode(rules, st, enum, rel, patch).value.st;
    var p := st.objects[ref].enums[i];
    assert HasPath(st, p);
    PathNodeSome(st, p);
    PatchNodeEffect(rules, st, enum, rel, patch, p);
    TargetNotEmpty(st, enum, plan);
    if plan.target != plan.source {
      RewriteEach(st.objects[ref].enums, plan.source, plan.target, i);
      if Under(p, plan.source) {
        Rebased(p, plan.source, plan.target);
        MovedPathNode(rules, st, enum, rel, patch, p);
        PatchNodeEffect(rules, st, enum, rel, patch, plan.target + p[|plan.source|..]);
      } else {
        UnderSelf(plan.source);
      }
    } else {
      UnderSelf(plan.source);
      if Under(p, plan.source) {
        assert plan.source + p[|plan.source|..] == p by { Rebased(p, plan.source, plan.source); }
      }
    }
  }

  lemma UnderSelf(p: string)
    ensures Under(p, p)
  {
  }

  lemma PathNodeSome(st: State, p: string)
    ensures HasPath(st, p) <==> PathNode(st, p).Some?
    ensures PathNode(st, p).Some? ==> PathLabel(st, p) == Some(LabelOf(PathNode(st, p).value))
  {
  }

  /** Every operation keeps the trees well formed, whatever the objects hold. */
  lemma ApplyKeepsShape(rules: Rules, st: State, op: Op)
    requires Shaped(st) && Apply(rules, st, op).Done?
    ensures Shaped(Apply(rules, st, op).value.st)
  {
    hide Good, Resolve, Relabel, Detach, Place, PatchedTree, Split, PlanPatch, PatchNode, CreateNode, DeleteNode;
    match op
    case CreateNodeOp(enum, parent, id, name, icon, position) =>
      CreateNodeShape(rules, st, enum, parent, id, name, icon, position);
    case PatchNodeOp(enum, rel, p) => PatchNodeShape(rules, st, enum, rel, p);
    case DeleteNodeOp(enum, rel, detach) => DeleteNodeShape(st, enum, rel, detach);
    case CreateEnumOp(id, name) => CreateEnumShape(rules, st, id, name);
    case _ =>
  }

  lemma CreateEnumShape(rules: Rules, st: State, id: string, name: map<string, string>)
    requires Shaped(st) && CreateEnum(rules, st, id, name).Done?
    ensures Shaped(CreateEnum(rules, st, id, name).value.st)
  {
    assert SlashFree(id);
  }

  /** Every operation keeps the store well formed. */
  lemma ApplyKeepsWellFormed(rules: Rules, st: State, op: Op)
    requires WellFormed(st) && Apply(rules, st, op).Done?
    ensures WellFormed(Apply(rules, st, op).value.st)
  {
    hide Good, Resolve, Relabel, Detach, Place, PatchedTree, Split, PlanPatch, PatchNode, CreateNode, DeleteNode,
        DeleteEnum;
    match op
    case CreateNodeOp(enum, parent, id, name, icon, position) =>
      CreateNodeKeeps(rules, st, enum, parent, id, name, icon, position);
    case PatchNodeOp(enum, rel, p) => PatchNodeKeeps(rules, st, enum, rel, p);
    case DeleteNodeOp(enum, rel, detach) => DeleteNodeKeeps(st, enum, rel, detach);
    case DeleteEnumOp(id, detach) => DeleteEnumKeeps(st, id, detach);
    case PatchObjectOp(_, _) => SameEnums(st, Apply(rules, st, op).value.st);
    case SetOrphanedOp(_, _) => SameEnums(st, Apply(rules, st, op).value.st);
    case DeleteObjectOp(_) => SameEnums(st, Apply(rules, st, op).value.st);
    case CreateEnumOp(id, name) => CreateEnumKeeps(rules, st, id, name);
    case PatchEnumOp(id, name) => PatchEnumKeeps(rules, st, id, name);
  }

  lemma SameEnums(st: State, st': State)
    ensures st'.enums == st.enums ==> forall p :: HasPath(st', p) == HasPath(st, p)
  {
  }

  lemma CreateEnumKeeps(rules: Rules, st: State, id: string, name: map<string, string>)
    requires WellFormed(st) && CreateEnum(rules, st, id, name).Done?
    ensures WellFormed(CreateEnum(rules, st, id, name).value.st)
  {
    var st' := CreateEnum(rules, st, id, name).value.st;
    assert SlashFree(id);
    assert forall p :: HasPath(st, p) ==> HasPath(st', p);
  }

  lemma PatchEnumKeeps(rules: Rules, st: State, id: string, name: map<string, string>)
    requires WellFormed(st) && PatchEnum(rules, st, id, name).Done?
    ensures WellFormed(PatchEnum(rules, st, id, name).value.st)
  {
    var st' := PatchEnum(rules, st, id, name).value.st;
    assert forall p :: HasPath(st, p) ==> HasPath(st', p);
  }
}
