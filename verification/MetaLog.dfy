/** Transactions, the revision, and the bounded change log with replay. */
module MetaLog {
  import opened Collections
  import opened MetaTree
  import opened MetaOps
  import opened MetaSafety
  import opened MetaReplica
  import Names

  // ----- transactions -----

  function RunOps(rules: Rules, st: State, ops: seq<Op>): (r: Outcome<Step>)
    requires Shaped(st)
    ensures r.Done? ==> Shaped(r.value.st)
    decreases |ops|
  {
    if ops == [] then Done(Step(st, []))
    else
      var first :- Apply(rules, st, ops[0]);
      ApplyKeepsShape(rules, st, ops[0]);
      var rest :- RunOps(rules, first.st, ops[1..]);
      Done(Step(rest.st, first.changes + rest.changes))
  }

  lemma {:induction false} RunOpsWellFormed(rules: Rules, st: State, ops: seq<Op>)
    requires WellFormed(st) && RunOps(rules, st, ops).Done?
    ensures WellFormed(RunOps(rules, st, ops).value.st)
    decreases |ops|
  {
    if ops != [] {
      hide WellFormed, Apply;
      assert Shaped(st) by { WellFormedIsShaped(st); }
      ApplyKeepsWellFormed(rules, st, ops[0]);
      RunOpsWellFormed(rules, Apply(rules, st, ops[0]).value.st, ops[1..]);
    }
  }

  lemma WellFormedIsShaped(st: State)
    requires WellFormed(st)
    ensures Shaped(st)
  {
  }

  function ObjectChange(ref: string, before: map<string, Object>, after: map<string, Object>): seq<Change> {
    if ref !in after then [ObjectDeleted(ref)]
    else if ref !in before || before[ref] != after[ref] then [ObjectUpdated(ref, after[ref])]
    else []
  }

  function ObjectChangesOver(names: seq<string>, before: map<string, Object>, after: map<string, Object>): seq<Change> {
    if names == [] then []
    else ObjectChange(names[0], before, after) + ObjectChangesOver(names[1..], before, after)
  }

  /** One event per object that differs, in reference order. */
  function ObjectChanges(before: map<string, Object>, after: map<string, Object>): seq<Change> {
    ObjectChangesOver(Names.Sorted(before.Keys + after.Keys), before, after)
  }

  lemma ApplyOne(r: Replica, c: Change)
    ensures ApplyAll(r, [c]) == ApplyChange(r, c)
  {
    assert [c][1..] == [];
    assert ApplyAll(ApplyChange(r, c), []) == ApplyChange(r, c);
  }

  ghost predicate Agree(a: map<string, Object>, b: map<string, Object>, x: string) {
    (x in a <==> x in b) && (x in a ==> a[x] == b[x])
  }

  lemma ObjectChangeApply(r: Replica, x: string, before: map<string, Object>, after: map<string, Object>)
    requires x in before.Keys + after.Keys && Agree(r.objects, before, x)
    ensures var r' := ApplyAll(r, ObjectChange(x, before, after));
      && r' == r.(objects := r'.objects) && Agree(r'.objects, after, x)
      && forall y :: y != x ==> Agree(r'.objects, r.objects, y)
  {
    if ObjectChange(x, before, after) != [] { ApplyOne(r, ObjectChange(x, before, after)[0]); }
  }

  lemma {:induction false} ObjectChangesApply(names: seq<string>, r: Replica, before: map<string, Object>,
                                              after: map<string, Object>)
    requires forall i, j :: 0 <= i < j < |names| ==> names[i] != names[j]
    requires forall x :: x in names ==> x in before.Keys + after.Keys && Agree(r.objects, before, x)
    requires forall x :: x !in names ==> Agree(r.objects, after, x)
    ensures ApplyAll(r, ObjectChangesOver(names, before, after)) == r.(objects := after)
  {
    if names == [] {
      forall x ensures (x in r.objects <==> x in after) && (x in after ==> r.objects[x] == after[x]) {
        assert Agree(r.objects, after, x);
      }
      assert r.objects == after;
    } else {
      hide ApplyAll, ObjectChange;
      ObjectChangeApply(r, names[0], before, after);
      var r' := ApplyAll(r, ObjectChange(names[0], before, after));
      assert forall y :: y in names[1..] ==> y in names && y != names[0];
      assert forall y :: y !in names[1..] && y != names[0] ==> y !in names;
      ObjectChangesApply(names[1..], r', before, after);
      ApplyAllConcat(r, ObjectChange(names[0], before, after), ObjectChangesOver(names[1..], before, after));
    }
  }

  lemma ApplyFollows(rules: Rules, st: State, op: Op)
    requires Shaped(st) && Apply(rules, st, op).Done?
    ensures Follows(st, Apply(rules, st, op).value)
  {
    hide Shaped, PatchNode, CreateNode, DeleteNode, DeleteEnum, View, CreateEnum, PatchEnum;
    match op
    case CreateNodeOp(enum, parent, id, name, icon, position) => CreateNodeFollows(rules, st, enum, parent, id, name,
        icon, position);
    case PatchNodeOp(enum, rel, p) => PatchNodeFollows(rules, st, enum, rel, p);
    case DeleteNodeOp(enum, rel, detach) => DeleteNodeFollows(st, enum, rel, detach);
    case DeleteEnumOp(id, detach) => DeleteEnumFollows(st, id, detach);
    case CreateEnumOp(_, _) => PutEnumFollows(rules, st, op);
    case PatchEnumOp(_, _) => PutEnumFollows(rules, st, op);
    case PatchObjectOp(_, _) => ObjectOpFollows(st, Apply(rules, st, op).value);
    case SetOrphanedOp(_, _) => ObjectOpFollows(st, Apply(rules, st, op).value);
    case DeleteObjectOp(_) => ObjectOpFollows(st, Apply(rules, st, op).value);
  }

  lemma ObjectOpFollows(st: State, step: Step)
    requires step.changes == [] && step.st.enums == st.enums
    ensures Follows(st, step)
  {
    assert AllPaths(step.st) == AllPaths(st);
    assert forall p :: HasPath(step.st, p) == HasPath(st, p);
    assert Nodes(step.st) == Nodes(st);
  }

  lemma {:induction false} RunOpsFollows(rules: Rules, st: State, ops: seq<Op>)
    requires Shaped(st) && RunOps(rules, st, ops).Done?
    ensures Follows(st, RunOps(rules, st, ops).value)
    decreases |ops|
  {
    if ops != [] {
      var first := Apply(rules, st, ops[0]).value;
      ApplyKeepsShape(rules, st, ops[0]);
      ApplyFollows(rules, st, ops[0]);
      RunOpsFollows(rules, first.st, ops[1..]);
      FollowsChain(st, first, RunOps(rules, first.st, ops[1..]).value);
    }
  }

  lemma FollowsChain(st: State, first: Step, rest: Step)
    requires Follows(st, first) && Follows(first.st, rest)
    ensures Follows(st, Step(rest.st, first.changes + rest.changes))
  {
    hide View;
    forall objects ensures ApplyAll(View(st).(objects := objects), first.changes + rest.changes)
        == View(rest.st).(objects := objects) {
      ApplyAllConcat(View(st).(objects := objects), first.changes, rest.changes);
    }
  }

  /** The events a transaction commits: those of its operations, then one per changed object. */
  function CommitChanges(st: State, step: Step): seq<Change> {
    step.changes + ObjectChanges(st.objects, step.st.objects)
  }

  /** Applying the committed events to a copy of the old content gives a copy of the new. */
  lemma CommitReplays(rules: Rules, st: State, ops: seq<Op>)
    requires Shaped(st) && RunOps(rules, st, ops).Done?
    ensures var step := RunOps(rules, st, ops).value;
            ApplyAll(View(st), CommitChanges(st, step)) == View(step.st)
  {
    var step := RunOps(rules, st, ops).value;
    RunOpsFollows(rules, st, ops);
    var mid := View(step.st).(objects := st.objects);
    assert View(st).(objects := st.objects) == View(st);
    ApplyAllConcat(View(st), step.changes, ObjectChanges(st.objects, step.st.objects));
    ObjectChangesApply(Names.Sorted(st.objects.Keys + step.st.objects.Keys), mid, st.objects, step.st.objects);
  }

  // ----- no silent change -----

  lemma ApplySilent(rules: Rules, st: State, op: Op)
    requires Shaped(st) && Apply(rules, st, op).Done?
    ensures Apply(rules, st, op).value.changes == [] ==> Apply(rules, st, op).value.st.enums == st.enums
  {
    if op.PatchNodeOp? { PatchNodeSilent(rules, st, op.enum, op.rel, op.nodePatch); }
  }

  lemma PatchNodeSilent(rules: Rules, st: State, enum: string, rel: string, p: NodePatch)
    requires Shaped(st) && PatchNode(rules, st, enum, rel, p).Done?
    ensures PatchNode(rules, st, enum, rel, p).value.changes == []
        ==> PatchNode(rules, st, enum, rel, p).value.st.enums == st.enums
  {
    var step := PatchNode(rules, st, enum, rel, p).value;
    if step.changes == [] {
      var plan := PlanPatch(rules, st, enum, rel, p).value;
      var tree := st.enums[enum].tree;
      PlanPlaceable(st, enum, plan);
      RelabelSame(tree, plan.q, plan.tag);
      if p.position.Some? { PlaceSame(tree, plan.q, p.position.value); }
      assert step.st == WithTree(st, enum, tree);
    }
  }

  /** Writing a list back where it came from changes nothing. */
  lemma {:induction false} WithListSame(f: seq<Node>, p: seq<string>)
    requires HasList(f, p)
    ensures WithList(f, p, ListAt(f, p)) == f
    decreases |p|
  {
    if p != [] { WithListSame(f[FindIndex(f, p[0])].children, p[1..]); }
  }

  lemma RelabelSame(f: seq<Node>, q: seq<string>, tag: Label)
    requires Resolve(f, q).Some? && tag == LabelOf(Resolve(f, q).value)
    ensures Relabel(f, q, tag) == f
  {
    var i := SiblingIndex(f, q);
    var list := ListAt(f, Parent(q));
    assert list[i := list[i].(name := tag.name, icon := tag.icon)] == list;
    WithListSame(f, Parent(q));
  }

  /** Putting a node back at its own position changes nothing. */
  lemma PlaceSame(f: seq<Node>, q: seq<string>, position: int)
    requires Resolve(f, q).Some? && position == SiblingIndex(f, q)
    requires HasList(Detach(f, q), Parent(q)) && Place(f, q, Parent(q), Some(position)).Done?
    ensures Place(f, q, Parent(q), Some(position)).value == f
  {
    var p, i := Parent(q), SiblingIndex(f, q);
    var list := ListAt(f, p);
    InsertRemoved(list, i);
    hide Resolve, WithList, InsertAt, RemoveAt;
    WithListTwice(f, p, RemoveAt(list, i), list);
    WithListSame(f, p);
  }

  lemma InsertRemoved(list: seq<Node>, i: nat)
    requires i < |list|
    ensures InsertAt(RemoveAt(list, i), list[i], Some(i)) == list
  {
  }

  lemma {:induction false} RunOpsSilent(rules: Rules, st: State, ops: seq<Op>)
    requires Shaped(st) && RunOps(rules, st, ops).Done?
    ensures RunOps(rules, st, ops).value.changes == [] ==> RunOps(rules, st, ops).value.st.enums == st.enums
    decreases |ops|
  {
    if ops != [] {
      ApplySilent(rules, st, ops[0]);
      ApplyKeepsShape(rules, st, ops[0]);
      RunOpsSilent(rules, Apply(rules, st, ops[0]).value.st, ops[1..]);
    }
  }

  lemma {:induction false} ObjectsSilent(names: seq<string>, before: map<string, Object>, after: map<string, Object>)
    requires forall x :: x in names ==> x in before.Keys + after.Keys
    ensures ObjectChangesOver(names, before, after) == [] ==>
              forall x :: x in names ==> x in before && x in after && before[x] == after[x]
  {
    if names != [] { ObjectsSilent(names[1..], before, after); }
  }

  /** A transaction that changes anything emits at least one event. */
  lemma ChangeIsAnnounced(rules: Rules, st: State, ops: seq<Op>)
    requires Shaped(st) && RunOps(rules, st, ops).Done?
    requires CommitChanges(st, RunOps(rules, st, ops).value) == []
    ensures RunOps(rules, st, ops).value.st == st
  {
    hide RunOps, Shaped, ObjectChanges;
    var st' := RunOps(rules, st, ops).value.st;
    RunOpsSilent(rules, st, ops);
    SameObjects(st.objects, st'.objects);
  }

  lemma SameObjects(before: map<string, Object>, after: map<string, Object>)
    requires ObjectChanges(before, after) == []
    ensures after == before
  {
    hide ObjectChangesOver;
    var names := Names.Sorted(before.Keys + after.Keys);
    ObjectsSilent(names, before, after);
    assert forall x :: x in before || x in after ==> x in names;
  }
}
