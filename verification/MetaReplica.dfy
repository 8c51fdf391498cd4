/** A client that keeps a copy of the store by applying change events: objects by reference,
    enum names by id, node labels by full path. Sibling order is not part of the copy. */
module MetaReplica {
  import opened Collections
  import opened Text
  import opened MetaTree
  import opened MetaOps
  import opened MetaSafety
  import Names

  datatype Replica = Replica(objects: map<string, Object>, names: map<string, map<string, string>>,
                             nodes: map<string, Label>)

  function TreePaths(f: seq<Node>): (paths: set<seq<string>>)
    ensures forall ids :: ids in paths <==> Resolve(f, ids).Some?
  {
    if f == [] then {}
    else
      var below, others := TreePaths(f[0].children), TreePaths(f[1..]);
      var paths := {[f[0].id]}
        + (set x <- below :: [f[0].id] + x)
        + (set x <- others | x != [] && x[0] != f[0].id);
      assert forall ids :: ids in paths <==> Resolve(f, ids).Some? by {
        forall ids ensures ids in paths <==> Resolve(f, ids).Some? { TreePathsStep(f, ids); }
      }
      paths
  }

  lemma TreePathsStep(f: seq<Node>, ids: seq<string>)
    requires f != []
    ensures Resolve(f, ids).Some? <==>
      ids == [f[0].id]
      || (exists x :: Resolve(f[0].children, x).Some? && ids == [f[0].id] + x)
      || (Resolve(f[1..], ids).Some? && ids != [] && ids[0] != f[0].id)
  {
    if ids != [] && ids[0] == f[0].id {
      FirstHead(f, ids);
    } else if ids != [] {
      OtherHead(f, ids);
    }
  }

  lemma FirstHead(f: seq<Node>, ids: seq<string>)
    requires f != [] && ids != [] && ids[0] == f[0].id
    ensures Resolve(f, ids).Some? <==> ids == [f[0].id] || Resolve(f[0].children, ids[1..]).Some?
    ensures ids == [f[0].id] + ids[1..] && forall x :: ids == [f[0].id] + x ==> x == ids[1..]
    ensures Resolve(f[0].children, []).None?
  {
    forall x | ids == [f[0].id] + x ensures x == ids[1..] {}
    FindIndexIs(f, ids[0], 0);
  }

  lemma OtherHead(f: seq<Node>, ids: seq<string>)
    requires f != [] && ids != [] && ids[0] != f[0].id
    ensures Resolve(f, ids).Some? <==> Resolve(f[1..], ids).Some?
  {
    var k := FindIndex(f[1..], ids[0]);
    if k == |f[1..]| { FindIndexNone(f, ids[0]); } else { FindIndexIs(f, ids[0], k + 1); }
  }

  function AllPaths(st: State): set<string> {
    set e, ids | e in st.enums && ids in TreePaths(st.enums[e].tree) :: NodePath(e, ids)
  }

  function Nodes(st: State): map<string, Label> {
    map p <- AllPaths(st) | HasPath(st, p) :: PathLabel(st, p).value
  }

  function EnumNames(st: State): map<string, map<string, string>> {
    map e <- st.enums :: st.enums[e].name
  }

  /** The copy a snapshot of the store gives. */
  function View(st: State): Replica {
    Replica(st.objects, EnumNames(st), Nodes(st))
  }

  function Only(id: string, value: Enum): State {
    State(map[], map[id := value])
  }

  function Without(nodes: map<string, Label>, path: string): map<string, Label> {
    map p <- nodes | !Under(p, path) :: nodes[p]
  }

  function Moved(nodes: map<string, Label>, from: string, to: string): map<string, Label> {
    map p <- (set p <- nodes | Under(p, from) :: to + p[|from|..])
      | |to| <= |p| && from + p[|to|..] in nodes :: nodes[from + p[|to|..]]
  }

  function ApplyChange(r: Replica, c: Change): Replica {
    match c
    case EnumCreated(id, v) => r.(names := r.names[id := v.name], nodes := Without(r.nodes, id) + Nodes(Only(id, v)))
    case EnumUpdated(id, v) => r.(names := r.names[id := v.name], nodes := Without(r.nodes, id) + Nodes(Only(id, v)))
    case EnumDeleted(id) => r.(names := r.names - {id}, nodes := Without(r.nodes, id))
    case NodeCreated(path, tag) => r.(nodes := r.nodes[path := tag])
    case NodeUpdated(path, tag) => r.(nodes := r.nodes[path := tag])
    case NodeDeleted(path) => r.(nodes := Without(r.nodes, path))
    case NodeMoved(from, to) => r.(nodes := Without(r.nodes, from) + Moved(r.nodes, from, to))
    case ObjectUpdated(ref, o) => r.(objects := r.objects[ref := o])
    case ObjectDeleted(ref) => r.(objects := r.objects - {ref})
    case Import => r
  }

  function ApplyAll(r: Replica, changes: seq<Change>): Replica
    decreases |changes|
  {
    if changes == [] then r else ApplyAll(ApplyChange(r, changes[0]), changes[1..])
  }

  lemma {:induction false} ApplyAllConcat(r: Replica, a: seq<Change>, b: seq<Change>)
    ensures ApplyAll(r, a + b) == ApplyAll(ApplyAll(r, a), b)
    decreases |a|
  {
    if a == [] {
      assert a + b == b;
    } else {
      assert (a + b)[1..] == a[1..] + b;
      ApplyAllConcat(ApplyChange(r, a[0]), a[1..], b);
    }
  }

  /** In a well-formed store the copy holds exactly the paths that resolve. */
  lemma NodesExact(st: State, p: string)
    requires TreesGood(st.enums)
    ensures p in Nodes(st) <==> HasPath(st, p)
    ensures p in Nodes(st) ==> Nodes(st)[p] == PathLabel(st, p).value
  {
    if HasPath(st, p) {
      var e, ids := Split(p)[0], Split(p)[1..];
      assert ids in TreePaths(st.enums[e].tree);
      JoinSplit(p);
      assert p == NodePath(e, ids) by { JoinConcat([e], ids); assert [e] + ids == Split(p); }
    }
  }

  function At(nodes: map<string, Label>, p: string): Option<Label> {
    if p in nodes then Some(nodes[p]) else None
  }

  lemma NodesAt(st: State, p: string)
    requires TreesGood(st.enums)
    ensures At(Nodes(st), p) == PathLabel(st, p)
  {
    NodesExact(st, p);
  }

  /** Two copies of the node labels agree if they agree at every path. */
  lemma SameNodes(st: State, nodes: map<string, Label>)
    requires TreesGood(st.enums)
    requires forall p :: At(nodes, p) == PathLabel(st, p)
    ensures nodes == Nodes(st)
  {
    forall p ensures p in nodes <==> p in Nodes(st) ensures p in nodes ==> nodes[p] == Nodes(st)[p] {
      NodesAt(st, p);
      assert At(nodes, p) == At(Nodes(st), p);
    }
  }

  /** The events an operation emits take the copy from the old structure to the new one;
      objects are not touched by them. */
  ghost predicate Follows(st: State, step: Step) {
    forall objects :: ApplyAll(View(st).(objects := objects), step.changes) == View(step.st).(objects := objects)
  }

  lemma OneChange(st: State, step: Step)
    requires |step.changes| == 1
    requires forall objects ::
        ApplyChange(View(st).(objects := objects), step.changes[0]) == View(step.st).(objects := objects)
    ensures Follows(st, step)
  {
  }

  lemma CreateNodeNames(rules: Rules, st: State, enum: string, parent: Option<string>, id: string,
                        name: string, icon: string, position: Option<int>)
    requires Shaped(st)
    requires CreateNode(rules, st, enum, parent, id, name, icon, position).Done?
    ensures EnumNames(CreateNode(rules, st, enum, parent, id, name, icon, position).value.st) == EnumNames(st)
  {
    hide Good, Resolve, ParentIds, Attach, Split, HasPath, Shaped, ValidId;
  }

  lemma PatchNodeNames(rules: Rules, st: State, enum: string, rel: string, patch: NodePatch)
    requires Shaped(st) && PatchNode(rules, st, enum, rel, patch).Done?
    ensures EnumNames(PatchNode(rules, st, enum, rel, patch).value.st) == EnumNames(st)
  {
    hide Good, Resolve, PlanPatch, PatchedTree, Split, HasPath, Shaped;
  }

  lemma CreateNodeFollows(rules: Rules, st: State, enum: string, parent: Option<string>, id: string,
                          name: string, icon: string, position: Option<int>)
    requires Shaped(st)
    requires CreateNode(rules, st, enum, parent, id, name, icon, position).Done?
    ensures Follows(st, CreateNode(rules, st, enum, parent, id, name, icon, position).value)
  {
    var step := CreateNode(rules, st, enum, parent, id, name, icon, position).value;
    CreateNodeNames(rules, st, enum, parent, id, name, icon, position);
    CreateNodeShape(rules, st, enum, parent, id, name, icon, position);
    CreateNodeEffect(rules, st, enum, parent, id, name, icon, position, "");
    hide CreateNode, Good, HasPath, Nodes, PathLabel, EnumNames;
    var nodes := Nodes(st)[step.changes[0].path := step.changes[0].tag];
    forall p ensures At(nodes, p) == PathLabel(step.st, p) {
      CreateNodeEffect(rules, st, enum, parent, id, name, icon, position, p);
      NodesAt(st, p);
    }
    SameNodes(step.st, nodes);
    OneChange(st, step);
  }

  lemma DeleteNodeFollows(st: State, enum: string, rel: string, detach: bool)
    requires Shaped(st) && DeleteNode(st, enum, rel, detach).Done?
    ensures Follows(st, DeleteNode(st, enum, rel, detach).value)
  {
    hide Good, HasPath, Nodes, Under, PathLabel, Detach, RelIds, RewritePaths, ObjectsUnder;
    var step := DeleteNode(st, enum, rel, detach).value;
    DeleteNodeShape(st, enum, rel, detach);
    assert EnumNames(step.st) == EnumNames(st);
    DeleteNodeEffect(st, enum, rel, detach, "");
    hide DeleteNode, Good, HasPath, Nodes, Under, PathLabel;
    var nodes := Without(Nodes(st), step.changes[0].path);
    forall p ensures At(nodes, p) == PathLabel(step.st, p) {
      DeleteNodeEffect(st, enum, rel, detach, p);
      NodesAt(st, p);
    }
    SameNodes(step.st, nodes);
    OneChange(st, step);
  }

  lemma DeleteEnumFollows(st: State, id: string, detach: bool)
    requires Shaped(st) && DeleteEnum(st, id, detach).Done?
    ensures Follows(st, DeleteEnum(st, id, detach).value)
  {
    var step := DeleteEnum(st, id, detach).value;
    assert EnumNames(step.st) == EnumNames(st) - {id};
    hide Good, HasPath, Nodes, Under, PathLabel;
    var nodes := Without(Nodes(st), id);
    forall p ensures At(nodes, p) == PathLabel(step.st, p) {
      DeleteEnumEffect(st, id, detach, p);
      NodesAt(st, p);
    }
    SameNodes(step.st, nodes);
    OneChange(st, step);
  }

  /** Replacing one enum: its paths are looked up in the new value, all others as before. */
  lemma PutEnumNodes(st: State, id: string, value: Enum)
    requires TreesGood(st.enums) && SlashFree(id) && Good(value.tree, MAX_DEPTH)
    ensures Nodes(st.(enums := st.enums[id := value])) == Without(Nodes(st), id) + Nodes(Only(id, value))
  {
    var st' := st.(enums := st.enums[id := value]);
    var nodes := Without(Nodes(st), id) + Nodes(Only(id, value));
    forall p ensures At(nodes, p) == PathLabel(st', p) { PutEnumNodeAt(st, id, value, p); }
    SameNodes(st', nodes);
  }

  lemma PutEnumNodeAt(st: State, id: string, value: Enum, p: string)
    requires TreesGood(st.enums) && SlashFree(id) && Good(value.tree, MAX_DEPTH)
    ensures At(Without(Nodes(st), id) + Nodes(Only(id, value)), p) == PathLabel(st.(enums := st.enums[id := value]), p)
  {
    assert PathLabel(st.(enums := st.enums[id := value]), p)
        == if Split(p)[0] == id then PathLabel(Only(id, value), p) else PathLabel(st, p);
    assert Split(p)[0] != id ==> PathLabel(Only(id, value), p).None?;
    hide Good, HasPath, Nodes, Under, PathLabel;
    UnderEnum(p, id);
    NodesAt(st, p);
    NodesAt(Only(id, value), p);
  }

  lemma PutEnumView(st: State, id: string, value: Enum, c: Change)
    requires TreesGood(st.enums) && SlashFree(id) && Good(value.tree, MAX_DEPTH)
    requires c == EnumCreated(id, value) || c == EnumUpdated(id, value)
    ensures var after := View(st.(enums := st.enums[id := value]));
      forall objects :: ApplyChange(View(st).(objects := objects), c) == after.(objects := objects)
  {
    PutEnumNodes(st, id, value);
    hide Good, Nodes, Under;
    assert EnumNames(st.(enums := st.enums[id := value])) == EnumNames(st)[id := value.name];
  }

  /** What creating or renaming an enum does: it puts one enum and announces it. */
  lemma PutEnumStep(rules: Rules, st: State, op: Op)
    requires Shaped(st) && (op.CreateEnumOp? || op.PatchEnumOp?) && Apply(rules, st, op).Done?
    ensures var step := Apply(rules, st, op).value;
      if step.changes == [] then step.st == st
      else
        && |step.changes| == 1 && (step.changes[0].EnumCreated? || step.changes[0].EnumUpdated?)
        && SlashFree(op.id) && step.changes[0].id == op.id
        && step.st == st.(enums := st.enums[op.id := step.changes[0].value])
            && Good(step.changes[0].value.tree, MAX_DEPTH)
  {
    hide CreateNode, PatchNode, DeleteNode, DeleteEnum, PatchObject;
  }

  lemma PutEnumFollows(rules: Rules, st: State, op: Op)
    requires Shaped(st) && (op.CreateEnumOp? || op.PatchEnumOp?) && Apply(rules, st, op).Done?
    ensures Follows(st, Apply(rules, st, op).value)
  {
    PutEnumStep(rules, st, op);
    hide Apply, Good, View, ApplyChange;
    var step := Apply(rules, st, op).value;
    if step.changes != [] {
      PutEnumView(st, op.id, step.changes[0].value, step.changes[0]);
      OneChange(st, step);
    }
  }

  function AfterMove(nodes: map<string, Label>, plan: PatchPlan): map<string, Label> {
    if plan.target != plan.source then Without(nodes, plan.source) + Moved(nodes, plan.source, plan.target) else nodes
  }

  lemma LabelledPath(st: State, p: string)
    ensures HasPath(st, p) <==> PathLabel(st, p).Some?
  {
  }

  lemma MovedAt(nodes: map<string, Label>, from: string, to: string, p: string)
    ensures Under(p, to) ==> |to| <= |p|
    ensures At(Moved(nodes, from, to), p) == if Under(p, to) then At(nodes, from + p[|to|..]) else None
  {
    if Under(p, to) {
      Rebased(p, to, from);
      var was := from + p[|to|..];
      assert was in nodes ==> p in (set x <- nodes | Under(x, from) :: to + x[|from|..]);
    }
    if p in Moved(nodes, from, to) {
      var was :| was in nodes && Under(was, from) && p == to + was[|from|..];
      Rebased(was, from, to);
    }
  }

  lemma PatchedNodeAt(rules: Rules, st: State, enum: string, rel: string, patch: NodePatch, p: string)
    requires Shaped(st) && PatchNode(rules, st, enum, rel, patch).Done?
    ensures PlanPatch(rules, st, enum, rel, patch).Done?
    ensures var plan := PlanPatch(rules, st, enum, rel, patch).value;
      && At(AfterMove(Nodes(st), plan)[plan.target := plan.tag], p)
          == PathLabel(PatchNode(rules, st, enum, rel, patch).value.st, p)
      && (p == plan.target ==> At(AfterMove(Nodes(st), plan), p) == PathLabel(st, plan.source))
  {
    hide Good, Resolve, Relabel, Detach, Place, PatchedTree, Split, PlanPatch, HasPath, Nodes, PatchNode, PathLabel;
    PatchNodeEffect(rules, st, enum, rel, patch, p);
    var plan := PlanPatch(rules, st, enum, rel, patch).value;
    NodesAt(st, p);
    LabelledPath(st, p);
    MovedAt(Nodes(st), plan.source, plan.target, p);
    hide Moved;
    if Under(p, plan.target) {
      Rebased(p, plan.target, plan.source);
      NodesAt(st, plan.source + p[|plan.target|..]);
      if p == plan.target { assert plan.source + p[|plan.target|..] == plan.source; }
    }
  }

  /** Without an update event the label did not change. */
  lemma QuietPatch(rules: Rules, st: State, enum: string, rel: string, patch: NodePatch)
    requires Shaped(st) && PatchNode(rules, st, enum, rel, patch).Done?
    ensures var plan := PlanPatch(rules, st, enum, rel, patch).value;
      var moves := if plan.target != plan.source then [NodeMoved(plan.source, plan.target)] else [];
      var changes := PatchNode(rules, st, enum, rel, patch).value.changes;
      && (changes == moves || changes == moves + [NodeUpdated(plan.target, plan.tag)])
      && (changes == moves ==> PathLabel(st, plan.source) == Some(plan.tag))
  {
    hide Good, Place, Under, PatchedTree, PlanPatch, Split;
    var plan := PlanPatch(rules, st, enum, rel, patch).value;
    QNotEmpty(st, enum, plan);
    UnderNode(plan.source, enum, plan.q);
    TreeReplaced(st, enum, st.enums[enum].tree, plan.source);
  }

  lemma PatchedNodes(rules: Rules, st: State, enum: string, rel: string, patch: NodePatch)
    requires Shaped(st) && PatchNode(rules, st, enum, rel, patch).Done?
    ensures var plan := PlanPatch(rules, st, enum, rel, patch).value;
      var step := PatchNode(rules, st, enum, rel, patch).value;
      && Nodes(step.st) == AfterMove(Nodes(st), plan)[plan.target := plan.tag]
      && (PathLabel(st, plan.source) == Some(plan.tag) ==> Nodes(step.st) == AfterMove(Nodes(st), plan))
  {
    PatchNodeShape(rules, st, enum, rel, patch);
    var step, plan := PatchNode(rules, st, enum, rel, patch).value, PlanPatch(rules, st, enum, rel, patch).value;
    hide *;
    var nodes := AfterMove(Nodes(st), plan)[plan.target := plan.tag];
    forall p ensures At(nodes, p) == PathLabel(step.st, p) { PatchedNodeAt(rules, st, enum, rel, patch, p); }
    SameNodes(step.st, nodes);
    PatchedNodeAt(rules, st, enum, rel, patch, plan.target);
    AtPut(AfterMove(Nodes(st), plan), plan.target, plan.tag);
  }

  lemma AtPut(nodes: map<string, Label>, p: string, tag: Label)
    ensures At(nodes, p) == Some(tag) ==> nodes[p := tag] == nodes
  {
  }

  lemma PatchNodeFollows(rules: Rules, st: State, enum: string, rel: string, patch: NodePatch)
    requires Shaped(st) && PatchNode(rules, st, enum, rel, patch).Done?
    ensures Follows(st, PatchNode(rules, st, enum, rel, patch).value)
  {
    var step := PatchNode(rules, st, enum, rel, patch).value;
    var plan := PlanPatch(rules, st, enum, rel, patch).value;
    PatchNodeNames(rules, st, enum, rel, patch);
    PatchedNodes(rules, st, enum, rel, patch);
    QuietPatch(rules, st, enum, rel, patch);
    hide *;
    PatchFollows(st, step, plan);
  }

  lemma PatchFollows(st: State, step: Step, plan: PatchPlan)
    requires EnumNames(step.st) == EnumNames(st)
    requires var moves := if plan.target != plan.source then [NodeMoved(plan.source, plan.target)] else [];
      step.changes == moves || step.changes == moves + [NodeUpdated(plan.target, plan.tag)]
    requires Nodes(step.st) == AfterMove(Nodes(st), plan)[plan.target := plan.tag]
    requires |step.changes| == (if plan.target != plan.source then 1 else 0)
        ==> Nodes(step.st) == AfterMove(Nodes(st), plan)
    ensures Follows(st, step)
  {
    hide Nodes, Without, Moved, EnumNames;
    var moves := if plan.target != plan.source then [NodeMoved(plan.source, plan.target)] else [];
    forall objects ensures ApplyAll(View(st).(objects := objects), step.changes) == View(step.st).(objects := objects) {
      var r := View(st).(objects := objects);
      ApplyAllConcat(r, moves, [NodeUpdated(plan.target, plan.tag)]);
      assert ApplyAll(r, moves) == r.(nodes := AfterMove(r.nodes, plan));
    }
  }
}
