/** The content of the metadata store and the mutations on it, one function per operation.
    Library rules the store calls but does not define (trimming and checking a name,
    the size of rendered JSON) are parameters. */
module MetaOps {
  import opened Collections
  import opened Text
  import opened MetaTree
  import Names

  const MAX_DEPTH := 8
  const ID_MAX := 32
  const META_MAX := 16384

  datatype Object = Object(name: string, enums: seq<string>, meta: map<string, string>, orphaned: bool)

  datatype Enum = Enum(name: map<string, string>, tree: seq<Node>)

  datatype State = State(objects: map<string, Object>, enums: map<string, Enum>)

  /** One change event, without its revision. */
  datatype Change =
    | EnumCreated(id: string, value: Enum)
    | EnumUpdated(id: string, value: Enum)
    | EnumDeleted(id: string)
    | NodeCreated(path: string, tag: Label)
    | NodeUpdated(path: string, tag: Label)
    | NodeDeleted(path: string)
    | NodeMoved(from: string, to: string)
    | ObjectUpdated(ref: string, object: Object)
    | ObjectDeleted(ref: string)
    | Import

  datatype Refusal =
    | RevisionConflict | UnknownObject | UnknownEnum | UnknownPath | InvalidName | InvalidId
    | InvalidBody | Exists | HasMembers(refs: seq<string>)

  datatype Outcome<+T> = Done(value: T) | Refused(error: Refusal)
  {
    predicate IsFailure() { Refused? }
    function PropagateFailure<U>(): Outcome<U> requires Refused? { Refused(error) }
    function Extract(): T requires Done? { value }
  }

  datatype Step = Step(st: State, changes: seq<Change>)

  datatype Rules = Rules(cleanName: string -> Option<string>, metaBytes: map<string, string> -> nat)

  datatype ObjectPatch = ObjectPatch(replace: bool, name: Option<string>, enums: Option<seq<string>>,
                                     meta: Option<map<string, string>>)

  datatype NodePatch = NodePatch(name: Option<string>, icon: Option<string>,
                                 move: bool, parent: Option<string>, position: Option<int>)

  datatype Op =
    | PatchObjectOp(ref: string, objectPatch: ObjectPatch)
    | DeleteObjectOp(ref: string)
    | SetOrphanedOp(ref: string, orphaned: bool)
    | CreateEnumOp(id: string, name: map<string, string>)
    | PatchEnumOp(id: string, name: map<string, string>)
    | DeleteEnumOp(id: string, detach: bool)
    | CreateNodeOp(enum: string, parent: Option<string>, id: string, nodeName: string, icon: string,
                   position: Option<int>)
    | PatchNodeOp(enum: string, rel: string, nodePatch: NodePatch)
    | DeleteNodeOp(enum: string, rel: string, detach: bool)

  // ----- paths and references -----

  predicate HasPath(st: State, path: string) {
    var parts := Split(path);
    parts[0] in st.enums && |parts| >= 2 && Resolve(st.enums[parts[0]].tree, parts[1..]).Some?
  }

  /** Enum ids hold no slash and every tree is well formed at depth 8; what objects hold may name
      nothing. */
  predicate Shaped(st: State) { TreesGood(st.enums) }

  /** Besides, every path an object holds names a node. */
  predicate WellFormed(st: State) {
    Shaped(st) && forall r <- st.objects :: PathsResolve(st, st.objects[r].enums)
  }

  predicate TreesGood(enums: map<string, Enum>) {
    forall e <- enums :: SlashFree(e) && Good(enums[e].tree, MAX_DEPTH)
  }

  predicate PathsResolve(st: State, paths: seq<string>) {
    forall i :: 0 <= i < |paths| ==> HasPath(st, paths[i])
  }

  predicate IdChar(c: char) { 'a' <= c <= 'z' || '0' <= c <= '9' }

  predicate ValidId(id: string) {
    && 1 <= |id| <= ID_MAX
    && IdChar(id[0])
    && forall i :: 0 <= i < |id| ==> IdChar(id[i]) || id[i] == '-'
  }

  /** "<interface>.<address>" split at the first dot, both parts non-empty. */
  predicate ValidRef(ref: string) {
    ref != "" && ref[0] != '.' && '.' in ref[..|ref| - 1]
  }

  function NodePath(enum: string, ids: seq<string>): string {
    enum + "/" + Join(ids)
  }

  predicate HoldsUnder(paths: seq<string>, path: string) {
    exists i :: 0 <= i < |paths| && Under(paths[i], path)
  }

  function ObjectsUnder(objects: map<string, Object>, path: string): seq<string> {
    Names.Sorted(set r <- objects | HoldsUnder(objects[r].enums, path))
  }

  /** Replaces the prefix `from` by `to` in every path under it; to == "" drops those paths. */
  function RewriteList(paths: seq<string>, from: string, to: string): seq<string> {
    if paths == [] then []
    else
      var p := paths[0];
      (if !Under(p, from) then [p] else if to == "" then [] else [to + p[|from|..]])
        + RewriteList(paths[1..], from, to)
  }

  function RewritePaths(objects: map<string, Object>, from: string, to: string): map<string, Object> {
    map r <- objects :: objects[r].(enums := RewriteList(objects[r].enums, from, to))
  }

  // ----- objects -----

  function MergeMeta(base: map<string, string>, patch: map<string, string>): map<string, string> {
    (base - (set ns <- patch | patch[ns] == "null")) + (map ns <- patch | patch[ns] != "null" :: patch[ns])
  }

  function PatchName(rules: Rules, was: string, name: Option<string>): Outcome<string> {
    if name.None? then Done(was)
    else if rules.cleanName(name.value).None? then Refused(InvalidName)
    else Done(rules.cleanName(name.value).value)
  }

  function PatchMeta(rules: Rules, base: map<string, string>, meta: Option<map<string, string>>)
    : Outcome<map<string, string>>
  {
    if meta.None? then Done(base)
    else if exists ns <- meta.value :: !ValidId(ns) then Refused(InvalidId)
    else
      var next := MergeMeta(base, meta.value);
      if rules.metaBytes(next) > META_MAX then Refused(InvalidBody) else Done(next)
  }

  function PatchObject(rules: Rules, st: State, ref: string, p: ObjectPatch): Outcome<Step> {
    if !ValidRef(ref) then Refused(UnknownObject)
    else if ref !in st.objects && p.name.None? then Refused(InvalidName)
    else
      var o := if ref in st.objects then st.objects[ref] else Object("", [], map[], false);
      var base := if p.replace then o.(enums := [], meta := map[]) else o;
      var name :- PatchName(rules, base.name, p.name);
      if p.enums.Some? && !PathsResolve(st, p.enums.value) then Refused(UnknownPath)
      else
        var enums := if p.enums.Some? then p.enums.value else base.enums;
        var meta :- PatchMeta(rules, base.meta, p.meta);
        Done(Step(st.(objects := st.objects[ref := Object(name, enums, meta, base.orphaned)]), []))
  }

  function DeleteObject(st: State, ref: string): Outcome<Step> {
    if ref !in st.objects then Refused(UnknownObject)
    else Done(Step(st.(objects := st.objects - {ref}), []))
  }

  function SetOrphaned(st: State, ref: string, orphaned: bool): Outcome<Step> {
    if ref !in st.objects then Refused(UnknownObject)
    else Done(Step(st.(objects := st.objects[ref := st.objects[ref].(orphaned := orphaned)]), []))
  }

  // ----- enums -----

  predicate ValidEnumName(rules: Rules, name: map<string, string>) {
    name != map[] && forall l <- name :: rules.cleanName(name[l]).Some?
  }

  function CreateEnum(rules: Rules, st: State, id: string, name: map<string, string>): Outcome<Step> {
    if !ValidId(id) then Refused(InvalidId)
    else if !ValidEnumName(rules, name) then Refused(InvalidName)
    else if id in st.enums then Refused(Exists)
    else Done(Step(st.(enums := st.enums[id := Enum(name, [])]), [EnumCreated(id, Enum(name, []))]))
  }

  function PatchEnum(rules: Rules, st: State, id: string, name: map<string, string>): Outcome<Step> {
    if id !in st.enums then Refused(UnknownEnum)
    else if !ValidEnumName(rules, name) then Refused(InvalidName)
    else if st.enums[id].name == name then Done(Step(st, []))
    else
      var e := st.enums[id].(name := name);
      Done(Step(st.(enums := st.enums[id := e]), [EnumUpdated(id, e)]))
  }

  /** Refuses removing a path objects hold, or strips those paths when detach is set. */
  function MembersCheck(objects: map<string, Object>, path: string, detach: bool): Outcome<map<string, Object>> {
    var refs := ObjectsUnder(objects, path);
    if refs == [] then Done(objects)
    else if !detach then Refused(HasMembers(refs))
    else Done(RewritePaths(objects, path, ""))
  }

  function DeleteEnum(st: State, id: string, detach: bool): Outcome<Step> {
    if id !in st.enums then Refused(UnknownEnum)
    else
      var objects :- MembersCheck(st.objects, id, detach);
      Done(Step(State(objects, st.enums - {id}), [EnumDeleted(id)]))
  }

  // ----- nodes -----

  /** The node ids of a parent given as a full path; none, "" and the enum id mean the root. */
  function ParentIds(st: State, enum: string, parent: Option<string>): Outcome<seq<string>> {
    if parent.None? || parent.value == "" || parent.value == enum then Done([])
    else if !(enum + "/" <= parent.value) || !HasPath(st, parent.value) then Refused(UnknownPath)
    else Done(Split(parent.value[|enum| + 1..]))
  }

  function RelIds(st: State, enum: string, rel: string): (r: Outcome<seq<string>>)
    ensures r.Done? ==> enum in st.enums && Resolve(st.enums[enum].tree, r.value).Some?
  {
    if enum !in st.enums then Refused(UnknownEnum)
    else
      var ids := Split(Trim(rel));
      if rel == "" || Resolve(st.enums[enum].tree, ids).None? then Refused(UnknownPath) else Done(ids)
  }

  lemma ParentIdsResolve(st: State, enum: string, parent: Option<string>)
    requires Shaped(st) && enum in st.enums
    requires ParentIds(st, enum, parent).Done?
    ensures HasList(st.enums[enum].tree, ParentIds(st, enum, parent).value)
    ensures AllSlashFree(ParentIds(st, enum, parent).value)
  {
    hide Good, Resolve;
    var ids := ParentIds(st, enum, parent).value;
    if ids != [] {
      var tail := parent.value[|enum| + 1..];
      assert parent.value == enum + "/" + tail;
      SplitConcat(enum, tail);
      SplitWhole(enum);
    }
  }

  function WithTree(st: State, enum: string, tree: seq<Node>): State
    requires enum in st.enums
  {
    st.(enums := st.enums[enum := st.enums[enum].(tree := tree)])
  }

  function CreateNode(rules: Rules, st: State, enum: string, parent: Option<string>, id: string,
                      name: string, icon: string, position: Option<int>): Outcome<Step>
    requires Shaped(st)
  {
    if enum !in st.enums then Refused(UnknownEnum)
    else
      var pids :- ParentIds(st, enum, parent);
      if !ValidId(id) then Refused(InvalidId)
      else if rules.cleanName(name).None? then Refused(InvalidName)
      else if |pids| + 1 > MAX_DEPTH then Refused(InvalidBody)
      else
        ParentIdsResolve(st, enum, parent);
        var tree := st.enums[enum].tree;
        if FindIndex(ListAt(tree, pids), id) < |ListAt(tree, pids)| then Refused(Exists)
        else
          var n := Node(id, rules.cleanName(name).value, icon, []);
          Done(Step(WithTree(st, enum, Attach(tree, pids, n, position)),
                    [NodeCreated(NodePath(enum, pids + [id]), LabelOf(n))]))
  }

  /** A path names a node below another exactly when its ids extend the other's. */
  lemma NodePathUnder(enum: string, a: seq<string>, b: seq<string>)
    requires a != [] && b != [] && AllSlashFree(a) && AllSlashFree(b)
    ensures Under(NodePath(enum, a), NodePath(enum, b)) <==> b <= a
    ensures NodePath(enum, a) == NodePath(enum, b) <==> a == b
  {
    UnderIsPrefix(NodePath(enum, a), NodePath(enum, b));
    SplitConcat(enum, Join(a));
    SplitConcat(enum, Join(b));
    SplitJoin(a);
    SplitJoin(b);
    assert (Split(enum) + a)[|Split(enum)|..] == a && (Split(enum) + b)[|Split(enum)|..] == b;
    assert b <= a ==> Split(enum) + b <= Split(enum) + a;
    if Split(enum) + b <= Split(enum) + a {
      assert b == (Split(enum) + a)[|Split(enum)|..][..|b|];
    }
  }

  /** A node patch resolved against the tree: the node's ids, the parent it goes to, its new
      label, and the full paths it leaves and takes. */
  datatype PatchPlan = PatchPlan(q: seq<string>, pids: seq<string>, tag: Label, source: string, target: string)

  predicate Planned(st: State, enum: string, plan: PatchPlan) {
    && enum in st.enums && SlashFree(enum)
    && Good(st.enums[enum].tree, MAX_DEPTH)
    && Resolve(st.enums[enum].tree, plan.q).Some? && AllSlashFree(plan.q)
    && Resolve(st.enums[enum].tree, plan.q).value.id == Last(plan.q)
    && HasList(st.enums[enum].tree, plan.pids) && AllSlashFree(plan.pids)
    && plan.source == NodePath(enum, plan.q)
    && plan.target == NodePath(enum, plan.pids + [Last(plan.q)])
  }

  function PlanPatch(rules: Rules, st: State, enum: string, rel: string, p: NodePatch): (r: Outcome<PatchPlan>)
    requires Shaped(st)
    ensures r.Done? ==> Planned(st, enum, r.value)
  {
    var q :- RelIds(st, enum, rel);
    var tree := st.enums[enum].tree;
    var node := Resolve(tree, q).value;
    var name :- PatchName(rules, node.name, p.name);
    ResolvedPathGood(tree, q, MAX_DEPTH);
    ParentHasList(tree, q);
    var pids :- if p.move then ParentIds(st, enum, p.parent) else Done(Parent(q));
    if p.move then ParentIdsResolve(st, enum, p.parent); PlanFrom(enum, q, pids, node, name, p.icon)
    else PlanFrom(enum, q, pids, node, name, p.icon)
  }

  function PlanFrom(enum: string, q: seq<string>, pids: seq<string>, node: Node, name: string, icon: Option<string>)
    : Outcome<PatchPlan>
  {
    Done(PatchPlan(q, pids, Label(name, if icon.Some? then icon.value else node.icon),
                   NodePath(enum, q), NodePath(enum, pids + [node.id])))
  }

  /** The node is still there once relabelled, and unless it would move below itself the list
      it goes to survives taking it out. */
  lemma PlanPlaceable(st: State, enum: string, plan: PatchPlan)
    requires Planned(st, enum, plan)
    ensures var tree := Relabel(st.enums[enum].tree, plan.q, plan.tag);
      && Good(tree, MAX_DEPTH) && HasList(tree, plan.pids)
      && Resolve(tree, plan.q)
          == Some(Resolve(st.enums[enum].tree, plan.q).value.(name := plan.tag.name, icon := plan.tag.icon))
      && (plan.target == plan.source <==> plan.pids == Parent(plan.q))
      && (plan.target == plan.source || !(plan.source + "/" <= plan.target) ==>
            !(plan.q <= plan.pids) && HasList(Detach(tree, plan.q), plan.pids))
  {
    hide Good, Resolve, Relabel, Detach, NodePath;
    var tree0 := st.enums[enum].tree;
    RelabelKeeps(tree0, plan.q, plan.pids, plan.tag);
    PlanPaths(enum, plan.q, plan.pids);
    if plan.pids != [] { DetachLookup(Relabel(tree0, plan.q, plan.tag), plan.q, MAX_DEPTH, plan.pids); }
  }

  lemma RelabelKeeps(tree: seq<Node>, q: seq<string>, pids: seq<string>, tag: Label)
    requires Good(tree, MAX_DEPTH) && Resolve(tree, q).Some? && HasList(tree, pids)
    ensures q != []
    ensures Good(Relabel(tree, q, tag), MAX_DEPTH) && HasList(Relabel(tree, q, tag), pids)
    ensures Resolve(Relabel(tree, q, tag), q) == Some(Resolve(tree, q).value.(name := tag.name, icon := tag.icon))
  {
    RelabelNode(tree, q, tag);
    RelabelGood(tree, q, tag, MAX_DEPTH);
    RelabelLookup(tree, q, tag, pids);
  }

  /** Comparing the two full paths is comparing the ids. */
  lemma PlanPaths(enum: string, q: seq<string>, pids: seq<string>)
    requires q != [] && AllSlashFree(q) && AllSlashFree(pids)
    ensures var source, target := NodePath(enum, q), NodePath(enum, pids + [Last(q)]);
      && (target == source <==> pids == Parent(q))
      && (target == source || !(source + "/" <= target) ==> !(q <= pids))
  {
    var t := pids + [Last(q)];
    NodePathUnder(enum, t, q);
    assert q == Parent(q) + [Last(q)];
    assert t[..|t| - 1] == pids;
    assert q <= pids ==> q <= t && q != t;
  }

  /** Takes the node at q out and puts it below pids, by default at its old position. */
  function Place(tree: seq<Node>, q: seq<string>, pids: seq<string>, position: Option<int>): Outcome<seq<Node>>
    requires Resolve(tree, q).Some? && HasList(Detach(tree, q), pids)
  {
    var i := SiblingIndex(tree, q);
    var n := Resolve(tree, q).value;
    var rest := Detach(tree, q);
    if FindIndex(ListAt(rest, pids), n.id) < |ListAt(rest, pids)| then Refused(Exists)
    else Done(Attach(rest, pids, n, if position.None? then Some(i) else position))
  }

  function PatchedTree(st: State, enum: string, plan: PatchPlan, position: Option<int>): Outcome<seq<Node>>
    requires Planned(st, enum, plan)
    requires plan.target == plan.source || !(plan.source + "/" <= plan.target)
  {
    PlanPlaceable(st, enum, plan);
    var tree := Relabel(st.enums[enum].tree, plan.q, plan.tag);
    if plan.target == plan.source && position.None? then Done(tree)
    else Place(tree, plan.q, plan.pids, position)
  }

  function PatchNode(rules: Rules, st: State, enum: string, rel: string, p: NodePatch): Outcome<Step>
    requires Shaped(st)
  {
    var plan :- PlanPatch(rules, st, enum, rel, p);
    var node := Resolve(st.enums[enum].tree, plan.q).value;
    var moved := plan.target != plan.source;
    if moved && plan.source + "/" <= plan.target then Refused(InvalidBody)
    else if moved && |plan.pids| + SubtreeDepth(node) > MAX_DEPTH then Refused(InvalidBody)
    else
      var tree' :- PatchedTree(st, enum, plan, p.position);
      var reordered := !moved && p.position.Some? && p.position.value != SiblingIndex(st.enums[enum].tree, plan.q);
      var st' := WithTree(st, enum, tree');
      Done(Step(if moved then st'.(objects := RewritePaths(st.objects, plan.source, plan.target)) else st',
                (if moved then [NodeMoved(plan.source, plan.target)] else [])
                + (if plan.tag != LabelOf(node) || reordered then [NodeUpdated(plan.target, plan.tag)] else [])))
  }

  function DeleteNode(st: State, enum: string, rel: string, detach: bool): Outcome<Step> {
    var q :- RelIds(st, enum, rel);
    var path := NodePath(enum, q);
    var objects :- MembersCheck(st.objects, path, detach);
    Done(Step(WithTree(st, enum, Detach(st.enums[enum].tree, q)).(objects := objects), [NodeDeleted(path)]))
  }

  /** One operation of a transaction. */
  function Apply(rules: Rules, st: State, op: Op): Outcome<Step>
    requires Shaped(st)
  {
    match op
    case PatchObjectOp(ref, p) => PatchObject(rules, st, ref, p)
    case DeleteObjectOp(ref) => DeleteObject(st, ref)
    case SetOrphanedOp(ref, orphaned) => SetOrphaned(st, ref, orphaned)
    case CreateEnumOp(id, name) => CreateEnum(rules, st, id, name)
    case PatchEnumOp(id, name) => PatchEnum(rules, st, id, name)
    case DeleteEnumOp(id, detach) => DeleteEnum(st, id, detach)
    case CreateNodeOp(enum, parent, id, name, icon, position) => CreateNode(rules, st, enum, parent, id, name, icon,
        position)
    case PatchNodeOp(enum, rel, p) => PatchNode(rules, st, enum, rel, p)
    case DeleteNodeOp(enum, rel, detach) => DeleteNode(st, enum, rel, detach)
  }
}
