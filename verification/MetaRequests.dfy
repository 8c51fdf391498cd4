/** What each request to the metadata store comes to, in the words of the request: the paths and
    labels it names, when it is refused and with what, and in which order siblings stand. */
module MetaRequests {
  import opened Collections
  import opened Text
  import opened MetaTree
  import opened MetaOps
  import opened MetaSafety
  import opened MetaOrder
  import Names

  // ----- the text of a request -----

  /** The path a new place hangs below: the enum itself without a parent. */
  function Base(enum: string, parent: Option<string>): string {
    if parent.None? || parent.value == "" then enum else parent.value
  }

  predicate NoSuchParent(st: State, enum: string, parent: Option<string>) {
    Base(enum, parent) != enum && !(enum + "/" <= parent.value && HasPath(st, parent.value))
  }

  /** One to 32 small letters, digits and dashes, the first no dash. */
  predicate IdText(id: string) {
    && 1 <= |id| <= 32
    && forall i :: 0 <= i < |id| ==> 'a' <= id[i] <= 'z' || '0' <= id[i] <= '9' || (id[i] == '-' && i > 0)
  }

  lemma IdTextIs(id: string)
    ensures ValidId(id) <==> IdText(id)
  {
    if ValidId(id) { assert IdChar(id[0]); }
  }

  /** Trimming takes away slashes at both ends and nothing else. */
  lemma {:induction false} TrimMeans(s: string) returns (a: nat, b: nat)
    ensures a <= b <= |s| && Trim(s) == s[a..b]
    ensures forall i :: 0 <= i < a || b <= i < |s| ==> s[i] == '/'
    ensures a < b ==> s[a] != '/' && s[b - 1] != '/'
    decreases |s|
  {
    if s == "" {
      a, b := 0, 0;
    } else if s[0] == '/' {
      a, b := TrimMeans(s[1..]);
      assert s[1..][a..b] == s[a + 1..b + 1];
      assert forall i :: 1 <= i < |s| ==> s[i] == s[1..][i - 1];
      a, b := a + 1, b + 1;
    } else if s[|s| - 1] == '/' {
      a, b := TrimMeans(s[..|s| - 1]);
      assert s[..|s| - 1][a..b] == s[a..b];
    } else {
      a, b := 0, |s|;
    }
  }

  /** The ids of a parent are those its text is made of. */
  lemma ParentText(st: State, enum: string, parent: Option<string>)
    requires Shaped(st) && enum in st.enums
    ensures ParentIds(st, enum, parent)
         == if NoSuchParent(st, enum, parent) then Refused(UnknownPath) else Done(Split(Base(enum, parent))[1..])
    ensures !NoSuchParent(st, enum, parent) ==>
      var pids := Split(Base(enum, parent))[1..];
      && AllSlashFree(pids) && HasList(st.enums[enum].tree, pids) && Split(Base(enum, parent)) == [enum] + pids
  {
    SplitWhole(enum);
    hide Good, Resolve, HasPath, Split;
    if Base(enum, parent) != enum && enum + "/" <= parent.value {
      var tail := parent.value[|enum| + 1..];
      assert parent.value == enum + "/" + tail;
      SplitConcat(enum, tail);
      assert ([enum] + Split(tail))[1..] == Split(tail);
    }
    assert [enum][1..] == [];
    if !NoSuchParent(st, enum, parent) { ParentIdsResolve(st, enum, parent); }
  }

  /** Below a path, a slash and an id name what its ids and that id name. */
  lemma ChildText(path: string, enum: string, pids: seq<string>, id: string)
    requires Split(path) == [enum] + pids && SlashFree(id)
    ensures NodePath(enum, pids + [id]) == path + "/" + id
    ensures Split(path + "/" + id) == [enum] + pids + [id]
  {
    hide Split;
    JoinSplit(path);
    SplitWhole(id);
    SplitConcat(path, id);
    assert [enum] + (pids + [id]) == ([enum] + pids) + [id];
    JoinConcat([enum] + pids, [id]);
    JoinConcat([enum], pids + [id]);
  }

  /** The ids of a node given relative to its enum, as text. */
  lemma NodeText(st: State, enum: string, rel: string)
    requires Shaped(st)
    ensures var from := enum + "/" + Trim(rel);
      && RelIds(st, enum, rel) == (
           if enum !in st.enums then Refused(UnknownEnum)
           else if rel == "" || !HasPath(st, from) then Refused(UnknownPath)
           else Done(Split(from)[1..]))
      && (enum in st.enums ==> Split(from) == [enum] + Split(Trim(rel)) && NodePath(enum, Split(from)[1..]) == from)
  {
    hide Good, Resolve;
    if enum in st.enums {
      SplitWhole(enum);
      SplitConcat(enum, Trim(rel));
      JoinSplit(Trim(rel));
    }
  }

  // ----- what a path names -----

  /** Nodes from a list down, each a child of the one before. */
  predicate Chain(list: seq<Node>, nodes: seq<Node>) {
    nodes != [] && nodes[0] in list && forall i :: 0 < i < |nodes| ==> nodes[i] in nodes[i - 1].children
  }

  lemma {:induction false} ResolvedChain(f: seq<Node>, ids: seq<string>) returns (nodes: seq<Node>)
    requires Resolve(f, ids).Some?
    ensures Chain(f, nodes) && IdsOf(nodes) == ids && nodes[|nodes| - 1] == Resolve(f, ids).value
    decreases |ids|
  {
    var n := f[FindIndex(f, ids[0])];
    if |ids| == 1 {
      nodes := [n];
    } else {
      var rest := ResolvedChain(n.children, ids[1..]);
      nodes := [n] + rest;
      forall i | 1 < i < |nodes| ensures nodes[i] in nodes[i - 1].children {
        assert nodes[i] == rest[i - 1] && nodes[i - 1] == rest[i - 2];
      }
    }
  }

  lemma {:induction false} ChainResolves(f: seq<Node>, nodes: seq<Node>, levels: nat)
    requires Good(f, levels) && Chain(f, nodes)
    ensures Resolve(f, IdsOf(nodes)) == Some(nodes[|nodes| - 1])
    decreases |nodes|
  {
    var k :| 0 <= k < |f| && f[k] == nodes[0];
    FindIndexIs(f, nodes[0].id, k);
    if |nodes| > 1 {
      assert IdsOf(nodes)[1..] == IdsOf(nodes[1..]);
      ChainResolves(f[k].children, nodes[1..], levels - 1);
    }
  }

  /** The path spells the enum and the ids of nodes from the root of its tree down to this one. */
  predicate Spells(st: State, p: string, enum: string, nodes: seq<Node>, n: Node) {
    && enum in st.enums && Chain(st.enums[enum].tree, nodes) && nodes[|nodes| - 1] == n
    && p == NodePath(enum, IdsOf(nodes))
  }

  /** A path names a node exactly when it spells the way to it. */
  lemma PathNames(st: State, p: string, n: Node)
    requires Shaped(st)
    ensures HasPath(st, p) <==> PathNode(st, p).Some?
    ensures PathNode(st, p) == Some(n) <==> exists enum, nodes :: Spells(st, p, enum, nodes, n)
  {
    hide Good, Resolve;
    var parts := Split(p);
    if PathNode(st, p) == Some(n) {
      var nodes := ResolvedChain(st.enums[parts[0]].tree, parts[1..]);
      JoinSplit(p);
      JoinConcat([parts[0]], parts[1..]);
      assert parts == [parts[0]] + parts[1..];
      assert Spells(st, p, parts[0], nodes, n);
    }
    if enum, nodes :| Spells(st, p, enum, nodes, n) {
      ChainResolves(st.enums[enum].tree, nodes, MAX_DEPTH);
      ResolvedPathGood(st.enums[enum].tree, IdsOf(nodes), MAX_DEPTH);
      NodePathParts(enum, IdsOf(nodes));
      assert Split(p)[1..] == IdsOf(nodes);
    }
  }

  // ----- creating a node -----

  function CreateRefusal(rules: Rules, st: State, enum: string, parent: Option<string>, id: string, name: string)
    : Option<Refusal>
  {
    var path := Base(enum, parent) + "/" + id;
    if enum !in st.enums then Some(UnknownEnum)
    else if NoSuchParent(st, enum, parent) then Some(UnknownPath)
    else if !IdText(id) then Some(InvalidId)
    else if rules.cleanName(name).None? then Some(InvalidName)
    else if |Split(path)| > 9 then Some(InvalidBody)
    else if HasPath(st, path) then Some(Exists)
    else None
  }

  /** A node is created at the text of its parent, a slash and its id, with the cleaned name and
      the icon of the request, or refused for the first reason there is; objects stay as they are. */
  lemma CreatedAt(rules: Rules, st: State, enum: string, parent: Option<string>, id: string, name: string,
                  icon: string, position: Option<int>, p: string)
    requires Shaped(st)
    ensures var done := Apply(rules, st, CreateNodeOp(enum, parent, id, name, icon, position));
      var path := Base(enum, parent) + "/" + id;
      match CreateRefusal(rules, st, enum, parent, id, name)
      case Some(refusal) => done == Refused(refusal)
      case None =>
        var tag := Label(rules.cleanName(name).value, icon);
        && done.Done? && done.value.changes == [NodeCreated(path, tag)] && done.value.st.objects == st.objects
        && PathLabel(done.value.st, p) == if p == path then Some(tag) else PathLabel(st, p)
  {
    assert Apply(rules, st, CreateNodeOp(enum, parent, id, name, icon, position))
        == CreateNode(rules, st, enum, parent, id, name, icon, position);
    hide Apply;
    IdTextIs(id);
    if enum in st.enums && IdText(id) {
      ParentText(st, enum, parent);
      if !NoSuchParent(st, enum, parent) {
        ChildText(Base(enum, parent), enum, Split(Base(enum, parent))[1..], id);
        TakenPath(st, enum, Split(Base(enum, parent))[1..], id);
        hide Split, HasPath, PathLabel, Attach, NodePath, Base, HasList, ListAt, Shaped, IdText, NoSuchParent;
        if CreateNode(rules, st, enum, parent, id, name, icon, position).Done? {
          CreateNodeEffect(rules, st, enum, parent, id, name, icon, position, p);
        }
      }
    } else if enum in st.enums {
      ParentText(st, enum, parent);
    }
  }

  /** A sibling of that id is there exactly when the path names a node. */
  lemma TakenPath(st: State, enum: string, pids: seq<string>, id: string)
    requires Shaped(st) && enum in st.enums && SlashFree(id) && AllSlashFree(pids)
    requires HasList(st.enums[enum].tree, pids)
    ensures var list := ListAt(st.enums[enum].tree, pids);
      FindIndex(list, id) < |list| <==> HasPath(st, NodePath(enum, pids + [id]))
  {
    var q := pids + [id];
    NodePathParts(enum, q);
    ResolveBelow(st.enums[enum].tree, pids, [id]);
    assert Split(NodePath(enum, q))[1..] == q;
  }

  // ----- objects -----

  /** Text on both sides of the first dot. */
  predicate RefText(ref: string) {
    exists k :: 0 < k < |ref| - 1 && ref[k] == '.' && '.' !in ref[..k]
  }

  lemma RefTextIs(ref: string)
    ensures ValidRef(ref) <==> RefText(ref)
  {
    if ValidRef(ref) {
      var k := FirstDot(ref);
      var i :| 0 <= i < |ref| - 1 && ref[..|ref| - 1][i] == '.';
      assert ref[i] == '.' && k <= i;
    }
    if RefText(ref) {
      var k :| 0 < k < |ref| - 1 && ref[k] == '.' && '.' !in ref[..k];
      assert ref[..|ref| - 1][k] == '.' && ref[..k][0] == ref[0];
    }
  }

  lemma {:induction false} FirstDot(s: string) returns (k: nat)
    requires '.' in s
    ensures k < |s| && s[k] == '.' && '.' !in s[..k] && forall i :: 0 <= i < |s| && s[i] == '.' ==> k <= i
  {
    if s[0] == '.' {
      k := 0;
    } else {
      k := FirstDot(s[1..]);
      assert s[..k + 1] == [s[0]] + s[1..][..k];
      k := k + 1;
    }
  }

  /** The namespaces of an object after a patch: absent for null, the patched text, or what was
      there; a replaced object starts with none. */
  ghost predicate MetaAfter(before: map<string, string>, p: ObjectPatch, after: map<string, string>) {
    forall ns ::
      if p.meta.Some? && ns in p.meta.value then
        if p.meta.value[ns] == "null" then ns !in after else ns in after && after[ns] == p.meta.value[ns]
      else if p.replace then ns !in after
      else (ns in after <==> ns in before) && (ns in after ==> after[ns] == before[ns])
  }

  /** Before the patch: the object, or an empty one. */
  function Was(st: State, ref: string): Object {
    if ref in st.objects then st.objects[ref] else Object("", [], map[], false)
  }

  /** Metadata that is patched must fit. */
  ghost predicate Oversized(rules: Rules, st: State, ref: string, p: ObjectPatch) {
    p.meta.Some? && exists after :: MetaAfter(Was(st, ref).meta, p, after) && rules.metaBytes(after) > 16384
  }

  ghost function ObjectRefusal(rules: Rules, st: State, ref: string, p: ObjectPatch): Option<Refusal> {
    if !RefText(ref) then Some(UnknownObject)
    else if p.name.None? && ref !in st.objects then Some(InvalidName)
    else if p.name.Some? && rules.cleanName(p.name.value).None? then Some(InvalidName)
    else if p.enums.Some? && exists i :: 0 <= i < |p.enums.value| && !HasPath(st, p.enums.value[i])
      then Some(UnknownPath)
    else if p.meta.Some? && exists ns <- p.meta.value :: !IdText(ns) then Some(InvalidId)
    else if Oversized(rules, st, ref, p) then Some(InvalidBody)
    else None
  }

  /** An object patch leaves every other object and all enums as they are; the object gets the
      cleaned name, exactly the paths and the namespaces of the request, and keeps whatever the
      request does not mention unless it replaces. It is refused for the first reason there is. */
  lemma ObjectPatched(rules: Rules, st: State, ref: string, p: ObjectPatch)
    requires Shaped(st)
    ensures var done := Apply(rules, st, PatchObjectOp(ref, p));
      match ObjectRefusal(rules, st, ref, p)
      case Some(refusal) => done == Refused(refusal)
      case None =>
        && done.Done? && done.value.changes == [] && done.value.st.enums == st.enums
        && done.value.st.objects.Keys == st.objects.Keys + {ref}
        && (forall r :: r in st.objects && r != ref ==> done.value.st.objects[r] == st.objects[r])
        && var was, o := Was(st, ref), done.value.st.objects[ref];
        && o.name == (if p.name.Some? then rules.cleanName(p.name.value).value else was.name)
        && o.enums == (if p.enums.Some? then p.enums.value else if p.replace then [] else was.enums)
        && MetaAfter(was.meta, p, o.meta) && o.orphaned == was.orphaned
  {
    assert Apply(rules, st, PatchObjectOp(ref, p)) == PatchObject(rules, st, ref, p);
    hide Apply, Shaped, HasPath, Good, ValidId, ValidRef, IdText, RefText;
    RefTextIs(ref);
    var base := if p.replace then map[] else Was(st, ref).meta;
    PatchMetaIs(rules, st, ref, p);
    hide PatchMeta, MetaAfter, Oversized;
  }

  lemma PatchMetaIs(rules: Rules, st: State, ref: string, p: ObjectPatch)
    ensures var before := Was(st, ref).meta;
      var meta := PatchMeta(rules, if p.replace then map[] else before, p.meta);
      if p.meta.Some? && exists ns <- p.meta.value :: !IdText(ns) then meta == Refused(InvalidId)
      else if Oversized(rules, st, ref, p) then meta == Refused(InvalidBody)
      else meta.Done? && MetaAfter(before, p, meta.value)
  {
    hide ValidId, IdText, Was;
    if p.meta.Some? {
      forall ns ensures ValidId(ns) <==> IdText(ns) { IdTextIs(ns); }
      MergedMeta(Was(st, ref).meta, p);
      MetaUnique(Was(st, ref).meta, p);
      hide MetaAfter, MergeMeta;
    }
  }

  lemma MergedMeta(before: map<string, string>, p: ObjectPatch)
    requires p.meta.Some?
    ensures MetaAfter(before, p, MergeMeta(if p.replace then map[] else before, p.meta.value))
  {
  }

  lemma MetaUnique(before: map<string, string>, p: ObjectPatch)
    ensures forall a, b :: MetaAfter(before, p, a) && MetaAfter(before, p, b) ==> a == b
  {
    forall a, b | MetaAfter(before, p, a) && MetaAfter(before, p, b) ensures a == b {
      forall ns ensures ns in a <==> ns in b ensures ns in a ==> a[ns] == b[ns] {
      }
    }
  }

  /** Deleting forgets one object, marking it changes its mark only; both need the object. */
  lemma ObjectDeletedOrMarked(rules: Rules, st: State, ref: string, orphaned: bool)
    requires Shaped(st)
    ensures var done := Apply(rules, st, DeleteObjectOp(ref));
      if ref !in st.objects then done == Refused(UnknownObject)
      else && done.Done? && done.value.changes == [] && done.value.st.enums == st.enums
           && done.value.st.objects.Keys == st.objects.Keys - {ref}
           && forall r :: r in st.objects && r != ref ==> done.value.st.objects[r] == st.objects[r]
    ensures var done := Apply(rules, st, SetOrphanedOp(ref, orphaned));
      if ref !in st.objects then done == Refused(UnknownObject)
      else && done.Done? && done.value.changes == [] && done.value.st.enums == st.enums
           && done.value.st.objects.Keys == st.objects.Keys
           && forall r :: r in st.objects ==>
                done.value.st.objects[r]
                  == if r == ref then st.objects[r].(orphaned := orphaned) else st.objects[r]
  {
  }

  // ----- enums -----

  /** A language at least, and every name of it clean. */
  predicate NameText(rules: Rules, name: map<string, string>) {
    name.Keys != {} && forall l <- name :: rules.cleanName(name[l]).Some?
  }

  /** A new enum is empty and announced; renaming keeps its tree and is announced when the name
      differs. Nothing else changes. */
  lemma EnumWritten(rules: Rules, st: State, id: string, name: map<string, string>)
    requires Shaped(st)
    ensures var done := Apply(rules, st, CreateEnumOp(id, name));
      if !IdText(id) then done == Refused(InvalidId)
      else if !NameText(rules, name) then done == Refused(InvalidName)
      else if id in st.enums then done == Refused(Exists)
      else && done.Done? && done.value.changes == [EnumCreated(id, Enum(name, []))]
           && done.value.st.objects == st.objects && done.value.st.enums.Keys == st.enums.Keys + {id}
           && forall e :: e in done.value.st.enums ==>
                done.value.st.enums[e] == if e == id then Enum(name, []) else st.enums[e]
    ensures var done := Apply(rules, st, PatchEnumOp(id, name));
      if id !in st.enums then done == Refused(UnknownEnum)
      else if !NameText(rules, name) then done == Refused(InvalidName)
      else && done.Done? && done.value.st.objects == st.objects && done.value.st.enums.Keys == st.enums.Keys
           && (forall e :: e in st.enums ==>
                done.value.st.enums[e] == Enum(if e == id then name else st.enums[e].name, st.enums[e].tree))
           && done.value.changes
              == if st.enums[id].name == name then [] else [EnumUpdated(id, Enum(name, st.enums[id].tree))]
  {
    IdTextIs(id);
    assert name == map[] <==> name.Keys == {};
  }

  // ----- patching a node -----

  /** The last id of a path. */
  function OwnId(path: string): string { Last(Split(path)) }

  function Source(enum: string, rel: string): string { enum + "/" + Trim(rel) }

  /** Where a patch leaves the node: below the given parent under its own id, or where it was. */
  function Target(enum: string, rel: string, p: NodePatch): string {
    if p.move then Base(enum, p.parent) + "/" + OwnId(Source(enum, rel)) else Source(enum, rel)
  }

  /** The given name, cleaned, and the given icon; without them what the node had. */
  function NewTag(rules: Rules, st: State, from: string, p: NodePatch): Label
    requires HasPath(st, from) && (p.name.Some? ==> rules.cleanName(p.name.value).Some?)
  {
    var was := PathLabel(st, from).value;
    Label(if p.name.Some? then rules.cleanName(p.name.value).value else was.name,
          if p.icon.Some? then p.icon.value else was.icon)
  }

  function PlanRefusal(rules: Rules, st: State, enum: string, rel: string, p: NodePatch): Option<Refusal> {
    if enum !in st.enums then Some(UnknownEnum)
    else if rel == "" || !HasPath(st, Source(enum, rel)) then Some(UnknownPath)
    else if p.name.Some? && rules.cleanName(p.name.value).None? then Some(InvalidName)
    else if p.move && NoSuchParent(st, enum, p.parent) then Some(UnknownPath)
    else None
  }

  function PatchRefusal(rules: Rules, st: State, enum: string, rel: string, p: NodePatch): Option<Refusal> {
    var from, to := Source(enum, rel), Target(enum, rel, p);
    if PlanRefusal(rules, st, enum, rel, p).Some? then PlanRefusal(rules, st, enum, rel, p)
    else if to == from then None
    else if from + "/" <= to then Some(InvalidBody)
    else if |Split(to)| - 2 + SubtreeDepth(PathNode(st, from).value) > 8 then Some(InvalidBody)
    else if HasPath(st, to) then Some(Exists)
    else None
  }

  /** A plan is made of the node's ids, the ids of the list it goes to, and its new label. */
  lemma PlanParts(rules: Rules, st: State, enum: string, rel: string, p: NodePatch, q: seq<string>)
    requires Shaped(st) && RelIds(st, enum, rel) == Done(q)
    ensures var node, planned := Resolve(st.enums[enum].tree, q).value, PlanPatch(rules, st, enum, rel, p);
      && q != [] && var pids := if p.move then ParentIds(st, enum, p.parent) else Done(Parent(q));
      if p.name.Some? && rules.cleanName(p.name.value).None? then planned == Refused(InvalidName)
      else if pids.Refused? then planned == Refused(pids.error)
      else planned == Done(PatchPlan(q, pids.value,
        Label(if p.name.Some? then rules.cleanName(p.name.value).value else node.name,
              if p.icon.Some? then p.icon.value else node.icon),
        NodePath(enum, q), NodePath(enum, pids.value + [node.id])))
  {
    hide Good, Split, HasPath, RelIds, ParentIds, NodePath, Shaped;
  }

  /** The plan of a patch in the words of the request. */
  lemma PlanText(rules: Rules, st: State, enum: string, rel: string, p: NodePatch)
    requires Shaped(st)
    ensures var from, to, planned := Source(enum, rel), Target(enum, rel, p), PlanPatch(rules, st, enum, rel, p);
      match PlanRefusal(rules, st, enum, rel, p)
      case Some(refusal) => planned == Refused(refusal)
      case None =>
        && planned.Done? && planned.value.source == from && planned.value.target == to
        && planned.value.tag == NewTag(rules, st, from, p) && planned.value.q == Split(from)[1..]
        && Split(to) == [enum] + planned.value.pids + [OwnId(from)]
  {
    NodeText(st, enum, rel);
    var from := Source(enum, rel);
    if enum in st.enums && rel != "" && HasPath(st, from) {
      hide Good, Resolve, Split, HasPath, RelIds, ParentIds, NodePath, PathLabel, NoSuchParent, Shaped, OwnId,
          PlanPatch, Trim, Base;
      PlanParts(rules, st, enum, rel, p, Split(from)[1..]);
      SourceNode(st, enum, from, Split(from)[1..]);
      ParentText(st, enum, p.parent);
      if p.move && !NoSuchParent(st, enum, p.parent) {
        ChildText(Base(enum, p.parent), enum, Split(Base(enum, p.parent))[1..], OwnId(from));
      }
    } else {
      hide Good, Resolve, Split, HasPath, RelIds, ParentIds, NodePath, PathLabel, Shaped, Trim;
    }
  }

  /** What a path that names a node says of it. */
  lemma SourceNode(st: State, enum: string, from: string, q: seq<string>)
    requires Shaped(st) && HasPath(st, from) && Split(from) == [enum] + q
    ensures enum in st.enums && SlashFree(enum) && q != [] && OwnId(from) == Last(q) && SlashFree(OwnId(from))
    ensures Resolve(st.enums[enum].tree, q).Some? && Resolve(st.enums[enum].tree, q).value.id == Last(q)
    ensures PathLabel(st, from) == Some(LabelOf(Resolve(st.enums[enum].tree, q).value))
    ensures Parent(q) + [Last(q)] == q && [enum] + Parent(q) + [Last(q)] == Split(from)
  {
    assert Split(from)[1..] == q;
    ParentHasList(st.enums[enum].tree, q);
  }

  /** Moving is refused because of a sibling exactly when the target names a node. */
  lemma PlaceTaken(st: State, enum: string, plan: PatchPlan, position: Option<int>)
    requires Planned(st, enum, plan)
    requires plan.target == plan.source || !(plan.source + "/" <= plan.target)
    ensures PatchedTree(st, enum, plan, position)
         == if plan.target != plan.source && HasPath(st, plan.target) then Refused(Exists)
            else PatchedTree(st, enum, plan, position)
    ensures plan.target == plan.source || !HasPath(st, plan.target) ==> PatchedTree(st, enum, plan, position).Done?
  {
    PlanIds(st, enum, plan);
    PlanPlaceable(st, enum, plan);
    hide Planned, Good, Resolve, Relabel, Detach, Split, NodePath;
    var tree0 := st.enums[enum].tree;
    var tree, t := Relabel(tree0, plan.q, plan.tag), plan.pids + [Last(plan.q)];
    if plan.target != plan.source || position.Some? {
      ResolveBelow(Detach(tree, plan.q), plan.pids, [Last(plan.q)]);
      DetachLookup(tree, plan.q, MAX_DEPTH, t);
      RelabelLookup(tree0, plan.q, plan.tag, t);
      UnderNode(plan.target, enum, t);
    }
  }

  /** The path of the list a node stands in. */
  function Above(path: string): string { Join(Parent(Split(path))) }

  /** The ids standing directly below a path, in order. */
  function Children(st: State, path: string): Option<seq<string>> {
    var parts := Split(path);
    if parts[0] in st.enums then ListIds(st.enums[parts[0]].tree, parts[1..]) else None
  }

  /** Its place among its siblings. */
  predicate StandsAt(st: State, path: string, at: int) {
    var ids := Children(st, Above(path));
    ids.Some? && 0 <= at < |ids.value| && ids.value[at] == OwnId(path)
  }

  /** A path after a move: at or below the old place it is carried to the new one. */
  function Carried(path: string, from: string, to: string): string {
    if Under(path, from) then to + path[|from|..] else path
  }

  /** What a patch tells: where the node went, and its label when that or its place among the same
      siblings changed. */
  function PatchNews(st: State, from: string, to: string, tag: Label, position: Option<int>): seq<Change> {
    (if to != from then [NodeMoved(from, to)] else [])
    + (if PathLabel(st, from) != Some(tag) || (to == from && position.Some? && !StandsAt(st, from, position.value))
       then [NodeUpdated(to, tag)] else [])
  }

  /** A patched node keeps its own id. With a parent it goes below it, else it stays; it gets the
      given name and icon; everything below it comes along, the paths objects hold are carried
      along, and nothing else changes. It is refused for the first reason there is. */
  lemma NodePatched(rules: Rules, st: State, enum: string, rel: string, patch: NodePatch, p: string, ref: string,
                    i: nat)
    requires Shaped(st)
    ensures var done := Apply(rules, st, PatchNodeOp(enum, rel, patch));
      var from, to := Source(enum, rel), Target(enum, rel, patch);
      match PatchRefusal(rules, st, enum, rel, patch)
      case Some(refusal) => done == Refused(refusal)
      case None =>
        && done.Done? && HasPath(st, from) && var tag := NewTag(rules, st, from, patch);
        && done.value.changes == PatchNews(st, from, to, tag, patch.position)
        && PathLabel(done.value.st, p) == (
             if p == to then Some(tag)
             else if Under(p, to) then PathLabel(st, from + p[|to|..])
             else if Under(p, from) then None
             else PathLabel(st, p))
        && done.value.st.objects.Keys == st.objects.Keys
        && (ref in st.objects && i < |st.objects[ref].enums| ==> var o := done.value.st.objects[ref];
             && o == st.objects[ref].(enums := o.enums) && |o.enums| == |st.objects[ref].enums|
             && o.enums[i] == Carried(st.objects[ref].enums[i], from, to))
  {
    assert Apply(rules, st, PatchNodeOp(enum, rel, patch)) == PatchNode(rules, st, enum, rel, patch);
    hide Apply, Good, Resolve, Split, HasPath, PathLabel, PlanPatch, PatchNode, Shaped, OwnId, Trim, Under, StandsAt;
    hide SubtreeDepth, RewritePaths, PatchedTree, Target, NewTag, PatchNews, Carried;
    PatchRefused(rules, st, enum, rel, patch);
    if PatchRefusal(rules, st, enum, rel, patch).None? {
      hide PatchRefusal;
      PatchAccepted(rules, st, enum, rel, patch, p, ref, i);
    }
  }

  lemma PatchRefused(rules: Rules, st: State, enum: string, rel: string, patch: NodePatch)
    requires Shaped(st)
    ensures PatchRefusal(rules, st, enum, rel, patch).Some?
      ==> PatchNode(rules, st, enum, rel, patch) == Refused(PatchRefusal(rules, st, enum, rel, patch).value)
  {
    PlanText(rules, st, enum, rel, patch);
    RefusedPlan(rules, st, enum, rel, patch);
    hide PlanPatch, PatchNode, Shaped, Split, Source, Target, NewTag, OwnId, SubtreeDepth, HasPath, PatchNews;
    if PlanRefusal(rules, st, enum, rel, patch).None? {
      LongText(Target(enum, rel, patch));
      PatchText(rules, st, enum, rel, patch, PlanPatch(rules, st, enum, rel, patch).value);
    }
  }

  /** A path of an enum and an id at least is not empty. */
  lemma LongText(path: string)
    requires |Split(path)| >= 2
    ensures path != ""
  {
  }

  /** What an accepted patch leaves. */
  lemma PatchAccepted(rules: Rules, st: State, enum: string, rel: string, patch: NodePatch, p: string, ref: string,
                      i: nat)
    requires Shaped(st) && PatchRefusal(rules, st, enum, rel, patch).None?
    ensures var done := PatchNode(rules, st, enum, rel, patch);
      var from, to := Source(enum, rel), Target(enum, rel, patch);
      && done.Done? && HasPath(st, from) && var tag := NewTag(rules, st, from, patch);
      && done.value.changes == PatchNews(st, from, to, tag, patch.position)
      && PathLabel(done.value.st, p) == (
           if p == to then Some(tag)
           else if Under(p, to) then PathLabel(st, from + p[|to|..])
           else if Under(p, from) then None
           else PathLabel(st, p))
      && done.value.st.objects.Keys == st.objects.Keys
      && (ref in st.objects && i < |st.objects[ref].enums| ==> var o := done.value.st.objects[ref];
           && o == st.objects[ref].(enums := o.enums) && |o.enums| == |st.objects[ref].enums|
           && o.enums[i] == Carried(st.objects[ref].enums[i], from, to))
  {
    PlanText(rules, st, enum, rel, patch);
    hide Good, Resolve, Split, HasPath, PathLabel, PlanPatch, PatchNode, Shaped, OwnId, Trim, Under, StandsAt,
        SubtreeDepth, RewritePaths, PatchedTree, Target, NewTag, PatchNews, Carried;
    var plan := PlanPatch(rules, st, enum, rel, patch).value;
    PatchText(rules, st, enum, rel, patch, plan);
    PatchNodeEffect(rules, st, enum, rel, patch, p);
    UnderSelf(plan.target);
    CarriedObject(st.objects, plan.source, plan.target, ref, i);
  }

  lemma RefusedPlan(rules: Rules, st: State, enum: string, rel: string, p: NodePatch)
    requires Shaped(st)
    ensures PlanPatch(rules, st, enum, rel, p).Refused?
      ==> PatchNode(rules, st, enum, rel, p) == Refused(PlanPatch(rules, st, enum, rel, p).error)
  {
    hide PlanPatch;
  }

  /** The end of a planned patch in the words of the request. */
  lemma PatchText(rules: Rules, st: State, enum: string, rel: string, p: NodePatch, plan: PatchPlan)
    requires Shaped(st) && PlanRefusal(rules, st, enum, rel, p).None?
    requires PlanPatch(rules, st, enum, rel, p) == Done(plan)
    requires plan.source == Source(enum, rel) && plan.target == Target(enum, rel, p) && plan.target != ""
    requires plan.q == Split(plan.source)[1..] && Split(plan.target) == [enum] + plan.pids + [OwnId(plan.source)]
    ensures var done, moved := PatchNode(rules, st, enum, rel, p), plan.target != plan.source;
      match PatchRefusal(rules, st, enum, rel, p)
      case Some(refusal) => done == Refused(refusal)
      case None =>
        && done.Done?
        && done.value.changes == PatchNews(st, plan.source, plan.target, plan.tag, p.position)
        && done.value.st.objects == if moved then RewritePaths(st.objects, plan.source, plan.target) else st.objects
  {
    PatchOutcome(rules, st, enum, rel, p, plan);
    NodeText(st, enum, rel);
    assert Split(plan.source) == [enum] + plan.q;
    hide Good, Resolve, Split, HasPath, PathLabel, PlanPatch, PatchNode, Shaped, OwnId, Trim, StandsAt, SubtreeDepth,
        RewritePaths, PatchedTree, Target;
    SourceNode(st, enum, plan.source, plan.q);
    PathOfNode(st, enum, plan.source, plan.q);
    PatchNewsAre(st, enum, plan, p.position);
    assert |Split(plan.target)| == |plan.pids| + 2;
    hide SiblingIndex, Above, Children, PatchedTree, NewTag, PlanRefusal, Source, PatchNews;
  }

  lemma PatchNewsAre(st: State, enum: string, plan: PatchPlan, position: Option<int>)
    requires Shaped(st) && HasPath(st, plan.source) && Split(plan.source) == [enum] + plan.q
    ensures enum in st.enums && Resolve(st.enums[enum].tree, plan.q).Some?
    ensures var tree, moved := st.enums[enum].tree, plan.target != plan.source;
      PatchNews(st, plan.source, plan.target, plan.tag, position)
        == (if moved then [NodeMoved(plan.source, plan.target)] else [])
           + (if plan.tag != LabelOf(Resolve(tree, plan.q).value)
                || (!moved && position.Some? && position.value != SiblingIndex(tree, plan.q))
              then [NodeUpdated(plan.target, plan.tag)] else [])
  {
    SourceNode(st, enum, plan.source, plan.q);
    hide Resolve, Split, HasPath, PathLabel, Shaped, StandsAt, SiblingIndex;
    PlaceIsIndex(st, enum, plan.source, plan.q, position);
  }

  lemma PathOfNode(st: State, enum: string, path: string, q: seq<string>)
    requires HasPath(st, path) && Split(path) == [enum] + q
    ensures enum in st.enums && PathNode(st, path) == Resolve(st.enums[enum].tree, q)
  {
    assert Split(path)[1..] == q;
  }

  /** How a planned patch ends. */
  lemma PatchOutcome(rules: Rules, st: State, enum: string, rel: string, p: NodePatch, plan: PatchPlan)
    requires Shaped(st) && PlanPatch(rules, st, enum, rel, p) == Done(plan)
    ensures enum in st.enums && Resolve(st.enums[enum].tree, plan.q).Some?
    ensures var node, done := Resolve(st.enums[enum].tree, plan.q).value, PatchNode(rules, st, enum, rel, p);
      var moved := plan.target != plan.source;
      if moved && (plan.source + "/" <= plan.target || |plan.pids| + SubtreeDepth(node) > MAX_DEPTH)
        then done == Refused(InvalidBody)
      else if moved && HasPath(st, plan.target) then done == Refused(Exists)
      else
        && done.Done? && PatchedTree(st, enum, plan, p.position).Done?
        && done.value.st.enums
           == st.enums[enum := st.enums[enum].(tree := PatchedTree(st, enum, plan, p.position).value)]
        && done.value.st.objects == (if moved then RewritePaths(st.objects, plan.source, plan.target) else st.objects)
        && done.value.changes ==
           (if moved then [NodeMoved(plan.source, plan.target)] else [])
           + (if plan.tag != LabelOf(node)
                || (!moved && p.position.Some? && p.position.value != SiblingIndex(st.enums[enum].tree, plan.q))
              then [NodeUpdated(plan.target, plan.tag)] else [])
  {
    if plan.target == plan.source || !(plan.source + "/" <= plan.target) {
      PlaceTaken(st, enum, plan, p.position);
    }
    hide Good, HasPath, PatchedTree, Planned, PlanPatch, Shaped, SubtreeDepth;
  }

  /** The place of a node among its siblings is the only one at which its id stands. */
  lemma PlaceIsIndex(st: State, enum: string, path: string, q: seq<string>, position: Option<int>)
    requires Shaped(st) && enum in st.enums && Resolve(st.enums[enum].tree, q).Some? && Split(path) == [enum] + q
    ensures position.Some? ==>
      (StandsAt(st, path, position.value) <==> position.value == SiblingIndex(st.enums[enum].tree, q))
    ensures q != [] && Split(Above(path)) == [enum] + Parent(q)
    ensures Children(st, Above(path)) == ListIds(st.enums[enum].tree, Parent(q))
  {
    var tree := st.enums[enum].tree;
    SiblingIs(tree, q);
    var i, list := SiblingIndex(tree, q), ListAt(tree, Parent(q));
    assert Parent([enum] + q) == [enum] + Parent(q);
    hide Split, Good, Resolve, ListAt, HasList, SiblingIndex, DistinctIds;
    SplitJoin([enum] + Parent(q));
    assert ([enum] + Parent(q))[1..] == Parent(q);
    assert OwnId(path) == Last(q);
    if position.Some? && StandsAt(st, path, position.value) { OnlyPlace(list, i, position.value); }
  }

  lemma SiblingIs(tree: seq<Node>, q: seq<string>)
    requires Good(tree, MAX_DEPTH) && Resolve(tree, q).Some?
    ensures q != [] && HasList(tree, Parent(q)) && var list, i := ListAt(tree, Parent(q)), SiblingIndex(tree, q);
      DistinctIds(list) && i < |list| && list[i].id == Last(q)
  {
    assert q != [];
    hide DistinctIds;
    ParentHasList(tree, q);
    ListGood(tree, Parent(q), MAX_DEPTH);
    ResolvedPathGood(tree, q, MAX_DEPTH);
    hide Resolve;
  }

  lemma OnlyPlace(list: seq<Node>, i: nat, k: nat)
    requires DistinctIds(list) && i < |list| && k < |list| && list[i].id == list[k].id
    ensures i == k
  {
  }

  /** Rewriting carries every path every object holds; where nothing moves they stay. */
  lemma CarriedObject(objects: map<string, Object>, from: string, to: string, ref: string, i: nat)
    requires to != ""
    ensures RewritePaths(objects, from, to).Keys == objects.Keys
    ensures ref in objects && i < |objects[ref].enums| ==>
      var o, path := RewritePaths(objects, from, to)[ref], objects[ref].enums[i];
      && o == objects[ref].(enums := o.enums) && |o.enums| == |objects[ref].enums|
      && o.enums[i] == Carried(path, from, to)
      && (from == to ==> Carried(path, from, to) == path)
  {
    if ref in objects && i < |objects[ref].enums| { RewriteEach(objects[ref].enums, from, to, i); }
  }

  // ----- removing -----

  /** Removing what objects hold is refused with their refs in order, or takes the paths out of
      them; without members, or when they are taken out, the node is gone with all below it. */
  lemma NodeRemoved(rules: Rules, st: State, enum: string, rel: string, detach: bool, p: string, ref: string)
    requires Shaped(st)
    ensures var done, path := Apply(rules, st, DeleteNodeOp(enum, rel, detach)), Source(enum, rel);
      var members := set r | r in st.objects && HoldsUnder(st.objects[r].enums, path);
      if enum !in st.enums then done == Refused(UnknownEnum)
      else if rel == "" || !HasPath(st, path) then done == Refused(UnknownPath)
      else if members != {} && !detach then done == Refused(HasMembers(Names.Sorted(members)))
      else
        && done.Done? && done.value.changes == [NodeDeleted(path)]
        && PathLabel(done.value.st, p) == (if Under(p, path) then None else PathLabel(st, p))
        && done.value.st.objects.Keys == st.objects.Keys
        && (ref in st.objects ==>
             done.value.st.objects[ref] == st.objects[ref].(enums := Outside(st.objects[ref].enums, path)))
  {
    assert Apply(rules, st, DeleteNodeOp(enum, rel, detach)) == DeleteNode(st, enum, rel, detach);
    hide Apply, Shaped, MembersCheck, Outside;
    NodeText(st, enum, rel);
    var path := Source(enum, rel);
    hide HasPath, Split, PathLabel, Under, HoldsUnder, RelIds, Resolve, Detach, Good, Trim;
    if enum in st.enums && rel != "" && HasPath(st, path) {
      CheckedMembers(st.objects, path, detach, ref);
      if DeleteNode(st, enum, rel, detach).Done? { DeleteNodeEffect(st, enum, rel, detach, p); }
    }
  }

  /** The same for an enum. */
  lemma EnumRemoved(rules: Rules, st: State, id: string, detach: bool, ref: string)
    requires Shaped(st)
    ensures var done := Apply(rules, st, DeleteEnumOp(id, detach));
      var members := set r | r in st.objects && HoldsUnder(st.objects[r].enums, id);
      if id !in st.enums then done == Refused(UnknownEnum)
      else if members != {} && !detach then done == Refused(HasMembers(Names.Sorted(members)))
      else
        && done.Done? && done.value.changes == [EnumDeleted(id)]
        && done.value.st.enums.Keys == st.enums.Keys - {id}
        && (forall e :: e in st.enums && e != id ==> done.value.st.enums[e] == st.enums[e])
        && done.value.st.objects.Keys == st.objects.Keys
        && (ref in st.objects ==>
             done.value.st.objects[ref] == st.objects[ref].(enums := Outside(st.objects[ref].enums, id)))
  {
    hide HoldsUnder, Shaped, MembersCheck, Outside, Names.Sorted;
    CheckedMembers(st.objects, id, detach, ref);
    assert Apply(rules, st, DeleteEnumOp(id, detach)) == DeleteEnum(st, id, detach);
    hide Apply;
  }

  lemma CheckedMembers(objects: map<string, Object>, path: string, detach: bool, ref: string)
    ensures var members := set r | r in objects && HoldsUnder(objects[r].enums, path);
      if members != {} && !detach then MembersCheck(objects, path, detach) == Refused(HasMembers(Names.Sorted(members)))
      else
        && MembersCheck(objects, path, detach).Done?
        && var after := MembersCheck(objects, path, detach).value;
        && after.Keys == objects.Keys
        && (ref in objects ==> after[ref] == objects[ref].(enums := Outside(objects[ref].enums, path)))
  {
    hide HoldsUnder;
    var members := set r | r in objects && HoldsUnder(objects[r].enums, path);
    if members != {} {
      var r :| r in members;
      assert r in Names.Sorted(members);
    }
    if MembersCheck(objects, path, detach).Done? && ref in objects { MembersStripped(objects, path, detach, ref); }
  }

  // ----- the order of siblings -----

  lemma ChildrenReplaced(st: State, enum: string, tree: seq<Node>, l: string)
    requires enum in st.enums
    ensures Children(WithTree(st, enum, tree), l)
         == if Split(l)[0] == enum then ListIds(tree, Split(l)[1..]) else Children(st, l)
    ensures Split(l)[0] == enum ==> Children(st, l) == ListIds(st.enums[enum].tree, Split(l)[1..])
  {
  }

  /** Only the trees decide the order. */
  lemma SameChildren(a: State, b: State, l: string)
    requires a.enums == b.enums
    ensures Children(a, l) == Children(b, l)
  {
  }

  lemma SplitIs(l: string, path: string, enum: string, ids: seq<string>)
    requires Split(path) == [enum] + ids
    ensures l == path <==> Split(l)[0] == enum && Split(l)[1..] == ids
  {
    hide Split;
    HeadTailPrefix(enum, ids, Split(l));
    if Split(l) == Split(path) { SplitInjective(l, path); }
  }

  /** A new node stands at the place asked for, and has nothing below it. */
  lemma CreatedOrder(rules: Rules, st: State, enum: string, parent: Option<string>, id: string, name: string,
                     icon: string, position: Option<int>, l: string)
    requires Shaped(st)
    ensures var done := Apply(rules, st, CreateNodeOp(enum, parent, id, name, icon, position));
      var above := Base(enum, parent);
      done.Done? ==>
        && Children(st, above).Some?
        && Children(done.value.st, l) ==
           if l == above then Some(Inserted(Children(st, above).value, id, position))
           else if l == above + "/" + id then Some([]) else Children(st, l)
  {
    if CreateNode(rules, st, enum, parent, id, name, icon, position).Done? {
      ParentText(st, enum, parent);
      var pids := Split(Base(enum, parent))[1..];
      assert SlashFree(id);
      var n := Node(id, rules.cleanName(name).value, icon, []);
      hide Split, Good, Attach, HasPath, Resolve, Inserted, ValidId, Shaped, NodePath, Children, Base;
      AttachedChildren(st, enum, Base(enum, parent), pids, n, position, l);
    }
  }

  lemma AttachedChildren(st: State, enum: string, above: string, pids: seq<string>, n: Node, position: Option<int>,
                         l: string)
    requires enum in st.enums && HasList(st.enums[enum].tree, pids) && Split(above) == [enum] + pids
    requires FindIndex(ListAt(st.enums[enum].tree, pids), n.id) == |ListAt(st.enums[enum].tree, pids)|
    requires SlashFree(n.id) && n.children == []
    ensures Children(st, above).Some?
    ensures Children(WithTree(st, enum, Attach(st.enums[enum].tree, pids, n, position)), l) ==
      if l == above then Some(Inserted(Children(st, above).value, n.id, position))
      else if l == above + "/" + n.id then Some([]) else Children(st, l)
  {
    var tree, ids := st.enums[enum].tree, Split(l)[1..];
    AttachOrder(tree, pids, n, position, ids);
    if pids + [n.id] <= ids { NoListBelow(tree, pids, n, position, ids); }
    ChildText(above, enum, pids, n.id);
    ChildrenReplaced(st, enum, Attach(tree, pids, n, position), l);
    ChildrenReplaced(st, enum, tree, above);
    hide Split, Attach, Resolve, ListIds, Inserted, NodePath, Children, WithTree, ListAt;
    SplitIs(l, above, enum, pids);
    assert [enum] + pids + [n.id] == [enum] + (pids + [n.id]);
    SplitIs(l, above + "/" + n.id, enum, pids + [n.id]);
  }

  /** A patched node stands at the place asked for or else the one it had, the list it left closes
      up, its own lists come along, and no other list changes. */
  lemma PatchedOrder(rules: Rules, st: State, enum: string, rel: string, patch: NodePatch, at: nat, l: string)
    requires Shaped(st)
    requires StandsAt(st, Source(enum, rel), at)
    ensures var done := Apply(rules, st, PatchNodeOp(enum, rel, patch));
      var from, to := Source(enum, rel), Target(enum, rel, patch);
      var own := OwnId(from);
      done.Done? ==>
        && Children(st, Above(to)).Some?
        && Children(done.value.st, l) ==
           if to == from && patch.position.None? then Children(st, l)
           else if Under(l, to) then Children(st, from + l[|to|..])
           else if l == Above(to)
             then Some(Inserted(Without(Children(st, l).value, own), own,
                                if patch.position.None? then Some(at) else patch.position))
           else if Under(l, from) then None
           else if l == Above(from) && Children(st, l).Some? then Some(Without(Children(st, l).value, own))
           else Children(st, l)
  {
    hide Good, Resolve, Split, HasPath, PathLabel, PlanPatch, PatchNode, Shaped, Trim, StandsAt, SubtreeDepth, Under,
        RewritePaths, PatchedTree, Target, NewTag, Children, ListIds, Inserted, Without, SiblingIndex, Source, Planned;
    PlanText(rules, st, enum, rel, patch);
    RefusedPlan(rules, st, enum, rel, patch);
    var from, done := Source(enum, rel), PatchNode(rules, st, enum, rel, patch);
    if done.Done? {
      var plan := PlanPatch(rules, st, enum, rel, patch).value;
      PatchOutcome(rules, st, enum, rel, patch, plan);
      SourceParts(st, enum, rel);
      PlaceIsIndex(st, enum, from, plan.q, Some(at));
      SameChildren(done.value.st, WithTree(st, enum, PatchedTree(st, enum, plan, patch.position).value), l);
      OrderText(st, enum, plan, patch.position, l);
    }
  }

  lemma SourceParts(st: State, enum: string, rel: string)
    requires Shaped(st) && enum in st.enums
    ensures Split(Source(enum, rel)) == [enum] + Split(Source(enum, rel))[1..]
  {
    NodeText(st, enum, rel);
  }

  lemma OrderText(st: State, enum: string, plan: PatchPlan, position: Option<int>, l: string)
    requires Planned(st, enum, plan)
    requires plan.target == plan.source || !(plan.source + "/" <= plan.target)
    requires PatchedTree(st, enum, plan, position).Done?
    ensures Under(l, plan.target) ==> |plan.target| <= |l|
    ensures Children(st, Above(plan.target)).Some?
    ensures var order := Children(WithTree(st, enum, PatchedTree(st, enum, plan, position).value), l);
      var own := OwnId(plan.source);
      order ==
        if plan.target == plan.source && position.None? then Children(st, l)
        else if Under(l, plan.target) then Children(st, plan.source + l[|plan.target|..])
        else if l == Above(plan.target)
          then Some(Inserted(Without(Children(st, l).value, own), own,
                             if position.None? then Some(SiblingIndex(st.enums[enum].tree, plan.q)) else position))
        else if Under(l, plan.source) then None
        else if l == Above(plan.source) && Children(st, l).Some? then Some(Without(Children(st, l).value, own))
        else Children(st, l)
  {
    PlanIds(st, enum, plan);
    var q, t, ids, own := plan.q, plan.pids + [Last(plan.q)], Split(l)[1..], Last(plan.q);
    var tree0, tree := st.enums[enum].tree, PatchedTree(st, enum, plan, position).value;
    hide Good, Resolve, Split, PatchedTree, Planned, Children, ListIds, Inserted, Without, SiblingIndex, Under;
    hide NodePath;
    PatchedTreeOrder(st, enum, plan, position, ids);
    ChildrenReplaced(st, enum, tree, l);
    UnderNode(l, enum, t);
    UnderNode(l, enum, q);
    AboveParts(plan.target, enum, t);
    AboveParts(plan.source, enum, q);
    assert Parent(t) == plan.pids;
    SplitIs(l, Above(plan.target), enum, plan.pids);
    SplitIs(l, Above(plan.source), enum, Parent(q));
    ChildrenReplaced(st, enum, tree, Above(plan.target));
    if Under(l, plan.target) {
      MovedParts(l, enum, q, t);
      var was := plan.source + l[|plan.target|..];
      TailOfMoved(was, enum, q, ids[|t|..]);
      ChildrenReplaced(st, enum, tree, was);
    }
  }

  lemma AboveParts(path: string, enum: string, q: seq<string>)
    requires SlashFree(enum) && q != [] && AllSlashFree(q) && path == NodePath(enum, q)
    ensures Split(path) == [enum] + q && OwnId(path) == Last(q) && Split(Above(path)) == [enum] + Parent(q)
  {
    NodePathParts(enum, q);
    assert Parent([enum] + q) == [enum] + Parent(q);
    SplitJoin([enum] + Parent(q));
  }

  /** A removed node leaves its list closed up, and its own lists are gone. */
  lemma RemovedOrder(rules: Rules, st: State, enum: string, rel: string, detach: bool, l: string)
    requires Shaped(st)
    ensures var done, path := Apply(rules, st, DeleteNodeOp(enum, rel, detach)), Source(enum, rel);
      done.Done? ==>
        Children(done.value.st, l) ==
          if Under(l, path) then None
          else if l == Above(path) && Children(st, l).Some? then Some(Without(Children(st, l).value, OwnId(path)))
          else Children(st, l)
  {
    assert Apply(rules, st, DeleteNodeOp(enum, rel, detach)) == DeleteNode(st, enum, rel, detach);
    hide Apply, DeleteNode;
    if DeleteNode(st, enum, rel, detach).Done? {
      var q := DeletedTree(st, enum, rel, detach);
      DetachedChildren(st, enum, q, l);
      hide Good, Resolve, Split, Children, Without, Under, NodePath, Detach, Shaped, WithTree, Source, ListIds, OwnId;
      SameChildren(DeleteNode(st, enum, rel, detach).value.st, WithTree(st, enum, Detach(st.enums[enum].tree, q)), l);
    }
  }

  lemma DetachedChildren(st: State, enum: string, q: seq<string>, l: string)
    requires enum in st.enums && SlashFree(enum) && Good(st.enums[enum].tree, MAX_DEPTH)
    requires q != [] && AllSlashFree(q) && Resolve(st.enums[enum].tree, q).Some?
    ensures var path, after := NodePath(enum, q), Children(WithTree(st, enum, Detach(st.enums[enum].tree, q)), l);
      after ==
        if Under(l, path) then None
        else if l == Above(path) && Children(st, l).Some? then Some(Without(Children(st, l).value, OwnId(path)))
        else Children(st, l)
  {
    var tree, path := st.enums[enum].tree, NodePath(enum, q);
    DetachOrder(tree, q, MAX_DEPTH, Split(l)[1..]);
    ChildrenReplaced(st, enum, Detach(tree, q), l);
    hide Good, Resolve, Split, Children, ListIds, Without, Under, NodePath, Detach, WithTree;
    UnderNode(l, enum, q);
    AboveParts(path, enum, q);
    SplitIs(l, Above(path), enum, Parent(q));
  }

  lemma DeletedTree(st: State, enum: string, rel: string, detach: bool) returns (q: seq<string>)
    requires Shaped(st) && DeleteNode(st, enum, rel, detach).Done?
    ensures enum in st.enums && SlashFree(enum) && Good(st.enums[enum].tree, MAX_DEPTH)
    ensures q != [] && AllSlashFree(q) && Resolve(st.enums[enum].tree, q).Some?
    ensures Source(enum, rel) == NodePath(enum, q)
    ensures DeleteNode(st, enum, rel, detach).value.st.enums
         == WithTree(st, enum, Detach(st.enums[enum].tree, q)).enums
  {
    NodeText(st, enum, rel);
    q := RelIds(st, enum, rel).value;
    ResolvedPathGood(st.enums[enum].tree, q, MAX_DEPTH);
  }

  /** A leaf has an empty list, and no list below that. */
  lemma LeafOrder(n: Node, x: seq<string>)
    requires n.children == [] && x != [] && x[0] == n.id
    ensures ListIds([n], x) == if |x| == 1 then Some([]) else None
  {
    FindIndexIs([n], x[0], 0);
    assert Resolve([n], x) == if |x| == 1 then Some(n) else Resolve(n.children, x[1..]);
    assert IdsOf(n.children) == [];
  }

  lemma NoListBelow(tree: seq<Node>, pids: seq<string>, n: Node, position: Option<int>, ids: seq<string>)
    requires HasList(tree, pids) && FindIndex(ListAt(tree, pids), n.id) == |ListAt(tree, pids)| && n.children == []
    requires pids + [n.id] <= ids
    ensures ListIds(tree, ids) == None
    ensures ListIds(Attach(tree, pids, n, position), ids) == if ids == pids + [n.id] then Some([]) else None
  {
    hide ListAt, Attach, Resolve;
    AttachLookup(tree, pids, n, position, ids);
    AttachOrder(tree, pids, n, position, ids);
    assert ids[|pids|] == n.id;
    LeafOrder(n, ids[|pids|..]);
  }
}
