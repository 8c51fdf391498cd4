/** The store and its transactions as the objects they are: a transaction updates its own
    copy of the content step by step, the store commits it, logs its events and fans them
    out to the open change streams. Every method is tied to the functions the histories are
    proved about. Tree nodes are values here, written back into their list. */
module MetaStore {
  import opened Collections
  import opened Text
  import opened MetaTree
  import opened MetaOps
  import opened MetaLog
  import opened MetaRuns
  import opened MetaSafety
  import Names

  method FindNode(tree: seq<Node>, ids: seq<string>) returns (siblings: seq<Node>, index: nat, ok: bool)
    ensures ok <==> Resolve(tree, ids).Some?
    ensures ok ==> HasList(tree, Parent(ids)) && siblings == ListAt(tree, Parent(ids))
    ensures ok ==> index == SiblingIndex(tree, ids) && index < |siblings| && siblings[index] == Resolve(tree, ids).value
  {
    var level := tree;
    var depth := 0;
    siblings, index, ok := [], 0, false;
    while depth < |ids|
      invariant depth <= |ids|
      invariant !ok
      invariant HasList(tree, ids[..depth]) && level == ListAt(tree, ids[..depth])
      invariant depth == |ids| ==> ids == []
    {
      var found := 0;
      while found < |level| && level[found].id != ids[depth]
        invariant found <= |level|
        invariant forall j :: 0 <= j < found ==> level[j].id != ids[depth]
      {
        found := found + 1;
      }
      ResolveBelow(tree, ids[..depth], ids[depth..]);
      assert ids[..depth] + ids[depth..] == ids;
      if found == |level| {
        FindIndexNone(level, ids[depth]);
        return;
      }
      FindIndexIs(level, ids[depth], found);
      if depth == |ids| - 1 {
        ok, siblings, index := true, level, found;
        return;
      }
      ResolveBelow(tree, ids[..depth], [ids[depth]]);
      assert ids[..depth] + [ids[depth]] == ids[..depth + 1];
      level := level[found].children;
      depth := depth + 1;
    }
  }

  lemma RewriteListStep(paths: seq<string>, i: nat, from: string, to: string)
    requires i <= |paths|
    ensures RewriteList(paths[i..], from, to)
         == if i == |paths| then []
            else (if !Under(paths[i], from) then [paths[i]] else if to == "" then [] else [to + paths[i][|from|..]])
                 + RewriteList(paths[i + 1..], from, to)
  {
    if i < |paths| { assert paths[i..][1..] == paths[i + 1..]; }
  }

  class MetaTx {
    const rules: Rules
    var objects: map<string, Object>
    var enums: map<string, Enum>
    var events: seq<Change>

    function Content(): State
      reads this
    {
      State(objects, enums)
    }

    /** err and the new content are what the operation's function says; after a refusal the
        content may be half changed, because the transaction is thrown away. */
    predicate Did(err: Option<Refusal>, before: seq<Change>, spec: Outcome<Step>)
      reads this
    {
      match spec
      case Refused(e) => err == Some(e)
      case Done(step) => err == None && Content() == step.st && events == before + step.changes
    }

    constructor (rules: Rules, st: State)
      ensures this.rules == rules && Content() == st && events == []
    {
      this.rules := rules;
      objects, enums, events := st.objects, st.enums, [];
    }

    method Emit(c: Change)
      modifies `events
      ensures events == old(events) + [c]
    {
      events := events + [c];
    }

    static method RewriteOne(paths: seq<string>, from: string, to: string) returns (out: seq<string>)
      ensures out == RewriteList(paths, from, to)
    {
      hide RewriteList;
      out := [];
      assert paths[0..] == paths;
      for i := 0 to |paths|
        invariant out + RewriteList(paths[i..], from, to) == RewriteList(paths, from, to)
      {
        RewriteListStep(paths, i, from, to);
        if paths[i] == from || from + "/" <= paths[i] {
          if to != "" { out := out + [to + paths[i][|from|..]]; }
        } else {
          out := out + [paths[i]];
        }
      }
      RewriteListStep(paths, |paths|, from, to);
    }

    method RewriteAll(from: string, to: string)
      modifies `objects
      ensures objects == RewritePaths(old(objects), from, to)
    {
      var todo := objects.Keys;
      while todo != {}
        invariant todo <= old(objects).Keys && objects.Keys == old(objects).Keys
        invariant forall r :: r in todo ==> objects[r] == old(objects)[r]
        invariant forall r :: r in objects && r !in todo ==> objects[r] == RewritePaths(old(objects), from, to)[r]
        decreases |todo|
      {
        var r :| r in todo;
        var out := RewriteOne(objects[r].enums, from, to);
        objects := objects[r := objects[r].(enums := out)];
        todo := todo - {r};
      }
    }

    method CheckMembers(path: string, detach: bool) returns (err: Option<Refusal>)
      modifies `objects
      ensures match MembersCheck(old(objects), path, detach)
              case Refused(e) => err == Some(e)
              case Done(after) => err == None && objects == after
    {
      var refs := ObjectsUnder(objects, path);
      if refs == [] { return None; }
      if !detach { return Some(HasMembers(refs)); }
      RewriteAll(path, "");
      return None;
    }

    method WriteObject(ref: string, p: ObjectPatch) returns (err: Option<Refusal>)
      modifies this
      ensures Did(err, old(events), PatchObject(rules, old(Content()), ref, p))
    {
      if !ValidRef(ref) { return Some(UnknownObject); }
      if ref !in objects && p.name.None? { return Some(InvalidName); }
      var next := if ref in objects then objects[ref] else Object("", [], map[], false);
      if p.replace { next := next.(enums := [], meta := map[]); }
      if p.name.Some? {
        var n := rules.cleanName(p.name.value);
        if n.None? { return Some(InvalidName); }
        next := next.(name := n.value);
      }
      if p.enums.Some? {
        for i := 0 to |p.enums.value|
          invariant forall j :: 0 <= j < i ==> HasPath(Content(), p.enums.value[j])
          invariant Content() == old(Content()) && events == old(events)
        {
          if !HasPath(Content(), p.enums.value[i]) { return Some(UnknownPath); }
        }
        next := next.(enums := p.enums.value);
      }
      if p.meta.Some? {
        if exists ns <- p.meta.value :: !ValidId(ns) { return Some(InvalidId); }
        next := next.(meta := MergeMeta(next.meta, p.meta.value));
        if rules.metaBytes(next.meta) > META_MAX { return Some(InvalidBody); }
      }
      objects := objects[ref := next];
      return None;
    }

    method RemoveObject(ref: string) returns (err: Option<Refusal>)
      modifies this
      ensures Did(err, old(events), DeleteObject(old(Content()), ref))
    {
      if ref !in objects { return Some(UnknownObject); }
      objects := objects - {ref};
      return None;
    }

    method MarkOrphaned(ref: string, orphaned: bool) returns (err: Option<Refusal>)
      modifies this
      ensures Did(err, old(events), SetOrphaned(old(Content()), ref, orphaned))
    {
      if ref !in objects { return Some(UnknownObject); }
      objects := objects[ref := objects[ref].(orphaned := orphaned)];
      return None;
    }

    method AddEnum(id: string, name: map<string, string>) returns (err: Option<Refusal>)
      modifies this
      ensures Did(err, old(events), CreateEnum(rules, old(Content()), id, name))
    {
      if !ValidId(id) { return Some(InvalidId); }
      if !ValidEnumName(rules, name) { return Some(InvalidName); }
      if id in enums { return Some(Exists); }
      enums := enums[id := Enum(name, [])];
      Emit(EnumCreated(id, enums[id]));
      return None;
    }

    method RenameEnum(id: string, name: map<string, string>) returns (err: Option<Refusal>)
      modifies this
      ensures Did(err, old(events), PatchEnum(rules, old(Content()), id, name))
    {
      if id !in enums { return Some(UnknownEnum); }
      if !ValidEnumName(rules, name) { return Some(InvalidName); }
      if enums[id].name == name { return None; }
      enums := enums[id := enums[id].(name := name)];
      Emit(EnumUpdated(id, enums[id]));
      return None;
    }

    method RemoveEnum(id: string, detach: bool) returns (err: Option<Refusal>)
      modifies this
      ensures Did(err, old(events), DeleteEnum(old(Content()), id, detach))
    {
      if id !in enums { return Some(UnknownEnum); }
      err := CheckMembers(id, detach);
      if err.Some? { return; }
      enums := enums - {id};
      Emit(EnumDeleted(id));
    }

    method AddNode(enum: string, parent: Option<string>, id: string, name: string, icon: string, position: Option<int>)
      returns (err: Option<Refusal>)
      requires Shaped(Content())
      modifies this
      ensures Did(err, old(events), CreateNode(rules, old(Content()), enum, parent, id, name, icon, position))
    {
      hide Good, Resolve, Attach, Shaped, Split, HasPath;
      if enum !in enums { return Some(UnknownEnum); }
      var pids := ParentIds(Content(), enum, parent);
      if pids.Refused? { return Some(pids.error); }
      if !ValidId(id) { return Some(InvalidId); }
      var n := rules.cleanName(name);
      if n.None? { return Some(InvalidName); }
      if |pids.value| + 1 > MAX_DEPTH { return Some(InvalidBody); }
      ParentIdsResolve(Content(), enum, parent);
      var tree := enums[enum].tree;
      var list := ListAt(tree, pids.value);
      var i := 0;
      while i < |list|
        invariant i <= |list|
        invariant forall j :: 0 <= j < i ==> list[j].id != id
        invariant Content() == old(Content()) && events == old(events)
      {
        if list[i].id == id {
          FindIndexIs(list, id, i);
          return Some(Exists);
        }
        i := i + 1;
      }
      FindIndexNone(list, id);
      var node := Node(id, n.value, icon, []);
      enums := enums[enum := enums[enum].(tree := Attach(tree, pids.value, node, position))];
      Emit(NodeCreated(NodePath(enum, pids.value + [id]), LabelOf(node)));
      return None;
    }

    method RemoveNode(enum: string, rel: string, detach: bool) returns (err: Option<Refusal>)
      modifies this
      ensures Did(err, old(events), DeleteNode(old(Content()), enum, rel, detach))
    {
      var ids := RelIds(Content(), enum, rel);
      if ids.Refused? { return Some(ids.error); }
      var path := NodePath(enum, ids.value);
      err := CheckMembers(path, detach);
      if err.Some? { return; }
      var tree := enums[enum].tree;
      enums := enums[enum := enums[enum].(tree := Detach(tree, ids.value))];
      Emit(NodeDeleted(path));
    }

    method ChangeNode(enum: string, rel: string, p: NodePatch) returns (err: Option<Refusal>)
      requires Shaped(Content())
      modifies this
      ensures Did(err, old(events), PatchNode(rules, old(Content()), enum, rel, p))
    {
      hide Good, Resolve, Relabel, Detach, Attach, Shaped, HasPath, Split, PlanPatch, RewritePaths, ListAt, HasList,
          SubtreeDepth;
      var planned := PlanPatch(rules, Content(), enum, rel, p);
      if planned.Refused? { return Some(planned.error); }
      var plan := planned.value;
      var tree := enums[enum].tree;
      var siblings, i, ok := FindNode(tree, plan.q);
      var node := siblings[i];
      var updated := plan.tag != LabelOf(node);
      var moved := plan.target != plan.source;
      if moved && plan.source + "/" <= plan.target { return Some(InvalidBody); }
      if moved && |plan.pids| + SubtreeDepth(node) > MAX_DEPTH { return Some(InvalidBody); }
      PlanPlaceable(Content(), enum, plan);
      RelabelIndex(tree, plan.q, plan.tag);
      tree := Relabel(tree, plan.q, plan.tag);
      if moved || p.position.Some? {
        var rest := Detach(tree, plan.q);
        var list := ListAt(rest, plan.pids);
        var k := FindIndex(list, node.id);
        if k < |list| { return Some(Exists); }
        node := Resolve(tree, plan.q).value;
        tree := Attach(rest, plan.pids, node, if p.position.None? then Some(i) else p.position);
        if !moved && p.position.value != i { updated := true; }
      }
      enums := enums[enum := enums[enum].(tree := tree)];
      if moved {
        RewriteAll(plan.source, plan.target);
        Emit(NodeMoved(plan.source, plan.target));
      }
      if updated { Emit(NodeUpdated(plan.target, plan.tag)); }
      return None;
    }

    /** One operation of the transaction. */
    method Perform(op: Op) returns (err: Option<Refusal>)
      requires Shaped(Content())
      modifies this
      ensures Did(err, old(events), Apply(rules, old(Content()), op))
    {
      hide Shaped, CreateNode, PatchNode, DeleteNode, DeleteEnum, CreateEnum, PatchEnum, PatchObject;
      match op
      case PatchObjectOp(ref, p) => err := WriteObject(ref, p);
      case DeleteObjectOp(ref) => err := RemoveObject(ref);
      case SetOrphanedOp(ref, orphaned) => err := MarkOrphaned(ref, orphaned);
      case CreateEnumOp(id, name) => err := AddEnum(id, name);
      case PatchEnumOp(id, name) => err := RenameEnum(id, name);
      case DeleteEnumOp(id, detach) => err := RemoveEnum(id, detach);
      case CreateNodeOp(enum, parent, id, name, icon, position) => err :=
          AddNode(enum, parent, id, name, icon, position);
      case PatchNodeOp(enum, rel, p) => err := ChangeNode(enum, rel, p);
      case DeleteNodeOp(enum, rel, detach) => err := RemoveNode(enum, rel, detach);
    }

    method PerformAll(ops: seq<Op>) returns (err: Option<Refusal>)
      requires Shaped(Content()) && events == []
      modifies this
      ensures Did(err, old(events), RunOps(rules, old(Content()), ops))
    {
      hide Shaped, Apply;
      ghost var st := Content();
      assert ops[0..] == ops;
      assert RunOps(rules, st, ops).Done?
          ==> events + RunOps(rules, st, ops).value.changes == RunOps(rules, st, ops).value.changes;
      for i := 0 to |ops|
        invariant Shaped(Content())
        invariant match RunOps(rules, Content(), ops[i..])
                  case Refused(e) => RunOps(rules, st, ops) == Refused(e)
                  case Done(step) => RunOps(rules, st, ops) == Done(Step(step.st, events + step.changes))
      {
        ghost var here, sent := Content(), events;
        assert ops[i..][1..] == ops[i + 1..];
        err := Perform(ops[i]);
        if err.Some? { return; }
        ApplyKeepsShape(rules, here, ops[i]);
        RunOpsStep(rules, here, ops[i..], sent);
      }
      return None;
    }
  }

  lemma RunOpsStep(rules: Rules, st: State, ops: seq<Op>, sent: seq<Change>)
    requires Shaped(st) && ops != [] && Apply(rules, st, ops[0]).Done?
    ensures var first := Apply(rules, st, ops[0]).value;
      Shaped(first.st) &&
      match RunOps(rules, first.st, ops[1..])
      case Refused(e) => RunOps(rules, st, ops) == Refused(e)
      case Done(rest) =>
        && RunOps(rules, st, ops).Done? && RunOps(rules, st, ops).value.st == rest.st
        && sent + RunOps(rules, st, ops).value.changes == (sent + first.changes) + rest.changes
  {
    hide Apply, Shaped;
    ApplyKeepsShape(rules, st, ops[0]);
  }

  lemma CommitIs(st: State, st': State, changes: seq<Change>)
    ensures CommitChanges(st, Step(st', changes)) == changes + ObjectChanges(st.objects, st'.objects)
  {
  }

  // ----- change streams -----

  function Offer(queue: seq<Event>, e: Event, cap: nat): seq<Event> {
    if |queue| < cap then queue + [e] else queue
  }

  function OfferAll(queue: seq<Event>, events: seq<Event>, cap: nat): seq<Event> {
    if events == [] then queue
    else Offer(OfferAll(queue, events[..|events| - 1], cap), events[|events| - 1], cap)
  }

  lemma OfferNone()
    ensures forall queue: seq<Event>, cap: nat :: OfferAll(queue, [], cap) == queue
  {
  }

  /** A slow subscriber keeps the oldest events that fit and silently loses the rest. */
  lemma {:induction false} OfferAllKeepsOldest(queue: seq<Event>, events: seq<Event>, cap: nat)
    requires |queue| <= cap
    ensures OfferAll(queue, events, cap)
        == queue + events[..if |queue| + |events| <= cap then |events| else cap - |queue|]
  {
    if events != [] {
      var init := events[..|events| - 1];
      OfferAllKeepsOldest(queue, init, cap);
      if |queue| + |events| <= cap {
        assert init[..|init|] == init && events == init + [events[|events| - 1]];
      } else {
        assert init[..cap - |queue|] == events[..cap - |queue|];
      }
    }
  }

  class Sub {
    const cap: nat
    var queue: seq<Event>
    var killed: bool

    constructor (cap: nat)
      ensures this.cap == cap && queue == [] && !killed
    {
      this.cap := cap;
      queue, killed := [], false;
    }
  }

  class ChangeStore {
    const rules: Rules
    const logMax: nat
    const queueCap: nat
    var revision: int
    var st: State
    var log: seq<Event>
    var droppedThrough: int
    var subs: set<Sub>

    function Abs(): Store
      reads this
    {
      Store(revision, st, log, logMax, droppedThrough)
    }

    constructor (rules: Rules, revision: int, doc: State, logMax: nat, queueCap: nat)
      ensures Abs() == Open(revision, doc, logMax) && this.rules == rules && subs == {}
    {
      this.rules, this.logMax, this.queueCap := rules, logMax, queueCap;
      this.revision, st, log, droppedThrough, subs := revision, doc, [], revision, {};
    }

    /** Appends to the log, fans out without blocking, then trims the log. */
    method PublishLocked(events: seq<Event>)
      modifies this`log, this`droppedThrough, subs
      ensures Abs() == Publish(old(Abs()), events)
      ensures forall sub <- subs ::
          sub.queue == OfferAll(old(sub.queue), events, sub.cap) && sub.killed == old(sub.killed)
    {
      for i := 0 to |events|
        invariant log == old(log) + events[..i] && droppedThrough == old(droppedThrough)
        invariant forall sub <- subs ::
            sub.queue == OfferAll(old(sub.queue), events[..i], sub.cap) && sub.killed == old(sub.killed)
      {
        log := log + [events[i]];
        assert events[..i + 1][..i] == events[..i];
        var todo := subs;
        while todo != {}
          invariant todo <= subs
          invariant log == old(log) + events[..i + 1] && droppedThrough == old(droppedThrough)
          invariant forall sub <- todo :: sub.queue == OfferAll(old(sub.queue), events[..i], sub.cap)
          invariant forall sub <- subs - todo :: sub.queue == OfferAll(old(sub.queue), events[..i + 1], sub.cap)
          invariant forall sub <- subs :: sub.killed == old(sub.killed)
          decreases |todo|
        {
          var sub :| sub in todo;
          if |sub.queue| < sub.cap { sub.queue := sub.queue + [events[i]]; }
          todo := todo - {sub};
        }
      }
      assert events[..|events|] == events;
      if |log| > logMax {
        var over := |log| - logMax;
        var i := 0;
        while i < over
          invariant i <= over <= |log|
          invariant log == old(log) + events
          invariant DropThrough(droppedThrough, log[i..over]) == DropThrough(old(droppedThrough), log[..over])
          invariant forall sub <- subs ::
              sub.queue == OfferAll(old(sub.queue), events, sub.cap) && sub.killed == old(sub.killed)
        {
          assert log[i..over][1..] == log[i + 1..over];
          droppedThrough := Max(droppedThrough, log[i].revision);
          i := i + 1;
        }
        log := log[over..];
      }
    }

    method DoMutate(ifMatch: Option<int>, ops: seq<Op>) returns (rev: int, changed: bool, err: Option<Refusal>)
      requires Shaped(st)
      modifies this`revision, this`st, this`log, this`droppedThrough, subs
      ensures Shaped(st)
      ensures var m := Mutate(rules, old(Abs()), ifMatch, ops);
        && Abs() == m.store && changed == m.changed && err == m.error && rev == revision
        && forall sub <- subs ::
            sub.queue == OfferAll(old(sub.queue), m.events, sub.cap) && sub.killed == old(sub.killed)
    {
      hide Shaped, RunOps, CommitChanges, Publish, OfferAll, ObjectChanges, Stamp;
      OfferNone();
      if ifMatch.Some? && ifMatch.value != revision { return revision, false, Some(RevisionConflict); }
      var tx := new MetaTx(rules, st);
      err := tx.PerformAll(ops);
      if err.Some? { return revision, false, err; }
      if tx.Content() == st { return revision, false, None; }
      var events := Stamp(revision + 1, tx.events + ObjectChanges(st.objects, tx.objects));
      assert RunOps(rules, st, ops).value == Step(tx.Content(), tx.events);
      CommitIs(st, tx.Content(), tx.events);
      revision := revision + 1;
      st := tx.Content();
      PublishLocked(events);
      return revision, true, None;
    }

    method DoSeed(doc: State) returns (rev: int)
      modifies this`revision, this`st, this`log, this`droppedThrough, subs
      ensures Abs() == Seed(old(Abs()), doc) && rev == revision
      ensures forall sub <- subs ::
          sub.queue == OfferAll(old(sub.queue), [Event(rev, Import)], sub.cap) && sub.killed == old(sub.killed)
    {
      st := doc;
      revision := revision + 1;
      PublishLocked([Event(revision, Import)]);
      rev := revision;
    }

    /** The log is memory only, and every open stream ends. */
    method DoRestart()
      modifies this`log, this`droppedThrough, subs
      ensures Abs() == Restart(old(Abs()))
      ensures forall sub <- subs :: sub.killed && sub.queue == old(sub.queue)
    {
      log, droppedThrough := [], revision;
      var todo := subs;
      while todo != {}
        invariant todo <= subs && Abs() == Restart(old(Abs()))
        invariant forall sub <- subs - todo :: sub.killed
        invariant forall sub <- subs :: sub.queue == old(sub.queue)
        decreases |todo|
      {
        var sub :| sub in todo;
        sub.killed := true;
        todo := todo - {sub};
      }
    }

    /** Registers a stream and decides its opening in one step, so no event falls between
        the replay and the queue. */
    method DoAttach(hasSince: bool, since: Option<int>) returns (sub: Sub, opening: Opening)
      modifies this`subs
      ensures fresh(sub) && sub.cap == queueCap && sub.queue == [] && !sub.killed
      ensures subs == old(subs) + {sub} && opening == OpeningFor(Abs(), hasSince, since)
    {
      sub := new Sub(queueCap);
      subs := subs + {sub};
      if !hasSince { return sub, Live; }
      if since.None? || since.value < 0 || since.value > revision || since.value < droppedThrough {
        return sub, Resync(revision);
      }
      var replay: seq<Event> := [];
      for i := 0 to |log|
        invariant replay + Above(log[i..], since.value) == Above(log, since.value)
      {
        assert log[i..][1..] == log[i + 1..];
        if log[i].revision > since.value { replay := replay + [log[i]]; }
      }
      opening := Replay(replay);
    }

    method DoDetach(sub: Sub)
      modifies this`subs, sub`killed
      ensures subs == old(subs) - {sub} && sub.killed
    {
      subs := subs - {sub};
      sub.killed := true;
    }
  }
}
