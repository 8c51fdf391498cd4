/** The store as a whole: revision, content and retained log, over every history of
    mutations, seeds and restarts; and what a change stream that attaches is owed. */
module MetaRuns {
  import opened Collections
  import opened MetaTree
  import opened MetaOps
  import opened MetaReplica
  import opened MetaLog

  datatype Event = Event(revision: int, change: Change)

  datatype Store = Store(revision: int, st: State, log: seq<Event>, logMax: nat, droppedThrough: int)

  datatype Mutation = Mutation(store: Store, changed: bool, error: Option<Refusal>, events: seq<Event>)

  function Stamp(revision: int, changes: seq<Change>): (events: seq<Event>)
    ensures |events| == |changes|
    ensures forall i :: 0 <= i < |events| ==> events[i] == Event(revision, changes[i])
  {
    if changes == [] then [] else [Event(revision, changes[0])] + Stamp(revision, changes[1..])
  }

  function DropThrough(through: int, dropped: seq<Event>): int
    decreases |dropped|
  {
    if dropped == [] then through else DropThrough(Max(through, dropped[0].revision), dropped[1..])
  }

  /** Appends to the log and trims it to logMax, remembering the newest dropped revision. */
  function Publish(s: Store, events: seq<Event>): Store {
    var all := s.log + events;
    var over := |all| - s.logMax;
    if over > 0 then s.(log := all[over..], droppedThrough := DropThrough(s.droppedThrough, all[..over]))
    else s.(log := all)
  }

  function Mutate(rules: Rules, s: Store, ifMatch: Option<int>, ops: seq<Op>): Mutation
    requires Shaped(s.st)
  {
    if ifMatch.Some? && ifMatch.value != s.revision then Mutation(s, false, Some(RevisionConflict), [])
    else
      var r := RunOps(rules, s.st, ops);
      if r.Refused? then Mutation(s, false, Some(r.error), [])
      else if r.value.st == s.st then Mutation(s, false, None, [])
      else
        var events := Stamp(s.revision + 1, CommitChanges(s.st, r.value));
        Mutation(Publish(s.(revision := s.revision + 1, st := r.value.st), events), true, None, events)
  }

  /** Replaces the whole content and announces it with one import event. */
  function Seed(s: Store, doc: State): Store {
    Publish(s.(revision := s.revision + 1, st := doc), [Event(s.revision + 1, Import)])
  }

  function Restart(s: Store): Store {
    s.(log := [], droppedThrough := s.revision)
  }

  /** A store opened on a document: nothing before its revision is known. */
  function Open(revision: int, doc: State, logMax: nat): Store {
    Store(revision, doc, [], logMax, revision)
  }

  // ----- attaching a change stream -----

  datatype Opening = Live | Resync(revision: int) | Replay(events: seq<Event>)

  function Above(events: seq<Event>, since: int): seq<Event> {
    if events == [] then []
    else (if events[0].revision > since then [events[0]] else []) + Above(events[1..], since)
  }

  /** since is None when its text is not an integer. */
  function OpeningFor(s: Store, hasSince: bool, since: Option<int>): Opening {
    if !hasSince then Live
    else if since.None? || since.value < 0 || since.value > s.revision || since.value < s.droppedThrough
    then Resync(s.revision)
    else Replay(Above(s.log, since.value))
  }

  // ----- runs -----

  datatype Cmd = DoMutate(ifMatch: Option<int>, ops: seq<Op>) | DoSeed(doc: State) | DoRestart

  predicate GoodCmd(c: Cmd) {
    c.DoSeed? ==> Shaped(c.doc)
  }

  function Next(rules: Rules, s: Store, c: Cmd): (s': Store)
    requires Shaped(s.st) && GoodCmd(c)
    ensures Shaped(s'.st)
  {
    match c
    case DoMutate(ifMatch, ops) => Mutate(rules, s, ifMatch, ops).store
    case DoSeed(doc) => Seed(s, doc)
    case DoRestart => Restart(s)
  }

  function Sent(rules: Rules, s: Store, c: Cmd): seq<Event>
    requires Shaped(s.st) && GoodCmd(c)
  {
    match c
    case DoMutate(ifMatch, ops) => Mutate(rules, s, ifMatch, ops).events
    case DoSeed(doc) => [Event(s.revision + 1, Import)]
    case DoRestart => []
  }

  predicate GoodCmds(cmds: seq<Cmd>) {
    forall i :: 0 <= i < |cmds| ==> GoodCmd(cmds[i])
  }

  function Run(rules: Rules, s: Store, cmds: seq<Cmd>): (s': Store)
    requires Shaped(s.st) && GoodCmds(cmds)
    ensures Shaped(s'.st)
    decreases |cmds|
  {
    if cmds == [] then s else Run(rules, Next(rules, s, cmds[0]), cmds[1..])
  }

  /** Every event of a run, in emission order, whether or not the log still holds it. */
  function Emitted(rules: Rules, s: Store, cmds: seq<Cmd>): seq<Event>
    requires Shaped(s.st) && GoodCmds(cmds)
    decreases |cmds|
  {
    if cmds == [] then []
    else Sent(rules, s, cmds[0]) + Emitted(rules, Next(rules, s, cmds[0]), cmds[1..])
  }

  /** From well-formed documents on, every store a history reaches is well formed. */
  lemma {:induction false} RunWellFormed(rules: Rules, s: Store, cmds: seq<Cmd>)
    requires WellFormed(s.st) && forall i :: 0 <= i < |cmds| && cmds[i].DoSeed? ==> WellFormed(cmds[i].doc)
    ensures GoodCmds(cmds) && WellFormed(Run(rules, s, cmds).st)
    decreases |cmds|
  {
    if cmds != [] {
      var c := cmds[0];
      if c.DoMutate? && RunOps(rules, s.st, c.ops).Done? { RunOpsWellFormed(rules, s.st, c.ops); }
      hide WellFormed, RunOps, Publish, Stamp, CommitChanges;
      RunWellFormed(rules, Next(rules, s, c), cmds[1..]);
    }
  }

  // ----- one mutation -----

  /** A refused or unchanging mutation leaves everything as it was; a changing one raises the
      revision by one, emits at least one event, every event carries the new revision, and
      applying them to a copy of the old content gives a copy of the new. */
  lemma MutationContract(rules: Rules, s: Store, ifMatch: Option<int>, ops: seq<Op>)
    requires Shaped(s.st)
    ensures var m := Mutate(rules, s, ifMatch, ops);
      && Shaped(m.store.st)
      && (m.changed <==> m.store.st != s.st)
      && (!m.changed ==> m.store == s && m.events == [])
      && (m.changed ==> m.error.None? && m.store.revision == s.revision + 1 && m.events != [])
      && (forall i :: 0 <= i < |m.events| ==> m.events[i].revision == s.revision + 1)
      && ApplyAll(View(s.st), Changes(m.events)) == View(m.store.st)
      && (ifMatch.Some? && ifMatch.value != s.revision ==> m.error == Some(RevisionConflict))
  {
    hide RunOps, Shaped, ApplyAll, View, CommitChanges, Stamp, Changes;
    var m := Mutate(rules, s, ifMatch, ops);
    NothingReplayed(View(s.st));
    if m.changed {
      var step := RunOps(rules, s.st, ops).value;
      CommitReplays(rules, s.st, ops);
      if CommitChanges(s.st, step) == [] { ChangeIsAnnounced(rules, s.st, ops); }
      StampChanges(s.revision + 1, CommitChanges(s.st, step));
    }
  }

  lemma NothingReplayed(r: Replica)
    ensures Changes([]) == [] && ApplyAll(r, []) == r
  {
  }

  function Changes(events: seq<Event>): seq<Change> {
    if events == [] then [] else [events[0].change] + Changes(events[1..])
  }

  lemma {:induction false} StampChanges(revision: int, changes: seq<Change>)
    ensures Changes(Stamp(revision, changes)) == changes
  {
    if changes != [] { StampChanges(revision, changes[1..]); }
  }

  lemma {:induction false} ChangesConcat(a: seq<Event>, b: seq<Event>)
    ensures Changes(a + b) == Changes(a) + Changes(b)
  {
    if a == [] {
      assert a + b == b;
    } else {
      assert (a + b)[1..] == a[1..] + b;
      ChangesConcat(a[1..], b);
    }
  }

  lemma {:induction false} AboveConcat(a: seq<Event>, b: seq<Event>, since: int)
    ensures Above(a + b, since) == Above(a, since) + Above(b, since)
  {
    if a == [] {
      assert a + b == b;
    } else {
      assert (a + b)[1..] == a[1..] + b;
      AboveConcat(a[1..], b, since);
    }
  }

  lemma {:induction false} AboveNone(events: seq<Event>, since: int)
    requires forall i :: 0 <= i < |events| ==> events[i].revision <= since
    ensures Above(events, since) == []
  {
    if events != [] { AboveNone(events[1..], since); }
  }

  lemma {:induction false} AboveAll(events: seq<Event>, since: int)
    requires forall i :: 0 <= i < |events| ==> events[i].revision > since
    ensures Above(events, since) == events
  {
    if events != [] { AboveAll(events[1..], since); }
  }

  // ----- the log as a suffix of everything emitted -----

  /** `gone` is what the log no longer holds of everything emitted since the store was opened
      at `first`; droppedThrough is the newest revision in it. */
  ghost predicate LogInv(s: Store, first: int, gone: seq<Event>) {
    && first <= s.droppedThrough <= s.revision
    && (forall e :: e in gone + s.log ==> first < e.revision <= s.revision)
    && (forall e :: e in gone ==> e.revision <= s.droppedThrough)
    && (s.droppedThrough > first ==> exists e :: e in gone && e.revision == s.droppedThrough)
    && (s.revision > first ==> exists e :: e in gone + s.log && e.revision == s.revision)
  }

  lemma {:induction false} DropThroughIs(through: int, dropped: seq<Event>)
    ensures var d := DropThrough(through, dropped);
      && d >= through
      && (forall e :: e in dropped ==> e.revision <= d)
      && (d == through || exists e :: e in dropped && e.revision == d)
    decreases |dropped|
  {
    if dropped != [] {
      DropThroughIs(Max(through, dropped[0].revision), dropped[1..]);
      assert forall e :: e in dropped <==> e == dropped[0] || e in dropped[1..];
    }
  }

  lemma PublishKeeps(s: Store, first: int, gone: seq<Event>, events: seq<Event>) returns (gone': seq<Event>)
    requires LogInv(s.(revision := s.revision - 1), first, gone)
    requires events != [] && forall i :: 0 <= i < |events| ==> events[i].revision == s.revision
    ensures LogInv(Publish(s, events), first, gone')
    ensures gone' + Publish(s, events).log == gone + s.log + events
  {
    hide LogInv;
    var held := s.log + events;
    var over := Max(0, |held| - s.logMax);
    gone' := gone + held[..over];
    assert held == held[..over] + held[over..];
    assert Publish(s, events).log == held[over..];
    assert gone' + held[over..] == gone + s.log + events;
    DropThroughIs(s.droppedThrough, held[..over]);
    LogAdvances(s, first, gone, events, over, Publish(s, events));
  }

  lemma LogAdvances(s: Store, first: int, gone: seq<Event>, events: seq<Event>, over: nat, s': Store)
    requires LogInv(s.(revision := s.revision - 1), first, gone)
    requires events != [] && forall i :: 0 <= i < |events| ==> events[i].revision == s.revision
    requires over <= |s.log + events| && s'.log == (s.log + events)[over..] && s'.revision == s.revision
    requires var d := s'.droppedThrough; var dropped := (s.log + events)[..over];
      && d >= s.droppedThrough && (forall e :: e in dropped ==> e.revision <= d)
      && (d == s.droppedThrough || exists e :: e in dropped && e.revision == d)
    ensures LogInv(s', first, gone + (s.log + events)[..over])
  {
    var held := s.log + events;
    var gone' := gone + held[..over];
    assert gone' + held[over..] == (gone + s.log) + events by { assert held == held[..over] + held[over..]; }
    assert forall e :: e in gone' + s'.log <==> e in gone + s.log || e in events;
    assert events[0] in gone' + s'.log;
    assert forall e :: e in gone' <==> e in gone || e in held[..over];
    assert forall e :: e in held[..over] ==> e in gone + s.log || e in events;
  }

  lemma MutationPublishes(rules: Rules, s: Store, ifMatch: Option<int>, ops: seq<Op>)
    requires Shaped(s.st) && Mutate(rules, s, ifMatch, ops).changed
    ensures RunOps(rules, s.st, ops).Done?
    ensures var m := Mutate(rules, s, ifMatch, ops);
      m.store == Publish(s.(revision := s.revision + 1, st := RunOps(rules, s.st, ops).value.st), m.events)
  {
    hide Shaped, RunOps, CommitChanges, Publish, Stamp;
  }

  lemma NextKeeps(rules: Rules, s: Store, first: int, gone: seq<Event>, c: Cmd) returns (gone': seq<Event>)
    requires Shaped(s.st) && GoodCmd(c) && LogInv(s, first, gone)
    ensures LogInv(Next(rules, s, c), first, gone')
    ensures gone' + Next(rules, s, c).log == gone + s.log + Sent(rules, s, c)
  {
    hide Shaped, RunOps, CommitChanges, ApplyAll, Publish;
    if c.DoMutate? {
      MutationContract(rules, s, c.ifMatch, c.ops);
      var m := Mutate(rules, s, c.ifMatch, c.ops);
      if m.changed {
        MutationPublishes(rules, s, c.ifMatch, c.ops);
        hide Mutate;
        gone' := PublishKeeps(s.(revision := s.revision + 1, st := RunOps(rules, s.st, c.ops).value.st), first, gone,
            m.events);
      } else {
        gone' := gone;
        assert gone + s.log + m.events == gone + s.log;
      }
    } else if c.DoSeed? {
      gone' := PublishKeeps(s.(revision := s.revision + 1, st := c.doc), first, gone, Sent(rules, s, c));
    } else {
      gone' := gone + s.log;
      assert gone' + [] == gone + s.log + [];
    }
  }

  lemma {:induction false} RunKeeps(rules: Rules, s: Store, first: int, gone: seq<Event>,
                                    cmds: seq<Cmd>) returns (gone': seq<Event>)
    requires Shaped(s.st) && GoodCmds(cmds) && LogInv(s, first, gone)
    ensures LogInv(Run(rules, s, cmds), first, gone')
    ensures gone' + Run(rules, s, cmds).log == gone + s.log + Emitted(rules, s, cmds)
    decreases |cmds|
  {
    hide LogInv, Shaped, Next, Sent;
    if cmds == [] {
      gone' := gone;
    } else {
      var s' := Next(rules, s, cmds[0]);
      var g := NextKeeps(rules, s, first, gone, cmds[0]);
      gone' := RunKeeps(rules, s', first, g, cmds[1..]);
      assert gone + s.log + (Sent(rules, s, cmds[0]) + Emitted(rules, s', cmds[1..]))
          == gone + s.log + Sent(rules, s, cmds[0]) + Emitted(rules, s', cmds[1..]);
    }
  }

  lemma OpenRun(rules: Rules, first: int, doc: State, logMax: nat, cmds: seq<Cmd>) returns (gone: seq<Event>)
    requires Shaped(doc) && GoodCmds(cmds)
    ensures LogInv(Run(rules, Open(first, doc, logMax), cmds), first, gone)
    ensures Emitted(rules, Open(first, doc, logMax), cmds) == gone + Run(rules, Open(first, doc, logMax), cmds).log
  {
    var s0 := Open(first, doc, logMax);
    gone := RunKeeps(rules, s0, first, [], cmds);
    assert [] + s0.log + Emitted(rules, s0, cmds) == Emitted(rules, s0, cmds);
  }

  lemma AttachSplit(s: Store, first: int, gone: seq<Event>, since: int)
    requires LogInv(s, first, gone)
    ensures var opening := OpeningFor(s, true, Some(since));
      && (opening.Replay? ==> opening.events == Above(gone + s.log, since))
      && (opening.Resync? ==> opening.revision == s.revision)
      && (0 <= since && first <= since <= s.revision
          ==> (opening.Resync? <==> exists e :: e in gone && e.revision > since))
      && (since < 0 || since < first || since > s.revision ==> opening.Resync?)
  {
    if since >= s.droppedThrough {
      AboveNone(gone, since);
      AboveConcat(gone, s.log, since);
    }
  }

  /** Over every history: a stream that attaches with a revision the box has seen is either
      replayed exactly the emitted events above it, in order, or resynced; and it is resynced
      only when one of those events is no longer held. */
  lemma AttachExact(rules: Rules, first: int, doc: State, logMax: nat, cmds: seq<Cmd>, since: int)
    requires Shaped(doc) && GoodCmds(cmds)
    ensures var s0 := Open(first, doc, logMax);
      var s, all := Run(rules, s0, cmds), Emitted(rules, s0, cmds);
      var opening := OpeningFor(s, true, Some(since));
      && |s.log| <= |all| && s.log == all[|all| - |s.log|..]
      && (opening.Replay? ==> opening.events == Above(all, since))
      && (opening.Resync? ==> opening.revision == s.revision)
      && (0 <= since && first <= since <= s.revision ==>
            (opening.Resync? <==> exists e :: e in all[..|all| - |s.log|] && e.revision > since))
      && (since < 0 || since < first || since > s.revision ==> opening.Resync?)
  {
    var gone := OpenRun(rules, first, doc, logMax, cmds);
    var s0 := Open(first, doc, logMax);
    var s, all := Run(rules, s0, cmds), Emitted(rules, s0, cmds);
    hide *;
    AttachSplit(s, first, gone, since);
    assert all[..|all| - |s.log|] == gone && all[|all| - |s.log|..] == s.log;
  }

  // ----- a copy that catches up -----

  lemma {:induction false} RunConcat(rules: Rules, s: Store, a: seq<Cmd>, b: seq<Cmd>)
    requires Shaped(s.st) && GoodCmds(a) && GoodCmds(b)
    ensures GoodCmds(a + b)
    ensures Run(rules, s, a + b) == Run(rules, Run(rules, s, a), b)
    ensures Emitted(rules, s, a + b) == Emitted(rules, s, a) + Emitted(rules, Run(rules, s, a), b)
    decreases |a|
  {
    assert GoodCmds(a + b);
    hide Shaped, Next, Sent, GoodCmd;
    if a == [] {
      assert a + b == b;
    } else {
      assert (a + b)[0] == a[0] && (a + b)[1..] == a[1..] + b;
      var s', sent := Next(rules, s, a[0]), Sent(rules, s, a[0]);
      RunConcat(rules, s', a[1..], b);
      Regroup(sent, Emitted(rules, s', a[1..]), Emitted(rules, Run(rules, s', a[1..]), b));
    }
  }

  lemma Regroup(x: seq<Event>, y: seq<Event>, z: seq<Event>)
    ensures x + (y + z) == (x + y) + z
  {
  }

  lemma {:induction false} RevisionGrows(rules: Rules, s: Store, cmds: seq<Cmd>)
    requires Shaped(s.st) && GoodCmds(cmds)
    ensures s.revision <= Run(rules, s, cmds).revision
    ensures forall i :: 0 <= i < |Emitted(rules, s, cmds)| ==> Emitted(rules, s, cmds)[i].revision > s.revision
    decreases |cmds|
  {
    if cmds != [] {
      if cmds[0].DoMutate? { MutationContract(rules, s, cmds[0].ifMatch, cmds[0].ops); }
      RevisionGrows(rules, Next(rules, s, cmds[0]), cmds[1..]);
    }
  }

  predicate NoImport(cmds: seq<Cmd>) {
    forall i :: 0 <= i < |cmds| ==> !cmds[i].DoSeed?
  }

  lemma {:induction false} RunReplays(rules: Rules, s: Store, cmds: seq<Cmd>)
    requires Shaped(s.st) && GoodCmds(cmds) && NoImport(cmds)
    ensures ApplyAll(View(s.st), Changes(Emitted(rules, s, cmds))) == View(Run(rules, s, cmds).st)
    decreases |cmds|
  {
    if cmds != [] {
      var s', sent := Next(rules, s, cmds[0]), Sent(rules, s, cmds[0]);
      assert ApplyAll(View(s.st), Changes(sent)) == View(s'.st) by {
        if cmds[0].DoMutate? { MutationContract(rules, s, cmds[0].ifMatch, cmds[0].ops); }
      }
      RunReplays(rules, s', cmds[1..]);
      ChangesConcat(sent, Emitted(rules, s', cmds[1..]));
      ApplyAllConcat(View(s.st), Changes(sent), Changes(Emitted(rules, s', cmds[1..])));
    }
  }

  /** A client that held a copy at some revision and attaches later with that revision: unless
      it is resynced or the content was replaced meanwhile, its copy plus the replay is a copy
      of the current content. Trimming in the middle of a revision never breaks this. */
  lemma ReplicaCatchesUp(rules: Rules, first: int, doc: State, logMax: nat, before: seq<Cmd>, after: seq<Cmd>)
    requires Shaped(doc) && GoodCmds(before) && GoodCmds(after) && NoImport(after)
    ensures var s0 := Open(first, doc, logMax);
      var mid := Run(rules, s0, before);
      var now := Run(rules, mid, after);
      var opening := OpeningFor(now, true, Some(mid.revision));
      opening.Replay? ==> ApplyAll(View(mid.st), Changes(opening.events)) == View(now.st)
  {
    var s0 := Open(first, doc, logMax);
    var mid := Run(rules, s0, before);
    RunConcat(rules, s0, before, after);
    AttachExact(rules, first, doc, logMax, before + after, mid.revision);
    var gone := OpenRun(rules, first, doc, logMax, before);
    RevisionGrows(rules, mid, after);
    RunReplays(rules, mid, after);
    var early, late := Emitted(rules, s0, before), Emitted(rules, mid, after);
    hide *;
    EarlierSeen(mid, first, gone);
    AboveNone(early, mid.revision);
    AboveAll(late, mid.revision);
    AboveConcat(early, late, mid.revision);
    assert [] + late == late;
  }

  lemma EarlierSeen(s: Store, first: int, gone: seq<Event>)
    requires LogInv(s, first, gone)
    ensures forall i :: 0 <= i < |gone + s.log| ==> (gone + s.log)[i].revision <= s.revision
  {
    assert forall i :: 0 <= i < |gone + s.log| ==> (gone + s.log)[i] in gone + s.log;
  }
}
