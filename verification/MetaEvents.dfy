/** What a transaction comes to, told from its operations one by one, and the events a commit
    announces. */
module MetaEvents {
  import opened Collections
  import opened MetaTree
  import opened MetaOps
  import opened MetaSafety
  import opened MetaReplica
  import opened MetaLog
  import opened MetaRuns
  import Names

  // ----- object events -----

  /** In ascending order of characters, a prefix first. */
  ghost predicate Precedes(a: string, b: string) {
    exists k :: ForkAt(a, b, k)
  }

  predicate ForkAt(a: string, b: string, k: nat) {
    && k <= |a| && k < |b| && a[..k] == b[..k]
    && (k < |a| ==> a[k] < b[k])
  }

  lemma {:induction false} PrecedesIs(a: string, b: string)
    requires Names.Leq(a, b) && a != b
    ensures Precedes(a, b)
  {
    if a == "" || a[0] != b[0] {
      assert ForkAt(a, b, 0);
    } else {
      assert a == [a[0]] + a[1..] && b == [b[0]] + b[1..];
      PrecedesIs(a[1..], b[1..]);
      var k: nat :| ForkAt(a[1..], b[1..], k);
      assert a[..k + 1] == [a[0]] + a[1..][..k] && b[..k + 1] == [b[0]] + b[1..][..k];
      assert ForkAt(a, b, k + 1);
    }
  }

  /** The event of one object: gone, or new or changed with its new content. */
  predicate Announces(c: Change, ref: string, before: map<string, Object>, after: map<string, Object>) {
    if ref in after then c == ObjectUpdated(ref, after[ref]) && (ref in before ==> before[ref] != after[ref])
    else ref in before && c == ObjectDeleted(ref)
  }

  predicate Differs(ref: string, before: map<string, Object>, after: map<string, Object>) {
    (ref in before <==> ref !in after) || (ref in before && ref in after && before[ref] != after[ref])
  }

  /** The references of the objects that differ, in ascending order, each with its event. */
  ghost predicate ObjectNews(cs: seq<Change>, refs: seq<string>, before: map<string, Object>,
                             after: map<string, Object>)
  {
    && |cs| == |refs|
    && (forall i :: 0 <= i < |cs| ==> Announces(cs[i], refs[i], before, after))
    && (forall i, j :: 0 <= i < j < |refs| ==> Precedes(refs[i], refs[j]))
    && (forall ref :: Differs(ref, before, after) <==> ref in refs)
  }

  lemma ObjectEventsAre(before: map<string, Object>, after: map<string, Object>) returns (refs: seq<string>)
    ensures ObjectNews(ObjectChanges(before, after), refs, before, after)
  {
    var names := Names.Sorted(before.Keys + after.Keys);
    refs := ChangesOver(names, before, after);
    hide ObjectChangesOver, Precedes, Announces, Names.Sorted;
    forall ref ensures Differs(ref, before, after) <==> ref in refs {
      KnownIfDiffers(ref, before, after);
      hide Differs;
    }
  }

  lemma KnownIfDiffers(ref: string, before: map<string, Object>, after: map<string, Object>)
    ensures Differs(ref, before, after) ==> ref in before.Keys + after.Keys
  {
  }

  lemma {:induction false} ChangesOver(names: seq<string>, before: map<string, Object>, after: map<string, Object>)
    returns (refs: seq<string>)
    requires forall i, j :: 0 <= i < j < |names| ==> names[i] != names[j] && Names.Leq(names[i], names[j])
    requires forall x :: x in names ==> x in before || x in after
    ensures var cs := ObjectChangesOver(names, before, after);
      && |cs| == |refs| && (forall i :: 0 <= i < |cs| ==> Announces(cs[i], refs[i], before, after))
    ensures forall i, j :: 0 <= i < j < |refs| ==> Precedes(refs[i], refs[j])
    ensures forall ref :: ref in refs <==> ref in names && Differs(ref, before, after)
  {
    refs := [];
    if names != [] {
      var ref, rest := names[0], names[1..];
      var later := ChangesOver(rest, before, after);
      hide Precedes;
      var first := ObjectChange(ref, before, after);
      assert |first| == (if Differs(ref, before, after) then 1 else 0);
      refs := if Differs(ref, before, after) then [ref] + later else later;
      forall x | x in later ensures Precedes(ref, x) {
        assert x in rest;
        PrecedesIs(ref, x);
      }
    }
  }

  // ----- transactions -----

  function Flat(news: seq<seq<Change>>): seq<Change> {
    if news == [] then [] else news[0] + Flat(news[1..])
  }

  /** Operation after operation, each on what the one before left. */
  ghost predicate Performs(rules: Rules, ops: seq<Op>, states: seq<State>, news: seq<seq<Change>>) {
    && |states| == |ops| + 1 && |news| == |ops|
    && (forall i :: 0 <= i < |states| ==> Shaped(states[i]))
    && forall i :: 0 <= i < |ops| ==> Performed(rules, ops[i], states[i], states[i + 1], news[i])
  }

  predicate Performed(rules: Rules, op: Op, st: State, next: State, news: seq<Change>) {
    Shaped(st) && Apply(rules, st, op) == Done(Step(next, news))
  }

  /** All operations of a transaction are performed in order, or it ends with the first refusal. */
  lemma {:induction false} RunOpsIs(rules: Rules, st: State, ops: seq<Op>)
    returns (states: seq<State>, news: seq<seq<Change>>)
    requires Shaped(st)
    ensures states != [] && states[0] == st && |states| <= |ops| + 1
    ensures Performs(rules, ops[..|states| - 1], states, news)
    ensures var last, n := states[|states| - 1], |states| - 1;
      if n < |ops| then
        && Apply(rules, last, ops[n]).Refused?
        && RunOps(rules, st, ops) == Refused(Apply(rules, last, ops[n]).error)
      else RunOps(rules, st, ops) == Done(Step(last, Flat(news)))
    decreases |ops|
  {
    hide Apply, Shaped;
    states, news := [st], [];
    if ops != [] && Apply(rules, st, ops[0]).Done? {
      var step := Apply(rules, st, ops[0]).value;
      ApplyKeepsShape(rules, st, ops[0]);
      var more, later := RunOpsIs(rules, step.st, ops[1..]);
      states, news := [st] + more, [step.changes] + later;
      FirstOf(rules, ops, st, step, more, later);
    }
  }

  lemma FirstOf(rules: Rules, ops: seq<Op>, st: State, step: Step, more: seq<State>, later: seq<seq<Change>>)
    requires ops != [] && more != [] && more[0] == step.st && |more| <= |ops|
    requires Performed(rules, ops[0], st, step.st, step.changes)
    requires Performs(rules, ops[1..][..|more| - 1], more, later)
    ensures Performs(rules, ops[..|more|], [st] + more, [step.changes] + later)
    ensures Flat([step.changes] + later) == step.changes + Flat(later)
    ensures |more| < |ops| ==> ops[1..][|more| - 1] == ops[|more|]
  {
    hide Performed, Shaped;
    var part, states, news := ops[..|more|], [st] + more, [step.changes] + later;
    assert Shaped(st) by { PerformedShape(rules, ops[0], st, step.st, step.changes); }
    forall i | 0 <= i < |part| ensures Performed(rules, part[i], states[i], states[i + 1], news[i]) {
      if i > 0 { assert part[i] == ops[1..][..|more| - 1][i - 1]; }
    }
    assert news[1..] == later;
  }

  lemma PerformedShape(rules: Rules, op: Op, st: State, next: State, news: seq<Change>)
    requires Performed(rules, op, st, next, news)
    ensures Shaped(st)
  {
  }

  /** A mutation asked for at another revision, or with an operation that is refused, fails with that
      and changes nothing. Otherwise the content is what the operations leave; when that differs from
      before, it is announced at the next revision: what each operation tells, in order, and then the
      objects that differ, in order of their references. */
  lemma MutateIs(rules: Rules, s: Store, ifMatch: Option<int>, ops: seq<Op>)
    returns (states: seq<State>, news: seq<seq<Change>>, refs: seq<string>)
    requires Shaped(s.st)
    ensures states != [] && states[0] == s.st && |states| <= |ops| + 1
    ensures Performs(rules, ops[..|states| - 1], states, news)
    ensures var m, last, n := Mutate(rules, s, ifMatch, ops), states[|states| - 1], |states| - 1;
      if ifMatch.Some? && ifMatch.value != s.revision then m == Mutation(s, false, Some(RevisionConflict), [])
      else if n < |ops| then
        Apply(rules, last, ops[n]).Refused? && m == Mutation(s, false, Some(Apply(rules, last, ops[n]).error), [])
      else if last == s.st then m == Mutation(s, false, None, [])
      else
        && m.changed && m.error == None && m.store.st == last && m.store.revision == s.revision + 1
        && ToldAt(m.events, s.revision + 1, Flat(news), refs, s.st.objects, last.objects)
  {
    states, news := RunOpsIs(rules, s.st, ops);
    refs := [];
    hide Apply, Shaped, RunOps, ObjectNews, ObjectChanges, Performs, Flat;
    var last := states[|states| - 1];
    if |states| == |ops| + 1 && last != s.st {
      refs := ObjectEventsAre(s.st.objects, last.objects);
      var events := Stamp(s.revision + 1, CommitChanges(s.st, Step(last, Flat(news))));
      ToldIs(events, s.revision + 1, Flat(news), refs, s.st.objects, last.objects);
    }
  }

  /** All at one revision: first these, then the news of the objects. */
  ghost predicate ToldAt(events: seq<Event>, revision: int, first: seq<Change>, refs: seq<string>,
                         before: map<string, Object>, after: map<string, Object>)
  {
    && (forall i :: 0 <= i < |events| ==> events[i].revision == revision)
    && |first| <= |events| && (forall i :: 0 <= i < |first| ==> events[i].change == first[i])
    && ObjectNews(seq(|events| - |first|, i requires 0 <= i < |events| - |first| => events[|first| + i].change),
         refs, before, after)
  }

  lemma ToldIs(events: seq<Event>, revision: int, first: seq<Change>, refs: seq<string>,
               before: map<string, Object>, after: map<string, Object>)
    requires events == Stamp(revision, first + ObjectChanges(before, after))
    requires ObjectNews(ObjectChanges(before, after), refs, before, after)
    ensures ToldAt(events, revision, first, refs, before, after)
  {
    hide ObjectNews, ObjectChanges;
    var cs := ObjectChanges(before, after);
    assert seq(|events| - |first|, i requires 0 <= i < |events| - |first| => events[|first| + i].change) == cs;
  }
}
