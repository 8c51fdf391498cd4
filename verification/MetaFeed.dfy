/** One change stream over a history: what its queue takes while the store goes on and the client
    reads at its own pace, and what the client can tell from the revisions it sees. */
module MetaFeed {
  import opened Collections
  import opened MetaTree
  import opened MetaOps
  import opened MetaReplica
  import opened MetaLog
  import opened MetaRuns
  import opened MetaStore
  import MetaSafety

  /** Since the stream attached at revision `at`: `done` are the commands carried out, `pending` the
      events of the last one still to be handed out, `sent` those handed out so far, and `taken`
      what the client has read. */
  datatype Feed = Feed(store: Store, at: int, cap: nat, done: seq<Cmd>, pending: seq<Event>, sent: seq<Event>,
                       queue: seq<Event>, taken: seq<Event>)

  /** Hand offers one event of a batch to the queue; the client may read between two of them. */
  datatype Act = Do(cmd: Cmd) | Hand | Take

  /** No restart, which ends the stream. */
  predicate Goes(a: Act) { a.Do? ==> GoodCmd(a.cmd) && !a.cmd.DoRestart? }

  predicate AllGo(acts: seq<Act>) { forall i :: 0 <= i < |acts| ==> Goes(acts[i]) }

  function Attached(s: Store, cap: nat): Feed { Feed(s, s.revision, cap, [], [], [], [], []) }

  function StepFeed(rules: Rules, f: Feed, a: Act): (g: Feed)
    requires Shaped(f.store.st) && Goes(a)
    ensures Shaped(g.store.st)
  {
    match a
    case Do(cmd) =>
      // The store stays locked until the whole batch is handed out.
      if f.pending != [] then f
      else f.(store := Next(rules, f.store, cmd), done := f.done + [cmd], pending := Sent(rules, f.store, cmd))
    case Hand =>
      if f.pending == [] then f
      else f.(queue := Offer(f.queue, f.pending[0], f.cap), sent := f.sent + [f.pending[0]], pending := f.pending[1..])
    case Take => if f.queue == [] then f else f.(queue := f.queue[1..], taken := f.taken + [f.queue[0]])
  }

  function RunFeed(rules: Rules, f: Feed, acts: seq<Act>): (g: Feed)
    requires Shaped(f.store.st) && AllGo(acts)
    ensures Shaped(g.store.st)
  {
    if acts == [] then f else StepFeed(rules, RunFeed(rules, f, acts[..|acts| - 1]), acts[|acts| - 1])
  }

  /** Everything the client has or will have of what was handed out so far. */
  function Received(f: Feed): seq<Event> { f.taken + f.queue }

  /** An event handed out, and whether the queue had room for it at that step. */
  datatype Try = Try(e: Event, room: bool)

  function TryOf(f: Feed, a: Act): seq<Try> {
    if a.Hand? && f.pending != [] then [Try(f.pending[0], |f.queue| < f.cap)] else []
  }

  /** All events handed out in a run. */
  function Tries(rules: Rules, f: Feed, acts: seq<Act>): seq<Try>
    requires Shaped(f.store.st) && AllGo(acts)
  {
    if acts == [] then []
    else
      var front := acts[..|acts| - 1];
      Tries(rules, f, front) + TryOf(RunFeed(rules, f, front), acts[|acts| - 1])
  }

  ghost predicate NeverFull(ts: seq<Try>) { forall i :: 0 <= i < |ts| ==> ts[i].room }

  function Events(ts: seq<Try>): (es: seq<Event>)
    ensures |es| == |ts| && forall i :: 0 <= i < |ts| ==> es[i] == ts[i].e
  {
    if ts == [] then [] else [ts[0].e] + Events(ts[1..])
  }

  function Kept(ts: seq<Try>): (es: seq<Event>)
    ensures |es| <= |ts|
  {
    if ts == [] then [] else KeptOf(ts[0]) + Kept(ts[1..])
  }

  function KeptOf(t: Try): (es: seq<Event>)
    ensures |es| <= 1
  {
    if t.room then [t.e] else []
  }

  lemma {:induction false} KeptConcat(a: seq<Try>, b: seq<Try>)
    ensures Kept(a + b) == Kept(a) + Kept(b)
  {
    hide KeptOf;
    if a == [] {
      assert a + b == b;
      assert Kept(b) == [] + Kept(b);
    } else {
      KeptConcat(a[1..], b);
      KeptFirst(a, b);
      hide Kept;
      MetaRuns.Regroup(KeptOf(a[0]), Kept(a[1..]), Kept(b));
    }
  }

  lemma KeptFirst(a: seq<Try>, b: seq<Try>)
    requires a != []
    ensures Kept(a + b) == KeptOf(a[0]) + Kept(a[1..] + b) && Kept(a) == KeptOf(a[0]) + Kept(a[1..])
  {
    hide KeptOf;
    assert (a + b)[1..] == a[1..] + b;
  }

  lemma EventsConcat(a: seq<Try>, b: seq<Try>)
    ensures Events(a + b) == Events(a) + Events(b)
  {
  }

  /** What was received, and what was sent, read off the tries. */
  lemma {:induction false} RunTries(rules: Rules, s: Store, cap: nat, acts: seq<Act>)
    requires Shaped(s.st) && AllGo(acts)
    ensures var f, ts := RunFeed(rules, Attached(s, cap), acts), Tries(rules, Attached(s, cap), acts);
      f.sent == Events(ts) && Received(f) == Kept(ts) && f.at == s.revision && f.cap == cap && |f.queue| <= cap
  {
    if acts != [] {
      var front := acts[..|acts| - 1];
      var f, ts := RunFeed(rules, Attached(s, cap), front), Tries(rules, Attached(s, cap), front);
      RunTries(rules, s, cap, front);
      hide Shaped, Goes, Next, Sent;
      TryStep(rules, f, acts[|acts| - 1], ts);
    }
  }

  lemma TryStep(rules: Rules, f: Feed, a: Act, ts: seq<Try>)
    requires Shaped(f.store.st) && Goes(a) && |f.queue| <= f.cap
    requires f.sent == Events(ts) && Received(f) == Kept(ts)
    ensures var g, us := StepFeed(rules, f, a), ts + TryOf(f, a);
      g.sent == Events(us) && Received(g) == Kept(us) && g.at == f.at && g.cap == f.cap && |g.queue| <= g.cap
  {
    hide Shaped, Goes, Next, Sent, Events, Kept;
    if a.Hand? && f.pending != [] {
      HandTry(f, ts);
    } else {
      assert ts + [] == ts;
      TakeSame(f);
    }
  }

  lemma HandTry(f: Feed, ts: seq<Try>)
    requires f.pending != [] && f.sent == Events(ts) && Received(f) == Kept(ts)
    ensures var e, us := f.pending[0], ts + [Try(f.pending[0], |f.queue| < f.cap)];
      f.sent + [e] == Events(us) && f.taken + Offer(f.queue, e, f.cap) == Kept(us)
  {
    hide Events, Kept;
    var t := Try(f.pending[0], |f.queue| < f.cap);
    KeptConcat(ts, [t]);
    EventsConcat(ts, [t]);
    OneTry(t);
    if t.room {
      assert f.taken + (f.queue + [t.e]) == f.taken + f.queue + [t.e];
    } else {
      assert Kept(ts) + [] == Kept(ts);
    }
  }

  lemma TakeSame(f: Feed)
    ensures f.queue != [] ==> f.taken + [f.queue[0]] + f.queue[1..] == f.taken + f.queue
  {
  }

  lemma OneTry(t: Try)
    ensures Events([t]) == [t.e] && Kept([t]) == KeptOf(t)
  {
    assert [t][1..] == [];
  }

  /** However the client's reads, the store's commands and the handing out interleave: what the
      client has read, then what is queued, is everything handed out since the attach, if and only
      if the queue had room every time. */
  lemma NothingLost(rules: Rules, s: Store, cap: nat, acts: seq<Act>)
    requires Shaped(s.st) && AllGo(acts)
    ensures var f := RunFeed(rules, Attached(s, cap), acts);
      Received(f) == f.sent <==> NeverFull(Tries(rules, Attached(s, cap), acts))
  {
    hide Shaped, RunFeed, Tries, Goes;
    RunTries(rules, s, cap, acts);
    AllKept(Tries(rules, Attached(s, cap), acts));
  }

  lemma {:induction false} AllKept(ts: seq<Try>)
    ensures NeverFull(ts) ==> Kept(ts) == Events(ts)
    ensures !NeverFull(ts) ==> |Kept(ts)| < |ts|
  {
    if ts != [] {
      AllKept(ts[1..]);
      assert NeverFull(ts) <==> ts[0].room && NeverFull(ts[1..]) by { FullFrom(ts); }
    }
  }

  lemma FullFrom(ts: seq<Try>)
    requires ts != []
    ensures NeverFull(ts) <==> ts[0].room && NeverFull(ts[1..])
  {
    if ts[0].room && NeverFull(ts[1..]) {
      forall i | 0 <= i < |ts| ensures ts[i].room { if i > 0 { assert ts[1..][i - 1].room; } }
    }
    if NeverFull(ts) {
      forall i | 0 <= i < |ts| - 1 ensures ts[1..][i].room { assert ts[i + 1].room; }
    }
  }

  /** Without a read in between, handing out a batch is what a publish does to the queue. */
  lemma {:induction false} BatchAtOnce(rules: Rules, f: Feed, n: nat)
    requires Shaped(f.store.st) && n <= |f.pending|
    ensures var hands := seq(n, _ => Hand);
      AllGo(hands) && RunFeed(rules, f, hands).queue == OfferAll(f.queue, f.pending[..n], f.cap)
        && RunFeed(rules, f, hands).pending == f.pending[n..] && RunFeed(rules, f, hands).cap == f.cap
  {
    hide Shaped, Next, Sent;
    var hands := seq(n, _ => Hand);
    if n > 0 {
      var front := seq(n - 1, _ => Hand);
      assert hands[..n - 1] == front;
      BatchAtOnce(rules, f, n - 1);
      assert f.pending[..n][..n - 1] == f.pending[..n - 1];
    }
  }

  // ----- until the first overflow -----

  lemma {:induction false} FeedFollows(rules: Rules, s: Store, cap: nat, acts: seq<Act>)
    requires Shaped(s.st) && AllGo(acts)
    ensures var f := RunFeed(rules, Attached(s, cap), acts);
      && GoodCmds(f.done) && f.store == Run(rules, s, f.done) && f.sent + f.pending == Emitted(rules, s, f.done)
  {
    if acts != [] {
      var f := RunFeed(rules, Attached(s, cap), acts[..|acts| - 1]);
      FeedFollows(rules, s, cap, acts[..|acts| - 1]);
      hide RunFeed, Shaped;
      FollowStep(rules, s, f, acts[|acts| - 1]);
    }
  }

  lemma FollowStep(rules: Rules, s: Store, f: Feed, a: Act)
    requires Shaped(s.st) && Shaped(f.store.st) && Goes(a) && GoodCmds(f.done)
    requires f.store == Run(rules, s, f.done) && f.sent + f.pending == Emitted(rules, s, f.done)
    ensures var g := StepFeed(rules, f, a);
      && GoodCmds(g.done) && g.store == Run(rules, s, g.done) && g.sent + g.pending == Emitted(rules, s, g.done)
  {
    hide Shaped, Next, Sent, Run, Emitted, GoodCmd;
    if a.Do? && f.pending == [] {
      RunConcat(rules, s, f.done, [a.cmd]);
      OneCmd(rules, f.store, a.cmd);
      assert f.sent + [] == f.sent;
    } else if a.Hand? && f.pending != [] {
      assert f.sent + [f.pending[0]] + f.pending[1..] == f.sent + f.pending;
    }
  }

  lemma OneCmd(rules: Rules, s: Store, c: Cmd)
    requires Shaped(s.st) && GoodCmd(c)
    ensures Run(rules, s, [c]) == Next(rules, s, c) && Emitted(rules, s, [c]) == Sent(rules, s, c)
  {
    hide Shaped, Next, Sent;
    assert [c][1..] == [];
    assert Sent(rules, s, c) + [] == Sent(rules, s, c);
  }

  /** Over every history: a stream that attaches with a revision and is replayed to, and whose
      queue has had room ever since, has or will have everything above that revision, in order, up
      to what is still to be handed out. */
  lemma StreamIsComplete(rules: Rules, first: int, doc: State, logMax: nat, before: seq<Cmd>, since: int, cap: nat,
                         acts: seq<Act>)
    requires Shaped(doc) && GoodCmds(before) && AllGo(acts)
    requires OpeningFor(Run(rules, Open(first, doc, logMax), before), true, Some(since)).Replay?
    requires NeverFull(Tries(rules, Attached(Run(rules, Open(first, doc, logMax), before), cap), acts))
    ensures var s0 := Open(first, doc, logMax);
      var mid := Run(rules, s0, before);
      var f := RunFeed(rules, Attached(mid, cap), acts);
      && GoodCmds(before + f.done)
      && OpeningFor(mid, true, Some(since)).events + (Received(f) + f.pending)
           == Above(Emitted(rules, s0, before + f.done), since)
  {
    var s0 := Open(first, doc, logMax);
    var mid := Run(rules, s0, before);
    var f := RunFeed(rules, Attached(mid, cap), acts);
    FeedFollows(rules, mid, cap, acts);
    var late := Emitted(rules, mid, f.done);
    AttachExact(rules, first, doc, logMax, before, since);
    NothingLost(rules, mid, cap, acts);
    RunConcat(rules, s0, before, f.done);
    AboveConcat(Emitted(rules, s0, before), late, since);
    RevisionGrows(rules, mid, f.done);
    hide Emitted, Run, RunFeed, Received, Tries;
    AboveAll(late, since);
  }

  // ----- what every step keeps -----

  predicate Rising(events: seq<Event>, from: int, to: int) {
    && (forall i :: 0 <= i < |events| ==> from < events[i].revision <= to)
    && (forall i, j :: 0 <= i <= j < |events| ==> events[i].revision <= events[j].revision)
  }

  predicate HasRevision(events: seq<Event>, r: int) { exists e <- events :: e.revision == r }

  /** Every revision since the attach has emitted something. */
  ghost predicate Covers(events: seq<Event>, from: int, to: int) {
    forall r :: from < r <= to ==> HasRevision(events, r)
  }

  ghost predicate Inv(f: Feed) {
    && f.at <= f.store.revision && Rising(f.sent + f.pending, f.at, f.store.revision)
    && Covers(f.sent + f.pending, f.at, f.store.revision)
    && forall i :: 0 <= i < |f.pending| ==> f.pending[i].revision == f.store.revision
  }

  /** What one command emits: nothing and the revision stands, or something at the next revision. */
  lemma SentAtNext(rules: Rules, s: Store, c: Cmd)
    requires Shaped(s.st) && GoodCmd(c) && !c.DoRestart?
    ensures var events, s' := Sent(rules, s, c), Next(rules, s, c);
      if events == [] then s'.revision == s.revision
      else s'.revision == s.revision + 1 && forall i :: 0 <= i < |events| ==> events[i].revision == s'.revision
  {
    hide Shaped, RunOps, CommitChanges, ApplyAll, Stamp, View;
    if c.DoMutate? { MutationContract(rules, s, c.ifMatch, c.ops); }
  }

  lemma RisingMore(events: seq<Event>, more: seq<Event>, from: int, to: int)
    requires Rising(events, from, to) && forall i :: 0 <= i < |more| ==> more[i].revision == to + 1
    requires from <= to
    ensures Rising(events + more, from, to + 1)
  {
  }

  lemma CoversMore(events: seq<Event>, more: seq<Event>, from: int, to: int)
    requires Covers(events, from, to) && more != [] && more[0].revision == to + 1
    ensures Covers(events + more, from, to + 1)
  {
    forall r | from < r <= to + 1 ensures HasRevision(events + more, r) {
      if r <= to {
        assert HasRevision(events, r);
        var e :| e in events && e.revision == r;
        assert e in events + more;
      } else {
        assert more[0] in events + more;
      }
    }
  }

  lemma StepKeepsFeed(rules: Rules, f: Feed, a: Act)
    requires Inv(f) && Shaped(f.store.st) && Goes(a)
    ensures Inv(StepFeed(rules, f, a))
  {
    hide Shaped, Next, Sent, Rising, Covers;
    if a.Do? && f.pending == [] {
      var events := Sent(rules, f.store, a.cmd);
      SentAtNext(rules, f.store, a.cmd);
      assert f.sent + [] == f.sent;
      if events != [] {
        RisingMore(f.sent, events, f.at, f.store.revision);
        CoversMore(f.sent, events, f.at, f.store.revision);
      }
    } else if a.Hand? && f.pending != [] {
      assert f.sent + [f.pending[0]] + f.pending[1..] == f.sent + f.pending;
    }
  }

  lemma {:induction false} RunKeepsFeed(rules: Rules, s: Store, cap: nat, acts: seq<Act>)
    requires Shaped(s.st) && AllGo(acts)
    ensures Inv(RunFeed(rules, Attached(s, cap), acts))
  {
    if acts != [] {
      hide Inv, StepFeed, Shaped, Goes;
      var f := RunFeed(rules, Attached(s, cap), acts[..|acts| - 1]);
      RunKeepsFeed(rules, s, cap, acts[..|acts| - 1]);
      StepKeepsFeed(rules, f, acts[|acts| - 1]);
    }
  }

  // ----- what a loss looks like -----

  /** The next revision the client sees is not the one after the last it saw. */
  ghost predicate Shows(at: int, received: seq<Event>) {
    exists i :: 0 <= i < |received| && received[i].revision > Before(at, received, i) + 1
  }

  function Before(at: int, received: seq<Event>, i: nat): int
    requires i < |received|
  {
    if i == 0 then at else received[i - 1].revision
  }

  function Newest(at: int, received: seq<Event>): int {
    if received == [] then at else received[|received| - 1].revision
  }

  /** A revision before the newest one received of which nothing was received. */
  ghost predicate Skipped(at: int, received: seq<Event>, r: int) {
    at < r < Newest(at, received) && forall e :: e in received ==> e.revision != r
  }

  lemma {:induction false} ShowsMeans(at: int, received: seq<Event>, to: int)
    requires Rising(received, at, to)
    ensures Shows(at, received) <==> exists r :: Skipped(at, received, r)
  {
    if Shows(at, received) {
      var i :| 0 <= i < |received| && received[i].revision > Before(at, received, i) + 1;
      assert Skipped(at, received, Before(at, received, i) + 1);
    }
    if exists r :: Skipped(at, received, r) {
      var r :| Skipped(at, received, r);
      var i := FirstAbove(at, received, to, r, |received|);
      assert received[i].revision > Before(at, received, i) + 1;
    }
  }

  lemma {:induction false} FirstAbove(at: int, received: seq<Event>, to: int, r: int, n: nat) returns (i: nat)
    requires Rising(received, at, to) && at < r && 0 < n <= |received| && received[n - 1].revision > r
    ensures i < n && received[i].revision > r && (i == 0 || received[i - 1].revision <= r)
  {
    if n == 1 || received[n - 2].revision <= r { i := n - 1; } else { i := FirstAbove(at, received, to, r, n - 1); }
  }

  /** Of some revision every event met a full queue, and a later revision met one with room. */
  ghost predicate SkipsRevision(ts: seq<Try>) {
    exists i, j :: 0 <= i < j < |ts| && LostWith(ts, i) && ts[j].room && ts[i].e.revision < ts[j].e.revision
  }

  ghost predicate LostWith(ts: seq<Try>, i: nat)
    requires i < |ts|
  {
    forall k :: 0 <= k < |ts| && ts[k].e.revision == ts[i].e.revision ==> !ts[k].room
  }

  /** A client notices a loss by a gap in the revisions it sees exactly when the queue was full for
      every event of some revision and had room for a later one. Any other overflow, which loses
      only a part of its batch or is followed by nothing that fits, goes unnoticed. */
  lemma LossShows(rules: Rules, s: Store, cap: nat, acts: seq<Act>)
    requires Shaped(s.st) && AllGo(acts)
    ensures var f := RunFeed(rules, Attached(s, cap), acts);
      Shows(f.at, Received(f)) <==> SkipsRevision(Tries(rules, Attached(s, cap), acts))
  {
    hide Shaped, StepFeed, Goes, RunFeed, Tries, Rising, SkipsRevision, Shows;
    var f, ts := RunFeed(rules, Attached(s, cap), acts), Tries(rules, Attached(s, cap), acts);
    RunTries(rules, s, cap, acts);
    RunKeepsFeed(rules, s, cap, acts);
    RisingFront(f.sent, f.pending, f.at, f.store.revision);
    KeptRises(ts, f.at, f.store.revision);
    ShowsMeans(f.at, Kept(ts), f.store.revision);
    GapMeansFull(f, ts);
    FullMeansGap(f.at, ts, f.store.revision);
  }

  lemma RisingFront(a: seq<Event>, b: seq<Event>, from: int, to: int)
    requires Rising(a + b, from, to)
    ensures Rising(a, from, to)
  {
    assert forall i :: 0 <= i < |a| ==> a[i] == (a + b)[i];
  }

  lemma {:induction false} KeptIn(ts: seq<Try>, e: Event)
    ensures e in Kept(ts) <==> exists i :: 0 <= i < |ts| && ts[i].room && ts[i].e == e
  {
    if ts != [] {
      KeptIn(ts[1..], e);
      if i :| 0 <= i < |ts| && ts[i].room && ts[i].e == e {
        if i > 0 { assert ts[1..][i - 1] == ts[i]; }
      }
      if i :| 0 <= i < |ts| - 1 && ts[1..][i].room && ts[1..][i].e == e {
        assert ts[i + 1] == ts[1..][i];
      }
    }
  }

  lemma {:induction false} KeptRises(ts: seq<Try>, from: int, to: int)
    requires Rising(Events(ts), from, to)
    ensures Rising(Kept(ts), from, to)
  {
    if ts != [] {
      var rest := ts[1..];
      assert forall i :: 0 <= i < |rest| ==> Events(rest)[i] == Events(ts)[i + 1];
      KeptRises(rest, from, to);
      forall i | 0 <= i < |Kept(rest)| ensures ts[0].e.revision <= Kept(rest)[i].revision {
        KeptIn(rest, Kept(rest)[i]);
        var j :| 0 <= j < |rest| && rest[j].room && rest[j].e == Kept(rest)[i];
        assert Events(ts)[0].revision <= Events(ts)[j + 1].revision;
      }
    }
  }

  /** The newest received event is one of them. */
  lemma NewestIsKept(at: int, ts: seq<Try>) returns (j: nat)
    requires Kept(ts) != []
    ensures j < |ts| && ts[j].room && ts[j].e.revision == Newest(at, Kept(ts))
  {
    var last := Kept(ts)[|Kept(ts)| - 1];
    KeptIn(ts, last);
    j :| 0 <= j < |ts| && ts[j].room && ts[j].e == last;
  }

  lemma GapMeansFull(f: Feed, ts: seq<Try>)
    requires Inv(f) && f.sent == Events(ts)
    ensures (exists r :: Skipped(f.at, Kept(ts), r)) ==> SkipsRevision(ts)
  {
    hide Kept, Events;
    if r :| Skipped(f.at, Kept(ts), r) {
      var j := NewestIsKept(f.at, ts);
      assert f.sent[j].revision == (f.sent + f.pending)[j].revision <= f.store.revision;
      assert HasRevision(f.sent + f.pending, r);
      var i := SentIndex(f, r);
      forall k | 0 <= k < |ts| && ts[k].e.revision == ts[i].e.revision ensures !ts[k].room {
        KeptIn(ts, ts[k].e);
      }
      assert LostWith(ts, i);
      Before2(f, i, j);
    }
  }

  /** Revisions below the store's have been handed out completely. */
  lemma SentIndex(f: Feed, r: int) returns (i: nat)
    requires Inv(f) && HasRevision(f.sent + f.pending, r) && r < f.store.revision
    ensures i < |f.sent| && f.sent[i].revision == r
  {
    var e :| e in f.sent + f.pending && e.revision == r;
    assert e !in f.pending;
    i :| 0 <= i < |f.sent| && f.sent[i] == e;
  }

  lemma Before2(f: Feed, i: nat, j: nat)
    requires Inv(f) && i < |f.sent| && j < |f.sent| && f.sent[i].revision < f.sent[j].revision
    ensures i < j
  {
    assert (f.sent + f.pending)[i] == f.sent[i] && (f.sent + f.pending)[j] == f.sent[j];
  }

  lemma LostIsAbsent(ts: seq<Try>, i: nat)
    requires i < |ts| && LostWith(ts, i)
    ensures forall e :: e in Kept(ts) ==> e.revision != ts[i].e.revision
  {
    hide Kept;
    forall e | e in Kept(ts) ensures e.revision != ts[i].e.revision { KeptIn(ts, e); }
  }

  lemma AtMostNewest(at: int, received: seq<Event>, to: int, e: Event)
    requires Rising(received, at, to) && e in received
    ensures e.revision <= Newest(at, received)
  {
    var i :| 0 <= i < |received| && received[i] == e;
  }

  lemma FullMeansGap(at: int, ts: seq<Try>, to: int)
    requires Rising(Events(ts), at, to)
    ensures SkipsRevision(ts) ==> exists r :: Skipped(at, Kept(ts), r)
  {
    hide Kept, LostWith;
    if SkipsRevision(ts) {
      var i, j :| 0 <= i < j < |ts| && LostWith(ts, i) && ts[j].room && ts[i].e.revision < ts[j].e.revision;
      var r := ts[i].e.revision;
      KeptRises(ts, at, to);
      KeptIn(ts, ts[j].e);
      LostIsAbsent(ts, i);
      assert at < Events(ts)[i].revision;
      AtMostNewest(at, Kept(ts), to, ts[j].e);
      assert Skipped(at, Kept(ts), r);
    }
  }

  // ----- a loss nobody notices -----

  /** A store with two empty enums. */
  const TWO := State(map[], map["a" := Enum(map[], []), "b" := Enum(map[], [])])

  const DELETE_BOTH := DoMutate(None, [DeleteEnumOp("a", false), DeleteEnumOp("b", false)])

  lemma TwoIsShaped()
    ensures Shaped(TWO)
  {
  }

  lemma DeleteOne(st: State, id: string)
    requires st.objects == map[] && id in st.enums
    ensures DeleteEnum(st, id, false) == Done(Step(st.(enums := st.enums - {id}), [EnumDeleted(id)]))
  {
    assert ObjectsUnder(st.objects, id) == [];
  }

  /** Deleting both is one revision with two events. */
  lemma DeleteBoth(rules: Rules, s: Store)
    requires s.st == TWO
    ensures Shaped(s.st) && Sent(rules, s, DELETE_BOTH)
         == [Event(s.revision + 1, EnumDeleted("a")), Event(s.revision + 1, EnumDeleted("b"))]
    ensures Next(rules, s, DELETE_BOTH).revision == s.revision + 1
  {
    TwoIsShaped();
    var one := TWO.(enums := TWO.enums - {"a"});
    DeleteOne(TWO, "a");
    DeleteOne(one, "b");
    hide DeleteEnum, Shaped;
    var ops := DELETE_BOTH.ops;
    MetaSafety.ApplyKeepsShape(rules, TWO, ops[0]);
    MetaSafety.ApplyKeepsShape(rules, one, ops[1]);
    assert ops[1..] == [DeleteEnumOp("b", false)] && ops[1..][1..] == [];
    var both := RunOps(rules, TWO, ops);
    assert both.Done? && both.value.changes == [EnumDeleted("a"), EnumDeleted("b")] && both.value.st.objects == map[];
    assert CommitChanges(TWO, both.value) == both.value.changes;
  }

  /** A queue of one: the batch overflows after its first event, the client reads, and the next
      commit fits. The second event is lost, and the revisions seen have no gap. */
  lemma UnseenLoss(rules: Rules, revision: int, logMax: nat)
    ensures var acts := [Do(DELETE_BOTH), Hand, Hand, Take, Do(DoSeed(TWO)), Hand];
      && Shaped(TWO) && AllGo(acts)
      && var f := RunFeed(rules, Attached(Open(revision, TWO, logMax), 1), acts);
      Received(f) != f.sent && !Shows(f.at, Received(f))
  {
    TwoIsShaped();
    hide Shaped, Next, Sent, Offer;
    var s := Open(revision, TWO, logMax);
    var f := Attached(s, 1);
    DeleteBoth(rules, s);
    var batch := Sent(rules, s, DELETE_BOTH);
    var after := Next(rules, s, DELETE_BOTH);
    var import_ := Event(after.revision + 1, Import);
    SeedSends(rules, after);
    var a1 := [] + [Do(DELETE_BOTH)];
    var a2, a3 := a1 + [Hand], a1 + [Hand] + [Hand];
    var a4 := a3 + [Take];
    var a5 := a4 + [Do(DoSeed(TWO))];
    RunNext(rules, f, [], Do(DELETE_BOTH));
    RunNext(rules, f, a1, Hand);
    RunNext(rules, f, a2, Hand);
    RunNext(rules, f, a3, Take);
    RunNext(rules, f, a4, Do(DoSeed(TWO)));
    RunNext(rules, f, a5, Hand);
    assert a5 + [Hand] == [Do(DELETE_BOTH), Hand, Hand, Take, Do(DoSeed(TWO)), Hand];
    Offered(batch[0], batch[1], import_);
    var f1 := RunFeed(rules, f, a1);
    assert f1 == f.(store := after, done := [DELETE_BOTH], pending := batch);
    var f3 := RunFeed(rules, f, a3);
    assert f3.queue == [batch[0]] && f3.pending == [] && f3.sent == batch && f3.taken == [] && f3.store == after;
    var f5 := RunFeed(rules, f, a5);
    assert f5.queue == [] && f5.pending == [import_] && f5.sent == batch && f5.taken == [batch[0]];
    var end := RunFeed(rules, f, a5 + [Hand]);
    assert end.taken == [batch[0]] && end.queue == [import_] && end.sent == [batch[0], batch[1], import_];
    assert Received(end) == [batch[0], import_];
  }

  lemma SeedSends(rules: Rules, s: Store)
    requires Shaped(s.st)
    ensures Shaped(TWO) && Sent(rules, s, DoSeed(TWO)) == [Event(s.revision + 1, Import)]
  {
    TwoIsShaped();
  }

  lemma Offered(a: Event, b: Event, c: Event)
    ensures Offer([], a, 1) == [a] && Offer([a], b, 1) == [a] && Offer([], c, 1) == [c]
  {
  }

  lemma RunNext(rules: Rules, f: Feed, acts: seq<Act>, a: Act)
    requires Shaped(f.store.st) && AllGo(acts) && Goes(a)
    ensures AllGo(acts + [a]) && RunFeed(rules, f, acts + [a]) == StepFeed(rules, RunFeed(rules, f, acts), a)
  {
    hide Shaped, StepFeed, Goes;
    assert (acts + [a])[..|acts|] == acts;
  }
}
