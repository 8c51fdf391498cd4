/** The bounded message history with its boot id, the resume rule, and the open readers. */
module EventRing {
  import opened Collections
  import opened Decimal

  /** What a publisher supplies; the rendered data may refer to the assigned seq. */
  datatype Draft = Draft(typ: string, iface: string, address: string, key: string, build: nat -> string)

  datatype Message = Message(no: nat, typ: string, data: string, at: int, iface: string, address: string, key: string)

  datatype Core = Core(boot: string, last: nat, msgs: seq<Message>, maxEvents: nat, maxAge: nat)

  // ----- publishing and pruning -----

  /** How many leading messages age or number push out. */
  function DropCount(msgs: seq<Message>, over: nat, cutoff: int): (drop: nat)
    requires over <= |msgs|
    ensures over <= drop <= |msgs|
    decreases |msgs| - over
  {
    if over < |msgs| && msgs[over].at < cutoff then DropCount(msgs, over + 1, cutoff) else over
  }

  function Prune(c: Core, now: int): Core {
    var over := if |c.msgs| > c.maxEvents then |c.msgs| - c.maxEvents else 0;
    c.(msgs := c.msgs[DropCount(c.msgs, over, now - c.maxAge)..])
  }

  function Render(c: Core, now: int, d: Draft): Message {
    Message(c.last + 1, d.typ, d.build(c.last + 1), now, d.iface, d.address, d.key)
  }

  function Published(c: Core, now: int, d: Draft): Core {
    Prune(c.(last := c.last + 1, msgs := c.msgs + [Render(c, now, d)]), now)
  }

  function Restarted(c: Core, boot: string): Core {
    c.(boot := boot, last := 0, msgs := [])
  }

  // ----- positions -----

  const UINT64 := 0x1_0000_0000_0000_0000

  /** At least one digit, below 2^64. */
  function ParseUint(s: string): Option<nat> {
    var n := ParseDigits(s);
    if s == "" || n.None? || n.value >= UINT64 then None else n
  }

  function IdOf(boot: string, no: nat): string {
    boot + "-" + FormatUint(no)
  }

  /** Splits at the first dash. */
  function CutDash(s: string): Option<(string, string)> {
    if s == "" then None
    else if s[0] == '-' then Some(("", s[1..]))
    else
      var rest := CutDash(s[1..]);
      if rest.None? then None else Some(([s[0]] + rest.value.0, rest.value.1))
  }

  datatype Resync = NoResync | BootResync | GapResync

  datatype Resumption = Resumption(replay: seq<Message>, resync: Resync)

  function After(msgs: seq<Message>, since: nat): seq<Message> {
    if msgs == [] then []
    else (if msgs[0].no > since then [msgs[0]] else []) + After(msgs[1..], since)
  }

  function Position(c: Core, lastEventId: string): Option<nat> {
    var cut := CutDash(lastEventId);
    if cut.None? || cut.value.0 != c.boot then None else ParseUint(cut.value.1)
  }

  function Resume(c: Core, lastEventId: string): Resumption {
    var since := Position(c, lastEventId);
    if since.None? then Resumption([], BootResync)
    else if since.value >= c.last then Resumption([], NoResync)
    else if c.msgs == [] || c.msgs[0].no > since.value + 1 then Resumption([], GapResync)
    else Resumption(After(c.msgs, since.value), NoResync)
  }

  lemma {:induction false} CutOwn(boot: string, rest: string)
    requires '-' !in boot
    ensures CutDash(boot + "-" + rest) == Some((boot, rest))
  {
    var s := boot + "-" + rest;
    if boot == "" {
      assert s[1..] == rest;
    } else {
      assert s[1..] == boot[1..] + "-" + rest;
      assert s[0] == boot[0] && boot[0] in boot;
      CutOwn(boot[1..], rest);
      assert [boot[0]] + boot[1..] == boot;
    }
  }

  /** The id a frame carries, sent back at the same boot, is read as that frame's position. */
  lemma OwnPosition(c: Core, no: nat)
    requires '-' !in c.boot && no < UINT64
    ensures Position(c, IdOf(c.boot, no)) == Some(no)
  {
    CutOwn(c.boot, FormatUint(no));
    ParseFormat(no);
  }

  // ----- the ring against everything published since boot -----

  /** `all` holds every message of this boot; the ring holds a tail of it. */
  ghost predicate Tail(c: Core, all: seq<Message>) {
    && |all| == c.last
    && (forall i :: 0 <= i < |all| ==> all[i].no == i + 1)
    && |c.msgs| <= |all| && c.msgs == all[|all| - |c.msgs|..]
  }

  ghost predicate Ordered(msgs: seq<Message>, clock: int) {
    && (forall i, j :: 0 <= i < j < |msgs| ==> msgs[i].at <= msgs[j].at)
    && (forall i :: 0 <= i < |msgs| ==> msgs[i].at <= clock)
  }

  /** The held seqs are a contiguous run ending at the newest. */
  lemma Contiguous(c: Core, all: seq<Message>, i: nat)
    requires Tail(c, all) && i < |c.msgs|
    ensures c.msgs[i].no == c.last - |c.msgs| + 1 + i
  {
  }

  lemma {:induction false} DropCountIs(msgs: seq<Message>, over: nat, cutoff: int)
    requires over <= |msgs|
    ensures var drop := DropCount(msgs, over, cutoff);
      && (drop < |msgs| ==> msgs[drop].at >= cutoff)
      && (forall i :: over <= i < drop ==> msgs[i].at < cutoff)
    decreases |msgs| - over
  {
    if over < |msgs| && msgs[over].at < cutoff { DropCountIs(msgs, over + 1, cutoff); }
  }

  lemma TailDrop(c: Core, all: seq<Message>, drop: nat)
    requires Tail(c, all) && drop <= |c.msgs|
    ensures Tail(c.(msgs := c.msgs[drop..]), all)
  {
  }

  lemma OrderedDrop(msgs: seq<Message>, clock: int, drop: nat, cutoff: int)
    requires Ordered(msgs, clock) && drop <= |msgs| && (drop < |msgs| ==> msgs[drop].at >= cutoff)
    ensures Ordered(msgs[drop..], clock)
    ensures forall i :: 0 <= i < |msgs[drop..]| ==> msgs[drop..][i].at >= cutoff
  {
    forall i | 0 <= i < |msgs[drop..]| ensures msgs[drop..][i].at >= cutoff {
      assert msgs[drop..][i] == msgs[drop + i];
    }
  }

  lemma PruneKeeps(c: Core, all: seq<Message>, now: int)
    requires Tail(c, all)
    ensures var c' := Prune(c, now);
      && Tail(c', all) && |c'.msgs| <= c.maxEvents && c' == c.(msgs := c'.msgs)
      && (Ordered(c.msgs, now) ==>
            Ordered(c'.msgs, now) && forall i :: 0 <= i < |c'.msgs| ==> c'.msgs[i].at >= now - c.maxAge)
  {
    hide Tail, Ordered;
    var over := if |c.msgs| > c.maxEvents then |c.msgs| - c.maxEvents else 0;
    var drop := DropCount(c.msgs, over, now - c.maxAge);
    DropCountIs(c.msgs, over, now - c.maxAge);
    TailDrop(c, all, drop);
    if Ordered(c.msgs, now) { OrderedDrop(c.msgs, now, drop, now - c.maxAge); }
  }

  /** Pruning drops no more than the two bounds ask for: with an ordered history everything it
      drops is either older than the age bound or in excess of the number bound. */
  lemma PruneDropsOnlyDue(c: Core, now: int, i: nat)
    requires Ordered(c.msgs, now) && i < |c.msgs| - |Prune(c, now).msgs|
    ensures c.msgs[i].at < now - c.maxAge || |c.msgs| - i > c.maxEvents
  {
    var over := if |c.msgs| > c.maxEvents then |c.msgs| - c.maxEvents else 0;
    DropCountIs(c.msgs, over, now - c.maxAge);
  }

  lemma PublishKeeps(c: Core, all: seq<Message>, now: int, d: Draft)
    requires Tail(c, all)
    ensures Tail(Published(c, now, d), all + [Render(c, now, d)])
    ensures |Published(c, now, d).msgs| <= c.maxEvents
    ensures Ordered(c.msgs, now) ==> Ordered(Published(c, now, d).msgs, now)
  {
    hide Tail, Ordered, Prune;
    var m := Render(c, now, d);
    TailAppend(c, all, m);
    if Ordered(c.msgs, now) { OrderedAppend(c.msgs, now, m); }
    PruneKeeps(c.(last := c.last + 1, msgs := c.msgs + [m]), all + [m], now);
  }

  lemma TailAppend(c: Core, all: seq<Message>, m: Message)
    requires Tail(c, all) && m.no == c.last + 1
    ensures Tail(c.(last := c.last + 1, msgs := c.msgs + [m]), all + [m])
  {
  }

  lemma OrderedAppend(msgs: seq<Message>, clock: int, m: Message)
    requires Ordered(msgs, clock) && m.at == clock
    ensures Ordered(msgs + [m], clock)
  {
  }

  lemma {:induction false} AfterIsTail(msgs: seq<Message>, since: nat, first: nat)
    requires forall i :: 0 <= i < |msgs| ==> msgs[i].no == first + i
    requires first <= since + 1 <= first + |msgs|
    ensures After(msgs, since) == msgs[since + 1 - first..]
  {
    if msgs != [] {
      assert forall i :: 0 <= i < |msgs[1..]| ==> msgs[1..][i].no == first + 1 + i;
      if first <= since {
        AfterIsTail(msgs[1..], since, first + 1);
        assert msgs[1..][since - first..] == msgs[since + 1 - first..];
      } else {
        AfterAll(msgs[1..], since);
        assert [msgs[0]] + msgs[1..] == msgs;
      }
    }
  }

  lemma {:induction false} AfterAll(msgs: seq<Message>, since: nat)
    requires forall i :: 0 <= i < |msgs| ==> msgs[i].no > since
    ensures After(msgs, since) == msgs
  {
    if msgs != [] { AfterAll(msgs[1..], since); }
  }

  /** A resume at the current boot answers gap exactly when the next message is no longer
      held, and otherwise replays exactly the messages after the position. */
  lemma ResumeExact(c: Core, all: seq<Message>, lastEventId: string)
    requires Tail(c, all)
    ensures var r := Resume(c, lastEventId);
      match Position(c, lastEventId)
      case None => r == Resumption([], BootResync)
      case Some(since) =>
        && r.resync != BootResync
        && (r.resync == GapResync <==> since < c.last && since < c.last - |c.msgs|)
        && (r.resync == GapResync ==> r.replay == [])
        && (r.resync == NoResync ==> r.replay == if since < c.last then all[since..] else [])
  {
    var since := Position(c, lastEventId);
    if since.Some? && since.value < c.last && c.msgs != [] && c.msgs[0].no <= since.value + 1 {
      var first := c.last - |c.msgs| + 1;
      assert c.msgs[0].no == first;
      AfterIsTail(c.msgs, since.value, first);
      assert c.msgs[since.value + 1 - first..] == all[since.value..];
    }
  }

  /** A client that comes back with the id of the last frame it saw, at the same boot, is told
      of a gap or gets exactly the messages after that frame. */
  lemma ReconnectExact(c: Core, all: seq<Message>, seen: nat)
    requires Tail(c, all) && '-' !in c.boot && seen <= c.last && seen < UINT64
    ensures var r := Resume(c, IdOf(c.boot, seen));
      (r == Resumption([], GapResync) && seen < c.last - |c.msgs|) || r == Resumption(all[seen..], NoResync)
  {
    OwnPosition(c, seen);
    ResumeExact(c, all, IdOf(c.boot, seen));
    assert all[|all|..] == [];
  }

  // ----- the ring and its readers as objects -----

  class Reader {
    const subject: string
    const cap: nat
    var queue: seq<Message>
    var dropped: nat
    var killed: bool

    constructor (subject: string, cap: nat)
      ensures this.subject == subject && this.cap == cap && queue == [] && dropped == 0 && !killed
    {
      this.subject, this.cap := subject, cap;
      queue, dropped, killed := [], 0, false;
    }
  }

  function OfSubject(readers: set<Reader>, subject: string): set<Reader> {
    set rd <- readers | rd.subject == subject
  }

  lemma AfterStep(msgs: seq<Message>, i: nat, since: nat)
    requires i <= |msgs|
    ensures After(msgs[i..], since)
         == if i == |msgs| then [] else (if msgs[i].no > since then [msgs[i]] else []) + After(msgs[i + 1..], since)
  {
    if i < |msgs| { assert msgs[i..][1..] == msgs[i + 1..]; }
  }

  class Ring {
    const maxEvents: nat
    const maxAge: nat
    const queueSize: nat
    const perSubject: nat
    const total: nat
    var boot: string
    var last: nat
    var msgs: seq<Message>
    var readers: set<Reader>

    function Abs(): Core
      reads this
    {
      Core(boot, last, msgs, maxEvents, maxAge)
    }

    /** The stream limits hold. */
    ghost predicate Limited()
      reads this
    {
      |readers| <= total && forall subject :: |OfSubject(readers, subject)| <= perSubject
    }

    constructor (boot: string, maxEvents: nat, maxAge: nat, queueSize: nat, perSubject: nat, total: nat)
      ensures Abs() == Core(boot, 0, [], maxEvents, maxAge) && readers == {} && Limited()
    {
      this.maxEvents, this.maxAge, this.queueSize, this.perSubject, this.total :=
          maxEvents, maxAge, queueSize, perSubject, total;
      this.boot, last, msgs, readers := boot, 0, [], {};
      new;
      assert forall subject :: OfSubject(readers, subject) == {};
    }

    method PruneLocked(now: int)
      modifies `msgs
      ensures Abs() == Prune(old(Abs()), now)
    {
      var drop := 0;
      if |msgs| > maxEvents { drop := |msgs| - maxEvents; }
      ghost var over := drop;
      while drop < |msgs| && msgs[drop].at < now - maxAge
        invariant over <= drop <= |msgs|
        invariant DropCount(msgs, drop, now - maxAge) == DropCount(msgs, over, now - maxAge)
      {
        drop := drop + 1;
      }
      msgs := msgs[drop..];
    }

    /** Assigns the next seq, stores the message and offers it to every reader without
        waiting; a full queue counts the loss instead. */
    method Publish(now: int, d: Draft)
      modifies this`last, this`msgs, readers
      ensures Abs() == Published(old(Abs()), now, d)
      ensures forall rd <- readers ::
        if |old(rd.queue)| < rd.cap
        then rd.queue == old(rd.queue) + [Render(old(Abs()), now, d)] && rd.dropped == old(rd.dropped)
        else rd.queue == old(rd.queue) && rd.dropped == old(rd.dropped) + 1
      ensures forall rd <- readers :: rd.killed == old(rd.killed)
    {
      last := last + 1;
      var m := Message(last, d.typ, d.build(last), now, d.iface, d.address, d.key);
      msgs := msgs + [m];
      PruneLocked(now);
      OfferAll(m);
    }

    method OfferAll(m: Message)
      modifies readers
      ensures forall rd <- readers ::
        if |old(rd.queue)| < rd.cap
        then rd.queue == old(rd.queue) + [m] && rd.dropped == old(rd.dropped)
        else rd.queue == old(rd.queue) && rd.dropped == old(rd.dropped) + 1
      ensures forall rd <- readers :: rd.killed == old(rd.killed)
    {
      var todo := readers;
      while todo != {}
        invariant todo <= readers
        invariant forall rd <- todo :: rd.queue == old(rd.queue) && rd.dropped == old(rd.dropped)
        invariant forall rd <- readers - todo ::
          if |old(rd.queue)| < rd.cap
          then rd.queue == old(rd.queue) + [m] && rd.dropped == old(rd.dropped)
          else rd.queue == old(rd.queue) && rd.dropped == old(rd.dropped) + 1
        invariant forall rd <- readers :: rd.killed == old(rd.killed)
        decreases |todo|
      {
        var rd :| rd in todo;
        if |rd.queue| < rd.cap { rd.queue := rd.queue + [m]; } else { rd.dropped := rd.dropped + 1; }
        todo := todo - {rd};
      }
    }

    /** Registers a reader unless a limit is reached, and decides its opening in one step. */
    method Attach(subject: string, lastEventId: Option<string>, now: int)
      returns (rd: Option<Reader>, at: nat, opening: Resumption)
      requires Limited()
      modifies this`msgs, this`readers
      ensures Limited()
      ensures rd.None? <==> |old(readers)| >= total || |OfSubject(old(readers), subject)| >= perSubject
      ensures rd.None? ==> readers == old(readers) && Abs() == old(Abs())
      ensures rd.Some? ==>
        && fresh(rd.value) && rd.value.subject == subject && rd.value.cap == queueSize
        && rd.value.queue == [] && rd.value.dropped == 0 && !rd.value.killed
        && readers == old(readers) + {rd.value} && Abs() == Prune(old(Abs()), now) && at == last
        && opening == (if lastEventId.Some? then Resume(Abs(), lastEventId.value) else Resumption([], NoResync))
    {
      at, opening := last, Resumption([], NoResync);
      if |readers| >= total { return None, at, opening; }
      if |OfSubject(readers, subject)| >= perSubject { return None, at, opening; }
      var r := new Reader(subject, queueSize);
      CountsAfterAttach(readers, r);
      readers := readers + {r};
      PruneLocked(now);
      if lastEventId.Some? { opening := ResumeLocked(lastEventId.value); }
      rd := Some(r);
    }

    method ResumeLocked(lastEventId: string) returns (r: Resumption)
      ensures r == Resume(Abs(), lastEventId)
    {
      var cut := CutDash(lastEventId);
      if cut.None? || cut.value.0 != boot { return Resumption([], BootResync); }
      var since := ParseUint(cut.value.1);
      if since.None? { return Resumption([], BootResync); }
      if since.value >= last { return Resumption([], NoResync); }
      if |msgs| == 0 || msgs[0].no > since.value + 1 { return Resumption([], GapResync); }
      var replay := HeldAfter(since.value);
      return Resumption(replay, NoResync);
    }

    method HeldAfter(since: nat) returns (replay: seq<Message>)
      ensures replay == After(msgs, since)
    {
      hide After;
      replay := [];
      assert msgs[0..] == msgs;
      for i := 0 to |msgs|
        invariant replay + After(msgs[i..], since) == After(msgs, since)
      {
        AfterStep(msgs, i, since);
        if msgs[i].no > since { replay := replay + [msgs[i]]; }
      }
      AfterStep(msgs, |msgs|, since);
    }

    method Detach(rd: Reader)
      requires Limited()
      modifies this`readers, rd`killed
      ensures readers == old(readers) - {rd} && rd.killed && Limited()
    {
      forall subject ensures |OfSubject(readers - {rd}, subject)| <= perSubject {
        SubsetSize(OfSubject(readers - {rd}, subject), OfSubject(readers, subject));
      }
      SubsetSize(readers - {rd}, readers);
      readers := readers - {rd};
      rd.killed := true;
    }

    method StopAll()
      modifies readers`killed
      ensures forall rd <- readers :: rd.killed
    {
      var todo := readers;
      while todo != {}
        invariant todo <= readers && forall rd <- readers - todo :: rd.killed
        decreases |todo|
      {
        var rd :| rd in todo;
        rd.killed := true;
        todo := todo - {rd};
      }
    }

    method ForceOverflow()
      modifies readers`dropped
      ensures forall rd <- readers :: rd.dropped == old(rd.dropped) + 1
    {
      var todo := readers;
      while todo != {}
        invariant todo <= readers
        invariant forall rd <- todo :: rd.dropped == old(rd.dropped)
        invariant forall rd <- readers - todo :: rd.dropped == old(rd.dropped) + 1
        decreases |todo|
      {
        var rd :| rd in todo;
        rd.dropped := rd.dropped + 1;
        todo := todo - {rd};
      }
    }

    method ForceGap()
      modifies `msgs
      ensures Abs() == old(Abs()).(msgs := [])
    {
      msgs := [];
    }

    /** newBoot is the freshly drawn id. */
    method Restart(newBoot: string)
      modifies this`boot, this`last, this`msgs, readers`killed
      ensures Abs() == Restarted(old(Abs()), newBoot)
      ensures forall rd <- readers :: rd.killed
    {
      boot, last, msgs := newBoot, 0, [];
      StopAll();
    }
  }

  lemma CountsAfterAttach(readers: set<Reader>, r: Reader)
    requires r !in readers
    ensures |readers + {r}| == |readers| + 1
    ensures forall subject :: |OfSubject(readers + {r}, subject)| <= |OfSubject(readers, subject)| + 1
    ensures forall subject :: subject != r.subject ==> OfSubject(readers + {r}, subject) == OfSubject(readers, subject)
  {
    forall subject ensures OfSubject(readers + {r}, subject)
      == if subject == r.subject then OfSubject(readers, subject) + {r} else OfSubject(readers, subject) {}
  }
}
