/** What every pairing call answers and leaves behind, told from the requests themselves and from
    what happened before. */
module PairingAnswers {
  import opened Collections
  import opened Pairing
  import TN = TokenName

  // ----- the requests at a time -----

  /** Kept for its lifetime and then a while longer. */
  predicate Known(env: Env, b: Box, now: int, id: string) {
    id in b.requests && now <= b.requests[id].terms.created + env.lifetime + env.keep
  }

  /** Pending and still in time. */
  predicate Awaits(env: Env, r: Request, now: int) {
    r.standing == Pending && now <= r.terms.created + env.lifetime
  }

  /** As it was, or expired when its time ran out while it was pending. */
  predicate Turned(env: Env, r: Request, now: int, s: Request) {
    if r.standing == Pending && now > r.terms.created + env.lifetime then s == r.(standing := Expired) else s == r
  }

  /** Every other request: forgotten, expired or as it was. */
  ghost predicate OthersTurn(env: Env, b: Box, now: int, c: Box, id: string) {
    forall other :: other != id ==>
      && (other in c.requests <==> Known(env, b, now, other))
      && (other in c.requests ==> Turned(env, b.requests[other], now, c.requests[other]))
  }

  predicate WellNamed(app: string) {
    && 1 <= |app| <= 48 && app[0] !in "._-"
    && forall i :: 0 <= i < |app| ==>
        'A' <= app[i] <= 'Z' || 'a' <= app[i] <= 'z' || '0' <= app[i] <= '9' || app[i] in "._-"
  }

  // ----- asking -----

  /** One request of this app from this address awaits approval. */
  ghost predicate AlreadyAsked(env: Env, b: Box, now: int, address: string, app: string) {
    exists id :: id in b.requests && Awaits(env, b.requests[id], now)
      && b.requests[id].terms.address == address && b.requests[id].terms.app == app
  }

  ghost predicate FiveAwait(env: Env, b: Box, now: int) {
    |set id | id in b.requests && Awaits(env, b.requests[id], now)| >= 5
  }

  /** The app was rejected at the address less than ten minutes ago. */
  ghost predicate RejectedLately(env: Env, events: seq<Event>, now: int, address: string, app: string) {
    exists n :: 0 < n <= |events| && Rejects(env, events, n, address, app) && now < events[n - 1].now + 600_000
  }

  /** The tenth last request accepted from the address is less than an hour old. */
  ghost predicate TenLately(env: Env, events: seq<Event>, now: int, address: string) {
    var times := AcceptedAt(env, events, address);
    |times| >= 10 && now - times[|times| - 10] < 3_600_000
  }

  ghost predicate Limited(env: Env, events: seq<Event>, now: int, op: Op)
    requires op.Ask?
  {
    || AlreadyAsked(env, Run(env, events), now, op.address, op.app)
    || FiveAwait(env, Run(env, events), now)
    || RejectedLately(env, events, now, op.address, op.app)
    || TenLately(env, events, now, op.address)
  }

  ghost predicate NoneNewer(events: seq<Event>, now: int) {
    Clocked(events) && (events != [] ==> events[|events| - 1].now <= now)
  }

  /** A request is accepted exactly when it is well-formed, pairing is on and no limit is met; then
      it awaits approval under what was asked for. */
  lemma AskedIs(env: Env, events: seq<Event>, now: int, op: Op)
    requires op.Ask? && NoneNewer(events, now)
    ensures var b := Run(env, events);
      var (a, c) := Step(env, b, now, op);
      && a == (if !op.valid || !WellNamed(op.app) then Invalid
               else if b.disabled then Off
               else if Limited(env, events, now, op) then Limit
               else Accepted)
      && (a == Accepted ==>
          && OthersTurn(env, b, now, c, op.id)
          && op.id in c.requests
          && c.requests[op.id].terms
              == Terms(op.poll, op.nonce, op.commit, op.app, op.base, op.scopes, op.address, now)
          && c.requests[op.id].standing == Pending && c.requests[op.id].revealed == None
          && c.requests[op.id].lastPoll == None && !c.requests[op.id].handedOut)
  {
    assert Step(env, Run(env, events), now, op) == AskStep(env, Run(env, events), now, op);
    hide Step, Run, Key, KeyOf, Recent, Rejects, AcceptedAt, AppName, WellNamed, NoneNewer;
    NamedIs(op.app);
    AskedTurns(env, Run(env, events), now, op);
    hide AskStep, ExpiredAsked;
    if op.valid && AppName(op.app) {
      AskedOnce(env, events, now, op);
      AwaitingCount(env, Run(env, events), now);
      LatelyMuted(env, events, now, op);
      LatelyTen(env, events, now, op.address);
      hide Expire, OthersTurn, NewRequest, AlreadyAsked, FiveAwait, RejectedLately, TenLately;
    }
  }

  lemma AskedTurns(env: Env, b: Box, now: int, op: Op)
    requires op.Ask?
    ensures var (a, c) := AskStep(env, b, now, op);
      var key := KeyOf(op.address, op.app);
      a == (if !op.valid || !AppName(op.app) then Invalid
            else if b.disabled then Off
            else if ExpiredAsked(Expire(env, b, now), op.address, op.app)
              || |PendingIds(Expire(env, b, now))| >= MAX_PENDING || (key in b.muted && now < b.muted[key])
              || |Recent(History(b, op.address), now)| >= PER_HOUR then Limit
            else Accepted)
    ensures var (a, c) := AskStep(env, b, now, op);
      a == Accepted ==>
        && OthersTurn(env, b, now, c, op.id)
        && op.id in c.requests
        && c.requests[op.id].terms
            == Terms(op.poll, op.nonce, op.commit, op.app, op.base, op.scopes, op.address, now)
        && c.requests[op.id].standing == Pending && c.requests[op.id].revealed == None
        && c.requests[op.id].lastPoll == None && !c.requests[op.id].handedOut
  {
    ExpireTurns(env, b, now);
    hide Recent, AppName, Expire, KeyOf, Key, OthersTurn, Known, Turned;
    var (a, c) := AskStep(env, b, now, op);
    if a == Accepted { OthersOnly(env, b, now, Expire(env, b, now), c, op.id); }
  }

  lemma NamedIs(app: string)
    ensures AppName(app) <==> WellNamed(app)
  {
  }

  lemma {:induction false} RunNamed(env: Env, events: seq<Event>)
    ensures forall id :: id in Run(env, events).requests ==> AppName(Run(env, events).requests[id].terms.app)
  {
    if events != [] {
      hide AppName, Moves, Step;
      var last, b := events[|events| - 1], Run(env, events[..|events| - 1]);
      RunNamed(env, events[..|events| - 1]);
      StepMoves(env, b, last.now, last.op);
      NewIsNamed(env, b, last.now, last.op);
      var (a, c) := Step(env, b, last.now, last.op);
      forall id | id in c.requests ensures AppName(c.requests[id].terms.app) {
        if !(last.op.Ask? && a == Accepted && id == last.op.id) {
          assert last.op.Ask? && a == Accepted ==> id in c.requests - {last.op.id};
          MovedTerms(env, b.requests[id], c.requests[id], last.op);
        }
      }
    }
  }

  lemma NewIsNamed(env: Env, b: Box, now: int, op: Op)
    ensures op.Ask? && Step(env, b, now, op).0 == Accepted ==>
      AppName(op.app) && NewRequest(op, now).terms.app == op.app
  {
    hide Recent, Expire, Key, KeyOf, AppName;
  }

  lemma MovedTerms(env: Env, r: Request, s: Request, op: Op)
    requires Moves(env, r, s, op)
    ensures s.terms == r.terms
  {
  }

  /** After expiring, what is pending is what awaits approval. */
  lemma PendingAwaits(env: Env, b: Box, now: int)
    ensures var e := Expire(env, b, now);
      && (forall id :: IsPending(e, id) <==> id in b.requests && Awaits(env, b.requests[id], now))
      && (forall id :: id in e.requests ==> e.requests[id].terms == b.requests[id].terms)
  {
  }

  ghost predicate ExpiredAsked(e: Box, address: string, app: string) {
    exists id :: IsPending(e, id) && Key(e.requests[id]) == KeyOf(address, app)
  }

  lemma AskedOnce(env: Env, events: seq<Event>, now: int, op: Op)
    requires op.Ask? && AppName(op.app)
    ensures var b := Run(env, events);
      AlreadyAsked(env, b, now, op.address, op.app) <==> ExpiredAsked(Expire(env, b, now), op.address, op.app)
  {
    var b := Run(env, events);
    RunNamed(env, events);
    PendingAwaits(env, b, now);
    hide Run, Expire, AppName, KeyOf, Awaits;
    var e := Expire(env, b, now);
    forall id | IsPending(e, id)
      ensures Key(e.requests[id]) == KeyOf(op.address, op.app)
          <==> b.requests[id].terms.address == op.address && b.requests[id].terms.app == op.app
    {
      KeyInjective(b.requests[id].terms.address, b.requests[id].terms.app, op.address, op.app);
    }
  }

  lemma AwaitingCount(env: Env, b: Box, now: int)
    ensures FiveAwait(env, b, now) <==> |PendingIds(Expire(env, b, now))| >= MAX_PENDING
  {
    PendingAwaits(env, b, now);
    hide Expire, Awaits;
    assert PendingIds(Expire(env, b, now)) == set id | id in b.requests && Awaits(env, b.requests[id], now);
  }

  lemma LatelyTen(env: Env, events: seq<Event>, now: int, address: string)
    requires NoneNewer(events, now)
    ensures TenLately(env, events, now, address)
        <==> |Recent(History(Run(env, events), address), now)| >= PER_HOUR
  {
    RunPaced(env, events, address);
    var times, history := AcceptedAt(env, events, address), History(Run(env, events), address);
    hide Run, AcceptedAt, History, Recent;
    SuffixAscending(times, |times| - |history|);
    var d := RecentIsSuffix(history, now);
    if |times| >= 10 {
      if |history| >= 10 { assert times[|times| - 10] == history[|history| - 10]; }
    }
  }

  // ----- muting -----

  ghost predicate RejectsKey(env: Env, events: seq<Event>, n: nat, key: string)
    requires 0 < n <= |events|
  {
    var op, a, b := events[n - 1].op, Last(env, events[..n]), Run(env, events[..n - 1]);
    && ((op.Reject? && a == Done) || (op.Approve? && a == WrongCode))
    && op.id in b.requests && Key(b.requests[op.id]) == key
  }

  ghost predicate MutedBy(env: Env, events: seq<Event>, key: string, until: int) {
    exists n :: 0 < n <= |events| && RejectsKey(env, events, n, key) && until == events[n - 1].now + 600_000
  }

  lemma RejectsIs(env: Env, events: seq<Event>, n: nat, address: string, app: string)
    requires 0 < n <= |events|
    ensures Rejects(env, events, n, address, app) <==> RejectsKey(env, events, n, KeyOf(address, app))
  {
  }

  lemma MuteChange(env: Env, b: Box, now: int, op: Op)
    ensures var (a, c) := Step(env, b, now, op);
      c.muted == b.muted || (((op.Reject? && a == Done) || (op.Approve? && a == WrongCode))
        && op.id in b.requests && c.muted == b.muted[Key(b.requests[op.id]) := now + 600_000])
  {
    hide AskStep, PollStep, WakeStep, ApproveStep, Key;
    if op.Ask? { AskLeavesMutes(env, b, now, op); }
    if op.Poll? { PollLeavesMutes(env, b, now, op); }
    if op.Wake? { WakeLeavesMutes(env, b, now, op.id, op.secret); }
    if op.Approve? { ApproveChange(env, b, now, op); }
  }

  lemma ApproveChange(env: Env, b: Box, now: int, op: Op)
    requires op.Approve?
    ensures var (a, c) := ApproveStep(env, b, now, op);
      c.muted == b.muted || (a == WrongCode
        && op.id in b.requests && c.muted == b.muted[Key(b.requests[op.id]) := now + 600_000])
  {
    ApproveKey(env, b, now, op);
    hide Key, TN.FreeName, TN.Slug, TN.TakenNames;
  }

  lemma ApproveKey(env: Env, b: Box, now: int, op: Op)
    requires op.Approve?
    ensures forall id :: id in Expire(env, b, now).requests ==>
      id in b.requests && Key(Expire(env, b, now).requests[id]) == Key(b.requests[id])
  {
  }

  /** An app is muted by a rejection, and for ten minutes from it. */
  lemma {:induction false} MutedOrigin(env: Env, events: seq<Event>, key: string)
    requires key in Run(env, events).muted
    ensures MutedBy(env, events, key, Run(env, events).muted[key])
  {
    var front, last := events[..|events| - 1], events[|events| - 1];
    var b := Run(env, front);
    MuteChange(env, b, last.now, last.op);
    var c := Run(env, events);
    assert c == Step(env, b, last.now, last.op).1;
    hide Step, Key, RejectsKey, Run;
    if c.muted == b.muted || (key in b.muted && c.muted[key] == b.muted[key]) {
      MutedOrigin(env, front, key);
      var n :| 0 < n <= |front| && RejectsKey(env, front, n, key) && b.muted[key] == front[n - 1].now + 600_000;
      RejectedLonger(env, events, n, key);
    } else {
      LastRejects(env, events, key);
    }
  }

  lemma RejectedLonger(env: Env, events: seq<Event>, n: nat, key: string)
    requires 0 < n < |events| && RejectsKey(env, events[..|events| - 1], n, key)
    ensures RejectsKey(env, events, n, key)
  {
    var front := events[..|events| - 1];
    assert front[..n] == events[..n] && front[..n - 1] == events[..n - 1];
  }

  lemma LastRejects(env: Env, events: seq<Event>, key: string)
    requires events != []
    requires var last, b := events[|events| - 1], Run(env, events[..|events| - 1]);
      && var a := Step(env, b, last.now, last.op).0;
      && ((last.op.Reject? && a == Done) || (last.op.Approve? && a == WrongCode))
      && last.op.id in b.requests && Key(b.requests[last.op.id]) == key
    ensures RejectsKey(env, events, |events|, key)
  {
    hide Step;
    assert events[..|events|] == events;
  }

  lemma LatelyMuted(env: Env, events: seq<Event>, now: int, op: Op)
    requires op.Ask? && NoneNewer(events, now)
    ensures var b, key := Run(env, events), KeyOf(op.address, op.app);
      RejectedLately(env, events, now, op.address, op.app) <==> key in b.muted && now < b.muted[key]
  {
    var b, key := Run(env, events), KeyOf(op.address, op.app);
    hide Step, Run, Rejects, RejectsKey, Key, KeyOf;
    if key in b.muted && now < b.muted[key] {
      MutedOrigin(env, events, key);
      var n :| 0 < n <= |events| && RejectsKey(env, events, n, key) && b.muted[key] == events[n - 1].now + 600_000;
      RejectsIs(env, events, n, op.address, op.app);
    }
    if RejectedLately(env, events, now, op.address, op.app) {
      var n :| 0 < n <= |events| && Rejects(env, events, n, op.address, op.app) && now < events[n - 1].now + 600_000;
      StillMuted(env, events, n, op.address, op.app);
    }
  }

  lemma StillMuted(env: Env, events: seq<Event>, n: nat, address: string, app: string)
    requires Clocked(events) && 0 < n <= |events| && Rejects(env, events, n, address, app)
    ensures var b, key := Run(env, events), KeyOf(address, app);
      key in b.muted && events[n - 1].now + 600_000 <= b.muted[key]
  {
    hide Step;
    var front := events[..n];
    assert front[..|front| - 1] == events[..n - 1];
    RejectMutes(env, Run(env, events[..n - 1]), events[n - 1].now, events[n - 1].op);
    MuteStays(env, events, n, KeyOf(address, app));
  }

  // ----- polling -----

  /** A nonce that opens the commitment comes with the poll, or one came before. */
  predicate NonceShown(env: Env, r: Request, offered: Reveal) {
    match offered
    case Nonce(bs) => |bs| >= 16 && env.hash(bs) == r.terms.commit
    case NoNonce => r.revealed.Some?
    case BadHex => false
  }

  /** How a poll that is let through is answered: with the token the one time it is handed out, as
      unknown after that, else with the standing; and what the request is then. */
  predicate Told(r: Request, a: Answer, s: Request) {
    if r.standing != Approved then a == StandingIs(r.standing) && s == r
    else if r.handedOut then a == Unknown && s == r
    else a == TokenIs(r.token, r.tokenName, r.terms.scopes) && s == r.(handedOut := true)
  }

  /** A poll of a request, as it has turned by now: refused for its secret, its nonce, its wait or
      its haste, left waiting, or answered. */
  predicate Polls(env: Env, r: Request, now: int, op: Op, a: Answer, s: Request)
    requires op.Poll?
  {
    if op.secret != r.terms.poll then a == Forbidden && s == r
    else if !NonceShown(env, r, op.offered) then a == Invalid && s == r
    else
      Heard(env, if op.offered.Nonce? then r.(revealed := Some(op.offered.bs)) else r, now, op.wait, a, s)
  }

  predicate Heard(env: Env, r: Request, now: int, wait: Wait, a: Answer, s: Request) {
    if wait.BadWait? then a == Invalid && s == r
    else if wait.millis == 0 && r.lastPoll.Some? && now < r.lastPoll.value + env.interval then a == SlowDown && s == r
    else if wait.millis > 0 && r.standing == Pending then a == Parked && s == r.(lastPoll := Some(now))
    else Told(r.(lastPoll := Some(now)), a, s)
  }

  /** Only the request and the waiting polls change. */
  predicate Touches(b: Box, c: Box, a: Answer, id: string, secret: string) {
    && id in c.requests && c.requests == b.requests[id := c.requests[id]]
    && c.parked == b.parked + (if a == Parked then multiset{Waiter(id, secret)} else multiset{})
    && (c.disabled, c.history, c.muted, c.tokens) == (b.disabled, b.history, b.muted, b.tokens)
  }

  lemma ToldIs(b: Box, id: string)
    requires id in b.requests
    ensures var (a, c) := AnswerStep(b, id);
      && id in c.requests && c == b.(requests := b.requests[id := c.requests[id]])
      && a != Parked && Told(b.requests[id], a, c.requests[id])
  {
    assert b.requests[id := b.requests[id]] == b.requests;
  }

  lemma HeardIs(env: Env, b: Box, now: int, id: string, secret: string, wait: Wait)
    requires id in b.requests
    ensures var (a, c) := WaitStep(env, b, now, id, secret, wait);
      Touches(b, c, a, id, secret) && Heard(env, b.requests[id], now, wait, a, c.requests[id])
  {
    var r := b.requests[id];
    var s := r.(lastPoll := Some(now));
    var polled := Put(b, id, s);
    Unchanged(b, id);
    ToldIs(polled, id);
    assert b.parked + multiset{} == b.parked;
    assert polled.requests[id] == s;
    hide AnswerStep, Told;
  }

  lemma PollsIs(env: Env, b: Box, now: int, op: Op)
    requires op.Poll? && op.id in Expire(env, b, now).requests
    ensures var e := Expire(env, b, now);
      var (a, c) := PollStep(env, b, now, op);
      Touches(e, c, a, op.id, op.secret) && Polls(env, e.requests[op.id], now, op, a, c.requests[op.id])
  {
    var e := Expire(env, b, now);
    var r := e.requests[op.id];
    Unchanged(e, op.id);
    ShownIs(env, r, op.offered);
    var shown := if op.offered.Nonce? then r.(revealed := Some(op.offered.bs)) else r;
    var (a, c) := PollStep(env, b, now, op);
    hide Expire, WaitStep, Opens, NonceShown;
    if op.secret == r.terms.poll && NonceShown(env, r, op.offered) {
      assert (a, c) == WaitStep(env, Put(e, op.id, shown), now, op.id, op.secret, op.wait);
      hide PollStep, Heard;
      HeardIs(env, Put(e, op.id, shown), now, op.id, op.secret, op.wait);
      Repeated(e, Put(e, op.id, shown), c, a, op.id, op.secret);
    } else {
      hide Heard;
      assert (a, c) == (if op.secret != r.terms.poll then Forbidden else Invalid, e);
      hide PollStep;
    }
  }

  lemma Repeated(b: Box, e: Box, c: Box, a: Answer, id: string, secret: string)
    requires id in b.requests && id in e.requests && e == Put(b, id, e.requests[id]) && Touches(e, c, a, id, secret)
    ensures Touches(b, c, a, id, secret)
  {
  }

  lemma ShownIs(env: Env, r: Request, offered: Reveal)
    ensures NonceShown(env, r, offered)
        <==> !(offered == BadHex || (offered.Nonce? && !Opens(env, r.terms, offered.bs))
               || (offered == NoNonce && r.revealed.None?))
  {
  }

  /** A poll is answered so, and leaves everything else to the clock. */
  lemma PolledIs(env: Env, b: Box, now: int, op: Op)
    requires op.Poll?
    ensures var (a, c) := Step(env, b, now, op);
      && OthersTurn(env, b, now, c, op.id)
      && (!Known(env, b, now, op.id) ==> a == Unknown && op.id !in c.requests)
      && (Known(env, b, now, op.id) ==>
          op.id in c.requests
            && exists r :: Turned(env, b.requests[op.id], now, r) && Polls(env, r, now, op, a, c.requests[op.id]))
      && c.parked == b.parked + (if a == Parked then multiset{Waiter(op.id, op.secret)} else multiset{})
      && (c.disabled, c.history, c.muted, c.tokens) == (b.disabled, b.history, b.muted, b.tokens)
  {
    var e := Expire(env, b, now);
    ExpireTurns(env, b, now);
    if op.id in e.requests { PollsIs(env, b, now, op); }
    hide Expire, Turned, Known, WaitStep, Polls;
    if op.id in e.requests {
      assert Turned(env, b.requests[op.id], now, e.requests[op.id]);
    }
  }

  lemma ExpireTurns(env: Env, b: Box, now: int)
    ensures var e := Expire(env, b, now);
      && e == b.(requests := e.requests)
      && forall id ::
        && (id in e.requests <==> Known(env, b, now, id))
        && (id in e.requests ==> id in b.requests && Turned(env, b.requests[id], now, e.requests[id]))
  {
  }

  /** A poll that waited is answered once it wakes. */
  lemma WokenIs(env: Env, b: Box, now: int, id: string, secret: string)
    requires Waiter(id, secret) in b.parked
    ensures var (a, c) := Step(env, b, now, Wake(id, secret));
      && OthersTurn(env, b, now, c, id)
      && (!Known(env, b, now, id) ==> a == Unknown && id !in c.requests)
      && (Known(env, b, now, id) ==>
          id in c.requests && exists r :: Turned(env, b.requests[id], now, r) && Told(r, a, c.requests[id]))
      && c.parked == b.parked - multiset{Waiter(id, secret)}
      && (c.disabled, c.history, c.muted, c.tokens) == (b.disabled, b.history, b.muted, b.tokens)
  {
    var e := Expire(env, b, now);
    ExpireTurns(env, b, now);
    hide Expire, Turned, Known;
    if id in e.requests {
      assert Turned(env, b.requests[id], now, e.requests[id]);
    }
  }

  // ----- deciding -----

  /** A request that awaits approval and has shown its nonce is approved with the code both sides
      compute, and its token gets the first free name and the scopes asked for; with any other code
      it is rejected and its app muted for ten minutes. */
  lemma ApprovedIs(env: Env, b: Box, now: int, op: Op)
    requires op.Approve?
    ensures var (a, c) := Step(env, b, now, op);
      && OthersTurn(env, b, now, c, op.id)
      && (op.id in c.requests <==> Known(env, b, now, op.id))
      && (c.disabled, c.history, c.parked) == (b.disabled, b.history, b.parked)
      && (if !(op.id in b.requests && Awaits(env, b.requests[op.id], now)) then
            && a == Unknown && (c.muted, c.tokens) == (b.muted, b.tokens)
            && (op.id in c.requests ==> Turned(env, b.requests[op.id], now, c.requests[op.id]))
          else var r := b.requests[op.id];
            if r.revealed == None then
              a == NotReady && c.requests[op.id] == r && (c.muted, c.tokens) == (b.muted, b.tokens)
            else if op.code != env.code(r.terms.nonce, r.revealed.value) then
              && a == WrongCode && c.requests[op.id] == r.(standing := Rejected) && c.tokens == b.tokens
              && c.muted == b.muted[r.terms.address + "\0" + r.terms.app := now + 600_000]
            else
              && a.Granted? && TN.FirstFree(set t | t in b.tokens :: b.tokens[t].name, TN.Slug(r.terms.base), a.name)
              && c.requests[op.id] == r.(standing := Approved, token := op.token, tokenName := a.name)
              && c.tokens == b.tokens[op.token := TN.Entry(a.name, r.terms.scopes)] && c.muted == b.muted)
  {
    var e := Expire(env, b, now);
    ExpireTurns(env, b, now);
    PendingAwaits(env, b, now);
    DecidedIs(env, b, now, op);
    assert Step(env, b, now, op) == ApproveStep(env, b, now, op);
    var c := ApproveStep(env, b, now, op).1;
    hide Step, Expire, ApproveStep, TN.FirstFree, TN.Slug, Known, Awaits;
    assert IsPending(e, op.id) ==> e.requests[op.id] == b.requests[op.id];
    OthersOnly(env, b, now, e, c, op.id);
    hide OthersTurn, Turned;
  }

  /** What changes one request only leaves all others to the clock. */
  lemma OthersOnly(env: Env, b: Box, now: int, e: Box, c: Box, id: string)
    requires forall other ::
      && (other in e.requests <==> Known(env, b, now, other))
      && (other in e.requests ==> other in b.requests && Turned(env, b.requests[other], now, e.requests[other]))
    requires forall other :: other != id ==>
      && (other in c.requests <==> other in e.requests)
      && (other in e.requests ==> other in c.requests && c.requests[other] == e.requests[other])
    ensures OthersTurn(env, b, now, c, id)
  {
    hide Known, Turned;
  }

  lemma DecidedIs(env: Env, b: Box, now: int, op: Op)
    requires op.Approve?
    ensures var e := Expire(env, b, now);
      var (a, c) := ApproveStep(env, b, now, op);
      && (c.disabled, c.history, c.parked) == (e.disabled, e.history, e.parked)
      && (if !IsPending(e, op.id) then a == Unknown && c == e
          else var r := e.requests[op.id];
            if r.revealed == None then a == NotReady && c == e
            else if op.code != env.code(r.terms.nonce, r.revealed.value) then
              && a == WrongCode && c.requests == e.requests[op.id := r.(standing := Rejected)] && c.tokens == e.tokens
              && c.muted == e.muted[r.terms.address + "\0" + r.terms.app := now + 600_000]
            else
              && a.Granted? && TN.FirstFree(set t | t in e.tokens :: e.tokens[t].name, TN.Slug(r.terms.base), a.name)
              && c.requests == e.requests[op.id := r.(standing := Approved, token := op.token, tokenName := a.name)]
              && c.tokens == e.tokens[op.token := TN.Entry(a.name, r.terms.scopes)] && c.muted == e.muted)
  {
    hide Expire, TN.FirstFree, TN.Slug;
  }

  /** A request is rejected by hand while it is pending, even past its time. */
  lemma RejectedIs(env: Env, b: Box, now: int, id: string)
    ensures var (a, c) := Step(env, b, now, Reject(id));
      if id in b.requests && b.requests[id].standing == Pending then
        && a == Done
        && c == b.(requests := b.requests[id := b.requests[id].(standing := Rejected)],
                   muted := b.muted[b.requests[id].terms.address + "\0" + b.requests[id].terms.app := now + 600_000])
      else a == Unknown && c == b
  {
  }

  /** A request is withdrawn by whoever has its secret. */
  lemma WithdrawnIs(env: Env, b: Box, now: int, id: string, secret: string)
    ensures var (a, c) := Step(env, b, now, Withdraw(id, secret));
      && OthersTurn(env, b, now, c, id)
      && (a == Unknown <==> !Known(env, b, now, id))
      && (a == Done <==> Known(env, b, now, id) && secret == b.requests[id].terms.poll)
      && (id in c.requests <==> a == Forbidden)
      && (id in c.requests ==> Turned(env, b.requests[id], now, c.requests[id]))
      && c == b.(requests := c.requests)
  {
    ExpireTurns(env, b, now);
    hide Expire;
  }
}
