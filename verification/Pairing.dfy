/** Client pairing: requests, their limits, the commit and reveal of the client nonce, approval
    and the one hand-out of a token; as steps of a state machine over any run. */
module Pairing {
  import opened Collections
  import TN = TokenName

  type bytes = seq<bv8>

  datatype Standing = Pending | Approved | Rejected | Expired

  /** What was asked for, and what the box made of it at once; `base` is the lower-cased text
      the token will be named after. */
  datatype Terms = Terms(
    poll: string,
    nonce: bytes,
    commit: bytes,
    app: string,
    base: string,
    scopes: seq<string>,
    address: string,
    created: int)

  datatype Request = Request(
    terms: Terms,
    lastPoll: Option<int>,
    revealed: Option<bytes>,
    standing: Standing,
    token: string,
    tokenName: string,
    handedOut: bool)

  /** The hash, the six-digit code both sides compute, and the box's times. */
  datatype Env = Env(
    hash: bytes -> bytes,
    code: (bytes, bytes) -> string,
    lifetime: nat,
    keep: nat,
    interval: nat)

  /** A long poll that waits: the request it asked about and the secret it came with. */
  datatype Waiter = Waiter(id: string, secret: string)

  datatype Box = Box(
    disabled: bool,
    requests: map<string, Request>,
    history: map<string, seq<int>>,
    muted: map<string, int>,
    parked: multiset<Waiter>,
    tokens: TN.Table)

  const MAX_PENDING := 5
  const PER_HOUR := 10
  const HOUR := 3_600_000
  const MUTE := 600_000
  const MIN_NONCE := 16

  datatype Reveal = NoNonce | BadHex | Nonce(bs: bytes)

  datatype Wait = BadWait | Wait(millis: nat)

  datatype Op =
    | Ask(valid: bool, app: string, base: string, scopes: seq<string>, commit: bytes, address: string, id: string,
          poll: string, nonce: bytes)
    | Poll(id: string, secret: string, offered: Reveal, wait: Wait)
    | Wake(id: string, secret: string)
    | Withdraw(id: string, secret: string)
    | Approve(id: string, code: string, token: string)
    | Reject(id: string)
    | Enable(on: bool)
    | List

  datatype Answer =
    | Accepted | Off | Limit | Invalid | Unknown | Forbidden | SlowDown | Parked | NotReady | WrongCode | Done
    | StandingIs(standing: Standing)
    | TokenIs(token: string, name: string, scopes: seq<string>)
    | Granted(name: string)

  // ----- pieces -----

  predicate AppName(s: string) {
    && 1 <= |s| <= 48
    && (forall i :: 0 <= i < |s| ==> AppChar(s[i]) || (i > 0 && s[i] in "._-"))
  }

  predicate AppChar(c: char) { 'A' <= c <= 'Z' || 'a' <= c <= 'z' || '0' <= c <= '9' }

  function KeyOf(address: string, app: string): string { address + "\0" + app }

  function Key(r: Request): string { KeyOf(r.terms.address, r.terms.app) }

  predicate IsPending(b: Box, id: string) { id in b.requests && b.requests[id].standing == Pending }

  function PendingIds(b: Box): (ids: set<string>) { set id | id in b.requests && b.requests[id].standing == Pending }

  function Aged(env: Env, r: Request, now: int): Request {
    if r.standing == Pending && now > r.terms.created + env.lifetime then r.(standing := Expired) else r
  }

  function Expire(env: Env, b: Box, now: int): Box {
    b.(requests := map id | id in b.requests && now <= b.requests[id].terms.created + env.lifetime + env.keep
         :: Aged(env, b.requests[id], now))
  }

  function Recent(times: seq<int>, now: int): seq<int> {
    if times == [] then []
    else (if now - times[0] < HOUR then [times[0]] else []) + Recent(times[1..], now)
  }

  function History(b: Box, address: string): seq<int> {
    if address in b.history then b.history[address] else []
  }

  function Put(b: Box, id: string, r: Request): Box { b.(requests := b.requests[id := r]) }

  // ----- steps -----

  function AskStep(env: Env, b0: Box, now: int, op: Op): (Answer, Box)
    requires op.Ask?
  {
    if !op.valid || !AppName(op.app) then (Invalid, b0)
    else if b0.disabled then (Off, b0)
    else
      var b, key := Expire(env, b0, now), KeyOf(op.address, op.app);
      var recent := Recent(History(b, op.address), now);
      if (exists id :: id in b.requests && b.requests[id].standing == Pending && Key(b.requests[id]) == key)
        || |PendingIds(b)| >= MAX_PENDING || (key in b.muted && now < b.muted[key])
            || |recent| >= PER_HOUR then (Limit, b)
      else
        (Accepted, Put(b, op.id, NewRequest(op, now)).(history := b.history[op.address := recent + [now]]))
  }

  function NewRequest(op: Op, now: int): Request
    requires op.Ask?
  {
    Request(Terms(op.poll, op.nonce, op.commit, op.app, op.base, op.scopes, op.address, now), None, None, Pending, "",
        "", false)
  }

  /** An approval is answered with the token once, and as unknown from then on. */
  function AnswerStep(b: Box, id: string): (Answer, Box)
    requires id in b.requests
  {
    var r := b.requests[id];
    if r.standing != Approved then (StandingIs(r.standing), b)
    else if r.handedOut then (Unknown, b)
    else (TokenIs(r.token, r.tokenName, r.terms.scopes), Put(b, id, r.(handedOut := true)))
  }

  predicate Opens(env: Env, t: Terms, bs: bytes) { |bs| >= MIN_NONCE && env.hash(bs) == t.commit }

  function PollStep(env: Env, b0: Box, now: int, op: Op): (Answer, Box)
    requires op.Poll?
  {
    var b := Expire(env, b0, now);
    if op.id !in b.requests then (Unknown, b)
    else
      var r0 := b.requests[op.id];
      if op.secret != r0.terms.poll then (Forbidden, b)
      else if op.offered == BadHex || (op.offered.Nonce? && !Opens(env, r0.terms, op.offered.bs))
          || (op.offered == NoNonce && r0.revealed.None?)
      then (Invalid, b)
      else
        WaitStep(env, Put(b, op.id, if op.offered.Nonce? then r0.(revealed := Some(op.offered.bs)) else r0), now,
            op.id, op.secret, op.wait)
  }

  /** A poll whose nonce is accepted: told to slow down, parked, or answered. */
  function WaitStep(env: Env, b: Box, now: int, id: string, secret: string, wait: Wait): (Answer, Box)
    requires id in b.requests
  {
    var r := b.requests[id];
    if wait == BadWait then (Invalid, b)
    else if wait.millis == 0 && r.lastPoll.Some? && now - r.lastPoll.value < env.interval then (SlowDown, b)
    else
      var polled := Put(b, id, r.(lastPoll := Some(now)));
      if wait.millis > 0 && r.standing == Pending
          then (Parked, polled.(parked := polled.parked + multiset{Waiter(id, secret)}))
      else AnswerStep(polled, id)
  }

  function WakeStep(env: Env, b0: Box, now: int, id: string, secret: string): (Answer, Box) {
    if Waiter(id, secret) !in b0.parked then (Done, b0)
    else
      var b := Expire(env, b0, now).(parked := b0.parked - multiset{Waiter(id, secret)});
      if id !in b.requests then (Unknown, b) else AnswerStep(b, id)
  }

  function Muted(b: Box, id: string, now: int): Box
    requires id in b.requests
  {
    var r := b.requests[id];
    Put(b, id, r.(standing := Rejected)).(muted := b.muted[Key(r) := now + MUTE])
  }

  function ApproveStep(env: Env, b0: Box, now: int, op: Op): (Answer, Box)
    requires op.Approve?
  {
    var b := Expire(env, b0, now);
    if !IsPending(b, op.id) then (Unknown, b)
    else
      var r := b.requests[op.id];
      if r.revealed.None? then (NotReady, b)
      else if op.code != env.code(r.terms.nonce, r.revealed.value) then (WrongCode, Muted(b, op.id, now))
      else
        var name := TN.FreeName(TN.TakenNames(b.tokens), TN.Slug(r.terms.base));
        (Granted(name),
         Put(b, op.id, r.(standing := Approved, token := op.token, tokenName := name))
           .(tokens := b.tokens[op.token := TN.Entry(name, r.terms.scopes)]))
  }

  function Step(env: Env, b: Box, now: int, op: Op): (Answer, Box) {
    match op
    case Ask(_, _, _, _, _, _, _, _, _) => AskStep(env, b, now, op)
    case Poll(_, _, _, _) => PollStep(env, b, now, op)
    case Wake(id, secret) => WakeStep(env, b, now, id, secret)
    case Withdraw(id, secret) =>
      var e := Expire(env, b, now);
      if id !in e.requests then (Unknown, e)
      else if secret != e.requests[id].terms.poll then (Forbidden, e)
      else (Done, e.(requests := e.requests - {id}))
    case Approve(_, _, _) => ApproveStep(env, b, now, op)
    case Reject(id) => if !IsPending(b, id) then (Unknown, b) else (Done, Muted(b, id, now))
    case Enable(on) => (Done, b.(disabled := !on))
    case List => (Done, Expire(env, b, now))
  }

  // ----- runs -----

  datatype Event = Event(now: int, op: Op)

  const START := Box(false, map[], map[], map[], multiset{}, map[])

  function Run(env: Env, events: seq<Event>): Box {
    if events == [] then START
    else Step(env, Run(env, events[..|events| - 1]), events[|events| - 1].now, events[|events| - 1].op).1
  }

  /** The answer to the last event. */
  function Last(env: Env, events: seq<Event>): Answer
    requires events != []
  {
    Step(env, Run(env, events[..|events| - 1]), events[|events| - 1].now, events[|events| - 1].op).0
  }

  /** The clock never goes back. */
  predicate Clocked(events: seq<Event>) {
    forall i, j :: 0 <= i <= j < |events| ==> events[i].now <= events[j].now
  }

  // ----- what every request keeps -----

  /** What happens to a request in one step that does not replace it: its terms stay, and its
      standing only leaves Pending. */
  predicate Moves(env: Env, r: Request, s: Request, op: Op) {
    && s.terms == r.terms
    && (if s.standing != r.standing then r.standing == Pending else s.token == r.token)
    && (s.revealed != r.revealed ==> s.revealed.Some? && Opens(env, r.terms, s.revealed.value))
    && (r.handedOut ==> s.handedOut)
    && (s.standing == Approved && r.standing == Pending ==>
          op.Approve? && r.revealed.Some? && op.code == env.code(r.terms.nonce, r.revealed.value)
              && s.token == op.token)
  }

  /** No request comes from nowhere, and each moves as it may. */
  ghost predicate AllMove(env: Env, before: map<string, Request>, after: map<string, Request>, op: Op) {
    forall id :: id in after ==> id in before && Moves(env, before[id], after[id], op)
  }

  lemma ExpireMoves(env: Env, b: Box, now: int, op: Op)
    ensures AllMove(env, b.requests, Expire(env, b, now).requests, op)
    ensures AllMove(env, b.requests, b.requests, op)
    ensures forall id ::
        id in Expire(env, b, now).requests ==> Expire(env, b, now).requests[id] == Aged(env, b.requests[id], now)
  {
  }

  lemma PutMoves(env: Env, before: map<string, Request>, after: map<string, Request>, id: string, r: Request, op: Op)
    requires AllMove(env, before, after, op) && id in before && Moves(env, before[id], r, op)
    ensures AllMove(env, before, after[id := r], op)
  {
    hide Moves;
  }

  /** A request handed out or polled still moves as it may. */
  lemma AnswerMoves(env: Env, before: map<string, Request>, b: Box, id: string, op: Op)
    requires AllMove(env, before, b.requests, op) && id in b.requests
    ensures AllMove(env, before, AnswerStep(b, id).1.requests, op)
  {
    hide AllMove;
    assert Moves(env, before[id], b.requests[id], op) by { MoveOf(env, before, b.requests, id, op); }
    MoveOf(env, before, b.requests, id, op);
    PutMoves(env, before, b.requests, id, b.requests[id].(handedOut := true), op);
  }

  lemma MoveOf(env: Env, before: map<string, Request>, after: map<string, Request>, id: string, op: Op)
    requires AllMove(env, before, after, op) && id in after
    ensures id in before && Moves(env, before[id], after[id], op)
  {
  }

  lemma WaitMoves(env: Env, before: map<string, Request>, b: Box, now: int, id: string, secret: string, wait: Wait,
                  op: Op)
    requires AllMove(env, before, b.requests, op) && id in b.requests
    ensures AllMove(env, before, WaitStep(env, b, now, id, secret, wait).1.requests, op)
  {
    hide AllMove, AnswerStep;
    MoveOf(env, before, b.requests, id, op);
    var polled := Put(b, id, b.requests[id].(lastPoll := Some(now)));
    PutMoves(env, before, b.requests, id, polled.requests[id], op);
    AnswerMoves(env, before, polled, id, op);
  }

  lemma PollMoves(env: Env, b: Box, now: int, op: Op)
    requires op.Poll?
    ensures AllMove(env, b.requests, PollStep(env, b, now, op).1.requests, op)
  {
    hide Opens, Expire, WaitStep, AllMove;
    ExpireMoves(env, b, now, op);
    var e := Expire(env, b, now);
    if op.id in e.requests {
      MoveOf(env, b.requests, e.requests, op.id, op);
      var r := e.requests[op.id];
      WaitMoves(env, b.requests, Put(e, op.id, r), now, op.id, op.secret, op.wait, op) by { Unchanged(e, op.id); }
      if op.offered.Nonce? && Opens(env, r.terms, op.offered.bs) {
        PutMoves(env, b.requests, e.requests, op.id, r.(revealed := Some(op.offered.bs)), op);
        WaitMoves(env, b.requests, Put(e, op.id, r.(revealed := Some(op.offered.bs))), now, op.id, op.secret, op.wait,
            op);
      }
    }
  }

  lemma Unchanged(b: Box, id: string)
    requires id in b.requests
    ensures Put(b, id, b.requests[id]) == b
  {
    assert b.requests[id := b.requests[id]] == b.requests;
  }

  lemma WakeMoves(env: Env, b: Box, now: int, id: string, secret: string)
    ensures AllMove(env, b.requests, WakeStep(env, b, now, id, secret).1.requests, Wake(id, secret))
  {
    hide Expire, AllMove, AnswerStep;
    ExpireMoves(env, b, now, Wake(id, secret));
    var e := Expire(env, b, now).(parked := b.parked - multiset{Waiter(id, secret)});
    if id in e.requests { AnswerMoves(env, b.requests, e, id, Wake(id, secret)); }
  }

  lemma MutedMoves(env: Env, before: map<string, Request>, b: Box, id: string, now: int, op: Op)
    requires AllMove(env, before, b.requests, op) && IsPending(b, id)
    ensures AllMove(env, before, Muted(b, id, now).requests, op)
  {
    hide AllMove;
    MoveOf(env, before, b.requests, id, op);
    PutMoves(env, before, b.requests, id, b.requests[id].(standing := Rejected), op);
  }

  lemma ApproveMoves(env: Env, b: Box, now: int, op: Op)
    requires op.Approve?
    ensures AllMove(env, b.requests, ApproveStep(env, b, now, op).1.requests, op)
  {
    hide TN.FreeName, TN.Slug, TN.TakenNames, Expire, AllMove, Muted;
    ExpireMoves(env, b, now, op);
    var e := Expire(env, b, now);
    if IsPending(e, op.id) {
      var r := e.requests[op.id];
      MutedMoves(env, b.requests, e, op.id, now, op);
      if r.revealed.Some? && op.code == env.code(r.terms.nonce, r.revealed.value) {
        var name := TN.FreeName(TN.TakenNames(e.tokens), TN.Slug(r.terms.base));
        MoveOf(env, b.requests, e.requests, op.id, op);
        PutMoves(env, b.requests, e.requests, op.id, r.(standing := Approved, token := op.token, tokenName := name),
            op);
      }
    }
  }

  lemma AskMoves(env: Env, b: Box, now: int, op: Op)
    requires op.Ask?
    ensures var (a, b') := AskStep(env, b, now, op);
      if a == Accepted then
        op.id in b'.requests && b'.requests[op.id] == NewRequest(op, now)
            && AllMove(env, b.requests, b'.requests - {op.id}, op)
      else AllMove(env, b.requests, b'.requests, op)
  {
    hide Recent, AppName, Expire, Moves, Key;
    ExpireMoves(env, b, now, op);
  }

  lemma RemoveMoves(env: Env, before: map<string, Request>, after: map<string, Request>, id: string, op: Op)
    requires AllMove(env, before, after, op)
    ensures AllMove(env, before, after - {id}, op)
  {
    hide Moves;
  }

  /** Every request a step leaves was there and moves as it may, or is the one just accepted. */
  lemma StepMoves(env: Env, b: Box, now: int, op: Op)
    ensures var (a, b') := Step(env, b, now, op);
      if op.Ask? && a == Accepted then
        op.id in b'.requests && b'.requests[op.id] == NewRequest(op, now)
            && AllMove(env, b.requests, b'.requests - {op.id}, op)
      else AllMove(env, b.requests, b'.requests, op)
  {
    hide AskStep, PollStep, WakeStep, ApproveStep, Expire, AllMove, Muted;
    ExpireMoves(env, b, now, op);
    match op
    case Ask(_, _, _, _, _, _, _, _, _) => AskMoves(env, b, now, op);
    case Poll(_, _, _, _) => PollMoves(env, b, now, op);
    case Wake(id, secret) => WakeMoves(env, b, now, id, secret);
    case Withdraw(id, _) => RemoveMoves(env, b.requests, Expire(env, b, now).requests, id, op);
    case Approve(_, _, _) => ApproveMoves(env, b, now, op);
    case Reject(id) => if IsPending(b, id) { MutedMoves(env, b.requests, b, id, now, op); }
    case _ =>
  }

  /** A revealed nonce opens the commitment; an approval had one. */
  ghost predicate Honest(env: Env, r: Request) {
    && (r.revealed.Some? ==> Opens(env, r.terms, r.revealed.value))
    && (r.standing == Approved ==> r.revealed.Some?)
  }

  ghost predicate Sincere(env: Env, b: Box) {
    forall id :: id in b.requests ==> Honest(env, b.requests[id])
  }

  lemma HonestMoves(env: Env, r: Request, s: Request, op: Op)
    requires Honest(env, r) && Moves(env, r, s, op)
    ensures Honest(env, s)
  {
    hide Opens;
  }

  lemma StepSincere(env: Env, b: Box, now: int, op: Op)
    requires Sincere(env, b)
    ensures Sincere(env, Step(env, b, now, op).1)
  {
    hide Step, Moves, Honest;
    var (a, b') := Step(env, b, now, op);
    StepMoves(env, b, now, op);
    forall id | id in b'.requests ensures Honest(env, b'.requests[id]) {
      if op.Ask? && a == Accepted && id == op.id {
        assert Honest(env, NewRequest(op, now)) by { NewHonest(env, op, now); }
      } else {
        assert op.Ask? && a == Accepted ==> id in b'.requests - {op.id};
        HonestMoves(env, b.requests[id], b'.requests[id], op);
      }
    }
  }

  lemma NewHonest(env: Env, op: Op, now: int)
    requires op.Ask?
    ensures Honest(env, NewRequest(op, now))
  {
  }

  lemma {:induction false} RunSincere(env: Env, events: seq<Event>)
    ensures Sincere(env, Run(env, events))
  {
    if events != [] {
      hide Sincere, Step;
      RunSincere(env, events[..|events| - 1]);
      StepSincere(env, Run(env, events[..|events| - 1]), events[|events| - 1].now, events[|events| - 1].op);
    }
  }

  // ----- approval -----

  /** A request is approved exactly when it is pending and in time, its nonce is revealed and the
      code is the one both sides compute; in any run the revealed nonce opens the commitment. */
  lemma ApprovalEarned(env: Env, events: seq<Event>, now: int, op: Op)
    requires op.Approve?
    ensures var b := Run(env, events);
      && (Step(env, b, now, op).0.Granted? <==>
            && IsPending(b, op.id) && now <= b.requests[op.id].terms.created + env.lifetime
            && b.requests[op.id].revealed.Some?
            && op.code == env.code(b.requests[op.id].terms.nonce, b.requests[op.id].revealed.value))
      && (Step(env, b, now, op).0.Granted? ==> Opens(env, b.requests[op.id].terms, b.requests[op.id].revealed.value))
  {
    hide TN.FreeName, TN.Slug, TN.TakenNames, Opens, Run;
    RunSincere(env, events);
    var b := Run(env, events);
    if IsPending(b, op.id) { assert Honest(env, b.requests[op.id]); }
  }

  // ----- one hand-out -----

  /** Requests that still hold this token to be handed out. */
  function Live(b: Box, t: string): (ids: set<string>) {
    set id | id in b.requests && Holds(b.requests[id], t)
  }

  predicate Holds(r: Request, t: string) { r.standing == Approved && !r.handedOut && r.token == t }

  function Handed(env: Env, events: seq<Event>): multiset<string> {
    if events == [] then multiset{}
    else
      var a := Last(env, events);
      Handed(env, events[..|events| - 1]) + (if a.TokenIs? then multiset{a.token} else multiset{})
  }

  /** The tokens approvals created. */
  function Minted(env: Env, events: seq<Event>): multiset<string> {
    if events == [] then multiset{}
    else
      var a, op := Last(env, events), events[|events| - 1].op;
      Minted(env, events[..|events| - 1]) + (if a.Granted? && op.Approve? then multiset{op.token} else multiset{})
  }

  lemma ApprovesOne(env: Env, b: Box, now: int, op: Op)
    requires op.Approve?
    ensures var (a, b') := ApproveStep(env, b, now, op);
      forall id :: id in b'.requests && b'.requests[id].standing == Approved ==>
        id in b.requests && (b.requests[id].standing == Approved || (a.Granted? && id == op.id))
  {
    hide TN.FreeName, TN.Slug, TN.TakenNames, Expire, Moves, Key, AllMove;
    ExpireMoves(env, b, now, op);
    var e := Expire(env, b, now);
    var (a, b') := ApproveStep(env, b, now, op);
    forall id | id in b'.requests && b'.requests[id].standing == Approved
      ensures id in b.requests && (b.requests[id].standing == Approved || (a.Granted? && id == op.id))
    {
      assert id in e.requests;
      MoveOf(env, b.requests, e.requests, id, op);
    }
  }

  lemma LiveStep(env: Env, b: Box, now: int, op: Op, t: string)
    ensures var (a, b') := Step(env, b, now, op);
      Live(b', t) <= Live(b, t) + (if a.Granted? && op.Approve? && op.token == t then {op.id} else {})
  {
    hide Step;
    var (a, b') := Step(env, b, now, op);
    StepMoves(env, b, now, op);
    if op.Approve? {
      ApprovesOne(env, b, now, op);
      assert Step(env, b, now, op) == ApproveStep(env, b, now, op) by { ApproveIs(env, b, now, op); }
    }
    hide ApproveStep;
    forall id | id in Live(b', t)
      ensures id in Live(b, t) || (a.Granted? && op.Approve? && op.token == t && id == op.id)
    {
      if op.Ask? && a == Accepted {
        assert id != op.id;
        assert id in b'.requests - {op.id};
      }
      assert Moves(env, b.requests[id], b'.requests[id], op);
    }
  }

  lemma ApproveIs(env: Env, b: Box, now: int, op: Op)
    requires op.Approve?
    ensures Step(env, b, now, op) == ApproveStep(env, b, now, op)
  {
  }

  lemma AnswerSpends(b: Box, id: string)
    requires id in b.requests && AnswerStep(b, id).0.TokenIs?
    ensures var t := AnswerStep(b, id).0.token; id in Live(b, t) && id !in Live(AnswerStep(b, id).1, t)
  {
  }

  lemma HandOutSpends(env: Env, b: Box, now: int, op: Op)
    requires Step(env, b, now, op).0.TokenIs?
    ensures var (a, b') := Step(env, b, now, op); exists id :: id in Live(b, a.token) && id !in Live(b', a.token)
  {
    hide Live, AnswerStep, AskStep, ApproveStep, PollStep;
    if op.Wake? {
      WakeSpends(env, b, now, op.id, op.secret);
    } else if op.Poll? {
      PollSpends(env, b, now, op);
    } else {
      assert op.Ask? || op.Approve?;
      OthersGiveNone(env, b, now, op);
    }
  }

  lemma OthersGiveNone(env: Env, b: Box, now: int, op: Op)
    requires op.Ask? || op.Approve?
    ensures !Step(env, b, now, op).0.TokenIs?
  {
    hide TN.FreeName, TN.Slug, TN.TakenNames, Recent, Expire;
  }

  /** Expiry changes nothing about approved requests but forgetting them. */
  lemma LiveExpires(env: Env, b: Box, now: int, t: string)
    ensures Live(Expire(env, b, now), t) <= Live(b, t)
  {
  }

  lemma LivePut(b: Box, id: string, r: Request, t: string)
    requires id in b.requests && Holds(r, t) == Holds(b.requests[id], t)
    ensures Live(Put(b, id, r), t) == Live(b, t)
  {
  }

  lemma WakeSpends(env: Env, b: Box, now: int, id: string, secret: string)
    requires WakeStep(env, b, now, id, secret).0.TokenIs?
    ensures var (a, b') := WakeStep(env, b, now, id, secret); id in Live(b, a.token) && id !in Live(b', a.token)
  {
    hide Expire, AnswerStep, Live;
    var e := Expire(env, b, now).(parked := b.parked - multiset{Waiter(id, secret)});
    AnswerSpends(e, id);
    LiveExpires(env, b, now, AnswerStep(e, id).0.token);
    SameLive(Expire(env, b, now), e, AnswerStep(e, id).0.token);
  }

  lemma SameLive(b: Box, c: Box, t: string)
    requires b.requests == c.requests
    ensures Live(b, t) == Live(c, t)
  {
  }

  lemma WaitSpends(env: Env, b: Box, now: int, id: string, secret: string, wait: Wait)
    requires id in b.requests && WaitStep(env, b, now, id, secret, wait).0.TokenIs?
    ensures var (a, b') := WaitStep(env, b, now, id, secret, wait); id in Live(b, a.token) && id !in Live(b', a.token)
  {
    hide AnswerStep, Live;
    var polled := Put(b, id, b.requests[id].(lastPoll := Some(now)));
    AnswerSpends(polled, id);
    LivePut(b, id, polled.requests[id], AnswerStep(polled, id).0.token);
  }

  lemma PollSpends(env: Env, b: Box, now: int, op: Op)
    requires op.Poll? && PollStep(env, b, now, op).0.TokenIs?
    ensures var (a, b') := PollStep(env, b, now, op); op.id in Live(b, a.token) && op.id !in Live(b', a.token)
  {
    hide Expire, WaitStep, Live, Opens;
    var e := Expire(env, b, now);
    var r := e.requests[op.id];
    var shown := Put(e, op.id, if op.offered.Nonce? then r.(revealed := Some(op.offered.bs)) else r);
    WaitSpends(env, shown, now, op.id, op.secret, op.wait);
    var t := WaitStep(env, shown, now, op.id, op.secret, op.wait).0.token;
    LivePut(e, op.id, shown.requests[op.id], t);
    LiveExpires(env, b, now, t);
  }

  lemma LiveCounts(env: Env, b: Box, now: int, op: Op, t: string)
    ensures var (a, b') := Step(env, b, now, op);
      |Live(b', t)| + (if a.TokenIs? && a.token == t then 1 else 0)
          <= |Live(b, t)| + (if a.Granted? && op.Approve? && op.token == t then 1 else 0)
  {
    LiveStep(env, b, now, op, t);
    var (a, b') := Step(env, b, now, op);
    hide Step, Live;
    var minted := if a.Granted? && op.Approve? && op.token == t then {op.id} else {};
    if a.TokenIs? && a.token == t {
      HandOutSpends(env, b, now, op);
      var id :| id in Live(b, t) && id !in Live(b', t);
      SubsetSize(Live(b', t), Live(b, t) - {id});
    } else {
      SubsetSize(Live(b', t), Live(b, t) + minted);
    }
  }

  /** A token is handed out at most as often as approvals created it, in any run; with secrets
      that never repeat, once. */
  lemma {:induction false} HandedOnce(env: Env, events: seq<Event>, t: string)
    ensures Handed(env, events)[t] + |Live(Run(env, events), t)| <= Minted(env, events)[t]
  {
    if events == [] {
      assert Live(START, t) == {};
    } else {
      hide Step, Live;
      HandedOnce(env, events[..|events| - 1], t);
      LiveCounts(env, Run(env, events[..|events| - 1]), events[|events| - 1].now, events[|events| - 1].op, t);
    }
  }

  // ----- who is handed a token -----

  /** A poll for this request came with this secret. */
  ghost predicate Polled(events: seq<Event>, w: Waiter) {
    exists i :: 0 <= i < |events| && events[i].op.Poll? && events[i].op.id == w.id && events[i].op.secret == w.secret
  }

  ghost predicate Asked(events: seq<Event>, id: string) {
    exists i :: 0 <= i < |events| && events[i].op.Ask? && events[i].op.id == id
  }

  /** Ids are drawn at random and do not repeat. */
  ghost predicate FreshIds(events: seq<Event>) {
    forall i, j ::
        0 <= i < j < |events| && events[i].op.Ask? && events[j].op.Ask? ==> events[i].op.id != events[j].op.id
  }

  /** The secret is the request's own and the nonce has been shown. */
  ghost predicate Proven(r: Request, secret: string) { r.terms.poll == secret && r.revealed.Some? }

  /** Every waiter came from a poll, and proved itself to the request it waits for if that still
      exists. */
  ghost predicate Waiting(b: Box, events: seq<Event>) {
    forall w :: w in b.parked ==>
      Polled(events, w) && Asked(events, w.id) && (w.id in b.requests ==> Proven(b.requests[w.id], w.secret))
  }

  lemma ExpireParks(env: Env, b: Box, now: int)
    ensures Expire(env, b, now).parked == b.parked
  {
  }

  lemma AnswerParks(b: Box, id: string)
    requires id in b.requests
    ensures AnswerStep(b, id).1.parked == b.parked
  {
  }

  /** A waiter is parked only by a poll that proves itself to a request. */
  lemma PollParks(env: Env, b: Box, now: int, op: Op, w: Waiter)
    requires op.Poll? && w in PollStep(env, b, now, op).1.parked && w !in b.parked
    ensures w == Waiter(op.id, op.secret)
    ensures op.id in b.requests && op.id in PollStep(env, b, now, op).1.requests
    ensures Proven(PollStep(env, b, now, op).1.requests[op.id], op.secret)
  {
    hide Opens, Expire, AnswerStep, WaitStep;
    ExpireParks(env, b, now);
    ExpireMoves(env, b, now, op);
    var e := Expire(env, b, now);
    var r := e.requests[op.id];
    var shown := Put(e, op.id, if op.offered.Nonce? then r.(revealed := Some(op.offered.bs)) else r);
    WaitParks(env, shown, now, op.id, op.secret, op.wait, w);
  }

  lemma WaitParks(env: Env, b: Box, now: int, id: string, secret: string, wait: Wait, w: Waiter)
    requires id in b.requests && w in WaitStep(env, b, now, id, secret, wait).1.parked && w !in b.parked
    ensures w == Waiter(id, secret)
    ensures var c := WaitStep(env, b, now, id, secret, wait).1;
      id in c.requests && c.requests[id].terms == b.requests[id].terms
          && c.requests[id].revealed == b.requests[id].revealed
  {
    hide AnswerStep;
    AnswerParks(Put(b, id, b.requests[id].(lastPoll := Some(now))), id);
  }

  lemma OthersPark(env: Env, b: Box, now: int, op: Op)
    requires !op.Poll?
    ensures Step(env, b, now, op).1.parked <= b.parked
  {
    hide TN.FreeName, TN.Slug, TN.TakenNames, Recent, AppName, Expire, AnswerStep;
    ExpireParks(env, b, now);
    if op.Wake? && op.id in Expire(env, b, now).requests {
      AnswerParks(Expire(env, b, now).(parked := b.parked - multiset{Waiter(op.id, op.secret)}), op.id);
    }
  }

  lemma StillProven(env: Env, r: Request, s: Request, op: Op, secret: string)
    requires Proven(r, secret) && Moves(env, r, s, op)
    ensures Proven(s, secret)
  {
  }

  /** A waiter that stays: what it proved stays proved, unless its id is drawn again. */
  lemma WaiterStays(env: Env, b: Box, now: int, op: Op, w: Waiter)
    requires w.id in b.requests ==> Proven(b.requests[w.id], w.secret)
    requires !(op.Ask? && op.id == w.id)
    ensures var c := Step(env, b, now, op).1; w.id in c.requests ==> Proven(c.requests[w.id], w.secret)
  {
    hide Step, Moves, Proven;
    StepMoves(env, b, now, op);
    var (a, c) := Step(env, b, now, op);
    if w.id in c.requests {
      assert op.Ask? && a == Accepted ==> w.id in c.requests - {op.id};
      StillProven(env, b.requests[w.id], c.requests[w.id], op, w.secret);
    }
  }

  /** The request was accepted at some time. */
  lemma {:induction false} HeldWereAsked(env: Env, events: seq<Event>, id: string)
    requires id in Run(env, events).requests
    ensures Asked(events, id)
  {
    hide Step;
    var n := |events| - 1;
    var front, op := events[..n], events[n].op;
    StepMoves(env, Run(env, front), events[n].now, op);
    if id in Run(env, front).requests {
      HeldWereAsked(env, front, id);
      var i :| 0 <= i < |front| && front[i].op.Ask? && front[i].op.id == id;
      assert events[i] == front[i];
    } else {
      assert op.Ask? && op.id == id && events[n].op.Ask?;
    }
  }

  lemma PolledLonger(events: seq<Event>, w: Waiter)
    requires events != [] && Polled(events[..|events| - 1], w)
    ensures Polled(events, w)
  {
    var front := events[..|events| - 1];
    var i :| 0 <= i < |front| && front[i].op.Poll? && front[i].op.id == w.id && front[i].op.secret == w.secret;
    assert events[i] == front[i];
  }

  lemma AskedLonger(events: seq<Event>, id: string)
    requires events != [] && Asked(events[..|events| - 1], id)
    ensures Asked(events, id)
    ensures FreshIds(events) ==> !(events[|events| - 1].op.Ask? && events[|events| - 1].op.id == id)
  {
    var front := events[..|events| - 1];
    var i :| 0 <= i < |front| && front[i].op.Ask? && front[i].op.id == id;
    assert events[i] == front[i];
  }

  lemma {:induction false} RunWaiting(env: Env, events: seq<Event>)
    requires FreshIds(events)
    ensures Waiting(Run(env, events), events)
  {
    if events != [] {
      hide Step, Proven, Polled, Asked, Run;
      var n := |events| - 1;
      var front, now, op := events[..n], events[n].now, events[n].op;
      var b := Run(env, front);
      RunWaiting(env, front);
      UnfoldRun(env, events);
      var c := Step(env, b, now, op).1;
      forall w | w in c.parked
        ensures Polled(events, w) && Asked(events, w.id) && (w.id in c.requests ==> Proven(c.requests[w.id], w.secret))
      {
        if w in b.parked {
          PolledLonger(events, w);
          AskedLonger(events, w.id);
          WaiterStays(env, b, now, op, w);
        } else {
          if !op.Poll? { OthersPark(env, b, now, op); }
          NewWaiter(env, events, w);
        }
      }
    } else {
      NobodyWaits(env);
    }
  }

  lemma NobodyWaits(env: Env)
    ensures Run(env, []).parked == multiset{}
  {
  }

  lemma UnfoldRun(env: Env, events: seq<Event>)
    requires events != []
    ensures var n := |events| - 1; Run(env, events) == Step(env, Run(env, events[..n]), events[n].now, events[n].op).1
  {
  }

  lemma NewWaiter(env: Env, events: seq<Event>, w: Waiter)
    requires events != [] && events[|events| - 1].op.Poll?
    requires w in Run(env, events).parked && w !in Run(env, events[..|events| - 1]).parked
    ensures Polled(events, w) && Asked(events, w.id)
    ensures w.id in Run(env, events).requests && Proven(Run(env, events).requests[w.id], w.secret)
  {
    hide PollStep, Proven;
    var n := |events| - 1;
    PollParks(env, Run(env, events[..n]), events[n].now, events[n].op, w);
    HeldWereAsked(env, events, w.id);
  }

  lemma AnswerNeeds(b: Box, id: string)
    requires id in b.requests && AnswerStep(b, id).0.TokenIs?
    ensures b.requests[id].standing == Approved
  {
  }

  lemma PollNeeds(env: Env, b: Box, now: int, op: Op)
    requires op.Poll? && PollStep(env, b, now, op).0.TokenIs?
    ensures op.id in b.requests && op.secret == b.requests[op.id].terms.poll && b.requests[op.id].standing == Approved
  {
    hide Opens, Expire;
    ExpireMoves(env, b, now, op);
  }

  lemma WakeNeeds(env: Env, b: Box, now: int, id: string, secret: string)
    requires WakeStep(env, b, now, id, secret).0.TokenIs?
    ensures Waiter(id, secret) in b.parked && id in b.requests && b.requests[id].standing == Approved
  {
    hide Expire, AnswerStep;
    ExpireMoves(env, b, now, Wake(id, secret));
    var e := Expire(env, b, now).(parked := b.parked - multiset{Waiter(id, secret)});
    AnswerNeeds(e, id);
  }

  /** In any run a token goes only to a poll that came with the request's secret, answered at once
      or after a wait, for a request whose nonce was shown and opens its commitment. */
  lemma TokenNeedsSecret(env: Env, events: seq<Event>, now: int, op: Op)
    requires Step(env, Run(env, events), now, op).0.TokenIs? && FreshIds(events)
    ensures var b := Run(env, events);
      && (op.Poll? || (op.Wake? && Polled(events, Waiter(op.id, op.secret))))
      && op.id in b.requests && op.secret == b.requests[op.id].terms.poll
      && b.requests[op.id].standing == Approved && b.requests[op.id].revealed.Some?
      && Opens(env, b.requests[op.id].terms, b.requests[op.id].revealed.value)
  {
    hide Opens, Run, AskStep, PollStep, WakeStep, ApproveStep, Expire, Polled, Asked;
    var b := Run(env, events);
    if op.Ask? || op.Approve? { OthersGiveNone(env, b, now, op); }
    if op.Poll? { PollNeeds(env, b, now, op); }
    if op.Wake? {
      WakeNeeds(env, b, now, op.id, op.secret);
      RunWaiting(env, events);
    }
    RunSincere(env, events);
    assert Honest(env, b.requests[op.id]);
  }

  // ----- limits -----

  lemma NulFree(app: string)
    requires AppName(app)
    ensures '\0' !in app
  {
  }

  /** The limits are per address and app: keys tell the pairs apart. */
  lemma KeyInjective(a1: string, app1: string, a2: string, app2: string)
    requires AppName(app1) && AppName(app2)
    ensures KeyOf(a1, app1) == KeyOf(a2, app2) <==> a1 == a2 && app1 == app2
  {
    NulFree(app1);
    NulFree(app2);
    var k1, k2 := KeyOf(a1, app1), KeyOf(a2, app2);
    if k1 == k2 {
      assert k1[|a1|] == '\0' && k2[|a2|] == '\0';
      assert a1 == k1[..|a1|] && a2 == k2[..|a2|];
      assert app1 == k1[|a1| + 1..] && app2 == k2[|a2| + 1..];
    }
  }

  ghost predicate Bounded(b: Box) {
    && |PendingIds(b)| <= MAX_PENDING
    && (forall i, j :: i in PendingIds(b) && j in PendingIds(b) && Key(b.requests[i]) == Key(b.requests[j]) ==> i == j)
  }

  lemma FewerBounded(env: Env, b: Box, c: Box, op: Op)
    requires Bounded(b) && AllMove(env, b.requests, c.requests, op)
    ensures Bounded(c)
  {
    hide Opens, Key;
    forall id | id in PendingIds(c) ensures id in PendingIds(b) && c.requests[id].terms == b.requests[id].terms {
      assert Moves(env, b.requests[id], c.requests[id], op);
    }
    SubsetSize(PendingIds(c), PendingIds(b));
    SameKeys(b, c);
  }

  lemma SameKeys(b: Box, c: Box)
    requires PendingIds(c) <= PendingIds(b)
    requires forall id :: id in PendingIds(c) ==> c.requests[id].terms == b.requests[id].terms
    ensures forall id :: id in PendingIds(c) ==> Key(c.requests[id]) == Key(b.requests[id])
  {
  }

  lemma AddBounded(b: Box, c: Box, id: string, r: Request)
    requires Bounded(b) && |PendingIds(b)| < MAX_PENDING && c.requests == b.requests[id := r]
    requires forall other :: other in PendingIds(b) ==> Key(b.requests[other]) != Key(r)
    ensures Bounded(c)
  {
    hide Key;
    assert PendingIds(c) <= PendingIds(b) + {id};
    SubsetSize(PendingIds(c), PendingIds(b) + {id});
  }

  lemma AskBounded(env: Env, b: Box, now: int, op: Op)
    requires op.Ask? && Bounded(b)
    ensures Bounded(AskStep(env, b, now, op).1)
  {
    hide Recent, AppName, Expire, AllMove, Bounded;
    var e := Expire(env, b, now);
    ExpireMoves(env, b, now, op);
    FewerBounded(env, b, e, op);
    var (a, c) := AskStep(env, b, now, op);
    if a == Accepted { AddBounded(e, c, op.id, NewRequest(op, now)); }
  }

  /** In every reachable state at most five requests are pending, and at most one per address
      and app. */
  lemma {:induction false} RunBounded(env: Env, events: seq<Event>)
    ensures Bounded(Run(env, events))
  {
    if events == [] {
      assert PendingIds(START) == {};
    } else {
      hide Bounded, Step, AskStep;
      var last, b := events[|events| - 1], Run(env, events[..|events| - 1]);
      RunBounded(env, events[..|events| - 1]);
      if last.op.Ask? {
        AskBounded(env, b, last.now, last.op);
        AskIs(env, b, last.now, last.op);
      } else {
        StepMoves(env, b, last.now, last.op);
        FewerBounded(env, b, Step(env, b, last.now, last.op).1, last.op);
      }
    }
  }

  lemma AskIs(env: Env, b: Box, now: int, op: Op)
    requires op.Ask?
    ensures Step(env, b, now, op) == AskStep(env, b, now, op)
  {
  }

  // ----- ten per hour -----

  /** When requests of an address were accepted. */
  function AcceptedAt(env: Env, events: seq<Event>, address: string): seq<int> {
    if events == [] then []
    else
      var last := events[|events| - 1];
      AcceptedAt(env, events[..|events| - 1], address)
        + (if last.op.Ask? && last.op.address == address && Last(env, events) == Accepted then [last.now] else [])
  }

  predicate Ascending(times: seq<int>) { forall i, j :: 0 <= i <= j < |times| ==> times[i] <= times[j] }

  lemma {:induction false} RecentIsSuffix(times: seq<int>, now: int) returns (d: nat)
    requires Ascending(times)
    ensures d <= |times| && Recent(times, now) == times[d..]
    ensures forall i :: 0 <= i < d ==> now - times[i] >= HOUR
    ensures forall i :: d <= i < |times| ==> now - times[i] < HOUR
  {
    if times == [] || now - times[0] < HOUR {
      d := 0;
      AllRecent(times, now);
    } else {
      var k := RecentIsSuffix(times[1..], now);
      d := k + 1;
      assert times[1..][k..] == times[d..];
      assert forall i :: 0 < i < |times| ==> times[i] == times[1..][i - 1];
    }
  }

  lemma {:induction false} AllRecent(times: seq<int>, now: int)
    requires Ascending(times) && (times != [] ==> now - times[0] < HOUR)
    ensures Recent(times, now) == times
  {
    if times != [] { AllRecent(times[1..], now); }
  }

  /** The history holds the last acceptances; whatever it dropped is an hour older than the
      newest, and no eleven fall within an hour. */
  ghost predicate Paced(times: seq<int>, history: seq<int>, clock: int) {
    && Ascending(times) && (forall i :: 0 <= i < |times| ==> times[i] <= clock)
    && |history| <= |times| && history == times[|times| - |history|..]
    && (forall i :: 0 <= i < |times| - |history| ==> times[|times| - 1] - times[i] >= HOUR)
    && (forall i, j :: 0 <= i && i + PER_HOUR <= j < |times| ==> times[j] - times[i] >= HOUR)
  }

  lemma PacedLater(times: seq<int>, history: seq<int>, clock: int, later: int)
    requires Paced(times, history, clock) && clock <= later
    ensures Paced(times, history, later)
  {
  }

  lemma PacedAccepts(times: seq<int>, history: seq<int>, clock: int, now: int)
    requires Paced(times, history, clock) && clock <= now && |Recent(history, now)| < PER_HOUR
    ensures Paced(times + [now], Recent(history, now) + [now], now)
  {
    SuffixAscending(times, |times| - |history|);
    var d := RecentIsSuffix(history, now);
    hide Recent;
    StillOld(times, history, d, clock, now);
    PacedAppend(times, |times| - |history| + d, now);
  }

  lemma SuffixAscending(times: seq<int>, from: nat)
    requires Ascending(times) && from <= |times|
    ensures Ascending(times[from..])
  {
  }

  lemma StillOld(times: seq<int>, history: seq<int>, d: nat, clock: int, now: int)
    requires Paced(times, history, clock) && clock <= now && d <= |history|
    requires forall i :: 0 <= i < d ==> now - history[i] >= HOUR
    ensures var from := |times| - |history|;
      && history[d..] == times[from + d..] && (forall i :: 0 <= i < |times| ==> times[i] <= now)
      && forall i :: 0 <= i < from + d ==> now - times[i] >= HOUR
  {
    var from := |times| - |history|;
    forall i | 0 <= i < from + d ensures now - times[i] >= HOUR {
      if i >= from { assert times[i] == history[i - from]; }
    }
  }

  lemma PacedAppend(times: seq<int>, dropped: nat, now: int)
    requires Ascending(times) && (forall i :: 0 <= i < |times| ==> times[i] <= now)
    requires dropped <= |times| < dropped + PER_HOUR && forall i :: 0 <= i < dropped ==> now - times[i] >= HOUR
    requires forall i, j :: 0 <= i && i + PER_HOUR <= j < |times| ==> times[j] - times[i] >= HOUR
    ensures Paced(times + [now], times[dropped..] + [now], now)
  {
    var all, history := times + [now], times[dropped..] + [now];
    assert history == all[|all| - |history|..];
  }

  lemma HistoryStep(env: Env, b: Box, now: int, op: Op, address: string)
    ensures var (a, b') := Step(env, b, now, op);
      if op.Ask? && a == Accepted && op.address == address then
        |Recent(History(b, address), now)| < PER_HOUR
            && History(b', address) == Recent(History(b, address), now) + [now]
      else History(b', address) == History(b, address)
  {
    hide Recent, TN.FreeName, TN.Slug, TN.TakenNames, Opens, AppName, Aged, Key, PendingIds;
  }

  lemma {:induction false} RunPaced(env: Env, events: seq<Event>, address: string)
    requires Clocked(events)
    ensures var clock := if events == [] then 0 else events[|events| - 1].now;
      Paced(AcceptedAt(env, events, address), History(Run(env, events), address), clock)
  {
    if events != [] {
      hide Step, Recent, Paced, History;
      var front, last := events[..|events| - 1], events[|events| - 1];
      RunPaced(env, front, address);
      var times, b := AcceptedAt(env, front, address), Run(env, front);
      var clock := if front == [] then last.now else front[|front| - 1].now;
      if front == [] { EmptyPaced(env, address, last.now); }
      HistoryStep(env, b, last.now, last.op, address);
      if last.op.Ask? && Last(env, events) == Accepted && last.op.address == address {
        PacedAccepts(times, History(b, address), clock, last.now);
      } else {
        PacedLater(times, History(b, address), clock, last.now);
        assert AcceptedAt(env, events, address) == times + [] == times;
      }
    } else {
      EmptyPaced(env, address, 0);
    }
  }

  lemma EmptyPaced(env: Env, address: string, clock: int)
    ensures Paced(AcceptedAt(env, [], address), History(Run(env, []), address), clock)
  {
  }

  /** Any two acceptances less than an hour apart have at most eight between them: no window of
      an hour holds more than ten. */
  lemma TenPerHour(env: Env, events: seq<Event>, address: string, i: nat, j: nat)
    requires Clocked(events) && i <= j < |AcceptedAt(env, events, address)|
    requires AcceptedAt(env, events, address)[j] - AcceptedAt(env, events, address)[i] < HOUR
    ensures j - i < PER_HOUR
  {
    RunPaced(env, events, address);
  }

  // ----- muting -----

  /** Muting only ever moves later. */
  ghost predicate MutesHold(before: map<string, int>, after: map<string, int>, now: int) {
    forall k :: k in before && before[k] <= now + MUTE ==> k in after && before[k] <= after[k] <= now + MUTE
  }

  lemma MuteStep(env: Env, b: Box, now: int, op: Op)
    ensures MutesHold(b.muted, Step(env, b, now, op).1.muted, now)
  {
    hide AskStep, PollStep, WakeStep, ApproveStep;
    match op
    case Ask(_, _, _, _, _, _, _, _, _) => AskLeavesMutes(env, b, now, op);
    case Poll(_, _, _, _) => PollLeavesMutes(env, b, now, op);
    case Wake(id, secret) => WakeLeavesMutes(env, b, now, id, secret);
    case Approve(_, _, _) => ApproveMutes(env, b, now, op);
    case _ =>
  }

  lemma AskLeavesMutes(env: Env, b: Box, now: int, op: Op)
    requires op.Ask?
    ensures AskStep(env, b, now, op).1.muted == b.muted
  {
    hide Recent, AppName;
  }

  lemma PollLeavesMutes(env: Env, b: Box, now: int, op: Op)
    requires op.Poll?
    ensures PollStep(env, b, now, op).1.muted == b.muted
  {
    hide Opens, Aged;
  }

  lemma WakeLeavesMutes(env: Env, b: Box, now: int, id: string, secret: string)
    ensures WakeStep(env, b, now, id, secret).1.muted == b.muted
  {
  }

  lemma ApproveMutes(env: Env, b: Box, now: int, op: Op)
    requires op.Approve?
    ensures MutesHold(b.muted, ApproveStep(env, b, now, op).1.muted, now)
  {
    hide TN.FreeName, TN.Slug, TN.TakenNames;
  }

  lemma {:induction false} MuteStays(env: Env, events: seq<Event>, n: nat, key: string)
    requires Clocked(events) && 0 < n <= |events|
    requires var b := Run(env, events[..n]); key in b.muted && b.muted[key] <= events[n - 1].now + MUTE
    ensures var b, c := Run(env, events[..n]), Run(env, events);
      key in c.muted && b.muted[key] <= c.muted[key] <= events[|events| - 1].now + MUTE
  {
    if n == |events| {
      assert events[..n] == events;
    } else {
      hide Step;
      var front, last := events[..|events| - 1], events[|events| - 1];
      assert front[..n] == events[..n];
      MuteStays(env, front, n, key);
      MuteStep(env, Run(env, front), last.now, last.op);
    }
  }

  /** The event rejects the request: by hand, or with a wrong code. */
  ghost predicate Rejects(env: Env, events: seq<Event>, n: nat, address: string, app: string)
    requires 0 < n <= |events|
  {
    var op, a, b := events[n - 1].op, Last(env, events[..n]), Run(env, events[..n - 1]);
    && ((op.Reject? && a == Done && op.id in b.requests && Key(b.requests[op.id]) == KeyOf(address, app))
        || (op.Approve? && a == WrongCode && op.id in b.requests && Key(b.requests[op.id]) == KeyOf(address, app)))
  }

  lemma RejectMutes(env: Env, b: Box, now: int, op: Op)
    requires (op.Reject? && Step(env, b, now, op).0 == Done) || (op.Approve? && Step(env, b, now, op).0 == WrongCode)
    requires op.id in b.requests
    ensures Key(b.requests[op.id]) in Step(env, b, now, op).1.muted
    ensures Step(env, b, now, op).1.muted[Key(b.requests[op.id])] == now + MUTE
  {
    hide TN.FreeName, TN.Slug, TN.TakenNames;
  }

  lemma MutedIsLimited(env: Env, b: Box, now: int, op: Op)
    requires op.Ask? && KeyOf(op.address, op.app) in b.muted && now < b.muted[KeyOf(op.address, op.app)]
    ensures Step(env, b, now, op).0 != Accepted
  {
    hide Recent, AppName;
  }

  /** For ten minutes after a rejection no request of that app from that address is accepted,
      whatever happens in between. */
  lemma MuteHolds(env: Env, events: seq<Event>, n: nat, now: int, op: Op)
    requires Clocked(events) && 0 < n <= |events| && op.Ask? && Rejects(env, events, n, op.address, op.app)
    requires now < events[n - 1].now + MUTE
    ensures Step(env, Run(env, events), now, op).0 != Accepted
  {
    hide Step;
    var front := events[..n];
    assert front[..|front| - 1] == events[..n - 1];
    RejectMutes(env, Run(env, events[..n - 1]), events[n - 1].now, events[n - 1].op);
    MuteStays(env, events, n, KeyOf(op.address, op.app));
    MutedIsLimited(env, Run(env, events), now, op);
  }
}
