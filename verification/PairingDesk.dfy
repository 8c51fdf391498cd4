/** The pairing bookkeeping in its own form: request records changed in place under one lock;
    each locked section proved against its step. */
module PairingDesk {
  import opened Collections
  import opened Pairing
  import TN = TokenName

  class Record {
    var r: Request

    constructor (request: Request)
      ensures r == request
    {
      r := request;
    }
  }

  ghost function Contents(records: map<string, Record>): map<string, Request>
    reads records.Values
  {
    map id | id in records :: records[id].r
  }

  /** Expiry done for every request but those left. */
  function Expiring(env: Env, requests: map<string, Request>, now: int, left: set<string>): map<string, Request> {
    map id | id in requests && (id in left || now <= requests[id].terms.created + env.lifetime + env.keep)
      :: if id in left then requests[id] else Aged(env, requests[id], now)
  }

  lemma ExpiringEnds(env: Env, b: Box, now: int)
    ensures Expiring(env, b.requests, now, b.requests.Keys) == b.requests
    ensures b.(requests := Expiring(env, b.requests, now, {})) == Expire(env, b, now)
  {
  }

  lemma ExpiringStep(env: Env, requests: map<string, Request>, now: int, left: set<string>, id: string)
    requires id in left && left <= requests.Keys
    ensures var before, after := Expiring(env, requests, now, left), Expiring(env, requests, now, left - {id});
      && id in before && before[id] == requests[id]
      && after ==
         if now > requests[id].terms.created + env.lifetime + env.keep then before - {id}
         else before[id := Aged(env, requests[id], now)]
  {
  }

  class Desk {
    const env: Env
    var disabled: bool
    var requests: map<string, Record>
    var history: map<string, seq<int>>
    var muted: map<string, int>
    /** Long polls waiting for their request to change. */
    ghost var parked: multiset<Waiter>
    const tokens: TN.Tokens

    ghost predicate Valid()
      reads this
    {
      forall i, j :: i in requests && j in requests && requests[i] == requests[j] ==> i == j
    }

    ghost function State(): Box
      reads this, requests.Values, tokens
    {
      Box(disabled, Contents(requests), history, muted, parked, tokens.tokens)
    }

    constructor (e: Env)
      ensures Valid() && env == e && State() == START
    {
      env := e;
      disabled := false;
      requests, history, muted := map[], map[], map[];
      parked := multiset{};
      tokens := new TN.Tokens();
    }

    // ----- single changes -----

    method Change(id: string, r: Request)
      requires Valid() && id in requests
      modifies requests[id]
      ensures Valid() && State() == Put(old(State()), id, r)
    {
      requests[id].r := r;
      assert Contents(requests) == old(Contents(requests))[id := r];
    }

    method Add(id: string, r: Request)
      requires Valid()
      modifies this`requests
      ensures Valid() && fresh(requests.Values - old(requests.Values)) && State() == Put(old(State()), id, r)
    {
      var record := new Record(r);
      requests := requests[id := record];
      assert Contents(requests) == old(Contents(requests))[id := r];
    }

    method Drop(id: string)
      requires Valid()
      modifies this`requests
      ensures Valid() && requests.Values <= old(requests.Values)
      ensures requests.Keys == old(requests.Keys) - {id}
      ensures State() == old(State()).(requests := old(State()).requests - {id})
    {
      requests := requests - {id};
      assert Contents(requests) == old(Contents(requests)) - {id};
    }

    method Look(id: string) returns (r: Option<Request>)
      ensures r == if id in State().requests then Some(State().requests[id]) else None
      ensures id in requests <==> id in State().requests
      ensures State() == old(State())
    {
      r := if id in requests then Some(requests[id].r) else None;
    }

    method Mute(key: string, until: int)
      requires Valid()
      modifies this`muted
      ensures Valid() && State() == old(State()).(muted := old(State()).muted[key := until])
    {
      muted := muted[key := until];
    }

    method Note(address: string, times: seq<int>)
      requires Valid()
      modifies this`history
      ensures Valid() && State() == old(State()).(history := old(State()).history[address := times])
    {
      history := history[address := times];
    }

    method Park(w: Waiter, on: bool)
      requires Valid()
      modifies this`parked
      ensures Valid()
      ensures State() == old(State()).(parked := if on then old(State()).parked + multiset{w}
          else old(State()).parked - multiset{w})
    {
      parked := if on then parked + multiset{w} else parked - multiset{w};
    }

    // ----- expiry -----

    /** Over the requests in whatever order. */
    method ExpireLocked(now: int)
      requires Valid()
      modifies this`requests, requests.Values
      ensures Valid() && requests.Values <= old(requests.Values)
      ensures State() == Expire(env, old(State()), now)
    {
      ghost var b := State();
      ExpiringEnds(env, b, now);
      var left := Ids();
      hide State, Valid, Contents, Expire, Expiring, Aged;
      while left != {}
        invariant Valid() && requests.Values <= old(requests.Values) && left <= b.requests.Keys
        invariant State() == b.(requests := Expiring(env, b.requests, now, left))
      {
        var id :| id in left;
        ExpiringStep(env, b.requests, now, left, id);
        var r := Look(id);
        if now > r.value.terms.created + env.lifetime + env.keep {
          Drop(id);
        } else {
          assert r.value == b.requests[id];
          Age(id, r.value, now);
        }
        left := left - {id};
      }
    }

    method Ids() returns (ids: set<string>)
      ensures ids == State().requests.Keys && State() == old(State())
    {
      ids := requests.Keys;
    }

    /** An overdue request expires. */
    method Age(id: string, r: Request, now: int)
      requires Valid() && id in requests && id in State().requests && r == State().requests[id]
      modifies requests[id]
      ensures Valid() && State() == Put(old(State()), id, Aged(env, r, now))
    {
      if r.standing == Pending && now > r.terms.created + env.lifetime {
        Change(id, r.(standing := Expired));
      } else {
        Unchanged(State(), id);
      }
    }

    // ----- asking -----

    /** Is a request with this key pending, and if not, how many are? */
    method Scan(key: string) returns (busy: bool, pending: nat)
      requires Valid()
      ensures State() == old(State())
      ensures busy <==> exists id ::
          id in State().requests && State().requests[id].standing == Pending && Key(State().requests[id]) == key
      ensures !busy ==> pending == |PendingIds(State())|
    {
      ghost var b := State();
      ghost var seen: set<string> := {};
      var left := Ids();
      hide State, Valid, Contents, Key;
      pending := 0;
      while left != {}
        invariant State() == b && left <= b.requests.Keys
        invariant seen == set id | id in b.requests && id !in left && b.requests[id].standing == Pending
        invariant pending == |seen| && forall id :: id in seen ==> Key(b.requests[id]) != key
      {
        var id :| id in left;
        var r := Look(id);
        left := left - {id};
        if r.value.standing == Pending {
          if Key(r.value) == key { return true, pending; }
          pending := pending + 1;
          seen := seen + {id};
        }
      }
      assert seen == PendingIds(b);
      busy := false;
    }

    method RecentTimes(address: string, now: int) returns (recent: seq<int>)
      ensures recent == Recent(History(State(), address), now) && State() == old(State())
    {
      recent := WithinHour(if address in history then history[address] else [], now);
    }

    method IsMuted(key: string, now: int) returns (quiet: bool)
      ensures quiet <==> key in State().muted && now < State().muted[key]
      ensures State() == old(State())
    {
      quiet := key in muted && now < muted[key];
    }

    method IsDisabled() returns (off: bool)
      ensures off == State().disabled && State() == old(State())
    {
      off := disabled;
    }

    method HandleAsk(now: int, op: Op) returns (a: Answer)
      requires Valid() && op.Ask?
      modifies this, requests.Values
      ensures Valid() && (a, State()) == AskStep(env, old(State()), now, op)
    {
      hide State, Valid, Contents, Expire, Recent, AppName, Key, KeyOf, PendingIds;
      if !op.valid || !AppName(op.app) { return Invalid; }
      var off := IsDisabled();
      if off { return Off; }
      ExpireLocked(now);
      var key := KeyOf(op.address, op.app);
      var busy, pending := Scan(key);
      if busy || pending >= MAX_PENDING { return Limit; }
      var quiet := IsMuted(key, now);
      if quiet { return Limit; }
      var recent := RecentTimes(op.address, now);
      if |recent| >= PER_HOUR { return Limit; }
      Note(op.address, recent + [now]);
      Add(op.id, NewRequest(op, now));
      a := Accepted;
    }

    // ----- polling -----

    method AnswerFor(id: string) returns (a: Answer)
      requires Valid() && id in requests && id in State().requests
      modifies requests[id]
      ensures Valid() && (a, State()) == AnswerStep(old(State()), id)
    {
      hide State, Valid, Contents;
      var r := Look(id);
      if r.value.standing != Approved { return StandingIs(r.value.standing); }
      if r.value.handedOut { return Unknown; }
      Change(id, r.value.(handedOut := true));
      a := TokenIs(r.value.token, r.value.tokenName, r.value.terms.scopes);
    }

    method HandlePoll(now: int, op: Op) returns (a: Answer)
      requires Valid() && op.Poll?
      modifies this, requests.Values
      ensures Valid() && (a, State()) == PollStep(env, old(State()), now, op)
    {
      hide State, Valid, Contents, Expire, Opens, AnswerStep;
      ExpireLocked(now);
      var r := Look(op.id);
      if r.None? { return Unknown; }
      if op.secret != r.value.terms.poll { return Forbidden; }
      match op.offered {
        case BadHex => return Invalid;
        case NoNonce =>
          if r.value.revealed.None? { return Invalid; }
          Unchanged(State(), op.id);
        case Nonce(bs) =>
          if !Opens(env, r.value.terms, bs) { return Invalid; }
          Change(op.id, r.value.(revealed := Some(bs)));
      }
      a := WaitFor(now, op.id, op.secret, op.wait);
    }

    method WaitFor(now: int, id: string, secret: string, wait: Wait) returns (a: Answer)
      requires Valid() && id in requests && id in State().requests
      modifies this`parked, requests[id]
      ensures Valid() && (a, State()) == WaitStep(env, old(State()), now, id, secret, wait)
    {
      hide State, Valid, Contents, AnswerStep;
      var r := Look(id);
      if wait == BadWait { return Invalid; }
      if wait.millis == 0 && r.value.lastPoll.Some? && now - r.value.lastPoll.value < env.interval { return SlowDown; }
      Change(id, r.value.(lastPoll := Some(now)));
      if wait.millis > 0 && r.value.standing == Pending {
        Park(Waiter(id, secret), true);
        return Parked;
      }
      a := AnswerFor(id);
    }

    /** A parked poll goes on: woken, or out of time. */
    method HandleWake(now: int, id: string, secret: string) returns (a: Answer)
      requires Valid() && Waiter(id, secret) in parked && Waiter(id, secret) in State().parked
      modifies this, requests.Values
      ensures Valid() && (a, State()) == WakeStep(env, old(State()), now, id, secret)
    {
      hide State, Valid, Contents, Expire, AnswerStep;
      ghost var b := State();
      ExpireKeepsParked(env, b, now);
      ExpireLocked(now);
      Park(Waiter(id, secret), false);
      var r := Look(id);
      if r.None? { return Unknown; }
      a := AnswerFor(id);
    }

    method HandleDelete(now: int, id: string, secret: string) returns (a: Answer)
      requires Valid()
      modifies this, requests.Values
      ensures Valid() && (a, State()) == Step(env, old(State()), now, Withdraw(id, secret))
    {
      hide State, Valid, Contents, Expire;
      ExpireLocked(now);
      var r := Look(id);
      if r.None? { return Unknown; }
      if secret != r.value.terms.poll { return Forbidden; }
      Drop(id);
      a := Done;
    }

    // ----- the administrator -----

    /** Rejected, and its app muted. */
    method Turn(id: string, r: Request, now: int)
      requires Valid() && id in requests && id in State().requests && r == State().requests[id]
      modifies this`muted, requests[id]
      ensures Valid() && State() == Muted(old(State()), id, now)
    {
      hide State, Valid, Contents, Key;
      Change(id, r.(standing := Rejected));
      Mute(Key(r), now + MUTE);
    }

    method Grant(id: string, r: Request, token: string) returns (name: string)
      requires Valid() && id in requests && id in State().requests && r == State().requests[id]
      modifies requests[id], tokens
      ensures Valid() && name == TN.FreeName(TN.TakenNames(old(State()).tokens), TN.Slug(r.terms.base))
      ensures State() == Put(old(State()), id, r.(standing := Approved, token := token, tokenName := name))
                           .(tokens := old(State()).tokens[token := TN.Entry(name, r.terms.scopes)])
    {
      hide TN.FreeName, TN.Slug, TN.TakenNames;
      name := tokens.AddPairedToken(token, r.terms.base, r.terms.scopes);
      requests[id].r := r.(standing := Approved, token := token, tokenName := name);
      assert Contents(requests) == old(Contents(requests))[id := requests[id].r];
    }

    method ApprovePairing(now: int, op: Op) returns (a: Answer)
      requires Valid() && op.Approve?
      modifies this, requests.Values, tokens
      ensures Valid() && (a, State()) == ApproveStep(env, old(State()), now, op)
    {
      hide State, Valid, Contents, Expire, Muted, TN.FreeName, TN.Slug, TN.TakenNames;
      ExpireLocked(now);
      var r := Look(op.id);
      if r.None? || r.value.standing != Pending { return Unknown; }
      if r.value.revealed.None? { return NotReady; }
      if op.code != env.code(r.value.terms.nonce, r.value.revealed.value) {
        Turn(op.id, r.value, now);
        return WrongCode;
      }
      var name := Grant(op.id, r.value, op.token);
      a := Granted(name);
    }

    method RejectPairing(now: int, id: string) returns (a: Answer)
      requires Valid()
      modifies this, requests.Values
      ensures Valid() && (a, State()) == Step(env, old(State()), now, Reject(id))
    {
      hide State, Valid, Contents, Muted;
      var r := Look(id);
      if r.None? || r.value.standing != Pending { return Unknown; }
      Turn(id, r.value, now);
      a := Done;
    }

    method SetEnabled(on: bool)
      requires Valid()
      modifies this`disabled
      ensures Valid() && State() == old(State()).(disabled := !on)
    {
      disabled := !on;
    }
  }

  method WithinHour(times: seq<int>, now: int) returns (recent: seq<int>)
    ensures recent == Recent(times, now)
  {
    hide Recent;
    recent := [];
    assert times[0..] == times;
    for i := 0 to |times|
      invariant recent + Recent(times[i..], now) == Recent(times, now)
    {
      RecentStep(times, i, now);
      if now - times[i] < HOUR { recent := recent + [times[i]]; }
    }
    RecentStep(times, |times|, now);
  }

  lemma RecentStep(times: seq<int>, i: nat, now: int)
    requires i <= |times|
    ensures Recent(times[i..], now)
         == if i == |times| then []
             else (if now - times[i] < HOUR then [times[i]] else []) + Recent(times[i + 1..], now)
  {
    if i < |times| { assert times[i..][1..] == times[i + 1..]; }
  }

  lemma ExpireKeepsParked(env: Env, b: Box, now: int)
    ensures Expire(env, b, now).parked == b.parked
  {
  }
}
