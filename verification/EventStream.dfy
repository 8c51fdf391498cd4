/** One event stream over the ring: what it writes, turn by turn, and what that says about
    every message published while it was attached, under every interleaving with publishers,
    other streams, forced gaps and overflows, and restarts. */
module EventStream {
  import opened Collections
  import opened EventRing

  // ----- filters -----

  datatype Filter = Filter(ifaces: set<string>, addresses: seq<string>, keys: set<string>, types: set<string>)

  predicate InSet(s: set<string>, v: string) { s == {} || v in s }

  predicate MatchAddress(f: Filter, address: string) {
    f.addresses == [] || exists i ::
        0 <= i < |f.addresses| && (address == f.addresses[i] || f.addresses[i] + ":" <= address)
  }

  /** All kinds must match, any value within a kind; hello and resync always pass, and address
      and key apply to events and states only. */
  predicate Match(f: Filter, m: Message) {
    m.typ == "hello" || m.typ == "resync"
    || (InSet(f.types, m.typ) && InSet(f.ifaces, m.iface)
        && (m.typ == "event" || m.typ == "state" ==> MatchAddress(f, m.address) && InSet(f.keys, m.key)))
  }

  function Matching(f: Filter, ms: seq<Message>): seq<Message> {
    if ms == [] then []
    else Matching(f, ms[..|ms| - 1]) + (if Match(f, ms[|ms| - 1]) then [ms[|ms| - 1]] else [])
  }

  // ----- frames -----

  datatype Frame = Connected | Ping | Data(id: string, typ: string, data: string)

  datatype Reason = Boot | Gap | Overflow

  function ReasonData(r: Reason): string {
    match r
    case Boot => "{\"reason\":\"boot\"}"
    case Gap => "{\"reason\":\"gap\"}"
    case Overflow => "{\"reason\":\"overflow\"}"
  }

  function ResyncFrame(r: Reason): Frame { Data("", "resync", ReasonData(r)) }

  function MessageFrame(boot: string, m: Message): Frame { Data(IdOf(boot, m.no), m.typ, m.data) }

  function Frames(boot: string, ms: seq<Message>): seq<Frame> {
    if ms == [] then [] else Frames(boot, ms[..|ms| - 1]) + [MessageFrame(boot, ms[|ms| - 1])]
  }

  /** The frames that carry data, heartbeats and the greeting comment left out. */
  function DataFrames(frames: seq<Frame>): seq<Frame> {
    if frames == [] then []
    else DataFrames(frames[..|frames| - 1]) + (if frames[|frames| - 1].Data? then [frames[|frames| - 1]] else [])
  }

  lemma DataAppend(frames: seq<Frame>, f: Frame)
    ensures DataFrames(frames + [f]) == DataFrames(frames) + (if f.Data? then [f] else [])
  {
    assert (frames + [f])[..|frames|] == frames;
  }

  lemma MatchingAppend(f: Filter, ms: seq<Message>, m: Message)
    ensures Matching(f, ms + [m]) == Matching(f, ms) + (if Match(f, m) then [m] else [])
  {
    assert (ms + [m])[..|ms|] == ms;
  }

  lemma FramesAppend(boot: string, ms: seq<Message>, m: Message)
    ensures Frames(boot, ms + [m]) == Frames(boot, ms) + [MessageFrame(boot, m)]
  {
    assert (ms + [m])[..|ms|] == ms;
  }

  lemma NothingMatches(boot: string, f: Filter)
    ensures Frames(boot, Matching(f, [])) == []
  {
  }

  function Notice(resync: Resync): seq<Frame> {
    match resync
    case NoResync => []
    case BootResync => [ResyncFrame(Boot)]
    case GapResync => [ResyncFrame(Gap)]
  }

  /** ": connected", hello, a resync or the replay that passes the filter. */
  function OpeningFrames(boot: string, at: nat, opening: Resumption, f: Filter, hello: string): seq<Frame> {
    [Connected, Data(IdOf(boot, at), "hello", hello)]
    + Notice(opening.resync)
    + Frames(boot, Matching(f, opening.replay))
  }

  // ----- one turn of the live loop -----

  /** What the loop works on: the reader's queue and loss counter, and its own output. */
  datatype Live = Live(queue: seq<Message>, dropped: nat, frames: seq<Frame>, open: bool)

  /** A failed write ends the stream. */
  function Write(l: Live, f: Frame, writeOk: bool): Live {
    if writeOk then l.(frames := l.frames + [f]) else l.(open := false)
  }

  function ReceiveTurn(l: Live, boot: string, f: Filter, writeOk: bool): Live {
    if !l.open || l.queue == [] then l
    else
      var m, rest := l.queue[0], l.(queue := l.queue[1..]);
      if Match(f, m) then Write(rest, MessageFrame(boot, m), writeOk) else rest
  }

  /** A heartbeat tick: report a loss and end, end on a revoked credential, or ping. */
  function TickTurn(l: Live, valid: bool, writeOk: bool): Live {
    if !l.open then l
    else if l.dropped > 0 then Write(l, ResyncFrame(Overflow), writeOk).(open := false)
    else if !valid then l.(open := false)
    else Write(l, Ping, writeOk)
  }

  // ----- the system: the ring, and one arbitrary stream on it -----

  /** `published` is every message published while the stream was attached and `fate` whether
      each was queued; `taken` is what the loop took off the queue. */
  datatype Stream = Stream(boot: string, epoch: nat, at: nat, since: Option<nat>, opening: Resumption, filter: Filter,
                           hello: string, cap: nat, live: Live, killed: bool, attached: bool, broken: bool,
                           taken: seq<Message>, published: seq<Message>, fate: seq<bool>)

  /** `all` is every message published since the last restart, `epoch` counts restarts. */
  datatype System = System(core: Core, all: seq<Message>, epoch: nat, clock: int, stream: Option<Stream>)

  datatype Action =
    | DoPublish(now: int, draft: Draft)
    | DoOtherAttach(now: int)
    | DoAttach(now: int, lastEventId: Option<string>, cap: nat, filter: Filter, hello: string, room: nat)
    | DoReceive(writeOk: bool)
    | DoTick(valid: bool, tickWriteOk: bool)
    | DoEnd
    | DoDetach
    | DoForceGap
    | DoForceOverflow
    | DoDropStreams
    | DoRestart(boot: string)

  function Offered(s: Stream, m: Message): Stream {
    if !s.attached then s
    else if |s.live.queue| < s.cap then
      s.(live := s.live.(queue := s.live.queue + [m]), published := s.published + [m], fate := s.fate + [true])
    else
      s.(live := s.live.(dropped := s.live.dropped + 1), published := s.published + [m], fate := s.fate + [false])
  }

  function OnStream(sys: System, f: Stream -> Stream): System {
    if sys.stream.None? then sys else sys.(stream := Some(f(sys.stream.value)))
  }

  /** The opening is written frame by frame; after `room` of them a write fails, which ends it. */
  function Written(opening: seq<Frame>, room: nat): Live {
    if |opening| <= room then Live([], 0, opening, true) else Live([], 0, opening[..room], false)
  }

  function Opened(core: Core, epoch: nat, lastEventId: Option<string>, cap: nat, filter: Filter, hello: string,
                  room: nat): Stream
  {
    var opening := if lastEventId.Some? then Resume(core, lastEventId.value) else Resumption([], NoResync);
    var since := if lastEventId.Some? then Position(core, lastEventId.value) else None;
    var live := Written(OpeningFrames(core.boot, core.last, opening, filter, hello), room);
    Stream(core.boot, epoch, core.last, since, opening, filter, hello, cap, live, false, true, !live.open, [], [], [])
  }

  function Received(s: Stream, writeOk: bool): Stream {
    if !s.live.open || s.live.queue == [] then s
    else
      var m := s.live.queue[0];
      s.(live := ReceiveTurn(s.live, s.boot, s.filter, writeOk), taken := s.taken + [m],
         broken := s.broken || (Match(s.filter, m) && !writeOk))
  }

  /** Every lock-protected operation and every turn of the loop is one step. The clock does
      not run backwards. */
  function Step(sys: System, a: Action): System {
    match a
    case DoPublish(now, d) =>
      if now < sys.clock then sys
      else
        var m := Render(sys.core, now, d);
        OnStream(sys.(core := Published(sys.core, now, d), all := sys.all + [m], clock := now), s => Offered(s, m))
    case DoOtherAttach(now) => if now < sys.clock then sys else sys.(core := Prune(sys.core, now), clock := now)
    case DoAttach(now, id, cap, f, hello, room) =>
      if now < sys.clock || sys.stream.Some? then sys
      else
        var core := Prune(sys.core, now);
        sys.(core := core, clock := now, stream := Some(Opened(core, sys.epoch, id, cap, f, hello, room)))
    case DoReceive(writeOk) => OnStream(sys, s => Received(s, writeOk))
    case DoTick(valid, writeOk) =>
      OnStream(sys, (s: Stream) => s.(live := TickTurn(s.live, valid, writeOk),
                                      broken := s.broken || (s.live.open && s.live.dropped > 0 && !writeOk)))
    case DoEnd => OnStream(sys, (s: Stream) => s.(live := s.live.(open := false)))
    case DoDetach => OnStream(sys, (s: Stream) => if s.live.open then s else s.(attached := false, killed := true))
    case DoForceGap => sys.(core := sys.core.(msgs := []))
    case DoForceOverflow =>
      OnStream(sys, (s: Stream) => if s.attached then s.(live := s.live.(dropped := s.live.dropped + 1)) else s)
    case DoDropStreams => OnStream(sys, (s: Stream) => if s.attached then s.(killed := true) else s)
    case DoRestart(boot) =>
      OnStream(sys.(core := Restarted(sys.core, boot), all := [], epoch := sys.epoch + 1),
               (s: Stream) => if s.attached then s.(killed := true) else s)
  }

  function Run(sys: System, actions: seq<Action>): System
    decreases |actions|
  {
    if actions == [] then sys else Run(Step(sys, actions[0]), actions[1..])
  }

  function Start(boot: string, maxEvents: nat, maxAge: nat, clock: int): System {
    System(Core(boot, 0, [], maxEvents, maxAge), [], 0, clock, None)
  }

  // ----- the invariant -----

  /** The messages queued, of those published. */
  function Queued(ms: seq<Message>, fate: seq<bool>): seq<Message>
    requires |fate| == |ms|
  {
    if ms == [] then []
    else Queued(ms[..|ms| - 1], fate[..|ms| - 1]) + (if fate[|ms| - 1] then [ms[|ms| - 1]] else [])
  }

  function Lost(fate: seq<bool>): nat {
    if fate == [] then 0 else Lost(fate[..|fate| - 1]) + (if fate[|fate| - 1] then 0 else 1)
  }

  lemma QueuedAppend(ms: seq<Message>, fate: seq<bool>, m: Message, kept: bool)
    requires |fate| == |ms|
    ensures Queued(ms + [m], fate + [kept]) == Queued(ms, fate) + (if kept then [m] else [])
    ensures Lost(fate + [kept]) == Lost(fate) + (if kept then 0 else 1)
  {
    assert (ms + [m])[..|ms|] == ms && (fate + [kept])[..|ms|] == fate;
  }

  lemma {:induction false} NoneLost(ms: seq<Message>, fate: seq<bool>)
    requires |fate| == |ms| && Lost(fate) == 0
    ensures Queued(ms, fate) == ms
  {
    if ms != [] {
      NoneLost(ms[..|ms| - 1], fate[..|ms| - 1]);
      assert ms == ms[..|ms| - 1] + [ms[|ms| - 1]];
    }
  }

  ghost predicate RingInv(sys: System) {
    && Tail(sys.core, sys.all)
    && Ordered(sys.core.msgs, sys.clock)
    && |sys.core.msgs| <= sys.core.maxEvents
  }

  /** Bookkeeping of one stream: what was taken and what is queued is what was not lost, and
      every loss is counted. */
  ghost predicate FlowInv(s: Stream) {
    && |s.fate| == |s.published|
    && s.taken + s.live.queue == Queued(s.published, s.fate)
    && Lost(s.fate) <= s.live.dropped
    && |s.live.queue| <= s.cap
  }

  /** What has been written: the opening, then every taken message that passes the filter, and
      at most one closing overflow. */
  ghost predicate WrittenInv(s: Stream) {
    var opening := DataFrames(OpeningFrames(s.boot, s.at, s.opening, s.filter, s.hello));
    var sent := opening + Frames(s.boot, Matching(s.filter, s.taken));
    !s.broken ==>
      DataFrames(s.live.frames) == sent
      || (!s.live.open && s.live.dropped > 0 && DataFrames(s.live.frames) == sent + [ResyncFrame(Overflow)])
  }

  ghost predicate OpenInv(s: Stream) {
    var sent := DataFrames(OpeningFrames(s.boot, s.at, s.opening, s.filter, s.hello)) + 
        Frames(s.boot, Matching(s.filter, s.taken));
    s.live.open ==> s.attached && !s.broken && DataFrames(s.live.frames) == sent
  }

  /** Until the next restart, replay and live messages line up with everything published. */
  ghost predicate PlaceInv(sys: System, s: Stream) {
    && s.epoch <= sys.epoch
    && (s.epoch == sys.epoch ==>
          && s.boot == sys.core.boot
          && s.at <= |sys.all|
          && (s.attached ==> s.published == sys.all[s.at..])
          && s.opening.replay == sys.all[From(s)..s.at])
  }

  /** Where a stream begins: after the position it came with if that could be resumed, and at its
      attach without a position, after a resync, or with a position beyond the newest. */
  function From(s: Stream): (from: nat)
    ensures from <= s.at
  {
    if s.since.Some? && s.opening.resync == NoResync && s.since.value < s.at then s.since.value else s.at
  }

  ghost predicate Inv(sys: System) {
    && RingInv(sys)
    && (sys.stream.Some? ==>
          FlowInv(sys.stream.value) && WrittenInv(sys.stream.value) && OpenInv(sys.stream.value)
              && PlaceInv(sys, sys.stream.value))
  }

  lemma OfferedKeeps(s: Stream, m: Message)
    requires FlowInv(s)
    ensures FlowInv(Offered(s, m))
  {
    if s.attached {
      QueuedAppend(s.published, s.fate, m, |s.live.queue| < s.cap);
      assert s.taken + (s.live.queue + [m]) == s.taken + s.live.queue + [m];
      assert s.taken + s.live.queue + [] == s.taken + s.live.queue;
    }
  }

  lemma ReceivedKeeps(s: Stream, writeOk: bool)
    requires FlowInv(s) && WrittenInv(s) && OpenInv(s)
    ensures var s' := Received(s, writeOk); FlowInv(s') && WrittenInv(s') && OpenInv(s')
  {
    if s.live.open && s.live.queue != [] {
      var m := s.live.queue[0];
      assert s.taken + [m] + s.live.queue[1..] == s.taken + s.live.queue;
      MatchingAppend(s.filter, s.taken, m);
      FramesAppend(s.boot, Matching(s.filter, s.taken), m);
      DataAppend(s.live.frames, MessageFrame(s.boot, m));
      var opening := DataFrames(OpeningFrames(s.boot, s.at, s.opening, s.filter, s.hello));
      hide DataFrames, Matching, Frames, OpeningFrames, Queued;
      if !Match(s.filter, m) {
        assert Matching(s.filter, s.taken) + [] == Matching(s.filter, s.taken);
      }
      assert opening + (Frames(s.boot, Matching(s.filter, s.taken)) + [MessageFrame(s.boot, m)])
          == opening + Frames(s.boot, Matching(s.filter, s.taken)) + [MessageFrame(s.boot, m)];
    }
  }

  lemma TickKeeps(s: Stream, valid: bool, writeOk: bool)
    requires FlowInv(s) && WrittenInv(s) && OpenInv(s)
    ensures var s' := s.(live := TickTurn(s.live, valid, writeOk),
                         broken := s.broken || (s.live.open && s.live.dropped > 0 && !writeOk));
            FlowInv(s') && WrittenInv(s') && OpenInv(s')
  {
    DataAppend(s.live.frames, Ping);
    DataAppend(s.live.frames, ResyncFrame(Overflow));
    assert DataFrames(s.live.frames) + [] == DataFrames(s.live.frames);
  }

  lemma OpenedKeeps(core: Core, all: seq<Message>, epoch: nat, id: Option<string>, cap: nat, f: Filter, hello: string,
                    room: nat)
    requires Tail(core, all)
    ensures var s := Opened(core, epoch, id, cap, f, hello, room);
            FlowInv(s) && WrittenInv(s) && OpenInv(s)
            && s.at == |all| && s.published == all[s.at..]
            && s.opening.replay == all[From(s)..s.at]
  {
    if id.Some? { ResumeExact(core, all, id.value); }
    var s := Opened(core, epoch, id, cap, f, hello, room);
    assert s.taken + s.live.queue == [];
    var opening := DataFrames(OpeningFrames(s.boot, s.at, s.opening, f, hello));
    assert opening + Frames(s.boot, Matching(f, [])) == opening;
    assert all[|all|..] == [];
    if s.since.Some? && s.since.value < s.at { assert all[s.since.value..] == all[s.since.value..s.at]; }
  }

  /** Every step of every interleaving keeps the invariant. */
  lemma StepKeeps(sys: System, a: Action)
    requires Inv(sys)
    ensures Inv(Step(sys, a))
  {
    hide Tail, Ordered, FlowInv, WrittenInv, OpenInv;
    match a
    case DoPublish(now, d) => PublishStepKeeps(sys, now, d);
    case DoOtherAttach(now) =>
      if now >= sys.clock {
        Aging(sys.core.msgs, sys.clock, now);
        PruneKeeps(sys.core, sys.all, now);
      }
    case DoAttach(now, id, cap, f, hello, room) =>
      if now >= sys.clock && sys.stream.None? {
        Aging(sys.core.msgs, sys.clock, now);
        PruneKeeps(sys.core, sys.all, now);
        OpenedKeeps(Prune(sys.core, now), sys.all, sys.epoch, id, cap, f, hello, room);
      }
    case DoReceive(writeOk) => if sys.stream.Some? { ReceivedKeeps(sys.stream.value, writeOk); }
    case DoTick(valid, writeOk) => TickStepKeeps(sys, valid, writeOk);
    case DoForceGap => GapKeeps(sys);
    case DoRestart(boot) => RestartKeeps(sys, boot);
    case _ => MarkKeeps(sys, a);
  }

  lemma Aging(msgs: seq<Message>, clock: int, now: int)
    requires Ordered(msgs, clock) && clock <= now
    ensures Ordered(msgs, now)
  {
  }

  lemma PublishStepKeeps(sys: System, now: int, d: Draft)
    requires Inv(sys)
    ensures Inv(Step(sys, DoPublish(now, d)))
  {
    hide Ordered, FlowInv, DataFrames, Matching, Frames, OpeningFrames, Published;
    if now >= sys.clock {
      var m := Render(sys.core, now, d);
      Aging(sys.core.msgs, sys.clock, now);
      PublishKeeps(sys.core, sys.all, now, d);
      PublishedFrame(sys.core, now, d);
      if sys.stream.Some? {
        var s := sys.stream.value;
        OfferedKeeps(s, m);
        if s.epoch == sys.epoch {
          assert s.attached ==> (sys.all + [m])[s.at..] == sys.all[s.at..] + [m];
          assert (sys.all + [m])[From(s)..s.at] == sys.all[From(s)..s.at];
        }
      }
    }
  }

  lemma PublishedFrame(c: Core, now: int, d: Draft)
    ensures Published(c, now, d).boot == c.boot && Published(c, now, d).maxEvents == c.maxEvents
  {
  }

  /** Steps that only mark the stream or end its loop. */
  lemma MarkKeeps(sys: System, a: Action)
    requires Inv(sys) && (a.DoEnd? || a.DoDetach? || a.DoForceOverflow? || a.DoDropStreams?)
    ensures Inv(Step(sys, a))
  {
    hide Tail, Ordered, DataFrames, Matching, Frames, OpeningFrames, Queued, Lost;
  }

  lemma NothingHeld(c: Core, all: seq<Message>, clock: int)
    requires Tail(c, all)
    ensures Tail(c.(msgs := []), all) && Ordered([], clock)
  {
  }

  lemma NothingPublished(c: Core, boot: string)
    ensures Tail(Restarted(c, boot), []) && Restarted(c, boot).msgs == []
  {
  }

  lemma GapKeeps(sys: System)
    requires Inv(sys)
    ensures Inv(Step(sys, DoForceGap))
  {
    hide Tail, Ordered, FlowInv, WrittenInv, OpenInv;
    NothingHeld(sys.core, sys.all, sys.clock);
  }

  lemma RestartKeeps(sys: System, boot: string)
    requires Inv(sys)
    ensures Inv(Step(sys, DoRestart(boot)))
  {
    NothingHeld(sys.core, sys.all, sys.clock);
    NothingPublished(sys.core, boot);
    hide Tail, Ordered, Restarted, DataFrames, Matching, Frames, OpeningFrames, Queued, Lost;
  }

  lemma TickStepKeeps(sys: System, valid: bool, writeOk: bool)
    requires Inv(sys)
    ensures Inv(Step(sys, DoTick(valid, writeOk)))
  {
    hide Tail, Ordered, FlowInv, WrittenInv, OpenInv;
    if sys.stream.Some? { TickKeeps(sys.stream.value, valid, writeOk); }
  }

  lemma {:induction false} RunKeeps(sys: System, actions: seq<Action>)
    requires Inv(sys)
    ensures Inv(Run(sys, actions))
    decreases |actions|
  {
    if actions != [] {
      StepKeeps(sys, actions[0]);
      RunKeeps(Step(sys, actions[0]), actions[1..]);
    }
  }

  /** Every reachable state satisfies the invariant. */
  lemma Reachable(boot: string, maxEvents: nat, maxAge: nat, clock: int, actions: seq<Action>)
    ensures Inv(Run(Start(boot, maxEvents, maxAge, clock), actions))
  {
    RunKeeps(Start(boot, maxEvents, maxAge, clock), actions);
  }

  // ----- what it means for a client -----

  /** A ping is written only when nothing was lost: everything published since the stream
      attached has been taken or is queued, in order, and every taken message that passes the
      filter has been written. */
  lemma PingMeansNothingLost(sys: System, valid: bool, writeOk: bool)
    requires Inv(sys) && sys.stream.Some?
    requires Step(sys, DoTick(valid, writeOk)).stream.value.live.frames == sys.stream.value.live.frames + [Ping]
    ensures var s := sys.stream.value;
      && s.taken + s.live.queue == s.published
      && DataFrames(s.live.frames)
           == DataFrames(OpeningFrames(s.boot, s.at, s.opening, s.filter, s.hello)) +
             Frames(s.boot, Matching(s.filter, s.taken))
  {
    var s := sys.stream.value;
    PingNeedsNoDrop(s.live, valid, writeOk);
    NoneLost(s.published, s.fate);
  }

  lemma LastFrame(frames: seq<Frame>, f: Frame)
    ensures |frames + [f]| == |frames| + 1 && (frames + [f])[|frames|] == f
  {
  }

  lemma PingNeedsNoDrop(l: Live, valid: bool, writeOk: bool)
    requires TickTurn(l, valid, writeOk).frames == l.frames + [Ping]
    ensures l.open && l.dropped == 0 && valid && writeOk
  {
    LastFrame(l.frames, Ping);
    LastFrame(l.frames, ResyncFrame(Overflow));
  }

  /** Once a message is lost, the next tick the open stream handles reports the overflow and
      ends the stream, whatever the credential. */
  lemma LossEndsStream(sys: System, valid: bool)
    requires Inv(sys) && sys.stream.Some? && sys.stream.value.live.open
    requires sys.stream.value.published != Queued(sys.stream.value.published, sys.stream.value.fate)
    ensures var l, l' := sys.stream.value.live, Step(sys, DoTick(valid, true)).stream.value.live;
      !l'.open && l'.frames == l.frames + [ResyncFrame(Overflow)]
    ensures !Step(sys, DoTick(valid, false)).stream.value.live.open
  {
    var s := sys.stream.value;
    if Lost(s.fate) == 0 { NoneLost(s.published, s.fate); }
  }

  /** Until a restart, every stream gets each message after the place it begins at exactly once,
      in order: first the replay, then what is published to it. */
  lemma ExactlyOnce(sys: System)
    requires Inv(sys) && sys.stream.Some?
    requires sys.stream.value.attached && sys.stream.value.epoch == sys.epoch
    ensures var s := sys.stream.value;
      var all := s.opening.replay + s.published;
      && all == sys.all[From(s)..] && |all| == sys.core.last - From(s)
      && s.published == sys.all[s.at..]
      && (forall i :: 0 <= i < |all| ==> all[i].no == From(s) + 1 + i)
  {
    var s := sys.stream.value;
    assert sys.all[From(s)..] == sys.all[From(s)..s.at] + sys.all[s.at..];
  }

  /** A closed stream writes nothing more. */
  lemma ClosedIsSilent(sys: System, a: Action)
    requires sys.stream.Some? && !sys.stream.value.live.open
    ensures Step(sys, a).stream.Some?
    ensures var s, s' := sys.stream.value, Step(sys, a).stream.value; !s'.live.open && s'.live.frames == s.live.frames
  {
  }

  // ----- the stream loop as an object -----

  class Session {
    const boot: string
    const filter: Filter
    const rd: Reader
    var frames: seq<Frame>
    var open: bool

    function View(): Live
      reads this, rd
    {
      Live(rd.queue, rd.dropped, frames, open)
    }

    /** Writes the opening; after `room` frames a write fails and nothing more is written. */
    constructor (boot: string, at: nat, opening: Resumption, filter: Filter, rd: Reader, hello: string, room: nat)
      ensures this.boot == boot && this.filter == filter && this.rd == rd
      ensures View()
          == Written(OpeningFrames(boot, at, opening, filter, hello), room).(queue := rd.queue, dropped := rd.dropped)
    {
      this.boot, this.filter, this.rd := boot, filter, rd;
      frames, open := [], true;
      new;
      Send(Connected, room, []);
      Send(Data(IdOf(boot, at), "hello", hello), room, [Connected]);
      ghost var sent := [Connected, Data(IdOf(boot, at), "hello", hello)];
      assert [Connected] + [Data(IdOf(boot, at), "hello", hello)] == sent;
      assert sent + [] == sent;
      if opening.resync == BootResync { Send(ResyncFrame(Boot), room, sent); }
      if opening.resync == GapResync { Send(ResyncFrame(Gap), room, sent); }
      Replay(opening.replay, room, sent + Notice(opening.resync));
    }

    /** One write of the opening, unless one has failed; `sent` are the frames tried so far. */
    method Send(f: Frame, room: nat, ghost sent: seq<Frame>)
      requires frames == Written(sent, room).frames && open == Written(sent, room).open
      modifies this`frames, this`open
      ensures frames == Written(sent + [f], room).frames && open == Written(sent + [f], room).open
    {
      if open {
        if |frames| < room { frames := frames + [f]; } else { open := false; }
      }
    }

    /** The messages missed, as far as the filter lets them through. */
    method Replay(replay: seq<Message>, room: nat, ghost sent: seq<Frame>)
      requires frames == Written(sent, room).frames && open == Written(sent, room).open
      modifies this`frames, this`open
      ensures var all := sent + Frames(boot, Matching(filter, replay));
        frames == Written(all, room).frames && open == Written(all, room).open
    {
      hide Match, Frames, Matching, Written;
      NothingMatches(boot, filter);
      assert replay[..0] == [] && sent + [] == sent;
      for i := 0 to |replay|
        invariant var all := sent + Frames(boot, Matching(filter, replay[..i]));
          frames == Written(all, room).frames && open == Written(all, room).open
      {
        var m := replay[i];
        assert replay[..i + 1] == replay[..i] + [m];
        MatchingAppend(filter, replay[..i], m);
        ghost var done := Frames(boot, Matching(filter, replay[..i]));
        if Match(filter, m) {
          FramesAppend(boot, Matching(filter, replay[..i]), m);
          assert (sent + done) + [MessageFrame(boot, m)] == sent + (done + [MessageFrame(boot, m)]);
          Send(MessageFrame(boot, m), room, sent + done);
        } else {
          assert Matching(filter, replay[..i]) + [] == Matching(filter, replay[..i]);
        }
      }
      assert replay[..|replay|] == replay;
    }

    /** A message is ready on the queue. */
    method Receive(writeOk: bool)
      requires open && rd.queue != []
      modifies this, rd`queue
      ensures View() == ReceiveTurn(old(View()), boot, filter, writeOk)
    {
      var m := rd.queue[0];
      rd.queue := rd.queue[1..];
      if !Match(filter, m) { return; }
      if !writeOk { open := false; return; }
      frames := frames + [MessageFrame(boot, m)];
    }

    /** The heartbeat ticker fires. */
    method Tick(valid: bool, writeOk: bool)
      requires open
      modifies this
      ensures View() == TickTurn(old(View()), valid, writeOk)
    {
      if rd.dropped > 0 {
        if writeOk { frames := frames + [ResyncFrame(Overflow)]; }
        open := false;
        return;
      }
      if !valid { open := false; return; }
      if !writeOk { open := false; return; }
      frames := frames + [Ping];
    }
  }
}
