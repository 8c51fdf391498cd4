/** What an event stream writes, in the words of the protocol: which messages its filters leave
    out, the id, type and data of each frame, and the reasons of a resync. */
module StreamWords {
  import opened Collections
  import opened Decimal
  import opened EventRing
  import opened EventStream

  // ----- filters -----

  /** Neither the address itself nor the device it is a channel of. */
  predicate OffAddress(wanted: string, address: string) {
    wanted != address && !(|wanted| < |address| && address[..|wanted|] == wanted && address[|wanted|] == ':')
  }

  /** A filter that is empty leaves nothing out; type and interface judge every message but hello and
      resync, address and key only events and states. */
  predicate LeftOut(f: Filter, m: Message) {
    && m.typ != "hello" && m.typ != "resync"
    && (|| (f.types != {} && m.typ !in f.types)
        || (f.ifaces != {} && m.iface !in f.ifaces)
        || ((m.typ == "event" || m.typ == "state") && f.keys != {} && m.key !in f.keys)
        || ((m.typ == "event" || m.typ == "state") && f.addresses != []
            && forall i :: 0 <= i < |f.addresses| ==> OffAddress(f.addresses[i], m.address)))
  }

  lemma OffAddressIs(wanted: string, address: string)
    ensures OffAddress(wanted, address) <==> !(address == wanted || wanted + ":" <= address)
  {
    if |wanted| < |address| {
      var front := address[..|wanted| + 1];
      assert front == address[..|wanted|] + [address[|wanted|]];
      assert wanted + ":" <= address <==> front == wanted + ":";
      assert (wanted + ":")[..|wanted|] == wanted && (wanted + ":")[|wanted|] == ':';
    }
  }

  lemma FilterIs(f: Filter, m: Message)
    ensures LeftOut(f, m) <==> !Match(f, m)
  {
    forall i | 0 <= i < |f.addresses|
      ensures OffAddress(f.addresses[i], m.address)
          <==> !(m.address == f.addresses[i] || f.addresses[i] + ":" <= m.address)
    {
      OffAddressIs(f.addresses[i], m.address);
    }
    hide OffAddress;
  }

  // ----- frames -----

  /** The boot id, a dash and the number of the message; its type; its data. */
  ghost predicate FrameOf(boot: string, m: Message, fr: Frame) {
    fr.Data? && fr.typ == m.typ && fr.data == m.data && IsId(boot, m.no, fr.id)
  }

  ghost predicate IsId(boot: string, no: nat, id: string) {
    boot <= id && |id| > |boot| && id[|boot|] == '-' && Numeral(no, id[|boot| + 1..])
  }

  lemma IdIs(boot: string, no: nat, id: string)
    ensures IsId(boot, no, id) <==> id == IdOf(boot, no)
  {
    var own := boot + "-" + FormatUint(no);
    assert own[|boot|] == '-' && own[|boot| + 1..] == FormatUint(no);
    if boot <= id && |id| > |boot| && id[|boot|] == '-' {
      NumeralIs(no, id[|boot| + 1..]);
      assert id == boot + "-" + id[|boot| + 1..];
    }
    NumeralIs(no, FormatUint(no));
  }

  /** One frame for each message that is not left out, in order. */
  ghost predicate Sent(boot: string, f: Filter, ms: seq<Message>, frames: seq<Frame>) {
    if ms == [] then frames == []
    else
      var m, before := ms[|ms| - 1], ms[..|ms| - 1];
      if LeftOut(f, m) then Sent(boot, f, before, frames)
      else frames != [] && FrameOf(boot, m, frames[|frames| - 1]) && Sent(boot, f, before, frames[..|frames| - 1])
  }

  lemma FrameIs(boot: string, m: Message)
    ensures FrameOf(boot, m, MessageFrame(boot, m))
  {
    IdIs(boot, m.no, IdOf(boot, m.no));
  }

  lemma SentStep(boot: string, f: Filter, before: seq<Message>, m: Message, frames: seq<Frame>)
    requires Sent(boot, f, before, frames)
    ensures Sent(boot, f, before + [m], frames + (if LeftOut(f, m) then [] else [MessageFrame(boot, m)]))
  {
    FrameIs(boot, m);
    hide LeftOut, FrameOf, MessageFrame;
    var ms, fr := before + [m], MessageFrame(boot, m);
    assert ms[..|ms| - 1] == before && ms[|ms| - 1] == m;
    assert (frames + [fr])[..|frames|] == frames && (frames + [fr])[|frames|] == fr;
    assert frames + [] == frames;
  }

  lemma NextFrames(boot: string, f: Filter, before: seq<Message>, m: Message)
    ensures Frames(boot, Matching(f, before + [m]))
        == Frames(boot, Matching(f, before)) + (if LeftOut(f, m) then [] else [MessageFrame(boot, m)])
  {
    FilterIs(f, m);
    MatchingAppend(f, before, m);
    hide Match, LeftOut, Matching, MessageFrame;
    var passing := Matching(f, before);
    if Match(f, m) { FramesAppend(boot, passing, m); } else { assert passing + [] == passing; }
    hide Frames;
    assert Frames(boot, passing) + [] == Frames(boot, passing);
  }

  lemma {:induction false} SentIs(boot: string, f: Filter, ms: seq<Message>)
    ensures Sent(boot, f, ms, Frames(boot, Matching(f, ms)))
  {
    if ms != [] {
      hide LeftOut, Sent, Frames, Matching, MessageFrame;
      var m, before := ms[|ms| - 1], ms[..|ms| - 1];
      assert ms == before + [m];
      SentIs(boot, f, before);
      NextFrames(boot, f, before, m);
      SentStep(boot, f, before, m, Frames(boot, Matching(f, before)));
    }
  }

  /** A resync without an id that names its reason. */
  predicate Resyncs(reason: string, fr: Frame) {
    fr == Data("", "resync", "{\"reason\":\"" + reason + "\"}")
  }

  /** What an open stream has written so far: hello under the position of its attach, a resync if it
      could not resume, and a frame for every replayed and then every taken message that passes. */
  lemma OpenStreamWrote(sys: System) returns (replay: seq<Frame>, live: seq<Frame>)
    requires Inv(sys) && sys.stream.Some? && sys.stream.value.live.open
    ensures var s, frames := sys.stream.value, DataFrames(sys.stream.value.live.frames);
      && frames != [] && frames[0].Data? && frames[0].typ == "hello" && frames[0].data == s.hello
      && IsId(s.boot, s.at, frames[0].id)
      && Sent(s.boot, s.filter, s.opening.replay, replay) && Sent(s.boot, s.filter, s.taken, live)
      && match s.opening.resync
         case NoResync => frames[1..] == replay + live
         case BootResync => |frames| > 1 && Resyncs("boot", frames[1]) && frames[2..] == replay + live
         case GapResync => |frames| > 1 && Resyncs("gap", frames[1]) && frames[2..] == replay + live
  {
    var s := sys.stream.value;
    replay, live := Frames(s.boot, Matching(s.filter, s.opening.replay)), Frames(s.boot, Matching(s.filter, s.taken));
    SentIs(s.boot, s.filter, s.opening.replay);
    SentIs(s.boot, s.filter, s.taken);
    IdIs(s.boot, s.at, IdOf(s.boot, s.at));
    assert OpenInv(s);
    hide Inv, OpenInv, Sent, Frames, Matching, IdOf, IsId, DataFrames, OpeningFrames;
    OpeningData(s.boot, s.at, s.opening, s.filter, s.hello);
    OpeningParts(DataFrames(s.live.frames), Data(IdOf(s.boot, s.at), "hello", s.hello), Notice(s.opening.resync),
        replay, live);
  }

  lemma OpeningParts(frames: seq<Frame>, hello: Frame, notice: seq<Frame>, replay: seq<Frame>, live: seq<Frame>)
    requires frames == [hello] + notice + replay + live
    ensures frames != [] && frames[0] == hello
    ensures notice == [] ==> frames[1..] == replay + live
    ensures |notice| == 1 ==> |frames| > 1 && frames[1] == notice[0] && frames[2..] == replay + live
  {
    assert frames == [hello] + (notice + (replay + live));
    if notice == [] { assert notice + (replay + live) == replay + live; }
    if |notice| == 1 { assert frames == [hello, notice[0]] + (replay + live); }
  }

  lemma {:induction false} AllData(a: seq<Frame>, frames: seq<Frame>)
    requires forall i :: 0 <= i < |frames| ==> frames[i].Data?
    ensures DataFrames(a + frames) == DataFrames(a) + frames
  {
    if frames == [] {
      assert a + frames == a;
    } else {
      hide DataFrames;
      var front, last := frames[..|frames| - 1], frames[|frames| - 1];
      AllData(a, front);
      LastApart(a, frames);
      LastApart(DataFrames(a), frames);
      DataAppend(a + front, last);
    }
  }

  lemma LastApart(a: seq<Frame>, frames: seq<Frame>)
    requires frames != []
    ensures a + frames == (a + frames[..|frames| - 1]) + [frames[|frames| - 1]]
  {
  }

  lemma {:induction false} FramesAreData(boot: string, ms: seq<Message>)
    ensures forall i :: 0 <= i < |Frames(boot, ms)| ==> Frames(boot, ms)[i].Data?
  {
    if ms != [] { FramesAreData(boot, ms[..|ms| - 1]); }
  }

  lemma OpeningData(boot: string, at: nat, opening: Resumption, f: Filter, hello: string)
    ensures DataFrames(OpeningFrames(boot, at, opening, f, hello))
        == [Data(IdOf(boot, at), "hello", hello)] + Notice(opening.resync)
           + Frames(boot, Matching(f, opening.replay))
  {
    var first := Data(IdOf(boot, at), "hello", hello);
    var rest := [first] + Notice(opening.resync) + Frames(boot, Matching(f, opening.replay));
    FramesAreData(boot, Matching(f, opening.replay));
    assert DataFrames([Connected]) == [] by { assert [Connected][..0] == []; }
    AllData([Connected], rest);
    assert OpeningFrames(boot, at, opening, f, hello) == [Connected] + rest;
  }

  // ----- turns -----

  /** A tick of an open stream: a loss is told as an overflow and ends the stream, a revoked
      credential ends it without a word, else it pings; a write that fails ends it. */
  lemma TickIs(l: Live, valid: bool, writeOk: bool)
    requires l.open
    ensures var t := TickTurn(l, valid, writeOk);
      && (t.queue, t.dropped) == (l.queue, l.dropped)
      && (t.open <==> l.dropped == 0 && valid && writeOk)
      && (l.dropped == 0 && valid && writeOk ==> t.frames == l.frames + [Ping])
      && (l.dropped > 0 && writeOk ==> exists fr :: Resyncs("overflow", fr) && t.frames == l.frames + [fr])
      && (!writeOk || (l.dropped == 0 && !valid) ==> t.frames == l.frames)
  {
    var fr := ResyncFrame(Overflow);
    assert Resyncs("overflow", fr);
  }

  // ----- publishing -----

  /** A publish takes the next number and renders the message with it; what the history then holds
      is a tail that starts with the first message neither in excess nor, after that, too old. */
  lemma PublishIs(c: Core, now: int, d: Draft, k: nat)
    ensures var p := Published(c, now, d);
      var all := c.msgs + [Message(c.last + 1, d.typ, d.build(c.last + 1), now, d.iface, d.address, d.key)];
      && p == c.(last := c.last + 1, msgs := p.msgs)
      && (k <= |all| && p.msgs == all[k..] ==>
          && |all| - k <= c.maxEvents && (k < |all| ==> all[k].at >= now - c.maxAge)
          && forall i :: 0 <= i < k ==> |all| - i > c.maxEvents || all[i].at < now - c.maxAge)
      && |p.msgs| <= |all| && p.msgs == all[|all| - |p.msgs|..]
  {
    var all := c.msgs + [Render(c, now, d)];
    var over := if |all| > c.maxEvents then |all| - c.maxEvents else 0;
    DropIs(all, over, now - c.maxAge, k);
    assert Published(c, now, d).msgs == all[DropCount(all, over, now - c.maxAge)..];
    hide DropCount, Published, Render;
  }

  lemma DropIs(all: seq<Message>, over: nat, cutoff: int, k: nat)
    requires over <= |all|
    ensures var drop := DropCount(all, over, cutoff);
      && over <= drop <= |all| && (drop < |all| ==> all[drop].at >= cutoff)
      && (forall i :: over <= i < drop ==> all[i].at < cutoff)
      && (k <= |all| && all[drop..] == all[k..] ==> k == drop)
      && |all[drop..]| == |all| - drop
  {
    DropCountIs(all, over, cutoff);
    var drop := DropCount(all, over, cutoff);
    hide DropCount;
    if k <= |all| && all[drop..] == all[k..] { assert |all[drop..]| == |all[k..]|; }
  }
}
