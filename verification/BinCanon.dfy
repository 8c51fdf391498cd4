/** What the decoder accepts: bytes that are, odd bool bytes and pairs aside, the encoding of
    what it returns; and how much it allocates ahead of the bytes that justify it. */
module BinCanon {
  import opened Collections
  import opened BinDouble
  import opened BinCodec

  /** What was decoded encodes to the bytes consumed exactly when `plain`; whatever it encodes to
      has that length. */
  ghost predicate Matches(b: seq<byte>, from: nat, to: nat, e: Option<seq<byte>>, plain: bool) {
    && from <= to <= |b| && (e.Some? ==> |e.value| == to - from)
    && (e == Some(b[from..to]) <==> plain)
  }

  /** Every bool byte was 0 or 1 and every double a normal pair. */
  predicate Plain(log: Log, seen: seq<Mark>) { forall k <- seen :: PlainMark(log, k) }

  predicate PlainMark(log: Log, k: Mark) {
    match k
    case Flag(b) => b <= 1
    case Pair(m, e) => NormalPair(log, m, e)
  }

  lemma PlainBoth(log: Log, a: seq<Mark>, b: seq<Mark>)
    ensures Plain(log, a + b) <==> Plain(log, a) && Plain(log, b)
  {
    hide PlainMark;
    if Plain(log, a + b) {
      forall k | k in a || k in b ensures PlainMark(log, k) { assert k in a + b; }
    }
  }

  lemma PlainOne(log: Log, k: Mark)
    ensures Plain(log, [k]) <==> PlainMark(log, k)
    ensures Plain(log, [])
  {
    hide PlainMark;
    assert k in [k];
  }

  lemma Joined(b: seq<byte>, i: nat, j: nat, k: nat, x: Option<seq<byte>>, y: Option<seq<byte>>, p: bool, q: bool)
    requires Matches(b, i, j, x, p) && Matches(b, j, k, y, q)
    ensures Matches(b, i, k, Both(x, y), p && q)
  {
    assert b[i..k] == b[i..j] + b[j..k];
    if x.Some? && y.Some? && x.value + y.value == b[i..k] {
      assert x.value == (x.value + y.value)[..j - i] == b[i..k][..j - i] == b[i..j];
      assert y.value == (x.value + y.value)[j - i..] == b[i..k][j - i..] == b[j..k];
    }
  }

  lemma WordMatches(b: seq<byte>, off: nat)
    requires off + 4 <= |b|
    ensures Matches(b, off, off + 4, Some(Word(WordAt(b, off))), true)
    ensures Matches(b, off, off + 4, Some(Word(Signed(WordAt(b, off)))), true)
  {
    WordBack(b, off);
  }

  lemma RawMatches(b: seq<byte>, off: nat)
    requires off <= |b| && ReadRaw(b, off).out.Some?
    ensures Matches(b, off, ReadRaw(b, off).off, EncodeRaw(ReadRaw(b, off).out.value), true)
  {
    var n := WordAt(b, off);
    WordBack(b, off);
    Latin1Back(b[off + 4..off + 4 + n]);
    assert b[off..off + 4 + n] == b[off..off + 4] + b[off + 4..off + 4 + n];
  }

  lemma TagMatches(b: seq<byte>, off: nat, to: nat, tag: int, body: Option<seq<byte>>, plain: bool)
    requires off + 4 <= |b| && WordAt(b, off) == tag && Matches(b, off + 4, to, body, plain)
    ensures Matches(b, off, to, Tagged(tag, body), plain)
  {
    WordMatches(b, off);
    Joined(b, off, off + 4, to, Some(Word(tag)), body, true, plain);
  }

  lemma OneByte(b: seq<byte>, at: nat, x: byte)
    requires at < |b|
    ensures Matches(b, at, at + 1, Some([x]), x == b[at])
  {
    var one := b[at..at + 1];
    assert |one| == 1 && one[0] == b[at];
    var e: seq<byte> := [x];
    assert e == one <==> e[0] == one[0];
  }

  /** A pair encodes to itself exactly when it is normal. */
  lemma DoubleMatches(log: Log, b: seq<byte>, at: nat)
    requires Accurate(log) && at + 8 <= |b|
    ensures var m, e := Signed(WordAt(b, at)), Signed(WordAt(b, at + 4));
      Matches(b, at, at + 8, EncodeNumber(log, DecodeDouble(m, e)), NormalPair(log, m, e))
  {
    hide EncodeDouble, DecodeDouble, NormalPair, Accurate;
    var m, e := Signed(WordAt(b, at)), Signed(WordAt(b, at + 4));
    PairNormal(log, m, e);
    WordBack(b, at);
    WordBack(b, at + 4);
    assert b[at..at + 8] == b[at..at + 4] + b[at + 4..at + 8];
    var d := DecodeDouble(m, e);
    if EncodeDouble(log, d).Some? {
      EncodedInRange(log, d);
      var (m', e') := EncodeDouble(log, d).value;
      SamePair(m, e, m', e');
    }
  }

  lemma SamePair(m: int32, e: int32, m': int32, e': int32)
    ensures Word(m) + Word(e) == Word(m') + Word(e') <==> m == m' && e == e'
  {
    if Word(m) + Word(e) == Word(m') + Word(e') {
      assert Word(m) == (Word(m) + Word(e))[..4] == Word(m');
      assert Word(e) == (Word(m) + Word(e))[4..] == Word(e');
    }
    hide Word, WordAt, Signed;
    WordRoundTrip(m);
    WordRoundTrip(m');
    WordRoundTrip(e);
    WordRoundTrip(e');
    SignedRoundTrip(m);
    SignedRoundTrip(m');
    SignedRoundTrip(e);
    SignedRoundTrip(e');
  }

  lemma {:induction false} DecodedMatches(log: Log, b: seq<byte>, off: nat, depth: nat)
    requires Accurate(log) && off <= |b| && Decode(b, off, depth).out.Some?
    ensures var r := Decode(b, off, depth); Matches(b, off, r.off, Encode(log, r.out.value), Plain(log, r.seen))
    decreases |b| - off, 0
  {
    hide Word, WordAt, Matches, EncodeNumber, DecodeDouble, NormalPair, Signed, ReadRaw, EncodeRaw, DecodeSeq,
        DecodeMembers, Plain, Accurate;
    var r, tag, at := Decode(b, off, depth), WordAt(b, off), off + 4;
    if tag == TAG_INT {
      WordMatches(b, at);
      TagMatches(b, off, r.off, tag, Some(Word(Signed(WordAt(b, at)))), true);
      PlainOne(log, Flag(0));
    } else if tag == TAG_BOOL {
      var flag: byte := if b[at] != 0 then 1 else 0;
      OneByte(b, at, flag);
      PlainOne(log, Flag(b[at]));
      TagMatches(b, off, r.off, tag, Some([flag]), b[at] <= 1);
    } else if tag == TAG_STRING {
      RawMatches(b, at);
      TagMatches(b, off, r.off, tag, EncodeRaw(ReadRaw(b, at).out.value), true);
      PlainOne(log, Flag(0));
    } else if tag == TAG_DOUBLE {
      DoubleMatches(log, b, at);
      PlainOne(log, Pair(Signed(WordAt(b, at)), Signed(WordAt(b, at + 4))));
      var m, e := Signed(WordAt(b, at)), Signed(WordAt(b, at + 4));
      TagMatches(b, off, r.off, tag, EncodeNumber(log, DecodeDouble(m, e)), NormalPair(log, m, e));
    } else if tag == TAG_ARRAY {
      var n := WordAt(b, at);
      var vs := DecodeSeq(b, at + 4, n, depth + 1);
      SeqMatches(log, b, at + 4, n, depth + 1);
      WordMatches(b, at);
      Joined(b, at, at + 4, r.off, Some(Word(n)), EncodeAll(log, vs.out.value), true, Plain(log, vs.seen));
      TagMatches(b, off, r.off, tag, Both(Some(Word(n)), EncodeAll(log, vs.out.value)), Plain(log, vs.seen));
    } else {
      var n := WordAt(b, at);
      var ms := DecodeMembers(b, at + 4, n, depth);
      MembersMatch(log, b, at + 4, n, depth);
      WordMatches(b, at);
      Joined(b, at, at + 4, r.off, Some(Word(n)), EncodeMembers(log, ms.out.value), true, Plain(log, ms.seen));
      TagMatches(b, off, r.off, tag, Both(Some(Word(n)), EncodeMembers(log, ms.out.value)), Plain(log, ms.seen));
    }
  }

  lemma {:induction false} SeqMatches(log: Log, b: seq<byte>, off: nat, n: nat, depth: nat)
    requires Accurate(log) && off <= |b| && DecodeSeq(b, off, n, depth).out.Some?
    ensures var r := DecodeSeq(b, off, n, depth);
      |r.out.value| == n && Matches(b, off, r.off, EncodeAll(log, r.out.value), Plain(log, r.seen))
    decreases |b| - off, n + 1
  {
    hide Decode, Encode, Matches, DecodeSeq, EncodeAll, Plain, Accurate;
    if n == 0 {
      NoValues(log, b, off, depth);
    } else {
      SeqUnfold(log, b, off, n, depth);
      var v := Decode(b, off, depth);
      var rest := DecodeSeq(b, v.off, n - 1, depth);
      DecodedMatches(log, b, off, depth);
      SeqMatches(log, b, v.off, n - 1, depth);
      PlainBoth(log, v.seen, rest.seen);
      Joined(b, off, v.off, rest.off, Encode(log, v.out.value), EncodeAll(log, rest.out.value), Plain(log, v.seen),
             Plain(log, rest.seen));
    }
  }

  lemma NoValues(log: Log, b: seq<byte>, off: nat, depth: nat)
    requires off <= |b|
    ensures DecodeSeq(b, off, 0, depth) == Read(Some([]), off, 0, [])
    ensures Matches(b, off, off, EncodeAll(log, []), Plain(log, []))
  {
    assert b[off..off] == [];
  }

  lemma SeqUnfold(log: Log, b: seq<byte>, off: nat, n: nat, depth: nat)
    requires off <= |b| && n > 0 && DecodeSeq(b, off, n, depth).out.Some?
    ensures var v := Decode(b, off, depth);
      && v.out.Some? && var rest := DecodeSeq(b, v.off, n - 1, depth);
      && rest.out.Some?
      && DecodeSeq(b, off, n, depth)
           == Read(Some([v.out.value] + rest.out.value), rest.off, v.slots + rest.slots, v.seen + rest.seen)
      && EncodeAll(log, [v.out.value] + rest.out.value)
           == Both(Encode(log, v.out.value), EncodeAll(log, rest.out.value))
  {
    hide Decode, Encode;
    var v := Decode(b, off, depth);
    var rest := DecodeSeq(b, v.off, n - 1, depth);
    assert ([v.out.value] + rest.out.value)[1..] == rest.out.value;
  }

  lemma {:induction false} MembersMatch(log: Log, b: seq<byte>, off: nat, n: nat, depth: nat)
    requires Accurate(log) && off <= |b| && DecodeMembers(b, off, n, depth).out.Some?
    ensures var r := DecodeMembers(b, off, n, depth);
      |r.out.value| == n && Matches(b, off, r.off, EncodeMembers(log, r.out.value), Plain(log, r.seen))
    decreases |b| - off, n + 1
  {
    hide Decode, Encode, Matches, EncodeRaw, ReadRaw, DecodeMembers, EncodeMembers, Plain, Accurate;
    if n > 0 {
      MembersUnfold(b, off, n, depth);
      var name := ReadRaw(b, off);
      var v := Decode(b, name.off, depth + 1);
      var rest := DecodeMembers(b, v.off, n - 1, depth);
      MembersStep(log, name.out.value, v.out.value, rest.out.value);
      RawMatches(b, off);
      DecodedMatches(log, b, name.off, depth + 1);
      MembersMatch(log, b, v.off, n - 1, depth);
      PlainBoth(log, v.seen, rest.seen);
      Joined(b, off, name.off, v.off, EncodeRaw(name.out.value), Encode(log, v.out.value), true, Plain(log, v.seen));
      Joined(b, off, v.off, rest.off, Both(EncodeRaw(name.out.value), Encode(log, v.out.value)),
             EncodeMembers(log, rest.out.value), Plain(log, v.seen), Plain(log, rest.seen));
    } else {
      NoMembers(log, b, off, depth);
      PlainOne(log, Flag(0));
    }
  }

  lemma NoMembers(log: Log, b: seq<byte>, off: nat, depth: nat)
    requires off <= |b|
    ensures DecodeMembers(b, off, 0, depth) == Read(Some([]), off, 0, [])
    ensures Matches(b, off, off, EncodeMembers(log, []), true)
  {
    assert b[off..off] == [];
  }

  lemma MembersUnfold(b: seq<byte>, off: nat, n: nat, depth: nat)
    requires off <= |b| && n > 0 && DecodeMembers(b, off, n, depth).out.Some?
    ensures var name := ReadRaw(b, off);
      && name.out.Some? && var v := Decode(b, name.off, depth + 1);
      && v.out.Some? && var rest := DecodeMembers(b, v.off, n - 1, depth);
      && rest.out.Some?
      && DecodeMembers(b, off, n, depth)
           == Read(Some([Member(name.out.value, v.out.value)] + rest.out.value), rest.off, v.slots + rest.slots,
               v.seen + rest.seen)
  {
    hide Decode, ReadRaw;
  }

  lemma MembersStep(log: Log, name: string, v: Value, rest: seq<Member>)
    ensures EncodeMembers(log, [Member(name, v)] + rest)
         == Both(Both(EncodeRaw(name), Encode(log, v)), EncodeMembers(log, rest))
  {
    hide Encode, EncodeRaw;
    var all := [Member(name, v)] + rest;
    assert all[1..] == rest;
  }

  /** An accepted request payload with a method name is byte for byte the encoding of the request
      returned, if and only if every bool byte in it is 0 or 1 and every double a normal pair. */
  lemma CanonicalInverse(log: Log, b: seq<byte>)
    requires Accurate(log) && DecodePayload(b).out.Some?
    requires DecodePayload(b).out.value.method_ != ""
    ensures EncodePayload(log, DecodePayload(b).out.value) == Some(b) <==> Plain(log, DecodePayload(b).seen)
  {
    hide Word, WordAt, Matches, EncodeAll, EncodeRaw, ReadRaw, DecodeSeq, Plain, Accurate;
    var name := ReadRaw(b, 0);
    var at := name.off;
    var n := WordAt(b, at);
    var vs := DecodeSeq(b, at + 4, n, 0);
    RawMatches(b, 0);
    WordMatches(b, at);
    SeqMatches(log, b, at + 4, n, 0);
    Joined(b, at, at + 4, |b|, Some(Word(n)), EncodeAll(log, vs.out.value), true, Plain(log, vs.seen));
    Joined(b, 0, at, |b|, EncodeRaw(name.out.value), Both(Some(Word(n)), EncodeAll(log, vs.out.value)), true,
           Plain(log, vs.seen));
    WholeMatches(b, EncodePayload(log, DecodePayload(b).out.value), Plain(log, vs.seen));
  }

  lemma WholeMatches(b: seq<byte>, e: Option<seq<byte>>, plain: bool)
    requires Matches(b, 0, |b|, e, plain)
    ensures e == Some(b) <==> plain
  {
    assert b[0..|b|] == b;
  }

  // ----- allocation -----

  function Budget(levels: nat, left: nat): nat { levels * left }

  lemma BudgetGrows(levels: nat, less: nat, more: nat)
    requires less <= more
    ensures Budget(levels, less) <= Budget(levels, more)
  {
    assert levels * (more - less) >= 0;
    assert levels * more == levels * less + levels * (more - less);
  }

  lemma BudgetLevel(levels: nat, left: nat)
    ensures Budget(levels + 1, left) == left + Budget(levels, left)
  {
  }

  /** Bytes already read count at least once on every open level. */
  lemma BudgetAbsorbs(levels: nat, read: nat, left: nat)
    requires levels >= 1
    ensures read + Budget(levels, left) <= Budget(levels, read + left)
  {
    assert levels * (read + left) == levels * read + levels * left;
    assert levels * read == read + (levels - 1) * read;
  }

  /** Four bytes of payload for every slot: exactly backed by the bytes read on success, and
      at most the bytes left for every level still open on failure. */
  ghost predicate Allocated<T>(b: seq<byte>, off: nat, r: Read<T>, levels: nat, spare: nat)
    requires off <= |b|
  {
    && (r.out.Some? ==> off <= r.off <= |b| && 4 * r.slots + spare <= r.off - off)
    && (r.out.None? ==> 4 * r.slots <= Budget(levels, |b| - off))
  }

  /** Levels a value at this depth may still open. */
  function Levels(depth: nat): nat { if depth > MAX_DEPTH then 0 else MAX_DEPTH + 1 - depth }

  lemma {:induction false} DecodeAllocates(b: seq<byte>, off: nat, depth: nat)
    requires off <= |b|
    ensures Allocated(b, off, Decode(b, off, depth), Levels(depth), 4)
    decreases |b| - off, 0, 1
  {
    if depth <= MAX_DEPTH && off + 4 <= |b| {
      DecodeSlots(b, off, depth);
      OpenAllocates(b, off, depth);
    }
  }

  lemma {:induction false} OpenAllocates(b: seq<byte>, off: nat, depth: nat)
    requires off + 4 <= |b| && depth <= MAX_DEPTH && SlotsFrom(b, off, depth, Decode(b, off, depth))
    ensures Allocated(b, off, Decode(b, off, depth), Levels(depth), 4)
    decreases |b| - off, 0, 0
  {
    hide Word, WordAt, Decode, DecodeCounted, DecodeMembers, Budget, DecodeSeq;
    var at := off + 4;
    if at + 4 <= |b| {
      var rem := |b| - (at + 4);
      BudgetGrows(Levels(depth), rem, |b| - off);
      CountedAllocates(b, at + 4, WordAt(b, at), depth + 1);
      MembersAllocate(b, at + 4, WordAt(b, at), depth);
      BudgetLevel(Levels(depth) - 1, rem);
    }
  }

  ghost predicate SlotsFrom(b: seq<byte>, off: nat, depth: nat, r: Read<Value>)
    requires off + 4 <= |b|
  {
    var at := off + 4;
    || (r.slots == 0 && (r.out.Some? ==> off + 4 <= r.off <= |b|))
    || (at + 4 <= |b| && var vs := DecodeCounted(b, at + 4, WordAt(b, at), depth + 1);
          r.slots == vs.slots && (r.out.Some? <==> vs.out.Some?) && (r.out.Some? ==> r.off == vs.off))
    || (at + 4 <= |b| && WordAt(b, at) <= (|b| - (at + 4)) / MIN_MEMBER
          && var ms := DecodeMembers(b, at + 4, WordAt(b, at), depth);
          r.slots == WordAt(b, at) + ms.slots && (r.out.Some? <==> ms.out.Some?) && (r.out.Some? ==> r.off == ms.off))
  }

  /** Where the slots of a decoded value come from. */
  lemma DecodeSlots(b: seq<byte>, off: nat, depth: nat)
    requires off + 4 <= |b| && depth <= MAX_DEPTH
    ensures SlotsFrom(b, off, depth, Decode(b, off, depth))
  {
    hide Word, WordAt, DecodeCounted, DecodeMembers, ReadRaw, DecodeDouble;
  }

  lemma {:induction false} CountedAllocates(b: seq<byte>, off: nat, n: nat, depth: nat)
    requires off <= |b|
    ensures Allocated(b, off, DecodeCounted(b, off, n, depth), Levels(depth) + 1, 0)
    decreases |b| - off, n + 2
  {
    hide Budget, DecodeSeq;
    if n <= (|b| - off) / MIN_VALUE {
      SeqAllocates(b, off, n, depth);
      BudgetLevel(Levels(depth), |b| - off);
    }
  }

  lemma {:induction false} SeqAllocates(b: seq<byte>, off: nat, n: nat, depth: nat)
    requires off <= |b|
    ensures Allocated(b, off, DecodeSeq(b, off, n, depth), Levels(depth), 4 * n)
    decreases |b| - off, n + 1
  {
    if n > 0 {
      hide Decode, Budget;
      var v := Decode(b, off, depth);
      DecodeAllocates(b, off, depth);
      if v.out.Some? {
        TooDeep(b, off, depth);
        SeqAllocates(b, v.off, n - 1, depth);
        BudgetAbsorbs(Levels(depth), v.off - off, |b| - v.off);
      }
    }
  }

  lemma TooDeep(b: seq<byte>, off: nat, depth: nat)
    requires off <= |b| && Decode(b, off, depth).out.Some?
    ensures depth <= MAX_DEPTH
  {
  }

  lemma {:induction false} MembersAllocate(b: seq<byte>, off: nat, n: nat, depth: nat)
    requires off <= |b| && depth <= MAX_DEPTH
    ensures Allocated(b, off, DecodeMembers(b, off, n, depth), Levels(depth) - 1, 8 * n)
    decreases |b| - off, n + 1, 0
  {
    hide Decode, ReadRaw, Budget, DecodeMembers, Allocated;
    MembersSlots(b, off, n, depth);
    var name := ReadRaw(b, off);
    if n > 0 && name.out.Some? {
      var v := Decode(b, name.off, depth + 1);
      DecodeAllocates(b, name.off, depth + 1);
      if v.out.Some? {
        TooDeep(b, name.off, depth + 1);
        MembersAllocate(b, v.off, n - 1, depth);
        MemberThenRest(b, off, name.off, v, DecodeMembers(b, v.off, n - 1, depth), DecodeMembers(b, off, n, depth),
                       Levels(depth + 1), 8 * (n - 1));
      } else {
        MemberFails(b, off, name.off, v, DecodeMembers(b, off, n, depth), Levels(depth + 1), 8 * n);
      }
    } else {
      NothingAllocated(b, off, DecodeMembers(b, off, n, depth), Levels(depth) - 1, 8 * n);
    }
  }

  lemma NothingAllocated<T>(b: seq<byte>, off: nat, r: Read<T>, levels: nat, spare: nat)
    requires off <= |b| && r.slots == 0 && (r.out.Some? ==> r.off == off && spare == 0)
    ensures Allocated(b, off, r, levels, spare)
  {
    hide Budget;
  }

  lemma MemberFails<T, U>(b: seq<byte>, off: nat, at: nat, v: Read<T>, r: Read<U>, levels: nat, spare: nat)
    requires off <= at <= |b| && v.out.None? && r.out.None? && r.slots == v.slots
    requires Allocated(b, at, v, levels, 4)
    ensures Allocated(b, off, r, levels, spare)
  {
    hide Budget;
    BudgetGrows(levels, |b| - at, |b| - off);
  }

  lemma MemberThenRest<T, U>(b: seq<byte>, off: nat, at: nat, v: Read<T>, rest: Read<U>, r: Read<U>, levels: nat,
                             spare: nat)
    requires off + 4 <= at <= |b| && v.out.Some? && levels >= 1 && Allocated(b, at, v, levels, 4)
    requires at <= v.off <= |b| && Allocated(b, v.off, rest, levels, spare)
    requires r.slots == v.slots + rest.slots && (r.out.Some? <==> rest.out.Some?) && (r.out.Some? ==> r.off == rest.off)
    ensures Allocated(b, off, r, levels, spare + 8)
  {
    hide Budget;
    BudgetAbsorbs(levels, v.off - off, |b| - v.off);
  }

  /** Where the slots of a member list come from. */
  lemma MembersSlots(b: seq<byte>, off: nat, n: nat, depth: nat)
    requires off <= |b|
    ensures var r, name := DecodeMembers(b, off, n, depth), ReadRaw(b, off);
      if n == 0 then r.slots == 0 && r.out.Some? && r.off == off
      else if name.out.None? then r.slots == 0 && r.out.None?
      else
        var v := Decode(b, name.off, depth + 1);
        if v.out.None? then r.slots == v.slots && r.out.None?
        else
          var rest := DecodeMembers(b, v.off, n - 1, depth);
          r.slots == v.slots + rest.slots && (r.out.Some? <==> rest.out.Some?) && (r.out.Some? ==> r.off == rest.off)
  {
    hide Decode, ReadRaw;
  }

  /** Over any payload the decoder allocates at most (64 + 2) slots per four bytes, and at most
      one per four bytes when it accepts the payload. */
  lemma AllocationBound(b: seq<byte>)
    ensures 4 * DecodePayload(b).slots <= (MAX_DEPTH + 2) * |b|
    ensures DecodePayload(b).out.Some? ==> 4 * DecodePayload(b).slots <= |b|
  {
    var name := ReadRaw(b, 0);
    if name.out.Some? && name.off + 4 <= |b| {
      hide DecodeCounted, ReadRaw, WordAt;
      CountedAllocates(b, name.off + 4, WordAt(b, name.off), 0);
      BudgetGrows(MAX_DEPTH + 2, |b| - (name.off + 4), |b|);
    }
  }

  // ----- an accepted payload that is no encoding -----

  const ODD: seq<byte> := [0, 0, 0, 1, 0x6D, 0, 0, 0, 1, 0, 0, 0, 2, 2]

  lemma OddWords()
    ensures WordAt(ODD, 0) == 1 && WordAt(ODD, 5) == 1 && WordAt(ODD, 9) == TAG_BOOL
    ensures Word(1) == [0, 0, 0, 1] && Word(TAG_BOOL) == [0, 0, 0, 2]
  {
  }

  lemma OddName()
    ensures ReadRaw(ODD, 0) == Read(Some("m"), 5, 0, []) && EncodeRaw("m") == Some(ODD[..5])
  {
    OddWords();
    hide WordAt, Word;
    assert Latin1Decode(ODD[4..5]) == "m" && Latin1Encode("m") == [0x6D];
    assert [0, 0, 0, 1] + [0x6D] == ODD[..5];
  }

  lemma OddValue(log: Log)
    ensures Decode(ODD, 9, 0) == Read(Some(BoolV(true)), 14, 0, [Flag(2)])
    ensures Encode(log, BoolV(true)) == Some(ODD[9..13] + [1])
  {
    OddWords();
    hide WordAt, Word;
    assert ODD[9..13] == [0, 0, 0, 2];
  }

  lemma OddValues(log: Log)
    ensures DecodeCounted(ODD, 9, 1, 0) == Read(Some([BoolV(true)]), 14, 1, [Flag(2)])
    ensures EncodeAll(log, [BoolV(true)]) == Some(ODD[9..13] + [1])
  {
    OddValue(log);
    hide Decode, Encode;
    var rest := DecodeSeq(ODD, 14, 0, 0);
    assert rest == Read(Some([]), 14, 0, []);
    assert [BoolV(true)] + rest.out.value == [BoolV(true)];
    assert [Flag(2)] + rest.seen == [Flag(2)];
    assert DecodeSeq(ODD, 9, 1, 0) == Read(Some([BoolV(true)]), 14, 0, [Flag(2)]);
    OneEncodes(log, BoolV(true));
  }

  /** A bool byte of 2 is accepted, and comes back as 1. */
  lemma OddBool(log: Log)
    ensures DecodePayload(ODD).out == Some(Request("m", [BoolV(true)]))
    ensures EncodePayload(log, Request("m", [BoolV(true)])) == Some(ODD[..13] + [1])
  {
    OddWords();
    OddName();
    OddValues(log);
    hide WordAt, Word, ReadRaw, EncodeRaw, DecodeCounted, EncodeAll;
    assert ODD[..5] + (ODD[5..9] + (ODD[9..13] + [1])) == ODD[..13] + [1];
    assert ODD[5..9] == [0, 0, 0, 1];
  }
}
