/** The bytes on the wire, literally: what every kind of value looks like, that the encoder writes
    exactly these bytes, and that the decoder accepts exactly them, for the value they stand for. */
module BinWire {
  import opened Collections
  import opened BinDouble
  import opened BinCodec

  /** Four bytes, most significant first. */
  function Weigh(b: seq<byte>): (n: nat)
    requires |b| == 4
  {
    b[0] as int * 16777216 + b[1] as int * 65536 + b[2] as int * 256 + b[3] as int
  }

  /** What the writer and the reader do not share: how a number is a mantissa and an exponent, which
      bytes are true, and whether the text "" may stand for nil. */
  datatype Reading = Reading(number: (int, int, Double) -> bool, flag: (byte, bool) -> bool, nil: bool)

  function Sent(log: Log): Reading {
    Reading((m, e, d) => EncodeDouble(log, d) == Some((m, e)), (x, f) => x == (if f then 1 else 0), true)
  }

  function Received(): Reading { Reading((m, e, d) => d == DecodeDouble(m, e), (x, f) => f == (x != 0), false) }

  /** A length and one byte for every character. */
  predicate TextForm(b: seq<byte>, s: string) {
    && |b| == 4 + |s| && Weigh(b[..4]) == |s| % 4294967296
    && forall i :: 0 <= i < |s| ==> b[4 + i] as int == s[i] as int
  }

  predicate NumberForm(rd: Reading, b: seq<byte>, m: int, e: int, d: Double) {
    && |b| == 8 && -2147483648 <= m < 2147483648 && -2147483648 <= e < 2147483648
    && Weigh(b[..4]) == m % 4294967296 && Weigh(b[4..]) == e % 4294967296 && rd.number(m, e, d)
  }

  /** The bytes of a value: four for its kind, then what the kind says. */
  ghost predicate Form(rd: Reading, b: seq<byte>, v: Value)
    decreases v, 1
  {
    |b| >= 4 &&
    match v
    case IntV(i) => b[..4] == [0, 0, 0, 1] && |b| == 8 && Weigh(b[4..]) == i as int % 4294967296
    case BoolV(f) => b[..4] == [0, 0, 0, 2] && |b| == 5 && rd.flag(b[4], f)
    case StringV(s) => b[..4] == [0, 0, 0, 3] && TextForm(b[4..], s)
    case NilV => b[..4] == [0, 0, 0, 3] && TextForm(b[4..], "") && rd.nil
    case DoubleV(d) => b[..4] == [0, 0, 0, 4] && exists m, e :: NumberForm(rd, b[4..], m, e, d)
    case ArrayV(items) =>
      b[..4] == [0, 0, 1, 0] && |b| >= 8 && Weigh(b[4..8]) == |items| % 4294967296 && Forms(rd, b[8..], items)
    case StructV(members) =>
      b[..4] == [0, 0, 1, 1] && |b| >= 8 && Weigh(b[4..8]) == |members| % 4294967296
      && MemberForms(rd, b[8..], members)
    case _ => false
  }

  /** One value after the other, with nothing between or behind. */
  ghost predicate Forms(rd: Reading, b: seq<byte>, vs: seq<Value>)
    decreases vs, 0
  {
    if vs == [] then b == []
    else exists k :: 0 <= k <= |b| && Form(rd, b[..k], vs[0]) && Forms(rd, b[k..], vs[1..])
  }

  /** Name and value, one member after the other. */
  ghost predicate MemberForms(rd: Reading, b: seq<byte>, ms: seq<Member>)
    decreases ms, 0
  {
    if ms == [] then b == []
    else exists j, k :: 0 <= j <= k <= |b| && TextForm(b[..j], ms[0].name) && Form(rd, b[j..k], ms[0].value)
                        && MemberForms(rd, b[k..], ms[1..])
  }

  /** The name of the method, the number of parameters, and the parameters. */
  ghost predicate RequestForm(rd: Reading, b: seq<byte>, r: Request) {
    exists j :: 0 <= j && j + 4 <= |b| && TextForm(b[..j], r.method_)
      && Weigh(b[j..j + 4]) == |r.params| % 4294967296 && Forms(rd, b[j + 4..], r.params)
  }

  // ----- words -----

  lemma WordOfRest(n: int)
    ensures Word(n % WORD) == Word(n)
  {
    assert n % WORD % WORD == n % WORD;
  }

  lemma WordIs(w: seq<byte>, n: int)
    requires |w| == 4
    ensures w == Word(n) <==> Weigh(w) == n % 4294967296
  {
    assert w[0..4] == w && WordAt(w, 0) == Weigh(w);
    WordRoundTrip(n);
    WordBack(w, 0);
    WordOfRest(n);
    hide Word, WordAt, Weigh;
  }

  lemma WordAtIs(b: seq<byte>, off: nat)
    requires off + 4 <= |b|
    ensures WordAt(b, off) == Weigh(b[off..off + 4])
  {
  }

  lemma SignedIs(n: nat, i: int)
    requires n < WORD
    ensures -2147483648 <= i < 2147483648 && n == i % 4294967296 <==> i == Signed(n) as int
  {
  }

  lemma TextIs(s: string, out: seq<byte>)
    ensures EncodeRaw(s) == Some(out) <==> TextForm(out, s)
  {
    hide Word;
    if TextForm(out, s) {
      WordIs(out[..4], |s|);
      assert Latin1(s) by {
        forall i | 0 <= i < |s| ensures s[i] as int <= 0xFF { assert s[i] as int == out[4 + i] as int; }
      }
      assert out == out[..4] + Latin1Encode(s);
    } else if EncodeRaw(s) == Some(out) {
      assert out[..4] == Word(|s|);
      WordIs(out[..4], |s|);
    }
  }

  // ----- the encoder -----

  /** The four bytes of each kind. */
  lemma TagBytes()
    ensures Word(TAG_INT) == [0, 0, 0, 1] && Word(TAG_BOOL) == [0, 0, 0, 2] && Word(TAG_STRING) == [0, 0, 0, 3]
    ensures Word(TAG_DOUBLE) == [0, 0, 0, 4] && Word(TAG_ARRAY) == [0, 0, 1, 0] && Word(TAG_STRUCT) == [0, 0, 1, 1]
  {
  }

  lemma Joined(a: seq<byte>, body: Option<seq<byte>>, out: seq<byte>)
    ensures (if body.None? then None else Some(a + body.value)) == Some(out)
        <==> |out| >= |a| && out[..|a|] == a && body == Some(out[|a|..])
  {
    if |out| >= |a| { assert out == out[..|a|] + out[|a|..]; }
  }

  lemma TaggedIs(tag: int, body: Option<seq<byte>>, out: seq<byte>)
    ensures Tagged(tag, body) == Some(out) <==> |out| >= 4 && out[..4] == Word(tag) && body == Some(out[4..])
  {
    hide Word;
    Joined(Word(tag), body, out);
  }

  lemma CountedIs(n: nat, body: Option<seq<byte>>, out: seq<byte>)
    ensures Both(Some(Word(n)), body) == Some(out)
        <==> |out| >= 4 && Weigh(out[..4]) == n % 4294967296 && body == Some(out[4..])
  {
    hide Word, Weigh;
    Joined(Word(n), body, out);
    if |out| >= 4 { WordIs(out[..4], n); }
  }

  lemma EncodeNumberIs(log: Log, d: Double, out: seq<byte>)
    ensures EncodeNumber(log, d) == Some(out) <==> exists m, e :: NumberForm(Sent(log), out, m, e, d)
  {
    hide EncodeDouble, Word, Weigh;
    if EncodeDouble(log, d).Some? {
      var (m, e) := EncodeDouble(log, d).value;
      EncodedInRange(log, d);
      Joined(Word(m), Some(Word(e)), out);
      if |out| == 8 {
        WordIs(out[..4], m);
        WordIs(out[4..], e);
        assert EncodeNumber(log, d) == Some(out) <==> NumberForm(Sent(log), out, m, e, d);
      }
    }
  }

  /** The encoder writes exactly the form of a value, and nothing when it has none. */
  lemma {:induction false} EncodeIs(log: Log, v: Value, out: seq<byte>)
    ensures Encode(log, v) == Some(out) <==> Form(Sent(log), out, v)
    decreases v, 1
  {
    TagBytes();
    hide Word, Weigh, EncodeRaw, TextForm, EncodeDouble, EncodeNumber, Forms, MemberForms, NumberForm, Tagged, Both;
    match v
    case NilV =>
      TaggedIs(TAG_STRING, EncodeRaw(""), out);
      if |out| >= 4 { TextIs("", out[4..]); }
    case StringV(s) =>
      TaggedIs(TAG_STRING, EncodeRaw(s), out);
      if |out| >= 4 { TextIs(s, out[4..]); }
    case IntV(i) =>
      Joined(Word(TAG_INT), Some(Word(i as int)), out);
      if |out| == 8 { WordIs(out[4..], i as int); }
    case BoolV(f) =>
      Joined(Word(TAG_BOOL), Some([if f then 1 else 0]), out);
      if |out| == 5 { assert out[4..] == [out[4]]; }
    case DoubleV(d) =>
      TaggedIs(TAG_DOUBLE, EncodeNumber(log, d), out);
      if |out| >= 4 { EncodeNumberIs(log, d, out[4..]); }
    case ArrayV(items) => EncodeArrayIs(log, items, out);
    case StructV(members) => EncodeStructIs(log, members, out);
    case _ =>
  }

  lemma {:induction false} EncodeArrayIs(log: Log, items: seq<Value>, out: seq<byte>)
    ensures Encode(log, ArrayV(items)) == Some(out) <==> Form(Sent(log), out, ArrayV(items))
    decreases items, 1
  {
    TagBytes();
    hide Word, Weigh, EncodeAll, Forms, Tagged, Both;
    TaggedIs(TAG_ARRAY, Both(Some(Word(|items|)), EncodeAll(log, items)), out);
    if |out| >= 4 { CountedIs(|items|, EncodeAll(log, items), out[4..]); }
    if |out| >= 8 {
      assert out[4..][..4] == out[4..8] && out[4..][4..] == out[8..];
      EncodeAllIs(log, items, out[8..]);
    }
  }

  lemma {:induction false} EncodeStructIs(log: Log, members: seq<Member>, out: seq<byte>)
    ensures Encode(log, StructV(members)) == Some(out) <==> Form(Sent(log), out, StructV(members))
    decreases members, 1
  {
    TagBytes();
    hide Word, Weigh, EncodeMembers, MemberForms, Tagged, Both;
    TaggedIs(TAG_STRUCT, Both(Some(Word(|members|)), EncodeMembers(log, members)), out);
    if |out| >= 4 { CountedIs(|members|, EncodeMembers(log, members), out[4..]); }
    if |out| >= 8 {
      assert out[4..][..4] == out[4..8] && out[4..][4..] == out[8..];
      EncodeMembersIs(log, members, out[8..]);
    }
  }

  lemma {:induction false} EncodeAllIs(log: Log, vs: seq<Value>, out: seq<byte>)
    ensures EncodeAll(log, vs) == Some(out) <==> Forms(Sent(log), out, vs)
    decreases vs, 0
  {
    hide Encode, Form;
    if vs != [] {
      if EncodeAll(log, vs) == Some(out) {
        var first := Encode(log, vs[0]).value;
        var k := |first|;
        assert out[..k] == first && out[k..] == EncodeAll(log, vs[1..]).value;
        EncodeIs(log, vs[0], out[..k]);
        EncodeAllIs(log, vs[1..], out[k..]);
      }
      if Forms(Sent(log), out, vs) {
        var k :| 0 <= k <= |out| && Form(Sent(log), out[..k], vs[0]) && Forms(Sent(log), out[k..], vs[1..]);
        EncodeIs(log, vs[0], out[..k]);
        EncodeAllIs(log, vs[1..], out[k..]);
        assert out == out[..k] + out[k..];
      }
    }
  }

  lemma {:induction false} EncodeMembersIs(log: Log, ms: seq<Member>, out: seq<byte>)
    ensures EncodeMembers(log, ms) == Some(out) <==> MemberForms(Sent(log), out, ms)
    decreases ms, 0
  {
    hide Encode, Form, EncodeRaw, TextForm;
    if ms != [] {
      if EncodeMembers(log, ms) == Some(out) {
        var name, value := EncodeRaw(ms[0].name).value, Encode(log, ms[0].value).value;
        var j, k := |name|, |name| + |value|;
        assert out[..j] == name && out[j..k] == value && out[k..] == EncodeMembers(log, ms[1..]).value;
        TextIs(ms[0].name, out[..j]);
        EncodeIs(log, ms[0].value, out[j..k]);
        EncodeMembersIs(log, ms[1..], out[k..]);
      }
      if MemberForms(Sent(log), out, ms) {
        var j, k :| 0 <= j <= k <= |out| && TextForm(out[..j], ms[0].name) && Form(Sent(log), out[j..k], ms[0].value)
          && MemberForms(Sent(log), out[k..], ms[1..]);
        TextIs(ms[0].name, out[..j]);
        EncodeIs(log, ms[0].value, out[j..k]);
        EncodeMembersIs(log, ms[1..], out[k..]);
        assert out == out[..j] + out[j..k] + out[k..];
      }
    }
  }

  /** A request goes out as B, i, n and 0, the size of what follows, the name of the method, the
      number of parameters and the parameters, or not at all. */
  lemma WriteIs(log: Log, r: Request, out: seq<byte>)
    ensures WriteRequest(log, r) == Some(out) <==>
      && r.method_ != "" && |out| >= 8 && out[..4] == [0x42, 0x69, 0x6E, 0]
      && |out| - 8 <= 10485760 && Weigh(out[4..8]) == |out| - 8 && RequestForm(Sent(log), out[8..], r)
  {
    hide Word, Weigh, EncodePayload, RequestForm;
    if WriteRequest(log, r) == Some(out) {
      var payload := EncodePayload(log, r).value;
      assert out[..4] == MARKER + [0] && out[4..8] == Word(|payload|) && out[8..] == payload;
      WordIs(out[4..8], |payload|);
      PayloadIs(log, r, payload);
    }
    if |out| >= 8 {
      PayloadIs(log, r, out[8..]);
      WordIs(out[4..8], |out| - 8);
      assert (|out| - 8) % 4294967296 == |out| - 8 || |out| - 8 > 10485760;
      var start := [0x42 as byte, 0x69, 0x6E, 0];
      assert MARKER + [0] == start;
      if out[..4] == start && out[4..8] == Word(|out| - 8) {
        assert out == MARKER + [0] + Word(|out[8..]|) + out[8..];
      }
    }
  }

  lemma PayloadIs(log: Log, r: Request, b: seq<byte>)
    ensures EncodePayload(log, r) == Some(b) <==> r.method_ != "" && RequestForm(Sent(log), b, r)
  {
    hide Word, Weigh, EncodeAll, Forms, EncodeRaw, TextForm;
    if EncodePayload(log, r) == Some(b) {
      var name, body := EncodeRaw(r.method_).value, EncodeAll(log, r.params).value;
      var j := |name|;
      assert b[..j] == name && b[j..j + 4] == Word(|r.params|) && b[j + 4..] == body;
      TextIs(r.method_, b[..j]);
      WordIs(b[j..j + 4], |r.params|);
      EncodeAllIs(log, r.params, b[j + 4..]);
    }
    if r.method_ != "" && RequestForm(Sent(log), b, r) {
      var j :| 0 <= j && j + 4 <= |b| && TextForm(b[..j], r.method_)
        && Weigh(b[j..j + 4]) == |r.params| % 4294967296 && Forms(Sent(log), b[j + 4..], r.params);
      TextIs(r.method_, b[..j]);
      WordIs(b[j..j + 4], |r.params|);
      EncodeAllIs(log, r.params, b[j + 4..]);
      assert b == b[..j] + (b[j..j + 4] + b[j + 4..]);
    }
  }

  // ----- the decoder accepts only forms -----

  lemma SliceTwice(b: seq<byte>, i: nat, j: nat, end: nat)
    requires i <= j <= end <= |b|
    ensures b[i..end][..j - i] == b[i..j] && b[i..end][j - i..] == b[j..end]
  {
  }

  lemma ReadRawForm(b: seq<byte>, off: nat, s: string, end: nat)
    requires off <= |b| <= 10485760
    ensures ReadRaw(b, off).out == Some(s) && ReadRaw(b, off).off == end <==>
      off <= end <= |b| && TextForm(b[off..end], s)
  {
    hide Weigh, WordAt;
    if off + 4 <= |b| { WordAtIs(b, off); }
    if off <= end <= |b| && TextForm(b[off..end], s) {
      var all, part := b[off..end], b[off + 4..end];
      SliceTwice(b, off, off + 4, end);
      assert forall i :: 0 <= i < |s| ==> part[i] == all[4 + i];
      assert Latin1Decode(part) == s;
    }
    var r := ReadRaw(b, off);
    if r.out == Some(s) && r.off == end {
      var all, part := b[off..end], b[off + 4..end];
      SliceTwice(b, off, off + 4, end);
      assert forall i :: 0 <= i < |s| ==> part[i] == all[4 + i];
    }
  }

  /** What the decoder saw, by the kind it found. */
  lemma DecodeStep(b: seq<byte>, off: nat, depth: nat)
    requires off <= |b| && Decode(b, off, depth).out.Some?
    ensures off + 4 <= |b| && depth <= 64
    ensures var r, tag, at := Decode(b, off, depth), b[off..off + 4], off + 4;
      match r.out.value
      case IntV(i) => tag == [0, 0, 0, 1] && at + 4 == r.off <= |b| && i == Signed(WordAt(b, at))
      case BoolV(f) => tag == [0, 0, 0, 2] && at + 1 == r.off <= |b| && f == (b[at] != 0)
      case StringV(s) => tag == [0, 0, 0, 3] && ReadRaw(b, at).out == Some(s) && ReadRaw(b, at).off == r.off
      case DoubleV(d) => tag == [0, 0, 0, 4] && at + 8 == r.off <= |b|
        && d == DecodeDouble(Signed(WordAt(b, at)), Signed(WordAt(b, at + 4)))
      case ArrayV(items) => tag == [0, 0, 1, 0] && at + 4 <= |b|
        && var vs := DecodeCounted(b, at + 4, WordAt(b, at), depth + 1); vs.out == Some(items) && vs.off == r.off
      case StructV(members) => tag == [0, 0, 1, 1] && at + 4 <= |b| && WordAt(b, at) <= (|b| - (at + 4)) / 8
        && var ms := DecodeMembers(b, at + 4, WordAt(b, at), depth); ms.out == Some(members) && ms.off == r.off
      case _ => false
  {
    TagBytes();
    TagAt(b, off);
    hide Word, WordAt, DecodeDouble, ReadRaw, DecodeCounted, DecodeMembers, Signed;
  }

  lemma {:induction false} DecodeSound(b: seq<byte>, off: nat, depth: nat)
    requires off <= |b| <= 10485760
    ensures var r := Decode(b, off, depth);
      r.out.Some? ==> Form(Received(), b[off..r.off], r.out.value) && Fits(r.out.value, 64 - depth)
    decreases |b| - off, 0
  {
    var r := Decode(b, off, depth);
    if r.out.Some? {
      var at := off + 4;
      DecodeStep(b, off, depth);
      SliceTwice(b, off, at, r.off);
      hide Weigh, WordAt, Decode, DecodeDouble, Word, ReadRaw, TextForm, DecodeCounted, DecodeMembers, Forms,
          MemberForms, NumberForm, Signed, AllFit, MembersFit;
      match r.out.value
      case IntV(i) =>
        WordAtIs(b, at);
        SignedIs(WordAt(b, at), i as int);
      case StringV(s) => ReadRawForm(b, at, s, r.off);
      case DoubleV(d) => DoubleSound(b, at);
      case ArrayV(items) => ArraySound(b, off, depth);
      case StructV(members) => StructSound(b, off, depth);
      case _ =>
    }
  }

  lemma {:induction false} ArraySound(b: seq<byte>, off: nat, depth: nat)
    requires off <= |b| <= 10485760
    requires Decode(b, off, depth).out.Some? && Decode(b, off, depth).out.value.ArrayV?
    ensures var r := Decode(b, off, depth);
      Form(Received(), b[off..r.off], r.out.value) && Fits(r.out.value, 64 - depth)
    decreases |b| - off - 4, 0x1_0000_0004
  {
    var r, at := Decode(b, off, depth), off + 4;
    DecodeStep(b, off, depth);
    hide Weigh, WordAt, Decode, DecodeCounted, Forms, AllFit;
    WordAtIs(b, at);
    CountedSound(b, at + 4, WordAt(b, at), depth + 1);
    CountSlice(b, off, r.off, |r.out.value.items|);
  }

  lemma {:induction false} StructSound(b: seq<byte>, off: nat, depth: nat)
    requires off <= |b| <= 10485760
    requires Decode(b, off, depth).out.Some? && Decode(b, off, depth).out.value.StructV?
    ensures var r := Decode(b, off, depth);
      Form(Received(), b[off..r.off], r.out.value) && Fits(r.out.value, 64 - depth)
    decreases |b| - off - 4, 0x1_0000_0004
  {
    var r, at := Decode(b, off, depth), off + 4;
    DecodeStep(b, off, depth);
    hide Weigh, WordAt, Decode, DecodeMembers, MemberForms, MembersFit;
    WordAtIs(b, at);
    MembersSound(b, at + 4, WordAt(b, at), depth);
    CountSlice(b, off, r.off, |r.out.value.members|);
  }

  /** The count behind a tag. */
  lemma CountSlice(b: seq<byte>, off: nat, end: nat, n: nat)
    requires off + 8 <= end <= |b|
    ensures var part := b[off..end];
      part[..4] == b[off..off + 4] && part[4..8] == b[off + 4..off + 8] && part[8..] == b[off + 8..end]
    ensures n < 10485760 ==> n % 4294967296 == n
  {
    var x, y, z := b[off..off + 4], b[off + 4..off + 8], b[off + 8..end];
    assert b[off..end] == x + y + z;
  }

  /** A word is one of the kinds exactly when it is their number. */
  lemma TagAt(b: seq<byte>, off: nat)
    requires off + 4 <= |b|
    ensures b[off..off + 4] == Word(WordAt(b, off))
  {
    WordBack(b, off);
  }

  lemma DoubleSound(b: seq<byte>, at: nat)
    requires at + 8 <= |b|
    ensures var m, e := Signed(WordAt(b, at)) as int, Signed(WordAt(b, at + 4)) as int;
      NumberForm(Received(), b[at..at + 8], m, e, DecodeDouble(m, e))
  {
    hide DecodeDouble, Weigh, WordAt;
    WordAtIs(b, at);
    WordAtIs(b, at + 4);
    SliceTwice(b, at, at + 4, at + 8);
    SignedIs(WordAt(b, at), Signed(WordAt(b, at)) as int);
    SignedIs(WordAt(b, at + 4), Signed(WordAt(b, at + 4)) as int);
  }

  lemma {:induction false} CountedSound(b: seq<byte>, off: nat, n: nat, depth: nat)
    requires off <= |b| <= 10485760
    ensures var r := DecodeCounted(b, off, n, depth);
      r.out.Some? ==>
        |r.out.value| == n < 10485760 && Forms(Received(), b[off..r.off], r.out.value)
        && AllFit(r.out.value, 64 - depth)
    decreases |b| - off, n + 2
  {
    hide DecodeSeq, Forms, AllFit;
    if n <= (|b| - off) / MIN_VALUE { SeqSound(b, off, n, depth); }
  }

  lemma {:induction false} SeqSound(b: seq<byte>, off: nat, n: nat, depth: nat)
    requires off <= |b| <= 10485760
    ensures var r := DecodeSeq(b, off, n, depth);
      r.out.Some? ==>
        |r.out.value| == n && Forms(Received(), b[off..r.off], r.out.value) && AllFit(r.out.value, 64 - depth)
    decreases |b| - off, n + 1
  {
    hide Decode, Form, Fits;
    var r := DecodeSeq(b, off, n, depth);
    if n > 0 && r.out.Some? {
      var v := Decode(b, off, depth);
      DecodeSound(b, off, depth);
      SeqSound(b, v.off, n - 1, depth);
      SliceTwice(b, off, v.off, r.off);
      assert r.out.value[1..] == DecodeSeq(b, v.off, n - 1, depth).out.value;
      assert 0 <= v.off - off <= |b[off..r.off]|;
    }
  }

  lemma {:induction false} MembersSound(b: seq<byte>, off: nat, n: nat, depth: nat)
    requires off <= |b| <= 10485760
    ensures var r := DecodeMembers(b, off, n, depth);
      r.out.Some? ==>
        |r.out.value| == n && MemberForms(Received(), b[off..r.off], r.out.value)
        && MembersFit(r.out.value, 64 - depth - 1)
    decreases |b| - off, n + 1
  {
    hide Decode, Form, Fits, ReadRaw, TextForm;
    var r := DecodeMembers(b, off, n, depth);
    if n > 0 && r.out.Some? {
      var name := ReadRaw(b, off);
      var v := Decode(b, name.off, depth + 1);
      ReadRawForm(b, off, name.out.value, name.off);
      DecodeSound(b, name.off, depth + 1);
      MembersSound(b, v.off, n - 1, depth);
      SliceTwice(b, off, name.off, r.off);
      SliceTwice(b, name.off, v.off, r.off);
      assert b[off..r.off][name.off - off..v.off - off] == b[name.off..v.off];
      assert b[off..r.off][v.off - off..] == b[v.off..r.off];
      assert r.out.value[1..] == DecodeMembers(b, v.off, n - 1, depth).out.value;
    }
  }

  // ----- the decoder accepts every form -----

  lemma {:induction false} FormsLength(rd: Reading, b: seq<byte>, vs: seq<Value>)
    requires Forms(rd, b, vs)
    ensures 4 * |vs| <= |b|
    decreases vs
  {
    if vs != [] {
      var k :| 0 <= k <= |b| && Form(rd, b[..k], vs[0]) && Forms(rd, b[k..], vs[1..]);
      FormsLength(rd, b[k..], vs[1..]);
    }
  }

  lemma {:induction false} MemberFormsLength(rd: Reading, b: seq<byte>, ms: seq<Member>)
    requires MemberForms(rd, b, ms)
    ensures 8 * |ms| <= |b|
    decreases ms
  {
    if ms != [] {
      var j, k :| 0 <= j <= k <= |b| && TextForm(b[..j], ms[0].name) && Form(rd, b[j..k], ms[0].value)
        && MemberForms(rd, b[k..], ms[1..]);
      MemberFormsLength(rd, b[k..], ms[1..]);
    }
  }

  /** One step of the decoder at bytes that begin with this tag. */
  lemma StepAt(b: seq<byte>, off: nat, depth: nat)
    requires off + 4 <= |b| && depth <= 64
    ensures var r, tag, at := Decode(b, off, depth), b[off..off + 4], off + 4;
      && (tag == [0, 0, 0, 1] && at + 4 <= |b| ==> r.out == Some(IntV(Signed(WordAt(b, at)))) && r.off == at + 4)
      && (tag == [0, 0, 0, 2] && at + 1 <= |b| ==> r.out == Some(BoolV(b[at] != 0)) && r.off == at + 1)
      && (tag == [0, 0, 0, 3] && ReadRaw(b, at).out.Some? ==>
           r.out == Some(StringV(ReadRaw(b, at).out.value)) && r.off == ReadRaw(b, at).off)
      && (tag == [0, 0, 0, 4] && at + 8 <= |b| ==>
           r.out == Some(DoubleV(DecodeDouble(Signed(WordAt(b, at)), Signed(WordAt(b, at + 4))))) && r.off == at + 8)
      && (tag == [0, 0, 1, 0] && at + 4 <= |b| ==>
           var vs := DecodeCounted(b, at + 4, WordAt(b, at), depth + 1);
           if vs.out.Some? then r.out == Some(ArrayV(vs.out.value)) && r.off == vs.off else r.out == None)
      && (tag == [0, 0, 1, 1] && at + 4 <= |b| && WordAt(b, at) <= (|b| - (at + 4)) / 8 ==>
           var ms := DecodeMembers(b, at + 4, WordAt(b, at), depth);
           if ms.out.Some? then r.out == Some(StructV(ms.out.value)) && r.off == ms.off else r.out == None)
  {
    TagBytes();
    TagAt(b, off);
    var n := WordAt(b, off);
    TagOnly(n);
    hide Word, WordAt, DecodeDouble, ReadRaw, DecodeCounted, DecodeMembers, Signed;
  }

  lemma TagOnly(n: nat)
    requires n < WORD
    ensures Word(n) == [0, 0, 0, 1] ==> n == TAG_INT
    ensures Word(n) == [0, 0, 0, 2] ==> n == TAG_BOOL
    ensures Word(n) == [0, 0, 0, 3] ==> n == TAG_STRING
    ensures Word(n) == [0, 0, 0, 4] ==> n == TAG_DOUBLE
    ensures Word(n) == [0, 0, 1, 0] ==> n == TAG_ARRAY
    ensures Word(n) == [0, 0, 1, 1] ==> n == TAG_STRUCT
  {
    WordRoundTrip(n);
  }

  /** Any bytes of the form of a value are decoded to it wherever they stand, unless it nests too deep. */
  lemma {:induction false} DecodeComplete(b: seq<byte>, off: nat, end: nat, depth: nat, v: Value)
    requires off <= end <= |b| <= 10485760 && Form(Received(), b[off..end], v)
    ensures var r := Decode(b, off, depth);
      if Fits(v, 64 - depth) then r.out == Some(v) && r.off == end else r.out == None
    decreases v, 1
  {
    if depth <= 64 {
      var at := off + 4;
      SliceTwice(b, off, at, end);
      StepAt(b, off, depth);
      hide Weigh, WordAt, Decode, DecodeDouble, Word, ReadRaw, TextForm, DecodeCounted, DecodeMembers, Forms,
          MemberForms, NumberForm, Signed, AllFit, MembersFit;
      match v
      case IntV(i) =>
        WordAtIs(b, at);
        SignedIs(WordAt(b, at), i as int);
      case StringV(s) => ReadRawForm(b, at, s, end);
      case DoubleV(d) =>
        assert |b[at..end]| == 8 by { NumbersAreEight(b[at..end], d); }
        DoubleComplete(b, at, b[at..end], d);
      case ArrayV(items) => WholeArray(b, off, end, depth, items);
      case StructV(members) => WholeStruct(b, off, end, depth, members);
      case _ =>
    }
  }

  lemma StepArray(b: seq<byte>, off: nat, depth: nat)
    requires off + 8 <= |b| && depth <= 64 && b[off..off + 4] == [0, 0, 1, 0]
    ensures var r, vs := Decode(b, off, depth), DecodeCounted(b, off + 8, WordAt(b, off + 4), depth + 1);
      if vs.out.Some? then r.out == Some(ArrayV(vs.out.value)) && r.off == vs.off else r.out == None
  {
    StepAt(b, off, depth);
    hide Decode, DecodeCounted, DecodeMembers, ReadRaw, WordAt;
  }

  lemma {:induction false} WholeArray(b: seq<byte>, off: nat, end: nat, depth: nat, items: seq<Value>)
    requires off <= end <= |b| <= 10485760 && Form(Received(), b[off..end], ArrayV(items)) && depth <= 64
    ensures var r := Decode(b, off, depth);
      if Fits(ArrayV(items), 64 - depth) then r.out == Some(ArrayV(items)) && r.off == end else r.out == None
    decreases items, 2
  {
    var at := off + 4;
    StepArray(b, off, depth);
    CountSlice(b, off, end, |items|);
    hide Weigh, WordAt, Decode, DecodeCounted, Forms, AllFit;
    WordAtIs(b, at);
    ArrayComplete(b, at + 4, end, depth + 1, items);
  }

  lemma {:induction false} WholeStruct(b: seq<byte>, off: nat, end: nat, depth: nat, members: seq<Member>)
    requires off <= end <= |b| <= 10485760 && Form(Received(), b[off..end], StructV(members)) && depth <= 64
    ensures var r := Decode(b, off, depth);
      if Fits(StructV(members), 64 - depth) then r.out == Some(StructV(members)) && r.off == end else r.out == None
    decreases members, 2
  {
    var at := off + 4;
    StepAt(b, off, depth);
    CountSlice(b, off, end, |members|);
    hide Weigh, WordAt, Decode, DecodeMembers, MemberForms, MembersFit;
    WordAtIs(b, at);
    MemberFormsLength(Received(), b[at + 4..end], members);
    MembersComplete(b, at + 4, end, depth, members);
  }

  lemma NumbersAreEight(part: seq<byte>, d: Double)
    ensures (exists m, e :: NumberForm(Received(), part, m, e, d)) ==> |part| == 8
  {
  }

  lemma DoubleComplete(b: seq<byte>, at: nat, part: seq<byte>, d: Double)
    requires at + 8 <= |b| && part == b[at..at + 8] && exists m, e :: NumberForm(Received(), part, m, e, d)
    ensures d == DecodeDouble(Signed(WordAt(b, at)), Signed(WordAt(b, at + 4)))
  {
    var m, e :| NumberForm(Received(), part, m, e, d);
    hide DecodeDouble, Weigh, WordAt;
    WordAtIs(b, at);
    WordAtIs(b, at + 4);
    SliceTwice(b, at, at + 4, at + 8);
    SignedIs(WordAt(b, at), m);
    SignedIs(WordAt(b, at + 4), e);
  }

  lemma {:induction false} ArrayComplete(b: seq<byte>, off: nat, end: nat, depth: nat, vs: seq<Value>)
    requires off <= end <= |b| <= 10485760 && Forms(Received(), b[off..end], vs)
    ensures var r := DecodeCounted(b, off, |vs|, depth);
      if AllFit(vs, 64 - depth) then r.out == Some(vs) && r.off == end else r.out == None
    ensures |vs| < 10485760
    decreases vs, 1
  {
    hide DecodeSeq, AllFit, Forms;
    FormsLength(Received(), b[off..end], vs);
    SeqComplete(b, off, end, depth, vs);
  }

  lemma {:induction false} SeqComplete(b: seq<byte>, off: nat, end: nat, depth: nat, vs: seq<Value>)
    requires off <= end <= |b| <= 10485760 && Forms(Received(), b[off..end], vs)
    ensures var r := DecodeSeq(b, off, |vs|, depth);
      if AllFit(vs, 64 - depth) then r.out == Some(vs) && r.off == end else r.out == None
    decreases vs, 0
  {
    hide Decode, Form, Fits;
    if vs != [] {
      var part := b[off..end];
      var k :| 0 <= k <= |part| && Form(Received(), part[..k], vs[0]) && Forms(Received(), part[k..], vs[1..]);
      SliceTwice(b, off, off + k, end);
      DecodeComplete(b, off, off + k, depth, vs[0]);
      assert vs == [vs[0]] + vs[1..];
      if Fits(vs[0], 64 - depth) { SeqComplete(b, off + k, end, depth, vs[1..]); }
    }
  }

  lemma MembersStep(b: seq<byte>, off: nat, n: nat, depth: nat, name: string, j: nat, k: nat, v: Value)
    requires off <= |b| && n > 0 && ReadRaw(b, off).out == Some(name) && ReadRaw(b, off).off == j
    ensures j <= |b| && var first, r := Decode(b, j, depth + 1), DecodeMembers(b, off, n, depth);
      && (first.out == None ==> r.out == None)
      && (first.out == Some(v) && first.off == k ==>
           k <= |b| && var rest := DecodeMembers(b, k, n - 1, depth);
           if rest.out.Some? then r.out == Some([Member(name, v)] + rest.out.value) && r.off == rest.off
           else r.out == None)
  {
    hide Decode, ReadRaw;
  }

  lemma {:induction false} MembersComplete(b: seq<byte>, off: nat, end: nat, depth: nat, ms: seq<Member>)
    requires off <= end <= |b| <= 10485760 && MemberForms(Received(), b[off..end], ms)
    ensures var r := DecodeMembers(b, off, |ms|, depth);
      if MembersFit(ms, 64 - depth - 1) then r.out == Some(ms) && r.off == end else r.out == None
    decreases ms, 1
  {
    hide Decode, Form, Fits, ReadRaw, TextForm;
    if ms != [] {
      var part := b[off..end];
      var j, k :| 0 <= j <= k <= |part| && TextForm(part[..j], ms[0].name)
        && Form(Received(), part[j..k], ms[0].value) && MemberForms(Received(), part[k..], ms[1..]);
      SliceTwice(b, off, off + j, end);
      SliceTwice(b, off, off + k, end);
      assert part[j..k] == b[off + j..off + k];
      MembersNext(b, off, off + j, off + k, end, depth, ms);
    }
  }

  lemma {:induction false} MembersNext(b: seq<byte>, off: nat, j: nat, k: nat, end: nat, depth: nat, ms: seq<Member>)
    requires off <= j <= k <= end <= |b| <= 10485760 && ms != []
    requires TextForm(b[off..j], ms[0].name) && Form(Received(), b[j..k], ms[0].value)
    requires MemberForms(Received(), b[k..end], ms[1..])
    ensures var r := DecodeMembers(b, off, |ms|, depth);
      if MembersFit(ms, 64 - depth - 1) then r.out == Some(ms) && r.off == end else r.out == None
    decreases ms, 0
  {
    hide Decode, Form, Fits, ReadRaw, TextForm, DecodeMembers, MemberForms;
    ReadRawForm(b, off, ms[0].name, j);
    DecodeComplete(b, j, k, depth + 1, ms[0].value);
    MembersStep(b, off, |ms|, depth, ms[0].name, j, k, ms[0].value);
    assert ms == [ms[0]] + ms[1..];
    if Fits(ms[0].value, 64 - depth - 1) { MembersComplete(b, k, end, depth, ms[1..]); }
  }

  /** The decoder reads a value and stops exactly where bytes of its form end, if and only if it
      nests at most 64 deep. */
  lemma DecodeIs(b: seq<byte>, off: nat, depth: nat, v: Value, end: nat)
    requires off <= |b| <= 10485760
    ensures var r := Decode(b, off, depth);
      r.out == Some(v) && r.off == end <==>
        off <= end <= |b| && Form(Received(), b[off..end], v) && Fits(v, 64 - depth)
  {
    hide Decode, Form, Fits;
    DecodeSound(b, off, depth);
    if off <= end <= |b| && Form(Received(), b[off..end], v) { DecodeComplete(b, off, end, depth, v); }
  }

  /** A stream is read as a request if and only if it begins with B, i, n and 0, the size of what
      follows, at most 10 MiB, and then the form of that request, nested at most 64 deep. */
  lemma ReadIs(stream: seq<byte>, r: Request)
    ensures ReadRequest(stream) == Some(r) <==>
      && |stream| >= 8 && stream[..4] == [0x42, 0x69, 0x6E, 0]
      && var n := Weigh(stream[4..8]);
      && n <= 10485760 && 8 + n <= |stream| && RequestForm(Received(), stream[8..8 + n], r) && AllFit(r.params, 64)
  {
    hide WordAt, Weigh, RequestForm, DecodePayload, AllFit;
    if |stream| >= 8 {
      WordAtIs(stream, 4);
      FrameStart(stream);
      var n := WordAt(stream, 4);
      if n <= 10485760 && 8 + n <= |stream| { PayloadRead(stream[8..8 + n], r); }
    }
  }

  lemma FrameStart(stream: seq<byte>)
    requires |stream| >= 4
    ensures stream[..4] == [0x42, 0x69, 0x6E, 0] <==> stream[..3] == MARKER && stream[3] == 0
  {
    assert stream[..4] == stream[..3] + [stream[3]];
    assert MARKER + [0] == [0x42, 0x69, 0x6E, 0];
    if stream[..4] == MARKER + [0] { assert stream[..3] == stream[..4][..3] && stream[3] == stream[..4][3]; }
  }

  lemma PayloadRead(b: seq<byte>, r: Request)
    requires |b| <= 10485760
    ensures DecodePayload(b).out == Some(r) <==> RequestForm(Received(), b, r) && AllFit(r.params, 64)
  {
    hide WordAt, Weigh, ReadRaw, TextForm, DecodeCounted, Forms, AllFit;
    if DecodePayload(b).out == Some(r) {
      var name := ReadRaw(b, 0);
      var j := name.off;
      ReadRawForm(b, 0, r.method_, j);
      assert b[0..j] == b[..j] && b[j + 4..|b|] == b[j + 4..];
      WordAtIs(b, j);
      CountedSound(b, j + 4, WordAt(b, j), 0);
      assert |r.params| % 4294967296 == |r.params|;
    }
    if RequestForm(Received(), b, r) && AllFit(r.params, 64) {
      var j :| 0 <= j && j + 4 <= |b| && TextForm(b[..j], r.method_)
        && Weigh(b[j..j + 4]) == |r.params| % 4294967296 && Forms(Received(), b[j + 4..], r.params);
      assert b[0..j] == b[..j] && b[j + 4..|b|] == b[j + 4..];
      ReadRawForm(b, 0, r.method_, j);
      WordAtIs(b, j);
      ArrayComplete(b, j + 4, |b|, 0, r.params);
    }
  }
}
