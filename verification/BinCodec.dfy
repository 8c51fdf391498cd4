/** The BIN-RPC wire form: big-endian words, Latin-1 strings, tagged values, framed requests;
    as functions on bytes, with the decoder's count and depth guards. */
module BinCodec {
  import opened Collections
  import opened BinDouble

  type byte = x: int | 0 <= x < 0x100
  type int32 = x: int | INT_MIN <= x <= INT_MAX

  /** Absent is a missing value, as opposed to the nil value of the protocol. */
  datatype Value =
    | Absent
    | NilV
    | IntV(i: int32)
    | BoolV(b: bool)
    | StringV(s: string)
    | DoubleV(d: Double)
    | ArrayV(items: seq<Value>)
    | StructV(members: seq<Member>)
    | DateTimeV(t: string)
    | Base64V(data: seq<byte>)

  datatype Member = Member(name: string, value: Value)

  datatype Request = Request(method_: string, params: seq<Value>)

  const TAG_INT := 0x01
  const TAG_BOOL := 0x02
  const TAG_STRING := 0x03
  const TAG_DOUBLE := 0x04
  const TAG_ARRAY := 0x100
  const TAG_STRUCT := 0x101
  const MAX_MESSAGE := 10485760
  const MAX_DEPTH := 64
  const MIN_VALUE := 4
  const MIN_MEMBER := 8
  const WORD := 0x1_0000_0000

  // ----- words and strings -----

  /** The low 32 bits, most significant byte first. */
  function Word(n: int): (bs: seq<byte>)
    ensures |bs| == 4
  {
    var w := n % WORD;
    [w / 0x100_0000, w / 0x1_0000 % 0x100, w / 0x100 % 0x100, w % 0x100]
  }

  function WordAt(b: seq<byte>, off: nat): (n: nat)
    requires off + 4 <= |b|
    ensures n < WORD
  {
    (b[off] as int) * 0x100_0000 + (b[off + 1] as int) * 0x1_0000 + (b[off + 2] as int) * 0x100 + (b[off + 3] as int)
  }

  /** Reads a word as a signed number. */
  function Signed(n: nat): (i: int32)
    requires n < WORD
  {
    if n <= INT_MAX then n else n - WORD
  }

  predicate Latin1(s: string) {
    forall i :: 0 <= i < |s| ==> s[i] as int <= 0xFF
  }

  function Latin1Encode(s: string): (bs: seq<byte>)
    requires Latin1(s)
    ensures |bs| == |s|
  {
    seq(|s|, i requires 0 <= i < |s| => s[i] as int)
  }

  function Latin1Decode(bs: seq<byte>): (s: string)
    ensures |s| == |bs| && Latin1(s)
  {
    seq(|bs|, i requires 0 <= i < |bs| => bs[i] as char)
  }

  // ----- encoding -----

  function EncodeRaw(s: string): Option<seq<byte>> {
    if Latin1(s) then Some(Word(|s|) + Latin1Encode(s)) else None
  }

  function Tagged(tag: int, body: Option<seq<byte>>): Option<seq<byte>> {
    if body.None? then None else Some(Word(tag) + body.value)
  }

  function Both(a: Option<seq<byte>>, b: Option<seq<byte>>): Option<seq<byte>> {
    if a.None? || b.None? then None else Some(a.value + b.value)
  }

  function EncodeNumber(log: Log, d: Double): Option<seq<byte>> {
    match EncodeDouble(log, d)
    case None => None
    case Some((m, e)) => Some(Word(m) + Word(e))
  }

  function Encode(log: Log, v: Value): Option<seq<byte>>
    decreases v, 1
  {
    match v
    case NilV => Tagged(TAG_STRING, EncodeRaw(""))
    case IntV(i) => Some(Word(TAG_INT) + Word(i))
    case BoolV(b) => Some(Word(TAG_BOOL) + [if b then 1 else 0])
    case StringV(s) => Tagged(TAG_STRING, EncodeRaw(s))
    case DoubleV(d) => Tagged(TAG_DOUBLE, EncodeNumber(log, d))
    case ArrayV(items) => Tagged(TAG_ARRAY, Both(Some(Word(|items|)), EncodeAll(log, items)))
    case StructV(members) => Tagged(TAG_STRUCT, Both(Some(Word(|members|)), EncodeMembers(log, members)))
    case Absent => None
    case DateTimeV(_) => None
    case Base64V(_) => None
  }

  function EncodeAll(log: Log, vs: seq<Value>): Option<seq<byte>>
    decreases vs, 0
  {
    if vs == [] then Some([]) else Both(Encode(log, vs[0]), EncodeAll(log, vs[1..]))
  }

  function EncodeMembers(log: Log, ms: seq<Member>): Option<seq<byte>>
    decreases ms, 0
  {
    if ms == [] then Some([])
    else Both(Both(EncodeRaw(ms[0].name), Encode(log, ms[0].value)), EncodeMembers(log, ms[1..]))
  }

  function EncodePayload(log: Log, r: Request): Option<seq<byte>> {
    if r.method_ == "" then None
    else Both(EncodeRaw(r.method_), Both(Some(Word(|r.params|)), EncodeAll(log, r.params)))
  }

  const MARKER: seq<byte> := [0x42, 0x69, 0x6E]

  function Frame(msgType: byte, payload: seq<byte>): Option<seq<byte>> {
    if |payload| > MAX_MESSAGE then None else Some(MARKER + [msgType] + Word(|payload|) + payload)
  }

  function WriteRequest(log: Log, r: Request): Option<seq<byte>> {
    var payload := EncodePayload(log, r);
    if payload.None? then None else Frame(0, payload.value)
  }

  // ----- decoding -----

  /** The value and the position after it, if decoding succeeded, and the bool bytes and doubles
      seen on the way; and in either case how many slots were allocated ahead of their content. */
  datatype Read<+T> = Read(out: Option<T>, off: nat, slots: nat, seen: seq<Mark>)

  /** A bool byte or a double as it stood on the wire. */
  datatype Mark = Flag(b: byte) | Pair(m: int32, e: int32)

  function Bad<T>(slots: nat): Read<T> { Read(None, 0, slots, []) }

  function ReadRaw(b: seq<byte>, off: nat): (r: Read<string>)
    requires off <= |b|
    ensures r.out.Some? ==> off + 4 <= r.off <= |b|
    ensures r.slots == 0 && r.seen == []
  {
    if off + 4 > |b| then Bad(0)
    else
      var n := WordAt(b, off);
      if n > |b| - (off + 4) then Bad(0)
      else Read(Some(Latin1Decode(b[off + 4..off + 4 + n])), off + 4 + n, 0, [])
  }

  function Decode(b: seq<byte>, off: nat, depth: nat): (r: Read<Value>)
    requires off <= |b|
    ensures r.out.Some? ==> off + 4 <= r.off <= |b|
    decreases |b| - off, 0
  {
    if depth > MAX_DEPTH || off + 4 > |b| then Bad(0)
    else
      var tag, at := WordAt(b, off), off + 4;
      if tag == TAG_INT then
        if at + 4 > |b| then Bad(0) else Read(Some(IntV(Signed(WordAt(b, at)))), at + 4, 0, [])
      else if tag == TAG_BOOL then
        if at + 1 > |b| then Bad(0) else Read(Some(BoolV(b[at] != 0)), at + 1, 0, [Flag(b[at])])
      else if tag == TAG_STRING then
        var s := ReadRaw(b, at);
        if s.out.None? then Bad(0) else Read(Some(StringV(s.out.value)), s.off, 0, [])
      else if tag == TAG_DOUBLE then
        if at + 8 > |b| then Bad(0)
        else
          var m, e := Signed(WordAt(b, at)), Signed(WordAt(b, at + 4));
          Read(Some(DoubleV(DecodeDouble(m, e))), at + 8, 0, [Pair(m, e)])
      else if tag == TAG_ARRAY then
        if at + 4 > |b| then Bad(0)
        else
          var vs := DecodeCounted(b, at + 4, WordAt(b, at), depth + 1);
          if vs.out.None? then Bad(vs.slots) else Read(Some(ArrayV(vs.out.value)), vs.off, vs.slots, vs.seen)
      else if tag == TAG_STRUCT then
        if at + 4 > |b| then Bad(0)
        else
          var n := WordAt(b, at);
          if n > (|b| - (at + 4)) / MIN_MEMBER then Bad(0)
          else
            var ms := DecodeMembers(b, at + 4, n, depth);
            if ms.out.None? then Bad(n + ms.slots)
            else Read(Some(StructV(ms.out.value)), ms.off, n + ms.slots, ms.seen)
      else Bad(0)
  }

  /** A counted list: the count is checked against the bytes left before anything is allocated. */
  function DecodeCounted(b: seq<byte>, off: nat, n: nat, depth: nat): (r: Read<seq<Value>>)
    requires off <= |b|
    ensures r.out.Some? ==> off <= r.off <= |b|
    decreases |b| - off, n + 2
  {
    if n > (|b| - off) / MIN_VALUE then Bad(0)
    else
      var vs := DecodeSeq(b, off, n, depth);
      Read(vs.out, vs.off, n + vs.slots, vs.seen)
  }

  function DecodeSeq(b: seq<byte>, off: nat, n: nat, depth: nat): (r: Read<seq<Value>>)
    requires off <= |b|
    ensures r.out.Some? ==> off + 4 * n <= r.off <= |b|
    decreases |b| - off, n + 1
  {
    if n == 0 then Read(Some([]), off, 0, [])
    else
      var v := Decode(b, off, depth);
      if v.out.None? then Bad(v.slots)
      else
        var rest := DecodeSeq(b, v.off, n - 1, depth);
        if rest.out.None? then Bad(v.slots + rest.slots)
        else Read(Some([v.out.value] + rest.out.value), rest.off, v.slots + rest.slots, v.seen + rest.seen)
  }

  function DecodeMembers(b: seq<byte>, off: nat, n: nat, depth: nat): (r: Read<seq<Member>>)
    requires off <= |b|
    ensures r.out.Some? ==> off + 8 * n <= r.off <= |b|
    decreases |b| - off, n + 1
  {
    if n == 0 then Read(Some([]), off, 0, [])
    else
      var name := ReadRaw(b, off);
      if name.out.None? then Bad(0)
      else
        var v := Decode(b, name.off, depth + 1);
        if v.out.None? then Bad(v.slots)
        else
          var rest := DecodeMembers(b, v.off, n - 1, depth);
          if rest.out.None? then Bad(v.slots + rest.slots)
          else Read(Some([Member(name.out.value, v.out.value)] + rest.out.value), rest.off,
                    v.slots + rest.slots, v.seen + rest.seen)
  }

  function DecodePayload(b: seq<byte>): (r: Read<Request>)
    ensures r.out.Some? ==> r.off == |b|
  {
    var name := ReadRaw(b, 0);
    if name.out.None? || name.off + 4 > |b| then Bad(0)
    else
      var vs := DecodeCounted(b, name.off + 4, WordAt(b, name.off), 0);
      if vs.out.None? || vs.off != |b| then Bad(vs.slots)
      else Read(Some(Request(name.out.value, vs.out.value)), vs.off, vs.slots, vs.seen)
  }

  /** The payload of the frame a stream starts with. */
  function ReadFrame(stream: seq<byte>): Option<(byte, seq<byte>)> {
    if |stream| < 8 || stream[..3] != MARKER then None
    else
      var size := WordAt(stream, 4);
      if size > MAX_MESSAGE || 8 + size > |stream| then None else Some((stream[3], stream[8..8 + size]))
  }

  function ReadRequest(stream: seq<byte>): Option<Request> {
    var f := ReadFrame(stream);
    if f.None? || f.value.0 != 0 then None else DecodePayload(f.value.1).out
  }

  // ----- what a value becomes on the way -----

  function Normal(log: Log, v: Value): Value
    decreases v, 1
  {
    match v
    case NilV => StringV("")
    case DoubleV(d) => DoubleV(Quantise(log, d))
    case ArrayV(items) => ArrayV(NormalAll(log, items))
    case StructV(members) => StructV(NormalMembers(log, members))
    case _ => v
  }

  function NormalAll(log: Log, vs: seq<Value>): seq<Value>
    decreases vs, 0
  {
    if vs == [] then [] else [Normal(log, vs[0])] + NormalAll(log, vs[1..])
  }

  function NormalMembers(log: Log, ms: seq<Member>): seq<Member>
    decreases ms, 0
  {
    if ms == [] then [] else [Member(ms[0].name, Normal(log, ms[0].value))] + NormalMembers(log, ms[1..])
  }

  /** Nested at most `room` levels below its own. */
  predicate Fits(v: Value, room: int)
    decreases v, 1
  {
    room >= 0 &&
    match v
    case ArrayV(items) => AllFit(items, room - 1)
    case StructV(members) => MembersFit(members, room - 1)
    case _ => true
  }

  predicate AllFit(vs: seq<Value>, room: int)
    decreases vs, 0
  {
    vs == [] || (Fits(vs[0], room) && AllFit(vs[1..], room))
  }

  predicate MembersFit(ms: seq<Member>, room: int)
    decreases ms, 0
  {
    ms == [] || (Fits(ms[0].value, room) && MembersFit(ms[1..], room))
  }

  // ----- round trips of words and strings -----

  lemma WordRoundTrip(n: int)
    ensures WordAt(Word(n), 0) == n % WORD
  {
    var w := n % WORD;
    assert w == w / 0x100 * 0x100 + w % 0x100;
    assert w / 0x100 == w / 0x1_0000 * 0x100 + w / 0x100 % 0x100;
    assert w / 0x1_0000 == w / 0x100_0000 * 0x100 + w / 0x1_0000 % 0x100;
  }

  lemma SignedRoundTrip(i: int32)
    ensures Signed(i % WORD) == i
  {
  }

  lemma WordBack(b: seq<byte>, off: nat)
    requires off + 4 <= |b|
    ensures Word(WordAt(b, off)) == b[off..off + 4]
    ensures Word(Signed(WordAt(b, off))) == b[off..off + 4]
  {
    var n := WordAt(b, off);
    assert n % WORD == n;
    assert Signed(n) % WORD == n;
    BytesOf(b[off], b[off + 1], b[off + 2], b[off + 3]);
  }

  lemma BytesOf(a: byte, b: byte, c: byte, d: byte)
    ensures var n := a * 0x100_0000 + b * 0x1_0000 + c * 0x100 + d;
      n / 0x100_0000 == a && n / 0x1_0000 % 0x100 == b && n / 0x100 % 0x100 == c && n % 0x100 == d
  {
    var n := a * 0x100_0000 + b * 0x1_0000 + c * 0x100 + d;
    assert n / 0x100 == a * 0x1_0000 + b * 0x100 + c;
    assert n / 0x1_0000 == a * 0x100 + b;
  }

  lemma Latin1RoundTrip(s: string)
    requires Latin1(s)
    ensures Latin1Decode(Latin1Encode(s)) == s
  {
  }

  lemma Latin1Back(bs: seq<byte>)
    ensures Latin1Encode(Latin1Decode(bs)) == bs
  {
  }

  // ----- reading back what was written -----

  lemma WordOccurs(b: seq<byte>, off: nat, n: int)
    requires Occurs(b, off, Word(n))
    ensures off + 4 <= |b| && WordAt(b, off) == n % WORD
  {
    WordRoundTrip(n);
    var w := Word(n);
    assert forall i :: 0 <= i < 4 ==> b[off + i] == b[off..off + 4][i] == w[i];
  }

  lemma RawOccurs(b: seq<byte>, off: nat, s: string)
    requires |b| <= MAX_MESSAGE && EncodeRaw(s).Some? && Occurs(b, off, EncodeRaw(s).value)
    ensures ReadRaw(b, off) == Read(Some(s), off + |EncodeRaw(s).value|, 0, [])
  {
    OccursSplit(b, off, Word(|s|), Latin1Encode(s));
    WordOccurs(b, off, |s|);
    Latin1RoundTrip(s);
  }

  /** Every encoded value takes at least a tag, every member a name length and a tag: an honest
      count never exceeds what the guards allow. */
  lemma {:induction false} CountsFit(log: Log, vs: seq<Value>)
    requires EncodeAll(log, vs).Some?
    ensures |EncodeAll(log, vs).value| >= MIN_VALUE * |vs|
  {
    if vs != [] { CountsFit(log, vs[1..]); }
  }

  lemma {:induction false} MemberCountsFit(log: Log, ms: seq<Member>)
    requires EncodeMembers(log, ms).Some?
    ensures |EncodeMembers(log, ms).value| >= MIN_MEMBER * |ms|
  {
    if ms != [] { MemberCountsFit(log, ms[1..]); }
  }

  lemma {:induction false} DecodeEncoded(log: Log, b: seq<byte>, off: nat, depth: nat, v: Value)
    requires |b| <= MAX_MESSAGE && Encode(log, v).Some? && Occurs(b, off, Encode(log, v).value)
    ensures var r := Decode(b, off, depth);
      if Fits(v, MAX_DEPTH - depth) then r.out == Some(Normal(log, v)) && r.off == off + |Encode(log, v).value|
      else r.out == None
    decreases v, 1
  {
    hide Word, WordAt, DecodeCounted, DecodeMembers, Latin1Encode, Latin1Decode;
    match v
    case NilV =>
      OccursSplit(b, off, Word(TAG_STRING), EncodeRaw("").value);
      WordOccurs(b, off, TAG_STRING);
      RawOccurs(b, off + 4, "");
    case IntV(i) =>
      OccursSplit(b, off, Word(TAG_INT), Word(i));
      WordOccurs(b, off, TAG_INT);
      WordOccurs(b, off + 4, i);
      SignedRoundTrip(i);
    case BoolV(flag) =>
      OccursSplit(b, off, Word(TAG_BOOL), [if flag then 1 else 0]);
      WordOccurs(b, off, TAG_BOOL);
      assert b[off + 4] == b[off + 4..off + 5][0];
    case StringV(s) =>
      OccursSplit(b, off, Word(TAG_STRING), EncodeRaw(s).value);
      WordOccurs(b, off, TAG_STRING);
      RawOccurs(b, off + 4, s);
    case DoubleV(d) => DecodeEncodedDouble(log, b, off, depth, d);
    case ArrayV(items) => DecodeEncodedArray(log, b, off, depth, items);
    case StructV(members) => DecodeEncodedStruct(log, b, off, depth, members);
  }

  lemma DecodeEncodedDouble(log: Log, b: seq<byte>, off: nat, depth: nat, d: Double)
    requires Encode(log, DoubleV(d)).Some? && Occurs(b, off, Encode(log, DoubleV(d)).value)
    ensures var r := Decode(b, off, depth);
      if depth <= MAX_DEPTH
      then r.out == Some(DoubleV(Quantise(log, d))) && r.off == off + |Encode(log, DoubleV(d)).value| else r.out == None
  {
    var (m, e) := EncodeDouble(log, d).value;
    hide EncodeDouble, DecodeDouble, Word, WordAt;
    EncodedInRange(log, d);
    OccursSplit(b, off, Word(TAG_DOUBLE), Word(m) + Word(e));
    OccursSplit(b, off + 4, Word(m), Word(e));
    WordOccurs(b, off, TAG_DOUBLE);
    WordOccurs(b, off + 4, m);
    WordOccurs(b, off + 8, e);
    SignedRoundTrip(m);
    SignedRoundTrip(e);
  }

  lemma EncodedInRange(log: Log, d: Double)
    requires EncodeDouble(log, d).Some?
    ensures INT_MIN <= EncodeDouble(log, d).value.0 <= INT_MAX && INT_MIN <= EncodeDouble(log, d).value.1 <= INT_MAX
  {
    hide Exponent, Mantissa;
  }

  lemma {:induction false} DecodeEncodedArray(log: Log, b: seq<byte>, off: nat, depth: nat, items: seq<Value>)
    requires |b| <= MAX_MESSAGE && Encode(log, ArrayV(items)).Some? && Occurs(b, off, Encode(log, ArrayV(items)).value)
    ensures var r := Decode(b, off, depth);
      if Fits(ArrayV(items), MAX_DEPTH - depth)
      then r.out == Some(Normal(log, ArrayV(items))) && r.off == off + |Encode(log, ArrayV(items)).value|
      else r.out == None
    decreases items, 2
  {
    hide Word, WordAt, Occurs, DecodeSeq, EncodeAll, NormalAll, AllFit;
    var body := EncodeAll(log, items).value;
    OccursSplit(b, off, Word(TAG_ARRAY), Word(|items|) + body);
    OccursSplit(b, off + 4, Word(|items|), body);
    WordOccurs(b, off, TAG_ARRAY);
    WordOccurs(b, off + 4, |items|);
    CountsFit(log, items);
    OccursFits(b, off + 8, body);
    if depth <= MAX_DEPTH { DecodeEncodedSeq(log, b, off + 8, depth + 1, items); }
  }

  lemma OccursFits(b: seq<byte>, off: nat, part: seq<byte>)
    requires Occurs(b, off, part)
    ensures off + |part| <= |b|
  {
  }

  lemma {:induction false} DecodeEncodedStruct(log: Log, b: seq<byte>, off: nat, depth: nat, members: seq<Member>)
    requires |b| <= MAX_MESSAGE && Encode(log, StructV(members)).Some?
    requires Occurs(b, off, Encode(log, StructV(members)).value)
    ensures var r := Decode(b, off, depth);
      if Fits(StructV(members), MAX_DEPTH - depth)
      then r.out == Some(Normal(log, StructV(members))) && r.off == off + |Encode(log, StructV(members)).value|
      else r.out == None
    decreases members, 2
  {
    hide Word, WordAt, Occurs, DecodeMembers, EncodeMembers, NormalMembers, MembersFit;
    var body := EncodeMembers(log, members).value;
    OccursSplit(b, off, Word(TAG_STRUCT), Word(|members|) + body);
    OccursSplit(b, off + 4, Word(|members|), body);
    WordOccurs(b, off, TAG_STRUCT);
    WordOccurs(b, off + 4, |members|);
    MemberCountsFit(log, members);
    OccursFits(b, off + 8, body);
    if depth <= MAX_DEPTH {
      DecodeEncodedMembers(log, b, off + 8, depth, members);
      StructStep(b, off, depth);
    }
  }

  lemma StructStep(b: seq<byte>, off: nat, depth: nat)
    requires off + 8 <= |b| && depth <= MAX_DEPTH && WordAt(b, off) == TAG_STRUCT
    requires WordAt(b, off + 4) <= (|b| - (off + 8)) / MIN_MEMBER
    ensures var ms, r := DecodeMembers(b, off + 8, WordAt(b, off + 4), depth), Decode(b, off, depth);
      if ms.out.Some? then r.out == Some(StructV(ms.out.value)) && r.off == ms.off else r.out == None
  {
    hide WordAt, DecodeMembers;
  }

  lemma {:induction false} DecodeEncodedSeq(log: Log, b: seq<byte>, off: nat, depth: nat, vs: seq<Value>)
    requires |b| <= MAX_MESSAGE && EncodeAll(log, vs).Some? && Occurs(b, off, EncodeAll(log, vs).value)
    ensures var r := DecodeSeq(b, off, |vs|, depth);
      if AllFit(vs, MAX_DEPTH - depth)
      then r.out == Some(NormalAll(log, vs)) && r.off == off + |EncodeAll(log, vs).value| else r.out == None
    decreases vs, 0
  {
    hide Decode, Normal, Fits, Encode;
    if vs != [] {
      OccursSplit(b, off, Encode(log, vs[0]).value, EncodeAll(log, vs[1..]).value);
      DecodeEncoded(log, b, off, depth, vs[0]);
      if Fits(vs[0], MAX_DEPTH - depth) {
        DecodeEncodedSeq(log, b, off + |Encode(log, vs[0]).value|, depth, vs[1..]);
      }
    }
  }

  lemma {:induction false} DecodeEncodedMembers(log: Log, b: seq<byte>, off: nat, depth: nat, ms: seq<Member>)
    requires |b| <= MAX_MESSAGE && EncodeMembers(log, ms).Some? && Occurs(b, off, EncodeMembers(log, ms).value)
    ensures var r := DecodeMembers(b, off, |ms|, depth);
      if MembersFit(ms, MAX_DEPTH - depth - 1)
      then r.out == Some(NormalMembers(log, ms)) && r.off == off + |EncodeMembers(log, ms).value| else r.out == None
    decreases ms, 0
  {
    hide Decode, Normal, Fits, Encode, EncodeRaw, ReadRaw;
    if ms != [] {
      var name, value := EncodeRaw(ms[0].name).value, Encode(log, ms[0].value).value;
      OccursSplit(b, off, name + value, EncodeMembers(log, ms[1..]).value);
      OccursSplit(b, off, name, value);
      RawOccurs(b, off, ms[0].name);
      DecodeEncoded(log, b, off + |name|, depth + 1, ms[0].value);
      if Fits(ms[0].value, MAX_DEPTH - depth - 1) {
        DecodeEncodedMembers(log, b, off + |name + value|, depth, ms[1..]);
      }
    }
  }

  /** What WriteRequest writes, ReadRequest reads back, up to nil and double quantisation, if
      and only if the parameters nest at most 64 deep; bytes that follow are not touched. */
  lemma RoundTrip(log: Log, r: Request, rest: seq<byte>)
    requires WriteRequest(log, r).Some?
    ensures ReadFrame(WriteRequest(log, r).value + rest) == Some((0, EncodePayload(log, r).value))
    ensures ReadRequest(WriteRequest(log, r).value + rest)
         == if AllFit(r.params, MAX_DEPTH) then Some(Request(r.method_, NormalAll(log, r.params))) else None
  {
    var payload := EncodePayload(log, r).value;
    FrameBack(payload, rest);
    hide Frame, ReadFrame, Word, WordAt, EncodeAll, EncodeRaw, NormalAll, AllFit;
    PayloadRoundTrip(log, r);
  }

  lemma FrameBack(payload: seq<byte>, rest: seq<byte>)
    requires Frame(0, payload).Some?
    ensures ReadFrame(Frame(0, payload).value + rest) == Some((0, payload))
  {
    var stream := Frame(0, payload).value + rest;
    assert stream[4..8] == Word(|payload|);
    WordOccurs(stream, 4, |payload|);
    assert stream[8..8 + |payload|] == payload;
    assert stream[..3] == MARKER;
  }

  lemma PayloadRoundTrip(log: Log, r: Request)
    requires EncodePayload(log, r).Some? && |EncodePayload(log, r).value| <= MAX_MESSAGE
    ensures DecodePayload(EncodePayload(log, r).value).out
         == if AllFit(r.params, MAX_DEPTH) then Some(Request(r.method_, NormalAll(log, r.params))) else None
  {
    hide Word, WordAt, EncodeAll, EncodeRaw, NormalAll, AllFit, ReadRaw, DecodeSeq;
    var name, body := EncodeRaw(r.method_).value, EncodeAll(log, r.params).value;
    var b := EncodePayload(log, r).value;
    assert b == name + (Word(|r.params|) + body);
    assert b[0..0 + |b|] == b;
    OccursSplit(b, 0, name, Word(|r.params|) + body);
    OccursSplit(b, |name|, Word(|r.params|), body);
    RawOccurs(b, 0, r.method_);
    WordOccurs(b, |name|, |r.params|);
    CountsFit(log, r.params);
    DecodeEncodedSeq(log, b, |name| + 4, 0, r.params);
  }

  // ----- a request that is written and refused -----

  /** An array in an array, and so on, around a number. */
  function Nested(depth: nat): Value { if depth == 0 then IntV(0) else ArrayV([Nested(depth - 1)]) }

  lemma {:induction false} NestedEncodes(log: Log, depth: nat)
    ensures Encode(log, Nested(depth)).Some? && |Encode(log, Nested(depth)).value| == 8 * depth + 8
  {
    if depth > 0 {
      NestedEncodes(log, depth - 1);
      OneEncodes(log, Nested(depth - 1));
    }
  }

  lemma OneEncodes(log: Log, v: Value)
    requires Encode(log, v).Some?
    ensures EncodeAll(log, [v]) == Encode(log, v)
  {
    hide Encode;
    assert [v][1..] == [] && Encode(log, v).value + [] == Encode(log, v).value;
  }

  lemma {:induction false} NestedFits(depth: nat, room: int)
    ensures Fits(Nested(depth), room) <==> depth <= room
  {
    if depth > 0 {
      NestedFits(depth - 1, room - 1);
      OneFits(Nested(depth - 1), room - 1);
    }
  }

  lemma OneFits(v: Value, room: int)
    ensures AllFit([v], room) <==> Fits(v, room)
  {
    assert [v][1..] == [];
  }

  /** A parameter nested 65 deep goes out without complaint and is refused when it is read. */
  lemma DeepIsRefused(log: Log, rest: seq<byte>)
    ensures var r := Request("m", [Nested(MAX_DEPTH + 1)]);
      WriteRequest(log, r).Some? && ReadRequest(WriteRequest(log, r).value + rest) == None
  {
    var v := Nested(MAX_DEPTH + 1);
    var r := Request("m", [v]);
    NestedEncodes(log, MAX_DEPTH + 1);
    NestedFits(MAX_DEPTH + 1, MAX_DEPTH);
    OneEncodes(log, v);
    hide Encode, Nested, Fits, ReadRequest, Word;
    assert Latin1("m");
    OneFits(v, MAX_DEPTH);
    RoundTrip(log, r, rest);
  }

  /** A finite number goes out and comes back as an infinity. */
  lemma LargeComesBack(log: Log, rest: seq<byte>)
    requires Accurate(log)
    ensures var r := Request("m", [DoubleV(Finite(Pow2(994)))]);
      && WriteRequest(log, r).Some?
      && ReadRequest(WriteRequest(log, r).value + rest) == Some(Request("m", [DoubleV(Inf(false))]))
  {
    var v := DoubleV(Finite(Pow2(994)));
    var r := Request("m", [v]);
    LargeIsInfinite(log);
    OneEncodes(log, v);
    OneFits(v, MAX_DEPTH);
    assert Latin1("m");
    assert NormalAll(log, [v]) == [Normal(log, v)] by { assert [v][1..] == []; }
    hide Pow2, EncodeDouble, Quantise, Accurate, ReadRequest, Word;
    RoundTrip(log, r, rest);
  }
}
