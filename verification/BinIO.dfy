/** The codec in its own form: a reader whose offset moves, a buffer that grows, loops that fill
    allocated slots; each method proved against the function on bytes it stands for. */
module BinIO {
  import opened Collections
  import opened BinDouble
  import opened BinCodec

  // ----- Latin-1 -----

  method Latin1Runes(raw: seq<byte>) returns (s: string)
    ensures s == Latin1Decode(raw)
  {
    var runes := new char[|raw|](_ => '\0');
    for i := 0 to |raw|
      invariant forall k :: 0 <= k < i ==> runes[k] == raw[k] as char
    {
      runes[i] := raw[i] as char;
    }
    s := runes[..];
  }

  /** Strict: a rune beyond Latin-1 refuses the whole string. */
  method Latin1Bytes(s: string) returns (out: Option<seq<byte>>)
    ensures out == if Latin1(s) then Some(Latin1Encode(s)) else None
  {
    var bs: seq<byte> := [];
    for i := 0 to |s|
      invariant Latin1(s[..i]) && bs == Latin1Encode(s[..i])
    {
      if s[i] as int > 0xFF { return None; }
      bs := bs + [s[i] as int];
    }
    assert s[..|s|] == s;
    out := Some(bs);
  }

  /** Lossy: such a rune becomes a question mark. */
  method Latin1BytesLossy(s: string) returns (out: seq<byte>)
    ensures |out| == |s|
    ensures forall i :: 0 <= i < |s| ==> out[i] == if s[i] as int <= 0xFF then s[i] as int else '?' as int
    ensures Latin1(s) ==> out == Latin1Encode(s)
  {
    out := [];
    for i := 0 to |s|
      invariant |out| == i
      invariant forall k :: 0 <= k < i ==> out[k] == if s[k] as int <= 0xFF then s[k] as int else '?' as int
    {
      if s[i] as int > 0xFF {
        out := out + ['?' as int];
      } else {
        out := out + [s[i] as int];
      }
    }
  }

  // ----- reading -----

  class ByteReader {
    const b: seq<byte>
    var off: nat
    /** Slots allocated so far ahead of their content. */
    ghost var slots: nat

    ghost predicate Valid() reads this { off <= |b| }

    constructor (payload: seq<byte>)
      ensures Valid() && b == payload && off == 0 && slots == 0
    {
      b := payload;
      off := 0;
      slots := 0;
    }

    /** Copies what is left, at most four bytes; fewer than four is an error. */
    method ReadWord() returns (n: Option<nat>)
      requires Valid()
      modifies this`off
      ensures Valid() && off >= old(off)
      ensures n == if old(off) + 4 <= |b| then Some(WordAt(b, old(off))) else None
      ensures n.Some? ==> off == old(off) + 4
    {
      if |b| - off < 4 {
        off := |b|;
        return None;
      }
      n := Some(WordAt(b, off));
      off := off + 4;
    }

    method ReadN(n: nat) returns (raw: Option<seq<byte>>)
      requires Valid()
      modifies this`off
      ensures Valid()
      ensures raw == if n <= |b| - old(off) then Some(b[old(off)..old(off) + n]) else None
      ensures off == if raw.Some? then old(off) + n else old(off)
    {
      if n > |b| - off { return None; }
      raw := Some(b[off..off + n]);
      off := off + n;
    }

    method ReadRawString() returns (s: Option<string>)
      requires Valid()
      modifies this`off
      ensures Valid()
      ensures s == ReadRaw(b, old(off)).out
      ensures s.Some? ==> off == ReadRaw(b, old(off)).off
    {
      var length := ReadWord();
      if length.None? { return None; }
      var raw := ReadN(length.value);
      if raw.None? { return None; }
      var text := Latin1Runes(raw.value);
      s := Some(text);
    }

    /** The result, the position and the slots allocated are those of the function. */
    ghost predicate Did<T>(d: Read<T>, out: Option<T>, slots0: nat)
      reads this
    {
      Valid() && out == d.out && (out.Some? ==> off == d.off) && slots == slots0 + d.slots
    }

    method ReadValue(depth: nat) returns (v: Option<Value>)
      requires Valid()
      modifies this
      ensures Did(Decode(b, old(off), depth), v, old(slots))
      decreases |b| - off, 2
    {
      hide WordAt, DecodeDouble, DecodeMembers, DecodeCounted, ReadRaw;
      if depth > MAX_DEPTH { return None; }
      var tag := ReadWord();
      if tag.None? { return None; }
      if tag.value == TAG_INT {
        var n := ReadWord();
        if n.None? { return None; }
        v := Some(IntV(Signed(n.value)));
      } else if tag.value == TAG_BOOL {
        if off >= |b| { return None; }
        v := Some(BoolV(b[off] != 0));
        off := off + 1;
      } else if tag.value == TAG_STRING {
        var s := ReadRawString();
        if s.None? { return None; }
        v := Some(StringV(s.value));
      } else if tag.value == TAG_DOUBLE {
        var m := ReadWord();
        if m.None? { return None; }
        var e := ReadWord();
        if e.None? { return None; }
        v := Some(DoubleV(DecodeDouble(Signed(m.value), Signed(e.value))));
      } else if tag.value == TAG_ARRAY {
        var n := ReadWord();
        if n.None? { return None; }
        var vs := ReadNValues(n.value, depth + 1);
        if vs.None? { return None; }
        v := Some(ArrayV(vs.value));
      } else if tag.value == TAG_STRUCT {
        v := ReadStruct(depth);
      } else {
        v := None;
      }
    }

    /** Called once the struct tag has been read. */
    method ReadStruct(depth: nat) returns (v: Option<Value>)
      requires Valid() && off >= 4 && WordAt(b, off - 4) == TAG_STRUCT && depth <= MAX_DEPTH
      modifies this
      ensures Did(Decode(b, old(off) - 4, depth), v, old(slots))
      decreases |b| - off, 1
    {
      hide Suspends, DecodeSeq, DecodeMembers, DecodeCounted, Decode, ReadRaw, WordAt, Signed, Latin1Decode;
      StructStands(b, off - 4, depth);
      var count := ReadWord();
      if count.None? { return None; }
      var n := count.value;
      if n > (|b| - off) / MIN_MEMBER { return None; }
      var members := new Member[n](_ => Member("", Absent));
      slots := slots + n;
      ghost var whole, slots0 := DecodeMembers(b, off, n, depth), slots;
      SuspendsAll(whole);
      for i := 0 to n
        invariant Valid() && off >= old(off) + 4
        invariant slots >= slots0
        invariant Suspends(whole, members[..i], slots - slots0, DecodeMembers(b, off, n - i, depth))
      {
        ghost var at := off;
        MembersStands(b, at, n - i, depth, whole, members[..i], slots - slots0);
        var name := ReadRawString();
        if name.None? { return None; }
        var value := ReadValue(depth + 1);
        if value.None? { return None; }
        members[i] := Member(name.value, value.value);
        assert members[..i + 1] == members[..i] + [members[i]];
      }
      MembersEnd(b, off, depth);
      SuspendsNone(whole, members[..n], slots - slots0, DecodeMembers(b, off, 0, depth));
      assert members[..n] == members[..];
      v := Some(StructV(members[..]));
    }

    method ReadNValues(n: nat, depth: nat) returns (vs: Option<seq<Value>>)
      requires Valid()
      modifies this
      ensures Did(DecodeCounted(b, old(off), n, depth), vs, old(slots))
      decreases |b| - off, 3
    {
      hide Suspends, DecodeSeq, DecodeMembers, DecodeCounted, Decode, ReadRaw, WordAt, Signed, Latin1Decode;
      CountedStands(b, off, n, depth);
      if n > (|b| - off) / MIN_VALUE { return None; }
      var out := new Value[n](_ => Absent);
      slots := slots + n;
      ghost var whole, slots0 := DecodeSeq(b, off, n, depth), slots;
      SuspendsAll(whole);
      for i := 0 to n
        invariant Valid() && off >= old(off)
        invariant slots >= slots0
        invariant Suspends(whole, out[..i], slots - slots0, DecodeSeq(b, off, n - i, depth))
      {
        SeqStands(b, off, n - i, depth, whole, out[..i], slots - slots0);
        var v := ReadValue(depth);
        if v.None? { return None; }
        out[i] := v.value;
        assert out[..i + 1] == out[..i] + [out[i]];
      }
      SeqEnd(b, off, depth);
      SuspendsNone(whole, out[..n], slots - slots0, DecodeSeq(b, off, 0, depth));
      assert out[..n] == out[..];
      vs := Some(out[..]);
    }
  }

  // ----- a list half read -----

  /** What is read already, then the rest, is the whole. */
  ghost predicate Suspends<T>(whole: Read<seq<T>>, done: seq<T>, spent: nat, rest: Read<seq<T>>) {
    && (whole.out.Some? <==> rest.out.Some?)
    && (whole.out.Some? ==> whole.out.value == done + rest.out.value && whole.off == rest.off)
    && whole.slots == spent + rest.slots
  }

  lemma SuspendsAll<T>(whole: Read<seq<T>>)
    ensures Suspends(whole, [], 0, whole)
  {
  }

  lemma SuspendsNone<T>(whole: Read<seq<T>>, done: seq<T>, spent: nat, rest: Read<seq<T>>)
    requires Suspends(whole, done, spent, rest) && rest.out == Some([]) && rest.slots == 0
    ensures whole.out == Some(done) && whole.off == rest.off && whole.slots == spent
  {
    assert done + [] == done;
  }

  lemma SeqEnd(b: seq<byte>, off: nat, depth: nat)
    requires off <= |b|
    ensures DecodeSeq(b, off, 0, depth) == Read(Some([]), off, 0, [])
  {
  }

  lemma MembersEnd(b: seq<byte>, off: nat, depth: nat)
    requires off <= |b|
    ensures DecodeMembers(b, off, 0, depth) == Read(Some([]), off, 0, [])
  {
  }

  lemma SeqStands(b: seq<byte>, off: nat, n: nat, depth: nat, whole: Read<seq<Value>>, done: seq<Value>, spent: nat)
    requires off <= |b| && n > 0 && Suspends(whole, done, spent, DecodeSeq(b, off, n, depth))
    ensures var v := Decode(b, off, depth);
      if v.out.None? then whole.out.None? && whole.slots == spent + v.slots
      else Suspends(whole, done + [v.out.value], spent + v.slots, DecodeSeq(b, v.off, n - 1, depth))
  {
    hide Decode;
  }

  lemma MembersStands(b: seq<byte>, off: nat, n: nat, depth: nat, whole: Read<seq<Member>>, done: seq<Member>,
                      spent: nat)
    requires off <= |b| && n > 0 && Suspends(whole, done, spent, DecodeMembers(b, off, n, depth))
    ensures var name := ReadRaw(b, off);
      if name.out.None? then whole.out.None? && whole.slots == spent
      else
        var v := Decode(b, name.off, depth + 1);
        if v.out.None? then whole.out.None? && whole.slots == spent + v.slots
        else Suspends(whole, done + [Member(name.out.value, v.out.value)], spent + v.slots,
            DecodeMembers(b, v.off, n - 1, depth))
  {
    hide Decode, ReadRaw;
  }

  /** A struct whose tag has been read: the count, its guard and the members. */
  lemma StructStands(b: seq<byte>, off: nat, depth: nat)
    requires off + 4 <= |b| && depth <= MAX_DEPTH && WordAt(b, off) == TAG_STRUCT
    ensures var d := Decode(b, off, depth);
      if off + 8 > |b| || WordAt(b, off + 4) > (|b| - (off + 8)) / MIN_MEMBER then d.out == None && d.slots == 0
      else
        var ms := DecodeMembers(b, off + 8, WordAt(b, off + 4), depth);
        && d.slots == WordAt(b, off + 4) + ms.slots
        && d.out == (if ms.out.Some? then Some(StructV(ms.out.value)) else None)
        && (d.out.Some? ==> d.off == ms.off)
  {
    hide WordAt, DecodeMembers;
  }

  lemma CountedStands(b: seq<byte>, off: nat, n: nat, depth: nat)
    requires off <= |b|
    ensures var d := DecodeCounted(b, off, n, depth);
      if n > (|b| - off) / MIN_VALUE then d.out == None && d.slots == 0
      else
        var vs := DecodeSeq(b, off, n, depth);
        d.out == vs.out && d.off == vs.off && d.slots == n + vs.slots
  {
    hide DecodeSeq;
  }

  method ReadRequestFrom(stream: seq<byte>) returns (r: Option<Request>)
    ensures r == ReadRequest(stream)
  {
    var frame := ReadFrame(stream);
    if frame.None? || frame.value.0 != 0 { return None; }
    var reader := new ByteReader(frame.value.1);
    var name := reader.ReadRawString();
    if name.None? { return None; }
    var count := reader.ReadWord();
    if count.None? { return None; }
    var params := reader.ReadNValues(count.value, 0);
    if params.None? || reader.off != |reader.b| { return None; }
    r := Some(Request(name.value, params.value));
  }

  // ----- writing -----

  class Buffer {
    const log: Log
    var data: seq<byte>

    constructor (log: Log)
      ensures this.log == log && data == []
    {
      this.log := log;
      data := [];
    }

    /** Success exactly when there is an encoding, which is then what was appended. */
    ghost predicate Did(was: seq<byte>, e: Option<seq<byte>>, ok: bool)
      reads this
    {
      (ok <==> e.Some?) && (ok ==> data == was + e.value)
    }

    method WriteWord(n: int)
      modifies this
      ensures data == old(data) + Word(n)
    {
      data := data + Word(n);
    }

    method WriteRawString(s: string) returns (ok: bool)
      modifies this
      ensures Did(old(data), EncodeRaw(s), ok)
    {
      hide Word;
      var raw := Latin1Bytes(s);
      if raw.None? { return false; }
      WriteWord(|raw.value|);
      data := data + raw.value;
      ok := true;
    }

    method WriteDouble(d: Double) returns (ok: bool)
      modifies this
      ensures Did(old(data), Encode(log, DoubleV(d)), ok)
    {
      hide Word, EncodeDouble;
      WriteWord(TAG_DOUBLE);
      var pair := EncodeDouble(log, d);
      if pair.None? { return false; }
      WriteWord(pair.value.0);
      WriteWord(pair.value.1);
      ok := true;
    }

    method WriteValue(v: Value) returns (ok: bool)
      modifies this
      ensures Did(old(data), Encode(log, v), ok)
      decreases v, 1
    {
      hide Word, EncodeAll, EncodeMembers, EncodeRaw;
      match v
      case NilV =>
        WriteWord(TAG_STRING);
        ok := WriteRawString("");
      case IntV(i) =>
        WriteWord(TAG_INT);
        WriteWord(i);
        ok := true;
      case BoolV(flag) =>
        WriteWord(TAG_BOOL);
        data := data + [if flag then 1 else 0];
        ok := true;
      case StringV(s) =>
        WriteWord(TAG_STRING);
        ok := WriteRawString(s);
      case DoubleV(d) =>
        ok := WriteDouble(d);
      case ArrayV(items) =>
        WriteWord(TAG_ARRAY);
        ok := WriteParamArray(items);
      case StructV(members) =>
        WriteWord(TAG_STRUCT);
        ok := WriteMembers(members);
      case Absent => ok := false;
      case DateTimeV(_) => ok := false;
      case Base64V(_) => ok := false;
    }

    /** A count and the values, of a request or of an array. */
    method WriteParamArray(params: seq<Value>) returns (ok: bool)
      modifies this
      ensures Did(old(data), Both(Some(Word(|params|)), EncodeAll(log, params)), ok)
      decreases params, 0
    {
      hide Word, Encode, EncodeAll;
      WriteWord(|params|);
      ghost var start, whole := data, EncodeAll(log, params);
      assert params[0..] == params;
      for i := 0 to |params|
        invariant whole.Some? <==> EncodeAll(log, params[i..]).Some?
        invariant whole.Some? ==> start + whole.value == data + EncodeAll(log, params[i..]).value
      {
        AllStep(log, params, i);
        var done := WriteValue(params[i]);
        if !done { return false; }
      }
      NoneLeft(log, params);
      assert whole.Some? ==> data == start + whole.value == old(data) + (Word(|params|) + whole.value);
      ok := true;
    }

    method WriteMembers(members: seq<Member>) returns (ok: bool)
      modifies this
      ensures Did(old(data), Both(Some(Word(|members|)), EncodeMembers(log, members)), ok)
      decreases members, 0
    {
      hide Word, Encode, EncodeRaw;
      WriteWord(|members|);
      ghost var start, whole := data, EncodeMembers(log, members);
      assert members[0..] == members;
      for i := 0 to |members|
        invariant whole.Some? <==> EncodeMembers(log, members[i..]).Some?
        invariant whole.Some? ==> start + whole.value == data + EncodeMembers(log, members[i..]).value
      {
        var last := members[i..];
        assert last[1..] == members[i + 1..];
        var named := WriteRawString(members[i].name);
        if !named { return false; }
        var valued := WriteValue(members[i].value);
        if !valued { return false; }
      }
      assert whole.Some? ==> data == start + whole.value == old(data) + (Word(|members|) + whole.value);
      ok := true;
    }
  }

  lemma AllStep(log: Log, vs: seq<Value>, i: nat)
    requires i < |vs|
    ensures EncodeAll(log, vs[i..]) == Both(Encode(log, vs[i]), EncodeAll(log, vs[i + 1..]))
  {
    hide Encode;
    assert vs[i..][1..] == vs[i + 1..];
  }

  lemma NoneLeft(log: Log, vs: seq<Value>)
    ensures EncodeAll(log, vs[|vs|..]) == Some([])
  {
  }

  method WriteRequestTo(log: Log, r: Request) returns (sent: Option<seq<byte>>)
    ensures sent == WriteRequest(log, r)
  {
    if r.method_ == "" { return None; }
    var payload := new Buffer(log);
    var named := payload.WriteRawString(r.method_);
    if !named { return None; }
    var written := payload.WriteParamArray(r.params);
    if !written { return None; }
    hide Word, EncodeAll, EncodeRaw;
    assert payload.data == EncodePayload(log, r).value;
    sent := Frame(0, payload.data);
  }
}
