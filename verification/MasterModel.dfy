/** The two MASTER write models of the interface processes: what one write does to the stored
    values of a channel, and what any number of writes come to. */
module MasterModel {
  import opened Collections
  import opened Params

  // ----- numbers -----

  function Integral(lib: Lib, v: Value): Option<int> {
    match v
    case Int(i) => Some(i)
    case Num(Fin(r)) => if r == Trunc(r) then Some(lib.toInt(Fin(r))) else None
    case _ => None
  }

  function Number(v: Value): (f: Option<Float>)
    ensures f.Some? ==> f.value != NaN
  {
    match v
    case Int(i) => Some(Fin(i as real))
    case Num(f) => if f == NaN then None else Some(f)
    case _ => None
  }

  function ClampTo(d: Desc, n: Float): Float {
    var raised := if Number(d.min).Some? && Less(n, Number(d.min).value) then Number(d.min).value else n;
    if Number(d.max).Some? && Less(Number(d.max).value, raised) then Number(d.max).value else raised
  }

  /** Entries that are no strings count as empty ones. */
  function Labels(d: Desc): seq<string> {
    seq(|d.list|, i requires 0 <= i < |d.list| => if d.list[i].Str? then d.list[i].s else "")
  }

  function IndexOf(list: seq<string>, s: string): (i: int)
    ensures -1 <= i < |list|
    ensures if i >= 0 then list[i] == s && s !in list[..i] else s !in list
  {
    if list == [] then -1
    else if list[0] == s then 0
    else
      var i := IndexOf(list[1..], s);
      if i < 0 then -1 else i + 1
  }

  predicate SameValue(a: Value, b: Value) {
    if Number(a).Some? && Number(b).Some? then Number(a) == Number(b) else a == b && EqualsItself(a)
  }

  // ----- what each process stores -----

  /** What hmipserver stores, and whether it is acceptable: the type is checked, never the range. */
  function HmipStored(lib: Lib, d: Desc, raw: Value): (Value, bool) {
    var n := Integral(lib, raw);
    match d.type_
    case "INTEGER" => if n.Some? then (Int(n.value), true) else (raw, false)
    case "FLOAT" => (raw, Number(raw).Some?)
    case "STRING" => (raw, raw.Str?)
    case "ENUM" =>
      if raw.Str? then
        var i := IndexOf(Labels(d), raw.s);
        if i >= 0 then (Int(i), true) else (raw, false)
      else if n.Some? && 0 <= n.value < |d.list| then (Int(n.value), true)
      else (raw, false)
    case _ =>
      if d.type_ != "BOOL" && d.type_ != "ACTION" then (raw, true)
      else if raw.Bool? then (raw, true)
      else if n.Some? && (n.value == 0 || n.value == 1) then (Bool(n.value == 1), true)
      else (raw, false)
  }

  /** A number as it is, the number a text starts with, and zero for anything else. */
  function Coerced(lib: Lib, raw: Value, integer: bool): (f: Float)
    ensures f != NaN
  {
    if Number(raw).Some? then Number(raw).value else Fin(if raw.Str? then lib.leading(raw.s, integer) else 0.0)
  }

  /** What rfd stores; None is a value it ignores. */
  function BidcosStored(lib: Lib, d: Desc, raw: Value): Option<Value> {
    match d.type_
    case "INTEGER" => Some(Int(IntConv(lib, ClampTo(d, Round(Coerced(lib, raw, true))))))
    case "FLOAT" => if raw.Int? then None else Some(Num(ClampTo(d, Coerced(lib, raw, false))))
    case "STRING" => if raw.Str? then Some(raw) else None
    case "ENUM" =>
      if raw.Str? then
        var i := IndexOf(Labels(d), raw.s);
        if i >= 0 then Some(Int(i)) else None
      else
        var i := Integral(lib, raw);
        if i.None? then None
        else if d.list == [] then Some(Int(i.value))
        else Some(Int(if i.value > |d.list| - 1 then |d.list| - 1 else if i.value < 0 then 0 else i.value))
    case _ => if (d.type_ == "BOOL" || d.type_ == "ACTION") && !raw.Bool? then None else Some(raw)
  }

  /** Storing a stored value again changes nothing, and it is as acceptable as before. */
  lemma HmipIdempotent(lib: Lib, d: Desc, raw: Value)
    ensures var (v, valid) := HmipStored(lib, d, raw); HmipStored(lib, d, v) == (v, valid)
  {
  }

  // ----- bounds -----

  /** No number, or a whole one an integer can hold. */
  predicate WholeBound(v: Value) { Number(v).Some? ==> IsInt64(Number(v).value) }

  /** Bounds that are numbers are in order, and whole where the type is; missing bounds and bounds
      that are text bound nothing here. */
  predicate Sound(d: Desc) {
    && (Number(d.min).Some? && Number(d.max).Some? ==> AtMost(Number(d.min).value, Number(d.max).value))
    && (d.type_ == "INTEGER" ==> WholeBound(d.min) && WholeBound(d.max))
    && |d.list| <= INT64_MAX
  }

  predicate Within(d: Desc, f: Float) {
    && (Number(d.min).Some? ==> !Less(f, Number(d.min).value))
    && (Number(d.max).Some? ==> !Less(Number(d.max).value, f))
  }

  /** Numbers between their bounds, positions inside the value list. */
  predicate InBounds(d: Desc, v: Value) {
    match d.type_
    case "INTEGER" => v.Int? && Within(d, Fin(v.i as real))
    case "FLOAT" => v.Num? && v.f != NaN && Within(d, v.f)
    case "ENUM" => v.Int? && (d.list != [] ==> 0 <= v.i < |d.list|)
    case "STRING" => v.Str?
    case "BOOL" => v.Bool?
    case "ACTION" => v.Bool?
    case _ => true
  }

  predicate WholeFloat(f: Float) { f.Fin? ==> f.r == Trunc(f.r) }

  lemma RoundIsWhole(f: Float)
    ensures WholeFloat(Round(f)) && (Round(f) == NaN <==> f == NaN)
  {
    if f.Fin? {
      if f.r >= 0.0 { TruncInt((f.r + 0.5).Floor); } else { TruncInt(-(-f.r + 0.5).Floor); }
    }
  }

  /** A clamped number lies within the bounds there are, and is unchanged if it did before; with
      both bounds an INTEGER can hold it. */
  lemma ClampToBounds(d: Desc, n: Float)
    requires Sound(d) && n != NaN
    ensures var c := ClampTo(d, n); c != NaN && Within(d, c) && (Within(d, n) <==> c == n)
    ensures d.type_ == "INTEGER" && WholeFloat(n) && Number(d.min).Some? && Number(d.max).Some?
        ==> IsInt64(ClampTo(d, n))
  {
    hide Trunc;
  }

  /** An INTEGER bounded on one side only, and a number that lies beyond every integer on the
      other side; a bound at the edge of the integers is no bound. */
  predicate OpenEnded(lib: Lib, d: Desc, raw: Value) {
    && d.type_ == "INTEGER" && (Number(d.min).Some? != Number(d.max).Some?)
    && Number(d.min) != Some(Fin(INT64_MIN as real)) && Number(d.max) != Some(Fin(INT64_MAX as real))
    && !IsInt64(ClampTo(d, Round(Coerced(lib, raw, true))))
  }

  lemma IntegerInBounds(lib: Lib, d: Desc, raw: Value)
    requires lib.Valid() && Sound(d) && d.type_ == "INTEGER" && !OpenEnded(lib, d, raw)
    ensures InBounds(d, BidcosStored(lib, d, raw).value)
  {
    hide Round, IntConv, ClampTo, IsInt64, Coerced;
    var n := Coerced(lib, raw, true);
    RoundIsWhole(n);
    ClampToBounds(d, Round(n));
    var c := ClampTo(d, Round(n));
    if IsInt64(c) { IntConvExact(lib, c); } else { EdgeIsOpen(lib, d, c); }
  }

  /** A bound at the edge of the integers holds of every integer. */
  lemma EdgeIsOpen(lib: Lib, d: Desc, c: Float)
    requires lib.Valid() && Sound(d)
    requires Number(d.min).None? || Number(d.min) == Some(Fin(INT64_MIN as real))
    requires Number(d.max).None? || Number(d.max) == Some(Fin(INT64_MAX as real))
    ensures Within(d, Fin(IntConv(lib, c) as real))
  {
    hide Trunc;
  }

  /** Whatever arrives, rfd stores only what lies within the description, except where an INTEGER
      is open-ended. */
  lemma BidcosInBounds(lib: Lib, d: Desc, raw: Value)
    requires lib.Valid() && Sound(d) && BidcosStored(lib, d, raw).Some? && !OpenEnded(lib, d, raw)
    ensures InBounds(d, BidcosStored(lib, d, raw).value)
  {
    hide Round, IntConv, ClampTo, OpenEnded, Coerced;
    if d.type_ == "INTEGER" {
      IntegerInBounds(lib, d, raw);
    } else if d.type_ == "FLOAT" && !raw.Int? {
      ClampToBounds(d, Coerced(lib, raw, false));
    }
  }

  /** A conversion that is exact where it must be and gives `other` everywhere else. */
  function Platform(lib: Lib, other: int): (l: Lib)
    requires INT64_MIN <= other <= INT64_MAX
    ensures l.leading == lib.leading
  {
    lib.(toInt := (f: Float) =>
      if f.Fin? && f.r == Whole(f.r) && INT64_MIN <= f.r.Floor <= INT64_MAX then f.r.Floor else other)
  }

  lemma PlatformIsValid(lib: Lib, other: int)
    requires INT64_MIN <= other <= INT64_MAX
    ensures Platform(lib, other).Valid()
  {
  }

  /** Open-ended, it depends on the platform: one that converts what no integer can hold to the
      smallest or the largest integer stores a value out of bounds. */
  lemma OpenEndedFails(lib: Lib, d: Desc, raw: Value) returns (other: int)
    requires Sound(d) && OpenEnded(lib, d, raw)
    ensures INT64_MIN <= other <= INT64_MAX && Platform(lib, other).Valid()
    ensures !InBounds(d, BidcosStored(Platform(lib, other), d, raw).value)
  {
    other := if Number(d.min).Some? then INT64_MIN else INT64_MAX;
    var l := Platform(lib, other);
    PlatformIsValid(lib, other);
    var n := Coerced(lib, raw, true);
    RoundIsWhole(n);
    ClampToBounds(d, Round(n));
    var c := ClampTo(d, Round(n));
    assert Coerced(l, raw, true) == n;
    if c.Fin? { WholeReal(c.r); }
    assert IntConv(l, c) == other by { hide ClampTo, Round, Coerced; if c.Fin? { TruncInt(c.r.Floor); } }
  }

  lemma RoundInt(i: int)
    ensures Round(Fin(i as real)) == Fin(i as real)
  {
    assert (i as real + 0.5).Floor == i;
    assert -(i as real) == (-i) as real;
    assert ((-i) as real + 0.5).Floor == -i;
  }

  /** What rfd stored it would store again as it is, exactly when it lies within the description. */
  lemma BidcosIdempotent(lib: Lib, d: Desc, raw: Value)
    requires lib.Valid() && Sound(d) && BidcosStored(lib, d, raw).Some?
    ensures var once := BidcosStored(lib, d, raw); BidcosStored(lib, d, once.value) == once <==> InBounds(d, once.value)
  {
    hide Round, ClampTo, IsInt64;
    var v := BidcosStored(lib, d, raw).value;
    if d.type_ == "INTEGER" {
      IntegerAgain(lib, d, v.i);
    } else if d.type_ == "FLOAT" {
      ClampToBounds(d, Coerced(lib, raw, false));
      ClampToBounds(d, v.f);
    }
  }

  lemma IntegerAgain(lib: Lib, d: Desc, i: int)
    requires lib.Valid() && Sound(d) && d.type_ == "INTEGER" && INT64_MIN <= i <= INT64_MAX
    ensures BidcosStored(lib, d, Int(i)) == Some(Int(i)) <==> Within(d, Fin(i as real))
  {
    hide Round, IntConv, ClampTo, IsInt64;
    var f := Fin(i as real);
    RoundInt(i);
    IntIsInt64(i);
    ClampToBounds(d, f);
    ClampOfInteger(d, f);
    IntConvExact(lib, ClampTo(d, f));
  }

  lemma ClampOfInteger(d: Desc, f: Float)
    requires Sound(d) && d.type_ == "INTEGER" && IsInt64(f)
    ensures IsInt64(ClampTo(d, f))
  {
    hide Trunc;
  }

  // ----- one write -----

  datatype Channel = Channel(stored: Table, poisoned: bool)

  /** What CONFIG_PENDING is told: raised until a valid write, raised for a while, or cleared. */
  datatype Pending = Keep | Stick | Pulse | Clear

  datatype Written = Written(channel: Channel, fault: bool, pending: Pending, accepted: Table, rejected: set<string>)

  predicate Takes(ps: Description, name: string) { name in ps && Writable(ps[name]) }

  function Overlay(base: Table, over: Table): Table { base + over }

  function HmipAccepted(lib: Lib, ps: Description, set_: Table): Table {
    map name | name in set_ && Takes(ps, name) :: HmipStored(lib, ps[name], set_[name]).0
  }

  function Unknown(ps: Description, set_: Table): Table {
    map name | name in set_ && name !in ps :: set_[name]
  }

  predicate Invalid(lib: Lib, ps: Description, stored: Table) {
    exists name :: name in stored && name in ps && !HmipStored(lib, ps[name], stored[name]).1
  }

  /** Does an accepted value differ from what a reader sees now? */
  predicate Changes(ps: Description, stored: Table, accepted: Table) {
    var current := Overlay(BuildDefaults(ps), stored);
    exists name :: name in accepted && !(name in current && SameValue(current[name], accepted[name]))
  }

  function HmipWrite(lib: Lib, ps: Description, ch: Channel, set_: Table): Written {
    var accepted := HmipAccepted(lib, ps, set_);
    var stored := ch.stored + Unknown(ps, set_) + accepted;
    var poisoned := ch.poisoned || Unknown(ps, set_) != map[];
    var invalid := Invalid(lib, ps, stored);
    Written(Channel(stored, poisoned), invalid || poisoned,
      if !invalid then Clear else if Changes(ps, ch.stored, accepted) then Stick else Keep,
      accepted, set name | name in set_ && !(Takes(ps, name) && HmipStored(lib, ps[name], set_[name]).1))
  }

  function BidcosAccepted(lib: Lib, ps: Description, set_: Table): Table {
    map name | name in set_ && Takes(ps, name) && BidcosStored(lib, ps[name], set_[name]).Some?
      :: BidcosStored(lib, ps[name], set_[name]).value
  }

  /** Values a reader already sees are not stored again. */
  function News(ps: Description, stored: Table, accepted: Table): Table {
    var current := Overlay(BuildDefaults(ps), stored);
    map name | name in accepted && !(name in current && SameValue(current[name], accepted[name])) :: accepted[name]
  }

  function BidcosWrite(lib: Lib, ps: Description, ch: Channel, set_: Table): Written {
    var accepted := BidcosAccepted(lib, ps, set_);
    var news := News(ps, ch.stored, accepted);
    Written(Channel(ch.stored + news, ch.poisoned), false, if news != map[] then Pulse else Keep,
      accepted, set name | name in set_ && name !in accepted)
  }

  // ----- hmipserver over any number of writes -----

  function HmipRun(lib: Lib, ps: Description, writes: seq<Table>): Channel {
    if writes == [] then Channel(map[], false)
    else HmipWrite(lib, ps, HmipRun(lib, ps, writes[..|writes| - 1]), writes[|writes| - 1]).channel
  }

  /** For every name the value sent last. */
  function LastWrites(writes: seq<Table>): Table {
    if writes == [] then map[] else LastWrites(writes[..|writes| - 1]) + writes[|writes| - 1]
  }

  /** The channel depends on the last writes only. */
  function HmipOf(lib: Lib, ps: Description, last: Table): Channel {
    Channel(Unknown(ps, last) + HmipAccepted(lib, ps, last), Unknown(ps, last) != map[])
  }

  lemma UnknownPlus(ps: Description, last: Table, set_: Table)
    ensures Unknown(ps, last + set_) == Unknown(ps, last) + Unknown(ps, set_)
    ensures Unknown(ps, last + set_) == map[] <==> Unknown(ps, last) == map[] && Unknown(ps, set_) == map[]
  {
    var a, b := Unknown(ps, last), Unknown(ps, set_);
    if a + b == map[] { assert forall name :: name in a || name in b ==> name in a + b; }
  }

  lemma AcceptedPlus(lib: Lib, ps: Description, last: Table, set_: Table)
    ensures HmipAccepted(lib, ps, last + set_) == HmipAccepted(lib, ps, last) + HmipAccepted(lib, ps, set_)
  {
    hide HmipStored, Writable;
  }

  lemma Interleave(a1: Table, b1: Table, a2: Table, b2: Table)
    requires b1.Keys !! a2.Keys
    ensures ((a1 + b1) + a2) + b2 == (a1 + a2) + (b1 + b2)
  {
  }

  lemma HmipAbsorbs(lib: Lib, ps: Description, last: Table, set_: Table)
    ensures HmipWrite(lib, ps, HmipOf(lib, ps, last), set_).channel == HmipOf(lib, ps, last + set_)
  {
    UnknownPlus(ps, last, set_);
    AcceptedPlus(lib, ps, last, set_);
    Apart(lib, ps, last, set_);
    hide HmipAccepted, Unknown, Invalid, Changes, Takes, HmipStored;
    Interleave(Unknown(ps, last), HmipAccepted(lib, ps, last), Unknown(ps, set_), HmipAccepted(lib, ps, set_));
  }

  lemma Apart(lib: Lib, ps: Description, last: Table, set_: Table)
    ensures HmipAccepted(lib, ps, last).Keys !! Unknown(ps, set_).Keys
  {
    hide HmipStored;
  }

  lemma {:induction false} HmipStores(lib: Lib, ps: Description, writes: seq<Table>)
    ensures HmipRun(lib, ps, writes) == HmipOf(lib, ps, LastWrites(writes))
  {
    if writes == [] {
      assert Unknown(ps, map[]) == map[] && HmipAccepted(lib, ps, map[]) == map[];
    } else {
      HmipStores(lib, ps, writes[..|writes| - 1]);
      HmipAbsorbs(lib, ps, LastWrites(writes[..|writes| - 1]), writes[|writes| - 1]);
    }
  }

  /** The name is not described, or is writable with a last value of the wrong type. */
  predicate Offends(lib: Lib, ps: Description, last: Table, name: string) {
    name in last && (name !in ps || (Writable(ps[name]) && !HmipStored(lib, ps[name], last[name]).1))
  }

  lemma InvalidMeans(lib: Lib, ps: Description, last: Table)
    ensures Invalid(lib, ps, HmipOf(lib, ps, last).stored)
       <==> exists name :: name in ps && Offends(lib, ps, last, name)
  {
    var stored := HmipOf(lib, ps, last).stored;
    forall name | name in ps && Takes(ps, name) && name in last
      ensures name in stored && HmipStored(lib, ps[name], stored[name]).1 == HmipStored(lib, ps[name], last[name]).1
    {
      HmipIdempotent(lib, ps[name], last[name]);
    }
  }

  /** After any writes to a channel that started empty, the next write faults exactly when some
      name ever sent offends, judged by the value sent last. */
  lemma HmipFaults(lib: Lib, ps: Description, writes: seq<Table>, set_: Table)
    ensures HmipWrite(lib, ps, HmipRun(lib, ps, writes), set_).fault
       <==> exists name :: Offends(lib, ps, LastWrites(writes + [set_]), name)
  {
    var all := writes + [set_];
    assert all[..|all| - 1] == writes;
    var last := LastWrites(all);
    HmipStores(lib, ps, writes);
    HmipStores(lib, ps, all);
    assert HmipWrite(lib, ps, HmipRun(lib, ps, writes), set_).channel == HmipOf(lib, ps, last);
    InvalidMeans(lib, ps, last);
    hide HmipStored;
    if Unknown(ps, last) != map[] {
      var name :| name in Unknown(ps, last);
      assert Offends(lib, ps, last, name);
    } else {
      forall name | name in last ensures name in ps {
        assert name !in ps ==> name in Unknown(ps, last);
      }
    }
  }

  /** Once an undescribed name has been sent, every later write faults, an empty one included. */
  lemma PoisonStays(lib: Lib, ps: Description, writes: seq<Table>, more: seq<Table>, set_: Table, name: string)
    requires name in LastWrites(writes) && name !in ps
    ensures HmipWrite(lib, ps, HmipRun(lib, ps, writes + more), set_).fault
  {
    SentStays(writes, more + [set_], name);
    assert writes + (more + [set_]) == (writes + more) + [set_];
    HmipFaults(lib, ps, writes + more, set_);
    assert Offends(lib, ps, LastWrites((writes + more) + [set_]), name);
  }

  lemma {:induction false} SentStays(writes: seq<Table>, more: seq<Table>, name: string)
    requires name in LastWrites(writes)
    ensures name in LastWrites(writes + more)
    decreases |more|
  {
    if more == [] {
      assert writes + more == writes;
    } else {
      var shorter := more[..|more| - 1];
      SentStays(writes, shorter, name);
      var all := writes + more;
      assert all[..|all| - 1] == writes + shorter;
    }
  }

  // ----- rfd over any number of writes -----

  function BidcosRun(lib: Lib, ps: Description, writes: seq<Table>): Channel {
    if writes == [] then Channel(map[], false)
    else BidcosWrite(lib, ps, BidcosRun(lib, ps, writes[..|writes| - 1]), writes[|writes| - 1]).channel
  }

  predicate AllSound(ps: Description) { forall name :: name in ps ==> Sound(ps[name]) }

  predicate Obeys(ps: Description, stored: Table) {
    forall name :: name in stored ==> Takes(ps, name) && InBounds(ps[name], stored[name])
  }

  /** No value of the write is open-ended; none can be where bounds come in pairs. */
  predicate Tame(lib: Lib, ps: Description, set_: Table) {
    forall name :: name in set_ && name in ps ==> !OpenEnded(lib, ps[name], set_[name])
  }

  lemma PairedIsTame(lib: Lib, ps: Description, set_: Table)
    requires forall name ::
        name in ps && ps[name].type_ == "INTEGER" ==> (Number(ps[name].min).Some? <==> Number(ps[name].max).Some?)
    ensures Tame(lib, ps, set_)
  {
  }

  lemma BidcosWriteObeys(lib: Lib, ps: Description, ch: Channel, set_: Table)
    requires lib.Valid() && AllSound(ps) && Tame(lib, ps, set_) && Obeys(ps, ch.stored)
    ensures Obeys(ps, BidcosWrite(lib, ps, ch, set_).channel.stored)
  {
    hide OpenEnded, Sound, InBounds, BidcosStored, Writable;
    var accepted := BidcosAccepted(lib, ps, set_);
    forall name | name in accepted
      ensures Takes(ps, name) && InBounds(ps[name], accepted[name])
    {
      BidcosInBounds(lib, ps[name], set_[name]);
    }
  }

  /** Over any number of writes rfd never faults, and every value it stores is writable and
      within its description. */
  lemma {:induction false} BidcosObeys(lib: Lib, ps: Description, writes: seq<Table>, set_: Table)
    requires lib.Valid() && AllSound(ps) && forall i :: 0 <= i < |writes| ==> Tame(lib, ps, writes[i])
    ensures !BidcosWrite(lib, ps, BidcosRun(lib, ps, writes), set_).fault
    ensures Obeys(ps, BidcosRun(lib, ps, writes).stored)
    ensures !BidcosRun(lib, ps, writes).poisoned
  {
    hide Tame, AllSound;
    if writes != [] {
      var before := writes[..|writes| - 1];
      BidcosObeys(lib, ps, before, set_);
      BidcosWriteObeys(lib, ps, BidcosRun(lib, ps, before), writes[|writes| - 1]);
    }
  }

  // ----- the same write again -----

  predicate NaNFree(t: Table) { forall name :: name in t ==> EqualsItself(t[name]) }

  predicate KnownType(t: string) { t in {"INTEGER", "FLOAT", "STRING", "ENUM", "BOOL", "ACTION"} }

  /** A writable parameter of a type rfd does not know is sent a NaN, or a list or map with one. */
  predicate BringsNaN(ps: Description, set_: Table) {
    exists name :: name in set_ && Takes(ps, name) && !KnownType(ps[name].type_) && !EqualsItself(set_[name])
  }

  lemma StoredNaN(lib: Lib, d: Desc, raw: Value)
    ensures var v := BidcosStored(lib, d, raw);
      v.Some? && !EqualsItself(v.value) <==> !KnownType(d.type_) && !EqualsItself(raw)
  {
  }

  lemma AcceptedNaN(lib: Lib, ps: Description, set_: Table)
    ensures NaNFree(BidcosAccepted(lib, ps, set_)) <==> !BringsNaN(ps, set_)
  {
    hide BidcosStored, Writable;
    var accepted := BidcosAccepted(lib, ps, set_);
    forall name | name in set_ && Takes(ps, name)
      ensures name in accepted && !EqualsItself(accepted[name])
          <==> !KnownType(ps[name].type_) && !EqualsItself(set_[name])
    {
      StoredNaN(lib, ps[name], set_[name]);
    }
  }

  /** A write sent twice stores nothing new the second time, and raises nothing unless it sends a
      NaN, bare or inside a list or map, to a parameter whose type is none of the six known ones. */
  lemma RepeatChangesNothing(lib: Lib, ps: Description, ch: Channel, set_: Table)
    ensures var once := BidcosWrite(lib, ps, ch, set_).channel;
      && BidcosWrite(lib, ps, once, set_).channel == once
      && (BidcosWrite(lib, ps, once, set_).pending == Keep <==> !BringsNaN(ps, set_))
  {
    AcceptedNaN(lib, ps, set_);
    hide BidcosAccepted, News, BringsNaN, NaNFree;
    var accepted := BidcosAccepted(lib, ps, set_);
    NewsAgain(ps, ch.stored, accepted);
  }

  /** With known types only, a repeated write is always quiet. */
  lemma RepeatIsQuiet(lib: Lib, ps: Description, ch: Channel, set_: Table)
    requires forall name :: name in ps ==> KnownType(ps[name].type_)
    ensures BidcosWrite(lib, ps, BidcosWrite(lib, ps, ch, set_).channel, set_).pending == Keep
  {
    RepeatChangesNothing(lib, ps, ch, set_);
    assert !BringsNaN(ps, set_);
  }

  lemma NewsAgain(ps: Description, stored: Table, accepted: Table)
    ensures var later := stored + News(ps, stored, accepted);
      && (News(ps, later, accepted) == map[] <==> NaNFree(accepted))
      && later + News(ps, later, accepted) == later
  {
    hide BuildDefaults;
    var later := stored + News(ps, stored, accepted);
    var news := News(ps, later, accepted);
    forall name | name in accepted
      ensures name in news <==> !EqualsItself(accepted[name])
      ensures name in news ==> name in later && later[name] == accepted[name]
    {
      SameAsItself(accepted[name]);
    }
    if news == map[] {
      assert forall name :: name in accepted ==> name !in news;
    } else {
      var name :| name in news;
    }
  }

  lemma SameAsItself(v: Value)
    ensures SameValue(v, v) <==> EqualsItself(v)
  {
  }

  /** A NaN for a parameter of an unknown type is pending again and again. */
  lemma NaNRepeats(lib: Lib, ch: Channel)
    ensures var ps := map["P" := Desc("OTHER", WRITE, 0, Nil, Nil, Nil, [], [])];
      var set_ := map["P" := Num(NaN)];
      BidcosWrite(lib, ps, BidcosWrite(lib, ps, ch, set_).channel, set_).pending == Pulse
  {
    var ps := map["P" := Desc("OTHER", WRITE, 0, Nil, Nil, Nil, [], [])];
    var set_ := map["P" := Num(NaN)];
    RepeatChangesNothing(lib, ps, ch, set_);
    assert Writable(ps["P"]);
    assert "P" in set_ && Takes(ps, "P") && !KnownType(ps["P"].type_) && !EqualsItself(set_["P"]);
  }
}
