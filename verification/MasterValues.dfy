/** What the two MASTER write models take, type by type and in plain numbers, and what one write
    stores, accepts and rejects. */
module MasterValues {
  import opened Collections
  import opened Params
  import opened ParamWrites
  import opened MasterModel

  // ----- values -----

  predicate Whole(r: real, k: int) { r == k as real }

  /** An integer, or a float without a fractional part; one beyond 64 bits is up to the platform. */
  ghost predicate Counts(lib: Lib, v: Value, n: int) {
    v == Int(n) || (v.Num? && v.f.Fin? && (exists k :: Whole(v.f.r, k)) && n == lib.toInt(v.f))
  }

  lemma CountsExactly(lib: Lib, v: Value, n: int)
    ensures Counts(lib, v, n) <==> Integral(lib, v) == Some(n)
  {
    if v.Num? && v.f.Fin? {
      if k :| Whole(v.f.r, k) { TruncInt(k); }
      if v.f.r == Trunc(v.f.r) {
        WholeReal(v.f.r);
        assert Whole(v.f.r, v.f.r.Floor);
      }
    }
  }

  /** The text of an entry of a value list; an entry that is no text counts as empty. */
  predicate Entry(d: Desc, i: int, s: string) {
    0 <= i < |d.list| && (d.list[i] == Str(s) || (!d.list[i].Str? && s == ""))
  }

  predicate FirstEntry(d: Desc, s: string, i: int) { Entry(d, i, s) && forall j :: 0 <= j < i ==> !Entry(d, j, s) }

  lemma FirstEntryIs(d: Desc, s: string, i: int)
    ensures FirstEntry(d, s, i) <==> i >= 0 && IndexOf(Labels(d), s) == i
  {
    var list := Labels(d);
    var k := IndexOf(list, s);
    assert forall j :: 0 <= j < |d.list| ==> (Entry(d, j, s) <==> list[j] == s);
    if k >= 0 {
      forall j | 0 <= j < k ensures list[j] != s { assert list[..k][j] == list[j]; }
    }
    if FirstEntry(d, s, i) { assert s in list; }
  }

  /** hmipserver takes a value as this one: a switch as true and false or 1 and 0, a number of the
      right kind, a known label or position, a text; anything for a type it does not know. */
  ghost predicate HmipTakes(lib: Lib, d: Desc, raw: Value, x: Value) {
    match d.type_
    case "INTEGER" => x.Int? && Counts(lib, raw, x.i)
    case "FLOAT" => x == raw && (raw.Int? || (raw.Num? && raw.f != NaN))
    case "STRING" => x == raw && raw.Str?
    case "ENUM" =>
      x.Int? && if raw.Str? then FirstEntry(d, raw.s, x.i) else Counts(lib, raw, x.i) && 0 <= x.i < |d.list|
    case _ =>
      if d.type_ == "BOOL" || d.type_ == "ACTION" then
        x.Bool? && (raw == x || Counts(lib, raw, if x.b then 1 else 0))
      else x == raw
  }

  /** What it takes it stores as that and calls valid; anything else it stores as it came and calls
      invalid. */
  lemma HmipStoredIs(lib: Lib, d: Desc, raw: Value, x: Value)
    ensures HmipTakes(lib, d, raw, x) <==> HmipStored(lib, d, raw) == (x, true)
    ensures !HmipStored(lib, d, raw).1 ==> HmipStored(lib, d, raw).0 == raw
  {
    hide Counts, FirstEntry, IndexOf, Trunc;
    if x.Int? {
      CountsExactly(lib, raw, x.i);
      if raw.Str? { FirstEntryIs(d, raw.s, x.i); }
    } else if x == Bool(true) {
      CountsExactly(lib, raw, 1);
    } else if x == Bool(false) {
      CountsExactly(lib, raw, 0);
    }
  }

  // ----- rfd -----

  /** A number as it is, the number a text starts with, and zero for anything else. */
  predicate Reads(lib: Lib, raw: Value, integer: bool, f: Float) {
    if raw.Int? then f == Fin(raw.i as real)
    else if raw.Num? && raw.f != NaN then f == raw.f
    else if raw.Str? then f == Fin(lib.leading(raw.s, integer))
    else f == Fin(0.0)
  }

  /** The nearest whole number, a half away from zero. */
  ghost predicate Nearest(f: Float, g: Float) {
    if f.Fin? then g.Fin? && exists k :: Whole(g.r, k) && NearestTo(f.r, g.r) else g == f
  }

  predicate NearestTo(r: real, g: real) {
    -0.5 <= g - r <= 0.5 && (g - r == 0.5 ==> r >= 0.0) && (g - r == -0.5 ==> r < 0.0)
  }

  predicate Bound(v: Value, b: Float) { (v.Int? && b == Fin(v.i as real)) || (v.Num? && b == v.f && b != NaN) }

  /** Below a numeric MIN becomes MIN, then above a numeric MAX becomes MAX. */
  ghost predicate Confined(d: Desc, f: Float, g: Float) {
    exists r :: Raised(d, f, r) && Lowered(d, r, g)
  }

  ghost predicate Raised(d: Desc, f: Float, r: Float) {
    (Bound(d.min, r) && Less(f, r)) || (r == f && forall lo :: Bound(d.min, lo) ==> !Less(f, lo))
  }

  ghost predicate Lowered(d: Desc, f: Float, r: Float) {
    (Bound(d.max, r) && Less(r, f)) || (r == f && forall hi :: Bound(d.max, hi) ==> !Less(hi, f))
  }

  /** The nearest position of a list, the number itself when the list is empty. */
  predicate Within(n: int, size: nat, i: int) {
    if size == 0 then i == n else if n < 0 then i == 0 else if n >= size then i == size - 1 else i == n
  }

  /** rfd takes a value as this one: only true and false for a switch, only a text for a text, any
      number or text rounded and confined for an INTEGER, confined but no integer for a FLOAT, a
      known label or the nearest position for an ENUM. */
  ghost predicate RfdTakes(lib: Lib, d: Desc, raw: Value, x: Value) {
    match d.type_
    case "INTEGER" => x.Int? && exists f, g, h ::
      Reads(lib, raw, true, f) && Nearest(f, g) && Confined(d, g, h) && Converts(lib, h, x.i)
    case "FLOAT" => x.Num? && !raw.Int? && exists f :: Reads(lib, raw, false, f) && Confined(d, f, x.f)
    case "STRING" => x == raw && raw.Str?
    case "ENUM" =>
      x.Int? &&
        if raw.Str? then FirstEntry(d, raw.s, x.i)
        else exists n :: Counts(lib, raw, n) && Within(n, |d.list|, x.i)
    case _ => x == raw && (d.type_ == "BOOL" || d.type_ == "ACTION" ==> raw.Bool?)
  }

  lemma ReadsIs(lib: Lib, raw: Value, integer: bool, f: Float)
    ensures Reads(lib, raw, integer, f) <==> f == Coerced(lib, raw, integer)
  {
  }

  lemma NearestIs(f: Float, g: Float)
    ensures Nearest(f, g) <==> g == Round(f)
  {
    if f.Fin? {
      var n := if f.r >= 0.0 then (f.r + 0.5).Floor else -(-f.r + 0.5).Floor;
      assert Round(f) == Fin(n as real) && Whole(n as real, n) && NearestTo(f.r, n as real);
      if g.Fin? {
        if k :| Whole(g.r, k) && NearestTo(f.r, g.r) { assert k == n; }
      }
    }
  }

  lemma ConfinedIs(d: Desc, f: Float, g: Float)
    requires f != NaN
    ensures Confined(d, f, g) <==> g == ClampTo(d, f)
  {
    forall v, b ensures Bound(v, b) <==> Number(v) == Some(b) {
    }
    var raised := if Number(d.min).Some? && Less(f, Number(d.min).value) then Number(d.min).value else f;
    hide Bound, Number, Less;
    forall r ensures Raised(d, f, r) <==> r == raised { RaisedIs(d, f, r); }
    LoweredIs(d, raised, g);
  }

  lemma RaisedIs(d: Desc, f: Float, r: Float)
    ensures Raised(d, f, r)
        <==> r == if Number(d.min).Some? && Less(f, Number(d.min).value) then Number(d.min).value else f
  {
    assert forall b :: Bound(d.min, b) <==> Number(d.min) == Some(b);
    if Number(d.min).Some? { assert Bound(d.min, Number(d.min).value); }
    hide Bound, Number, Less;
  }

  lemma LoweredIs(d: Desc, f: Float, r: Float)
    ensures Lowered(d, f, r)
        <==> r == if Number(d.max).Some? && Less(Number(d.max).value, f) then Number(d.max).value else f
  {
    assert forall b :: Bound(d.max, b) <==> Number(d.max) == Some(b);
    if Number(d.max).Some? { assert Bound(d.max, Number(d.max).value); }
    hide Bound, Number, Less;
  }

  /** It stores the value it takes and ignores what it takes as none. */
  lemma BidcosStoredIs(lib: Lib, d: Desc, raw: Value, x: Value)
    ensures RfdTakes(lib, d, raw, x) <==> BidcosStored(lib, d, raw) == Some(x)
  {
    if d.type_ == "INTEGER" || d.type_ == "FLOAT" {
      RfdNumber(lib, d, raw, x);
    } else if d.type_ == "ENUM" {
      RfdPosition(lib, d, raw, x);
    }
  }

  lemma RfdNumber(lib: Lib, d: Desc, raw: Value, x: Value)
    requires d.type_ == "INTEGER" || d.type_ == "FLOAT"
    ensures RfdTakes(lib, d, raw, x) <==> BidcosStored(lib, d, raw) == Some(x)
  {
    var integer := d.type_ == "INTEGER";
    var f := Coerced(lib, raw, integer);
    RoundIsWhole(f);
    hide Reads, Coerced, Nearest, Round, Confined, ClampTo, Converts, IntConv;
    forall y ensures Reads(lib, raw, integer, y) <==> y == f { ReadsIs(lib, raw, integer, y); }
    if d.type_ == "INTEGER" {
      var g := Round(f);
      var h := ClampTo(d, g);
      forall y ensures Nearest(f, y) <==> y == g { NearestIs(f, y); }
      forall y ensures Confined(d, g, y) <==> y == h { ConfinedIs(d, g, y); }
      forall i ensures Converts(lib, h, i) <==> i == IntConv(lib, h) { ConvertsIs(lib, h, i); }
      assert Reads(lib, raw, true, f) && Nearest(f, g) && Confined(d, g, h) && Converts(lib, h, IntConv(lib, h));
    } else {
      forall y ensures Confined(d, f, y) <==> y == ClampTo(d, f) { ConfinedIs(d, f, y); }
      assert Reads(lib, raw, false, f) && Confined(d, f, ClampTo(d, f));
    }
  }

  lemma RfdPosition(lib: Lib, d: Desc, raw: Value, x: Value)
    requires d.type_ == "ENUM"
    ensures RfdTakes(lib, d, raw, x) <==> BidcosStored(lib, d, raw) == Some(x)
  {
    hide Counts, FirstEntry, IndexOf, Trunc;
    if raw.Str? {
      if x.Int? { FirstEntryIs(d, raw.s, x.i); }
    } else {
      forall n ensures Counts(lib, raw, n) <==> Integral(lib, raw) == Some(n) { CountsExactly(lib, raw, n); }
      if Integral(lib, raw).Some? { CountsExactly(lib, raw, Integral(lib, raw).value); }
    }
  }

  // ----- one write -----

  /** Described and writable. */
  predicate Open(ps: Description, name: string) { name in ps && ps[name].operations / 2 % 2 == 1 }

  ghost predicate HmipValid(lib: Lib, d: Desc, raw: Value) { exists x :: HmipTakes(lib, d, raw, x) }

  /** As it is taken, or as it came when it is not valid. */
  ghost predicate HmipKeeps(lib: Lib, d: Desc, raw: Value, x: Value) {
    HmipTakes(lib, d, raw, x) || (x == raw && !HmipValid(lib, d, raw))
  }

  ghost predicate RfdUsable(lib: Lib, d: Desc, raw: Value) { exists x :: RfdTakes(lib, d, raw, x) }

  lemma HmipKeepsIs(lib: Lib, d: Desc, raw: Value, x: Value)
    ensures HmipValid(lib, d, raw) <==> HmipStored(lib, d, raw).1
    ensures HmipKeeps(lib, d, raw, x) <==> HmipStored(lib, d, raw).0 == x
  {
    hide HmipTakes, HmipStored;
    forall y ensures HmipTakes(lib, d, raw, y) <==> HmipStored(lib, d, raw) == (y, true) {
      HmipStoredIs(lib, d, raw, y);
    }
    HmipStoredIs(lib, d, raw, HmipStored(lib, d, raw).0);
  }

  lemma RfdUsableIs(lib: Lib, d: Desc, raw: Value)
    ensures RfdUsable(lib, d, raw) <==> BidcosStored(lib, d, raw).Some?
  {
    hide RfdTakes, BidcosStored;
    forall y ensures RfdTakes(lib, d, raw, y) <==> BidcosStored(lib, d, raw) == Some(y) {
      BidcosStoredIs(lib, d, raw, y);
    }
    if BidcosStored(lib, d, raw).Some? { BidcosStoredIs(lib, d, raw, BidcosStored(lib, d, raw).value); }
  }

  /** What a reader is shown: the stored value, else the default. */
  predicate Shown(ps: Description, stored: Table, name: string, v: Value) {
    if name in stored then v == stored[name] else name in BuildDefaults(ps) && v == BuildDefaults(ps)[name]
  }

  /** Numbers by their value, anything else as it is; a NaN is never the same. */
  predicate Alike(a: Value, b: Value) {
    if a.Int? && b.Int? then a.i == b.i
    else if a.Int? && b.Num? && b.f != NaN then b.f == Fin(a.i as real)
    else if a.Num? && b.Int? && a.f != NaN then a.f == Fin(b.i as real)
    else a == b && EqualsItself(a)
  }

  ghost predicate Differs(ps: Description, stored: Table, name: string, v: Value) {
    forall seen :: Shown(ps, stored, name, seen) ==> !Alike(seen, v)
  }

  lemma AlikeIs(a: Value, b: Value)
    ensures Alike(a, b) <==> SameValue(a, b)
  {
    if a.Int? && b.Int? { assert a.i as real == b.i as real ==> a.i == b.i; }
  }

  lemma DiffersIs(ps: Description, stored: Table, name: string, v: Value)
    ensures var current := Overlay(BuildDefaults(ps), stored);
      Differs(ps, stored, name, v) <==> !(name in current && SameValue(current[name], v))
  {
    var current := Overlay(BuildDefaults(ps), stored);
    hide BuildDefaults, SameValue, Alike;
    forall seen ensures Shown(ps, stored, name, seen) <==> name in current && current[name] == seen {
    }
    if name in current { AlikeIs(current[name], v); }
  }

  // ----- hmipserver -----

  /** Some stored value of a described parameter is not valid. */
  ghost predicate Unsound(lib: Lib, ps: Description, stored: Table) {
    exists name :: name in stored && name in ps && !HmipValid(lib, ps[name], stored[name])
  }

  predicate Undescribed(ps: Description, set_: Table) { exists name :: name in set_ && name !in ps }

  /** Each name of a write: undescribed it is stored as it came, read-only it is left alone, writable
      it is stored as it is taken; every other name stays. Rejected are the undescribed, the
      read-only and the invalid. */
  lemma HmipNames(lib: Lib, ps: Description, ch: Channel, set_: Table, name: string)
    ensures var w := HmipWrite(lib, ps, ch, set_);
      && (name in w.channel.stored <==> name in ch.stored || (name in set_ && (name !in ps || Open(ps, name))))
      && (name in set_ && name !in ps ==> w.channel.stored[name] == set_[name])
      && (name in set_ && Open(ps, name) ==> HmipKeeps(lib, ps[name], set_[name], w.channel.stored[name]))
      && (name in ch.stored && !(name in set_ && (name !in ps || Open(ps, name))) ==>
          w.channel.stored[name] == ch.stored[name])
      && (name in w.accepted <==> name in set_ && Open(ps, name))
      && (name in w.accepted ==> w.accepted[name] == w.channel.stored[name])
      && (name in w.rejected <==>
          name in set_ && !(Open(ps, name) && HmipValid(lib, ps[name], set_[name])))
  {
    if name in set_ && name in ps {
      HmipKeepsIs(lib, ps[name], set_[name], HmipStored(lib, ps[name], set_[name]).0);
    }
    hide HmipStored, HmipKeeps, HmipValid, Changes, Invalid;
  }

  /** The channel is poisoned by an undescribed name for good. A write fails while the channel is
      poisoned or holds an invalid value; CONFIG_PENDING is cleared by a write that leaves no invalid
      value, and raised for good by one that leaves some and changes what a reader is shown. */
  lemma HmipWriteIs(lib: Lib, ps: Description, ch: Channel, set_: Table)
    ensures var w := HmipWrite(lib, ps, ch, set_);
      && (w.channel.poisoned <==> ch.poisoned || Undescribed(ps, set_))
      && (w.fault <==> w.channel.poisoned || Unsound(lib, ps, w.channel.stored))
      && w.pending == (
           if !Unsound(lib, ps, w.channel.stored) then Clear
           else if exists name :: name in w.accepted && Differs(ps, ch.stored, name, w.accepted[name]) then Stick
           else Keep)
  {
    var w := HmipWrite(lib, ps, ch, set_);
    UnknownIs(ps, set_);
    UnsoundIs(lib, ps, w.channel.stored);
    ChangesIs(ps, ch.stored, w.accepted);
    hide Unknown, Undescribed, Unsound, Invalid, Changes, Differs;
  }

  lemma UnknownIs(ps: Description, set_: Table)
    ensures Undescribed(ps, set_) <==> Unknown(ps, set_) != map[]
  {
    if name :| name in set_ && name !in ps { assert name in Unknown(ps, set_); }
    if Unknown(ps, set_) != map[] { var name :| name in Unknown(ps, set_); }
  }

  lemma UnsoundIs(lib: Lib, ps: Description, stored: Table)
    ensures Unsound(lib, ps, stored) <==> Invalid(lib, ps, stored)
  {
    hide HmipStored, HmipValid;
    forall name | name in stored && name in ps
      ensures HmipValid(lib, ps[name], stored[name]) <==> HmipStored(lib, ps[name], stored[name]).1
    {
      HmipKeepsIs(lib, ps[name], stored[name], Nil);
    }
  }

  lemma ChangesIs(ps: Description, stored: Table, accepted: Table)
    ensures (exists name :: name in accepted && Differs(ps, stored, name, accepted[name]))
       <==> Changes(ps, stored, accepted)
  {
    forall name | name in accepted
      ensures var current := Overlay(BuildDefaults(ps), stored);
        Differs(ps, stored, name, accepted[name]) <==> !(name in current && SameValue(current[name], accepted[name]))
    {
      DiffersIs(ps, stored, name, accepted[name]);
    }
    hide Differs, SameValue, BuildDefaults, Overlay;
  }

  // ----- rfd -----

  /** Each name of a write: accepted is what is writable and usable, as it is taken; of that only what
      differs from what a reader is shown is stored, everything else stays; the rest is rejected. */
  lemma BidcosNames(lib: Lib, ps: Description, ch: Channel, set_: Table, name: string)
    ensures var w := BidcosWrite(lib, ps, ch, set_);
      && (name in w.accepted <==> name in set_ && Open(ps, name) && RfdUsable(lib, ps[name], set_[name]))
      && (name in w.accepted ==> RfdTakes(lib, ps[name], set_[name], w.accepted[name]))
      && (name in w.rejected <==> name in set_ && name !in w.accepted)
      && var stores := name in w.accepted && Differs(ps, ch.stored, name, w.accepted[name]);
      && (stores ==> name in w.channel.stored && w.channel.stored[name] == w.accepted[name])
      && (!stores ==> (name in w.channel.stored <==> name in ch.stored))
      && (!stores && name in ch.stored ==> w.channel.stored[name] == ch.stored[name])
  {
    var w := BidcosWrite(lib, ps, ch, set_);
    if name in set_ && name in ps { RfdUsableIs(lib, ps[name], set_[name]); }
    if name in w.accepted {
      BidcosStoredIs(lib, ps[name], set_[name], w.accepted[name]);
      DiffersIs(ps, ch.stored, name, w.accepted[name]);
    }
    hide BidcosStored, RfdTakes, RfdUsable, Differs, SameValue, BuildDefaults, Overlay;
  }

  /** A write never fails nor poisons, and CONFIG_PENDING is raised for a while when something is
      stored. */
  lemma BidcosWriteIs(lib: Lib, ps: Description, ch: Channel, set_: Table)
    ensures var w := BidcosWrite(lib, ps, ch, set_);
      && !w.fault && w.channel.poisoned == ch.poisoned
      && w.pending == (
           if exists name :: name in w.accepted && Differs(ps, ch.stored, name, w.accepted[name]) then Pulse else Keep)
  {
    var w := BidcosWrite(lib, ps, ch, set_);
    ChangesIs(ps, ch.stored, w.accepted);
    NewsIs(ps, ch.stored, w.accepted);
    hide Differs, SameValue, BuildDefaults, News, Changes, BidcosAccepted;
  }

  lemma NewsIs(ps: Description, stored: Table, accepted: Table)
    ensures News(ps, stored, accepted) != map[] <==> Changes(ps, stored, accepted)
  {
    hide SameValue, BuildDefaults, Overlay;
    var news := News(ps, stored, accepted);
    if news != map[] { var name :| name in news; }
    if Changes(ps, stored, accepted) {
      var current := Overlay(BuildDefaults(ps), stored);
      var name :| name in accepted && !(name in current && SameValue(current[name], accepted[name]));
      assert name in news;
    }
  }
}
