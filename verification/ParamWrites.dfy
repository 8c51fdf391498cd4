/** What a write to a parameter stores, type by type and in plain numbers, and that a read after an
    accepted write answers it. */
module ParamWrites {
  import opened Collections
  import opened Params
  import opened ParamCache

  // ----- numbers -----

  /** What a value counts as where a number is wanted; what spells none counts as zero. */
  predicate CountsAs(lib: Lib, v: Value, f: Float) {
    match v
    case Num(g) => f == g
    case Int(i) => f == Fin(i as real)
    case Bool(true) => f == Fin(1.0)
    case Bool(false) => f == Fin(0.0)
    case Str(s) => f.Fin? && (lib.scan(s) == Some(f.r) || (lib.scan(s).None? && f.r == 0.0))
    case Nil => f == Fin(0.0)
    case Other(_, _) => f == Fin(0.0)
  }

  lemma CountsIs(lib: Lib, v: Value, f: Float)
    ensures CountsAs(lib, v, f) <==> f == ToFloat(lib, v)
  {
  }

  /** Cut toward zero. */
  predicate CutTo(r: real, k: int) {
    if r >= 0.0 then k as real <= r < k as real + 1.0 else k as real - 1.0 < r <= k as real
  }

  /** The integer a number is converted to; how one beyond 64 bits comes out is up to the platform. */
  ghost predicate Converts(lib: Lib, f: Float, i: int) {
    if f.Fin? then exists k: int :: CutTo(f.r, k) && i == lib.toInt(Fin(k as real)) else i == lib.toInt(f)
  }

  lemma ConvertsIs(lib: Lib, f: Float, i: int)
    ensures Converts(lib, f, i) <==> i == IntConv(lib, f)
  {
    if f.Fin? {
      var k := if f.r >= 0.0 then f.r.Floor else -(-f.r).Floor;
      assert CutTo(f.r, k) && Fin(Trunc(f.r)) == Fin(k as real);
      forall j: int | CutTo(f.r, j) ensures j == k {
      }
    }
  }

  /** An integer within 64 bits is converted to itself. */
  lemma ConvertsInt(lib: Lib, n: int, i: int)
    requires lib.Valid() && INT64_MIN <= n <= INT64_MAX
    ensures Converts(lib, Fin(n as real), i) <==> i == n
  {
    ConvertsIs(lib, Fin(n as real), i);
    IntIsInt64(n);
    IntConvExact(lib, Fin(n as real));
  }

  // ----- what a write stores -----

  predicate BoundedBy(lib: Lib, d: Desc, lo: Float, hi: Float) { CountsAs(lib, d.min, lo) && CountsAs(lib, d.max, hi) }

  /** A special value is named in one of the pairs of the description. */
  predicate Special(lib: Lib, d: Desc, f: Float) {
    f != NaN && exists i, j :: 0 <= i < |d.special| && 0 <= j < |d.special[i]| && CountsAs(lib, d.special[i][j], f)
  }

  /** Special values stay; anything above MAX becomes MAX and then anything below MIN becomes MIN. */
  ghost predicate Held(lib: Lib, d: Desc, f: Float, g: Float) {
    exists lo, hi :: BoundedBy(lib, d, lo, hi) &&
      if Special(lib, d, f) then g == f
      else if Less(hi, f) then g == (if Less(hi, lo) then lo else hi)
      else if Less(f, lo) then g == lo
      else g == f
  }

  /** A position above a numeric MAX or below MIN. */
  ghost predicate Beyond(lib: Lib, d: Desc, i: int) {
    d.max != Nil && !d.max.Str?
    && exists lo, hi :: BoundedBy(lib, d, lo, hi) && (Less(hi, Fin(i as real)) || Less(Fin(i as real), lo))
  }

  predicate CountsTrue(v: Value) {
    v == Bool(true) || (v.Int? && v.i != 0) || (v.Num? && v.f != Fin(0.0))
    || v == Str("true") || v == Str("True") || v == Str("1")
  }

  /** The first position of a label. */
  predicate LabelAt(d: Desc, s: string, i: int) {
    0 <= i < |d.list| && d.list[i] == Str(s) && forall j :: 0 <= j < i ==> d.list[j] != Str(s)
  }

  /** A write of v stores x. */
  ghost predicate Stores(lib: Lib, d: Desc, v: Value, x: Value) {
    match d.type_
    case "BOOL" => x == Bool(CountsTrue(v))
    case "STRING" => x == if v.Str? then v else Str(lib.render(v))
    case "FLOAT" => x.Num? && exists f :: CountsAs(lib, v, f) && Held(lib, d, f, x.f)
    case "INTEGER" =>
      x.Int? && exists f, i, g ::
        CountsAs(lib, v, f) && Converts(lib, f, i) && Held(lib, d, Fin(i as real), g) && Converts(lib, g, x.i)
    case "ENUM" =>
      && x.Int? && !Beyond(lib, d, x.i)
      && (if v.Str? then LabelAt(d, v.s, x.i) else exists f :: CountsAs(lib, v, f) && Converts(lib, f, x.i))
    case _ => x == v
  }

  lemma HeldIs(lib: Lib, d: Desc, f: Float, g: Float)
    ensures Held(lib, d, f, g) <==> g == Clamp(lib, d, f)
  {
    var lo, hi := ToFloat(lib, d.min), ToFloat(lib, d.max);
    hide ToFloat, CountsAs;
    forall v, x ensures CountsAs(lib, v, x) <==> x == ToFloat(lib, v) { CountsIs(lib, v, x); }
    assert BoundedBy(lib, d, lo, hi);
    assert Special(lib, d, f) <==> IsSpecial(lib, d, f);
  }

  lemma BeyondIs(lib: Lib, d: Desc, i: int)
    ensures Beyond(lib, d, i) <==> !EnumInBounds(lib, d, Int(i))
  {
    var lo, hi := ToFloat(lib, d.min), ToFloat(lib, d.max);
    FromInt(lib, i);
    hide ToFloat, CountsAs;
    forall v, x ensures CountsAs(lib, v, x) <==> x == ToFloat(lib, v) { CountsIs(lib, v, x); }
    assert BoundedBy(lib, d, lo, hi);
  }

  lemma NumberStored(lib: Lib, d: Desc, v: Value, x: Value)
    requires d.type_ == "FLOAT" || d.type_ == "INTEGER"
    ensures Converted(lib, d, v) == Some(x) <==> Stores(lib, d, v, x)
  {
    var f := ToFloat(lib, v);
    assert ToFloat(lib, Num(f)) == f;
    hide ToFloat, CountsAs, Held, Clamp, Converts, IntConv;
    forall y ensures CountsAs(lib, v, y) <==> y == f { CountsIs(lib, v, y); }
    forall y, g ensures Held(lib, d, y, g) <==> g == Clamp(lib, d, y) { HeldIs(lib, d, y, g); }
    forall y, i ensures Converts(lib, y, i) <==> i == IntConv(lib, y) { ConvertsIs(lib, y, i); }
    if d.type_ == "INTEGER" {
      IntegerOut(lib, d, v);
      var i := IntConv(lib, f);
      var g := Clamp(lib, d, Fin(i as real));
      assert Held(lib, d, Fin(i as real), g) && Converts(lib, f, i) && Converts(lib, g, IntConv(lib, g));
    } else {
      assert Held(lib, d, f, Clamp(lib, d, f)) && CountsAs(lib, v, f);
    }
  }

  lemma PositionStored(lib: Lib, d: Desc, v: Value, x: Value)
    requires lib.Valid() && |d.list| <= INT64_MAX && d.type_ == "ENUM"
    ensures Converted(lib, d, v) == Some(x) <==> Stores(lib, d, v, x)
  {
    if v.Str? {
      var at := LabelIndex(d.list, v.s);
      if at.Some? {
        IntIsInt64(at.value);
        IntConvExact(lib, Fin(at.value as real));
        BeyondIs(lib, d, at.value);
      }
      LabelAtIs(d, v.s, at);
      hide Beyond, EnumInBounds, IntConv;
    } else {
      var f := ToFloat(lib, v);
      var i := IntConv(lib, f);
      BeyondIs(lib, d, i);
      hide ToFloat, CountsAs, Converts, IntConv, Beyond, EnumInBounds;
      forall y ensures CountsAs(lib, v, y) <==> y == f { CountsIs(lib, v, y); }
      forall k ensures Converts(lib, f, k) <==> k == i { ConvertsIs(lib, f, k); }
      assert CountsAs(lib, v, f) && Converts(lib, f, i);
      assert Convert(lib, v, d.type_) == Int(i);
    }
  }

  lemma LabelAtIs(d: Desc, s: string, at: Option<nat>)
    requires at == LabelIndex(d.list, s)
    ensures forall i :: LabelAt(d, s, i) <==> at == Some(i)
  {
  }

  /** A write stores exactly what its type says, and is refused when there is nothing to store: for
      an ENUM whose label is unknown or whose position is off its limits. */
  lemma ConvertedIs(lib: Lib, d: Desc, v: Value, x: Value)
    requires lib.Valid() && |d.list| <= INT64_MAX
    ensures Converted(lib, d, v) == Some(x) <==> Stores(lib, d, v, x)
  {
    if d.type_ == "FLOAT" || d.type_ == "INTEGER" { NumberStored(lib, d, v, x); }
    if d.type_ == "ENUM" { PositionStored(lib, d, v, x); }
  }

  // ----- defaults -----

  /** A read without stored values answers the default of every parameter that is not internal; the
      label of an ENUM as its first position, where it has one. */
  lemma DefaultsAre(ps: Description, name: string)
    ensures name in BuildDefaults(ps) <==> name in ps && ps[name].flags / 2 % 2 == 0
    ensures name in BuildDefaults(ps) ==> var d, x := ps[name], BuildDefaults(ps)[name];
      && (forall i :: d.type_ == "ENUM" && d.def.Str? && LabelAt(d, d.def.s, i) ==> x == Int(i))
      && (!(d.type_ == "ENUM" && d.def.Str? && d.def in d.list) ==> x == d.def)
  {
    if name in ps && ps[name].def.Str? {
      LabelAtIs(ps[name], ps[name].def.s, LabelIndex(ps[name].list, ps[name].def.s));
    }
  }

  // ----- one parameter written and read -----

  /** Neither described, nor writable or forced. */
  predicate Closed(ps: Description, force: bool, name: string) {
    name !in ps || (!force && ps[name].operations / 2 % 2 == 0)
  }

  /** How a write of one parameter ends: refused, only a trigger, or with a value that is stored. */
  lemma JudgedIs(env: Env, ps: Description, force: bool, name: string, v: Value)
    requires env.lib.Valid() && (name in ps ==> |ps[name].list| <= INT64_MAX)
    ensures var (outcome, x) := Judge(env, ps, force, name, v);
      if Closed(ps, force, name) then outcome == Refused && x == None
      else if ps[name].type_ == "ACTION" then outcome == Triggered && x == None
      else if x.Some? then outcome == Done && Stores(env.lib, ps[name], v, x.value)
      else outcome == Refused && forall y :: !Stores(env.lib, ps[name], v, y)
  {
    hide Converted, Stores;
    if name in ps { forall y ensures Converted(env.lib, ps[name], v) == Some(y) <==> Stores(env.lib, ps[name], v, y) {
        ConvertedIs(env.lib, ps[name], v, y);
      }
      if Converted(env.lib, ps[name], v).Some? {
        ConvertedIs(env.lib, ps[name], v, Converted(env.lib, ps[name], v).value);
      }
    }
  }

  /** What the device sets by itself when a value is stored; its progress is the ramp's while ramps
      are on. */
  function FollowUps(env: Env, deviceType: string, name: string, x: Value, stored: Table): Table {
    var r := env.respond(deviceType, name, x, stored);
    map other | other in r && !(env.ramps && name in env.progress && other == env.progress[name]) :: r[other]
  }

  lemma FollowUpsAre(env: Env, deviceType: string, name: string, x: Value, stored: Table)
    ensures FollowUps(env, deviceType, name, x, stored) == Response(env, deviceType, name, x, stored)
  {
  }

  /** A write of one parameter stores its value and the follow-ups over what was stored. */
  lemma PutOne(env: Env, c: Cache, address: string, kind: Kind, deviceType: string, model: Option<Model>, force: bool,
               name: string, v: Value)
    requires !(kind == Master && env.masterModel && model.Some?) && Visible(env, c, address, kind).Some?
    ensures var k, ps := Key(env.up(address), kind), Visible(env, c, address, kind).value;
      var (outcome, x) := Judge(env, ps, force, name, v);
      var put := Put(env, c, address, kind, deviceType, model, force, [(name, v)]);
      if x.None? then put == (outcome, c)
      else
        var stored := Over(c, k)[name := x.value];
        && put.0 == Done && put.1.descs == c.descs
        && Over(put.1, k) == stored + FollowUps(env, deviceType, name, x.value, stored)
  {
    hide Judge, FollowUps, Response;
    var k, ps := Key(env.up(address), kind), Visible(env, c, address, kind).value;
    var x := Judge(env, ps, force, name, v).1;
    assert [(name, v)][1..] == [];
    if x.Some? {
      FollowUpsAre(env, deviceType, name, x.value, Over(c, k)[name := x.value]);
      var c' := Stored(c, k, Store(env, deviceType, Over(c, k), name, x.value));
      assert PutFrom(env, c', k, deviceType, ps, force, []) == (Done, c');
      assert PutFrom(env, c, k, deviceType, ps, force, [(name, v)]) == (Done, c');
    }
  }

  lemma Overlaid(defaults: Table, over: Table, name: string, x: Value, ups: Table)
    ensures defaults + (over[name := x] + ups) == (defaults + over)[name := x] + ups
  {
  }

  /** After any run: a write of one parameter by the default path is refused, is only a trigger, or
      stores the value its type says and what the device sets by itself; in any case the next read
      answers what a read before would, overlaid with exactly that. */
  lemma WriteThenRead(env: Env, ops: seq<Op>, address: string, kind: Kind, deviceType: string, model: Option<Model>,
                      force: bool, name: string, v: Value) returns (x: Option<Value>)
    requires env.Valid() && env.lib.Valid() && LegalRun(env, ops) && kind != Link
    requires !(kind == Master && env.masterModel && model.Some?)
    requires var d := Visible(env, Run(env, ops), address, kind);
      d.Some? && (name in d.value ==> |d.value[name].list| <= INT64_MAX)
    ensures var c := Run(env, ops);
      var ps := Visible(env, c, address, kind).value;
      var (outcome, c') := Put(env, c, address, kind, deviceType, model, force, [(name, v)]);
      var before, after := Get(env, c, address, kind).0, Get(env, c', address, kind).0;
      && before.Some? && after.Some? && (x.Some? <==> outcome == Done)
      && if x.Some? then
           var stored := Over(c, Key(env.up(address), kind))[name := x.value];
           && !Closed(ps, force, name) && ps[name].type_ != "ACTION" && Stores(env.lib, ps[name], v, x.value)
           && after.value
              == before.value[name := x.value] + FollowUps(env, deviceType, name, x.value, stored)
         else
           && after == before
           && if Closed(ps, force, name) then outcome == Refused
              else if ps[name].type_ == "ACTION" then outcome == Triggered
              else outcome == Refused && forall y :: !Stores(env.lib, ps[name], v, y)
  {
    RunKeeps(env, ops);
    var c := Run(env, ops);
    hide LegalRun, Inv, Get, Stores, Judge, BuildDefaults, Run, Put, FollowUps, Over, Closed, Visible;
    var k, ps := Key(env.up(address), kind), Visible(env, c, address, kind).value;
    var c' := Put(env, c, address, kind, deviceType, model, force, [(name, v)]).1;
    PutKeeps(env, c, address, kind, deviceType, model, force, [(name, v)]);
    PutOne(env, c, address, kind, deviceType, model, force, name, v);
    JudgedIs(env, ps, force, name, v);
    x := Judge(env, ps, force, name, v).1;
    GetKeeps(env, c, address, kind);
    GetKeeps(env, c', address, kind);
    SameSight(env, c, c', address, kind);
    if x.Some? {
      var stored := Over(c, k)[name := x.value];
      Overlaid(BuildDefaults(ps), Over(c, k), name, x.value, FollowUps(env, deviceType, name, x.value, stored));
    }
  }

  lemma SameSight(env: Env, a: Cache, b: Cache, address: string, kind: Kind)
    requires a.descs == b.descs
    ensures Visible(env, a, address, kind) == Visible(env, b, address, kind)
  {
  }
}
