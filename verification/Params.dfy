/** Values and descriptions of device parameters, and how the default write path converts,
    checks and clamps a value. */
module Params {
  import opened Collections

  datatype Float = Fin(r: real) | NaN | Inf | NegInf

  /** Other stands for a nested list or map, which may hold a NaN somewhere. */
  datatype Value = Nil | Int(i: int) | Num(f: Float) | Bool(b: bool) | Str(s: string) | Other(id: nat, nan: bool)

  /** A NaN, and a list or map that holds one, differs from a copy of itself. */
  predicate EqualsItself(v: Value) { v != Num(NaN) && !(v.Other? && v.nan) }

  /** An attribute that is missing is Nil, or empty for the two lists. */
  datatype Desc = Desc(
    type_: string,
    operations: int,
    flags: int,
    def: Value,
    min: Value,
    max: Value,
    list: seq<Value>,
    special: seq<seq<Value>>)

  type Table = map<string, Value>
  type Description = map<string, Desc>

  const INT64_MIN := -0x8000_0000_0000_0000
  const INT64_MAX := 0x7FFF_FFFF_FFFF_FFFF

  /** Library functions: the text parsers, rendering, and the conversion of a float to an
      integer, which is exact wherever the result is representable and an integer anyway. */
  datatype Lib = Lib(
    scan: string -> Option<real>,
    leading: (string, bool) -> real,
    render: Value -> string,
    toInt: Float -> int)
  {
    ghost predicate Valid() {
      && (forall i: int {:trigger toInt(Fin(i as real))} :: INT64_MIN <= i <= INT64_MAX ==> toInt(Fin(i as real)) == i)
      && (forall f :: INT64_MIN <= toInt(f) <= INT64_MAX)
    }
  }

  function Whole(r: real): real { r.Floor as real }

  /** Toward zero. */
  function Trunc(r: real): real { if r >= 0.0 then Whole(r) else -Whole(-r) }

  /** To the nearest integer, halves away from zero. */
  function Round(f: Float): Float {
    match f
    case Fin(r) => Fin(if r >= 0.0 then Whole(r + 0.5) else -Whole(-r + 0.5))
    case _ => f
  }

  /** As floating point compares: nothing is less or more than a NaN. */
  predicate Less(a: Float, b: Float) {
    match (a, b)
    case (Fin(x), Fin(y)) => x < y
    case (NegInf, Fin(_)) => true
    case (NegInf, Inf) => true
    case (Fin(_), Inf) => true
    case _ => false
  }

  predicate AtMost(a: Float, b: Float) { Less(a, b) || (a == b && a != NaN) }

  function IntConv(lib: Lib, f: Float): int {
    lib.toInt(match f case Fin(r) => Fin(Trunc(r)) case _ => f)
  }

  predicate Bit(n: int, k: nat)
    requires k > 0
  {
    n / k % 2 == 1
  }

  const WRITE := 2
  const INTERNAL := 2

  predicate Writable(d: Desc) { Bit(d.operations, WRITE) }

  // ----- defaults -----

  function LabelIndex(list: seq<Value>, s: string): (i: Option<nat>)
    ensures i.Some? ==> i.value < |list| && list[i.value] == Str(s)
    ensures i.Some? ==> forall j :: 0 <= j < i.value ==> list[j] != Str(s)
    ensures i.None? ==> Str(s) !in list
  {
    if list == [] then None
    else if list[0] == Str(s) then Some(0)
    else
      var i := LabelIndex(list[1..], s);
      if i.None? then None else Some(i.value + 1)
  }

  function DefaultOf(d: Desc): Value {
    if d.type_ == "ENUM" && d.def.Str? && LabelIndex(d.list, d.def.s).Some? then Int(LabelIndex(d.list, d.def.s).value)
    else d.def
  }

  function BuildDefaults(ps: Description): Table {
    map name | name in ps && !Bit(ps[name].flags, INTERNAL) :: DefaultOf(ps[name])
  }

  // ----- conversion -----

  function ToFloat(lib: Lib, v: Value): Float {
    match v
    case Num(f) => f
    case Int(i) => Fin(i as real)
    case Bool(b) => Fin(if b then 1.0 else 0.0)
    case Str(s) => Fin(if lib.scan(s).Some? then lib.scan(s).value else 0.0)
    case _ => Fin(0.0)
  }

  function ToBool(v: Value): bool {
    match v
    case Bool(b) => b
    case Int(i) => i != 0
    case Num(f) => f != Fin(0.0)
    case Str(s) => s in {"true", "True", "1"}
    case _ => false
  }

  function Convert(lib: Lib, v: Value, type_: string): Value {
    match type_
    case "BOOL" => Bool(ToBool(v))
    case "STRING" => Str(if v.Str? then v.s else lib.render(v))
    case "INTEGER" => Int(IntConv(lib, ToFloat(lib, v)))
    case "ENUM" => Int(IntConv(lib, ToFloat(lib, v)))
    case "FLOAT" => Num(ToFloat(lib, v))
    case _ => v
  }

  predicate IsSpecial(lib: Lib, d: Desc, f: Float) {
    f != NaN && exists i, j :: 0 <= i < |d.special| && 0 <= j < |d.special[i]| && ToFloat(lib, d.special[i][j]) == f
  }

  /** A missing bound counts as zero. */
  function Clamp(lib: Lib, d: Desc, f: Float): Float {
    if IsSpecial(lib, d, f) then f
    else
      var capped := if Less(ToFloat(lib, d.max), f) then ToFloat(lib, d.max) else f;
      if Less(capped, ToFloat(lib, d.min)) then ToFloat(lib, d.min) else capped
  }

  predicate EnumInBounds(lib: Lib, d: Desc, v: Value) {
    d.max == Nil || d.max.Str?
    || (!Less(ToFloat(lib, d.max), ToFloat(lib, v)) && !Less(ToFloat(lib, v), ToFloat(lib, d.min)))
  }

  /** The value a write stores, or None when it is refused. */
  function Converted(lib: Lib, d: Desc, v: Value): Option<Value> {
    if d.type_ == "ENUM" && v.Str? && LabelIndex(d.list, v.s).None? then None
    else
      var raw := if d.type_ == "ENUM" && v.Str? then Int(LabelIndex(d.list, v.s).value) else v;
      var c := Convert(lib, raw, d.type_);
      if d.type_ == "ENUM" then if EnumInBounds(lib, d, c) then Some(c) else None
      else if d.type_ == "INTEGER" then Some(Int(IntConv(lib, Clamp(lib, d, ToFloat(lib, c)))))
      else if d.type_ == "FLOAT" then Some(Num(Clamp(lib, d, ToFloat(lib, c))))
      else Some(c)
  }

  /** Between ordered bounds, clamping keeps exactly the special values, the values in range and
      NaN; anything else becomes the bound it is beyond. */
  lemma ClampExact(lib: Lib, d: Desc, f: Float)
    requires AtMost(ToFloat(lib, d.min), ToFloat(lib, d.max))
    ensures var lo, hi, r := ToFloat(lib, d.min), ToFloat(lib, d.max), Clamp(lib, d, f);
      && (r == f <==> IsSpecial(lib, d, f) || f == NaN || (AtMost(lo, f) && AtMost(f, hi)))
      && (r != f ==> AtMost(lo, r) && AtMost(r, hi) && ((r == lo && Less(f, lo)) || (r == hi && Less(hi, f))))
      && Clamp(lib, d, r) == r
  {
  }

  lemma TruncInt(i: int)
    ensures Trunc(i as real) == i as real
  {
    assert (i as real).Floor == i;
    assert (-(i as real)) == (-i) as real;
    assert ((-i) as real).Floor == -i;
  }

  /** A whole number an integer can hold. */
  predicate IsInt64(f: Float) { f.Fin? && f.r == Trunc(f.r) && INT64_MIN as real <= f.r <= INT64_MAX as real }

  lemma WholeReal(r: real)
    requires r == Trunc(r)
    ensures r == r.Floor as real
  {
    if r < 0.0 { TruncInt(-(-r).Floor); }
  }

  lemma IntConvExact(lib: Lib, f: Float)
    requires lib.Valid() && IsInt64(f)
    ensures Fin(IntConv(lib, f) as real) == f
  {
    WholeReal(f.r);
    assert lib.toInt(Fin(f.r.Floor as real)) == f.r.Floor;
  }

  lemma IntIsInt64(i: int)
    requires INT64_MIN <= i <= INT64_MAX
    ensures IsInt64(Fin(i as real))
  {
    TruncInt(i);
  }

  /** A write always stores a FLOAT: special values, values in range and NaN as they are,
      anything else as the bound it is beyond; and writing the stored value again stores it. */
  lemma StoredFloat(lib: Lib, d: Desc, v: Value)
    requires d.type_ == "FLOAT" && AtMost(ToFloat(lib, d.min), ToFloat(lib, d.max))
    ensures var lo, hi, f, out := ToFloat(lib, d.min), ToFloat(lib, d.max), ToFloat(lib, v), Converted(lib, d, v);
      && out.Some? && out.value.Num? && Converted(lib, d, out.value) == out
      && out.value.f == if IsSpecial(lib, d, f) then f else if Less(f, lo) then lo else if Less(hi, f) then hi else f
  {
    hide IsSpecial;
    ClampExact(lib, d, ToFloat(lib, v));
  }

  /** The same for an INTEGER, whatever the value is made of: it is cut to an integer first. The
      bounds are whole, in the range of an integer and in order, as numbers or as text. */
  lemma StoredInteger(lib: Lib, d: Desc, v: Value)
    requires lib.Valid() && d.type_ == "INTEGER" && AtMost(ToFloat(lib, d.min), ToFloat(lib, d.max))
    requires IsInt64(ToFloat(lib, d.min)) && IsInt64(ToFloat(lib, d.max))
    ensures var lo, hi, out := ToFloat(lib, d.min), ToFloat(lib, d.max), Converted(lib, d, v);
      var c := Fin(IntConv(lib, ToFloat(lib, v)) as real);
      && out.Some? && out.value.Int? && Converted(lib, d, out.value) == out
      && Fin(out.value.i as real) ==
         if IsSpecial(lib, d, c) then c else if Less(c, lo) then lo else if Less(hi, c) then hi else c
  {
    var i := IntConv(lib, ToFloat(lib, v));
    var c := Fin(i as real);
    IntIsInt64(i);
    hide Trunc, IsSpecial, ToFloat, IsInt64;
    ClampExact(lib, d, c);
    IntegerOut(lib, d, v);
    IntConvExact(lib, Clamp(lib, d, c));
    var o := Converted(lib, d, v).value;
    IntegerOut(lib, d, o);
    IntConvExact(lib, Fin(o.i as real));
    FromInt(lib, o.i);
  }

  lemma FromInt(lib: Lib, i: int)
    ensures ToFloat(lib, Int(i)) == Fin(i as real)
  {
  }

  lemma IntegerOut(lib: Lib, d: Desc, v: Value)
    requires d.type_ == "INTEGER"
    ensures Converted(lib, d, v)
         == Some(Int(IntConv(lib, Clamp(lib, d, Fin(IntConv(lib, ToFloat(lib, v)) as real)))))
  {
    hide Clamp, IntConv;
  }

  /** MAX is a number and the position lies outside MIN..MAX. */
  predicate OffLimits(lib: Lib, d: Desc, at: int) {
    d.max != Nil && !d.max.Str?
        && (Less(ToFloat(lib, d.max), Fin(at as real)) || Less(Fin(at as real), ToFloat(lib, d.min)))
  }

  /** A label is stored as the first position it has in the value list; it is refused when it has
      none, or one outside numeric bounds. */
  lemma StoredLabel(lib: Lib, d: Desc, s: string)
    requires lib.Valid() && d.type_ == "ENUM" && |d.list| <= INT64_MAX
    ensures var at, out := LabelIndex(d.list, s), Converted(lib, d, Str(s));
      && (out.Some? <==> at.Some? && !OffLimits(lib, d, at.value))
      && (out.Some? ==> out.value == Int(at.value) && Converted(lib, d, out.value) == out)
  {
    var i := LabelIndex(d.list, s);
    if i.Some? {
      IntIsInt64(i.value);
      IntConvExact(lib, Fin(i.value as real));
    }
  }
}
