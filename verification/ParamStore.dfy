/** The device-side store in its own form: tables that are updated in place, cached by reference
    and handed out as copies; proved against the steps of ParamCache. */
module ParamStore {
  import opened Collections
  import opened Params
  import opened ParamCache
  import MM = MasterModel
  import Names

  class TableObj {
    var m: Table

    constructor (entries: Table)
      ensures m == entries
    {
      m := entries;
    }
  }

  // ----- a MASTER write half done -----

  /** The entries with these names. */
  function Part(set_: Table, names: seq<string>): Table {
    map name | name in set_ && name in names :: set_[name]
  }

  datatype Progress = Progress(stored: Table, current: Table, accepted: Table, poisoned: bool, changed: bool,
                               rejected: seq<string>)

  ghost predicate HmipSoFar(lib: Lib, ps: Description, ch: MM.Channel, done: Table, p: Progress) {
    && p.stored == ch.stored + MM.Unknown(ps, done) + MM.HmipAccepted(lib, ps, done)
    && p.accepted == MM.HmipAccepted(lib, ps, done)
    && p.current == BuildDefaults(ps) + ch.stored + p.accepted
    && p.poisoned == (ch.poisoned || MM.Unknown(ps, done) != map[])
    && p.changed == MM.Changes(ps, ch.stored, p.accepted)
    && HmipRejected(lib, ps, done, p.rejected)
  }

  ghost predicate HmipRejected(lib: Lib, ps: Description, done: Table, rejected: seq<string>) {
    forall n :: n in rejected <==> n in done && !(MM.Takes(ps, n) && MM.HmipStored(lib, ps[n], done[n]).1)
  }

  lemma HmipRejectedNext(lib: Lib, ps: Description, done: Table, rejected: seq<string>, name: string, value: Value)
    requires name !in done && HmipRejected(lib, ps, done, rejected)
    ensures HmipRejected(lib, ps, done[name := value],
              if MM.Takes(ps, name) && MM.HmipStored(lib, ps[name], value).1 then rejected else rejected + [name])
  {
    hide MM.HmipStored, Writable;
  }

  function HmipNext(lib: Lib, ps: Description, p: Progress, name: string, value: Value): Progress {
    if name !in ps then p.(stored := p.stored[name := value], poisoned := true, rejected := p.rejected + [name])
    else if !Writable(ps[name]) then p.(rejected := p.rejected + [name])
    else
      var (v, valid) := MM.HmipStored(lib, ps[name], value);
      Progress(p.stored[name := v], p.current[name := v], p.accepted[name := v], p.poisoned,
        p.changed || !(name in p.current && MM.SameValue(p.current[name], v)),
        if valid then p.rejected else p.rejected + [name])
  }

  lemma UnknownNext(ps: Description, done: Table, name: string, value: Value)
    requires name !in done
    ensures MM.Unknown(ps, done[name := value]) == if name in ps then MM.Unknown(ps, done)
        else MM.Unknown(ps, done)[name := value]
    ensures name !in MM.Unknown(ps, done)
  {
  }

  lemma AcceptedNext(lib: Lib, ps: Description, done: Table, name: string, value: Value)
    requires name !in done
    ensures var old_ := MM.HmipAccepted(lib, ps, done);
      && MM.HmipAccepted(lib, ps, done[name := value])
           == (if MM.Takes(ps, name) then old_[name := MM.HmipStored(lib, ps[name], value).0] else old_)
      && name !in old_ && (forall n :: n in old_ ==> n in ps)
  {
    hide MM.HmipStored, Writable;
  }

  lemma ChangesNext(ps: Description, stored: Table, accepted: Table, name: string, v: Value)
    requires name !in accepted
    ensures var current := BuildDefaults(ps) + stored + accepted;
      MM.Changes(ps, stored, accepted[name := v])
        == (MM.Changes(ps, stored, accepted) || !(name in current && MM.SameValue(current[name], v)))
  {
    hide BuildDefaults, MM.SameValue;
    var current, more := MM.Overlay(BuildDefaults(ps), stored), accepted[name := v];
    if MM.Changes(ps, stored, accepted) {
      var n :| n in accepted && !(n in current && MM.SameValue(current[n], accepted[n]));
      assert n in more && more[n] == accepted[n];
    }
    assert name in more && more[name] == v;
  }

  lemma PutMiddle(a: Table, b: Table, c: Table, name: string, v: Value)
    requires name !in c
    ensures (a + b + c)[name := v] == a + b[name := v] + c
  {
  }

  lemma PutLast(a: Table, b: Table, c: Table, name: string, v: Value)
    ensures (a + b + c)[name := v] == a + b + c[name := v]
  {
  }

  lemma PutPair(a: Table, b: Table, name: string, v: Value)
    ensures (a + b)[name := v] == a + b[name := v]
  {
  }

  lemma HmipAdvances(lib: Lib, ps: Description, ch: MM.Channel, done: Table, p: Progress, name: string, value: Value)
    requires HmipSoFar(lib, ps, ch, done, p) && name !in done
    ensures HmipSoFar(lib, ps, ch, done[name := value], HmipNext(lib, ps, p, name, value))
  {
    if MM.Takes(ps, name) {
      HmipTakes(lib, ps, ch, done, p, name, value);
    } else {
      HmipRefuses(lib, ps, ch, done, p, name, value);
    }
  }

  lemma HmipRefuses(lib: Lib, ps: Description, ch: MM.Channel, done: Table, p: Progress, name: string, value: Value)
    requires HmipSoFar(lib, ps, ch, done, p) && name !in done && !MM.Takes(ps, name)
    ensures HmipSoFar(lib, ps, ch, done[name := value], HmipNext(lib, ps, p, name, value))
  {
    UnknownNext(ps, done, name, value);
    AcceptedNext(lib, ps, done, name, value);
    HmipRejectedNext(lib, ps, done, p.rejected, name, value);
    hide MM.Unknown, MM.HmipAccepted, MM.Changes, BuildDefaults, MM.HmipStored, Writable, HmipRejected;
    PutMiddle(ch.stored, MM.Unknown(ps, done), p.accepted, name, value);
    assert name in MM.Unknown(ps, done)[name := value];
  }

  lemma HmipTakes(lib: Lib, ps: Description, ch: MM.Channel, done: Table, p: Progress, name: string, value: Value)
    requires HmipSoFar(lib, ps, ch, done, p) && name !in done && MM.Takes(ps, name)
    ensures HmipSoFar(lib, ps, ch, done[name := value], HmipNext(lib, ps, p, name, value))
  {
    UnknownNext(ps, done, name, value);
    AcceptedNext(lib, ps, done, name, value);
    HmipRejectedNext(lib, ps, done, p.rejected, name, value);
    hide MM.Unknown, MM.HmipAccepted, MM.Changes, BuildDefaults, MM.HmipStored, Writable, MM.SameValue, HmipRejected;
    var v := MM.HmipStored(lib, ps[name], value).0;
    ChangesNext(ps, ch.stored, p.accepted, name, v);
    PutLast(ch.stored, MM.Unknown(ps, done), p.accepted, name, v);
    PutLast(BuildDefaults(ps), ch.stored, p.accepted, name, v);
  }

  ghost predicate BidcosSoFar(lib: Lib, ps: Description, ch: MM.Channel, done: Table, p: Progress) {
    && p.accepted == MM.BidcosAccepted(lib, ps, done)
    && p.stored == ch.stored + MM.News(ps, ch.stored, p.accepted)
    && p.current == BuildDefaults(ps) + ch.stored + MM.News(ps, ch.stored, p.accepted)
    && p.poisoned == ch.poisoned
    && p.changed == (MM.News(ps, ch.stored, p.accepted) != map[])
    && BidcosRejected(done, p.accepted, p.rejected)
  }

  ghost predicate BidcosRejected(done: Table, accepted: Table, rejected: seq<string>) {
    forall n :: n in rejected <==> n in done && n !in accepted
  }

  function BidcosNext(lib: Lib, ps: Description, p: Progress, name: string, value: Value): Progress {
    if name !in ps || !Writable(ps[name]) then p.(rejected := p.rejected + [name])
    else
      var v := MM.BidcosStored(lib, ps[name], value);
      if v.None? then p.(rejected := p.rejected + [name])
      else if name in p.current && MM.SameValue(p.current[name], v.value)
          then p.(accepted := p.accepted[name := v.value])
      else Progress(p.stored[name := v.value], p.current[name := v.value], p.accepted[name := v.value], p.poisoned,
          true, p.rejected)
  }

  lemma BidcosAcceptedNext(lib: Lib, ps: Description, done: Table, name: string, value: Value)
    requires name !in done
    ensures var old_ := MM.BidcosAccepted(lib, ps, done);
      && MM.BidcosAccepted(lib, ps, done[name := value])
           == (if MM.Takes(ps, name) && MM.BidcosStored(lib, ps[name], value).Some?
               then old_[name := MM.BidcosStored(lib, ps[name], value).value] else old_)
      && name !in old_
  {
    hide MM.BidcosStored, Writable;
  }

  lemma NewsNext(ps: Description, stored: Table, accepted: Table, name: string, v: Value)
    requires name !in accepted
    ensures var current, news :=
        BuildDefaults(ps) + stored + MM.News(ps, stored, accepted), MM.News(ps, stored, accepted);
      MM.News(ps, stored, accepted[name := v])
        == (if name in current && MM.SameValue(current[name], v) then news else news[name := v])
  {
    hide BuildDefaults, MM.SameValue;
    assert name !in MM.News(ps, stored, accepted);
  }

  lemma BidcosAdvances(lib: Lib, ps: Description, ch: MM.Channel, done: Table, p: Progress, name: string, value: Value)
    requires BidcosSoFar(lib, ps, ch, done, p) && name !in done
    ensures BidcosSoFar(lib, ps, ch, done[name := value], BidcosNext(lib, ps, p, name, value))
  {
    hide MM.BidcosAccepted, MM.News, BuildDefaults, MM.BidcosStored, Writable, MM.SameValue, BidcosRejected;
    BidcosAcceptedNext(lib, ps, done, name, value);
    if MM.Takes(ps, name) && MM.BidcosStored(lib, ps[name], value).Some? {
      BidcosTakes(lib, ps, ch, done, p, name, value, MM.BidcosStored(lib, ps[name], value).value);
    } else {
      RejectsMore(done, p.accepted, p.rejected, name, value);
    }
  }

  lemma RejectsMore(done: Table, accepted: Table, rejected: seq<string>, name: string, value: Value)
    requires BidcosRejected(done, accepted, rejected) && name !in accepted
    ensures BidcosRejected(done[name := value], accepted, rejected + [name])
  {
  }

  lemma BidcosTakes(lib: Lib, ps: Description, ch: MM.Channel, done: Table, p: Progress, name: string, value: Value,
                    v: Value)
    requires BidcosSoFar(lib, ps, ch, done, p) && name !in done && name !in p.accepted
    requires MM.Takes(ps, name) && MM.BidcosStored(lib, ps[name], value) == Some(v)
    requires MM.BidcosAccepted(lib, ps, done[name := value]) == p.accepted[name := v]
    ensures BidcosSoFar(lib, ps, ch, done[name := value], BidcosNext(lib, ps, p, name, value))
  {
    hide MM.BidcosAccepted, MM.News, BuildDefaults, MM.BidcosStored, Writable, MM.SameValue, BidcosRejected;
    RejectsSame(done, p.accepted, p.rejected, name, value, v);
    NewsNext(ps, ch.stored, p.accepted, name, v);
    var news := MM.News(ps, ch.stored, p.accepted);
    if !(name in p.current && MM.SameValue(p.current[name], v)) {
      PutPair(ch.stored, news, name, v);
      PutLast(BuildDefaults(ps), ch.stored, news, name, v);
      assert name in news[name := v];
    }
  }

  lemma RejectsSame(done: Table, accepted: Table, rejected: seq<string>, name: string, value: Value, v: Value)
    requires BidcosRejected(done, accepted, rejected) && name !in done && name !in accepted
    ensures BidcosRejected(done[name := value], accepted[name := v], rejected)
  {
  }

  lemma PartNext(set_: Table, names: seq<string>, i: nat)
    requires i < |names| && names[i] in set_ && (forall a, b :: 0 <= a < b < |names| ==> names[a] != names[b])
    ensures Part(set_, names[..i + 1]) == Part(set_, names[..i])[names[i] := set_[names[i]]]
    ensures names[i] !in Part(set_, names[..i])
  {
    assert names[..i + 1] == names[..i] + [names[i]];
  }

  lemma Start(lib: Lib, ps: Description, ch: MM.Channel)
    ensures var p := Progress(ch.stored, BuildDefaults(ps) + ch.stored, map[], ch.poisoned, false, []);
      HmipSoFar(lib, ps, ch, map[], p) && BidcosSoFar(lib, ps, ch, map[], p)
  {
    hide BuildDefaults;
    assert MM.Unknown(ps, map[]) == map[] && MM.HmipAccepted(lib, ps, map[]) == map[];
    assert MM.BidcosAccepted(lib, ps, map[]) == map[] && MM.News(ps, ch.stored, map[]) == map[];
    assert ch.stored + map[] == ch.stored && BuildDefaults(ps) + ch.stored + map[] == BuildDefaults(ps) + ch.stored;
  }

  lemma PartAll(set_: Table)
    ensures Part(set_, Names.Sorted(set_.Keys)) == set_ && Part(set_, []) == map[]
  {
  }

  // ----- the write loops -----

  /** Sorted by name, every value is stored; what is wrong with it is judged afterwards. */
  method PutHmip(lib: Lib, ps: Description, stored: TableObj, wasPoisoned: bool, set_: Table) returns (p: Progress)
    modifies stored
    ensures HmipSoFar(lib, ps, MM.Channel(old(stored.m), wasPoisoned), set_, p)
    ensures stored.m == p.stored
  {
    hide HmipSoFar, BuildDefaults, MM.HmipStored, MM.SameValue, Writable, Part;
    ghost var ch := MM.Channel(stored.m, wasPoisoned);
    var names := Names.Sorted(set_.Keys);
    var current := BuildDefaults(ps) + stored.m;
    var accepted: Table, rejected: seq<string>, poisoned, changed := map[], [], wasPoisoned, false;
    Start(lib, ps, ch);
    PartAll(set_);
    for i := 0 to |names|
      invariant HmipSoFar(lib, ps, ch, Part(set_, names[..i]),
          Progress(stored.m, current, accepted, poisoned, changed, rejected))
    {
      var name := names[i];
      var value := set_[name];
      PartNext(set_, names, i);
      HmipAdvances(lib, ps, ch, Part(set_, names[..i]),
          Progress(stored.m, current, accepted, poisoned, changed, rejected), name, value);
      if name !in ps {
        stored.m := stored.m[name := value];
        poisoned := true;
        rejected := rejected + [name];
      } else if !Writable(ps[name]) {
        rejected := rejected + [name];
      } else {
        var (v, valid) := MM.HmipStored(lib, ps[name], value);
        if !(name in current && MM.SameValue(current[name], v)) { changed := true; }
        stored.m := stored.m[name := v];
        current := current[name := v];
        accepted := accepted[name := v];
        if !valid { rejected := rejected + [name]; }
      }
    }
    assert names[..|names|] == names;
    p := Progress(stored.m, current, accepted, poisoned, changed, rejected);
  }

  /** Sorted by name, only usable values are stored, and only where they differ from what is there. */
  method PutBidcos(lib: Lib, ps: Description, stored: TableObj, wasPoisoned: bool, set_: Table) returns (p: Progress)
    modifies stored
    ensures BidcosSoFar(lib, ps, MM.Channel(old(stored.m), wasPoisoned), set_, p)
    ensures stored.m == p.stored
  {
    hide BidcosSoFar, HmipSoFar, BuildDefaults, MM.BidcosStored, MM.SameValue, Writable, Part, Names.Sorted;
    ghost var ch := MM.Channel(stored.m, wasPoisoned);
    var names := Names.Sorted(set_.Keys);
    var current := BuildDefaults(ps) + stored.m;
    var accepted: Table, rejected: seq<string>, changed := map[], [], false;
    Start(lib, ps, ch);
    PartAll(set_);
    for i := 0 to |names|
      invariant BidcosSoFar(lib, ps, ch, Part(set_, names[..i]),
          Progress(stored.m, current, accepted, wasPoisoned, changed, rejected))
    {
      var name := names[i];
      var value := set_[name];
      PartNext(set_, names, i);
      ghost var was := Progress(stored.m, current, accepted, wasPoisoned, changed, rejected);
      BidcosAdvances(lib, ps, ch, Part(set_, names[..i]), was, name, value);
      if name !in ps || !Writable(ps[name]) {
        rejected := rejected + [name];
        continue;
      }
      var v := MM.BidcosStored(lib, ps[name], value);
      if v.None? {
        rejected := rejected + [name];
        continue;
      }
      accepted := accepted[name := v.value];
      if !(name in current && MM.SameValue(current[name], v.value)) {
        stored.m := stored.m[name := v.value];
        current := current[name := v.value];
        changed := true;
      }
    }
    assert names[..|names|] == names;
    p := Progress(stored.m, current, accepted, wasPoisoned, changed, rejected);
  }

  /** In whatever order the names come. */
  method HoldsInvalid(lib: Lib, ps: Description, stored: Table) returns (invalid: bool)
    ensures invalid == MM.Invalid(lib, ps, stored)
  {
    hide MM.HmipStored;
    var left := stored.Keys;
    while left != {}
      invariant left <= stored.Keys
      invariant forall n :: n in stored && n !in left ==> n !in ps || MM.HmipStored(lib, ps[n], stored[n]).1
    {
      var name :| name in left;
      if name in ps && !MM.HmipStored(lib, ps[name], stored[name]).1 { return true; }
      left := left - {name};
    }
    invalid := false;
  }

  method PutMasterModel(lib: Lib, model: Model, ps: Description, stored: TableObj, wasPoisoned: bool, set_: Table)
    returns (poisoned: bool, fault: bool, pending: MM.Pending, accepted: Table, rejected: seq<string>)
    modifies stored
    ensures var ch := MM.Channel(old(stored.m), wasPoisoned);
      var w := if model == Hmip then MM.HmipWrite(lib, ps, ch, set_) else MM.BidcosWrite(lib, ps, ch, set_);
      && w == MM.Written(MM.Channel(stored.m, poisoned), fault, pending, accepted, w.rejected)
      && forall n :: n in rejected <==> n in w.rejected
  {
    hide BuildDefaults, MM.HmipStored, MM.Invalid, MM.Changes, MM.Unknown, MM.BidcosStored, Writable;
    poisoned := wasPoisoned;
    if model == Hmip {
      var p := PutHmip(lib, ps, stored, wasPoisoned, set_);
      var invalid := HoldsInvalid(lib, ps, stored.m);
      poisoned := p.poisoned;
      fault := invalid || poisoned;
      pending := if !invalid then MM.Clear else if p.changed then MM.Stick else MM.Keep;
      accepted, rejected := p.accepted, p.rejected;
    } else {
      var p := PutBidcos(lib, ps, stored, wasPoisoned, set_);
      fault := false;
      pending := if p.changed then MM.Pulse else MM.Keep;
      accepted, rejected := p.accepted, p.rejected;
    }
  }

  // ----- the store -----

  ghost function Contents(tables: map<Key, TableObj>): map<Key, Table>
    reads tables.Values
  {
    map k | k in tables :: tables[k].m
  }

  class Store {
    const env: Env
    var overrides: map<Key, TableObj>
    var defaults: map<Key, TableObj>
    var compiled: map<Key, TableObj>
    var dirty: set<Key>
    var poisoned: set<string>
    var descs: map<string, map<Kind, Description>>
    var devices: seq<string>

    ghost function Tables(): set<TableObj>
      reads this
    {
      overrides.Values + defaults.Values + compiled.Values
    }

    /** No table of stored values is shared: with another key, with the cache or with a caller. */
    ghost predicate Valid()
      reads this
    {
      && (forall k, l :: k in overrides && l in overrides && overrides[k] == overrides[l] ==> k == l)
      && overrides.Values !! defaults.Values + compiled.Values
    }

    ghost function State(): Cache
      reads this, Tables()
    {
      Cache(Contents(overrides), Contents(defaults), Contents(compiled), dirty, poisoned, descs, devices)
    }

    constructor (e: Env)
      ensures Valid() && env == e && State() == EMPTY
    {
      env := e;
      overrides, defaults, compiled := map[], map[], map[];
      dirty, poisoned, descs, devices := {}, {}, map[], [];
    }

    /** The answer is a copy: no table of the store, so nothing a caller does to it reaches a
        later read. */
    method Read(address: string, kind: Kind) returns (r: Option<TableObj>)
      requires Valid()
      modifies this
      ensures Valid() && (r.Some? ==> fresh(r.value) && r.value !in Tables())
      ensures var (answer, after) := Get(env, old(State()), address, kind);
        && State() == after
        && answer == (if r.Some? then Some(r.value.m) else None)
    {
      hide State, Valid, Tables, BuildDefaults, Visible;
      var k := Key(env.up(address), kind);
      var described, d := Find(address, kind);
      if kind == Link {
        if !described { return None; }
        var only := Copy(if d.Some? then BuildDefaults(d.value) else map[]);
        return Some(only);
      }
      r := CleanCopy(k);
      if r.Some? { return; }
      var built := HasDefaults(k);
      if !built {
        if d.None? { return None; }
        KeepDefaults(k, BuildDefaults(d.value));
      }
      var result := Compile(k);
      r := Some(result);
    }

    method Find(address: string, kind: Kind) returns (described: bool, d: Option<Description>)
      ensures d == Visible(env, State(), address, kind)
      ensures described <==> env.up(address) in State().descs || address in State().descs
      ensures State() == old(State())
    {
      described := env.up(address) in descs || address in descs;
      var a := if env.up(address) in descs then env.up(address) else address;
      d := if a in descs && kind in descs[a] then Some(descs[a][kind]) else None;
    }

    method Copy(m: Table) returns (copy: TableObj)
      ensures fresh(copy) && copy.m == m && copy !in Tables()
      ensures State() == old(State())
    {
      copy := new TableObj(m);
    }

    /** A copy of the compiled answer, unless there is none or it is stale. */
    method CleanCopy(k: Key) returns (r: Option<TableObj>)
      ensures r.Some? <==> k in State().compiled && k !in State().dirty
      ensures r.Some? ==> fresh(r.value) && r.value !in Tables() && r.value.m == State().compiled[k]
      ensures State() == old(State())
    {
      if k !in compiled || k in dirty { return None; }
      var copy := new TableObj(compiled[k].m);
      r := Some(copy);
    }

    method HasDefaults(k: Key) returns (built: bool)
      ensures built <==> k in State().defaults
      ensures State() == old(State())
    {
      built := k in defaults;
    }

    method KeepDefaults(k: Key, m: Table)
      requires Valid()
      modifies this`defaults
      ensures Valid() && State() == old(State()).(defaults := old(State()).defaults[k := m])
    {
      var built := new TableObj(m);
      defaults := defaults[k := built];
      assert Contents(defaults) == old(Contents(defaults))[k := m];
    }

    method KeepCompiled(k: Key, m: Table)
      requires Valid()
      modifies this`compiled, this`dirty
      ensures Valid()
      ensures forall t: TableObj :: t in Tables() ==> t in old(Tables()) || fresh(t)
      ensures State() == old(State()).(compiled := old(State()).compiled[k := m], dirty := old(State()).dirty - {k})
    {
      var kept := new TableObj(m);
      compiled := compiled[k := kept];
      dirty := dirty - {k};
      assert Contents(compiled) == old(Contents(compiled))[k := m];
    }

    method Combined(k: Key) returns (m: Table)
      requires k in State().defaults
      ensures m == State().defaults[k] + Over(State(), k)
      ensures State() == old(State())
    {
      m := defaults[k].m;
      if k in overrides { m := m + overrides[k].m; }
      assert defaults[k].m + map[] == defaults[k].m;
    }

    /** The table that is kept and the caller's copy are two. */
    method Compile(k: Key) returns (result: TableObj)
      requires Valid() && k in State().defaults
      modifies this`compiled, this`dirty
      ensures Valid() && fresh(result) && result !in Tables()
      ensures var c := old(State());
        && result.m == c.defaults[k] + Over(c, k)
        && State() == c.(compiled := c.compiled[k := result.m], dirty := c.dirty - {k})
    {
      hide State, Valid, Tables;
      var m := Combined(k);
      KeepCompiled(k, m);
      result := Copy(m);
    }

    /** The table of stored values for a key, created when missing. */
    method TableFor(k: Key) returns (t: TableObj)
      requires Valid()
      modifies this`overrides
      ensures Valid() && k in overrides && overrides[k] == t
      ensures if k in old(overrides) then overrides == old(overrides)
          else fresh(t) && overrides == old(overrides)[k := t]
      ensures t.m == Over(old(State()), k)
      ensures State() == old(State()).(overrides := old(State()).overrides[k := t.m])
    {
      if k in overrides {
        t := overrides[k];
        assert Contents(overrides)[k := t.m] == Contents(overrides);
        return;
      }
      t := new TableObj(map[]);
      overrides := overrides[k := t];
      assert Contents(overrides) == old(Contents(overrides))[k := t.m];
    }

    /** Writes one table in place and marks the compiled answer stale. */
    method SetTable(k: Key, t: TableObj, m: Table)
      requires Valid() && k in overrides && overrides[k] == t
      modifies t, this`dirty
      ensures Valid() && t.m == m && State() == Stored(old(State()), k, m)
    {
      t.m := m;
      dirty := dirty + {k};
      assert State().overrides == old(State()).overrides[k := m];
    }

    method Write(address: string, kind: Kind, deviceType: string, model: Option<Model>, force: bool,
                 writes: seq<(string, Value)>)
      returns (outcome: Outcome)
      requires Valid()
      modifies this, overrides.Values
      ensures Valid()
      ensures (outcome, State()) == Put(env, old(State()), address, kind, deviceType, model, force, writes)
    {
      hide PutFrom, PutModel;
      var described, d := Find(address, kind);
      if d.None? { return Refused; }
      var k := Key(env.up(address), kind);
      if kind == Master && env.masterModel && model.Some? {
        outcome := WriteModel(k, model.value, d.value, writes);
      } else {
        outcome := WriteAll(k, deviceType, d.value, force, writes);
      }
    }

    /** Name after name; the first refusal returns with what is stored so far. */
    method WriteAll(k: Key, deviceType: string, ps: Description, force: bool, writes: seq<(string, Value)>)
      returns (outcome: Outcome)
      requires Valid()
      modifies this, overrides.Values
      ensures Valid()
      ensures (outcome, State()) == PutFrom(env, old(State()), k, deviceType, ps, force, writes)
    {
      hide Judge, Response, Writable, Converted;
      assert writes[0..] == writes;
      for i := 0 to |writes|
        invariant Valid() && fresh(overrides.Values - old(overrides.Values))
        invariant PutFrom(env, State(), k, deviceType, ps, force, writes[i..])
            == PutFrom(env, old(State()), k, deviceType, ps, force, writes)
      {
        var last := writes[i..];
        assert last[0] == writes[i] && last[1..] == writes[i + 1..];
        var (name, v) := writes[i];
        var (judged, converted) := Judge(env, ps, force, name, v);
        if converted.None? { return judged; }
        WriteOne(k, deviceType, name, converted.value);
      }
      outcome := Done;
    }

    /** The value itself, then the follow-ups the response table computes from it. */
    method WriteOne(k: Key, deviceType: string, name: string, v: Value)
      requires Valid()
      modifies this, overrides.Values
      ensures Valid() && fresh(overrides.Values - old(overrides.Values))
      ensures State() == Stored(old(State()), k, ParamCache.Store(env, deviceType, Over(old(State()), k), name, v))
    {
      hide Response, State, Valid, Tables;
      var t := TableFor(k);
      var stored := t.m[name := v];
      var response := Response(env, deviceType, name, v, stored);
      StoredTwice(old(State()), k, t.m, stored + response);
      SetTable(k, t, stored + response);
    }

    method WriteModel(k: Key, model: Model, ps: Description, writes: seq<(string, Value)>) returns (outcome: Outcome)
      requires Valid()
      modifies this, overrides.Values
      ensures Valid()
      ensures (outcome, State()) == PutModel(env, old(State()), k, model, ps, writes)
    {
      hide MM.HmipWrite, MM.BidcosWrite, Tables;
      ghost var c := State();
      var t := TableFor(k);
      var nowPoisoned, fault, pending, accepted, rejected := WriteTable(k, t, model, ps, AsTable(writes));
      hide State, Valid;
      StoredTwice(c, k, Over(c, k), t.m);
      MarkDirty(k);
      if nowPoisoned { Poison(k.address); }
      outcome := if fault then Refused else Done;
    }

    method WriteTable(k: Key, t: TableObj, model: Model, ps: Description, set_: Table)
      returns (poisoned_: bool, fault: bool, pending: MM.Pending, accepted: Table, rejected: seq<string>)
      requires Valid() && k in overrides && overrides[k] == t
      modifies t
      ensures Valid() && State() == old(State()).(overrides := old(State()).overrides[k := t.m])
      ensures var ch := MM.Channel(old(t.m), k.address in poisoned);
        var w := if model == Hmip then MM.HmipWrite(env.lib, ps, ch, set_) else MM.BidcosWrite(env.lib, ps, ch, set_);
        w.fault == fault && w.channel == MM.Channel(t.m, poisoned_)
    {
      hide MM.HmipWrite, MM.BidcosWrite;
      poisoned_, fault, pending, accepted, rejected :=
          PutMasterModel(env.lib, model, ps, t, k.address in poisoned, set_);
      assert Contents(overrides) == old(Contents(overrides))[k := t.m];
    }

    method MarkDirty(k: Key)
      requires Valid()
      modifies this`dirty
      ensures Valid() && State() == old(State()).(dirty := old(State()).dirty + {k})
    {
      dirty := dirty + {k};
    }

    method Poison(address: string)
      requires Valid()
      modifies this`poisoned
      ensures Valid() && State() == old(State()).(poisoned := old(State()).poisoned + {address})
    {
      poisoned := poisoned + {address};
    }

    /** Maintenance values and ramp progress. */
    method WriteSilently(address: string, name: string, v: Value)
      requires Valid()
      modifies this, overrides.Values
      ensures Valid() && State() == Silent(env, old(State()), address, name, v)
    {
      var k := Key(env.up(address), Values);
      var t := TableFor(k);
      hide State, Valid, Tables;
      StoredTwice(old(State()), k, t.m, t.m[name := v]);
      SetTable(k, t, t.m[name := v]);
    }

    method ClearAddress(address: string)
      requires Valid()
      modifies this
      ensures Valid() && State() == Forget(env, old(State()), address) && devices == old(devices)
    {
      hide State, Valid, Tables;
      var upper := env.up(address);
      var gone := {Key(upper, Values), Key(upper, Master)};
      DropOverrides(address);
      DropCaches(gone);
      DropMarks(address, upper, gone);
    }

    method DropMarks(address: string, upper: string, gone: set<Key>)
      requires Valid()
      modifies this`poisoned, this`descs, this`dirty
      ensures Valid()
      ensures var c := old(State());
        State() == c.(poisoned := c.poisoned - {upper}, descs := c.descs - {address}, dirty := c.dirty - gone)
    {
      poisoned := poisoned - {upper};
      descs := descs - {address};
      dirty := dirty - gone;
    }

    method DropOverrides(address: string)
      requires Valid()
      modifies this`overrides
      ensures Valid()
      ensures State() == old(State()).(overrides := map k | k in old(State()).overrides && k.address != address ::
          old(State()).overrides[k])
    {
      overrides := map k | k in overrides && k.address != address :: overrides[k];
      assert Contents(overrides) == map k | k in old(Contents(overrides)) && k.address != address ::
          old(Contents(overrides))[k];
    }

    method DropCaches(gone: set<Key>)
      requires Valid()
      modifies this`defaults, this`compiled
      ensures Valid()
      ensures State()
          == old(State()).(defaults := old(State()).defaults - gone, compiled := old(State()).compiled - gone)
    {
      defaults, compiled := defaults - gone, compiled - gone;
      assert Contents(defaults) == old(Contents(defaults)) - gone;
      assert Contents(compiled) == old(Contents(compiled)) - gone;
    }

    method DeleteDevice(root: string)
      requires Valid()
      modifies this
      ensures Valid() && State() == Delete(env, old(State()), root)
    {
      assert State().devices == devices;
      hide Belongs, Forget, State, Valid, Tables, Sweep, Owned, Others;
      ghost var start := State();
      var all, filtered: seq<string> := devices, [];
      SweepIs(env, start, root, all, []);
      assert all[0..] == all;
      for i := 0 to |all|
        invariant Valid()
        invariant Sweep(env, State(), root, all[i..], filtered) == Sweep(env, start, root, all, [])
      {
        SweepStep(env, State(), root, all, i, filtered);
        if Belongs(env, root, all[i]) {
          if all[i] != "" { ClearAddress(all[i]); }
        } else {
          filtered := filtered + [all[i]];
        }
      }
      SweepStep(env, State(), root, all, |all|, filtered);
      SetDevices(filtered);
    }

    method SetDevices(all: seq<string>)
      requires Valid()
      modifies this`devices
      ensures Valid() && State() == old(State()).(devices := all)
    {
      devices := all;
    }

    method LoadDevices(ds: map<string, map<Kind, Description>>, more: seq<string>)
      requires Valid()
      modifies this
      ensures Valid() && State() == Load(old(State()), ds, more)
    {
      devices := devices + more;
      descs := descs + ds;
    }

    /** A caller that overwrites the answer it got reads the same answer again. */
    method ReadTwice(address: string, kind: Kind, scribble: Table) returns (first: Option<Table>, second: Option<Table>)
      requires Valid() && env.Valid() && Inv(env, State()) && kind != Link
      modifies this
      ensures Valid() && first == second == Fresh(env, old(State()), address, kind)
    {
      hide Valid, BuildDefaults, Inv, Get, Fresh;
      GetKeeps(env, State(), address, kind);
      var r := Read(address, kind);
      first := if r.Some? then Some(r.value.m) else None;
      if r.Some? {
        ghost var before := State();
        r.value.m := scribble;
        assert State() == before;
      }
      GetKeeps(env, State(), address, kind);
      FreshStays(env, old(State()), address, kind);
      var again := Read(address, kind);
      second := if again.Some? then Some(again.value.m) else None;
    }
  }

  lemma StoredTwice(c: Cache, k: Key, a: Table, b: Table)
    ensures Stored(c.(overrides := c.overrides[k := a]), k, b) == Stored(c, k, b)
  {
  }

  /** One pass over the device list: what belongs to the root is forgotten, the rest kept. */
  function Sweep(env: Env, c: Cache, root: string, devices: seq<string>, kept: seq<string>): Cache
    decreases |devices|
  {
    if devices == [] then c.(devices := kept)
    else if !Belongs(env, root, devices[0]) then Sweep(env, c, root, devices[1..], kept + [devices[0]])
    else Sweep(env, if devices[0] == "" then c else Forget(env, c, devices[0]), root, devices[1..], kept)
  }

  lemma SweepStep(env: Env, c: Cache, root: string, devices: seq<string>, i: nat, kept: seq<string>)
    requires i <= |devices|
    ensures Sweep(env, c, root, devices[i..], kept)
         == if i == |devices| then c.(devices := kept)
            else if !Belongs(env, root, devices[i]) then Sweep(env, c, root, devices[i + 1..], kept + [devices[i]])
            else Sweep(env, if devices[i] == "" then c else Forget(env, c, devices[i]), root, devices[i + 1..], kept)
  {
    hide Belongs, Forget;
    if i < |devices| { assert devices[i..][1..] == devices[i + 1..]; }
  }

  lemma {:induction false} SweepIs(env: Env, c: Cache, root: string, devices: seq<string>, kept: seq<string>)
    ensures Sweep(env, c, root, devices, kept)
         == ForgetAll(env, c, Owned(env, root, devices)).(devices := kept + Others(env, root, devices))
    decreases |devices|
  {
    hide Belongs, Forget;
    if devices == [] {
      assert kept + [] == kept;
    } else {
      var d, rest := devices[0], Owned(env, root, devices[1..]);
      assert ([d] + rest)[1..] == rest && [] + rest == rest;
      if Belongs(env, root, d) {
        SweepIs(env, if d == "" then c else Forget(env, c, d), root, devices[1..], kept);
      } else {
        SweepIs(env, c, root, devices[1..], kept + [d]);
      }
    }
  }

  lemma FreshStays(env: Env, c: Cache, address: string, kind: Kind)
    ensures Fresh(env, Get(env, c, address, kind).1, address, kind) == Fresh(env, c, address, kind)
  {
    hide BuildDefaults;
  }
}
