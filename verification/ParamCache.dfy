/** The paramset cache: stored values, built defaults, compiled answers and their dirty marks.
    Every operation as a step, and what a read answers after any run of them. */
module ParamCache {
  import opened Collections
  import opened Params
  import MasterModel

  datatype Kind = Values | Master | Link

  /** Caches are keyed by the upper-cased address. */
  datatype Key = Key(address: string, kind: Kind)

  datatype Model = Hmip | Bidcos

  datatype Env = Env(
    lib: Lib,
    up: string -> string,
    respond: (string, string, Value, Table) -> Table,
    ramps: bool,
    progress: map<string, string>,
    masterModel: bool)
  {
    ghost predicate Valid() {
      forall s :: up(up(s)) == up(s) && (up(s) == "" ==> s == "")
    }
  }

  datatype Cache = Cache(
    overrides: map<Key, Table>,
    defaults: map<Key, Table>,
    compiled: map<Key, Table>,
    dirty: set<Key>,
    poisoned: set<string>,
    descs: map<string, map<Kind, Description>>,
    devices: seq<string>)

  const EMPTY := Cache(map[], map[], map[], {}, {}, map[], [])

  function Over(c: Cache, k: Key): Table {
    if k in c.overrides then c.overrides[k] else map[]
  }

  /** The description of a channel, looked up in upper case and then as spelled. */
  function Visible(env: Env, c: Cache, address: string, kind: Kind): Option<Description> {
    var a := if env.up(address) in c.descs then env.up(address) else address;
    if a in c.descs && kind in c.descs[a] then Some(c.descs[a][kind]) else None
  }

  // ----- reading -----

  /** What a store without a cache answers. */
  function Fresh(env: Env, c: Cache, address: string, kind: Kind): Option<Table> {
    var d := Visible(env, c, address, kind);
    if d.None? then None else Some(BuildDefaults(d.value) + Over(c, Key(env.up(address), kind)))
  }

  function Get(env: Env, c: Cache, address: string, kind: Kind): (Option<Table>, Cache) {
    var k := Key(env.up(address), kind);
    if kind == Link then
      var described := env.up(address) in c.descs || address in c.descs;
      var d := Visible(env, c, address, kind);
      (if !described then None else Some(if d.Some? then BuildDefaults(d.value) else map[]), c)
    else if k in c.compiled && k !in c.dirty then (Some(c.compiled[k]), c)
    else
      var d := Visible(env, c, address, kind);
      if k !in c.defaults && d.None? then (None, c)
      else
        var defaults := if k in c.defaults then c.defaults[k] else BuildDefaults(d.value);
        var result := defaults + Over(c, k);
        (Some(result),
            c.(defaults := c.defaults[k := defaults], compiled := c.compiled[k := result], dirty := c.dirty - {k}))
  }

  // ----- writing -----

  datatype Outcome = Done | Triggered | Refused

  /** Follow-up values of the response table; the ramp owns its progress parameter. */
  function Response(env: Env, deviceType: string, name: string, v: Value, current: Table): Table {
    var r := env.respond(deviceType, name, v, current);
    if env.ramps && name in env.progress then r - {env.progress[name]} else r
  }

  function Store(env: Env, deviceType: string, table: Table, name: string, v: Value): Table {
    var stored := table[name := v];
    stored + Response(env, deviceType, name, v, stored)
  }

  /** The value to store, or why nothing is stored. */
  function Judge(env: Env, ps: Description, force: bool, name: string, v: Value): (Outcome, Option<Value>) {
    if name !in ps || (!force && !Writable(ps[name])) then (Refused, None)
    else if ps[name].type_ == "ACTION" then (Triggered, None)
    else
      var converted := Converted(env.lib, ps[name], v);
      if converted.None? then (Refused, None) else (Done, converted)
  }

  function Stored(c: Cache, k: Key, table: Table): Cache {
    c.(overrides := c.overrides[k := table], dirty := c.dirty + {k})
  }

  /** In the order the names come; the first refusal or trigger ends the write, and what came
      before it stays. */
  function PutFrom(env: Env, c: Cache, k: Key, deviceType: string, ps: Description, force: bool,
                   writes: seq<(string, Value)>): (Outcome, Cache)
    decreases |writes|
  {
    if writes == [] then (Done, c)
    else
      var (outcome, v) := Judge(env, ps, force, writes[0].0, writes[0].1);
      if v.None? then (outcome, c)
      else PutFrom(env, Stored(c, k, Store(env, deviceType, Over(c, k), writes[0].0, v.value)), k, deviceType, ps,
          force, writes[1..])
  }

  function AsTable(writes: seq<(string, Value)>): Table {
    if writes == [] then map[] else AsTable(writes[..|writes| - 1])[writes[|writes| - 1].0 := writes[|writes| - 1].1]
  }

  function PutModel(env: Env, c: Cache, k: Key, model: Model, ps: Description, writes: seq<(string, Value)>)
    : (Outcome, Cache)
  {
    var ch := MasterModel.Channel(Over(c, k), k.address in c.poisoned);
    var w :=
      if model == Hmip then MasterModel.HmipWrite(env.lib, ps, ch, AsTable(writes))
      else MasterModel.BidcosWrite(env.lib, ps, ch, AsTable(writes));
    (if w.fault then Refused else Done,
     Stored(c, k, w.channel.stored).(poisoned := if w.channel.poisoned then c.poisoned + {k.address} else c.poisoned))
  }

  function Put(env: Env, c: Cache, address: string, kind: Kind, deviceType: string, model: Option<Model>, force: bool,
               writes: seq<(string, Value)>): (Outcome, Cache)
  {
    var d := Visible(env, c, address, kind);
    var k := Key(env.up(address), kind);
    if d.None? then (Refused, c)
    else if kind == Master && env.masterModel && model.Some? then PutModel(env, c, k, model.value, d.value, writes)
    else PutFrom(env, c, k, deviceType, d.value, force, writes)
  }

  /** Maintenance and ramp writes: straight into VALUES. */
  function Silent(env: Env, c: Cache, address: string, name: string, v: Value): Cache {
    var k := Key(env.up(address), Values);
    Stored(c, k, Over(c, k)[name := v])
  }

  // ----- devices -----

  /** Descriptions and stored values go by the address as spelled, caches by the upper-cased one. */
  function Forget(env: Env, c: Cache, address: string): Cache {
    var upper := env.up(address);
    var gone := {Key(upper, Values), Key(upper, Master)};
    Cache(
      map k | k in c.overrides && k.address != address :: c.overrides[k],
      c.defaults - gone, c.compiled - gone, c.dirty - gone, c.poisoned - {upper},
      c.descs - {address}, c.devices)
  }

  function ForgetAll(env: Env, c: Cache, addresses: seq<string>): Cache
    decreases |addresses|
  {
    if addresses == [] then c else ForgetAll(env, Forget(env, c, addresses[0]), addresses[1..])
  }

  predicate Belongs(env: Env, root: string, address: string) {
    env.up(address) == env.up(root) || env.up(root) + ":" <= env.up(address)
  }

  /** The named ones of a list of device addresses that belong to the root. */
  function Owned(env: Env, root: string, devices: seq<string>): seq<string> {
    if devices == [] then []
    else
      (if Belongs(env, root, devices[0]) && devices[0] != "" then [devices[0]] else [])
      + Owned(env, root, devices[1..])
  }

  function Others(env: Env, root: string, devices: seq<string>): seq<string> {
    if devices == [] then []
    else (if Belongs(env, root, devices[0]) then [] else [devices[0]]) + Others(env, root, devices[1..])
  }

  function Delete(env: Env, c: Cache, root: string): Cache {
    ForgetAll(env, c, Owned(env, root, c.devices)).(devices := Others(env, root, c.devices))
  }

  function Load(c: Cache, ds: map<string, map<Kind, Description>>, devices: seq<string>): Cache {
    c.(descs := c.descs + ds, devices := c.devices + devices)
  }

  // ----- runs -----

  datatype Op =
    | ReadOp(address: string, kind: Kind)
    | PutOp(address: string, kind: Kind, deviceType: string, model: Option<Model>, force: bool,
            writes: seq<(string, Value)>)
    | SilentOp(address: string, name: string, value: Value)
    | DeleteOp(root: string)
    | LoadOp(ds: map<string, map<Kind, Description>>, devices: seq<string>)

  function Step(env: Env, c: Cache, op: Op): Cache {
    match op
    case ReadOp(address, kind) => Get(env, c, address, kind).1
    case PutOp(address, kind, deviceType, model, force, writes) => Put(env, c, address, kind, deviceType, model, force,
        writes).1
    case SilentOp(address, name, v) => Silent(env, c, address, name, v)
    case DeleteOp(root) => Delete(env, c, root)
    case LoadOp(ds, devices) => Load(c, ds, devices)
  }

  function Run(env: Env, ops: seq<Op>): Cache {
    if ops == [] then EMPTY else Step(env, Run(env, ops[..|ops| - 1]), ops[|ops| - 1])
  }

  predicate Cached(c: Cache, address: string) {
    Key(address, Values) in c.defaults || Key(address, Master) in c.defaults
  }

  /** Devices and descriptions come with upper-case addresses, and no description changes while
      defaults built from it are cached. */
  ghost predicate Legal(env: Env, c: Cache, op: Op) {
    op.LoadOp? ==>
      && (forall a :: a in op.ds ==> env.up(a) == a && (Cached(c, a) ==> a in c.descs && c.descs[a] == op.ds[a]))
      && (forall a :: a in op.devices ==> env.up(a) == a)
  }

  ghost predicate LegalRun(env: Env, ops: seq<Op>) {
    ops == [] || (LegalRun(env, ops[..|ops| - 1]) && Legal(env, Run(env, ops[..|ops| - 1]), ops[|ops| - 1]))
  }

  // ----- what every step keeps -----

  /** A clean compiled answer is the defaults it was built on, overlaid with the stored values. */
  ghost predicate Consistent(c: Cache) {
    && c.compiled.Keys <= c.defaults.Keys
    && (forall k :: k in c.compiled && k !in c.dirty ==> c.compiled[k] == c.defaults[k] + Over(c, k))
  }

  /** Cached defaults are those of the description now in force. */
  ghost predicate Current(env: Env, c: Cache) {
    && (forall a :: a in c.descs ==> env.up(a) == a)
    && (forall k :: k in c.defaults ==> Backed(env, c, k))
  }

  ghost predicate Backed(env: Env, c: Cache, k: Key)
    requires k in c.defaults
  {
    && k.kind != Link && env.up(k.address) == k.address
    && k.address in c.descs && k.kind in c.descs[k.address]
        && c.defaults[k] == BuildDefaults(c.descs[k.address][k.kind])
  }

  ghost predicate Inv(env: Env, c: Cache) { Consistent(c) && Current(env, c) }

  lemma StoredKeeps(env: Env, c: Cache, k: Key, table: Table)
    requires Inv(env, c)
    ensures Inv(env, Stored(c, k, table))
  {
    hide BuildDefaults;
  }

  lemma GetAnswers(env: Env, c: Cache, address: string, kind: Kind)
    requires env.Valid() && Inv(env, c) && kind != Link
    ensures Get(env, c, address, kind).0 == Fresh(env, c, address, kind)
  {
    hide BuildDefaults;
    var k := Key(env.up(address), kind);
    if k in c.defaults { assert Backed(env, c, k) && Visible(env, c, address, kind) == Some(c.descs[k.address][kind]); }
  }

  lemma CompileKeeps(env: Env, c: Cache, k: Key, d: Description)
    requires Inv(env, c) && k.kind != Link && env.up(k.address) == k.address
    requires k.address in c.descs && k.kind in c.descs[k.address] && c.descs[k.address][k.kind] == d
    ensures var result := BuildDefaults(d) + Over(c, k);
      Inv(env, c.(defaults := c.defaults[k := BuildDefaults(d)], compiled := c.compiled[k := result],
                 dirty := c.dirty - {k}))
  {
    hide BuildDefaults;
  }

  /** A read answers what a store without a cache would, and keeps the cache so. */
  lemma GetKeeps(env: Env, c: Cache, address: string, kind: Kind)
    requires env.Valid() && Inv(env, c)
    ensures Inv(env, Get(env, c, address, kind).1)
    ensures kind != Link ==> Get(env, c, address, kind).0 == Fresh(env, c, address, kind)
    ensures Get(env, c, address, kind).1.overrides == c.overrides
  {
    hide BuildDefaults, Consistent;
    if kind != Link { GetAnswers(env, c, address, kind); }
    var k := Key(env.up(address), kind);
    assert env.up(env.up(address)) == env.up(address);
    var d := Visible(env, c, address, kind);
    if k in c.defaults {
      assert Backed(env, c, k);
      CompileKeeps(env, c, k, c.descs[k.address][kind]);
    } else if kind != Link && d.Some? {
      CompileKeeps(env, c, k, d.value);
    }
  }

  lemma {:induction false} PutFromKeeps(env: Env, c: Cache, k: Key, deviceType: string, ps: Description, force: bool,
                                        writes: seq<(string, Value)>)
    requires Inv(env, c)
    ensures Inv(env, PutFrom(env, c, k, deviceType, ps, force, writes).1)
    decreases |writes|
  {
    hide Judge, Store, Inv, Stored;
    if writes != [] {
      var v := Judge(env, ps, force, writes[0].0, writes[0].1).1;
      if v.Some? {
        var table := Store(env, deviceType, Over(c, k), writes[0].0, v.value);
        StoredKeeps(env, c, k, table);
        PutFromKeeps(env, Stored(c, k, table), k, deviceType, ps, force, writes[1..]);
      }
    }
  }

  lemma PutKeeps(env: Env, c: Cache, address: string, kind: Kind, deviceType: string, model: Option<Model>,
                 force: bool, writes: seq<(string, Value)>)
    requires Inv(env, c)
    ensures Inv(env, Put(env, c, address, kind, deviceType, model, force, writes).1)
  {
    hide BuildDefaults, PutFrom, MasterModel.HmipWrite, MasterModel.BidcosWrite;
    var d := Visible(env, c, address, kind);
    var k := Key(env.up(address), kind);
    if d.Some? {
      PutFromKeeps(env, c, k, deviceType, d.value, force, writes);
    }
  }

  lemma ForgetConsistent(env: Env, c: Cache, address: string)
    requires env.Valid() && Inv(env, c)
    ensures Consistent(Forget(env, c, address))
  {
    hide BuildDefaults;
    var c' := Forget(env, c, address);
    forall k | k in c'.compiled ensures k.address != address && k.address != env.up(address) {
      assert k in c.defaults && Backed(env, c, k);
    }
  }

  lemma ForgetKeeps(env: Env, c: Cache, address: string)
    requires env.Valid() && Inv(env, c)
    ensures Inv(env, Forget(env, c, address))
  {
    ForgetConsistent(env, c, address);
    hide BuildDefaults, Consistent;
    var c' := Forget(env, c, address);
    forall k | k in c'.defaults ensures Backed(env, c', k) {
      assert Backed(env, c, k);
    }
  }

  lemma {:induction false} ForgetAllKeeps(env: Env, c: Cache, addresses: seq<string>)
    requires env.Valid() && Inv(env, c)
    ensures Inv(env, ForgetAll(env, c, addresses))
    decreases |addresses|
  {
    hide Inv, Forget;
    if addresses != [] {
      ForgetKeeps(env, c, addresses[0]);
      ForgetAllKeeps(env, Forget(env, c, addresses[0]), addresses[1..]);
    }
  }

  lemma DevicesDoNotMatter(env: Env, c: Cache, devices: seq<string>)
    requires Inv(env, c)
    ensures Inv(env, c.(devices := devices))
  {
    hide BuildDefaults;
  }

  lemma LoadKeeps(env: Env, c: Cache, ds: map<string, map<Kind, Description>>, devices: seq<string>)
    requires Inv(env, c) && Legal(env, c, LoadOp(ds, devices))
    ensures Inv(env, Load(c, ds, devices))
  {
    hide BuildDefaults;
  }

  lemma StepKeeps(env: Env, c: Cache, op: Op)
    requires env.Valid() && Inv(env, c) && Legal(env, c, op)
    ensures Inv(env, Step(env, c, op))
  {
    hide Inv, Get, Put, ForgetAll, Load, Owned, Others;
    match op
    case ReadOp(address, kind) => GetKeeps(env, c, address, kind);
    case PutOp(address, kind, deviceType, model, force, writes) => PutKeeps(env, c, address, kind, deviceType, model,
        force, writes);
    case SilentOp(address, name, v) => StoredKeeps(env, c, Key(env.up(address), Values),
        Over(c, Key(env.up(address), Values))[name := v]);
    case DeleteOp(root) =>
      ForgetAllKeeps(env, c, Owned(env, root, c.devices));
      DevicesDoNotMatter(env, ForgetAll(env, c, Owned(env, root, c.devices)), Others(env, root, c.devices));
    case LoadOp(ds, devices) => LoadKeeps(env, c, ds, devices);
  }

  lemma {:induction false} RunKeeps(env: Env, ops: seq<Op>)
    requires env.Valid() && LegalRun(env, ops)
    ensures Inv(env, Run(env, ops))
  {
    if ops != [] {
      hide Inv, Step, Legal;
      RunKeeps(env, ops[..|ops| - 1]);
      StepKeeps(env, Run(env, ops[..|ops| - 1]), ops[|ops| - 1]);
    } else {
      EmptyInv(env);
    }
  }

  lemma EmptyInv(env: Env)
    ensures Inv(env, EMPTY)
  {
  }

  /** After any run a read answers the description's defaults overlaid with the stored values. */
  lemma CacheTransparent(env: Env, ops: seq<Op>, address: string, kind: Kind)
    requires env.Valid() && LegalRun(env, ops) && kind != Link
    ensures Get(env, Run(env, ops), address, kind).0 == Fresh(env, Run(env, ops), address, kind)
  {
    RunKeeps(env, ops);
    GetKeeps(env, Run(env, ops), address, kind);
  }

  /** Loading a description over one in use is noticed by readers exactly when nothing was cached
      or both descriptions come to the same values. */
  lemma LoadExact(env: Env, c: Cache, ds: map<string, map<Kind, Description>>, devices: seq<string>, address: string,
                  kind: Kind)
    requires env.Valid() && Inv(env, c) && kind != Link
    ensures var c', k := Load(c, ds, devices), Key(env.up(address), kind);
      (Get(env, c', address, kind).0 == Fresh(env, c', address, kind))
      <==> (k in c.defaults ==> Fresh(env, c', address, kind) == Fresh(env, c, address, kind))
  {
    hide BuildDefaults;
    var k := Key(env.up(address), kind);
    if k in c.defaults { assert Visible(env, c, address, kind) == Some(c.descs[k.address][kind]); }
  }

  // ----- writes that stop part-way -----

  /** How many names are stored before the write ends. */
  function Taken(env: Env, ps: Description, force: bool, writes: seq<(string, Value)>): (n: nat)
    ensures n <= |writes|
    ensures n < |writes| ==> Judge(env, ps, force, writes[n].0, writes[n].1).1 == None
    ensures forall i :: 0 <= i < n ==> Judge(env, ps, force, writes[i].0, writes[i].1).0 == Done
  {
    if writes == [] || Judge(env, ps, force, writes[0].0, writes[0].1).1.None? then 0
    else 1 + Taken(env, ps, force, writes[1..])
  }

  /** A refused or triggering write leaves what a complete write of the names before it leaves. */
  lemma {:induction false} PutPartial(env: Env, c: Cache, k: Key, deviceType: string, ps: Description, force: bool,
                                      writes: seq<(string, Value)>)
    ensures var n, (outcome, c') := Taken(env, ps, force, writes), PutFrom(env, c, k, deviceType, ps, force, writes);
      && PutFrom(env, c, k, deviceType, ps, force, writes[..n]) == (Done, c')
      && outcome == if n < |writes| then Judge(env, ps, force, writes[n].0, writes[n].1).0 else Done
    decreases |writes|
  {
    hide Store, Stored, Judge;
    if writes != [] {
      var v := Judge(env, ps, force, writes[0].0, writes[0].1).1;
      if v.Some? {
        PutPartial(env, Stored(c, k, Store(env, deviceType, Over(c, k), writes[0].0, v.value)), k, deviceType, ps,
            force, writes[1..]);
        var n := Taken(env, ps, force, writes);
        assert writes[..n][1..] == writes[1..][..n - 1];
      }
    }
  }

  /** A write touches no other paramset. */
  lemma {:induction false} PutFrame(env: Env, c: Cache, k: Key, deviceType: string, ps: Description, force: bool,
                                    writes: seq<(string, Value)>, other: Key)
    requires other != k
    ensures Over(PutFrom(env, c, k, deviceType, ps, force, writes).1, other) == Over(c, other)
    decreases |writes|
  {
    hide Judge, Store;
    if writes != [] {
      var v := Judge(env, ps, force, writes[0].0, writes[0].1).1;
      if v.Some? {
        PutFrame(env, Stored(c, k, Store(env, deviceType, Over(c, k), writes[0].0, v.value)), k, deviceType, ps, force,
            writes[1..], other);
      }
    }
  }

  // ----- deleting -----

  lemma {:induction false} ForgetAllExact(env: Env, c: Cache, addresses: seq<string>, k: Key)
    ensures var c' := ForgetAll(env, c, addresses);
      && Over(c', k) == (if k.address in addresses then map[] else Over(c, k))
      && (k.address in c'.descs <==> k.address in c.descs && k.address !in addresses)
      && (k in c'.defaults
          <==> k in c.defaults && (k.kind == Link || forall a :: a in addresses ==> env.up(a) != k.address))
    decreases |addresses|
  {
    if addresses != [] {
      ForgetAllExact(env, Forget(env, c, addresses[0]), addresses[1..], k);
    }
  }

  lemma {:induction false} OwnedMeans(env: Env, root: string, devices: seq<string>)
    ensures forall a :: a in Owned(env, root, devices) <==> a in devices && a != "" && Belongs(env, root, a)
  {
    hide Belongs;
    if devices != [] { OwnedMeans(env, root, devices[1..]); }
  }

  /** Deleting a device clears every cache of its addresses; the stored values of one of its
      channels are gone too if and only if the device list spells that address in upper case,
      as the store does, or nothing was stored. */
  lemma DeleteForgets(env: Env, c: Cache, root: string, address: string, kind: Kind)
    requires env.Valid() && kind != Link
    requires address in c.devices && address != "" && Belongs(env, root, address)
    ensures var c', k := Delete(env, c, root), Key(env.up(address), kind);
      && k !in c'.defaults
      && (Over(c', k) == map[] <==> env.up(address) in c.devices || Over(c, k) == map[])
  {
    var k := Key(env.up(address), kind);
    ForgetAllExact(env, c, Owned(env, root, c.devices), k);
    OwnedMeans(env, root, c.devices);
    assert env.up(env.up(address)) == env.up(address);
  }

  ghost predicate DevicesUpper(env: Env, c: Cache) { forall a :: a in c.devices ==> env.up(a) == a }

  lemma {:induction false} OthersStay(env: Env, root: string, devices: seq<string>)
    ensures forall a :: a in Others(env, root, devices) ==> a in devices
  {
    hide Belongs;
    if devices != [] { OthersStay(env, root, devices[1..]); }
  }

  lemma {:induction false} PutFromDevices(env: Env, c: Cache, k: Key, deviceType: string, ps: Description, force: bool,
                                          writes: seq<(string, Value)>)
    ensures PutFrom(env, c, k, deviceType, ps, force, writes).1.devices == c.devices
    ensures PutFrom(env, c, k, deviceType, ps, force, writes).1.poisoned == c.poisoned
    decreases |writes|
  {
    hide Judge, Store;
    if writes != [] {
      var v := Judge(env, ps, force, writes[0].0, writes[0].1).1;
      if v.Some? {
        PutFromDevices(env, Stored(c, k, Store(env, deviceType, Over(c, k), writes[0].0, v.value)), k, deviceType, ps,
            force, writes[1..]);
      }
    }
  }

  lemma {:induction false} ForgetAllMarks(env: Env, c: Cache, addresses: seq<string>, upper: string)
    ensures var c' := ForgetAll(env, c, addresses);
      && c'.devices == c.devices
      && (upper in c'.poisoned <==> upper in c.poisoned && forall a :: a in addresses ==> env.up(a) != upper)
    decreases |addresses|
  {
    if addresses != [] { ForgetAllMarks(env, Forget(env, c, addresses[0]), addresses[1..], upper); }
  }

  lemma StepDevices(env: Env, c: Cache, op: Op)
    ensures Step(env, c, op).devices
         == if op.DeleteOp? then Others(env, op.root, c.devices) else if op.LoadOp? then c.devices + op.devices
             else c.devices
  {
    hide PutFrom, MasterModel.HmipWrite, MasterModel.BidcosWrite, BuildDefaults, ForgetAll;
    if op.PutOp? {
      var d := Visible(env, c, op.address, op.kind);
      if d.Some? {
        PutFromDevices(env, c, Key(env.up(op.address), op.kind), op.deviceType, d.value, op.force, op.writes);
      }
    }
  }

  lemma {:induction false} RunDevicesUpper(env: Env, ops: seq<Op>)
    requires LegalRun(env, ops)
    ensures DevicesUpper(env, Run(env, ops))
  {
    if ops != [] {
      hide Step;
      var before, op := Run(env, ops[..|ops| - 1]), ops[|ops| - 1];
      RunDevicesUpper(env, ops[..|ops| - 1]);
      StepDevices(env, before, op);
      if op.DeleteOp? { OthersStay(env, op.root, before.devices); }
    }
  }

  /** After any run of upper-case loads, deleting a device forgets everything about its channels:
      what is cached, what is stored, and the poisoning. */
  lemma DeleteForgetsAll(env: Env, ops: seq<Op>, root: string, address: string, kind: Kind)
    requires env.Valid() && LegalRun(env, ops) && kind != Link
    requires var c := Run(env, ops); address in c.devices && address != "" && Belongs(env, root, address)
    ensures var c', k := Delete(env, Run(env, ops), root), Key(env.up(address), kind);
      k !in c'.defaults && Over(c', k) == map[] && k.address !in c'.poisoned
  {
    hide Run, Belongs;
    var c := Run(env, ops);
    RunDevicesUpper(env, ops);
    DeleteForgets(env, c, root, address, kind);
    ForgetAllMarks(env, c, Owned(env, root, c.devices), env.up(address));
    OwnedMeans(env, root, c.devices);
  }

  // ----- poisoning -----

  /** The HmIP model takes a MASTER write to this channel that names what is not described. */
  predicate Poisons(env: Env, c: Cache, op: Op, upper: string) {
    && op.PutOp? && op.kind == Master && env.masterModel && op.model == Some(Hmip) && env.up(op.address) == upper
    && Visible(env, c, op.address, Master).Some?
    && MasterModel.Unknown(Visible(env, c, op.address, Master).value, AsTable(op.writes)) != map[]
  }

  /** A device that owns this channel is deleted. */
  ghost predicate Disowns(env: Env, c: Cache, op: Op, upper: string) {
    op.DeleteOp? && exists a :: a in c.devices && a != "" && Belongs(env, op.root, a) && env.up(a) == upper
  }

  /** Nothing but such a write poisons a channel, and nothing but such a deletion ends it. */
  lemma StepPoison(env: Env, c: Cache, op: Op, upper: string)
    ensures upper in Step(env, c, op).poisoned
        <==> Poisons(env, c, op, upper) || (upper in c.poisoned && !Disowns(env, c, op, upper))
  {
    hide PutFrom, BuildDefaults, ForgetAll, Belongs, MasterModel.Unknown, MasterModel.Invalid;
    if op.PutOp? {
      var d := Visible(env, c, op.address, op.kind);
      if d.Some? {
        PutFromDevices(env, c, Key(env.up(op.address), op.kind), op.deviceType, d.value, op.force, op.writes);
      }
    } else if op.DeleteOp? {
      ForgetAllMarks(env, c, Owned(env, op.root, c.devices), upper);
      OwnedMeans(env, op.root, c.devices);
    }
  }

  /** Poisoned at some point of the run, and not disowned since. */
  ghost predicate PoisonedSince(env: Env, ops: seq<Op>, upper: string) {
    exists i :: 0 <= i < |ops| && PoisonedAt(env, ops, upper, i)
  }

  ghost predicate PoisonedAt(env: Env, ops: seq<Op>, upper: string, i: nat)
    requires i < |ops|
  {
    && Poisons(env, Run(env, ops[..i]), ops[i], upper)
    && forall j :: i < j < |ops| ==> !Disowns(env, Run(env, ops[..j]), ops[j], upper)
  }

  /** A point of a shorter run is one of the longer run if the last operation does not disown. */
  lemma PoisonedLonger(env: Env, ops: seq<Op>, upper: string, i: nat)
    requires ops != [] && i < |ops| - 1
    ensures var n := |ops| - 1;
      PoisonedAt(env, ops, upper, i) <==>
      (PoisonedAt(env, ops[..n], upper, i) && !Disowns(env, Run(env, ops[..n]), ops[n], upper))
  {
    hide Poisons, Disowns, Run;
    var n := |ops| - 1;
    forall j | 0 <= j <= n ensures ops[..n][..j] == ops[..j] {}
    assert forall j :: 0 <= j < n ==> ops[..n][j] == ops[j];
  }

  lemma PoisonedLast(env: Env, ops: seq<Op>, upper: string)
    requires ops != []
    ensures PoisonedAt(env, ops, upper, |ops| - 1) <==> Poisons(env, Run(env, ops[..|ops| - 1]), ops[|ops| - 1], upper)
  {
    hide Poisons, Disowns, Run;
  }

  /** Over any run of reads, writes, silent writes, loads and deletions, a channel is poisoned
      exactly when an undescribed name was sent to it and it was not deleted since. */
  lemma {:induction false} PoisonExact(env: Env, ops: seq<Op>, upper: string)
    ensures upper in Run(env, ops).poisoned <==> PoisonedSince(env, ops, upper)
  {
    if ops != [] {
      hide Poisons, Disowns, Step, PoisonedAt;
      var n := |ops| - 1;
      var front := ops[..n];
      PoisonExact(env, front, upper);
      StepPoison(env, Run(env, front), ops[n], upper);
      PoisonedLast(env, ops, upper);
      forall i | 0 <= i < n
        ensures PoisonedAt(env, ops, upper, i)
            <==> PoisonedAt(env, front, upper, i) && !Disowns(env, Run(env, front), ops[n], upper)
      {
        PoisonedLonger(env, ops, upper, i);
      }
    }
  }

  /** As long as a channel is poisoned every HmIP MASTER write to it faults, an empty one included. */
  lemma PoisonFaults(env: Env, ops: seq<Op>, address: string, deviceType: string, force: bool,
                     writes: seq<(string, Value)>)
    requires env.masterModel && PoisonedSince(env, ops, env.up(address))
    ensures Put(env, Run(env, ops), address, Master, deviceType, Some(Hmip), force, writes).0 == Refused
  {
    hide Run, PoisonedSince, MasterModel.Unknown, MasterModel.Invalid, MasterModel.HmipAccepted;
    PoisonExact(env, ops, env.up(address));
  }

  // ----- inputs no embedded catalogue has -----

  /** Values stored for a device that is listed in lower case outlive its deletion. */
  lemma LowerCaseStays(env: Env)
    requires env.Valid() && env.up("a") == "A"
    ensures var k := Key("A", Values);
      var c := EMPTY.(overrides := map[k := map["P" := Bool(true)]], devices := ["a"]);
      Over(Delete(env, c, "a"), k) != map[]
  {
    var k := Key("A", Values);
    var c := EMPTY.(overrides := map[k := map["P" := Bool(true)]], devices := ["a"]);
    DeleteForgets(env, c, "a", "a", Values);
    assert "P" in Over(c, k);
  }

  /** Readers keep what was compiled from the description before. */
  lemma LoadIsUnseen(env: Env)
    requires env.Valid() && env.up("A") == "A"
    ensures var k, d := Key("A", Values), Desc("BOOL", 0, 0, Bool(true), Nil, Nil, [], []);
      var c := EMPTY.(defaults := map[k := map[]], descs := map["A" := map[Values := map[]]]);
      var c' := Load(c, map["A" := map[Values := map["P" := d]]], []);
      Get(env, c', "A", Values).0 == Some(map[]) && Fresh(env, c', "A", Values) != Some(map[])
  {
    var k, d := Key("A", Values), Desc("BOOL", 0, 0, Bool(true), Nil, Nil, [], []);
    var c := EMPTY.(defaults := map[k := map[]], descs := map["A" := map[Values := map[]]]);
    var c' := Load(c, map["A" := map[Values := map["P" := d]]], []);
    assert "P" in BuildDefaults(map["P" := d]);
  }
}
