/** The device diff a client gets when it registers: what is deleted, what is sent, and what
    the client holds afterwards. */
module DeviceDiff {

  /** A description as the diff sees it; `hmip` says its type belongs to the HmIP interface. */
  datatype Device = Device(address: string, version: string, hmip: bool)

  predicate Named(d: Device) { d.address != "" }

  function Addresses(ds: seq<Device>): (all: set<string>) {
    set d | d in ds :: d.address
  }

  // ----- the diff -----

  /** The version of the last copy a client reports for each address. */
  function Book(known: seq<Device>): (book: map<string, string>)
    ensures book.Keys == Addresses(known) - {""}
  {
    if known == [] then map[]
    else
      var d := known[|known| - 1];
      assert known == known[..|known| - 1] + [d];
      if Named(d) then Book(known[..|known| - 1])[d.address := d.version] else Book(known[..|known| - 1])
  }

  /** The client has it, but it is HmIP or of another version. */
  predicate Outdated(book: map<string, string>, d: Device) {
    d.address in book && (d.hmip || d.version != book[d.address])
  }

  predicate Due(book: map<string, string>, d: Device) { d.address !in book || Outdated(book, d) }

  function Sent(ours: seq<Device>, book: map<string, string>): (ds: seq<Device>)
    ensures forall d :: d in ds <==> d in ours && Due(book, d)
  {
    if ours == [] then []
    else (if Due(book, ours[0]) then [ours[0]] else []) + Sent(ours[1..], book)
  }

  function Replaced(ours: seq<Device>, book: map<string, string>): (names: seq<string>)
    ensures forall a :: a in names <==> exists d :: d in ours && Outdated(book, d) && d.address == a
  {
    if ours == [] then []
    else (if Outdated(book, ours[0]) then [ours[0].address] else []) + Replaced(ours[1..], book)
  }

  function Dropped(known: seq<Device>, addresses: set<string>): (names: seq<string>)
    ensures forall a :: a in names <==> a in Addresses(known) && a != "" && a !in addresses
  {
    if known == [] then []
    else
      assert known == [known[0]] + known[1..];
      (if Named(known[0]) && known[0].address !in addresses then [known[0].address] else [])
      + Dropped(known[1..], addresses)
  }

  /** The addresses to delete and the devices to send. */
  function Diff(ours: seq<Device>, known: seq<Device>): (seq<string>, seq<Device>) {
    var book := Book(known);
    (Replaced(ours, book) + Dropped(known, Addresses(ours)), Sent(ours, book))
  }

  method Reconcile(ours: seq<Device>, known: seq<Device>) returns (deleteList: seq<string>, newList: seq<Device>)
    ensures (deleteList, newList) == Diff(ours, known)
  {
    var book := LastCopies(known);
    var addresses: set<string>;
    addresses, deleteList, newList := Compare(ours, book);
    deleteList := AppendDropped(known, addresses, deleteList);
  }

  /** Deletes what the client has and we do not. */
  method AppendDropped(known: seq<Device>, addresses: set<string>, start: seq<string>) returns (deleteList: seq<string>)
    ensures deleteList == start + Dropped(known, addresses)
  {
    hide Dropped;
    deleteList := start;
    assert known[0..] == known;
    for i := 0 to |known|
      invariant deleteList + Dropped(known[i..], addresses) == start + Dropped(known, addresses)
    {
      DropStep(known, i, addresses);
      if known[i].address !in addresses && known[i].address != "" {
        deleteList := deleteList + [known[i].address];
      }
    }
    DropStep(known, |known|, addresses);
  }

  method LastCopies(known: seq<Device>) returns (book: map<string, string>)
    ensures book == Book(known)
  {
    book := map[];
    for i := 0 to |known|
      invariant book == Book(known[..i])
    {
      assert known[..i + 1] == known[..i] + [known[i]];
      BookSnoc(known[..i], known[i]);
      if known[i].address != "" { book := book[known[i].address := known[i].version]; }
    }
    assert known[..|known|] == known;
  }

  lemma DropStep(known: seq<Device>, i: nat, addresses: set<string>)
    requires i <= |known|
    ensures Dropped(known[i..], addresses)
         == if i == |known| then []
            else (if known[i].address != "" && known[i].address !in addresses then [known[i].address] else [])
                 + Dropped(known[i + 1..], addresses)
  {
    if i < |known| { assert known[i..][1..] == known[i + 1..]; }
  }

  lemma BookSnoc(front: seq<Device>, last: Device)
    ensures Book(front + [last]) == if Named(last) then Book(front)[last.address := last.version] else Book(front)
  {
    assert (front + [last])[..|front|] == front;
  }

  method Compare(ours: seq<Device>, book: map<string, string>)
    returns (addresses: set<string>, deleteList: seq<string>, newList: seq<Device>)
    ensures addresses == Addresses(ours) && deleteList == Replaced(ours, book) && newList == Sent(ours, book)
  {
    addresses, deleteList, newList := {}, [], [];
    CompareEnds(ours, book);
    hide Sent, Replaced, Addresses;
    assert ours[0..] == ours;
    for i := 0 to |ours|
      invariant addresses == Addresses(ours[..i])
      invariant newList + Sent(ours[i..], book) == Sent(ours, book)
      invariant deleteList + Replaced(ours[i..], book) == Replaced(ours, book)
    {
      var d := ours[i];
      CompareStep(ours, i, book);
      addresses := addresses + {d.address};
      if d.address !in book {
        newList := newList + [d];
      } else if d.hmip || d.version != book[d.address] {
        deleteList := deleteList + [d.address];
        newList := newList + [d];
      }
    }
    assert ours[..|ours|] == ours;
  }

  lemma CompareEnds(ours: seq<Device>, book: map<string, string>)
    ensures Addresses(ours[..0]) == {} && Sent(ours[|ours|..], book) == [] && Replaced(ours[|ours|..], book) == []
  {
  }

  lemma CompareStep(ours: seq<Device>, i: nat, book: map<string, string>)
    requires i < |ours|
    ensures Addresses(ours[..i + 1]) == Addresses(ours[..i]) + {ours[i].address}
    ensures Sent(ours[i..], book) == (if Due(book, ours[i]) then [ours[i]] else []) + Sent(ours[i + 1..], book)
    ensures Replaced(ours[i..], book)
        == (if Outdated(book, ours[i]) then [ours[i].address] else []) + Replaced(ours[i + 1..], book)
  {
    assert ours[i..][1..] == ours[i + 1..];
    assert ours[..i + 1] == ours[..i] + [ours[i]];
  }

  // ----- what the client holds afterwards -----

  function Kept(client: seq<Device>, deleted: seq<string>): (ds: seq<Device>)
    ensures forall d :: d in ds <==> d in client && d.address !in deleted
  {
    if client == [] then []
    else (if client[0].address in deleted then [] else [client[0]]) + Kept(client[1..], deleted)
  }

  /** deleteDevices first, newDevices after it. */
  function Applied(client: seq<Device>, diff: (seq<string>, seq<Device>)): seq<Device> {
    Kept(client, diff.0) + diff.1
  }

  predicate Matches(d: Device, e: Device) { d.address == e.address && d.version == e.version }

  /** Exactly our addresses, each in our version; entries without an address do not count. */
  ghost predicate Mirrors(client: seq<Device>, ours: seq<Device>) {
    && (forall d :: d in client && Named(d) ==> exists e :: e in ours && Matches(d, e))
    && (forall e :: e in ours ==> exists d :: d in client && Matches(d, e))
  }

  ghost predicate Unique(ours: seq<Device>) {
    && (forall d :: d in ours ==> Named(d))
    && (forall d, e :: d in ours && e in ours && d.address == e.address ==> d == e)
  }

  /** No older copy hides behind a current one: where a client's last copy of a device is up to
      date, so is every copy. */
  ghost predicate Coherent(ours: seq<Device>, known: seq<Device>) {
    forall d, e ::
        d in known && e in ours && d.address == e.address && !Outdated(Book(known), e) ==> d.version == e.version
  }

  lemma {:induction false} BookHolds(known: seq<Device>, address: string)
    requires address in Book(known)
    ensures exists d :: d in known && d.address == address && d.version == Book(known)[address]
  {
    var d := known[|known| - 1];
    if address == d.address {
      assert d in known;
    } else {
      BookHolds(known[..|known| - 1], address);
    }
  }

  ghost predicate Remains(ours: seq<Device>, known: seq<Device>, d: Device) {
    || (d in ours && Due(Book(known), d))
    || (d in known && !Named(d))
    || (d in known && exists e :: e in ours && e.address == d.address && !Outdated(Book(known), e))
  }

  /** What the client holds for one of our addresses after the diff. */
  lemma HeldAfter(ours: seq<Device>, known: seq<Device>, d: Device)
    requires Unique(ours)
    ensures d in Applied(known, Diff(ours, known)) <==> Remains(ours, known, d)
  {
    var book := Book(known);
    var deleted := Diff(ours, known).0;
    if d in known {
      assert Named(d) ==> d.address in Addresses(known);
      assert d.address in deleted <==>
        (exists e :: e in ours && Outdated(book, e) && e.address == d.address)
            || (Named(d) && d.address !in Addresses(ours));
      if d.address in Addresses(ours) {
        var e :| e in ours && e.address == d.address;
        assert forall f :: f in ours && f.address == d.address ==> f == e;
      }
    }
  }

  /** With unique named devices, the client ends with exactly our devices in our versions if and
      only if it held no conflicting copies of a device it had up to date. */
  lemma Converges(ours: seq<Device>, known: seq<Device>)
    requires Unique(ours)
    ensures Mirrors(Applied(known, Diff(ours, known)), ours) <==> Coherent(ours, known)
  {
    var after := Applied(known, Diff(ours, known));
    if Coherent(ours, known) {
      CoherentMirrors(ours, known);
    } else {
      var d, e :| d in known && e in ours && d.address == e.address && !Outdated(Book(known), e)
          && d.version != e.version;
      HeldAfter(ours, known, d);
      assert d in after && Named(d);
    }
  }

  lemma CoherentMirrors(ours: seq<Device>, known: seq<Device>)
    requires Unique(ours) && Coherent(ours, known)
    ensures Mirrors(Applied(known, Diff(ours, known)), ours)
  {
    var after := Applied(known, Diff(ours, known));
    forall d | d in after && Named(d)
      ensures exists e :: e in ours && Matches(d, e)
    {
      HeldAfter(ours, known, d);
      if d in ours {
        assert Matches(d, d);
      } else {
        var e :| e in ours && e.address == d.address && !Outdated(Book(known), e);
        assert Matches(d, e);
      }
    }
    forall e | e in ours
      ensures exists d :: d in after && Matches(d, e)
    {
      HeldAfter(ours, known, e);
      if Due(Book(known), e) {
        assert Matches(e, e);
      } else {
        BookHolds(known, e.address);
        var d :| d in known && d.address == e.address && d.version == Book(known)[e.address];
        HeldAfter(ours, known, d);
        assert Matches(d, e);
      }
    }
  }

  // ----- the next run -----

  lemma {:induction false} BookOfApplied(kept: seq<Device>, sent: seq<Device>, e: Device)
    requires Unique(sent) && Named(e)
    ensures e in sent ==> e.address in Book(kept + sent) && Book(kept + sent)[e.address] == e.version
    ensures e.address !in Addresses(sent) && e.address in Book(kept)
        ==> e.address in Book(kept + sent) && Book(kept + sent)[e.address] == Book(kept)[e.address]
    decreases |sent|
  {
    hide Book;
    if sent == [] {
      assert kept + sent == kept;
    } else {
      var front, last := sent[..|sent| - 1], sent[|sent| - 1];
      assert sent == front + [last] && kept + sent == (kept + front) + [last];
      assert forall d :: d in front ==> d in sent;
      BookOfApplied(kept, front, e);
      BookSnoc(kept + front, last);
      assert last in sent;
    }
  }

  lemma {:induction false} BookOfKept(client: seq<Device>, deleted: seq<string>, address: string)
    requires address !in deleted
    ensures address in Book(Kept(client, deleted)) <==> address in Book(client)
    ensures address in Book(client) ==> Book(Kept(client, deleted))[address] == Book(client)[address]
  {
    hide Kept, Book;
    if client == [] {
      NothingKept(deleted);
    } else {
      var front, last := client[..|client| - 1], client[|client| - 1];
      assert client == front + [last];
      BookOfKept(front, deleted, address);
      KeptSnoc(front, last, deleted);
      BookSnoc(front, last);
      BookSnoc(Kept(front, deleted), last);
      assert Kept(front, deleted) + [] == Kept(front, deleted);
    }
  }

  lemma NothingKept(deleted: seq<string>)
    ensures Kept([], deleted) == []
  {
  }

  lemma {:induction false} KeptSnoc(front: seq<Device>, last: Device, deleted: seq<string>)
    ensures Kept(front + [last], deleted) == Kept(front, deleted) + (if last.address in deleted then [] else [last])
  {
    if front == [] {
      assert front + [last] == [last];
    } else {
      assert (front + [last])[1..] == front[1..] + [last];
      KeptSnoc(front[1..], last, deleted);
    }
  }

  /** Whatever the client held, the next run finds every device of ours in our version. */
  lemma BookAfter(ours: seq<Device>, known: seq<Device>, e: Device)
    requires Unique(ours) && e in ours
    ensures var book := Book(Applied(known, Diff(ours, known))); e.address in book && book[e.address] == e.version
  {
    var (deleted, sent) := Diff(ours, known);
    var kept := Kept(known, deleted);
    BookOfApplied(kept, sent, e);
    if e !in sent {
      assert e.address !in deleted by {
        assert forall f :: f in ours && f.address == e.address ==> f == e;
      }
      assert e.address !in Addresses(sent);
      BookOfKept(known, deleted, e.address);
    }
  }

  lemma {:induction false} OnlyHmip(ours: seq<Device>, book: map<string, string>)
    requires forall e :: e in ours ==> e.address in book && book[e.address] == e.version
    ensures forall d :: d in Sent(ours, book) ==> d.hmip
    ensures forall d :: d in ours && d.hmip ==> d in Sent(ours, book)
    ensures |Replaced(ours, book)| == |Sent(ours, book)|
    ensures forall i :: 0 <= i < |Sent(ours, book)| ==> Replaced(ours, book)[i] == Sent(ours, book)[i].address
  {
    if ours != [] { OnlyHmip(ours[1..], book); }
  }

  /** A second run right after the first deletes and sends the HmIP devices, and nothing else. */
  lemma SecondRunQuiet(ours: seq<Device>, known: seq<Device>)
    requires Unique(ours)
    ensures var (deleted, sent) := Diff(ours, Applied(known, Diff(ours, known)));
      && (forall d :: d in sent <==> d in ours && d.hmip)
      && |deleted| == |sent| && forall i :: 0 <= i < |sent| ==> deleted[i] == sent[i].address
  {
    var after := Applied(known, Diff(ours, known));
    forall e | e in ours ensures e.address in Book(after) && Book(after)[e.address] == e.version {
      BookAfter(ours, known, e);
    }
    OnlyHmip(ours, Book(after));
    NothingDropped(ours, known);
  }

  lemma NothingDropped(ours: seq<Device>, known: seq<Device>)
    requires Unique(ours)
    ensures Dropped(Applied(known, Diff(ours, known)), Addresses(ours)) == []
  {
    var after := Applied(known, Diff(ours, known));
    forall d | d in after && Named(d) ensures d.address in Addresses(ours) {
      HeldAfter(ours, known, d);
    }
    DropsNothing(after, Addresses(ours));
  }

  lemma {:induction false} DropsNothing(known: seq<Device>, addresses: set<string>)
    requires forall d :: d in known && Named(d) ==> d.address in addresses
    ensures Dropped(known, addresses) == []
  {
    if known != [] {
      assert known[0] in known;
      DropsNothing(known[1..], addresses);
    }
  }

  // ----- a client the diff does not repair -----

  /** A client that lists a device twice, the stale copy first, keeps both. */
  lemma StaleDuplicate(address: string, old_: string, now: string)
    requires address != "" && old_ != now
    ensures var ours, known :=
        [Device(address, now, false)], [Device(address, old_, false), Device(address, now, false)];
      Unique(ours) && Diff(ours, known) == ([], []) && !Mirrors(Applied(known, Diff(ours, known)), ours)
  {
    var e, stale := Device(address, now, false), Device(address, old_, false);
    var ours, known := [e], [stale, e];
    BookSnoc([], stale);
    BookSnoc([stale], e);
    assert [] + [stale] == [stale] && [stale] + [e] == known;
    var book := Book(known);
    hide Book;
    assert book == map[address := now];
    assert !Outdated(book, e) && !Due(book, e);
    assert ours[1..] == [] && Sent([], book) == [] && Replaced([], book) == [];
    assert Sent(ours, book) == [] && Replaced(ours, book) == [];
    DropsNothing(known, Addresses(ours));
    assert e in ours && stale in known;
    assert !Coherent(ours, known);
    Converges(ours, known);
  }
}
