/** The routing table: 160 buckets, filed by the top bit of the XOR with our id
    (libktorrent/kademlia/node.cpp:99-224). */
module RoutingTable {
  import opened Keys
  import opened Contacts
  import opened Buckets
  import KC = KClosest

  const BUCKETS: nat := 160

  datatype BucketPtr = Null | Ptr(b: Bucket)

  datatype Table = Table(ourId: Key, buckets: seq<BucketPtr>, numReceives: nat, numEntries: nat)

  function EntriesOf(p: BucketPtr): seq<Entry> {
    if p.Null? then [] else p.b.entries
  }

  function Total(bs: seq<BucketPtr>): nat {
    if bs == [] then 0 else Total(bs[..|bs| - 1]) + |EntriesOf(bs[|bs| - 1])|
  }

  /** All entries, bucket by bucket: what `findKClosestNodes` offers to a search. */
  function Flatten(bs: seq<BucketPtr>): seq<Entry> {
    if bs == [] then [] else Flatten(bs[..|bs| - 1]) + EntriesOf(bs[|bs| - 1])
  }

  function Receive(t: Table, node: Contact, now: nat, serial: nat): Table {
    var i := BucketOf(t.ourId, node.id);
    if i >= BUCKETS || i >= |t.buckets| then t else
      var b := if t.buckets[i].Null? then EMPTY else t.buckets[i].b;
      var bs := t.buckets[i := Ptr(Insert(b, NewEntry(node, now), now, serial))];
      t.(buckets := bs, numReceives := t.numReceives + 1, numEntries := Total(bs))
  }

  /** Index of the first bucket holding a contact at `addr`, the length if none does. */
  function FirstHolding(bs: seq<BucketPtr>, addr: Address): (i: nat)
    ensures i <= |bs|
    ensures i < |bs| ==> bs[i].Ptr?
  {
    if bs == [] then 0
    else if First(EntriesOf(bs[0]), HasAddress(addr)) < |EntriesOf(bs[0])| then 0
    else 1 + FirstHolding(bs[1..], addr)
  }

  datatype TableEvent =
    | Received(node: Contact)
    | Answered(idx: nat, c: PingCall)
    | Unanswered(idx: nat, c: PingCall)
    | RequestLost(addr: Address)

  function OnBucket(t: Table, idx: nat, ev: BucketEvent, now: nat, serial: nat): Table {
    if idx < |t.buckets| && t.buckets[idx].Ptr? then
      t.(buckets := t.buckets[idx := Ptr(BucketStep(t.buckets[idx].b, ev, now, serial))])
    else t
  }

  function TableStep(t: Table, ev: TableEvent, now: nat, serial: nat): Table {
    match ev
    case Received(node) => Receive(t, node, now, serial)
    case Answered(idx, c) => OnBucket(t, idx, PingAnswered(c), now, serial)
    case Unanswered(idx, c) => OnBucket(t, idx, PingTimedOut(c), now, serial)
    case RequestLost(addr) => OnBucket(t, FirstHolding(t.buckets, addr), RequestTimedOut(addr), now, serial)
  }

  /** A run: each event with its time and the serial number of the next call. */
  datatype Timed = Timed(ev: TableEvent, now: nat, serial: nat)

  function TableRun(t: Table, es: seq<Timed>): Table {
    if es == [] then t else
      var e := es[|es| - 1];
      TableStep(TableRun(t, es[..|es| - 1]), e.ev, e.now, e.serial)
  }

  function NewTable(ourId: Key): Table {
    Table(ourId, seq(BUCKETS, _ => Null), 0, 0)
  }

  // ---- what every run keeps ----

  ghost predicate PtrInv(p: BucketPtr, ourId: Key, idx: nat) {
    p.Ptr? ==> BucketInv(p.b, ourId, idx)
  }

  ghost predicate TableInv(t: Table) {
    && |t.buckets| == BUCKETS
    && (forall i :: 0 <= i < BUCKETS ==> PtrInv(t.buckets[i], t.ourId, i))
    && t.numEntries == Total(t.buckets)
  }

  ghost function SilentAddresses(ev: TableEvent): set<Address> {
    if ev.Unanswered? then {ev.c.target} else {}
  }

  /** No bucket shrinks, and whoever leaves one was bad or has just let a ping time out. */
  ghost predicate BucketsKept(bs: seq<BucketPtr>, bs': seq<BucketPtr>, now: nat, silent: set<Address>) {
    && |bs'| == |bs|
    && forall i :: 0 <= i < |bs| ==>
         && |EntriesOf(bs[i])| <= |EntriesOf(bs'[i])|
         && Evictions(EntriesOf(bs[i]), EntriesOf(bs'[i]), now, silent)
  }

  lemma {:induction false} TotalUpdate(bs: seq<BucketPtr>, i: nat, p: BucketPtr)
    requires i < |bs|
    ensures Total(bs[i := p]) == Total(bs) - |EntriesOf(bs[i])| + |EntriesOf(p)|
  {
    var n := |bs| - 1;
    if i == n {
      assert bs[i := p][..n] == bs[..n];
    } else {
      assert bs[i := p][..n] == bs[..n][i := p];
      TotalUpdate(bs[..n], i, p);
    }
  }

  lemma OnBucketKeeps(t: Table, idx: nat, ev: BucketEvent, now: nat, serial: nat)
    requires TableInv(t) && !ev.Seen?
    ensures TableInv(OnBucket(t, idx, ev, now, serial))
    ensures BucketsKept(t.buckets, OnBucket(t, idx, ev, now, serial).buckets, now, Silent(ev))
  {
    if idx < |t.buckets| && t.buckets[idx].Ptr? {
      var b := t.buckets[idx].b;
      assert PtrInv(t.buckets[idx], t.ourId, idx);
      BucketStepOk(b, ev, now, serial, t.ourId, idx);
      TotalUpdate(t.buckets, idx, Ptr(BucketStep(b, ev, now, serial)));
    }
  }

  lemma ReceiveKeeps(t: Table, node: Contact, now: nat, serial: nat)
    requires TableInv(t)
    ensures TableInv(Receive(t, node, now, serial))
    ensures BucketsKept(t.buckets, Receive(t, node, now, serial).buckets, now, {})
  {
    var i := BucketOf(t.ourId, node.id);
    if i < BUCKETS {
      var b := if t.buckets[i].Null? then EMPTY else t.buckets[i].b;
      assert PtrInv(t.buckets[i], t.ourId, i);
      BucketStepOk(b, Seen(NewEntry(node, now)), now, serial, t.ourId, i);
    }
  }

  lemma TableStepKeeps(t: Table, ev: TableEvent, now: nat, serial: nat)
    requires TableInv(t)
    ensures TableInv(TableStep(t, ev, now, serial))
    ensures BucketsKept(t.buckets, TableStep(t, ev, now, serial).buckets, now, SilentAddresses(ev))
  {
    match ev
    case Received(node) => ReceiveKeeps(t, node, now, serial);
    case Answered(idx, c) => OnBucketKeeps(t, idx, PingAnswered(c), now, serial);
    case Unanswered(idx, c) => OnBucketKeeps(t, idx, PingTimedOut(c), now, serial);
    case RequestLost(addr) => OnBucketKeeps(t, FirstHolding(t.buckets, addr), RequestTimedOut(addr), now, serial);
  }

  lemma {:induction false} TotalOfNone(bs: seq<BucketPtr>)
    requires forall p :: p in bs ==> p.Null?
    ensures Total(bs) == 0
  {
    if bs != [] { TotalOfNone(bs[..|bs| - 1]); }
  }

  /** Over every run every contact, candidate or entry, is filed under the top bit of its distance,
      no bucket exceeds K entries or two pings, and the entry count is right. */
  lemma {:induction false} TableRunKeeps(ourId: Key, es: seq<Timed>)
    ensures TableInv(TableRun(NewTable(ourId), es))
    ensures TableRun(NewTable(ourId), es).ourId == ourId
  {
    if es == [] {
      TotalOfNone(NewTable(ourId).buckets);
    } else {
      var n := |es| - 1;
      TableRunKeeps(ourId, es[..n]);
      TableStepKeeps(TableRun(NewTable(ourId), es[..n]), es[n].ev, es[n].now, es[n].serial);
    }
  }

  /** Our own id is in no bucket, and contacts of different buckets have different ids. */
  lemma FiledOnce(t: Table, i: nat, j: nat, e: Entry, f: Entry)
    requires TableInv(t) && i < BUCKETS && j < BUCKETS
    requires e in EntriesOf(t.buckets[i]) && f in EntriesOf(t.buckets[j])
    ensures e.node.id != t.ourId
    ensures i != j ==> e.node.id != f.node.id
  {
    assert PtrInv(t.buckets[i], t.ourId, i) && PtrInv(t.buckets[j], t.ourId, j);
    assert e.node in Nodes(t.buckets[i].b.entries) && f.node in Nodes(t.buckets[j].b.entries);
    BucketMeaning(t.ourId, e.node.id);
  }

  // ---- the lookup of our own id ----

  /** The third message that is filed starts a lookup of our own id. */
  predicate StartsLookup(t: Table, ev: TableEvent) {
    ev.Received? && BucketOf(t.ourId, ev.node.id) < BUCKETS && t.numReceives + 1 == 3
  }

  function Lookups(t: Table, es: seq<Timed>): nat
    decreases |es|
  {
    if es == [] then 0 else
      Lookups(t, es[..|es| - 1]) + if StartsLookup(TableRun(t, es[..|es| - 1]), es[|es| - 1].ev) then 1 else 0
  }

  /** Over every run that happens once, and not before three messages have been filed. */
  lemma {:induction false} OneOwnLookup(ourId: Key, es: seq<Timed>)
    ensures Lookups(NewTable(ourId), es) == if TableRun(NewTable(ourId), es).numReceives >= 3 then 1 else 0
    decreases |es|
  {
    if es != [] {
      OneOwnLookup(ourId, es[..|es| - 1]);
      TableRunKeeps(ourId, es[..|es| - 1]);
    }
  }

  // ---- the closest contacts of the table ----

  lemma {:induction false} FlattenAt(bs: seq<BucketPtr>, k: nat) returns (i: nat, j: nat)
    requires k < |Flatten(bs)|
    ensures i < |bs| && j < |EntriesOf(bs[i])| && Flatten(bs)[k] == EntriesOf(bs[i])[j]
    ensures k == |Flatten(bs[..i])| + j
  {
    var n := |bs| - 1;
    if k < |Flatten(bs[..n])| {
      i, j := FlattenAt(bs[..n], k);
      assert bs[..n][..i] == bs[..i];
    } else {
      i, j := n, k - |Flatten(bs[..n])|;
    }
  }

  /** No bucket holds an id twice. */
  ghost predicate IdsDistinct(bs: seq<BucketPtr>) {
    forall i :: 0 <= i < |bs| ==> Distinct(EntriesOf(bs[i]), ById)
  }

  lemma FlattenDistinct(t: Table)
    requires TableInv(t) && IdsDistinct(t.buckets)
    ensures KC.DistinctIds(Flatten(t.buckets))
  {
    var f := Flatten(t.buckets);
    forall k, l | 0 <= k < l < |f| ensures f[k].node.id != f[l].node.id {
      var i, j := FlattenAt(t.buckets, k);
      var i', j' := FlattenAt(t.buckets, l);
      if i == i' {
        assert j < j' && Distinct(EntriesOf(t.buckets[i]), ById);
      } else {
        FiledOnce(t, i, i', f[k], f[l]);
      }
    }
  }

  /** `findKClosestNodes` over any table returns the true k closest of its entries, exactly when no entry spoils the
      search: repeats the id of another of the k closest once all of these have been offered, the last of which
      comes no more. */
  lemma TableSearchExact(t: Table, key: Key, k: nat)
    requires k >= 1
    ensures var all := Flatten(t.buckets);
            KC.Closest(k, KC.Distances(key, all), KC.OfferAll(key, k, map[], all).Keys) <==> !KC.Spoilt(key, k, all)
  {
    KC.SearchRightExactly(key, k, Flatten(t.buckets));
  }

  /** So it does when no bucket holds an id twice. */
  lemma TableSearchFindsClosest(t: Table, key: Key, k: nat)
    requires TableInv(t) && k >= 1 && IdsDistinct(t.buckets)
    ensures var all := Flatten(t.buckets);
            KC.Closest(k, KC.Distances(key, all), KC.OfferAll(key, k, map[], all).Keys)
  {
    FlattenDistinct(t);
    KC.SearchFindsClosest(key, k, Flatten(t.buckets));
  }

  // ---- which events keep ids distinct ----

  predicate OnBucketKeepsIds(t: Table, idx: nat, ev: BucketEvent, now: nat) {
    idx < |t.buckets| && t.buckets[idx].Ptr? ==> StepKeepsDistinct(t.buckets[idx].b, ev, now, ById)
  }

  /** Told from the table before the event: what `StepKeepsDistinct` says of the bucket concerned. */
  predicate KeepsIds(t: Table, ev: TableEvent, now: nat) {
    match ev
    case Received(node) =>
      var i := BucketOf(t.ourId, node.id);
      i < BUCKETS && i < |t.buckets| ==>
        SeenKeeps(if t.buckets[i].Null? then EMPTY else t.buckets[i].b, NewEntry(node, now), now, ById)
    case Answered(idx, c) => OnBucketKeepsIds(t, idx, PingAnswered(c), now)
    case Unanswered(idx, c) => OnBucketKeepsIds(t, idx, PingTimedOut(c), now)
    case RequestLost(addr) => true
  }

  lemma IdsUpdate(bs: seq<BucketPtr>, i: nat, p: BucketPtr)
    requires IdsDistinct(bs) && i < |bs|
    ensures IdsDistinct(bs[i := p]) <==> Distinct(EntriesOf(p), ById)
  {
    if IdsDistinct(bs[i := p]) { assert bs[i := p][i] == p; }
  }

  lemma OnBucketIds(t: Table, idx: nat, ev: BucketEvent, now: nat, serial: nat)
    requires IdsDistinct(t.buckets)
    ensures IdsDistinct(OnBucket(t, idx, ev, now, serial).buckets) <==> OnBucketKeepsIds(t, idx, ev, now)
  {
    if idx < |t.buckets| && t.buckets[idx].Ptr? {
      assert Distinct(EntriesOf(t.buckets[idx]), ById);
      BucketStepDistinct(t.buckets[idx].b, ev, now, serial, ById);
      IdsUpdate(t.buckets, idx, Ptr(BucketStep(t.buckets[idx].b, ev, now, serial)));
    }
  }

  /** Every event leaves distinct ids distinct exactly then. */
  lemma TableStepIds(t: Table, ev: TableEvent, now: nat, serial: nat)
    requires IdsDistinct(t.buckets)
    ensures IdsDistinct(TableStep(t, ev, now, serial).buckets) <==> KeepsIds(t, ev, now)
  {
    match ev
    case Received(node) =>
      var i := BucketOf(t.ourId, node.id);
      if i < BUCKETS && i < |t.buckets| {
        var b := if t.buckets[i].Null? then EMPTY else t.buckets[i].b;
        assert Distinct(EntriesOf(t.buckets[i]), ById);
        SeenDistinct(b, NewEntry(node, now), now, serial, ById);
        IdsUpdate(t.buckets, i, Ptr(Insert(b, NewEntry(node, now), now, serial)));
      }
    case Answered(idx, c) => OnBucketIds(t, idx, PingAnswered(c), now, serial);
    case Unanswered(idx, c) => OnBucketIds(t, idx, PingTimedOut(c), now, serial);
    case RequestLost(addr) => OnBucketIds(t, FirstHolding(t.buckets, addr), RequestTimedOut(addr), now, serial);
  }

  /** Every event of the run keeps them. */
  predicate RunKeepsIds(t: Table, es: seq<Timed>)
    decreases |es|
  {
    es == [] ||
    (RunKeepsIds(t, es[..|es| - 1]) && KeepsIds(TableRun(t, es[..|es| - 1]), es[|es| - 1].ev, es[|es| - 1].now))
  }

  lemma {:induction false} RunKeepsDistinct(ourId: Key, es: seq<Timed>)
    requires RunKeepsIds(NewTable(ourId), es)
    ensures IdsDistinct(TableRun(NewTable(ourId), es).buckets)
    decreases |es|
  {
    if es != [] {
      var n := |es| - 1;
      RunKeepsDistinct(ourId, es[..n]);
      TableStepIds(TableRun(NewTable(ourId), es[..n]), es[n].ev, es[n].now, es[n].serial);
    }
  }

  /** After every run a search of the table returns the true k closest exactly when no entry spoils it; none does when
      every event of the run kept the ids distinct. */
  lemma RunSearchFindsClosest(ourId: Key, es: seq<Timed>, key: Key, k: nat)
    requires k >= 1
    ensures var all := Flatten(TableRun(NewTable(ourId), es).buckets);
            var found := KC.OfferAll(key, k, map[], all).Keys;
            && (KC.Closest(k, KC.Distances(key, all), found) <==> !KC.Spoilt(key, k, all))
            && (RunKeepsIds(NewTable(ourId), es) ==> !KC.Spoilt(key, k, all))
  {
    var t := TableRun(NewTable(ourId), es);
    TableSearchExact(t, key, k);
    if RunKeepsIds(NewTable(ourId), es) {
      RunKeepsDistinct(ourId, es);
      TableRunKeeps(ourId, es);
      TableSearchFindsClosest(t, key, k);
    }
  }

  // ---- how long a contact stays good ----

  function BucketOrNew(t: Table, i: nat): Bucket {
    if i < |t.buckets| && t.buckets[i].Ptr? then t.buckets[i].b else EMPTY
  }

  /** The table lists `x` with an entry from a message between `from` and `now`. */
  ghost predicate ListsFresh(t: Table, x: Contact, from: nat, now: nat) {
    var i := BucketOf(t.ourId, x.id);
    i < |t.buckets| && HasFresh(EntriesOf(t.buckets[i]), x, from, now)
  }

  /** A message files its sender with the time of the message, in the bucket of its id, if and only if there is a
      place; no other bucket is touched. */
  lemma MessageIsFiled(t: Table, x: Contact, now: nat, serial: nat)
    requires |t.buckets| == BUCKETS && BucketOf(t.ourId, x.id) < BUCKETS
    ensures var t', i := TableStep(t, Received(x), now, serial), BucketOf(t.ourId, x.id);
            && |t'.buckets| == BUCKETS && t'.ourId == t.ourId && t'.numReceives == t.numReceives + 1
            && (forall j :: 0 <= j < BUCKETS && j != i ==> t'.buckets[j] == t.buckets[j])
            && (ListsFresh(t', x, now, now) <==> HasPlace(BucketOrNew(t, i), x, now))
  {
    SightingRenews(BucketOrNew(t, BucketOf(t.ourId, x.id)), x, now, serial);
  }

  lemma FreshStep(t: Table, ev: TableEvent, now: nat, serial: nat, x: Contact, from: nat)
    requires |t.buckets| <= BUCKETS && ListsFresh(t, x, from, now) && from <= now <= from + QUESTIONABLE_AFTER
    requires ev.Unanswered? ==> ev.c.target != x.addr
    ensures ListsFresh(TableStep(t, ev, now, serial), x, from, now)
  {
    var i := BucketOf(t.ourId, x.id);
    match ev
    case Received(node) =>
      if BucketOf(t.ourId, node.id) == i {
        FreshStays(BucketOrNew(t, i), Seen(NewEntry(node, now)), now, serial, x, from);
      }
    case Answered(idx, c) => if idx == i { FreshStays(BucketOrNew(t, i), PingAnswered(c), now, serial, x, from); }
    case Unanswered(idx, c) => if idx == i { FreshStays(BucketOrNew(t, i), PingTimedOut(c), now, serial, x, from); }
    case RequestLost(addr) => FreshStays(BucketOrNew(t, i), RequestTimedOut(addr), now, serial, x, from);
  }

  /** The time of the last event, `from` before the first. */
  function Clock(es: seq<Timed>, from: nat): nat { if es == [] then from else es[|es| - 1].now }

  /** The clock does not go back, and no ping to `addr` times out. */
  predicate QuietFor(es: seq<Timed>, from: nat, addr: Address)
    decreases |es|
  {
    es == [] ||
    (var last, init := es[|es| - 1], es[..|es| - 1];
     QuietFor(init, from, addr) && Clock(init, from) <= last.now
     && (last.ev.Unanswered? ==> last.ev.c.target != addr))
  }

  lemma Later(t: Table, x: Contact, from: nat, then': nat, now: nat)
    requires ListsFresh(t, x, from, then') && then' <= now
    ensures ListsFresh(t, x, from, now)
  {
    var i := BucketOf(t.ourId, x.id);
    var e :| e in EntriesOf(t.buckets[i]) && FreshEntry(e, x, from, then');
    assert FreshEntry(e, x, from, now);
  }

  lemma {:induction false} StaysListed(t: Table, es: seq<Timed>, x: Contact, from: nat)
    requires |t.buckets| == BUCKETS && ListsFresh(t, x, from, from)
    requires QuietFor(es, from, x.addr) && Clock(es, from) <= from + QUESTIONABLE_AFTER
    ensures var t' := TableRun(t, es);
            |t'.buckets| == BUCKETS && t'.ourId == t.ourId && ListsFresh(t', x, from, Clock(es, from))
    decreases |es|
  {
    if es != [] {
      var n := |es| - 1;
      StaysListed(t, es[..n], x, from);
      Later(TableRun(t, es[..n]), x, from, Clock(es[..n], from), es[n].now);
      FreshStep(TableRun(t, es[..n]), es[n].ev, es[n].now, es[n].serial, x, from);
    }
  }

  lemma FreshIsListed(t: Table, x: Contact, from: nat, now: nat)
    requires ListsFresh(t, x, from, now) && now <= from + QUESTIONABLE_AFTER
    ensures exists e :: e in Flatten(t.buckets) && e.node == x && e.IsGood(now) && !e.IsBad(now)
  {
    var i := BucketOf(t.ourId, x.id);
    var e :| e in EntriesOf(t.buckets[i]) && FreshEntry(e, x, from, now);
    FreshIsGood(e, x, from, now);
    InFlatten(t.buckets, i, e);
  }

  /** Whatever happens to the table, a contact listed with its message stays listed with an entry that is good for a
      quarter of an hour, unless a ping to its address times out. */
  lemma ListedStaysGood(t: Table, es: seq<Timed>, x: Contact, from: nat, now: nat)
    requires |t.buckets| == BUCKETS && ListsFresh(t, x, from, from)
    requires QuietFor(es, from, x.addr) && Clock(es, from) <= now <= from + QUESTIONABLE_AFTER
    ensures var t' := TableRun(t, es);
            && |t'.buckets| == BUCKETS && t'.ourId == t.ourId && ListsFresh(t', x, from, now)
            && exists e :: e in Flatten(t'.buckets) && e.node == x && e.IsGood(now) && !e.IsBad(now)
  {
    var t' := TableRun(t, es);
    StaysListed(t, es, x, from);
    Later(t', x, from, Clock(es, from), now);
    FreshIsListed(t', x, from, now);
  }

  lemma {:induction false} InFlatten(bs: seq<BucketPtr>, i: nat, e: Entry)
    requires i < |bs| && e in EntriesOf(bs[i])
    ensures e in Flatten(bs)
  {
    if i < |bs| - 1 { InFlatten(bs[..|bs| - 1], i, e); }
  }

  lemma {:induction false} FirstHoldingIs(bs: seq<BucketPtr>, addr: Address)
    ensures var i := FirstHolding(bs, addr);
            && (forall j, e :: 0 <= j < i && e in EntriesOf(bs[j]) ==> e.node.addr != addr)
            && (i < |bs| ==> First(EntriesOf(bs[i]), HasAddress(addr)) < |EntriesOf(bs[i])|)
  {
    if bs != [] && First(EntriesOf(bs[0]), HasAddress(addr)) == |EntriesOf(bs[0])| {
      FirstHoldingIs(bs[1..], addr);
      var i := FirstHolding(bs, addr);
      forall j, e | 0 <= j < i && e in EntriesOf(bs[j]) ensures e.node.addr != addr {
        if j > 0 {
          assert bs[1..][j - 1] == bs[j];
        } else {
          var k :| 0 <= k < |EntriesOf(bs[0])| && EntriesOf(bs[0])[k] == e;
        }
      }
    }
  }

  /** A lost request is counted once: at the first entry with the address in the first bucket that has one; with no
      such bucket nothing changes. */
  lemma LostIsCounted(t: Table, addr: Address, now: nat, serial: nat)
    ensures var t', i := TableStep(t, RequestLost(addr), now, serial), FirstHolding(t.buckets, addr);
            && (forall j, e :: 0 <= j < i && e in EntriesOf(t.buckets[j]) ==> e.node.addr != addr)
            && if i == |t.buckets| then t' == t else
                 var es, es' := EntriesOf(t.buckets[i]), EntriesOf(t'.buckets[i]);
                 var k := First(es, HasAddress(addr));
                 && k < |es| && es[k].node.addr == addr
                 && es' == es[k := es[k].(failedQueries := es[k].failedQueries + 1)]
                 && t'.buckets == t.buckets[i := t'.buckets[i]]
  {
    FirstHoldingIs(t.buckets, addr);
  }

  // ---- a search that fails ----

  lemma {:induction false} FlattenOne(bs: seq<BucketPtr>, i: nat)
    requires i < |bs| && forall j :: 0 <= j < |bs| && j != i ==> bs[j].Null?
    ensures Flatten(bs) == EntriesOf(bs[i])
  {
    var n := |bs| - 1;
    if i == n {
      FlattenNone(bs[..n]);
    } else {
      FlattenOne(bs[..n], i);
      assert bs[n].Null?;
    }
  }

  lemma {:induction false} FlattenNone(bs: seq<BucketPtr>)
    requires forall p :: p in bs ==> p.Null?
    ensures Flatten(bs) == []
  {
    if bs != [] { FlattenNone(bs[..|bs| - 1]); }
  }

  /** A table in which bucket `i` holds just these entries. */
  ghost predicate Single(t: Table, ourId: Key, i: nat, es: seq<Entry>) {
    && t.ourId == ourId && |t.buckets| == BUCKETS && i < BUCKETS
    && (forall j :: 0 <= j < BUCKETS && j != i ==> t.buckets[j].Null?)
    && EntriesOf(t.buckets[i]) == es
  }

  lemma ReceiveSingle(t: Table, ourId: Key, i: nat, es: seq<Entry>, node: Contact, now: nat, serial: nat)
    requires Single(t, ourId, i, es) && BucketOf(ourId, node.id) == i && |es| < K
    requires forall j :: 0 <= j < |es| ==> es[j].node != node
    ensures Single(Receive(t, node, now, serial), ourId, i, es + [NewEntry(node, now)])
  {
    assert First(es, SameNode(node)) == |es|;
  }

  /** Two contacts of one bucket, then the first id again from another address. */
  function ThreeMessages(x: Contact, y: Contact, addr: Address, now: nat): seq<Timed> {
    [Timed(Received(x), now, 0), Timed(Received(y), now, 0), Timed(Received(Contact(addr, x.id)), now, 0)]
  }

  lemma RunOfThree(t: Table, m1: Contact, m2: Contact, m3: Contact, now: nat)
    ensures TableRun(t, [Timed(Received(m1), now, 0), Timed(Received(m2), now, 0), Timed(Received(m3), now, 0)])
         == Receive(Receive(Receive(t, m1, now, 0), m2, now, 0), m3, now, 0)
  {
    var r1, r2, r3 := Timed(Received(m1), now, 0), Timed(Received(m2), now, 0), Timed(Received(m3), now, 0);
    assert [r1, r2, r3][..2] == [r1, r2] && [r1, r2][..1] == [r1] && [r1][..0] == [];
    assert TableRun(t, [r1]) == Receive(t, m1, now, 0);
    assert TableRun(t, [r1, r2]) == Receive(TableRun(t, [r1]), m2, now, 0);
  }

  lemma ReceiveTwo(ourId: Key, i: nat, m1: Contact, m2: Contact, now: nat)
    requires BucketOf(ourId, m1.id) == i && BucketOf(ourId, m2.id) == i < BUCKETS && m1 != m2
    ensures Single(Receive(Receive(NewTable(ourId), m1, now, 0), m2, now, 0), ourId, i,
                   [NewEntry(m1, now), NewEntry(m2, now)])
  {
    var e1, e2 := NewEntry(m1, now), NewEntry(m2, now);
    ReceiveSingle(NewTable(ourId), ourId, i, [], m1, now, 0);
    assert [] + [e1] == [e1];
    ReceiveSingle(Receive(NewTable(ourId), m1, now, 0), ourId, i, [e1], m2, now, 0);
    assert [e1] + [e2] == [e1, e2];
  }

  lemma ReceiveThree(ourId: Key, i: nat, m1: Contact, m2: Contact, m3: Contact, now: nat)
    requires BucketOf(ourId, m1.id) == i && BucketOf(ourId, m2.id) == i && BucketOf(ourId, m3.id) == i < BUCKETS
    requires m1 != m2 && m1 != m3 && m2 != m3
    ensures Single(Receive(Receive(Receive(NewTable(ourId), m1, now, 0), m2, now, 0), m3, now, 0), ourId, i,
                   [NewEntry(m1, now), NewEntry(m2, now), NewEntry(m3, now)])
  {
    var e1, e2, e3 := NewEntry(m1, now), NewEntry(m2, now), NewEntry(m3, now);
    var t2 := Receive(Receive(NewTable(ourId), m1, now, 0), m2, now, 0);
    ReceiveTwo(ourId, i, m1, m2, now);
    ReceiveSingle(t2, ourId, i, [e1, e2], m3, now, 0);
    assert [e1, e2] + [e3] == [e1, e2, e3];
  }

  lemma IdStoredTwice(ourId: Key, x: Contact, y: Contact, addr: Address, now: nat)
    requires BucketOf(ourId, x.id) == BucketOf(ourId, y.id) < BUCKETS && addr != x.addr && x.id != y.id
    ensures Flatten(TableRun(NewTable(ourId), ThreeMessages(x, y, addr, now)).buckets)
         == [NewEntry(x, now), NewEntry(y, now), NewEntry(Contact(addr, x.id), now)]
  {
    var i, x' := BucketOf(ourId, x.id), Contact(addr, x.id);
    RunOfThree(NewTable(ourId), x, y, x', now);
    ReceiveThree(ourId, i, x, y, x', now);
    FlattenOne(TableRun(NewTable(ourId), ThreeMessages(x, y, addr, now)).buckets, i);
  }

  /** Three messages are enough to spoil a search: one for two contacts, nearer to the repeated id, loses the
      other contact. */
  lemma RepeatedIdSpoilsSearch(ourId: Key, x: Contact, y: Contact, addr: Address, now: nat, key: Key)
    requires BucketOf(ourId, x.id) == BucketOf(ourId, y.id) < BUCKETS
    requires addr != x.addr && Val(Distance(key, x.id)) < Val(Distance(key, y.id))
    ensures var all := Flatten(TableRun(NewTable(ourId), ThreeMessages(x, y, addr, now)).buckets);
            && KC.OfferAll(key, 2, map[], all) == map[Distance(key, x.id) := NewEntry(x, now)]
            && !KC.Closest(2, KC.Distances(key, all), KC.OfferAll(key, 2, map[], all).Keys)
  {
    var e, f, e' := NewEntry(x, now), NewEntry(y, now), NewEntry(Contact(addr, x.id), now);
    IdStoredTwice(ourId, x, y, addr, now);
    KC.RepeatLosesContact(key, e, f, e');
    var all := [e, f, e'];
    assert e in all && f in all;
    KC.OneIsNotTwo(KC.Dist(key, e), KC.Dist(key, f), KC.Distances(key, all), e);
  }
}
