/** A bucket of the routing table: ping before evict (libktorrent/kademlia/kbucket.cpp:120-276). */
module Buckets {
  import opened Keys
  import opened Contacts

  const K: nat := 8
  const MAX_PINGS: nat := 2

  /** A ping call in flight: the call's identity and the address it was sent to. */
  datatype PingCall = PingCall(serial: nat, target: Address)

  datatype Bucket = Bucket(entries: seq<Entry>, pending: seq<Entry>, busy: map<PingCall, Entry>)

  const EMPTY: Bucket := Bucket([], [], map[])

  /** What the loops over `entries` look for. */
  datatype Test = SameNode(node: Contact) | BadAt(now: nat) | QuestionableAt(now: nat) | HasAddress(addr: Address) {
    predicate Holds(e: Entry) {
      match this
      case SameNode(node) => e.node == node
      case BadAt(now) => e.IsBad(now)
      case QuestionableAt(now) => e.IsQuestionable(now)
      case HasAddress(addr) => e.node.addr == addr
    }
  }

  /** Index of the first entry that passes, the length if none does. */
  function First(es: seq<Entry>, t: Test): (i: nat)
    ensures i <= |es|
    ensures i < |es| ==> t.Holds(es[i])
    ensures forall j :: 0 <= j < i ==> !t.Holds(es[j])
  {
    if es == [] || t.Holds(es[0]) then 0 else 1 + First(es[1..], t)
  }

  /** Remove entry `i` and append `e`. */
  function Swap(es: seq<Entry>, i: nat, e: Entry): seq<Entry>
    requires i < |es|
  {
    es[..i] + es[i + 1..] + [e]
  }

  predicate CanReplaceBad(b: Bucket, now: nat) {
    First(b.entries, BadAt(now)) < |b.entries|
  }

  function ReplaceBad(b: Bucket, e: Entry, now: nat): Bucket {
    var i := First(b.entries, BadAt(now));
    if i < |b.entries| then b.(entries := Swap(b.entries, i, e)) else b
  }

  /** `serial` is the identity the server gives the next call. */
  function PingQuestionable(b: Bucket, e: Entry, now: nat, serial: nat): Bucket {
    if |b.busy| >= MAX_PINGS then b.(pending := b.pending + [e]) else
      var i := First(b.entries, QuestionableAt(now));
      if i < |b.entries| then
        var q := b.entries[i];
        b.(entries := b.entries[i := q.(questionablePings := q.questionablePings + 1)],
           busy := b.busy[PingCall(serial, q.node.addr) := e])
      else b
  }

  function ReplaceOrPing(b: Bucket, e: Entry, now: nat, serial: nat): Bucket {
    if CanReplaceBad(b, now) then ReplaceBad(b, e, now) else PingQuestionable(b, e, now, serial)
  }

  function Insert(b: Bucket, e: Entry, now: nat, serial: nat): Bucket {
    var i := First(b.entries, SameNode(e.node));
    if i < |b.entries| then b.(entries := Swap(b.entries, i, e))
    else if |b.entries| < K then b.(entries := b.entries + [e])
    else ReplaceOrPing(b, e, now, serial)
  }

  function OnResponse(b: Bucket, c: PingCall, now: nat, serial: nat): Bucket {
    if c in b.busy then ReplaceOrPing(b.(busy := b.busy - {c}), b.busy[c], now, serial) else b
  }

  /** The entry at the pinged address gives way to the candidate. */
  function GiveWay(b: Bucket, c: PingCall): Bucket
    requires c in b.busy
  {
    var i := First(b.entries, HasAddress(c.target));
    var b' := b.(busy := b.busy - {c});
    if i < |b.entries| then b'.(entries := Swap(b.entries, i, b.busy[c])) else b'
  }

  function ServePending(b: Bucket, now: nat, serial: nat): Bucket {
    if |b.busy| < MAX_PINGS && b.pending != [] then
      ReplaceOrPing(b.(pending := b.pending[1..]), b.pending[0], now, serial)
    else b
  }

  function OnTimeout(b: Bucket, c: PingCall, now: nat, serial: nat): Bucket {
    if c in b.busy then ServePending(GiveWay(b, c), now, serial) else b
  }

  /** `KBucket::onTimeout(addr)`: some request to the address was not answered. */
  function OnRequestTimeout(b: Bucket, addr: Address): Bucket {
    var i := First(b.entries, HasAddress(addr));
    if i < |b.entries| then
      b.(entries := b.entries[i := b.entries[i].(failedQueries := b.entries[i].failedQueries + 1)])
    else b
  }

  datatype BucketEvent =
    | Seen(e: Entry)
    | PingAnswered(c: PingCall)
    | PingTimedOut(c: PingCall)
    | RequestTimedOut(addr: Address)

  function BucketStep(b: Bucket, ev: BucketEvent, now: nat, serial: nat): Bucket {
    match ev
    case Seen(e) => Insert(b, e, now, serial)
    case PingAnswered(c) => OnResponse(b, c, now, serial)
    case PingTimedOut(c) => OnTimeout(b, c, now, serial)
    case RequestTimedOut(addr) => OnRequestTimeout(b, addr)
  }

  // ---- what every event keeps ----

  /** Contacts of a bucket, of the candidates waiting for a place in it, and the one an event
      brings. */
  ghost function Nodes(es: seq<Entry>): set<Contact> { set e | e in es :: e.node }

  ghost function Candidates(b: Bucket): set<Contact> {
    Nodes(b.pending) + (set c | c in b.busy :: b.busy[c].node)
  }

  ghost function Brought(ev: BucketEvent): set<Contact> {
    if ev.Seen? then {ev.e.node} else {}
  }

  ghost predicate BucketInv(b: Bucket, ourId: Key, idx: nat) {
    && |b.entries| <= K
    && |b.busy| <= MAX_PINGS
    && (forall n :: n in Nodes(b.entries) + Candidates(b) ==> BucketOf(ourId, n.id) == idx)
  }

  /** Between `b` and `b'`: the number of entries does not drop and stays within K, at most two pings
      are in flight, no contact appears from nowhere, and no entry goes without a reason. */
  ghost predicate StepOk(b: Bucket, b': Bucket, brought: set<Contact>, now: nat, silent: set<Address>) {
    && |b.entries| <= |b'.entries| <= K
    && |b'.busy| <= MAX_PINGS
    && Nodes(b'.entries) + Candidates(b') <= Nodes(b.entries) + Candidates(b) + brought
    && Evictions(b.entries, b'.entries, now, silent)
  }

  /** A contact that is no longer there was bad, or a ping to its address has just timed out. */
  ghost predicate Evictions(es: seq<Entry>, es': seq<Entry>, now: nat, silent: set<Address>) {
    forall e :: e in es ==> e.node in Nodes(es') || e.IsBad(now) || e.node.addr in silent
  }

  lemma SwapFacts(es: seq<Entry>, i: nat, e: Entry)
    requires i < |es|
    ensures |Swap(es, i, e)| == |es|
    ensures Nodes(Swap(es, i, e)) <= Nodes(es) + {e.node}
    ensures e.node in Nodes(Swap(es, i, e))
    ensures forall f :: f in es ==> f.node in Nodes(Swap(es, i, e)) || f == es[i]
  {
    var s := Swap(es, i, e);
    assert s[|s| - 1] == e;
    forall f | f in es ensures f.node in Nodes(s) || f == es[i] {
      var j :| 0 <= j < |es| && es[j] == f;
      if j < i { assert s[j] == f; } else if j > i { assert s[j - 1] == f; }
    }
    forall f | f in s ensures f in es || f == e {
      var j :| 0 <= j < |s| && s[j] == f;
      if j < i { assert es[j] == f; } else if j < |es| - 1 { assert es[j + 1] == f; }
    }
  }

  lemma UpdateFacts(es: seq<Entry>, i: nat, e: Entry)
    requires i < |es| && e.node == es[i].node
    ensures Nodes(es[i := e]) == Nodes(es)
  {
    var s := es[i := e];
    forall f | f in es ensures f.node in Nodes(s) {
      var j :| 0 <= j < |es| && es[j] == f;
      assert s[j].node == f.node;
    }
    forall f | f in s ensures f.node in Nodes(es) {
      var j :| 0 <= j < |s| && s[j] == f;
      assert es[j].node == f.node;
    }
  }

  lemma ReplaceOrPingOk(b: Bucket, e: Entry, now: nat, serial: nat, silent: set<Address>)
    requires |b.entries| <= K && |b.busy| <= MAX_PINGS
    ensures StepOk(b, ReplaceOrPing(b, e, now, serial), {e.node}, now, silent)
    ensures |ReplaceOrPing(b, e, now, serial).entries| == |b.entries|
  {
    var i, q := First(b.entries, BadAt(now)), First(b.entries, QuestionableAt(now));
    if i < |b.entries| {
      SwapFacts(b.entries, i, e);
    } else if |b.busy| < MAX_PINGS && q < |b.entries| {
      var f := b.entries[q];
      UpdateFacts(b.entries, q, f.(questionablePings := f.questionablePings + 1));
      var c := PingCall(serial, f.node.addr);
      assert |b.busy[c := e]| <= |b.busy| + 1;
    }
  }

  lemma InsertOk(b: Bucket, e: Entry, now: nat, serial: nat)
    requires |b.entries| <= K && |b.busy| <= MAX_PINGS
    ensures StepOk(b, Insert(b, e, now, serial), {e.node}, now, {})
    ensures e.node in Nodes(b.entries) || |b.entries| < K ==> e.node in Nodes(Insert(b, e, now, serial).entries)
  {
    var i := First(b.entries, SameNode(e.node));
    if i < |b.entries| {
      SwapFacts(b.entries, i, e);
    } else if |b.entries| < K {
      assert (b.entries + [e])[|b.entries|] == e;
    } else {
      ReplaceOrPingOk(b, e, now, serial, {});
    }
  }

  lemma OnResponseOk(b: Bucket, c: PingCall, now: nat, serial: nat)
    requires |b.entries| <= K && |b.busy| <= MAX_PINGS
    ensures StepOk(b, OnResponse(b, c, now, serial), {}, now, {})
    ensures |OnResponse(b, c, now, serial).entries| == |b.entries|
  {
    if c in b.busy {
      var r := b.(busy := b.busy - {c});
      EndPing(b, c);
      ReplaceOrPingOk(r, b.busy[c], now, serial, {});
    }
  }

  lemma EndPing(b: Bucket, c: PingCall)
    requires c in b.busy
    ensures var r := b.(busy := b.busy - {c});
            && |r.busy| == |b.busy| - 1
            && Candidates(r) + {b.busy[c].node} == Candidates(b)
  {
    var r := b.(busy := b.busy - {c});
    assert r.busy.Keys == b.busy.Keys - {c};
    assert |r.busy| == |r.busy.Keys| && |b.busy| == |b.busy.Keys|;
    forall n | n in Candidates(b) ensures n in Candidates(r) + {b.busy[c].node} {
      if n !in Nodes(b.pending) {
        var d :| d in b.busy && b.busy[d].node == n;
        if d != c { assert d in r.busy && r.busy[d].node == n; }
      }
    }
  }

  lemma SwapKeepsOthers(es: seq<Entry>, i: nat, e: Entry)
    requires i < |es|
    ensures forall f :: f in es && f != es[i] ==> f in Swap(es, i, e)
  {
    var s := Swap(es, i, e);
    forall f | f in es && f != es[i] ensures f in s {
      var j :| 0 <= j < |es| && es[j] == f;
      assert s[if j < i then j else j - 1] == f;
    }
  }

  lemma GiveWayOk(b: Bucket, c: PingCall)
    requires c in b.busy
    ensures var g := GiveWay(b, c);
            && |g.entries| == |b.entries| && |g.busy| == |b.busy| - 1
            && Nodes(g.entries) + Candidates(g) <= Nodes(b.entries) + Candidates(b)
            && forall e :: e in b.entries ==> e in g.entries || e.node.addr == c.target
  {
    EndPing(b, c);
    var i := First(b.entries, HasAddress(c.target));
    var g := GiveWay(b, c);
    assert Candidates(g) == Candidates(b.(busy := b.busy - {c}));
    if i < |b.entries| {
      SwapFacts(b.entries, i, b.busy[c]);
      SwapKeepsOthers(b.entries, i, b.busy[c]);
    }
  }

  lemma PopPending(b: Bucket)
    requires b.pending != []
    ensures Candidates(b) == Candidates(b.(pending := b.pending[1..])) + {b.pending[0].node}
  {
    assert b.pending == [b.pending[0]] + b.pending[1..];
  }

  lemma ServePendingOk(b: Bucket, now: nat, serial: nat)
    requires |b.entries| <= K && |b.busy| <= MAX_PINGS
    ensures StepOk(b, ServePending(b, now, serial), {}, now, {})
    ensures |ServePending(b, now, serial).entries| == |b.entries|
  {
    if |b.busy| < MAX_PINGS && b.pending != [] {
      PopPending(b);
      ReplaceOrPingOk(b.(pending := b.pending[1..]), b.pending[0], now, serial, {});
    } else {
      NothingHappens(b, now);
    }
  }

  lemma NothingHappens(b: Bucket, now: nat)
    requires |b.entries| <= K && |b.busy| <= MAX_PINGS
    ensures StepOk(b, b, {}, now, {})
  {
  }

  lemma OnTimeoutOk(b: Bucket, c: PingCall, now: nat, serial: nat)
    requires |b.entries| <= K && |b.busy| <= MAX_PINGS
    ensures StepOk(b, OnTimeout(b, c, now, serial), {}, now, {c.target})
    ensures |OnTimeout(b, c, now, serial).entries| == |b.entries|
  {
    if c in b.busy {
      GiveWayOk(b, c);
      ServePendingOk(GiveWay(b, c), now, serial);
    }
  }

  lemma UpdateOk(b: Bucket, i: nat, e: Entry, now: nat)
    requires |b.entries| <= K && |b.busy| <= MAX_PINGS && i < |b.entries| && e.node == b.entries[i].node
    ensures StepOk(b, b.(entries := b.entries[i := e]), {}, now, {})
  {
    UpdateFacts(b.entries, i, e);
  }

  lemma OnRequestTimeoutOk(b: Bucket, addr: Address, now: nat)
    requires |b.entries| <= K && |b.busy| <= MAX_PINGS
    ensures StepOk(b, OnRequestTimeout(b, addr), {}, now, {})
    ensures |OnRequestTimeout(b, addr).entries| == |b.entries|
  {
    var i := First(b.entries, HasAddress(addr));
    if i < |b.entries| {
      var e := b.entries[i].(failedQueries := b.entries[i].failedQueries + 1);
      assert OnRequestTimeout(b, addr) == b.(entries := b.entries[i := e]);
      UpdateOk(b, i, e, now);
    } else {
      NothingHappens(b, now);
    }
  }

  /** The addresses an event has found silent. */
  ghost function Silent(ev: BucketEvent): set<Address> {
    if ev.PingTimedOut? then {ev.c.target} else {}
  }

  /** Every event keeps the bucket in order, and only `Seen` makes it grow. */
  lemma BucketStepOk(b: Bucket, ev: BucketEvent, now: nat, serial: nat, ourId: Key, idx: nat)
    requires BucketInv(b, ourId, idx)
    requires ev.Seen? ==> BucketOf(ourId, ev.e.node.id) == idx
    ensures var b' := BucketStep(b, ev, now, serial);
            && BucketInv(b', ourId, idx)
            && StepOk(b, b', Brought(ev), now, Silent(ev))
            && (!ev.Seen? ==> |b'.entries| == |b.entries|)
  {
    match ev
    case Seen(e) => InsertOk(b, e, now, serial);
    case PingAnswered(c) => OnResponseOk(b, c, now, serial);
    case PingTimedOut(c) => OnTimeoutOk(b, c, now, serial);
    case RequestTimedOut(addr) => OnRequestTimeoutOk(b, addr, now);
  }

  // ---- repeated contacts ----

  /** What two entries may be compared by: the contact, or its id alone. */
  datatype Label = ByContact | ById {
    predicate Same(e: Entry, f: Entry) {
      if ByContact? then e.node == f.node else e.node.id == f.node.id
    }
  }

  /** No two entries are the same contact (or have the same id). */
  ghost predicate Distinct(es: seq<Entry>, l: Label) {
    forall i, j :: 0 <= i < j < |es| ==> !l.Same(es[i], es[j])
  }

  /** No entry but the one at `i` is the same as `e`; with `i` past the end, none at all is. */
  predicate NoOther(es: seq<Entry>, i: nat, e: Entry, l: Label) {
    forall j :: 0 <= j < |es| && j != i ==> !l.Same(es[j], e)
  }

  function Without(es: seq<Entry>, i: nat): seq<Entry>
    requires i < |es|
  {
    es[..i] + es[i + 1..]
  }

  lemma AppendDistinct(es: seq<Entry>, e: Entry, l: Label)
    ensures Distinct(es + [e], l) <==> Distinct(es, l) && NoOther(es, |es|, e, l)
  {
    var s := es + [e];
    if Distinct(s, l) {
      forall i, j | 0 <= i < j < |es| ensures !l.Same(es[i], es[j]) { assert s[i] == es[i] && s[j] == es[j]; }
      forall j | 0 <= j < |es| ensures !l.Same(es[j], e) { assert s[j] == es[j] && s[|es|] == e; }
    }
  }

  lemma WithoutNoOther(es: seq<Entry>, i: nat, e: Entry, l: Label)
    requires i < |es|
    ensures NoOther(Without(es, i), |es| - 1, e, l) <==> NoOther(es, i, e, l)
  {
    var w := Without(es, i);
    if NoOther(w, |es| - 1, e, l) {
      forall j | 0 <= j < |es| && j != i ensures !l.Same(es[j], e) {
        assert es[j] == w[if j < i then j else j - 1];
      }
    }
    if NoOther(es, i, e, l) {
      forall j | 0 <= j < |w| ensures !l.Same(w[j], e) {
        assert w[j] == es[if j < i then j else j + 1];
      }
    }
  }

  /** After a replacement the entries are distinct exactly when the ones that stay are and the newcomer is not
      among them; nothing is assumed about the entries before. */
  lemma SwapExact(es: seq<Entry>, i: nat, e: Entry, l: Label)
    requires i < |es|
    ensures Distinct(Swap(es, i, e), l) <==> Distinct(Without(es, i), l) && NoOther(es, i, e, l)
  {
    AppendDistinct(Without(es, i), e, l);
    WithoutNoOther(es, i, e, l);
  }

  lemma WithoutDistinct(es: seq<Entry>, i: nat, l: Label)
    requires i < |es| && Distinct(es, l)
    ensures Distinct(Without(es, i), l)
  {
    var w := Without(es, i);
    forall j, k | 0 <= j < k < |w| ensures !l.Same(w[j], w[k]) {
      assert w[j] == es[if j < i then j else j + 1] && w[k] == es[if k < i then k else k + 1];
    }
  }

  lemma UpdateDistinct(es: seq<Entry>, i: nat, e: Entry, l: Label)
    requires i < |es| && e.node == es[i].node
    ensures Distinct(es[i := e], l) <==> Distinct(es, l)
  {
    var s := es[i := e];
    assert forall j :: 0 <= j < |es| ==> s[j].node == es[j].node;
    if Distinct(s, l) {
      forall j, k | 0 <= j < k < |es| ensures !l.Same(es[j], es[k]) {
        assert !l.Same(s[j], s[k]);
      }
    }
  }

  /** When a newcomer that is put in place of a bad entry, if there is one, leaves the entries distinct. */
  predicate ReplaceKeeps(es: seq<Entry>, e: Entry, now: nat, l: Label) {
    var k := First(es, BadAt(now));
    k < |es| ==> NoOther(es, k, e, l)
  }

  lemma ReplaceOrPingDistinct(b: Bucket, e: Entry, now: nat, serial: nat, l: Label)
    requires Distinct(b.entries, l)
    ensures Distinct(ReplaceOrPing(b, e, now, serial).entries, l) <==> ReplaceKeeps(b.entries, e, now, l)
  {
    var k, q := First(b.entries, BadAt(now)), First(b.entries, QuestionableAt(now));
    if k < |b.entries| {
      SwapExact(b.entries, k, e, l);
      WithoutDistinct(b.entries, k, l);
    } else if |b.busy| < MAX_PINGS && q < |b.entries| {
      UpdateDistinct(b.entries, q, b.entries[q].(questionablePings := b.entries[q].questionablePings + 1), l);
    }
  }

  /** `insert` looks for the contact first: a known one is moved, and otherwise nobody that stays may be the
      same as the newcomer. */
  predicate SeenKeeps(b: Bucket, e: Entry, now: nat, l: Label) {
    if First(b.entries, SameNode(e.node)) < |b.entries| then true
    else if |b.entries| < K then NoOther(b.entries, |b.entries|, e, l)
    else ReplaceKeeps(b.entries, e, now, l)
  }

  lemma SeenDistinct(b: Bucket, e: Entry, now: nat, serial: nat, l: Label)
    requires Distinct(b.entries, l)
    ensures Distinct(Insert(b, e, now, serial).entries, l) <==> SeenKeeps(b, e, now, l)
  {
    var i := First(b.entries, SameNode(e.node));
    if i < |b.entries| {
      SwapExact(b.entries, i, e, l);
      WithoutDistinct(b.entries, i, l);
      assert l.Same(b.entries[i], e);
    } else if |b.entries| < K {
      AppendDistinct(b.entries, e, l);
    } else {
      ReplaceOrPingDistinct(b, e, now, serial, l);
    }
  }

  /** Of contacts this always holds: `insert` never makes one appear twice. */
  lemma InsertKeepsContacts(b: Bucket, e: Entry, now: nat, serial: nat)
    requires Distinct(b.entries, ByContact)
    ensures Distinct(Insert(b, e, now, serial).entries, ByContact)
  {
    SeenDistinct(b, e, now, serial, ByContact);
  }

  /** Of ids it does not: the same id from another address stands beside the first. */
  lemma InsertRepeatsId(f: Entry, e: Entry, now: nat, serial: nat)
    requires e.node.id == f.node.id && e.node.addr != f.node.addr
    ensures Insert(Bucket([f], [], map[]), e, now, serial).entries == [f, e]
    ensures !Distinct([f, e], ById)
  {
    assert ById.Same([f, e][0], [f, e][1]);
  }

  /** The entry at the pinged address gives way to `x` without making it appear twice. */
  predicate GiveWayKeeps(es: seq<Entry>, target: Address, x: Entry, l: Label) {
    var i := First(es, HasAddress(target));
    i < |es| ==> NoOther(es, i, x, l)
  }

  /** A candidate waits that a time-out of `c` will serve. */
  predicate ServesNext(b: Bucket, c: PingCall) {
    |b.busy - {c}| < MAX_PINGS && b.pending != []
  }

  /** A bad entry that has to go for the next candidate takes a repetition with it when it is one of the two,
      so what counts is who stays after both replacements. */
  predicate TimeoutKeeps(b: Bucket, c: PingCall, now: nat, l: Label)
    requires c in b.busy
  {
    var es, x := b.entries, b.busy[c];
    var i := First(es, HasAddress(c.target));
    var es1 := GiveWay(b, c).entries;
    var k := First(es1, BadAt(now));
    if ServesNext(b, c) && k < |es1| then
      && NoOther(es1, k, b.pending[0], l)
      && (i < |es| && k < |es| - 1 ==>
            forall j :: 0 <= j < |es| && j != i && j != (if k < i then k else k + 1) ==> !l.Same(es[j], x))
    else GiveWayKeeps(es, c.target, x, l)
  }

  lemma GiveWayDistinct(b: Bucket, c: PingCall, l: Label)
    requires Distinct(b.entries, l) && c in b.busy
    ensures Distinct(GiveWay(b, c).entries, l) <==> GiveWayKeeps(b.entries, c.target, b.busy[c], l)
  {
    var i := First(b.entries, HasAddress(c.target));
    if i < |b.entries| {
      SwapExact(b.entries, i, b.busy[c], l);
      WithoutDistinct(b.entries, i, l);
    }
  }

  /** Who stays when the entry at `i` gave way to `x` and the one at `k` of the new list goes as well. */
  lemma TwoGone(es: seq<Entry>, i: nat, x: Entry, k: nat, l: Label)
    requires Distinct(es, l) && i < |es| && k < |es|
    ensures Distinct(Without(Swap(es, i, x), k), l) <==>
            (k < |es| - 1 ==>
               forall j :: 0 <= j < |es| && j != i && j != (if k < i then k else k + 1) ==> !l.Same(es[j], x))
  {
    var w := Without(es, i);
    WithoutDistinct(es, i, l);
    if k == |es| - 1 {
      assert Without(Swap(es, i, x), k) == w;
    } else {
      var u := Without(w, k);
      assert Without(Swap(es, i, x), k) == u + [x];
      WithoutDistinct(w, k, l);
      AppendDistinct(u, x, l);
      WithoutNoOther(w, k, x, l);
      TwoGoneOthers(es, i, x, k, l);
    }
  }

  lemma TwoGoneOthers(es: seq<Entry>, i: nat, x: Entry, k: nat, l: Label)
    requires i < |es| && k < |es| - 1
    ensures NoOther(Without(es, i), k, x, l) <==>
            forall j :: 0 <= j < |es| && j != i && j != (if k < i then k else k + 1) ==> !l.Same(es[j], x)
  {
    var w, m := Without(es, i), if k < i then k else k + 1;
    if NoOther(w, k, x, l) {
      forall j | 0 <= j < |es| && j != i && j != m ensures !l.Same(es[j], x) {
        assert es[j] == w[if j < i then j else j - 1];
      }
    }
    if forall j :: 0 <= j < |es| && j != i && j != m ==> !l.Same(es[j], x) {
      forall j | 0 <= j < |w| && j != k ensures !l.Same(w[j], x) {
        assert w[j] == es[if j < i then j else j + 1];
      }
    }
  }

  lemma TimeoutDistinct(b: Bucket, c: PingCall, now: nat, serial: nat, l: Label)
    requires Distinct(b.entries, l) && c in b.busy
    ensures Distinct(OnTimeout(b, c, now, serial).entries, l) <==> TimeoutKeeps(b, c, now, l)
  {
    var g := GiveWay(b, c);
    var i, k := First(b.entries, HasAddress(c.target)), First(g.entries, BadAt(now));
    if !ServesNext(b, c) {
      GiveWayDistinct(b, c, l);
    } else if k < |g.entries| {
      SwapExact(g.entries, k, b.pending[0], l);
      if i < |b.entries| { TwoGone(b.entries, i, b.busy[c], k, l); } else { WithoutDistinct(b.entries, k, l); }
    } else {
      GiveWayDistinct(b, c, l);
      PingAfterGiveWay(g, b.pending[0], now, serial, l);
    }
  }

  /** A ping changes no contact. */
  lemma PingAfterGiveWay(g: Bucket, y: Entry, now: nat, serial: nat, l: Label)
    requires g.pending != [] && y == g.pending[0] && |g.busy| < MAX_PINGS && !CanReplaceBad(g, now)
    ensures Distinct(ServePending(g, now, serial).entries, l) <==> Distinct(g.entries, l)
  {
    var q := First(g.entries, QuestionableAt(now));
    if q < |g.entries| {
      UpdateDistinct(g.entries, q, g.entries[q].(questionablePings := g.entries[q].questionablePings + 1), l);
    }
  }

  /** When an event leaves distinct entries distinct, told from the bucket before it. */
  predicate StepKeepsDistinct(b: Bucket, ev: BucketEvent, now: nat, l: Label) {
    match ev
    case Seen(e) => SeenKeeps(b, e, now, l)
    case PingAnswered(c) => c in b.busy ==> ReplaceKeeps(b.entries, b.busy[c], now, l)
    case PingTimedOut(c) => c in b.busy ==> TimeoutKeeps(b, c, now, l)
    case RequestTimedOut(_) => true
  }

  /** Every event, of contacts and of ids: distinct entries stay distinct exactly then. */
  lemma BucketStepDistinct(b: Bucket, ev: BucketEvent, now: nat, serial: nat, l: Label)
    requires Distinct(b.entries, l)
    ensures Distinct(BucketStep(b, ev, now, serial).entries, l) <==> StepKeepsDistinct(b, ev, now, l)
  {
    match ev
    case Seen(e) => SeenDistinct(b, e, now, serial, l);
    case PingAnswered(c) =>
      if c in b.busy { ReplaceOrPingDistinct(b.(busy := b.busy - {c}), b.busy[c], now, serial, l); }
    case PingTimedOut(c) =>
      if c in b.busy { TimeoutDistinct(b, c, now, serial, l); }
    case RequestTimedOut(addr) =>
      var i := First(b.entries, HasAddress(addr));
      if i < |b.entries| {
        UpdateDistinct(b.entries, i, b.entries[i].(failedQueries := b.entries[i].failedQueries + 1), l);
      }
  }

  // ---- waiting candidates ----

  /** A candidate waits only while as many pings as allowed are in flight. */
  predicate WaitsForPings(b: Bucket) { b.pending != [] ==> |b.busy| == MAX_PINGS }

  /** Someone else is pinged at once. */
  predicate PingsOn(es: seq<Entry>, now: nat) {
    First(es, BadAt(now)) == |es| && First(es, QuestionableAt(now)) < |es|
  }

  /** Sightings and lost requests keep that; the end of a ping keeps it exactly when nobody waits any longer or
      another entry is pinged at once.  A bad entry, or none left to ping, strands the others. */
  predicate StepKeepsWaiting(b: Bucket, ev: BucketEvent, now: nat) {
    match ev
    case PingAnswered(c) => c in b.busy ==> b.pending == [] || PingsOn(b.entries, now)
    case PingTimedOut(c) => c in b.busy ==> |b.pending| <= 1 || PingsOn(GiveWay(b, c).entries, now)
    case _ => true
  }

  lemma BusyWithout(busy: map<PingCall, Entry>, c: PingCall)
    requires c in busy
    ensures |busy - {c}| == |busy| - 1
  {
    assert (busy - {c}).Keys == busy.Keys - {c};
    assert |busy - {c}| == |(busy - {c}).Keys| && |busy| == |busy.Keys|;
  }

  lemma BusyWith(busy: map<PingCall, Entry>, c: PingCall, e: Entry)
    requires c !in busy
    ensures |busy[c := e]| == |busy| + 1
  {
    assert busy[c := e].Keys == busy.Keys + {c};
    assert |busy[c := e]| == |busy[c := e].Keys| && |busy| == |busy.Keys|;
  }

  lemma ReplaceOrPingWaits(b: Bucket, e: Entry, now: nat, serial: nat)
    requires |b.busy| < MAX_PINGS && forall c :: c in b.busy ==> c.serial != serial
    ensures var b' := ReplaceOrPing(b, e, now, serial);
            b'.pending == b.pending && |b'.busy| == |b.busy| + if PingsOn(b.entries, now) then 1 else 0
  {
    var q := First(b.entries, QuestionableAt(now));
    if PingsOn(b.entries, now) { BusyWith(b.busy, PingCall(serial, b.entries[q].node.addr), e); }
  }

  lemma SeenWaits(b: Bucket, e: Entry, now: nat, serial: nat)
    requires |b.busy| <= MAX_PINGS && WaitsForPings(b)
    ensures WaitsForPings(Insert(b, e, now, serial))
  {
  }

  lemma AnsweredWaits(b: Bucket, c: PingCall, now: nat, serial: nat)
    requires |b.busy| <= MAX_PINGS && WaitsForPings(b) && forall d :: d in b.busy ==> d.serial != serial
    requires c in b.busy
    ensures WaitsForPings(OnResponse(b, c, now, serial)) <==> b.pending == [] || PingsOn(b.entries, now)
  {
    BusyWithout(b.busy, c);
    ReplaceOrPingWaits(b.(busy := b.busy - {c}), b.busy[c], now, serial);
  }

  lemma TimedOutWaits(b: Bucket, c: PingCall, now: nat, serial: nat)
    requires |b.busy| <= MAX_PINGS && WaitsForPings(b) && forall d :: d in b.busy ==> d.serial != serial
    requires c in b.busy
    ensures WaitsForPings(OnTimeout(b, c, now, serial)) <==>
            |b.pending| <= 1 || PingsOn(GiveWay(b, c).entries, now)
  {
    BusyWithout(b.busy, c);
    var g := GiveWay(b, c);
    assert g.busy == b.busy - {c} && g.pending == b.pending;
    if g.pending != [] { ReplaceOrPingWaits(g.(pending := g.pending[1..]), g.pending[0], now, serial); }
  }

  lemma BucketStepWaits(b: Bucket, ev: BucketEvent, now: nat, serial: nat)
    requires |b.busy| <= MAX_PINGS && WaitsForPings(b) && forall d :: d in b.busy ==> d.serial != serial
    ensures WaitsForPings(BucketStep(b, ev, now, serial)) <==> StepKeepsWaiting(b, ev, now)
  {
    match ev
    case Seen(e) => SeenWaits(b, e, now, serial);
    case PingAnswered(c) => if c in b.busy { AnsweredWaits(b, c, now, serial); }
    case PingTimedOut(c) => if c in b.busy { TimedOutWaits(b, c, now, serial); }
    case RequestTimedOut(addr) =>
  }

  /** What an event does to the queue: its first member may leave it, or a candidate joins it behind all others. */
  predicate InTurn(b: Bucket, b': Bucket, ev: BucketEvent) {
    match ev
    case Seen(e) => b'.pending == b.pending || b'.pending == b.pending + [e]
    case PingAnswered(c) => b'.pending == b.pending || (c in b.busy && b'.pending == b.pending + [b.busy[c]])
    case PingTimedOut(c) => b'.pending == b.pending || (b.pending != [] && b'.pending == b.pending[1..])
    case RequestTimedOut(_) => b'.pending == b.pending
  }

  /** The candidate has a place, or a ping out for it, or there was nobody to ping. */
  ghost predicate Served(b': Bucket, e: Entry, es: seq<Entry>, now: nat, serial: nat) {
    || e in b'.entries
    || (exists d :: d in b'.busy && d.serial == serial && b'.busy[d] == e)
    || forall x :: x in es ==> !x.IsBad(now) && !x.IsQuestionable(now)
  }

  lemma ReplaceOrPingServes(b: Bucket, e: Entry, now: nat, serial: nat)
    requires |b.busy| < MAX_PINGS
    ensures Served(ReplaceOrPing(b, e, now, serial), e, b.entries, now, serial)
  {
    var b', k := ReplaceOrPing(b, e, now, serial), First(b.entries, BadAt(now));
    var q := First(b.entries, QuestionableAt(now));
    if k < |b.entries| {
      assert b'.entries[|b.entries| - 1] == e;
    } else if q < |b.entries| {
      var d := PingCall(serial, b.entries[q].node.addr);
      assert d in b'.busy && b'.busy[d] == e;
    } else {
      forall x | x in b.entries ensures !x.IsBad(now) && !x.IsQuestionable(now) {
        var j :| 0 <= j < |b.entries| && b.entries[j] == x;
        assert !BadAt(now).Holds(b.entries[j]) && !QuestionableAt(now).Holds(b.entries[j]);
      }
    }
  }

  /** The pings other than `c` are still out, for the same candidates. */
  ghost predicate PingsStay(b: Bucket, b': Bucket, c: set<PingCall>) {
    forall d :: d in b.busy && d !in c ==> d in b'.busy && b'.busy[d] == b.busy[d]
  }

  lemma ReplaceOrPingInTurn(b: Bucket, e: Entry, now: nat, serial: nat)
    requires forall d :: d in b.busy ==> d.serial != serial
    ensures var b' := ReplaceOrPing(b, e, now, serial);
            && (b'.pending == b.pending || (b'.pending == b.pending + [e] && |b.busy| >= MAX_PINGS))
            && PingsStay(b, b', {})
  {
  }

  lemma TimeoutInTurn(b: Bucket, c: PingCall, now: nat, serial: nat)
    requires c in b.busy && forall d :: d in b.busy ==> d.serial != serial
    ensures var b' := OnTimeout(b, c, now, serial);
            && (b'.pending == b.pending || (b.pending != [] && b'.pending == b.pending[1..])) && PingsStay(b, b', {c})
            && (|b'.pending| < |b.pending| ==> Served(b', b.pending[0], GiveWay(b, c).entries, now, serial))
  {
    var g := GiveWay(b, c);
    if |g.busy| < MAX_PINGS && g.pending != [] {
      var h := g.(pending := g.pending[1..]);
      ReplaceOrPingInTurn(h, g.pending[0], now, serial);
      ReplaceOrPingServes(h, g.pending[0], now, serial);
    }
  }

  lemma AnswerInTurn(b: Bucket, c: PingCall, now: nat, serial: nat)
    requires c in b.busy && forall d :: d in b.busy ==> d.serial != serial
    ensures var b' := OnResponse(b, c, now, serial);
            (b'.pending == b.pending || b'.pending == b.pending + [b.busy[c]]) && PingsStay(b, b', {c})
  {
    ReplaceOrPingInTurn(b.(busy := b.busy - {c}), b.busy[c], now, serial);
  }

  /** Over every event candidates wait in the order they came, pings still out keep theirs, and who leaves the queue
      is served. */
  lemma CandidatesInTurn(b: Bucket, ev: BucketEvent, now: nat, serial: nat)
    requires forall d :: d in b.busy ==> d.serial != serial
    ensures var b' := BucketStep(b, ev, now, serial);
            && InTurn(b, b', ev)
            && PingsStay(b, b', if ev.PingAnswered? || ev.PingTimedOut? then {ev.c} else {})
            && (ev.PingTimedOut? && |b'.pending| < |b.pending| ==>
                  ev.c in b.busy && Served(b', b.pending[0], GiveWay(b, ev.c).entries, now, serial))
  {
    match ev
    case Seen(e) => ReplaceOrPingInTurn(b, e, now, serial);
    case PingAnswered(c) =>
      if c in b.busy { AnswerInTurn(b, c, now, serial); }
    case PingTimedOut(c) => if c in b.busy { TimeoutInTurn(b, c, now, serial); }
    case RequestTimedOut(addr) =>
  }

  /** A ping is answered, its candidate takes the place of a bad entry, and the one that waits stays waiting
      although a ping could be sent. */
  lemma CandidateStranded(b: Bucket, c: PingCall, now: nat, serial: nat)
    requires c in b.busy && |b.busy| == MAX_PINGS && b.pending != [] && CanReplaceBad(b, now)
    ensures var b' := OnResponse(b, c, now, serial);
            b'.pending == b.pending && |b'.busy| == MAX_PINGS - 1 && !WaitsForPings(b')
  {
    BusyWithout(b.busy, c);
  }

  // ---- how fresh an entry is ----

  /** The entry of contact `x`, from a message between `from` and `now`. */
  predicate FreshEntry(e: Entry, x: Contact, from: nat, now: nat) {
    e.node == x && from <= e.lastResponded <= now
  }

  ghost predicate HasFresh(es: seq<Entry>, x: Contact, from: nat, now: nat) {
    exists e :: e in es && FreshEntry(e, x, from, now)
  }

  /** `insert` has a place for a contact that is listed, or finds one: an empty one or that of a bad entry. */
  predicate HasPlace(b: Bucket, x: Contact, now: nat) {
    First(b.entries, SameNode(x)) < |b.entries| || |b.entries| < K || CanReplaceBad(b, now)
  }

  lemma SwapKeeps(es: seq<Entry>, i: nat, e: Entry, f: Entry)
    requires i < |es| && f in es && f != es[i]
    ensures f in Swap(es, i, e)
  {
    var j :| 0 <= j < |es| && es[j] == f;
    if j < i { assert Swap(es, i, e)[j] == f; } else { assert Swap(es, i, e)[j - 1] == f; }
  }

  lemma InsertAppends(b: Bucket, e: Entry, now: nat, serial: nat)
    requires HasPlace(b, e.node, now)
    ensures var es := Insert(b, e, now, serial).entries; es != [] && es[|es| - 1] == e
  {
  }

  /** A message leaves the contact with an entry of its time, the last of the bucket, if and only if there was a
      place; otherwise the contact is not listed at all. */
  lemma SightingRenews(b: Bucket, x: Contact, now: nat, serial: nat)
    ensures var es := Insert(b, NewEntry(x, now), now, serial).entries;
            && (HasFresh(es, x, now, now) <==> HasPlace(b, x, now))
            && (HasPlace(b, x, now) ==> es != [] && es[|es| - 1] == NewEntry(x, now))
            && (!HasPlace(b, x, now) ==> forall e :: e in es ==> e.node != x)
  {
    var es := Insert(b, NewEntry(x, now), now, serial).entries;
    if HasPlace(b, x, now) {
      InsertAppends(b, NewEntry(x, now), now, serial);
      assert es[|es| - 1] in es && FreshEntry(es[|es| - 1], x, now, now);
    } else {
      forall j | 0 <= j < |es| ensures es[j].node != x { assert es[j].node == b.entries[j].node; }
    }
  }

  /** A fresh entry is not bad, nor questionable. */
  lemma FreshIsGood(e: Entry, x: Contact, from: nat, now: nat)
    requires FreshEntry(e, x, from, now) && now <= from + QUESTIONABLE_AFTER
    ensures e.IsGood(now) && !e.IsBad(now)
  {
  }

  lemma FreshBesideBad(b: Bucket, e: Entry, now: nat, serial: nat, x: Contact, from: nat)
    requires HasFresh(b.entries, x, from, now) && now <= from + QUESTIONABLE_AFTER
    ensures HasFresh(ReplaceOrPing(b, e, now, serial).entries, x, from, now)
  {
    var f :| f in b.entries && FreshEntry(f, x, from, now);
    FreshIsGood(f, x, from, now);
    var es := ReplaceOrPing(b, e, now, serial).entries;
    var i := First(b.entries, BadAt(now));
    if i < |b.entries| {
      SwapKeeps(b.entries, i, e, f);
    } else {
      var j :| 0 <= j < |b.entries| && b.entries[j] == f;
      assert es[j] == f;
    }
  }

  lemma FreshBesideSeen(b: Bucket, e: Entry, now: nat, serial: nat, x: Contact, from: nat)
    requires HasFresh(b.entries, x, from, now) && now <= from + QUESTIONABLE_AFTER
    requires e.node == x ==> FreshEntry(e, x, from, now)
    ensures HasFresh(Insert(b, e, now, serial).entries, x, from, now)
  {
    var f :| f in b.entries && FreshEntry(f, x, from, now);
    var es, i := Insert(b, e, now, serial).entries, First(b.entries, SameNode(e.node));
    if i < |b.entries| {
      assert Swap(b.entries, i, e)[|b.entries| - 1] == e;
      if e.node != x { SwapKeeps(b.entries, i, e, f); }
    } else if |b.entries| < K {
      assert f in b.entries + [e];
    } else {
      FreshBesideBad(b, e, now, serial, x, from);
    }
  }

  lemma FreshBesideSilent(b: Bucket, c: PingCall, now: nat, serial: nat, x: Contact, from: nat)
    requires HasFresh(b.entries, x, from, now) && now <= from + QUESTIONABLE_AFTER && c.target != x.addr
    ensures HasFresh(OnTimeout(b, c, now, serial).entries, x, from, now)
  {
    if c in b.busy {
      var f :| f in b.entries && FreshEntry(f, x, from, now);
      var i, g := First(b.entries, HasAddress(c.target)), GiveWay(b, c);
      if i < |b.entries| { SwapKeeps(b.entries, i, b.busy[c], f); }
      assert HasFresh(g.entries, x, from, now);
      if |g.busy| < MAX_PINGS && g.pending != [] {
        FreshBesideBad(g.(pending := g.pending[1..]), g.pending[0], now, serial, x, from);
      }
    }
  }

  lemma FreshBesideLost(b: Bucket, addr: Address, now: nat, x: Contact, from: nat)
    requires HasFresh(b.entries, x, from, now)
    ensures HasFresh(OnRequestTimeout(b, addr).entries, x, from, now)
  {
    var j :| 0 <= j < |b.entries| && FreshEntry(b.entries[j], x, from, now);
    var es := OnRequestTimeout(b, addr).entries;
    assert FreshEntry(es[j], x, from, now) && es[j] in es;
  }

  /** Within a quarter of an hour a contact that has a place keeps it and a fresh entry, through every event but the
      time-out of a ping to its address; messages of its own renew the entry. */
  lemma FreshStays(b: Bucket, ev: BucketEvent, now: nat, serial: nat, x: Contact, from: nat)
    requires HasFresh(b.entries, x, from, now) && now <= from + QUESTIONABLE_AFTER
    requires ev.Seen? && ev.e.node == x ==> FreshEntry(ev.e, x, from, now)
    requires ev.PingTimedOut? ==> ev.c.target != x.addr
    ensures HasFresh(BucketStep(b, ev, now, serial).entries, x, from, now)
  {
    match ev
    case Seen(e) => FreshBesideSeen(b, e, now, serial, x, from);
    case PingAnswered(c) =>
      if c in b.busy { FreshBesideBad(b.(busy := b.busy - {c}), b.busy[c], now, serial, x, from); }
    case PingTimedOut(c) => FreshBesideSilent(b, c, now, serial, x, from);
    case RequestTimedOut(addr) => FreshBesideLost(b, addr, now, x, from);
  }

  /** The end of a ping decides about the entry pinged: answered, only a bad entry may go; timed out, the first entry
      at the address is out and the candidate, if there was such an entry, in its place at the end. */
  lemma PingDecides(b: Bucket, c: PingCall, now: nat, serial: nat)
    requires c in b.busy
    ensures var es := OnResponse(b, c, now, serial).entries;
            forall i :: 0 <= i < |b.entries| && !b.entries[i].IsBad(now) ==>
              exists e :: e in es && e.node == b.entries[i].node
    ensures var i := First(b.entries, HasAddress(c.target));
            GiveWay(b, c).entries == if i < |b.entries| then Without(b.entries, i) + [b.busy[c]] else b.entries
  {
    var es := OnResponse(b, c, now, serial).entries;
    forall i | 0 <= i < |b.entries| && !b.entries[i].IsBad(now)
      ensures exists e :: e in es && e.node == b.entries[i].node
    {
      var k := First(b.entries, BadAt(now));
      if k < |b.entries| {
        SwapKeeps(b.entries, k, b.busy[c], b.entries[i]);
      } else {
        assert es[i] in es && es[i].node == b.entries[i].node;
      }
    }
  }

  /** A sighting in a full bucket with no bad entry and a questionable first one pings that one. */
  lemma PingFirst(b: Bucket, x: Entry, now: nat, serial: nat)
    requires |b.entries| == K && |b.busy| < MAX_PINGS
    requires forall e :: e in b.entries ==> !e.IsBad(now) && e.node != x.node
    requires b.entries[0].IsQuestionable(now)
    ensures var f := b.entries[0];
            Insert(b, x, now, serial) ==
              b.(entries := b.entries[0 := f.(questionablePings := f.questionablePings + 1)],
                 busy := b.busy[PingCall(serial, f.node.addr) := x])
  {
    assert First(b.entries, SameNode(x.node)) == K;
    assert First(b.entries, BadAt(now)) == K;
    assert First(b.entries, QuestionableAt(now)) == 0;
  }

  /** A full bucket of questionable entries at different addresses, none of them bad. */
  ghost predicate Stale(es: seq<Entry>, x: Entry, now: nat) {
    && |es| == K
    && (forall i, j :: 0 <= i < j < K ==> es[i].node.addr != es[j].node.addr)
    && (forall i :: 0 <= i < K ==> es[i].IsQuestionable(now) && !es[i].IsBad(now) && es[i].questionablePings == 0)
    && (forall i :: 0 <= i < K ==> es[i].node.addr != x.node.addr)
    && !x.IsBad(now)
  }

  lemma ThreeSightings(es: seq<Entry>, x: Entry, now: nat)
    requires Stale(es, x, now)
    ensures var a0 := es[0].node.addr;
            Insert(Insert(Insert(Bucket(es, [], map[]), x, now, 0), x, now, 1), x, now, 2)
              == Bucket(es[0 := es[0].(questionablePings := 2)], [x], map[PingCall(0, a0) := x, PingCall(1, a0) := x])
  {
    var a0 := es[0].node.addr;
    var c0, c1 := PingCall(0, a0), PingCall(1, a0);
    var e1, e2 := es[0].(questionablePings := 1), es[0].(questionablePings := 2);
    var b1, b2 := Bucket(es[0 := e1], [], map[c0 := x]), Bucket(es[0 := e2], [], map[c0 := x, c1 := x]);
    PingFirst(Bucket(es, [], map[]), x, now, 0);
    PingFirst(b1, x, now, 1);
    assert Insert(b1, x, now, 1) == b2;
    assert First(b2.entries, SameNode(x.node)) == K && First(b2.entries, BadAt(now)) == K;
    assert |b2.busy| == 2;
  }

  lemma RequestLostBy(b: Bucket, i: nat)
    requires i < |b.entries| && forall j :: 0 <= j < i ==> b.entries[j].node.addr != b.entries[i].node.addr
    ensures var e := b.entries[i];
            OnRequestTimeout(b, e.node.addr) == b.(entries := b.entries[i := e.(failedQueries := e.failedQueries + 1)])
  {
    assert First(b.entries, HasAddress(b.entries[i].node.addr)) == i;
  }

  lemma ThreeLost(b: Bucket, i: nat, addr: Address)
    requires i < |b.entries| && addr == b.entries[i].node.addr
    requires forall j :: 0 <= j < i ==> b.entries[j].node.addr != addr
    ensures var e := b.entries[i];
            OnRequestTimeout(OnRequestTimeout(OnRequestTimeout(b, addr), addr), addr)
              == b.(entries := b.entries[i := e.(failedQueries := e.failedQueries + 3)])
  {
    var e := b.entries[i];
    var b1 := b.(entries := b.entries[i := e.(failedQueries := e.failedQueries + 1)]);
    var b2 := b.(entries := b.entries[i := e.(failedQueries := e.failedQueries + 2)]);
    RequestLostBy(b, i);
    RequestLostBy(b1, i);
    assert b1.entries[i := b2.entries[i]] == b2.entries;
    RequestLostBy(b2, i);
  }

  lemma BadAfterThree(e: Entry, now: nat)
    requires e.IsQuestionable(now)
    ensures e.(failedQueries := e.failedQueries + 3).IsBad(now)
  {
  }

  lemma SecondGoesBad(b: Bucket, e: Entry, now: nat) returns (b': Bucket)
    requires |b.entries| > 1 && b.entries[1] == e && b.entries[0].node.addr != e.node.addr && e.IsQuestionable(now)
    ensures var a := e.node.addr; b' == OnRequestTimeout(OnRequestTimeout(OnRequestTimeout(b, a), a), a)
    ensures b' == b.(entries := b'.entries) && |b'.entries| > 1 && b'.entries[1].IsBad(now)
  {
    var bad := e.(failedQueries := e.failedQueries + 3);
    ThreeLost(b, 1, e.node.addr);
    BadAfterThree(e, now);
    b' := b.(entries := b.entries[1 := bad]);
    assert b'.entries[1] == bad;
  }

  lemma TwoPings(c0: PingCall, c1: PingCall, x: Entry)
    requires c0 != c1
    ensures |map[c0 := x, c1 := x]| == 2
  {
    assert |map[c0 := x, c1 := x]| == |map[c0 := x, c1 := x].Keys|;
    assert map[c0 := x, c1 := x].Keys == {c0, c1};
  }

  lemma StrandedBehindBad(b: Bucket, i: nat, c0: PingCall, c1: PingCall, x: Entry, now: nat)
    requires c0 != c1 && b.busy == map[c0 := x, c1 := x] && b.pending == [x]
    requires i < |b.entries| && b.entries[i].IsBad(now)
    ensures var b' := OnResponse(b, c0, now, 3); b'.pending == [x] && |b'.busy| == 1 && !WaitsForPings(b')
  {
    TwoPings(c0, c1, x);
    CandidateStranded(b, c0, now, 3);
  }

  /** This comes about: after three sightings of one contact in such a bucket and three lost requests to its second
      entry, the answer to the first ping leaves the contact waiting with one ping in flight. */
  lemma CandidateIsStranded(es: seq<Entry>, x: Entry, now: nat) returns (b3: Bucket, b6: Bucket)
    requires Stale(es, x, now)
    ensures b3 == Insert(Insert(Insert(Bucket(es, [], map[]), x, now, 0), x, now, 1), x, now, 2)
    ensures var a1 := es[1].node.addr; b6 == OnRequestTimeout(OnRequestTimeout(OnRequestTimeout(b3, a1), a1), a1)
    ensures var c0 := PingCall(0, es[0].node.addr);
            var b7 := OnResponse(b6, c0, now, 3);
            c0 in b6.busy && b7.pending == [x] && |b7.busy| == 1 && !WaitsForPings(b7)
  {
    var c0, c1 := PingCall(0, es[0].node.addr), PingCall(1, es[0].node.addr);
    b3 := Bucket(es[0 := es[0].(questionablePings := 2)], [x], map[c0 := x, c1 := x]);
    ThreeSightings(es, x, now);
    b6 := SecondGoesBad(b3, es[1], now);
    StrandedBehindBad(b6, 1, c0, c1, x, now);
  }

  lemma FirstSilence(es: seq<Entry>, x: Entry, now: nat)
    requires Stale(es, x, now)
    ensures var c0, c1, c2 := PingCall(0, es[0].node.addr), PingCall(1, es[0].node.addr), PingCall(2, es[1].node.addr);
            OnTimeout(Bucket(es[0 := es[0].(questionablePings := 2)], [x], map[c0 := x, c1 := x]), c0, now, 2)
              == Bucket([es[1].(questionablePings := 1)] + es[2..] + [x], [], map[c1 := x, c2 := x])
  {
    var a0 := es[0].node.addr;
    var c0, c1 := PingCall(0, a0), PingCall(1, a0);
    var b := Bucket(es[0 := es[0].(questionablePings := 2)], [x], map[c0 := x, c1 := x]);
    var rest := es[1..] + [x];
    assert First(b.entries, HasAddress(a0)) == 0;
    assert b.busy - {c0} == map[c1 := x];
    assert GiveWay(b, c0) == Bucket(rest, [x], map[c1 := x]);
    assert First(rest, BadAt(now)) == K && First(rest, QuestionableAt(now)) == 0;
    assert rest[0 := es[1].(questionablePings := 1)] == [es[1].(questionablePings := 1)] + es[2..] + [x];
  }

  lemma SecondSilence(es: seq<Entry>, x: Entry, now: nat)
    requires |es| == K && forall i :: 1 < i < K ==> es[i].node.addr != es[1].node.addr
    ensures var c1, c2 := PingCall(1, es[0].node.addr), PingCall(2, es[1].node.addr);
            var b4 := Bucket([es[1].(questionablePings := 1)] + es[2..] + [x], [], map[c1 := x, c2 := x]);
            OnTimeout(b4, c2, now, 3).entries == es[2..] + [x, x]
  {
    var c1, c2 := PingCall(1, es[0].node.addr), PingCall(2, es[1].node.addr);
    var b4 := Bucket([es[1].(questionablePings := 1)] + es[2..] + [x], [], map[c1 := x, c2 := x]);
    assert First(b4.entries, HasAddress(es[1].node.addr)) == 0;
    assert GiveWay(b4, c2).entries == es[2..] + [x, x];
    assert GiveWay(b4, c2).pending == [];
  }

  lemma SilentAtBack(b: Bucket, es: seq<Entry>, c: PingCall, x: Entry, now: nat, serial: nat)
    requires |es| == K && b.entries == es && b.pending == [] && c in b.busy && b.busy[c] == x
    requires c.target == es[0].node.addr
    ensures OnTimeout(b, c, now, serial) == Bucket(es[1..] + [x], [], b.busy - {c})
  {
    assert First(es, HasAddress(c.target)) == 0;
    assert Swap(es, 0, x) == es[1..] + [x];
  }

  /** All those entries stay silent. */
  ghost predicate StayStale(es: seq<Entry>, x: Contact, now: nat) {
    && |es| == K && (forall e :: e in es ==> !e.IsBad(now) && e.node != x) && es[0].IsQuestionable(now)
  }

  lemma TwoSightings(es: seq<Entry>, x: Contact, t1: nat, t2: nat)
    requires |es| == K && StayStale(es, x, t1)
    requires StayStale(es[0 := es[0].(questionablePings := es[0].questionablePings + 1)], x, t2)
    ensures var a, f := es[0].node.addr, es[0].(questionablePings := es[0].questionablePings + 2);
            Insert(Insert(Bucket(es, [], map[]), NewEntry(x, t1), t1, 0), NewEntry(x, t2), t2, 1)
              == Bucket(es[0 := f], [], map[PingCall(0, a) := NewEntry(x, t1), PingCall(1, a) := NewEntry(x, t2)])
  {
    var a := es[0].node.addr;
    var e1 := es[0].(questionablePings := es[0].questionablePings + 1);
    var b1 := Bucket(es[0 := e1], [], map[PingCall(0, a) := NewEntry(x, t1)]);
    PingFirst(Bucket(es, [], map[]), NewEntry(x, t1), t1, 0);
    PingFirst(b1, NewEntry(x, t2), t2, 1);
    assert es[0 := e1][0 := e1.(questionablePings := e1.questionablePings + 1)]
        == es[0 := es[0].(questionablePings := es[0].questionablePings + 2)];
  }

  /** A contact without a place is listed later with the time of the message for which the ping was made: seen at
      `t1` and again at `t2`, listed when the first ping times out, and bad a quarter of an hour after `t1` although
      its last message was at `t2`. */
  lemma OldSightingIsBad(es: seq<Entry>, x: Contact, t1: nat, t2: nat, now: nat) returns (b2: Bucket, b3: Bucket)
    requires StayStale(es, x, t1) && StayStale(es[0 := es[0].(questionablePings := es[0].questionablePings + 1)], x, t2)
    requires forall e :: e in es ==> e.node.addr != x.addr
    requires t1 <= t2 && t1 + QUESTIONABLE_AFTER < now <= t2 + QUESTIONABLE_AFTER
    ensures b2 == Insert(Insert(Bucket(es, [], map[]), NewEntry(x, t1), t1, 0), NewEntry(x, t2), t2, 1)
    ensures b3 == OnTimeout(b2, PingCall(0, es[0].node.addr), t2, 2) && b3.entries == es[1..] + [NewEntry(x, t1)]
    ensures var b6 := OnRequestTimeout(OnRequestTimeout(OnRequestTimeout(b3, x.addr), x.addr), x.addr);
            |b6.entries| == K && b6.entries[K - 1].node == x && b6.entries[K - 1].IsBad(now)
  {
    var a, f := es[0].node.addr, es[0].(questionablePings := es[0].questionablePings + 2);
    var c0, c1 := PingCall(0, a), PingCall(1, a);
    TwoSightings(es, x, t1, t2);
    b2 := Bucket(es[0 := f], [], map[c0 := NewEntry(x, t1), c1 := NewEntry(x, t2)]);
    SilentAtBack(b2, es[0 := f], c0, NewEntry(x, t1), t2, 2);
    b3 := Bucket(es[1..] + [NewEntry(x, t1)], [], b2.busy - {c0});
    assert es[0 := f][1..] == es[1..];
    ThreeLost(b3, K - 1, x.addr);
  }

  /** The bucket after sightings of these contacts at one time. */
  function Sighted(es: seq<Entry>, now: nat): Bucket
    decreases |es|
  {
    if es == [] then EMPTY else Insert(Sighted(es[..|es| - 1], now), es[|es| - 1], now, 0)
  }

  ghost predicate NewAt(es: seq<Entry>, t: nat) {
    && (forall i :: 0 <= i < |es| ==> es[i] == NewEntry(es[i].node, t))
    && (forall i, j :: 0 <= i < j < |es| ==> es[i].node.addr != es[j].node.addr)
  }

  lemma {:induction false} SightedFills(es: seq<Entry>, t: nat)
    requires |es| <= K && NewAt(es, t)
    ensures Sighted(es, t) == Bucket(es, [], map[])
    decreases |es|
  {
    if es != [] {
      var n := |es| - 1;
      SightedFills(es[..n], t);
      assert First(es[..n], SameNode(es[n].node)) == n;
      assert es[..n] + [es[n]] == es;
    }
  }

  /** Such a bucket comes about: eight sightings, and more than a quarter of an hour of silence. */
  lemma StaleIsReachable(es: seq<Entry>, x: Contact, t: nat, now: nat)
    requires |es| == K && NewAt(es, t) && now - t > QUESTIONABLE_AFTER
    requires forall i :: 0 <= i < K ==> es[i].node.addr != x.addr
    ensures Sighted(es, t) == Bucket(es, [], map[]) && Stale(es, NewEntry(x, now), now)
  {
    SightedFills(es, t);
  }

  /** Three sightings of one contact while the first two entries of such a bucket stay silent put
      the contact into the bucket twice: candidates are not compared with the entries. */
  lemma ContactEntersTwice(es: seq<Entry>, x: Entry, now: nat)
    requires Stale(es, x, now)
    ensures var c0, c2 := PingCall(0, es[0].node.addr), PingCall(2, es[1].node.addr);
            var b3 := Insert(Insert(Insert(Bucket(es, [], map[]), x, now, 0), x, now, 1), x, now, 2);
            OnTimeout(OnTimeout(b3, c0, now, 2), c2, now, 3).entries == es[2..] + [x, x]
  {
    ThreeSightings(es, x, now);
    FirstSilence(es, x, now);
    SecondSilence(es, x, now);
  }
}
