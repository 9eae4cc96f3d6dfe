/** A bucket and the RPC server together: the pings of the bucket are calls of the server, whose answers and time-outs
    the bucket is told of (libktorrent/kademlia/kbucket.cpp:120-227, rpcserver.cpp:120-226, rpccall.cpp:53-62). */
module PingSystem {
  import opened Contacts
  import opened Rpc
  import B = Buckets

  datatype PingSys = PingSys(server: RpcState, bucket: B.Bucket)

  /** What can happen, at a time: a contact is sighted, somebody else calls, a request to some address is lost, an
      active call is answered or times out, and the timer of call `serial`, which has ended, fires late; `others` are
      the calls other listeners make then. */
  datatype PingEvent =
    | Sighted(e: Entry)
    | Called(req: Request)
    | Lost(addr: Address)
    | Replied(mtid: nat, others: seq<Request>)
    | Expired(mtid: nat, others: seq<Request>)
    | Late(mtid: nat, serial: nat, others: seq<Request>)

  /** From `b` to `b'` a ping to `addr` was made as call `serial`. */
  ghost predicate Pings(b: B.Bucket, b': B.Bucket, serial: nat, addr: Address) {
    B.PingCall(serial, addr) in b'.busy && B.PingCall(serial, addr) !in b.busy
  }

  /** The call the bucket makes. */
  ghost function NewPings(b: B.Bucket, b': B.Bucket, serial: nat): seq<Request> {
    if exists addr :: Pings(b, b', serial, addr) then
      var addr :| Pings(b, b', serial, addr);
      [Request(Ping, addr, NoListener)]
    else []
  }

  /** The bucket becomes `b'`. */
  ghost function Made(s: PingSys, b': B.Bucket): seq<Request> { NewPings(s.bucket, b', |s.server.history|) }

  /** What the bucket becomes that is told of the end of a call. */
  function Tell(s: PingSys, c: B.PingCall, replied: bool, now: nat): B.Bucket {
    if replied then B.OnResponse(s.bucket, c, now, |s.server.history|)
    else B.OnTimeout(s.bucket, c, now, |s.server.history|)
  }

  function PingOf(c: Call): B.PingCall { B.PingCall(c.serial, c.req.dest) }

  ghost function End(s: PingSys, mtid: nat, replied: bool, others: seq<Request>, now: nat): PingSys
    requires mtid in s.server.calls
  {
    var b' := Tell(s, PingOf(s.server.calls[mtid]), replied, now);
    PingSys(Finish(s.server, mtid, Made(s, b') + others, replied), b')
  }

  ghost predicate HasEnded(s: PingSys, serial: nat) {
    serial < |s.server.history| && serial in Ended(s.server)
  }

  ghost function PingStep(s: PingSys, e: PingEvent, now: nat): PingSys {
    match e
    case Sighted(x) =>
      var b' := B.Insert(s.bucket, x, now, |s.server.history|);
      PingSys(IssueAll(s.server, Made(s, b')), b')
    case Called(req) => s.(server := Issue(s.server, req))
    case Lost(addr) => s.(bucket := B.OnRequestTimeout(s.bucket, addr))
    case Replied(m, others) => if m in s.server.calls then End(s, m, true, others, now) else s
    case Expired(m, others) => if m in s.server.calls then End(s, m, false, others, now) else s
    case Late(m, serial, others) =>
      if HasEnded(s, serial) then
        var b' := Tell(s, B.PingCall(serial, s.server.history[serial].dest), false, now);
        PingSys(LateOrNot(s.server, m, Made(s, b') + others), b')
      else s
  }

  // ---- what the bucket does to its pings ----

  /** The ping `c`, if it was out, no longer is, and one to some address may have been made as call `serial`. */
  ghost predicate BusyMoves(b: B.Bucket, b': B.Bucket, c: B.PingCall, serial: nat) {
    && (forall d :: d in b.busy && d != c ==> d in b'.busy)
    && (forall d :: d in b'.busy ==> (d in b.busy && d != c) || d.serial == serial)
    && (forall d, f :: d in b'.busy && f in b'.busy && d.serial == serial && f.serial == serial ==> d == f)
  }

  /** The serial is one no ping has yet. */
  ghost predicate Fresh(b: B.Bucket, serial: nat) { forall d :: d in b.busy ==> d.serial < serial }

  lemma ReplaceOrPingMoves(b: B.Bucket, e: Entry, now: nat, serial: nat, c: B.PingCall)
    requires Fresh(b, serial) && c !in b.busy
    ensures BusyMoves(b, B.ReplaceOrPing(b, e, now, serial), c, serial)
  {
  }

  lemma TellMoves(s: PingSys, c: B.PingCall, replied: bool, now: nat)
    requires Fresh(s.bucket, |s.server.history|)
    ensures BusyMoves(s.bucket, Tell(s, c, replied, now), c, |s.server.history|)
  {
    var b, n := s.bucket, |s.server.history|;
    if c in b.busy {
      var r := b.(busy := b.busy - {c});
      if replied {
        ReplaceOrPingMoves(r, b.busy[c], now, n, c);
      } else {
        var g := B.GiveWay(b, c);
        if |g.busy| < B.MAX_PINGS && g.pending != [] {
          ReplaceOrPingMoves(g.(pending := g.pending[1..]), g.pending[0], now, n, c);
        }
      }
    }
  }

  // ---- what every step keeps ----

  /** Every ping out is a call of the server, to the address it is for. */
  ghost predicate PingsKnown(server: RpcState, b: B.Bucket) {
    forall c :: c in b.busy ==> c.serial < |server.history| && server.history[c.serial].dest == c.target
  }

  ghost predicate PingInv(s: PingSys) { Inv(s.server) && AtRest(s.server) && PingsKnown(s.server, s.bucket) }

  /** Every ping out is still active or queued in the server. */
  ghost predicate PingsLive(s: PingSys) { forall c :: c in s.bucket.busy ==> c.serial !in Ended(s.server) }

  /** The pings after the bucket moved and the server asked for what it made. */
  lemma MadeKnown(s: PingSys, b': B.Bucket, c: B.PingCall, others: seq<Request>, t: RpcState)
    requires PingInv(s) && BusyMoves(s.bucket, b', c, |s.server.history|)
    requires t.history == s.server.history + (Made(s, b') + others)
    ensures PingsKnown(t, b')
  {
    var n := |s.server.history|;
    forall d | d in b'.busy ensures d.serial < |t.history| && t.history[d.serial].dest == d.target {
      if d.serial == n {
        assert Pings(s.bucket, b', n, d.target) by { assert d == B.PingCall(n, d.target); }
        var addr :| Pings(s.bucket, b', n, addr) && Made(s, b') == [Request(Ping, addr, NoListener)];
        assert B.PingCall(n, addr) == d;
      }
    }
  }

  lemma NothingMade(s: PingSys, c: B.PingCall, replied: bool, now: nat)
    requires c !in s.bucket.busy
    ensures Tell(s, c, replied, now) == s.bucket && Made(s, s.bucket) == []
  {
  }

  lemma SightedKeeps(s: PingSys, e: Entry, now: nat)
    requires PingInv(s)
    ensures var t := PingStep(s, Sighted(e), now); PingInv(t) && (PingsLive(s) ==> PingsLive(t))
  {
    var n := |s.server.history|;
    var b' := B.Insert(s.bucket, e, now, n);
    var none := B.PingCall(n, e.node.addr);
    ReplaceOrPingMoves(s.bucket, e, now, n, none);
    assert BusyMoves(s.bucket, b', none, n);
    IssueAllKeeps(s.server, Made(s, b'));
    EndedInHistory(s.server);
    assert Made(s, b') + [] == Made(s, b');
    MadeKnown(s, b', none, [], IssueAll(s.server, Made(s, b')));
  }

  /** A call that ends in time is told of. */
  lemma EndKeeps(s: PingSys, mtid: nat, replied: bool, others: seq<Request>, now: nat)
    requires PingInv(s) && mtid in s.server.calls
    ensures var t := End(s, mtid, replied, others, now); PingInv(t) && (PingsLive(s) ==> PingsLive(t))
  {
    var c := s.server.calls[mtid];
    var b' := Tell(s, PingOf(c), replied, now);
    TellMoves(s, PingOf(c), replied, now);
    FinishKeeps(s.server, mtid, Made(s, b') + others, replied);
    FinishEnds(s.server, mtid, Made(s, b') + others, replied);
    ActiveCall(s.server, mtid);
    var t := End(s, mtid, replied, others, now);
    MadeKnown(s, b', PingOf(c), others, t.server);
    forall d | PingsLive(s) && d in b'.busy ensures d.serial !in Ended(t.server) { SamePing(s, mtid, d); }
  }

  /** A ping out that is this call. */
  lemma SamePing(s: PingSys, mtid: nat, d: B.PingCall)
    requires PingInv(s) && mtid in s.server.calls
    ensures d in s.bucket.busy && d.serial == s.server.calls[mtid].serial ==> d == PingOf(s.server.calls[mtid])
  {
    ActiveCall(s.server, mtid);
  }

  lemma LateInv(s: PingSys, mtid: nat, serial: nat, others: seq<Request>, now: nat)
    requires PingInv(s) && HasEnded(s, serial)
    ensures PingInv(PingStep(s, Late(mtid, serial, others), now))
  {
    var c := B.PingCall(serial, s.server.history[serial].dest);
    var b' := Tell(s, c, false, now);
    TellMoves(s, c, false, now);
    var t := LateServer(s.server, mtid, Made(s, b') + others);
    MadeKnown(s, b', c, others, t);
    assert PingStep(s, Late(mtid, serial, others), now) == PingSys(t, b');
  }

  lemma LateServer(s: RpcState, mtid: nat, r: seq<Request>) returns (t: RpcState)
    requires Inv(s) && AtRest(s)
    ensures t == LateOrNot(s, mtid, r) && Inv(t) && AtRest(t) && t.history == s.history + r
  {
    t := LateOrNot(s, mtid, r);
    LateKeeps(s, mtid, r);
    var i := LateEnds(s, mtid, r);
  }

  /** A late timer finds the id taken by a ping that is out. */
  ghost predicate HitsPing(s: PingSys, e: PingEvent) {
    && e.Late? && HasEnded(s, e.serial) && e.mtid in s.server.calls
    && PingOf(s.server.calls[e.mtid]) in s.bucket.busy
  }

  lemma LateHits(s: PingSys, mtid: nat, serial: nat, others: seq<Request>, now: nat)
    requires PingInv(s) && PingsLive(s) && HasEnded(s, serial)
    ensures var e := Late(mtid, serial, others);
            && PingStep(s, e, now).bucket == s.bucket
            && (PingsLive(PingStep(s, e, now)) <==> !HitsPing(s, e))
  {
    var c := B.PingCall(serial, s.server.history[serial].dest);
    NothingMade(s, c, false, now);
    assert [] + others == others;
    var t := LateOrNot(s.server, mtid, others);
    assert PingStep(s, Late(mtid, serial, others), now) == PingSys(t, s.bucket);
    LateEndsPing(s, mtid, others);
  }

  lemma LateEndsPing(s: PingSys, mtid: nat, others: seq<Request>)
    requires PingInv(s) && PingsLive(s)
    ensures var t := PingSys(LateOrNot(s.server, mtid, others), s.bucket);
            PingsLive(t) <==> !(mtid in s.server.calls && PingOf(s.server.calls[mtid]) in s.bucket.busy)
  {
    IssueAllKeeps(s.server, others);
    var i := LateEnds(s.server, mtid, others);
    EndedInHistory(s.server);
    if mtid in s.server.calls {
      forall d | d in s.bucket.busy && d.serial == i ensures d == PingOf(s.server.calls[mtid]) {
        SamePing(s, mtid, d);
      }
    } else {
      NewHolder(s.server, mtid, others);
    }
  }

  /** An id that was free can only be held by a call just made, or by none. */
  lemma NewHolder(s: RpcState, mtid: nat, others: seq<Request>)
    requires Inv(s) && AtRest(s) && mtid !in s.calls
    ensures var t := IssueAll(s, others); mtid in t.calls ==> t.calls[mtid].serial >= |s.history|
    decreases |others|
  {
    if others != [] {
      var n := |others| - 1;
      var t := IssueAll(s, others[..n]);
      IssueAllKeeps(s, others[..n]);
      NewHolder(s, mtid, others[..n]);
      IssueKeeps(t, others[n]);
    }
  }

  /** Every event, from any state in order: each ping out is still in the server after it if and only if it is not a
      late timer that finds its id taken by such a ping. */
  lemma PingStepKeeps(s: PingSys, e: PingEvent, now: nat)
    requires PingInv(s)
    ensures PingInv(PingStep(s, e, now))
    ensures PingsLive(s) ==> (PingsLive(PingStep(s, e, now)) <==> !HitsPing(s, e))
  {
    match e
    case Sighted(x) => SightedKeeps(s, x, now);
    case Called(req) =>
      IssueKeeps(s.server, req);
      EndedInHistory(s.server);
    case Lost(addr) =>
    case Replied(m, others) => if m in s.server.calls { EndKeeps(s, m, true, others, now); }
    case Expired(m, others) => if m in s.server.calls { EndKeeps(s, m, false, others, now); }
    case Late(m, serial, others) =>
      if HasEnded(s, serial) {
        LateInv(s, m, serial, others, now);
        if PingsLive(s) { LateHits(s, m, serial, others, now); }
      }
  }

  /** An entry with this contact. */
  ghost predicate Lists(b: B.Bucket, x: Contact) { exists e :: e in b.entries && e.node == x }

  /** The answer to a ping ends its call as answered and keeps the entry pinged, and every other that is not bad; its
      candidate has no ping out any more.  The answer to another call leaves the bucket alone. */
  lemma ReplyIsHeard(s: PingSys, m: nat, others: seq<Request>, now: nat)
    requires PingInv(s) && m in s.server.calls
    ensures var t, c := PingStep(s, Replied(m, others), now), PingOf(s.server.calls[m]);
            && EndsAs(s.server, t.server, c.serial, Made(s, t.bucket) + others, true)
            && (c in s.bucket.busy ==>
                  && c !in t.bucket.busy
                  && forall e :: e in s.bucket.entries && !e.IsBad(now) ==> Lists(t.bucket, e.node))
            && (c !in s.bucket.busy ==> t.bucket == s.bucket)
  {
    var c := PingOf(s.server.calls[m]);
    FinishEndsAs(s.server, m, Made(s, Tell(s, c, true, now)) + others, true);
    TellMoves(s, c, true, now);
    ActiveCall(s.server, m);
    if c in s.bucket.busy { B.PingDecides(s.bucket, c, now, |s.server.history|); }
  }

  /** Its time-out ends the call as timed out; the first entry at the address gives way to the candidate, and then the
      next candidate has its turn. */
  lemma ExpiryIsHeard(s: PingSys, m: nat, others: seq<Request>, now: nat)
    requires PingInv(s) && m in s.server.calls
    ensures var t, c := PingStep(s, Expired(m, others), now), PingOf(s.server.calls[m]);
            var es := s.bucket.entries;
            && EndsAs(s.server, t.server, c.serial, Made(s, t.bucket) + others, false)
            && (c in s.bucket.busy ==>
                  var i, g := B.First(es, B.HasAddress(c.target)), B.GiveWay(s.bucket, c);
                  && c !in t.bucket.busy
                  && g.entries == (if i < |es| then es[..i] + es[i + 1..] + [s.bucket.busy[c]] else es)
                  && t.bucket == B.ServePending(g, now, |s.server.history|))
            && (c !in s.bucket.busy ==> t.bucket == s.bucket)
  {
    var c := PingOf(s.server.calls[m]);
    FinishEndsAs(s.server, m, Made(s, Tell(s, c, false, now)) + others, false);
    TellMoves(s, c, false, now);
    ActiveCall(s.server, m);
  }

  // ---- runs ----

  datatype Timed = Timed(ev: PingEvent, now: nat)

  ghost function PingRun(s: PingSys, es: seq<Timed>): PingSys
    decreases |es|
  {
    if es == [] then s else PingStep(PingRun(s, es[..|es| - 1]), es[|es| - 1].ev, es[|es| - 1].now)
  }

  ghost predicate AlwaysLive(s: PingSys, es: seq<Timed>)
    decreases |es|
  {
    PingsLive(PingRun(s, es)) && (es != [] ==> AlwaysLive(s, es[..|es| - 1]))
  }

  ghost predicate NeverHits(s: PingSys, es: seq<Timed>)
    decreases |es|
  {
    es == [] || (NeverHits(s, es[..|es| - 1]) && !HitsPing(PingRun(s, es[..|es| - 1]), es[|es| - 1].ev))
  }

  /** A new server and a bucket that has not pinged yet. */
  function New(next: nat, entries: seq<Entry>): PingSys { PingSys(Start(next), B.Bucket(entries, [], map[])) }

  /** Over every run: all pings out are always in the server if and only if no late timer hits one. */
  lemma {:induction false} PingRunKeeps(next: nat, entries: seq<Entry>, es: seq<Timed>)
    requires next < SLOTS
    ensures PingInv(PingRun(New(next, entries), es))
    ensures AlwaysLive(New(next, entries), es) <==> NeverHits(New(next, entries), es)
    decreases |es|
  {
    if es != [] {
      var n := |es| - 1;
      PingRunKeeps(next, entries, es[..n]);
      PingStepKeeps(PingRun(New(next, entries), es[..n]), es[n].ev, es[n].now);
    }
  }

  /** So after every such run each ping out is active, or queued behind 256 active calls, and with no active call
      left no candidate waits for a ping. */
  lemma EveryPingEnds(next: nat, entries: seq<Entry>, es: seq<Timed>)
    requires next < SLOTS && NeverHits(New(next, entries), es)
    ensures var t := PingRun(New(next, entries), es);
            && (forall c :: c in t.bucket.busy ==>
                  IsActive(t.server, c.serial) || (IsQueued(t.server, c.serial) && |t.server.calls| == SLOTS))
            && (t.server.calls == map[] ==> t.bucket.busy == map[])
  {
    var t := PingRun(New(next, entries), es);
    PingRunKeeps(next, entries, es);
    forall c | c in t.bucket.busy
      ensures IsActive(t.server, c.serial) || (IsQueued(t.server, c.serial) && |t.server.calls| == SLOTS)
    {
      NoCallLost(t.server, c.serial);
    }
    if t.server.calls == map[] {
      assert forall c :: c !in t.bucket.busy;
    }
  }

  /** A ping whose call has ended untold stays out, and its candidate with it, until its own timer fires. */
  lemma StuckStays(s: PingSys, e: PingEvent, now: nat, c: B.PingCall)
    requires PingInv(s) && c in s.bucket.busy && c.serial in Ended(s.server)
    requires !(e.Late? && e.serial == c.serial)
    ensures c in PingStep(s, e, now).bucket.busy
  {
    match e
    case Sighted(x) =>
      var n := |s.server.history|;
      ReplaceOrPingMoves(s.bucket, x, now, n, B.PingCall(n, c.target));
    case Called(_) =>
    case Lost(_) =>
    case Replied(m, _) =>
      if m in s.server.calls {
        ActiveCall(s.server, m);
        TellMoves(s, PingOf(s.server.calls[m]), true, now);
      }
    case Expired(m, _) =>
      if m in s.server.calls {
        ActiveCall(s.server, m);
        TellMoves(s, PingOf(s.server.calls[m]), false, now);
      }
    case Late(m, serial, _) =>
      if HasEnded(s, serial) { TellMoves(s, B.PingCall(serial, s.server.history[serial].dest), false, now); }
  }
}
