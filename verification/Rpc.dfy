/** The RPC server: 256 transaction ids, an overflow queue, responses and time-outs
    (libktorrent/kademlia/rpcserver.cpp, rpccall.cpp). */
module Rpc {
  import opened Contacts

  const SLOTS: nat := 256

  datatype Method = Ping | FindNode | GetPeers | AnnouncePeer

  /** Who is told about the outcome of a call. */
  datatype Listener = NoListener | TaskListener(task: nat)

  datatype Request = Request(kind: Method, dest: Address, listener: Listener)

  /** An `RPCCall` with its message; `serial` identifies the object, in order of creation. */
  datatype Call = Call(serial: nat, req: Request, mtid: nat)

  /** The server and its history: every request ever passed to `doCall`, the calls sent, in the
      order of sending, and the calls that ended. */
  datatype RpcState = RpcState(
    calls: map<nat, Call>, queue: seq<Call>, next: nat,
    history: seq<Request>, sent: seq<nat>, answered: set<nat>, timedOut: set<nat>)

  function Start(next: nat): RpcState {
    RpcState(map[], [], next, [], [], {}, {})
  }

  /** Slot reached after `k` increments of a Uint8. */
  function Slot(start: nat, k: nat): nat { (start + k) % SLOTS }

  /** The first free slot from `start` on, in the wrapping order, `k` slots being known busy. */
  function Probe(busy: set<nat>, start: nat, k: nat): nat
    decreases SLOTS - k, start
  {
    if k < SLOTS && Slot(start, k) in busy then Probe(busy, start, k + 1) else Slot(start, k)
  }

  /** A message leaves under the first free id; `doCall` and `doQueuedCalls` share this. */
  function Send(s: RpcState, c: Call): RpcState {
    var m := Probe(s.calls.Keys, s.next, 0);
    s.(calls := s.calls[m := c.(mtid := m)], next := Slot(m, 1), sent := s.sent + [c.serial])
  }

  /** `doCall`. */
  function Issue(s: RpcState, req: Request): RpcState {
    var c := Call(|s.history|, req, 0xFF);
    var s' := s.(history := s.history + [req]);
    if |s.calls| == SLOTS then s'.(queue := s.queue + [c]) else Send(s', c)
  }

  function IssueAll(s: RpcState, reqs: seq<Request>): RpcState {
    if reqs == [] then s else Issue(IssueAll(s, reqs[..|reqs| - 1]), reqs[|reqs| - 1])
  }

  /** `doQueuedCalls`. */
  function Drain(s: RpcState): RpcState
    decreases |s.queue|
  {
    if s.queue != [] && |s.calls| < SLOTS then Drain(Send(s.(queue := s.queue[1..]), s.queue[0])) else s
  }

  /** The state with the call under `mtid` ended. */
  function Erase(s: RpcState, mtid: nat, replied: bool): RpcState
    requires mtid in s.calls
  {
    var c := s.calls[mtid].serial;
    var t := s.(calls := s.calls - {mtid});
    if replied then t.(answered := t.answered + {c}) else t.(timedOut := t.timedOut + {c})
  }

  /** An active call ends: its listeners run first and issue `nested` calls while its slot is still
      taken, then the slot is freed and the queue is served. */
  function Finish(s: RpcState, mtid: nat, nested: seq<Request>, replied: bool): RpcState
    requires mtid in s.calls
  {
    var t := IssueAll(s, nested);
    if mtid in t.calls then Drain(Erase(t, mtid, replied)) else t
  }

  datatype Event =
    | NewCall(req: Request)
    | Response(mtid: nat, nested: seq<Request>)
    | Timeout(mtid: nat, nested: seq<Request>)

  /** A response that matches no call is dropped while parsing. */
  function Step(s: RpcState, e: Event): RpcState {
    match e
    case NewCall(req) => Issue(s, req)
    case Response(m, nested) => if m in s.calls then Finish(s, m, nested, true) else s
    case Timeout(m, nested) => LateOrNot(s, m, nested)
  }

  /** A timer that fires for a call already answered: its listeners are told, and then whatever call holds the id
      by now is taken for the one that timed out. */
  function LateOrNot(s: RpcState, mtid: nat, nested: seq<Request>): RpcState {
    if mtid in s.calls then Finish(s, mtid, nested, false) else
      var t := IssueAll(s, nested);
      if mtid in t.calls then Drain(Erase(t, mtid, false)) else Drain(t)
  }

  function Run(s: RpcState, es: seq<Event>): RpcState {
    if es == [] then s else Step(Run(s, es[..|es| - 1]), es[|es| - 1])
  }

  // ---- slots ----

  lemma {:induction false} Pigeonhole(n: nat, xs: set<nat>)
    requires forall x :: x in xs ==> x < n
    ensures |xs| <= n
    ensures |xs| == n <==> forall x: nat :: x < n ==> x in xs
  {
    if n > 0 {
      var ys := xs - {n - 1};
      Pigeonhole(n - 1, ys);
      if n - 1 in xs { assert |xs| == |ys| + 1; } else { assert xs == ys; }
      if |xs| == n {
        assert n - 1 in xs;
        forall x: nat | x < n ensures x in xs { if x < n - 1 { assert x in ys; } }
      }
      if forall x: nat :: x < n ==> x in xs {
        forall x: nat | x < n - 1 ensures x in ys { assert x in xs; }
      }
    } else {
      assert forall x :: x !in xs;
      assert xs == {};
    }
  }

  /** Every id is reached by the wrapping scan. */
  lemma SlotsCover(start: nat, m: nat)
    requires start < SLOTS && m < SLOTS
    ensures exists k :: 0 <= k < SLOTS && Slot(start, k) == m
  {
    var k := (m + SLOTS - start) % SLOTS;
    assert Slot(start, k) == m;
  }

  lemma SlotStep(start: nat, k: nat)
    requires start < SLOTS && k < SLOTS
    ensures Slot(start, k + 1) == (Slot(start, k) + 1) % SLOTS
    ensures Slot(start, k) < SLOTS && Slot(start, 0) == start
    ensures Slot(start, k + 1) == start <==> k + 1 == SLOTS
  {
  }

  lemma {:induction false} ProbeFrom(busy: set<nat>, start: nat, k: nat, j: nat)
    requires k <= j < SLOTS && Slot(start, j) !in busy
    requires forall i :: k <= i < j ==> Slot(start, i) in busy
    ensures Probe(busy, start, k) == Slot(start, j)
    decreases j - k
  {
    if k < j { ProbeFrom(busy, start, k + 1, j); }
  }

  lemma {:induction false} ProbeFindsFrom(busy: set<nat>, start: nat, k: nat, j: nat)
    requires k <= j < SLOTS && Slot(start, j) !in busy
    ensures Probe(busy, start, k) !in busy && Probe(busy, start, k) < SLOTS
    decreases j - k
  {
    if k < j && Slot(start, k) in busy { ProbeFindsFrom(busy, start, k + 1, j); }
  }

  /** With an id free, the wrapping scan meets a free one within 256 steps. */
  lemma FreeSlotAhead(busy: set<nat>, start: nat) returns (j: nat)
    requires start < SLOTS && (forall m :: m in busy ==> m < SLOTS) && |busy| < SLOTS
    ensures j < SLOTS && Slot(start, j) !in busy
  {
    Pigeonhole(SLOTS, busy);
    var m: nat :| m < SLOTS && m !in busy;
    SlotsCover(start, m);
    j :| 0 <= j < SLOTS && Slot(start, j) == m;
  }

  /** The scan finds the first free id: all between `next` and it are in use. */
  lemma {:induction false} ProbeIsFirst(busy: set<nat>, start: nat, k: nat) returns (j: nat)
    requires k <= SLOTS
    ensures k <= j <= SLOTS && Probe(busy, start, k) == Slot(start, j)
    ensures forall i :: k <= i < j ==> Slot(start, i) in busy
    decreases SLOTS - k
  {
    j := k;
    if k < SLOTS && Slot(start, k) in busy { j := ProbeIsFirst(busy, start, k + 1); }
  }

  lemma ProbeIsFree(busy: set<nat>, start: nat)
    requires start < SLOTS && (forall m :: m in busy ==> m < SLOTS) && |busy| < SLOTS
    ensures Probe(busy, start, 0) !in busy && Probe(busy, start, 0) < SLOTS
  {
    var j := FreeSlotAhead(busy, start);
    ProbeFindsFrom(busy, start, 0, j);
  }

  // ---- what every step keeps ----

  ghost predicate SlotsOk(s: RpcState) {
    && s.next < SLOTS
    && |s.calls| <= SLOTS
    && (forall m :: m in s.calls ==> m < SLOTS && s.calls[m].mtid == m)
    && SerialsDistinct(s.calls)
  }

  ghost predicate SerialsDistinct(calls: map<nat, Call>) {
    forall m, n :: m in calls && n in calls && m != n ==> calls[m].serial != calls[n].serial
  }

  /** Calls are sent in the order in which `doCall` was invoked, the queue holding the rest. */
  ghost predicate InOrder(s: RpcState) {
    && |s.sent| + |s.queue| == |s.history|
    && (forall i :: 0 <= i < |s.sent| ==> s.sent[i] == i)
    && (forall i :: 0 <= i < |s.queue| ==> Queued(s.queue[i], |s.sent| + i, s.history))
  }

  ghost predicate Queued(c: Call, serial: nat, history: seq<Request>) {
    c.serial == serial < |history| && c.req == history[serial]
  }

  /** A call holding a slot still carries the request it was made for. */
  ghost predicate RequestsKept(s: RpcState) {
    forall m :: m in s.calls ==> s.calls[m].serial < |s.history| && s.calls[m].req == s.history[s.calls[m].serial]
  }

  /** Active, answered and timed-out calls are different calls, and together as many as were sent. */
  ghost predicate Accounted(s: RpcState) {
    && (forall m :: m in s.calls ==> s.calls[m].serial < |s.sent| && s.calls[m].serial !in s.answered + s.timedOut)
    && (forall i :: i in s.answered + s.timedOut ==> i < |s.sent|)
    && s.answered !! s.timedOut
    && |s.calls| + |s.answered| + |s.timedOut| == |s.sent|
  }

  ghost predicate Inv(s: RpcState) {
    SlotsOk(s) && InOrder(s) && RequestsKept(s) && Accounted(s)
  }

  /** Between events a call waits only because no id is free. */
  ghost predicate AtRest(s: RpcState) {
    s.queue != [] ==> |s.calls| == SLOTS
  }

  lemma SendKeeps(s: RpcState, c: Call)
    requires SlotsOk(s) && Accounted(s) && |s.calls| < SLOTS && c.serial == |s.sent|
    ensures SlotsOk(Send(s, c)) && Accounted(Send(s, c))
    ensures |Send(s, c).calls| == |s.calls| + 1
    ensures forall m :: m in s.calls ==> m in Send(s, c).calls && Send(s, c).calls[m] == s.calls[m]
    ensures forall m :: m in Send(s, c).calls && m !in s.calls ==> Send(s, c).calls[m] == c.(mtid := m)
  {
    assert |s.calls| == |s.calls.Keys|;
    ProbeIsFree(s.calls.Keys, s.next);
  }

  lemma SendInOrder(s: RpcState, c: Call)
    requires InOrder(s.(queue := [c] + s.queue))
    ensures InOrder(Send(s, c))
  {
    var q := [c] + s.queue;
    assert Queued(q[0], |s.sent|, s.history);
    forall i | 0 <= i < |s.queue| ensures Queued(s.queue[i], |s.sent| + 1 + i, s.history) {
      assert q[i + 1] == s.queue[i];
    }
  }

  lemma SendKeepsAll(s: RpcState, c: Call)
    requires Inv(s.(queue := [c] + s.queue)) && |s.calls| < SLOTS
    ensures Inv(Send(s, c)) && |Send(s, c).calls| == |s.calls| + 1
    ensures forall m :: m in s.calls ==> m in Send(s, c).calls && Send(s, c).calls[m] == s.calls[m]
  {
    assert Queued(([c] + s.queue)[0], |s.sent|, s.history);
    SendKeeps(s, c);
    SendInOrder(s, c);
    var t := Send(s, c);
    forall m | m in t.calls ensures t.calls[m].serial < |t.history| && t.calls[m].req == t.history[t.calls[m].serial] {
      if m in s.calls { assert t.calls[m] == s.calls[m]; }
    }
  }

  lemma IssueKeeps(s: RpcState, req: Request)
    requires Inv(s) && AtRest(s)
    ensures Inv(Issue(s, req)) && AtRest(Issue(s, req)) && Extends(s, Issue(s, req), [req])
  {
    var c := Call(|s.history|, req, 0xFF);
    var s' := s.(history := s.history + [req]);
    var q := s'.(queue := s.queue + [c]);
    EnqueueKeeps(s, req);
    if |s.calls| < SLOTS {
      assert q == s'.(queue := [c] + s'.queue);
      SendKeepsAll(s', c);
    }
  }

  lemma EnqueueKeeps(s: RpcState, req: Request)
    requires Inv(s)
    ensures Inv(s.(history := s.history + [req], queue := s.queue + [Call(|s.history|, req, 0xFF)]))
  {
    var h, q := s.history + [req], s.queue + [Call(|s.history|, req, 0xFF)];
    forall i | 0 <= i < |q| ensures Queued(q[i], |s.sent| + i, h) {
      if i < |s.queue| { assert Queued(s.queue[i], |s.sent| + i, s.history); }
    }
  }

  /** `t` is `s` with `reqs` asked for and nothing ended; no call lost its slot. */
  ghost predicate Extends(s: RpcState, t: RpcState, reqs: seq<Request>) {
    && t.history == s.history + reqs && t.answered == s.answered && t.timedOut == s.timedOut
    && forall m :: m in s.calls ==> m in t.calls && t.calls[m] == s.calls[m]
  }

  lemma ExtendsSnoc(s: RpcState, t: RpcState, u: RpcState, reqs: seq<Request>)
    requires reqs != [] && Extends(s, t, reqs[..|reqs| - 1]) && Extends(t, u, [reqs[|reqs| - 1]])
    ensures Extends(s, u, reqs)
  {
    var n := |reqs| - 1;
    assert s.history + reqs == (s.history + reqs[..n]) + [reqs[n]];
  }

  /** Nothing a listener issues disturbs the calls already holding a slot. */
  lemma {:induction false} IssueAllKeeps(s: RpcState, reqs: seq<Request>)
    requires Inv(s) && AtRest(s)
    ensures Inv(IssueAll(s, reqs)) && AtRest(IssueAll(s, reqs)) && Extends(s, IssueAll(s, reqs), reqs)
  {
    if reqs == [] {
      assert s.history + reqs == s.history;
    } else {
      var n := |reqs| - 1;
      var t := IssueAll(s, reqs[..n]);
      IssueAllKeeps(s, reqs[..n]);
      IssueKeeps(t, reqs[n]);
      ExtendsSnoc(s, t, Issue(t, reqs[n]), reqs);
    }
  }

  /** Serving the queue restores "a call waits only if all ids are in use". */
  lemma {:induction false} DrainKeeps(s: RpcState)
    requires Inv(s)
    ensures Inv(Drain(s)) && AtRest(Drain(s))
    decreases |s.queue|
  {
    if s.queue != [] && |s.calls| < SLOTS {
      var r := s.(queue := s.queue[1..]);
      assert s == r.(queue := [s.queue[0]] + r.queue);
      SendKeepsAll(r, s.queue[0]);
      DrainKeeps(Send(r, s.queue[0]));
    }
  }

  lemma EraseDistinct(calls: map<nat, Call>, mtid: nat)
    requires SerialsDistinct(calls) && mtid in calls
    ensures SerialsDistinct(calls - {mtid})
    ensures forall m :: m in calls - {mtid} ==> calls[m].serial != calls[mtid].serial
    ensures |calls - {mtid}| == |calls| - 1
  {
    assert (calls - {mtid}).Keys == calls.Keys - {mtid};
    assert |calls - {mtid}| == |(calls - {mtid}).Keys| && |calls| == |calls.Keys|;
  }

  lemma EraseAccounted(s: RpcState, mtid: nat, replied: bool)
    requires SlotsOk(s) && Accounted(s) && mtid in s.calls
    ensures SlotsOk(Erase(s, mtid, replied)) && Accounted(Erase(s, mtid, replied))
  {
    EraseDistinct(s.calls, mtid);
    var c := s.calls[mtid].serial;
    if replied {
      assert |s.answered + {c}| == |s.answered| + 1;
    } else {
      assert |s.timedOut + {c}| == |s.timedOut| + 1;
    }
  }

  lemma EraseOrder(s: RpcState, mtid: nat, replied: bool)
    requires InOrder(s) && RequestsKept(s) && mtid in s.calls
    ensures InOrder(Erase(s, mtid, replied)) && RequestsKept(Erase(s, mtid, replied))
  {
    var t := Erase(s, mtid, replied);
    assert t.sent == s.sent && t.queue == s.queue && t.history == s.history;
  }

  lemma EraseKeeps(s: RpcState, mtid: nat, replied: bool)
    requires Inv(s) && mtid in s.calls
    ensures Inv(Erase(s, mtid, replied))
  {
    EraseAccounted(s, mtid, replied);
    EraseOrder(s, mtid, replied);
  }

  ghost function Ended(s: RpcState): set<nat> { s.answered + s.timedOut }

  /** What the end of call `i` does to the history: `r` is asked for and `i` has ended. */
  ghost predicate CallEnds(s: RpcState, t: RpcState, i: nat, r: seq<Request>) {
    && t.history == s.history + r
    && Ended(t) == Ended(s) + {i}
    && i < |s.history| && i !in Ended(s)
    && forall k :: k in Ended(s) ==> k < |s.history|
  }

  /** A call holding a slot: its request is in the history and it has not ended. */
  lemma ActiveCall(s: RpcState, mtid: nat)
    requires Inv(s) && mtid in s.calls
    ensures var c := s.calls[mtid];
            c.serial < |s.history| && s.history[c.serial] == c.req && c.serial !in Ended(s)
  {
  }

  lemma EndedInHistory(s: RpcState)
    requires Inv(s)
    ensures forall i :: i in Ended(s) ==> i < |s.history|
  {
  }

  lemma {:induction false} DrainLog(s: RpcState)
    ensures Drain(s).history == s.history && Drain(s).answered == s.answered && Drain(s).timedOut == s.timedOut
    decreases |s.queue|
  {
    if s.queue != [] && |s.calls| < SLOTS { DrainLog(Send(s.(queue := s.queue[1..]), s.queue[0])); }
  }

  lemma EraseLog(s: RpcState, mtid: nat, replied: bool)
    requires mtid in s.calls
    ensures Erase(s, mtid, replied).history == s.history
    ensures Ended(Erase(s, mtid, replied)) == Ended(s) + {s.calls[mtid].serial}
  {
  }

  lemma FinishEnds(s: RpcState, mtid: nat, nested: seq<Request>, replied: bool)
    requires Inv(s) && AtRest(s) && mtid in s.calls
    ensures CallEnds(s, Finish(s, mtid, nested, replied), s.calls[mtid].serial, nested)
  {
    IssueAllKeeps(s, nested);
    ActiveCall(s, mtid);
    EndedInHistory(s);
    FinishLog(s, mtid, nested, replied);
  }

  lemma FinishLog(s: RpcState, mtid: nat, nested: seq<Request>, replied: bool)
    requires mtid in s.calls && Extends(s, IssueAll(s, nested), nested)
    ensures Finish(s, mtid, nested, replied).history == s.history + nested
    ensures Ended(Finish(s, mtid, nested, replied)) == Ended(s) + {s.calls[mtid].serial}
  {
    var t := IssueAll(s, nested);
    EraseLog(t, mtid, replied);
    DrainLog(Erase(t, mtid, replied));
  }

  lemma FinishKeeps(s: RpcState, mtid: nat, nested: seq<Request>, replied: bool)
    requires Inv(s) && AtRest(s) && mtid in s.calls
    ensures Inv(Finish(s, mtid, nested, replied)) && AtRest(Finish(s, mtid, nested, replied))
  {
    IssueAllKeeps(s, nested);
    var t := IssueAll(s, nested);
    EraseKeeps(t, mtid, replied);
    DrainKeeps(Erase(t, mtid, replied));
  }

  lemma StepKeeps(s: RpcState, e: Event)
    requires Inv(s) && AtRest(s)
    ensures Inv(Step(s, e)) && AtRest(Step(s, e))
  {
    match e
    case NewCall(req) => IssueKeeps(s, req);
    case Response(m, nested) => if m in s.calls { FinishKeeps(s, m, nested, true); }
    case Timeout(m, nested) => LateKeeps(s, m, nested);
  }

  lemma LateKeeps(s: RpcState, mtid: nat, nested: seq<Request>)
    requires Inv(s) && AtRest(s)
    ensures Inv(LateOrNot(s, mtid, nested)) && AtRest(LateOrNot(s, mtid, nested))
  {
    var t := IssueAll(s, nested);
    IssueAllKeeps(s, nested);
    if mtid in t.calls {
      EraseKeeps(t, mtid, false);
      DrainKeeps(Erase(t, mtid, false));
    } else {
      DrainKeeps(t);
    }
  }

  /** What a timer does to the history: the call that has the id once the nested calls are made is the one that
      ends, if there is one. */
  lemma LateEnds(s: RpcState, mtid: nat, nested: seq<Request>) returns (i: nat)
    requires Inv(s) && AtRest(s)
    ensures var t, u := IssueAll(s, nested), LateOrNot(s, mtid, nested);
            && u.history == s.history + nested
            && if mtid in t.calls
               then i < |u.history| && i !in Ended(s) && Ended(u) == Ended(s) + {i}
                    && u.history[i] == t.calls[mtid].req && i == t.calls[mtid].serial
               else i == |u.history| && Ended(u) == Ended(s)
  {
    var t := IssueAll(s, nested);
    IssueAllKeeps(s, nested);
    if mtid in t.calls {
      ActiveCall(t, mtid);
      EraseLog(t, mtid, false);
      DrainLog(Erase(t, mtid, false));
      i := t.calls[mtid].serial;
    } else {
      DrainLog(t);
      i := |t.history|;
    }
  }

  /** Over every run, with listeners issuing calls from inside any callback: ids are not reused
      while active, calls go out in the order they were asked for, none is lost, and a call waits
      only while all 256 ids are taken. */
  lemma {:induction false} RunKeeps(next: nat, es: seq<Event>)
    requires next < SLOTS
    ensures Inv(Run(Start(next), es)) && AtRest(Run(Start(next), es))
  {
    if es != [] {
      var n := |es| - 1;
      RunKeeps(next, es[..n]);
      StepKeeps(Run(Start(next), es[..n]), es[n]);
    }
  }

  // ---- what the invariant says about single calls ----

  ghost predicate IsActive(s: RpcState, serial: nat) {
    exists m :: m in s.calls && s.calls[m].serial == serial
  }

  ghost predicate IsQueued(s: RpcState, serial: nat) {
    exists i :: 0 <= i < |s.queue| && s.queue[i].serial == serial
  }

  lemma {:induction false} SerialCount(calls: map<nat, Call>) returns (a: set<nat>)
    requires SerialsDistinct(calls)
    ensures |a| == |calls|
    ensures forall i :: i in a <==> exists m :: m in calls && calls[m].serial == i
    decreases |calls|
  {
    if calls == map[] { return {}; }
    var m :| m in calls;
    EraseDistinct(calls, m);
    var b := SerialCount(calls - {m});
    a := b + {calls[m].serial};
    forall i | i in a ensures exists n :: n in calls && calls[n].serial == i {
      if i in b { var n :| n in calls - {m} && (calls - {m})[n].serial == i; assert calls[n].serial == i; }
    }
    forall n | n in calls ensures calls[n].serial in a {
      if n != m { assert n in calls - {m} && (calls - {m})[n].serial == calls[n].serial; }
    }
  }

  lemma SentCallFate(s: RpcState, serial: nat)
    requires SlotsOk(s) && Accounted(s) && serial < |s.sent|
    ensures IsActive(s, serial) || serial in s.answered || serial in s.timedOut
  {
    var a := SerialCount(s.calls);
    forall x | x in a ensures x < |s.sent| && x !in s.answered + s.timedOut {
      var m :| m in s.calls && s.calls[m].serial == x;
    }
    var ended := s.answered + s.timedOut;
    assert |ended| == |s.answered| + |s.timedOut|;
    assert |a + ended| == |a| + |ended|;
    Pigeonhole(|s.sent|, a + ended);
    assert serial in a + ended;
  }

  lemma QueuedFate(s: RpcState, serial: nat)
    requires InOrder(s) && serial < |s.history|
    ensures IsQueued(s, serial) <==> serial >= |s.sent|
  {
    if serial >= |s.sent| {
      assert Queued(s.queue[serial - |s.sent|], serial, s.history);
    }
    if IsQueued(s, serial) {
      var i :| 0 <= i < |s.queue| && s.queue[i].serial == serial;
      assert Queued(s.queue[i], |s.sent| + i, s.history);
    }
  }

  /** No call is lost: each one ever asked for is queued, active, answered or timed out, and in only
      one of these states. */
  lemma NoCallLost(s: RpcState, serial: nat)
    requires Inv(s) && serial < |s.history|
    ensures IsQueued(s, serial) || IsActive(s, serial) || serial in s.answered || serial in s.timedOut
    ensures IsQueued(s, serial) ==> !IsActive(s, serial) && serial !in s.answered + s.timedOut
    ensures IsActive(s, serial) ==> serial !in s.answered + s.timedOut
    ensures |s.history| == |s.calls| + |s.queue| + |s.answered| + |s.timedOut|
  {
    QueuedFate(s, serial);
    if serial < |s.sent| { SentCallFate(s, serial); }
  }

  /** A new call is queued if and only if all ids are in use, and it is sent at once otherwise; no other call is
      affected. */
  lemma NewCallIsSentOrQueued(s: RpcState, req: Request)
    requires Inv(s) && AtRest(s)
    ensures var t := Step(s, NewCall(req));
            && Extends(s, t, [req])
            && if forall m: nat :: m < SLOTS ==> m in s.calls
               then t.sent == s.sent && IsQueued(t, |s.history|)
               else t.sent == s.sent + [|s.history|] && IsActive(t, |s.history|)
  {
    IssueKeeps(s, req);
    assert |s.calls| == |s.calls.Keys|;
    Pigeonhole(SLOTS, s.calls.Keys);
    assert (forall m: nat :: m < SLOTS ==> m in s.calls) <==> (forall m: nat :: m < SLOTS ==> m in s.calls.Keys);
    var t := Issue(s, req);
    if |s.calls| < SLOTS {
      var m := Probe(s.calls.Keys, s.next, 0);
      assert t.calls[m].serial == |s.history|;
    } else {
      assert t.queue[|s.queue|].serial == |s.history|;
    }
  }

  lemma {:induction false} IssueAllWhenFull(s: RpcState, reqs: seq<Request>)
    requires |s.calls| == SLOTS
    ensures var t := IssueAll(s, reqs);
            t.calls == s.calls && t.sent == s.sent && s.queue <= t.queue && t.next == s.next
  {
    if reqs != [] { IssueAllWhenFull(s, reqs[..|reqs| - 1]); }
  }

  /** Progress of the queue: every call that ends sends exactly one waiting call, the oldest. */
  lemma EndServesOldest(s: RpcState, mtid: nat, nested: seq<Request>, replied: bool)
    requires Inv(s) && AtRest(s) && mtid in s.calls && s.queue != []
    ensures var t := Finish(s, mtid, nested, replied);
            && t.sent == s.sent + [s.queue[0].serial]
            && IsActive(t, s.queue[0].serial)
            && s.queue[1..] <= t.queue
  {
    IssueAllWhenFull(s, nested);
    var i := IssueAll(s, nested);
    var u := Erase(i, mtid, replied);
    assert Inv(u) by {
      IssueAllKeeps(s, nested);
      EraseKeeps(i, mtid, replied);
    }
    EraseDistinct(s.calls, mtid);
    DrainOne(u);
  }

  lemma DrainOne(u: RpcState)
    requires Inv(u) && u.queue != [] && |u.calls| == SLOTS - 1
    ensures Drain(u).sent == u.sent + [u.queue[0].serial] && Drain(u).queue == u.queue[1..]
    ensures IsActive(Drain(u), u.queue[0].serial)
  {
    var r := u.(queue := u.queue[1..]);
    var t := Send(r, u.queue[0]);
    assert u == r.(queue := [u.queue[0]] + r.queue);
    SendKeepsAll(r, u.queue[0]);
    assert Drain(u) == Drain(t) == t;
    assert t.calls[Probe(r.calls.Keys, r.next, 0)].serial == u.queue[0].serial;
  }

  /** From `s` to `t` call `i` has ended, answered or timed out, `nested` was asked for, and with a queue the oldest
      waiting call was sent. */
  ghost predicate EndsAs(s: RpcState, t: RpcState, i: nat, nested: seq<Request>, replied: bool) {
    && CallEnds(s, t, i, nested) && !IsActive(t, i)
    && t.answered == s.answered + (if replied then {i} else {})
    && t.timedOut == s.timedOut + (if replied then {} else {i})
    && (s.queue != [] ==>
          t.sent == s.sent + [s.queue[0].serial] && IsActive(t, s.queue[0].serial) && s.queue[1..] <= t.queue)
  }

  lemma FinishEndsAs(s: RpcState, mtid: nat, nested: seq<Request>, replied: bool)
    requires Inv(s) && AtRest(s) && mtid in s.calls
    ensures EndsAs(s, Finish(s, mtid, nested, replied), s.calls[mtid].serial, nested, replied)
  {
    FinishEnds(s, mtid, nested, replied);
    FinishKeeps(s, mtid, nested, replied);
    assert Extends(s, IssueAll(s, nested), nested) by { IssueAllKeeps(s, nested); }
    FinishSorts(s, mtid, nested, replied);
    NotActive(Finish(s, mtid, nested, replied), s.calls[mtid].serial);
    if s.queue != [] { EndServesOldest(s, mtid, nested, replied); }
  }

  lemma NotActive(s: RpcState, serial: nat)
    requires Inv(s) && serial < |s.history| && serial in Ended(s)
    ensures !IsActive(s, serial)
  {
    NoCallLost(s, serial);
  }

  lemma FinishSorts(s: RpcState, mtid: nat, nested: seq<Request>, replied: bool)
    requires mtid in s.calls && Extends(s, IssueAll(s, nested), nested)
    ensures var t, i := Finish(s, mtid, nested, replied), s.calls[mtid].serial;
            && t.answered == s.answered + (if replied then {i} else {})
            && t.timedOut == s.timedOut + (if replied then {} else {i})
  {
    DrainLog(Erase(IssueAll(s, nested), mtid, replied));
  }

  /** A response to an active call ends just this call, as answered; one to no call changes nothing. */
  lemma ResponseEnds(s: RpcState, mtid: nat, nested: seq<Request>)
    requires Inv(s) && AtRest(s)
    ensures var t := Step(s, Response(mtid, nested));
            if mtid in s.calls then EndsAs(s, t, s.calls[mtid].serial, nested, true) else t == s
  {
    if mtid in s.calls { FinishEndsAs(s, mtid, nested, true); }
  }

  /** The time-out of an active call ends just this call, as timed out; a late one ends the call that has the id once
      the listeners have made theirs, if there is one. */
  lemma TimeoutEnds(s: RpcState, mtid: nat, nested: seq<Request>)
    requires Inv(s) && AtRest(s)
    ensures var t, u := Step(s, Timeout(mtid, nested)), IssueAll(s, nested);
            if mtid in s.calls then EndsAs(s, t, s.calls[mtid].serial, nested, false)
            else t.history == s.history + nested && t.answered == s.answered
                 && t.timedOut == s.timedOut + (if mtid in u.calls then {u.calls[mtid].serial} else {})
  {
    if mtid in s.calls {
      FinishEndsAs(s, mtid, nested, false);
    } else {
      var u := IssueAll(s, nested);
      IssueAllKeeps(s, nested);
      DrainLog(if mtid in u.calls then Erase(u, mtid, false) else u);
    }
  }

  // ---- the server itself ----

  /** The scan of `doCall`: from `next` on, wrapping like a Uint8; coming back to the start means
      that all ids are in use. */
  method ScanIds(busy: set<nat>, next: nat) returns (id: nat, full: bool)
    requires next < SLOTS && forall m :: m in busy ==> m < SLOTS
    ensures id < SLOTS && (full <==> |busy| == SLOTS)
    ensures if full then id == next else id == Probe(busy, next, 0) && id !in busy
  {
    Pigeonhole(SLOTS, busy);
    id := next;
    ghost var k: nat := 0;
    while id in busy
      invariant k < SLOTS && id == Slot(next, k)
      invariant forall j :: 0 <= j < k ==> Slot(next, j) in busy
      decreases SLOTS - k
    {
      SlotStep(next, k);
      id := (id + 1) % SLOTS;
      k := k + 1;
      if id == next {
        forall m: nat | m < SLOTS ensures m in busy {
          SlotsCover(next, m);
          var j :| 0 <= j < SLOTS && Slot(next, j) == m;
        }
        return next, true;
      }
    }
    ProbeFrom(busy, next, 0, k);
    full := false;
  }

  /** The scan of `doQueuedCalls` has no such check: it ends because an id is free. */
  method ScanFreeId(busy: set<nat>, next: nat) returns (id: nat)
    requires next < SLOTS && (forall m :: m in busy ==> m < SLOTS) && |busy| < SLOTS
    ensures id == Probe(busy, next, 0) && id !in busy
  {
    ghost var free := FreeSlotAhead(busy, next);
    id := next;
    ghost var k: nat := 0;
    while id in busy
      invariant k <= free && id == Slot(next, k)
      invariant forall j :: 0 <= j < k ==> Slot(next, j) in busy
      decreases free - k
    {
      SlotStep(next, k);
      id := (id + 1) % SLOTS;
      k := k + 1;
    }
    ProbeFrom(busy, next, 0, k);
  }

  /** The server.  `log` records the history; every method takes it through the steps above, so
      what `RunKeeps` says of runs holds of this object. */
  class RpcServer {
    var calls: map<nat, Call>
    var callQueue: seq<Call>
    var nextMtid: nat
    var created: nat
    ghost var log: RpcState

    ghost predicate Valid()
      reads this
    {
      && log.calls == calls && log.queue == callQueue && log.next == nextMtid && |log.history| == created
      && nextMtid < SLOTS && forall m :: m in calls ==> m < SLOTS
    }

    constructor (mtid: nat)
      requires mtid < SLOTS
      ensures Valid() && log == Start(mtid)
    {
      calls, callQueue, nextMtid, created := map[], [], mtid, 0;
      log := Start(mtid);
    }

    method DoCall(req: Request) returns (c: Call)
      requires Valid()
      modifies this
      ensures Valid() && log == Issue(old(log), req)
      ensures c.serial == |old(log).history| && c.req == req
    {
      assert |calls| == |calls.Keys|;
      var id, full := ScanIds(calls.Keys, nextMtid);
      log := Issue(log, req);
      c := Call(created, req, 0xFF);
      created := created + 1;
      if full {
        callQueue := callQueue + [c];
        return;
      }
      nextMtid := (id + 1) % SLOTS;
      c := c.(mtid := id);
      calls := calls[id := c];
    }

    /** Serve the queue while ids are free. */
    method DoQueuedCalls()
      requires Valid()
      modifies this
      ensures Valid() && log == Drain(old(log))
    {
      while |callQueue| > 0 && |calls| < SLOTS
        invariant Valid() && Drain(log) == Drain(old(log))
        decreases |callQueue|
      {
        SendFirst();
      }
      assert |calls| == |calls.Keys|;
      Pigeonhole(SLOTS, calls.Keys);
    }

    /** The body of its loop. */
    method SendFirst()
      requires Valid() && |callQueue| > 0 && |calls| < SLOTS
      modifies this
      ensures Valid() && log == Send(old(log).(queue := old(callQueue)[1..]), old(callQueue)[0])
      ensures |callQueue| == |old(callQueue)| - 1
    {
      var c := callQueue[0];
      callQueue := callQueue[1..];
      assert |calls| == |calls.Keys|;
      var id := ScanFreeId(calls.Keys, nextMtid);
      ProbeIsFree(calls.Keys, nextMtid);
      log := Send(log.(queue := log.queue[1..]), c);
      calls := calls[id := c.(mtid := id)];
      nextMtid := (id + 1) % SLOTS;
    }

    /** The response branch of `readPacket`, `nested` being the calls that the routing table and the
        listeners make while the message is applied. */
    method OnResponse(mtid: nat, nested: seq<Request>)
      requires Valid()
      modifies this
      ensures Valid() && log == Step(old(log), Response(mtid, nested))
    {
      if mtid in calls {
        CallListeners(nested);
        EndCall(mtid, true);
      }
    }

    /** `RPCCall::onTimeout` of a call with this id: the listeners first, then `timedOut`. */
    method OnTimeout(mtid: nat, nested: seq<Request>)
      requires Valid()
      modifies this
      ensures Valid() && log == Step(old(log), Timeout(mtid, nested))
    {
      CallListeners(nested);
      EndCall(mtid, false);
    }

    /** Free the slot and serve the queue: the tail of the response branch, and `timedOut`. */
    method EndCall(mtid: nat, replied: bool)
      requires Valid()
      modifies this
      ensures Valid()
      ensures log == if mtid in old(log).calls then Drain(Erase(old(log), mtid, replied)) else Drain(old(log))
    {
      if mtid in calls {
        log := Erase(log, mtid, replied);
        calls := calls - {mtid};
      }
      DoQueuedCalls();
    }

    method CallListeners(nested: seq<Request>)
      requires Valid()
      modifies this
      ensures Valid() && log == IssueAll(old(log), nested)
      ensures forall m :: m in old(calls) ==> m in calls
    {
      var i := 0;
      while i < |nested|
        invariant i <= |nested|
        invariant Valid() && log == IssueAll(old(log), nested[..i])
        invariant forall m :: m in old(calls) ==> m in calls
      {
        assert nested[..i + 1][..i] == nested[..i];
        var _ := DoCall(nested[i]);
        i := i + 1;
      }
      assert nested[..i] == nested;
    }
  }
}
