/** The tasks and the RPC server together: a task's requests are calls of the server, and the
    server's responses and time-outs are the events of the tasks
    (libktorrent/kademlia/rpccall.cpp:53-76, task.cpp:42-99, rpcserver.cpp:120-226). */
module DhtSystem {
  import opened Keys
  import opened Contacts
  import opened Tasks
  import opened Rpc

  datatype Task = LookupTask(l: Lookup) | AnnounceTask(a: Announce) {
    function Queries(): Queries { if LookupTask? then l.q else a.q }
    predicate Finished() { if LookupTask? then l.finished else a.finished }
    predicate Waiting() { if LookupTask? then l.queued else a.queued }

    /** How many requests the task has made. */
    function Asked(): nat { if LookupTask? then |l.q.visited| else |a.q.visited| + |a.announced| }

    ghost predicate Inv() { if LookupTask? then LookupInv(l) else AnnounceInv(a) }

    /** The most requests it can make among `n` contacts. */
    function Budget(n: nat): nat { if LookupTask? then n else n + K }

    /** The requests that take the task from `this` to `t`. */
    function NewRequests(t: Task, id: nat): seq<Request> {
      if LookupTask? && t.LookupTask? && |l.q.visited| <= |t.l.q.visited| then
        AskAll(FindNode, t.l.q.visited[|l.q.visited|..], id)
      else if AnnounceTask? && t.AnnounceTask?
              && |a.announced| <= |t.a.announced| && |a.q.visited| <= |t.a.q.visited| then
        AskAll(AnnouncePeer, t.a.announced[|a.announced|..], id) + AskAll(GetPeers, t.a.q.visited[|a.q.visited|..], id)
      else []
    }

    function OnResponse(ourId: Key, reply: Reply): Task {
      if LookupTask? then LookupTask(LookupOnResponse(l, ourId, reply)) else AnnounceTask(AnnounceOnResponse(a, reply))
    }

    function OnTimeout(): Task {
      if LookupTask? then LookupTask(LookupOnTimeout(l)) else AnnounceTask(AnnounceOnTimeout(a))
    }

    function OnStart(): Task {
      if LookupTask? then LookupTask(LookupStartQueued(l)) else AnnounceTask(AnnounceStartQueued(a))
    }

    function OnResolved(e: Contact): Task {
      if LookupTask? then LookupTask(l.(q := Resolve(l.q, e, l.finished)))
      else AnnounceTask(a.(q := Resolve(a.q, e, a.finished)))
    }
  }

  function AskAll(kind: Method, cs: seq<Contact>, id: nat): seq<Request> {
    seq(|cs|, i requires 0 <= i < |cs| => Request(kind, cs[i].addr, TaskListener(id)))
  }

  function Pings(addrs: seq<Address>): seq<Request> {
    seq(|addrs|, i requires 0 <= i < |addrs| => Request(Ping, addrs[i], NoListener))
  }

  /** A response is parsed by the method of the call it answers. */
  function Parsed(kind: Method, reply: Reply): Reply {
    match kind
    case FindNode => if reply.FoundNodes? then reply else OtherReply
    case GetPeers => if reply.PeersNodes? || reply.PeersValues? then reply else OtherReply
    case _ => OtherReply
  }

  datatype Sys = Sys(server: RpcState, tasks: seq<Task>, ourId: Key)

  /** Calls made by the routing table while a message is applied, and tasks it starts, come before
      the listeners run: they are `PingNode` and `NewTask` events.  `pings` are the calls a bucket
      makes as listener.  `Late` is the timer of call `serial`, which has ended: nothing stops the timer of an
      answered call until the call is deleted. */
  datatype SysEvent =
    | NewLookup(contacts: seq<Contact>, queued: bool)
    | NewAnnounce(contacts: seq<Contact>, queued: bool)
    | StartTask(task: nat)
    | Resolved(task: nat, e: Contact)
    | PingNode(addr: Address)
    | Answer(mtid: nat, reply: Reply, pings: seq<Address>)
    | Expire(mtid: nat, pings: seq<Address>)
    | Late(mtid: nat, serial: nat, pings: seq<Address>)

  function AddTask(s: Sys, empty: Task, t: Task): Sys {
    Sys(IssueAll(s.server, empty.NewRequests(t, |s.tasks|)), s.tasks + [t], s.ourId)
  }

  function MoveTask(s: Sys, id: nat, t: Task): Sys
    requires id < |s.tasks|
  {
    Sys(IssueAll(s.server, s.tasks[id].NewRequests(t, id)), s.tasks[id := t], s.ourId)
  }

  /** What a task becomes that is told of a response, or of a time-out. */
  function Next(t: Task, ourId: Key, replied: bool, reply: Reply): Task {
    if replied then t.OnResponse(ourId, reply) else t.OnTimeout()
  }

  /** Listener `l` is told: the tasks then, and the calls it makes. */
  function Tell(s: Sys, l: Listener, replied: bool, reply: Reply, pings: seq<Address>): (seq<Task>, seq<Request>) {
    if l.TaskListener? && l.task < |s.tasks| then
      var t := Next(s.tasks[l.task], s.ourId, replied, reply);
      (s.tasks[l.task := t], s.tasks[l.task].NewRequests(t, l.task))
    else (s.tasks, Pings(pings))
  }

  /** An active call ends, and its listener is told. */
  function EndCall(s: Sys, mtid: nat, replied: bool, pings: seq<Address>, reply: Reply): Sys
    requires mtid in s.server.calls
  {
    var c := s.server.calls[mtid];
    var (tasks, r) := Tell(s, c.req.listener, replied, Parsed(c.req.kind, reply), pings);
    Sys(Finish(s.server, mtid, r, replied), tasks, s.ourId)
  }

  /** A late timer tells `l` once more and ends whichever call has the id by then. */
  function LateTimer(s: Sys, mtid: nat, l: Listener, pings: seq<Address>): Sys {
    var (tasks, r) := Tell(s, l, false, OtherReply, pings);
    Sys(LateOrNot(s.server, mtid, r), tasks, s.ourId)
  }

  predicate HasEnded(s: Sys, serial: nat) {
    serial < |s.server.history| && serial in s.server.answered + s.server.timedOut
  }

  function SysStep(s: Sys, e: SysEvent): Sys {
    match e
    case NewLookup(cs, queued) =>
      AddTask(s, LookupTask(LookupStart(cs, true)), LookupTask(LookupStart(cs, queued)))
    case NewAnnounce(cs, queued) =>
      AddTask(s, AnnounceTask(AnnounceStart(cs, true)), AnnounceTask(AnnounceStart(cs, queued)))
    case StartTask(id) =>
      if id < |s.tasks| then MoveTask(s, id, s.tasks[id].OnStart()) else s
    case Resolved(id, e) => if id < |s.tasks| then MoveTask(s, id, s.tasks[id].OnResolved(e)) else s
    case PingNode(a) => s.(server := Issue(s.server, Request(Ping, a, NoListener)))
    case Answer(m, reply, pings) => if m in s.server.calls then EndCall(s, m, true, pings, reply) else s
    case Expire(m, pings) => if m in s.server.calls then EndCall(s, m, false, pings, OtherReply) else s
    case Late(m, serial, pings) =>
      if HasEnded(s, serial) then LateTimer(s, m, s.server.history[serial].listener, pings) else s
  }

  function SysRun(s: Sys, es: seq<SysEvent>): Sys {
    if es == [] then s else SysStep(SysRun(s, es[..|es| - 1]), es[|es| - 1])
  }

  // ---- counting calls by listener ----

  function Count(h: seq<Request>, l: Listener): nat {
    if h == [] then 0 else Count(h[..|h| - 1], l) + if h[|h| - 1].listener == l then 1 else 0
  }

  /** Calls of a listener that have not ended: active or still queued. */
  ghost function LiveCount(h: seq<Request>, ended: set<nat>, l: Listener): nat {
    if h == [] then 0 else
      LiveCount(h[..|h| - 1], ended, l) + if h[|h| - 1].listener == l && |h| - 1 !in ended then 1 else 0
  }

  lemma {:induction false} CountAppend(h: seq<Request>, r: seq<Request>, l: Listener)
    ensures Count(h + r, l) == Count(h, l) + Count(r, l)
  {
    if r == [] {
      assert h + r == h;
    } else {
      var n := |r| - 1;
      assert (h + r)[..|h + r| - 1] == h + r[..n];
      CountAppend(h, r[..n], l);
    }
  }

  lemma {:induction false} LiveAppend(h: seq<Request>, r: seq<Request>, ended: set<nat>, l: Listener)
    requires forall i :: i in ended ==> i < |h|
    ensures LiveCount(h + r, ended, l) == LiveCount(h, ended, l) + Count(r, l)
  {
    if r == [] {
      assert h + r == h;
    } else {
      var n := |r| - 1;
      assert (h + r)[..|h + r| - 1] == h + r[..n];
      LiveAppend(h, r[..n], ended, l);
    }
  }

  lemma {:induction false} LiveEnd(h: seq<Request>, ended: set<nat>, i: nat, l: Listener)
    requires i < |h| && i !in ended
    ensures LiveCount(h, ended, l) == LiveCount(h, ended + {i}, l) + if h[i].listener == l then 1 else 0
  {
    var n := |h| - 1;
    if i == n { LiveUnaffected(h[..n], ended, i, l); } else { LiveEnd(h[..n], ended, i, l); }
  }

  lemma {:induction false} LiveUnaffected(h: seq<Request>, ended: set<nat>, i: nat, l: Listener)
    requires i >= |h|
    ensures LiveCount(h, ended, l) == LiveCount(h, ended + {i}, l)
  {
    if h != [] { LiveUnaffected(h[..|h| - 1], ended, i, l); }
  }

  lemma {:induction false} LiveWitness(h: seq<Request>, ended: set<nat>, l: Listener) returns (i: nat)
    requires LiveCount(h, ended, l) >= 1
    ensures i < |h| && h[i].listener == l && i !in ended
  {
    i := |h| - 1;
    if h[i].listener != l || i in ended { i := LiveWitness(h[..i], ended, l); }
  }

  lemma {:induction false} CountUniform(r: seq<Request>, own: Listener, l: Listener)
    requires forall i :: 0 <= i < |r| ==> r[i].listener == own
    ensures Count(r, l) == if l == own then |r| else 0
  {
    if r != [] { CountUniform(r[..|r| - 1], own, l); }
  }

  // ---- what every step keeps ----

  /** Where the requests of this kind that report to `l` went, in order. */
  function Dests(h: seq<Request>, l: Listener, kind: Method): seq<Address> {
    if h == [] then [] else
      var last := h[|h| - 1];
      Dests(h[..|h| - 1], l, kind) + if last.listener == l && last.kind == kind then [last.dest] else []
  }

  function Addrs(cs: seq<Contact>): seq<Address> { seq(|cs|, i requires 0 <= i < |cs| => cs[i].addr) }

  /** The requests of a task are those it should make: a lookup sends find_node to whom it visited, in order, and
      nothing else; an announce sends get_peers to whom it visited and announce_peer to whom it announced. */
  ghost predicate Asks(t: Task, h: seq<Request>, l: Listener) {
    && Dests(h, l, Ping) == []
    && (t.LookupTask? ==> Dests(h, l, FindNode) == Addrs(t.l.q.visited)
                          && Dests(h, l, GetPeers) == [] && Dests(h, l, AnnouncePeer) == [])
    && (t.AnnounceTask? ==> Dests(h, l, GetPeers) == Addrs(t.a.q.visited)
                            && Dests(h, l, AnnouncePeer) == Addrs(t.a.announced) && Dests(h, l, FindNode) == [])
  }

  /** A task has made exactly the calls the server knows of. */
  ghost predicate TaskCounts(s: Sys, id: nat)
    requires id < |s.tasks|
  {
    && s.tasks[id].Inv() && s.tasks[id].Asked() == Count(s.server.history, TaskListener(id))
    && Asks(s.tasks[id], s.server.history, TaskListener(id))
  }

  lemma {:induction false} DestsAppend(h: seq<Request>, r: seq<Request>, l: Listener, kind: Method)
    ensures Dests(h + r, l, kind) == Dests(h, l, kind) + Dests(r, l, kind)
  {
    if r == [] {
      assert h + r == h;
    } else {
      var n := |r| - 1;
      assert (h + r)[..|h + r| - 1] == h + r[..n];
      DestsAppend(h, r[..n], l, kind);
    }
  }

  lemma {:induction false} DestsOfAsk(kind: Method, cs: seq<Contact>, id: nat, l: Listener, k: Method)
    ensures Dests(AskAll(kind, cs, id), l, k) == if l == TaskListener(id) && k == kind then Addrs(cs) else []
  {
    if cs != [] {
      var n := |cs| - 1;
      DestsOfAsk(kind, cs[..n], id, l, k);
      assert AskAll(kind, cs, id)[..n] == AskAll(kind, cs[..n], id);
      assert Addrs(cs) == Addrs(cs[..n]) + [cs[n].addr];
    }
  }

  lemma {:induction false} DestsHas(h: seq<Request>, i: nat)
    requires i < |h|
    ensures h[i].dest in Dests(h, h[i].listener, h[i].kind)
  {
    var n := |h| - 1;
    if i < n {
      assert h[..n][i] == h[i];
      DestsHas(h[..n], i);
    }
  }

  lemma {:induction false} DestsOthers(r: seq<Request>, own: Listener, l: Listener, kind: Method)
    requires own != l && forall i :: 0 <= i < |r| ==> r[i].listener == own
    ensures Dests(r, l, kind) == []
  {
    if r != [] { DestsOthers(r[..|r| - 1], own, l, kind); }
  }

  lemma AddrsTail(a: seq<Contact>, b: seq<Contact>)
    requires a <= b
    ensures Addrs(a) + Addrs(b[|a|..]) == Addrs(b)
  {
  }

  lemma LookupGrowthAsks(l: seq<Contact>, l': seq<Contact>, id: nat, k: Method)
    requires l <= l'
    ensures var r := AskAll(FindNode, l'[|l|..], id);
            Dests(r, TaskListener(id), k) == if k == FindNode then Addrs(l'[|l|..]) else []
  {
    DestsOfAsk(FindNode, l'[|l|..], id, TaskListener(id), k);
  }

  lemma AnnounceGrowthAsks(x: seq<Contact>, y: seq<Contact>, id: nat, k: Method)
    ensures var r := AskAll(AnnouncePeer, x, id) + AskAll(GetPeers, y, id);
            Dests(r, TaskListener(id), k) ==
            if k == AnnouncePeer then Addrs(x) else if k == GetPeers then Addrs(y) else []
  {
    DestsAppend(AskAll(AnnouncePeer, x, id), AskAll(GetPeers, y, id), TaskListener(id), k);
    DestsOfAsk(AnnouncePeer, x, id, TaskListener(id), k);
    DestsOfAsk(GetPeers, y, id, TaskListener(id), k);
  }

  /** What a task asks for when it grows takes its requests from the right ones to the right ones. */
  lemma GrowthAsks(t: Task, t': Task, h: seq<Request>, id: nat)
    requires Grows(t, t') && Asks(t, h, TaskListener(id))
    ensures Asks(t', h + t.NewRequests(t', id), TaskListener(id))
  {
    if t.LookupTask? { LookupAsks(t.l, t'.l, h, id); } else { AnnounceAsks(t.a, t'.a, h, id); }
  }

  lemma LookupAsks(l: Lookup, l': Lookup, h: seq<Request>, id: nat)
    requires l.q.visited <= l'.q.visited && Asks(LookupTask(l), h, TaskListener(id))
    ensures Asks(LookupTask(l'), h + AskAll(FindNode, l'.q.visited[|l.q.visited|..], id), TaskListener(id))
  {
    var r := AskAll(FindNode, l'.q.visited[|l.q.visited|..], id);
    AddrsTail(l.q.visited, l'.q.visited);
    forall k ensures Dests(h + r, TaskListener(id), k) == Dests(h, TaskListener(id), k)
                       + if k == FindNode then Addrs(l'.q.visited[|l.q.visited|..]) else []
    {
      LookupGrowthAsks(l.q.visited, l'.q.visited, id, k);
      DestsAppend(h, r, TaskListener(id), k);
    }
  }

  lemma AnnounceAsks(a: Announce, a': Announce, h: seq<Request>, id: nat)
    requires a.q.visited <= a'.q.visited && a.announced <= a'.announced && Asks(AnnounceTask(a), h, TaskListener(id))
    ensures Asks(AnnounceTask(a'), h + (AskAll(AnnouncePeer, a'.announced[|a.announced|..], id)
                                        + AskAll(GetPeers, a'.q.visited[|a.q.visited|..], id)), TaskListener(id))
  {
    var x, y := a'.announced[|a.announced|..], a'.q.visited[|a.q.visited|..];
    AddrsTail(a.announced, a'.announced);
    AddrsTail(a.q.visited, a'.q.visited);
    var r := AskAll(AnnouncePeer, x, id) + AskAll(GetPeers, y, id);
    forall k ensures Dests(h + r, TaskListener(id), k) == Dests(h, TaskListener(id), k)
                       + if k == AnnouncePeer then Addrs(x) else if k == GetPeers then Addrs(y) else []
    {
      AnnounceGrowthAsks(x, y, id, k);
      DestsAppend(h, r, TaskListener(id), k);
    }
  }

  lemma OthersAsk(t: Task, h: seq<Request>, r: seq<Request>, own: Listener, l: Listener)
    requires Asks(t, h, l) && own != l && forall i :: 0 <= i < |r| ==> r[i].listener == own
    ensures Asks(t, h + r, l)
  {
    forall k ensures Dests(h + r, l, k) == Dests(h, l, k) {
      DestsAppend(h, r, l, k);
      DestsOthers(r, own, l, k);
    }
  }

  ghost predicate ListenersKnown(s: Sys) {
    forall i :: 0 <= i < |s.server.history| && s.server.history[i].listener.TaskListener?
      ==> s.server.history[i].listener.task < |s.tasks|
  }

  ghost predicate SysCounts(s: Sys) {
    && Inv(s.server) && AtRest(s.server)
    && ListenersKnown(s)
    && forall id :: 0 <= id < |s.tasks| ==> TaskCounts(s, id)
  }

  /** The requests a task waits for, less its calls that the server still holds, active or queued. */
  ghost function Balance(s: Sys, id: nat): int
    requires id < |s.tasks|
  {
    s.tasks[id].Queries().outstanding - LiveCount(s.server.history, Ended(s.server), TaskListener(id))
  }

  ghost predicate SysInv(s: Sys) {
    SysCounts(s) && forall id :: 0 <= id < |s.tasks| ==> Balance(s, id) == 0
  }

  /** From `t` to `t'` the task only made further requests. */
  ghost predicate Grows(t: Task, t': Task) {
    && (t.LookupTask? <==> t'.LookupTask?)
    && t.Queries().visited <= t'.Queries().visited
    && (t.AnnounceTask? ==> t.a.announced <= t'.a.announced)
  }

  lemma NewRequestsCount(t: Task, t': Task, id: nat, l: Listener)
    requires Grows(t, t')
    ensures var r := t.NewRequests(t', id);
            && Count(r, l) == (if l == TaskListener(id) then t'.Asked() - t.Asked() else 0)
            && forall i :: 0 <= i < |r| ==> r[i].listener == TaskListener(id)
  {
    CountUniform(t.NewRequests(t', id), TaskListener(id), l);
  }

  /** A task that is told counts one request less, if it waits for any; if not, nothing changes. */
  function Charge(t: Task): nat { if t.Queries().outstanding > 0 then 1 else 0 }

  lemma ToldGrows(t: Task, ourId: Key, replied: bool, reply: Reply)
    requires t.Inv() && t.Asked() > 0
    ensures var t' := Next(t, ourId, replied, reply);
            t'.Inv() && Grows(t, t') && t'.Queries().ended == t.Queries().ended + Charge(t)
  {
    if t.Queries().outstanding > 0 {
      if t.LookupTask? {
        if replied { LookupResponseKeeps(t.l, ourId, reply); } else { LookupTimeoutKeeps(t.l); }
      } else {
        if replied { AnnounceResponseKeeps(t.a, reply); } else { AnnounceTimeoutKeeps(t.a); }
      }
    }
  }

  lemma StartGrows(t: Task)
    requires t.Inv()
    ensures t.OnStart().Inv() && Grows(t, t.OnStart()) && t.OnStart().Queries().ended == t.Queries().ended
  {
    if t.LookupTask? { LookupStartQueuedKeeps(t.l); } else { AnnounceStartQueuedKeeps(t.a); }
  }

  lemma ResolvedGrows(t: Task, e: Contact)
    requires t.Inv()
    ensures var t' := t.OnResolved(e);
            t'.Inv() && Grows(t, t') && t'.Queries().ended == t.Queries().ended
  {
    if t.LookupTask? { LookupResolveKeeps(t.l, e); } else { AnnounceResolveKeeps(t.a, e); }
  }

  lemma InvCounts(t: Task)
    requires t.Inv()
    ensures t.Asked() == t.Queries().ended + t.Queries().outstanding
  {
  }

  /** Only the task that listens as `own`, if any, changes; it asks for `r` and counts `charge` requests as ended. */
  ghost predicate TaskMoves(t: Task, t': Task, id: nat, own: Listener, charge: nat, r: seq<Request>) {
    if own == TaskListener(id) then
      t'.Inv() && Grows(t, t') && t'.Queries().ended == t.Queries().ended + charge && r == t.NewRequests(t', id)
    else t' == t
  }

  ghost predicate TasksMove(s: Sys, s': Sys, own: Listener, charge: nat, r: seq<Request>) {
    && |s'.tasks| == |s.tasks|
    && (forall k :: 0 <= k < |r| ==> r[k].listener == own)
    && (own.TaskListener? ==> own.task < |s.tasks|)
    && forall id :: 0 <= id < |s.tasks| ==> TaskMoves(s.tasks[id], s'.tasks[id], id, own, charge, r)
  }

  /** The log grows by `r`, and the call `i` of listener `holder` ends, if there is one (`i` at most the length
      of the log). */
  ghost predicate LogMoves(s: RpcState, t: RpcState, r: seq<Request>, i: nat, holder: Listener) {
    && t.history == s.history + r
    && (forall k :: k in Ended(s) ==> k < |s.history|)
    && if i < |t.history| then i !in Ended(s) && Ended(t) == Ended(s) + {i} && holder == t.history[i].listener
       else Ended(t) == Ended(s) && holder == NoListener
  }

  function One(b: bool): int { if b then 1 else 0 }

  /** The bookkeeping of one task across any event. */
  lemma MovesBalance(s: Sys, s': Sys, own: Listener, charge: nat, r: seq<Request>, i: nat, holder: Listener, id: nat)
    requires TasksMove(s, s', own, charge, r) && LogMoves(s.server, s'.server, r, i, holder)
    requires id < |s.tasks| && TaskCounts(s, id)
    ensures TaskCounts(s', id)
    ensures Balance(s', id) == Balance(s, id) + One(holder == TaskListener(id))
                             - if own == TaskListener(id) then charge else 0
  {
    var h, l := s.server.history, TaskListener(id);
    var t, t' := s.tasks[id], s'.tasks[id];
    CountAppend(h, r, l);
    LiveAppend(h, r, Ended(s.server), l);
    if i < |h + r| { LiveEnd(h + r, Ended(s.server), i, l); }
    CountUniform(r, own, l);
    assert TaskMoves(t, t', id, own, charge, r);
    InvCounts(t);
    if own == l {
      NewRequestsCount(t, t', id, l);
      InvCounts(t');
      GrowthAsks(t, t', h, id);
    } else {
      OthersAsk(t, h, r, own, l);
    }
  }

  lemma MovesKeep(s: Sys, s': Sys, own: Listener, charge: nat, r: seq<Request>, i: nat, holder: Listener)
    requires TasksMove(s, s', own, charge, r) && LogMoves(s.server, s'.server, r, i, holder)
    requires SysCounts(s) && Inv(s'.server) && AtRest(s'.server)
    ensures SysCounts(s')
    ensures forall id :: 0 <= id < |s.tasks| ==>
              Balance(s', id) == Balance(s, id) + One(holder == TaskListener(id))
                               - if own == TaskListener(id) then charge else 0
  {
    forall id | 0 <= id < |s.tasks|
      ensures TaskCounts(s', id)
      ensures Balance(s', id) == Balance(s, id) + One(holder == TaskListener(id))
                               - if own == TaskListener(id) then charge else 0
    {
      assert TaskCounts(s, id);
      MovesBalance(s, s', own, charge, r, i, holder, id);
    }
  }

  /** The log after some calls were asked for and none has ended. */
  lemma IssueMovesLog(s: RpcState, r: seq<Request>)
    requires Inv(s) && AtRest(s)
    ensures var t := IssueAll(s, r);
            Inv(t) && AtRest(t) && LogMoves(s, t, r, |t.history|, NoListener)
  {
    IssueAllKeeps(s, r);
    EndedInHistory(s);
  }

  ghost predicate SameBalances(s: Sys, s': Sys) {
    && |s.tasks| <= |s'.tasks|
    && (forall id :: 0 <= id < |s.tasks| ==> Balance(s', id) == Balance(s, id))
    && (forall id :: |s.tasks| <= id < |s'.tasks| ==> Balance(s', id) == 0)
  }

  lemma MoveKeeps(s: Sys, id: nat, t: Task)
    requires SysCounts(s) && id < |s.tasks|
    requires t.Inv() && Grows(s.tasks[id], t) && t.Queries().ended == s.tasks[id].Queries().ended
    ensures SysCounts(MoveTask(s, id, t)) && SameBalances(s, MoveTask(s, id, t))
  {
    var s', r := MoveTask(s, id, t), s.tasks[id].NewRequests(t, id);
    IssueMovesLog(s.server, r);
    NewRequestsCount(s.tasks[id], t, id, TaskListener(id));
    MovesKeep(s, s', TaskListener(id), 0, r, |s'.server.history|, NoListener);
  }

  lemma {:induction false} NobodyListens(h: seq<Request>, ended: set<nat>, l: Listener)
    requires forall i :: 0 <= i < |h| ==> h[i].listener != l
    ensures Count(h, l) == 0 && LiveCount(h, ended, l) == 0 && forall k :: Dests(h, l, k) == []
  {
    if h != [] { NobodyListens(h[..|h| - 1], ended, l); }
  }

  lemma AddKeeps(s: Sys, empty: Task, t: Task)
    requires SysCounts(s) && empty.Inv() && t.Inv() && Grows(empty, t)
    requires empty.Asked() == 0 && empty.Queries().ended == 0 && t.Queries().ended == 0
    ensures SysCounts(AddTask(s, empty, t)) && SameBalances(s, AddTask(s, empty, t))
  {
    var id := |s.tasks|;
    var mid := s.(tasks := s.tasks + [empty]);
    EmptyKeeps(s, empty);
    MoveKeeps(mid, id, t);
    assert mid.tasks[id := t] == s.tasks + [t];
    assert MoveTask(mid, id, t) == AddTask(s, empty, t);
  }

  lemma EmptyKeeps(s: Sys, empty: Task)
    requires SysCounts(s) && empty.Inv() && empty.Asked() == 0 && empty.Queries().ended == 0
    ensures var mid := s.(tasks := s.tasks + [empty]); SysCounts(mid) && SameBalances(s, mid)
  {
    var id, mid := |s.tasks|, s.(tasks := s.tasks + [empty]);
    NobodyListens(s.server.history, Ended(s.server), TaskListener(id));
    InvCounts(empty);
    assert TaskCounts(mid, id) by { assert Addrs([]) == []; }
    forall j | 0 <= j < id ensures TaskCounts(mid, j) && Balance(mid, j) == Balance(s, j) {
      assert mid.tasks[j] == s.tasks[j];
      SameTask(s, mid, j);
    }
  }

  lemma SameTask(s: Sys, s': Sys, id: nat)
    requires id < |s.tasks| && id < |s'.tasks| && s'.tasks[id] == s.tasks[id] && s'.server == s.server
    ensures (TaskCounts(s', id) <==> TaskCounts(s, id)) && Balance(s', id) == Balance(s, id)
  {
  }

  lemma PingKeeps(s: Sys, a: Address)
    requires SysCounts(s)
    ensures var s' := s.(server := Issue(s.server, Request(Ping, a, NoListener)));
            SysCounts(s') && SameBalances(s, s')
  {
    var req := Request(Ping, a, NoListener);
    var s' := s.(server := Issue(s.server, req));
    IssueKeeps(s.server, req);
    EndedInHistory(s.server);
    MovesKeep(s, s', NoListener, 0, [req], |s'.server.history|, NoListener);
  }

  lemma NewLookupKeeps(s: Sys, cs: seq<Contact>, queued: bool)
    requires SysCounts(s)
    ensures var s' := SysStep(s, NewLookup(cs, queued)); SysCounts(s') && SameBalances(s, s')
  {
    LookupStartKeeps(cs, true);
    LookupStartKeeps(cs, queued);
    StartGrows(LookupTask(LookupStart(cs, true)));
    AddKeeps(s, LookupTask(LookupStart(cs, true)), LookupTask(LookupStart(cs, queued)));
  }

  lemma NewAnnounceKeeps(s: Sys, cs: seq<Contact>, queued: bool)
    requires SysCounts(s)
    ensures var s' := SysStep(s, NewAnnounce(cs, queued)); SysCounts(s') && SameBalances(s, s')
  {
    AnnounceStartKeeps(cs, true);
    AnnounceStartKeeps(cs, queued);
    StartGrows(AnnounceTask(AnnounceStart(cs, true)));
    AddKeeps(s, AnnounceTask(AnnounceStart(cs, true)), AnnounceTask(AnnounceStart(cs, queued)));
  }

  lemma StartKeeps(s: Sys, id: nat)
    requires SysCounts(s) && id < |s.tasks|
    ensures var s' := SysStep(s, StartTask(id)); SysCounts(s') && SameBalances(s, s')
  {
    assert TaskCounts(s, id);
    StartGrows(s.tasks[id]);
    MoveKeeps(s, id, s.tasks[id].OnStart());
  }

  lemma ResolvedKeeps(s: Sys, id: nat, e: Contact)
    requires SysCounts(s) && id < |s.tasks|
    ensures var s' := SysStep(s, Resolved(id, e)); SysCounts(s') && SameBalances(s, s')
  {
    assert TaskCounts(s, id);
    ResolvedGrows(s.tasks[id], e);
    MoveKeeps(s, id, s.tasks[id].OnResolved(e));
  }

  // ---- ends of calls, in time and late ----

  /** How many requests the telling of `l` makes a task count as ended. */
  function ChargeOf(s: Sys, l: Listener): nat {
    if l.TaskListener? && l.task < |s.tasks| then Charge(s.tasks[l.task]) else 0
  }

  lemma {:induction false} Counted(h: seq<Request>, i: nat)
    requires i < |h|
    ensures Count(h, h[i].listener) > 0
  {
    var n := |h| - 1;
    if i < n {
      assert h[..n][i] == h[i];
      Counted(h[..n], i);
    }
  }

  lemma TellMoves(s: Sys, s': Sys, i: nat, replied: bool, reply: Reply, pings: seq<Address>)
    requires SysCounts(s) && i < |s.server.history|
    requires s'.tasks == Tell(s, s.server.history[i].listener, replied, reply, pings).0
    ensures var l := s.server.history[i].listener;
            TasksMove(s, s', l, ChargeOf(s, l), Tell(s, l, replied, reply, pings).1)
  {
    var l := s.server.history[i].listener;
    if l.TaskListener? {
      assert TaskCounts(s, l.task);
      Counted(s.server.history, i);
      ToldGrows(s.tasks[l.task], s.ourId, replied, reply);
      NewRequestsCount(s.tasks[l.task], s'.tasks[l.task], l.task, l);
    }
  }

  /** The listener of the call that an event ends, as far as tasks are concerned. */
  ghost function EndsCallOf(s: Sys, e: SysEvent): Listener {
    match e
    case Answer(m, _, _) => if m in s.server.calls then s.server.calls[m].req.listener else NoListener
    case Expire(m, _) => if m in s.server.calls then s.server.calls[m].req.listener else NoListener
    case Late(m, serial, pings) =>
      if HasEnded(s, serial) then HolderAfter(s, m, s.server.history[serial].listener, pings) else NoListener
    case _ => NoListener
  }

  /** Whose call has the id once `l` has been told and made its calls. */
  ghost function HolderAfter(s: Sys, mtid: nat, l: Listener, pings: seq<Address>): Listener {
    var t := IssueAll(s.server, Tell(s, l, false, OtherReply, pings).1);
    if mtid in t.calls then t.calls[mtid].req.listener else NoListener
  }

  /** Who is told. */
  ghost function Tells(s: Sys, e: SysEvent): Listener {
    match e
    case Answer(m, _, _) => if m in s.server.calls then s.server.calls[m].req.listener else NoListener
    case Expire(m, _) => if m in s.server.calls then s.server.calls[m].req.listener else NoListener
    case Late(_, serial, _) => if HasEnded(s, serial) then s.server.history[serial].listener else NoListener
    case _ => NoListener
  }

  /** The task told, if it has requests outstanding and so counts one less. */
  ghost function Charges(s: Sys, e: SysEvent): Listener {
    if ChargeOf(s, Tells(s, e)) > 0 then Tells(s, e) else NoListener
  }

  /** An event ends a call of task `id` without telling it, or tells it without ending a call of it. */
  ghost function Drift(s: Sys, e: SysEvent, id: nat): int {
    One(EndsCallOf(s, e) == TaskListener(id)) - One(Charges(s, e) == TaskListener(id))
  }

  /** What an event does to the bookkeeping of all tasks. */
  ghost predicate Drifts(s: Sys, s': Sys, e: SysEvent) {
    && |s.tasks| <= |s'.tasks|
    && (forall id :: 0 <= id < |s.tasks| ==> Balance(s', id) == Balance(s, id) + Drift(s, e, id))
    && (forall id :: |s.tasks| <= id < |s'.tasks| ==> Balance(s', id) == 0)
  }

  lemma EndKeeps(s: Sys, mtid: nat, replied: bool, pings: seq<Address>, reply: Reply, e: SysEvent)
    requires SysCounts(s) && mtid in s.server.calls
    requires e == if replied then SysEvent.Answer(mtid, reply, pings) else Expire(mtid, pings)
    ensures SysCounts(EndCall(s, mtid, replied, pings, reply)) && Drifts(s, EndCall(s, mtid, replied, pings, reply), e)
  {
    var c, s' := s.server.calls[mtid], EndCall(s, mtid, replied, pings, reply);
    var l := c.req.listener;
    var r := Tell(s, l, replied, Parsed(c.req.kind, reply), pings).1;
    FinishKeeps(s.server, mtid, r, replied);
    FinishEnds(s.server, mtid, r, replied);
    ActiveCall(s.server, mtid);
    TellMoves(s, s', c.serial, replied, Parsed(c.req.kind, reply), pings);
    MovesKeep(s, s', l, ChargeOf(s, l), r, c.serial, l);
    EndDrifts(s, s', l, l, e);
  }

  /** How the bookkeeping moves when `told` is told and a call of `holder` ends. */
  lemma EndDrifts(s: Sys, s': Sys, told: Listener, holder: Listener, e: SysEvent)
    requires Tells(s, e) == told && EndsCallOf(s, e) == holder && |s'.tasks| == |s.tasks|
    requires forall id :: 0 <= id < |s.tasks| ==>
               Balance(s', id) == Balance(s, id) + One(holder == TaskListener(id))
                                - if told == TaskListener(id) then ChargeOf(s, told) else 0
    ensures Drifts(s, s', e)
  {
    forall id | 0 <= id < |s.tasks| ensures Balance(s', id) == Balance(s, id) + Drift(s, e, id) {
    }
  }

  lemma LateTimerKeeps(s: Sys, mtid: nat, serial: nat, pings: seq<Address>)
    requires SysCounts(s) && HasEnded(s, serial)
    ensures var e := Late(mtid, serial, pings); SysCounts(SysStep(s, e)) && Drifts(s, SysStep(s, e), e)
  {
    var l := s.server.history[serial].listener;
    var r := Tell(s, l, false, OtherReply, pings).1;
    var s' := LateTimer(s, mtid, l, pings);
    LateKeeps(s.server, mtid, r);
    var holder := HolderAfter(s, mtid, l, pings);
    var i := LateMovesLog(s, mtid, r, holder);
    TellMoves(s, s', serial, false, OtherReply, pings);
    MovesKeep(s, s', l, ChargeOf(s, l), r, i, holder);
    EndDrifts(s, s', l, holder, Late(mtid, serial, pings));
  }

  lemma LateMovesLog(s: Sys, mtid: nat, r: seq<Request>, holder: Listener) returns (i: nat)
    requires SysCounts(s)
    requires var t := IssueAll(s.server, r);
             holder == if mtid in t.calls then t.calls[mtid].req.listener else NoListener
    ensures LogMoves(s.server, LateOrNot(s.server, mtid, r), r, i, holder)
  {
    i := LateEnds(s.server, mtid, r);
    EndedInHistory(s.server);
  }

  /** Every event keeps the server's invariant and each task's own, and moves the balance of a task exactly by
      what it ended untold or told in vain. */
  lemma SysStepCounts(s: Sys, e: SysEvent)
    requires SysCounts(s)
    ensures SysCounts(SysStep(s, e)) && Drifts(s, SysStep(s, e), e)
  {
    if e.Answer? || e.Expire? || e.Late? { EndEventCounts(s, e); } else { TaskEventCounts(s, e); }
  }

  lemma EndEventCounts(s: Sys, e: SysEvent)
    requires SysCounts(s) && (e.Answer? || e.Expire? || e.Late?)
    ensures SysCounts(SysStep(s, e)) && Drifts(s, SysStep(s, e), e)
  {
    match e
    case Answer(m, reply, pings) => if m in s.server.calls { EndKeeps(s, m, true, pings, reply, e); }
    case Expire(m, pings) => if m in s.server.calls { EndKeeps(s, m, false, pings, OtherReply, e); }
    case Late(m, serial, pings) => if HasEnded(s, serial) { LateTimerKeeps(s, m, serial, pings); }
  }

  lemma TaskEventCounts(s: Sys, e: SysEvent)
    requires SysCounts(s) && !(e.Answer? || e.Expire? || e.Late?)
    ensures SysCounts(SysStep(s, e)) && Drifts(s, SysStep(s, e), e)
  {
    assert SysCounts(SysStep(s, e)) && SameBalances(s, SysStep(s, e)) by {
      match e
      case NewLookup(cs, queued) => NewLookupKeeps(s, cs, queued);
      case NewAnnounce(cs, queued) => NewAnnounceKeeps(s, cs, queued);
      case StartTask(id) => if id < |s.tasks| { StartKeeps(s, id); }
      case Resolved(id, c) => if id < |s.tasks| { ResolvedKeeps(s, id, c); }
      case PingNode(a) => PingKeeps(s, a);
    }
    NobodyEndsOrHears(s, SysStep(s, e), e);
  }

  lemma NobodyEndsOrHears(s: Sys, s': Sys, e: SysEvent)
    requires SameBalances(s, s') && !(e.Answer? || e.Expire? || e.Late?)
    ensures Drifts(s, s', e)
  {
  }

  /** The task told, if it has requests outstanding, is the task whose call ends, or there is neither. */
  ghost predicate Harmless(s: Sys, e: SysEvent) { EndsCallOf(s, e) == Charges(s, e) }

  lemma EndsKnown(s: Sys, e: SysEvent)
    requires SysCounts(s) && EndsCallOf(s, e).TaskListener?
    ensures EndsCallOf(s, e).task < |s.tasks|
  {
    match e
    case Answer(m, _, _) => ActiveCall(s.server, m);
    case Expire(m, _) => ActiveCall(s.server, m);
    case Late(m, serial, pings) => HolderKnown(s, m, serial, pings);
    case _ =>
  }

  lemma HolderKnown(s: Sys, mtid: nat, serial: nat, pings: seq<Address>)
    requires SysCounts(s) && HasEnded(s, serial)
    ensures var l := HolderAfter(s, mtid, s.server.history[serial].listener, pings);
            l.TaskListener? ==> l.task < |s.tasks|
  {
    var l := s.server.history[serial].listener;
    var (tasks, r) := Tell(s, l, false, OtherReply, pings);
    TellMoves(s, s.(tasks := tasks), serial, false, OtherReply, pings);
    var t := IssueAll(s.server, r);
    IssueAllKeeps(s.server, r);
    if mtid in t.calls { ActiveCall(t, mtid); }
  }

  /** Each task waits for exactly its calls that the server still holds: an event keeps this if and only if it is
      harmless. */
  lemma SysStepKeeps(s: Sys, e: SysEvent)
    requires SysInv(s)
    ensures SysInv(SysStep(s, e)) <==> Harmless(s, e)
  {
    SysStepCounts(s, e);
    var s', ends, charges := SysStep(s, e), EndsCallOf(s, e), Charges(s, e);
    if ends != charges {
      var l := if ends.TaskListener? then ends else charges;
      if ends.TaskListener? { EndsKnown(s, e); }
      assert l.TaskListener? && l.task < |s.tasks|;
      assert Balance(s', l.task) == Balance(s, l.task) + Drift(s, e, l.task);
    }
  }

  lemma {:induction false} LiveAtLeastOne(h: seq<Request>, ended: set<nat>, i: nat)
    requires i < |h| && i !in ended
    ensures LiveCount(h, ended, h[i].listener) >= 1
  {
    LiveEnd(h, ended, i, h[i].listener);
  }

  /** Only a late timer can do harm. */
  lemma InTimeIsHarmless(s: Sys, e: SysEvent)
    requires SysInv(s) && !e.Late?
    ensures Harmless(s, e)
  {
    var l := EndsCallOf(s, e);
    if l.TaskListener? {
      var m := e.mtid;
      ActiveCall(s.server, m);
      LiveAtLeastOne(s.server.history, Ended(s.server), s.server.calls[m].serial);
      assert Balance(s, l.task) == 0;
    }
  }

  // ---- what the tasks are told ----

  /** A call that a task listens to is of the kind it makes. */
  lemma KindFits(s: Sys, i: nat)
    requires SysCounts(s) && i < |s.server.history| && s.server.history[i].listener.TaskListener?
    ensures var req := s.server.history[i];
            && req.listener.task < |s.tasks|
            && (s.tasks[req.listener.task].LookupTask? ==> req.kind == FindNode)
            && (s.tasks[req.listener.task].AnnounceTask? ==> req.kind == GetPeers || req.kind == AnnouncePeer)
            && !s.tasks[req.listener.task].Waiting()
  {
    var req := s.server.history[i];
    assert TaskCounts(s, req.listener.task);
    DestsHas(s.server.history, i);
    Counted(s.server.history, i);
  }

  /** The reply of a call as its task sees it: an answer to an announce_peer says nothing. */
  function Heard(kind: Method, reply: Reply): Reply { if kind == GetPeers then reply else OtherReply }

  /** What an answer does to the lookup whose find_node call it answers. */
  ghost predicate LookupHears(l: Lookup, l': Lookup, ourId: Key, reply: Reply) {
    && (forall e :: e in l'.q.known <==> e in l.q.known || Teaches(l, ourId, reply, e))
    && l'.responses == l.responses + (if reply.FoundNodes? && !l.finished then 1 else 0)
    && (!l.finished ==> Busy(l'.q))
  }

  /** What an answer does to the announce task whose call it answers: the sender of values is announced to, and
      contacts named are learned until the list is full. */
  ghost predicate AnnounceHears(a: Announce, a': Announce, reply: Reply) {
    && a'.announced == a.announced + AnnouncesTo(a, reply) && a'.returned == a.returned + ItemsOf(a, reply)
    && (forall e :: e in a.q.known ==> e in a'.q.known)
    && (forall e :: e in a'.q.known ==> e in a.q.known || (!a.finished && reply.PeersNodes? && e in reply.nodes))
    && (!a.finished && reply.PeersNodes? ==>
          forall e :: e in reply.nodes ==> e in a'.q.known || |ListAfter(a, reply.nodes)| >= MAX_TODO)
    && (!a.finished ==> Busy(a'.q))
  }

  ghost predicate TaskHears(t: Task, t': Task, ourId: Key, kind: Method, reply: Reply) {
    && (t.LookupTask? <==> t'.LookupTask?)
    && (t.LookupTask? ==> LookupHears(t.l, t'.l, ourId, reply))
    && (t.AnnounceTask? ==> AnnounceHears(t.a, t'.a, Heard(kind, reply)))
  }

  /** Task `id` alone hears the reply to a call of this kind. */
  ghost predicate OneHears(ts: seq<Task>, ts': seq<Task>, id: nat, ourId: Key, kind: Method, reply: Reply) {
    && id < |ts| == |ts'| && ts' == ts[id := ts'[id]]
    && TaskHears(ts[id], ts'[id], ourId, kind, reply)
  }

  /** The end of call `c` is told to its listener, with this reply. */
  ghost predicate IsHeard(s: Sys, s': Sys, c: Call, reply: Reply) {
    if c.req.listener.TaskListener?
    then OneHears(s.tasks, s'.tasks, c.req.listener.task, s.ourId, c.req.kind, reply)
    else s'.tasks == s.tasks
  }

  /** The calls that the listener of an ended call makes. */
  function Nested(s: Sys, c: Call, replied: bool, reply: Reply, pings: seq<Address>): seq<Request> {
    Tell(s, c.req.listener, replied, Parsed(c.req.kind, reply), pings).1
  }

  /** An answer to an active call ends it as answered, and reaches the task that listens as an answer. */
  lemma AnswerIsHeard(s: Sys, m: nat, reply: Reply, pings: seq<Address>)
    requires SysCounts(s) && m in s.server.calls
    ensures var c, s' := s.server.calls[m], SysStep(s, SysEvent.Answer(m, reply, pings));
            && EndsAs(s.server, s'.server, c.serial, Nested(s, c, true, reply, pings), true)
            && IsHeard(s, s', c, reply)
  {
    var c := s.server.calls[m];
    EndIsHeard(s, m, true, reply, pings);
  }

  /** The time-out of an active call ends it as timed out, and teaches its task nothing. */
  lemma ExpiryIsHeard(s: Sys, m: nat, pings: seq<Address>)
    requires SysCounts(s) && m in s.server.calls
    ensures var c, s' := s.server.calls[m], SysStep(s, Expire(m, pings));
            && EndsAs(s.server, s'.server, c.serial, Nested(s, c, false, OtherReply, pings), false)
            && IsHeard(s, s', c, OtherReply)
  {
    EndIsHeard(s, m, false, OtherReply, pings);
  }

  lemma EndIsHeard(s: Sys, m: nat, replied: bool, reply: Reply, pings: seq<Address>)
    requires SysCounts(s) && m in s.server.calls
    ensures var c, s' := s.server.calls[m], EndCall(s, m, replied, pings, reply);
            && EndsAs(s.server, s'.server, c.serial, Nested(s, c, replied, reply, pings), replied)
            && IsHeard(s, s', c, if replied then reply else OtherReply)
  {
    var c := s.server.calls[m];
    FinishEndsAs(s.server, m, Nested(s, c, replied, reply, pings), replied);
    ActiveCall(s.server, m);
    if c.req.listener.TaskListener? { TellIsHeard(s, c.serial, replied, reply, pings); }
  }

  lemma TellIsHeard(s: Sys, i: nat, replied: bool, reply: Reply, pings: seq<Address>)
    requires SysCounts(s) && i < |s.server.history| && s.server.history[i].listener.TaskListener?
    ensures var req := s.server.history[i];
            var tasks := Tell(s, req.listener, replied, Parsed(req.kind, reply), pings).0;
            OneHears(s.tasks, tasks, req.listener.task, s.ourId, req.kind, if replied then reply else OtherReply)
  {
    var req := s.server.history[i];
    KindFits(s, i);
    var t := s.tasks[req.listener.task];
    assert TaskCounts(s, req.listener.task);
    if !replied {
      TimeoutIsTold(t, s.ourId);
    } else if t.LookupTask? {
      LookupIsTold(t.l, s.ourId, reply);
    } else {
      AnnounceIsTold(t.a, Parsed(req.kind, reply), Heard(req.kind, reply));
    }
  }

  lemma LookupIsTold(l: Lookup, ourId: Key, reply: Reply)
    requires LookupInv(l) && !l.queued
    ensures LookupHears(l, LookupOnResponse(l, ourId, Parsed(FindNode, reply)), ourId, reply)
  {
    if l.q.outstanding > 0 { LookupResponseKeeps(l, ourId, Parsed(FindNode, reply)); }
  }

  lemma AnnounceIsTold(a: Announce, parsed: Reply, heard: Reply)
    requires AnnounceInv(a) && !a.queued
    requires parsed == heard || (parsed == OtherReply && !heard.PeersNodes? && !heard.PeersValues?)
    ensures AnnounceHears(a, AnnounceOnResponse(a, parsed), heard)
  {
    if a.q.outstanding > 0 { AnnounceResponseKeeps(a, parsed); }
  }

  lemma TimeoutIsTold(t: Task, ourId: Key)
    requires t.Inv() && !t.Waiting()
    ensures t.LookupTask? ==> LookupHears(t.l, LookupOnTimeout(t.l), ourId, OtherReply)
    ensures t.AnnounceTask? ==> AnnounceHears(t.a, AnnounceOnTimeout(t.a), OtherReply)
  {
    if t.Queries().outstanding > 0 {
      if t.LookupTask? { LookupTimeoutKeeps(t.l); } else { AnnounceTimeoutKeeps(t.a); }
    }
  }

  /** A new task knows the contacts it is given, and unless it has to wait it has as many requests out as may be. */
  lemma NewTaskStarts(s: Sys, cs: seq<Contact>, queued: bool)
    ensures var t := SysStep(s, NewLookup(cs, queued)).tasks;
            && |t| == |s.tasks| + 1 && s.tasks <= t
            && t[|s.tasks|].LookupTask? && t[|s.tasks|].Waiting() == queued
            && t[|s.tasks|].Queries().known == ToSet(cs) && (!queued ==> Busy(t[|s.tasks|].Queries()))
    ensures var t := SysStep(s, NewAnnounce(cs, queued)).tasks;
            && |t| == |s.tasks| + 1 && s.tasks <= t
            && t[|s.tasks|].AnnounceTask? && t[|s.tasks|].Waiting() == queued
            && t[|s.tasks|].Queries().known == ToSet(cs) && (!queued ==> Busy(t[|s.tasks|].Queries()))
  {
    LookupStartKeeps(cs, queued);
    AnnounceStartKeeps(cs, queued);
  }

  /** A waiting task starts once, with what it knows. */
  lemma WaitingTaskStarts(s: Sys, id: nat)
    requires SysCounts(s) && id < |s.tasks|
    ensures var t, s' := s.tasks[id], SysStep(s, StartTask(id));
            && s'.tasks == s.tasks[id := s'.tasks[id]]
            && if t.Waiting() then !s'.tasks[id].Waiting() && Busy(s'.tasks[id].Queries())
                                   && s'.tasks[id].Queries().known == t.Queries().known
               else s'.tasks[id] == t
  {
    assert TaskCounts(s, id);
    var t := s.tasks[id];
    if t.LookupTask? { LookupStartQueuedKeeps(t.l); } else { AnnounceStartQueuedKeeps(t.a); }
  }

  lemma ResolvedJoins(s: Sys, id: nat, e: Contact)
    requires SysCounts(s) && id < |s.tasks|
    ensures var t, s' := s.tasks[id], SysStep(s, Resolved(id, e));
            && s'.tasks == s.tasks[id := s'.tasks[id]] && e in s'.tasks[id].Queries().todo
            && (!t.Finished() ==> s'.tasks[id].Queries().known == t.Queries().known + {e})
  {
    assert TaskCounts(s, id);
  }

  // ---- runs ----

  function New(next: nat, ourId: Key): Sys { Sys(Start(next), [], ourId) }

  /** What a run ended of the calls of task `id` without telling it, less what it told it in vain. */
  ghost function RunDrift(s: Sys, es: seq<SysEvent>, id: nat): int {
    if es == [] then 0 else
      RunDrift(s, es[..|es| - 1], id) + Drift(SysRun(s, es[..|es| - 1]), es[|es| - 1], id)
  }

  /** Every late timer of the run is harmless. */
  ghost predicate AllHarmless(s: Sys, es: seq<SysEvent>) {
    es == [] || (AllHarmless(s, es[..|es| - 1]) &&
                 (es[|es| - 1].Late? ==> Harmless(SysRun(s, es[..|es| - 1]), es[|es| - 1])))
  }

  ghost predicate AlwaysSysInv(s: Sys, es: seq<SysEvent>) {
    SysInv(SysRun(s, es)) && (es != [] ==> AlwaysSysInv(s, es[..|es| - 1]))
  }

  lemma NoDriftBeyond(s: Sys, e: SysEvent, id: nat)
    requires SysCounts(s) && id >= |s.tasks|
    ensures Drift(s, e, id) == 0
  {
    if EndsCallOf(s, e).TaskListener? { EndsKnown(s, e); }
  }

  /** Whatever happens, in whatever order, from any state: what a task waits for is what the server holds of its
      calls, plus what the run ended untold, less what it told in vain. */
  lemma {:induction false} SysRunDrifts(s: Sys, es: seq<SysEvent>)
    requires SysCounts(s)
    ensures var t := SysRun(s, es);
            && SysCounts(t) && |s.tasks| <= |t.tasks|
            && (forall id :: 0 <= id < |s.tasks| ==> Balance(t, id) == Balance(s, id) + RunDrift(s, es, id))
            && (forall id :: |s.tasks| <= id < |t.tasks| ==> Balance(t, id) == RunDrift(s, es, id))
            && (forall id :: |t.tasks| <= id ==> RunDrift(s, es, id) == 0)
  {
    if es != [] {
      var n := |es| - 1;
      var t := SysRun(s, es[..n]);
      SysRunDrifts(s, es[..n]);
      SysStepCounts(t, es[n]);
      forall id: nat | |t.tasks| <= id ensures Drift(t, es[n], id) == 0 { NoDriftBeyond(t, es[n], id); }
    }
  }

  lemma NewIsInOrder(next: nat, ourId: Key)
    requires next < SLOTS
    ensures SysInv(New(next, ourId))
  {
  }

  /** From a new system, or any other in order: every task always waits for exactly its calls the server holds, if
      and only if no late timer ends a call of a task other than the one it tells. */
  lemma {:induction false} SysRunKeeps(s: Sys, es: seq<SysEvent>)
    requires SysInv(s)
    ensures AlwaysSysInv(s, es) <==> AllHarmless(s, es)
  {
    if es != [] {
      var n := |es| - 1;
      SysRunKeeps(s, es[..n]);
      if AlwaysSysInv(s, es[..n]) {
        SysStepKeeps(SysRun(s, es[..n]), es[n]);
        if !es[n].Late? { InTimeIsHarmless(SysRun(s, es[..n]), es[n]); }
      }
    }
  }

  /** The requests of a task of this kind went to different contacts, each once. */
  ghost predicate AskedOf(h: seq<Request>, l: Listener, kind: Method, cs: seq<Contact>) {
    Distinct(cs) && Dests(h, l, kind) == Addrs(cs)
  }

  /** After every run a finished lookup with at most 50 answers has sent exactly one find_node to each contact it ever
      knew, and a finished announce with fewer than 8 announces one get_peers; who else they asked, nobody. */
  lemma FinishedHasAskedAll(next: nat, ourId: Key, es: seq<SysEvent>, id: nat)
    requires next < SLOTS && id < |SysRun(New(next, ourId), es).tasks|
    ensures var s, l := SysRun(New(next, ourId), es), TaskListener(id);
            var t := s.tasks[id];
            var kind := if t.LookupTask? then FindNode else GetPeers;
            && AskedOf(s.server.history, l, kind, t.Queries().visited)
            && (forall e :: e in t.Queries().visited ==> e in t.Queries().known)
            && (t.Finished() && (if t.LookupTask? then t.l.responses <= MAX_RESPONSES else |t.a.announced| < K) ==>
                  forall e :: e in t.Queries().known ==> e in t.Queries().visited)
  {
    var s := SysRun(New(next, ourId), es);
    NewIsInOrder(next, ourId);
    SysRunDrifts(New(next, ourId), es);
    assert TaskCounts(s, id);
  }

  // ---- when a task stalls, and that every task ends ----

  /** This call of task `id` is in the server: active, so that a response or a time-out of it is due, or queued
      behind 256 active calls. */
  ghost predicate Waits(s: Sys, id: nat, serial: nat) {
    && serial < |s.server.history| && s.server.history[serial].listener == TaskListener(id)
    && (IsActive(s.server, serial) || (IsQueued(s.server, serial) && |s.server.calls| == SLOTS))
  }

  ghost predicate HasCall(s: Sys, id: nat) { exists serial :: Waits(s, id, serial) }

  lemma HasCallIsLive(s: Sys, id: nat)
    requires SysCounts(s)
    ensures HasCall(s, id) <==> LiveCount(s.server.history, Ended(s.server), TaskListener(id)) >= 1
  {
    var h, ended, l := s.server.history, Ended(s.server), TaskListener(id);
    if HasCall(s, id) {
      var serial :| Waits(s, id, serial);
      NoCallLost(s.server, serial);
      LiveAtLeastOne(h, ended, serial);
    }
    if LiveCount(h, ended, l) >= 1 {
      var serial := LiveWitness(h, ended, l);
      NoCallLost(s.server, serial);
      assert Waits(s, id, serial);
    }
  }

  /** After every run an unfinished started task has a call in the server if and only if the run drifted by less than
      the task waits for; so it has unless a late timer did harm. */
  lemma NoTaskStalls(next: nat, ourId: Key, es: seq<SysEvent>, id: nat)
    requires next < SLOTS && id < |SysRun(New(next, ourId), es).tasks|
    requires var t := SysRun(New(next, ourId), es).tasks[id]; !t.Finished() && !t.Waiting()
    ensures var t := SysRun(New(next, ourId), es);
            && (HasCall(t, id) <==> RunDrift(New(next, ourId), es, id) < t.tasks[id].Queries().outstanding)
            && 1 <= t.tasks[id].Queries().outstanding <= MAX_CONCURRENT_REQS
            && (AllHarmless(New(next, ourId), es) ==> HasCall(t, id))
  {
    var s := New(next, ourId);
    var t := SysRun(s, es);
    NewIsInOrder(next, ourId);
    SysRunDrifts(s, es);
    HasCallIsLive(t, id);
    assert TaskCounts(t, id) && Balance(t, id) == RunDrift(s, es, id);
    SysRunKeeps(s, es);
  }

  lemma QuietMeansNoCall(s: Sys, id: nat)
    requires SysCounts(s) && s.server.calls == map[]
    ensures LiveCount(s.server.history, Ended(s.server), TaskListener(id)) == 0
  {
    HasCallIsLive(s, id);
    assert forall serial :: !Waits(s, id, serial);
  }

  /** With no active call left a task still waits for as many requests as the run drifted by: for none, and so every
      started task has finished, if no late timer did harm. */
  lemma QuietMeansFinished(next: nat, ourId: Key, es: seq<SysEvent>, id: nat)
    requires next < SLOTS && id < |SysRun(New(next, ourId), es).tasks|
    requires SysRun(New(next, ourId), es).server.calls == map[]
    ensures var s, t := New(next, ourId), SysRun(New(next, ourId), es).tasks[id];
            && t.Queries().outstanding == RunDrift(s, es, id)
            && (RunDrift(s, es, id) == 0 || AllHarmless(s, es) ==> t.Finished() || t.Waiting())
  {
    var s := New(next, ourId);
    var t := SysRun(s, es);
    NewIsInOrder(next, ourId);
    SysRunDrifts(s, es);
    QuietMeansNoCall(t, id);
    assert TaskCounts(t, id) && Balance(t, id) == RunDrift(s, es, id);
    SysRunKeeps(s, es);
  }

  /** How many calls of a listener came to an end. */
  ghost function EndedCount(s: Sys, id: nat): int {
    Count(s.server.history, TaskListener(id)) - LiveCount(s.server.history, Ended(s.server), TaskListener(id))
  }

  /** Among N contacts, a lookup makes no more than N calls and an announce N + 8, and it is over once that many have
      ended (and been told of). */
  lemma TaskEnds(s: Sys, id: nat, universe: set<Contact>)
    requires SysCounts(s) && id < |s.tasks| && s.tasks[id].Queries().known <= universe
    ensures EndedCount(s, id) - Balance(s, id) >= s.tasks[id].Budget(|universe|) ==>
              s.tasks[id].Finished() || s.tasks[id].Waiting()
    ensures Count(s.server.history, TaskListener(id)) <= s.tasks[id].Budget(|universe|)
  {
    assert TaskCounts(s, id);
    InvCounts(s.tasks[id]);
    if s.tasks[id].LookupTask? { LookupEnds(s.tasks[id].l, universe); } else { AnnounceEnds(s.tasks[id].a, universe); }
  }

  // ---- a task that stalls ----

  ghost predicate Stalled(s: Sys, id: nat) {
    id < |s.tasks| && !s.tasks[id].Finished() && !s.tasks[id].Waiting() && !HasCall(s, id)
  }

  lemma StalledStays(s: Sys, e: SysEvent, id: nat)
    requires SysCounts(s) && Stalled(s, id) && (e.Late? ==> Tells(s, e) != TaskListener(id))
    ensures Stalled(SysStep(s, e), id)
  {
    var s', l := SysStep(s, e), TaskListener(id);
    SysStepCounts(s, e);
    HasCallIsLive(s, id);
    if (e.Answer? || e.Expire?) && e.mtid in s.server.calls && s.server.calls[e.mtid].req.listener == l {
      ActiveCall(s.server, e.mtid);
      LiveAtLeastOne(s.server.history, Ended(s.server), s.server.calls[e.mtid].serial);
      assert false;
    }
    assert Tells(s, e) != l;
    StalledAlone(s, e, id);
    assert Balance(s', id) == Balance(s, id) + Drift(s, e, id);
    HasCallIsLive(s', id);
  }

  /** A task that is not told does nothing: starting it again is of no effect, and a resolved contact only joins its
      list. */
  lemma StalledAlone(s: Sys, e: SysEvent, id: nat)
    requires SysCounts(s) && Stalled(s, id) && Tells(s, e) != TaskListener(id)
    ensures id < |SysStep(s, e).tasks|
    ensures var t, t' := s.tasks[id], SysStep(s, e).tasks[id];
            && t'.Finished() == t.Finished() && t'.Waiting() == t.Waiting()
            && t'.Queries().outstanding == t.Queries().outstanding
  {
    SysStepCounts(s, e);
  }

  /** No late timer of the run tells task `id`. */
  ghost predicate NeverTold(s: Sys, es: seq<SysEvent>, id: nat) {
    es == [] || (NeverTold(s, es[..|es| - 1], id) &&
                 (es[|es| - 1].Late? ==> Tells(SysRun(s, es[..|es| - 1]), es[|es| - 1]) != TaskListener(id)))
  }

  /** Whatever else happens, it never finishes and never has a call again. */
  lemma {:induction false} StallsForGood(s: Sys, es: seq<SysEvent>, id: nat)
    requires SysCounts(s) && Stalled(s, id) && NeverTold(s, es, id)
    ensures Stalled(SysRun(s, es), id)
  {
    if es != [] {
      var n := |es| - 1;
      StallsForGood(s, es[..n], id);
      SysRunDrifts(s, es[..n]);
      StalledStays(SysRun(s, es[..n]), es[n], id);
    }
  }

  lemma RunSnoc(s: Sys, es: seq<SysEvent>, e: SysEvent)
    ensures SysRun(s, es + [e]) == SysStep(SysRun(s, es), e)
  {
    assert (es + [e])[..|es + [e]| - 1] == es;
  }

  function PingRun(a: Address, n: nat): seq<SysEvent> {
    if n == 0 then [] else PingRun(a, n - 1) + [PingNode(a)]
  }

  /** The server after `n` pings, each under its own number. */
  function Pinged(a: Address, n: nat): RpcState {
    var req := Request(Ping, a, NoListener);
    RpcState(map i: nat | i < n :: Call(i, req, i), [], n % SLOTS, seq(n, _ => req), seq(n, i => i), {}, {})
  }

  lemma PingMore(ourId: Key, a: Address, n: nat)
    ensures SysStep(Sys(Pinged(a, n), [], ourId), PingNode(a))
         == Sys(Issue(Pinged(a, n), Request(Ping, a, NoListener)), [], ourId)
  {
  }

  lemma {:induction false} PingsFill(ourId: Key, a: Address, n: nat)
    requires n <= SLOTS
    ensures SysRun(New(0, ourId), PingRun(a, n)) == Sys(Pinged(a, n), [], ourId) && |Pinged(a, n).calls| == n
  {
    var s := New(0, ourId);
    if n == 0 {
      assert Pinged(a, 0) == Start(0);
    } else {
      PingsFill(ourId, a, n - 1);
      RunSnoc(s, PingRun(a, n - 1), PingNode(a));
      OnePing(a, n - 1);
      PingMore(ourId, a, n - 1);
    }
  }

  lemma {:induction false} PingRunLength(a: Address, n: nat)
    ensures |PingRun(a, n)| == n
  {
    if n > 0 { PingRunLength(a, n - 1); }
  }

  lemma OnePing(a: Address, n: nat)
    requires n < SLOTS && |Pinged(a, n).calls| == n
    ensures Issue(Pinged(a, n), Request(Ping, a, NoListener)) == Pinged(a, n + 1) && |Pinged(a, n + 1).calls| == n + 1
  {
    var s, t, req := Pinged(a, n), Pinged(a, n + 1), Request(Ping, a, NoListener);
    assert t.history == s.history + [req] && t.sent == s.sent + [n];
    assert t.calls == s.calls[n := Call(n, req, n)];
    FirstFree(s.calls.Keys, n);
    assert Send(s.(history := t.history), Call(n, req, 0xFF)) == t;
  }

  lemma FirstFree(busy: set<nat>, n: nat)
    requires n < SLOTS && n !in busy
    ensures Probe(busy, n, 0) == n && Slot(n, 1) == (n + 1) % SLOTS
  {
    assert Slot(n, 0) == n;
  }

  /** 256 pings, and a lookup whose only call has to wait; the first ping is answered, so the call gets its id; and
      then the timer of that ping fires. */
  function StallingRun(a: Address, c: Contact): seq<SysEvent> {
    PingRun(a, SLOTS) + [NewLookup([c], false)] + [SysEvent.Answer(0, OtherReply, [])] + [Late(0, 0, [])]
  }

  lemma LoneLookup(c: Contact)
    ensures LookupStart([c], false) == Lookup(Queries([], [c], 1, 0, {c}), false, false, 0)
    ensures LookupTask(LookupStart([c], true)).NewRequests(LookupTask(LookupStart([c], false)), 0)
         == [Request(FindNode, c.addr, TaskListener(0))]
  {
    var p, q := NewQueries([c]), Queries([], [c], 1, 0, {c});
    assert ToSet([c]) == {c} && [c][1..] == [] && [] + [c] == [c];
    assert Advance(q) == q;
    assert Advance(p) == Advance(p.(todo := p.todo[1..], visited := p.visited + [p.todo[0]], outstanding := 1));
  }

  /** The server once the lookup's call waits, once it has the answered ping's id, and once it has been ended. */
  function OneWaits(a: Address, req: Request): RpcState {
    var s := Pinged(a, SLOTS);
    s.(history := s.history + [req], queue := [Call(SLOTS, req, 0xFF)])
  }

  function OneSent(a: Address, req: Request): RpcState {
    var s := OneWaits(a, req);
    s.(calls := s.calls[0 := Call(SLOTS, req, 0)], queue := [], next := 1, sent := s.sent + [SLOTS], answered := {0})
  }

  function OneEnded(a: Address, req: Request): RpcState {
    var s := OneSent(a, req);
    s.(calls := s.calls - {0}, timedOut := {SLOTS})
  }

  lemma IssueOne(s: RpcState, req: Request)
    ensures IssueAll(s, []) == s && IssueAll(s, [req]) == Issue(s, req)
  {
    assert [req][..0] == [];
  }

  lemma LessOne(calls: map<nat, Call>, m: nat)
    requires m in calls
    ensures |calls - {m}| == |calls| - 1
  {
    assert (calls - {m}).Keys == calls.Keys - {m};
    assert |calls| == |calls.Keys| && |calls - {m}| == |(calls - {m}).Keys|;
  }

  /** The id freed by the answer goes to the waiting call. */
  lemma OneGetsId(a: Address, req: Request)
    requires |Pinged(a, SLOTS).calls| == SLOTS
    ensures Finish(OneWaits(a, req), 0, [], true) == OneSent(a, req)
  {
    var s := OneWaits(a, req);
    IssueOne(s, req);
    LessOne(s.calls, 0);
    var t := Erase(s, 0, true);
    assert t.queue[1..] == [] && {} + {0} == {0};
    var r := t.(queue := []);
    FirstFree(r.calls.Keys, 0);
    assert (s.calls - {0})[0 := Call(SLOTS, req, 0)] == s.calls[0 := Call(SLOTS, req, 0)];
    assert Send(r, t.queue[0]) == OneSent(a, req);
    assert Drain(t) == Drain(OneSent(a, req));
  }

  lemma OneLosesId(a: Address, req: Request)
    ensures LateOrNot(OneSent(a, req), 0, []) == OneEnded(a, req)
  {
    IssueOne(OneSent(a, req), req);
    assert {} + {SLOTS} == {SLOTS};
  }

  lemma AllPings(a: Address, req: Request)
    ensures forall serial: nat :: IsActive(OneEnded(a, req), serial) ==> serial < SLOTS
    ensures forall i :: 0 <= i < SLOTS ==> OneEnded(a, req).history[i].listener == NoListener
  {
  }

  predicate Holds(s: Sys, mtid: nat, serial: nat) { mtid in s.server.calls && s.server.calls[mtid].serial == serial }

  lemma StallingRunIs(ourId: Key, a: Address, c: Contact)
    ensures var s, es, req := New(0, ourId), StallingRun(a, c), Request(FindNode, c.addr, TaskListener(0));
            var n, tasks := |es|, [LookupTask(LookupStart([c], false))];
            && n == SLOTS + 3
            && SysRun(s, es[..n - 2]) == Sys(OneWaits(a, req), tasks, ourId)
            && SysRun(s, es) == Sys(OneEnded(a, req), tasks, ourId)
  {
    var s, req := New(0, ourId), Request(FindNode, c.addr, TaskListener(0));
    var tasks := [LookupTask(LookupStart([c], false))];
    var p := PingRun(a, SLOTS);
    var e1, e2, e3 := NewLookup([c], false), SysEvent.Answer(0, OtherReply, []), Late(0, 0, []);
    PingsFill(ourId, a, SLOTS);
    PingRunLength(a, SLOTS);
    RunSnoc(s, p, e1);
    RunSnoc(s, p + [e1], e2);
    RunSnoc(s, p + [e1] + [e2], e3);
    assert StallingRun(a, c)[..SLOTS + 1] == p + [e1];
    LookupWaits(ourId, a, c);
    PingAnswered(ourId, a, req, tasks);
    PingIsLate(ourId, a, req, tasks);
  }

  lemma LookupWaits(ourId: Key, a: Address, c: Contact)
    requires |Pinged(a, SLOTS).calls| == SLOTS
    ensures SysStep(Sys(Pinged(a, SLOTS), [], ourId), NewLookup([c], false))
         == Sys(OneWaits(a, Request(FindNode, c.addr, TaskListener(0))), [LookupTask(LookupStart([c], false))], ourId)
  {
    LoneLookup(c);
    IssueOne(Pinged(a, SLOTS), Request(FindNode, c.addr, TaskListener(0)));
  }

  lemma PingAnswered(ourId: Key, a: Address, req: Request, tasks: seq<Task>)
    requires |Pinged(a, SLOTS).calls| == SLOTS
    ensures SysStep(Sys(OneWaits(a, req), tasks, ourId), SysEvent.Answer(0, OtherReply, []))
         == Sys(OneSent(a, req), tasks, ourId)
  {
    OneGetsId(a, req);
  }

  lemma PingIsLate(ourId: Key, a: Address, req: Request, tasks: seq<Task>)
    ensures SysStep(Sys(OneSent(a, req), tasks, ourId), Late(0, 0, [])) == Sys(OneEnded(a, req), tasks, ourId)
  {
    OneLosesId(a, req);
  }

  lemma OneEndedStalls(ourId: Key, a: Address, c: Contact)
    ensures var req := Request(FindNode, c.addr, TaskListener(0));
            Stalled(Sys(OneEnded(a, req), [LookupTask(LookupStart([c], false))], ourId), 0)
  {
    var req := Request(FindNode, c.addr, TaskListener(0));
    var t := Sys(OneEnded(a, req), [LookupTask(LookupStart([c], false))], ourId);
    LoneLookup(c);
    AllPings(a, req);
    assert forall serial :: !Waits(t, 0, serial);
  }

  /** From a new system: the late timer is that of the answered ping, under the id it had, and leaves the lookup
      waiting for a call that nobody holds, for good. */
  lemma LateTimerStallsTask(ourId: Key, a: Address, c: Contact)
    ensures var s, es := New(0, ourId), StallingRun(a, c);
            var n, t := |es|, SysRun(s, es);
            && n == SLOTS + 3 && Holds(SysRun(s, es[..n - 2]), 0, 0)
            && Stalled(t, 0) && forall fs :: NeverTold(t, fs, 0) ==> Stalled(SysRun(t, fs), 0)
  {
    var s, es := New(0, ourId), StallingRun(a, c);
    var t := SysRun(s, es);
    StallingRunIs(ourId, a, c);
    OneEndedStalls(ourId, a, c);
    NewIsInOrder(0, ourId);
    SysRunDrifts(s, es);
    forall fs | NeverTold(t, fs, 0) ensures Stalled(SysRun(t, fs), 0) { StallsForGood(t, fs, 0); }
  }

  // ---- a closed system comes to rest ----

  /** The calls whose timers were late in the run. */
  ghost function LateSerials(es: seq<SysEvent>): set<nat> {
    if es == [] then {} else
      LateSerials(es[..|es| - 1]) + if es[|es| - 1].Late? then {es[|es| - 1].serial} else {}
  }

  /** Every event ends an active call or is the timer of one that has ended, which fires at most once; no outside call
      is made. */
  ghost predicate Closed(s: Sys, es: seq<SysEvent>) {
    es == [] ||
    (Closed(s, es[..|es| - 1]) &&
     match es[|es| - 1]
     case Answer(m, _, pings) => m in SysRun(s, es[..|es| - 1]).server.calls && pings == []
     case Expire(m, pings) => m in SysRun(s, es[..|es| - 1]).server.calls && pings == []
     case Late(_, serial, pings) =>
       HasEnded(SysRun(s, es[..|es| - 1]), serial) && serial !in LateSerials(es[..|es| - 1]) && pings == []
     case _ => false)
  }

  ghost function Calls(h: seq<Request>, tasks: nat): nat {
    if tasks == 0 then Count(h, NoListener) else Calls(h, tasks - 1) + Count(h, TaskListener(tasks - 1))
  }

  lemma {:induction false} CallsSnoc(h: seq<Request>, tasks: nat)
    requires h != []
    ensures var l := h[|h| - 1].listener;
            Calls(h, tasks) == Calls(h[..|h| - 1], tasks) + if l.NoListener? || l.task < tasks then 1 else 0
  {
    if tasks > 0 { CallsSnoc(h, tasks - 1); }
  }

  lemma {:induction false} CallsAll(h: seq<Request>, tasks: nat)
    requires forall i :: 0 <= i < |h| && h[i].listener.TaskListener? ==> h[i].listener.task < tasks
    ensures Calls(h, tasks) == |h|
  {
    if h == [] { CallsNone(tasks); } else {
      CallsAll(h[..|h| - 1], tasks);
      CallsSnoc(h, tasks);
    }
  }

  lemma {:induction false} CallsNone(tasks: nat)
    ensures Calls([], tasks) == 0
  {
    if tasks > 0 { CallsNone(tasks - 1); }
  }

  lemma {:induction false} CallsBound(s: Sys, universe: set<Contact>, tasks: nat)
    requires SysCounts(s) && tasks <= |s.tasks|
    requires forall id :: 0 <= id < |s.tasks| ==> s.tasks[id].Queries().known <= universe
    ensures Calls(s.server.history, tasks) <= Count(s.server.history, NoListener) + tasks * (|universe| + K)
  {
    if tasks > 0 {
      CallsBound(s, universe, tasks - 1);
      TaskEnds(s, tasks - 1, universe);
      var b := |universe| + K;
      assert tasks * b == (tasks - 1) * b + b;
    }
  }

  /** No call is made for anyone but tasks, and what has ended stays so. */
  ghost predicate Shuts(s: Sys, s': Sys, ends: nat) {
    && |s'.tasks| == |s.tasks|
    && Count(s'.server.history, NoListener) == Count(s.server.history, NoListener)
    && Ended(s.server) <= Ended(s'.server) && |Ended(s'.server)| >= |Ended(s.server)| + ends
  }

  lemma TellsNobodyElse(s: Sys, i: nat, replied: bool, reply: Reply, h: seq<Request>)
    requires SysCounts(s) && i < |s.server.history|
    requires h == s.server.history + Tell(s, s.server.history[i].listener, replied, reply, []).1
    ensures Count(h, NoListener) == Count(s.server.history, NoListener)
  {
    var l := s.server.history[i].listener;
    var (tasks, r) := Tell(s, l, replied, reply, []);
    TellMoves(s, s.(tasks := tasks), i, replied, reply, []);
    CountAppend(s.server.history, r, NoListener);
    if l.TaskListener? { CountUniform(r, l, NoListener); } else { assert r == []; }
  }

  lemma SubsetSize(a: set<nat>, b: set<nat>)
    requires a <= b
    ensures |a| <= |b|
  {
    assert b == a + (b - a);
  }

  lemma EndShuts(s: Sys, mtid: nat, replied: bool, reply: Reply)
    requires SysCounts(s) && mtid in s.server.calls
    ensures Shuts(s, EndCall(s, mtid, replied, [], reply), 1)
  {
    var c, t := s.server.calls[mtid], EndCall(s, mtid, replied, [], reply);
    FinishEnds(s.server, mtid, Tell(s, c.req.listener, replied, Parsed(c.req.kind, reply), []).1, replied);
    ActiveCall(s.server, mtid);
    TellsNobodyElse(s, c.serial, replied, Parsed(c.req.kind, reply), t.server.history);
  }

  lemma LateEndsMore(s: RpcState, mtid: nat, r: seq<Request>)
    requires Inv(s) && AtRest(s)
    ensures var t := LateOrNot(s, mtid, r);
            t.history == s.history + r && Ended(s) <= Ended(t) && |Ended(t)| >= |Ended(s)|
  {
    var i := LateEnds(s, mtid, r);
    SubsetSize(Ended(s), Ended(LateOrNot(s, mtid, r)));
  }

  lemma LateShuts(s: Sys, mtid: nat, serial: nat)
    requires SysCounts(s) && HasEnded(s, serial)
    ensures Shuts(s, SysStep(s, Late(mtid, serial, [])), 0)
  {
    var t, l := SysStep(s, Late(mtid, serial, [])), s.server.history[serial].listener;
    LateEndsMore(s.server, mtid, Tell(s, l, false, OtherReply, []).1);
    TellsNobodyElse(s, serial, false, OtherReply, t.server.history);
  }

  lemma {:induction false} ClosedRun(s: Sys, es: seq<SysEvent>)
    requires SysCounts(s) && Closed(s, es)
    ensures var t := SysRun(s, es);
            && SysCounts(t) && |t.tasks| == |s.tasks|
            && Count(t.server.history, NoListener) == Count(s.server.history, NoListener)
            && LateSerials(es) <= Ended(t.server)
            && |Ended(s.server)| + |es| <= |Ended(t.server)| + |LateSerials(es)|
  {
    if es != [] {
      var n := |es| - 1;
      var t := SysRun(s, es[..n]);
      ClosedRun(s, es[..n]);
      SysStepCounts(t, es[n]);
      match es[n]
      case Answer(m, reply, _) => EndShuts(t, m, true, reply);
      case Expire(m, _) => EndShuts(t, m, false, OtherReply);
      case Late(m, serial, _) =>
        LateShuts(t, m, serial);
        assert |LateSerials(es)| == |LateSerials(es[..n])| + 1;
    }
  }

  lemma EndedSize(s: RpcState)
    requires Inv(s)
    ensures |Ended(s)| <= |s.history|
  {
    assert |Ended(s)| == |s.answered| + |s.timedOut|;
  }

  /** Left to itself, a system of T tasks among N contacts comes to rest after at most T * (N + 8) responses and
      time-outs, plus one for each call made for others, and no more late timers than that. */
  lemma ClosedRunIsShort(s: Sys, es: seq<SysEvent>, universe: set<Contact>)
    requires SysCounts(s) && Closed(s, es)
    requires forall t :: t in SysRun(s, es).tasks ==> t.Queries().known <= universe
    ensures var most := |s.tasks| * (|universe| + K) + Count(s.server.history, NoListener);
            |es| <= most + |LateSerials(es)| && |LateSerials(es)| <= most
  {
    var t := SysRun(s, es);
    ClosedRun(s, es);
    CallsBound(t, universe, |t.tasks|);
    CallsAll(t.server.history, |t.tasks|);
    EndedSize(t.server);
    SubsetSize(LateSerials(es), Ended(t.server));
  }

  lemma ClosedOn(s: Sys, es: seq<SysEvent>, m: nat)
    requires Closed(s, es) && m in SysRun(s, es).server.calls
    ensures Closed(s, es + [Expire(m, [])])
  {
    var fs := es + [Expire(m, [])];
    assert fs[..|fs| - 1] == es;
  }

  /** A run after which no active call is left to end has finished every started task, except those it drifted for:
      while one is unfinished that it did not drift for, there is a call whose end extends the run. */
  lemma ClosedRunEndsFinished(s: Sys, es: seq<SysEvent>)
    requires SysInv(s) && Closed(s, es)
    requires forall m :: !Closed(s, es + [Expire(m, [])])
    ensures var t := SysRun(s, es);
            forall id :: 0 <= id < |t.tasks| ==>
              && t.tasks[id].Queries().outstanding == RunDrift(s, es, id)
              && (RunDrift(s, es, id) == 0 || AllHarmless(s, es) ==> t.tasks[id].Waiting() || t.tasks[id].Finished())
  {
    var t := SysRun(s, es);
    ClosedRun(s, es);
    if t.server.calls != map[] {
      var m :| m in t.server.calls;
      ClosedOn(s, es, m);
      assert false;
    }
    SysRunDrifts(s, es);
    SysRunKeeps(s, es);
    forall id | 0 <= id < |t.tasks|
      ensures t.tasks[id].Queries().outstanding == RunDrift(s, es, id)
      ensures RunDrift(s, es, id) == 0 || AllHarmless(s, es) ==> t.tasks[id].Waiting() || t.tasks[id].Finished()
    {
      QuietMeansNoCall(t, id);
      assert TaskCounts(t, id) && Balance(t, id) == RunDrift(s, es, id);
    }
  }
}
