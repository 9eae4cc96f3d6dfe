/** Lookup and announce tasks as state machines driven by responses and time-outs
    (libktorrent/kademlia/task.cpp, nodelookup.cpp, announcetask.cpp). */
module Tasks {
  import opened Keys
  import opened Contacts
  import DB = Database

  const MAX_CONCURRENT_REQS: nat := 16
  const K: nat := 8
  const MAX_RESPONSES: nat := 50
  const MAX_TODO: nat := 100

  /** The part shared by all tasks: contacts to query, contacts queried, requests under way.
      `ended` counts the requests that came to an end and `known` collects every contact the task was
      told of while it was running; both are history. */
  datatype Queries = Queries(
    todo: seq<Contact>, visited: seq<Contact>, outstanding: nat, ended: nat, known: set<Contact>)

  predicate CanDoRequest(outstanding: nat) { outstanding < MAX_CONCURRENT_REQS }

  /** The loop of `update` over the todo list. */
  function Advance(q: Queries): Queries
    decreases |q.todo|
  {
    if q.todo == [] || !CanDoRequest(q.outstanding) then q
    else if q.todo[0] in q.visited then Advance(q.(todo := q.todo[1..]))
    else Advance(q.(todo := q.todo[1..], visited := q.visited + [q.todo[0]], outstanding := q.outstanding + 1))
  }

  /** A request ended. */
  function EndRequest(q: Queries): Queries {
    if q.outstanding > 0 then q.(outstanding := q.outstanding - 1, ended := q.ended + 1) else q
  }

  /** Append the contacts of a response that are not listed yet. */
  function Learn(q: Queries, nodes: seq<Contact>, avoid: set<Key>, bounded: bool): Queries {
    if nodes == [] then q else
      var p := Learn(q, nodes[..|nodes| - 1], avoid, bounded);
      var e := nodes[|nodes| - 1];
      if e.id !in avoid && e !in p.todo && e !in p.visited && (bounded ==> |p.todo| < MAX_TODO)
      then p.(todo := p.todo + [e], known := p.known + {e}) else p
  }

  /** What a resolver result does: the contact joins the list, whatever the list holds. */
  function Resolve(q: Queries, e: Contact, finished: bool): Queries {
    q.(todo := q.todo + [e], known := if finished then q.known else q.known + {e})
  }

  function ToSet(s: seq<Contact>): set<Contact> { set e | e in s }

  function NewQueries(contacts: seq<Contact>): Queries {
    Queries(contacts, [], 0, 0, ToSet(contacts))
  }

  ghost predicate Distinct(s: seq<Contact>) {
    forall i, j :: 0 <= i < j < |s| ==> s[i] != s[j]
  }

  /** Nobody is queried twice, the bound on requests holds, and everyone known is listed. */
  ghost predicate QueriesOk(q: Queries) {
    && Distinct(q.visited)
    && q.outstanding <= MAX_CONCURRENT_REQS
    && (forall e :: e in q.visited ==> e in q.known)
    && (forall e :: e in q.known ==> e in q.visited || e in q.todo)
  }

  /** Everybody listed is known. */
  ghost predicate TodoKnown(q: Queries) {
    forall e :: e in q.todo ==> e in q.known
  }

  /** As many requests are out as may be and as there are contacts to query. */
  predicate Busy(q: Queries) { q.todo == [] || q.outstanding == MAX_CONCURRENT_REQS }

  /** The head of the list leaves it, queried or not. */
  lemma TakeKeeps(q: Queries)
    requires QueriesOk(q) && TodoKnown(q) && q.todo != []
    ensures var p := q.(todo := q.todo[1..]);
            && TodoKnown(p)
            && if q.todo[0] in q.visited then QueriesOk(p)
               else CanDoRequest(q.outstanding) ==>
                      QueriesOk(p.(visited := q.visited + [q.todo[0]], outstanding := q.outstanding + 1))
  {
    var e := q.todo[0];
    assert q.todo == [e] + q.todo[1..];
  }

  lemma {:induction false} AdvanceKeeps(q: Queries)
    requires QueriesOk(q) && TodoKnown(q)
    ensures QueriesOk(Advance(q)) && TodoKnown(Advance(q))
    ensures var r := Advance(q);
            && Busy(r)
            && q.visited <= r.visited
            && |r.visited| - |q.visited| == r.outstanding - q.outstanding
            && r.ended == q.ended && r.known == q.known
    decreases |q.todo|
  {
    if q.todo != [] && CanDoRequest(q.outstanding) {
      TakeKeeps(q);
      var p := q.(todo := q.todo[1..]);
      if q.todo[0] in q.visited {
        AdvanceKeeps(p);
      } else {
        AdvanceKeeps(p.(visited := q.visited + [q.todo[0]], outstanding := q.outstanding + 1));
      }
    }
  }

  lemma {:induction false} VisitedStays(q: Queries, e: Contact)
    requires e in q.visited
    ensures e in Advance(q).visited
    decreases |q.todo|
  {
    if q.todo != [] && CanDoRequest(q.outstanding) {
      var p := q.(todo := q.todo[1..]);
      VisitedStays(if q.todo[0] in q.visited then p
                   else p.(visited := q.visited + [q.todo[0]], outstanding := q.outstanding + 1), e);
    }
  }

  /** The list is worked off from its front: what leaves it has been asked, now or before. */
  lemma {:induction false} AdvanceInOrder(q: Queries)
    ensures var r := Advance(q); var gone := |q.todo| - |r.todo|;
            && gone >= 0 && r.todo == q.todo[gone..]
            && (forall e :: e in q.todo[..gone] ==> e in r.visited)
            && (forall e :: e in r.visited ==> e in q.visited || e in q.todo[..gone])
    decreases |q.todo|
  {
    if q.todo != [] && CanDoRequest(q.outstanding) {
      var p := q.(todo := q.todo[1..]);
      p := if q.todo[0] in q.visited then p
           else p.(visited := q.visited + [q.todo[0]], outstanding := q.outstanding + 1);
      AdvanceInOrder(p);
      var r := Advance(q);
      var gone := |q.todo| - |r.todo|;
      assert q.todo[..gone] == [q.todo[0]] + p.todo[..gone - 1];
      assert q.todo[0] in p.visited;
      VisitedStays(p, q.todo[0]);
    }
  }

  lemma {:induction false} LearnKeeps(q: Queries, nodes: seq<Contact>, avoid: set<Key>, bounded: bool)
    requires QueriesOk(q) && TodoKnown(q)
    ensures var r := Learn(q, nodes, avoid, bounded);
            && QueriesOk(r) && TodoKnown(r)
            && r.visited == q.visited && r.outstanding == q.outstanding && r.ended == q.ended
            && q.known <= r.known <= q.known + ToSet(nodes)
            && (forall e :: e in r.known - q.known ==> e.id !in avoid)
  {
    if nodes != [] {
      var n := |nodes| - 1;
      LearnKeeps(q, nodes[..n], avoid, bounded);
      assert nodes == nodes[..n] + [nodes[n]];
    }
  }

  /** `r` is what `q` becomes when some of `nodes` join the list at its end, nobody twice. */
  ghost predicate Joins(q: Queries, r: Queries, nodes: seq<Contact>, avoid: set<Key>) {
    && q.todo <= r.todo && r.visited == q.visited && (Distinct(q.todo) ==> Distinct(r.todo))
    && forall e :: e in r.todo[|q.todo|..] ==> e in nodes && e.id !in avoid && e !in q.visited
  }

  lemma JoinsOne(q: Queries, p: Queries, r: Queries, nodes: seq<Contact>, avoid: set<Key>, e: Contact)
    requires Joins(q, p, nodes, avoid) && e !in p.todo && e !in p.visited && e.id !in avoid
    requires r.todo == p.todo + [e] && r.visited == p.visited
    ensures Joins(q, r, nodes + [e], avoid)
  {
    assert r.todo[|q.todo|..] == p.todo[|q.todo|..] + [e];
  }

  lemma {:induction false} LearnAppends(q: Queries, nodes: seq<Contact>, avoid: set<Key>, bounded: bool)
    ensures Joins(q, Learn(q, nodes, avoid, bounded), nodes, avoid)
  {
    if nodes != [] {
      var n := |nodes| - 1;
      var p, r := Learn(q, nodes[..n], avoid, bounded), Learn(q, nodes, avoid, bounded);
      LearnAppends(q, nodes[..n], avoid, bounded);
      assert nodes == nodes[..n] + [nodes[n]];
      if r != p { JoinsOne(q, p, r, nodes[..n], avoid, nodes[n]); }
    }
  }

  /** Nobody named in a response is forgotten, unless the list has its limit and has come to it. */
  lemma {:induction false} LearnForgetsNobody(q: Queries, nodes: seq<Contact>, avoid: set<Key>, bounded: bool,
                                              e: Contact)
    requires e in nodes && e.id !in avoid
    ensures var r := Learn(q, nodes, avoid, bounded);
            e in r.todo || e in r.visited || (bounded && |r.todo| >= MAX_TODO)
  {
    var n := |nodes| - 1;
    assert nodes == nodes[..n] + [nodes[n]];
    if e in nodes[..n] { LearnForgetsNobody(q, nodes[..n], avoid, bounded, e); }
  }

  // ---- node lookups ----

  datatype Lookup = Lookup(q: Queries, finished: bool, queued: bool, responses: nat)

  /** What a call came back with, as far as the tasks look at it. */
  datatype Reply =
    | FoundNodes(nodes: seq<Contact>)
    | PeersNodes(nodes: seq<Contact>)
    | PeersValues(origin: Contact, token: Key, items: seq<DB.Item>)
    | OtherReply

  function LookupUpdate(l: Lookup): Lookup {
    var q := Advance(l.q);
    var l' := l.(q := q);
    if q.todo == [] && q.outstanding == 0 && !l.finished then l'.(finished := true)
    else if l.responses > MAX_RESPONSES then l'.(finished := true) else l'
  }

  function LookupStart(contacts: seq<Contact>, queued: bool): Lookup {
    var l := Lookup(NewQueries(contacts), false, queued, 0);
    if queued then l else LookupUpdate(l)
  }

  function LookupStartQueued(l: Lookup): Lookup {
    if l.queued then LookupUpdate(l.(queued := false)) else l
  }

  function LookupCallFinished(l: Lookup, ourId: Key, reply: Reply): Lookup {
    match reply
    case FoundNodes(nodes) => l.(q := Learn(l.q, nodes, {ourId}, false), responses := l.responses + 1)
    case _ => l
  }

  function LookupUpdateIfPossible(l: Lookup): Lookup {
    if CanDoRequest(l.q.outstanding) && !l.finished then LookupUpdate(l) else l
  }

  function LookupOnResponse(l: Lookup, ourId: Key, reply: Reply): Lookup {
    var l' := l.(q := EndRequest(l.q));
    if l.finished then l' else LookupUpdateIfPossible(LookupCallFinished(l', ourId, reply))
  }

  function LookupOnTimeout(l: Lookup): Lookup {
    var l' := l.(q := EndRequest(l.q));
    if l.finished then l' else LookupUpdateIfPossible(l')
  }

  /** What every event keeps of a lookup.  The last clause is the meaning of finishing: unless it
      gave up after 51 answers, a finished lookup has queried everyone it was ever told of and heard from all of
      them, or given up on them. */
  ghost predicate LookupInv(l: Lookup) {
    && QueriesOk(l.q)
    && |l.q.visited| == l.q.ended + l.q.outstanding
    && (l.queued ==> l.q.visited == [] && !l.finished)
    && (!l.finished ==> TodoKnown(l.q))
    && (!l.finished && !l.queued ==> l.q.outstanding >= 1)
    && (!l.finished ==> l.responses <= MAX_RESPONSES)
    && (l.finished && l.responses <= MAX_RESPONSES ==>
          l.q.outstanding == 0 && forall e :: e in l.q.known ==> e in l.q.visited)
  }

  lemma LookupUpdateKeeps(l: Lookup)
    requires QueriesOk(l.q) && |l.q.visited| == l.q.ended + l.q.outstanding && !l.queued && !l.finished
    requires TodoKnown(l.q)
    ensures LookupInv(LookupUpdate(l)) && l.q.visited <= LookupUpdate(l).q.visited && Busy(LookupUpdate(l).q)
  {
    AdvanceKeeps(l.q);
  }

  lemma LookupStartKeeps(contacts: seq<Contact>, queued: bool)
    ensures var l := LookupStart(contacts, queued);
            LookupInv(l) && l.queued == queued && l.q.known == ToSet(contacts) && (!queued ==> Busy(l.q))
  {
    if !queued {
      LookupUpdateKeeps(Lookup(NewQueries(contacts), false, false, 0));
      AdvanceKeeps(NewQueries(contacts));
    }
  }

  lemma LookupStartQueuedKeeps(l: Lookup)
    requires LookupInv(l)
    ensures var r := LookupStartQueued(l);
            && LookupInv(r) && !r.queued && (l.queued ==> Busy(r.q))
            && l.q.visited <= r.q.visited && r.q.ended == l.q.ended && r.q.known == l.q.known
  {
    if l.queued { AdvanceKeeps(l.q); LookupUpdateKeeps(l.(queued := false)); }
  }

  /** What a response teaches an unfinished lookup: the contacts it names other than ourselves, and no others. */
  predicate Teaches(l: Lookup, ourId: Key, reply: Reply, e: Contact) {
    !l.finished && reply.FoundNodes? && e in reply.nodes && e.id != ourId
  }

  lemma LookupResponseKeeps(l: Lookup, ourId: Key, reply: Reply)
    requires LookupInv(l) && l.q.outstanding >= 1
    ensures var r := LookupOnResponse(l, ourId, reply);
            && LookupInv(r) && l.q.visited <= r.q.visited && r.q.ended == l.q.ended + 1
            && (forall e :: e in r.q.known <==> e in l.q.known || Teaches(l, ourId, reply, e))
            && r.responses == l.responses + (if reply.FoundNodes? && !l.finished then 1 else 0)
            && (!l.finished ==> Busy(r.q))
  {
    var p := EndRequest(l.q);
    if !l.finished {
      if reply.FoundNodes? { LookupLearns(p, ourId, reply.nodes); }
      LookupUpdateKeeps(LookupCallFinished(l.(q := p), ourId, reply));
      AdvanceKeeps(LookupCallFinished(l.(q := p), ourId, reply).q);
    }
  }

  lemma LookupLearns(q: Queries, ourId: Key, nodes: seq<Contact>)
    requires QueriesOk(q) && TodoKnown(q)
    ensures var r := Learn(q, nodes, {ourId}, false);
            && QueriesOk(r) && TodoKnown(r)
            && r.visited == q.visited && r.outstanding == q.outstanding && r.ended == q.ended
            && forall e :: e in r.known <==> e in q.known || (e in nodes && e.id != ourId)
  {
    var r := Learn(q, nodes, {ourId}, false);
    LearnKeeps(q, nodes, {ourId}, false);
    forall e | e in nodes && e.id != ourId ensures e in r.known {
      LearnForgetsNobody(q, nodes, {ourId}, false, e);
    }
    forall e | e in r.known && e !in q.known ensures e in nodes && e.id != ourId {
      assert e in r.known - q.known;
    }
  }

  lemma LookupTimeoutKeeps(l: Lookup)
    requires LookupInv(l) && l.q.outstanding >= 1
    ensures var r := LookupOnTimeout(l);
            && LookupInv(r) && l.q.visited <= r.q.visited && r.q.ended == l.q.ended + 1
            && r.q.known == l.q.known && r.responses == l.responses && (!l.finished ==> Busy(r.q))
  {
    if !l.finished {
      LookupUpdateKeeps(l.(q := EndRequest(l.q)));
      AdvanceKeeps(EndRequest(l.q));
    }
  }

  lemma LookupResolveKeeps(l: Lookup, e: Contact)
    requires LookupInv(l)
    ensures var q := Resolve(l.q, e, l.finished);
            LookupInv(l.(q := q)) && e in q.todo && (!l.finished ==> q.known == l.q.known + {e})
  {
  }

  lemma {:induction false} DistinctWithin(s: seq<Contact>, universe: set<Contact>)
    requires Distinct(s) && forall e :: e in s ==> e in universe
    ensures |s| <= |universe|
  {
    if s != [] {
      var n := |s| - 1;
      assert s[n] !in s[..n];
      DistinctWithin(s[..n], universe - {s[n]});
    }
  }

  /** A lookup among N contacts is over once N of its requests have ended. */
  lemma LookupEnds(l: Lookup, universe: set<Contact>)
    requires LookupInv(l) && l.q.known <= universe
    ensures |l.q.visited| <= |universe|
    ensures l.q.ended >= |universe| ==> l.finished || l.queued
  {
    DistinctWithin(l.q.visited, universe);
  }

  // ---- announces ----

  /** A contact that returned values, with the token it gave. */
  datatype Answer = Answer(node: Contact, token: Key)

  /** `announced` is the source's `answered_visited`, `returned` its `returned_items`. */
  datatype Announce = Announce(q: Queries, answered: seq<Answer>, announced: seq<Contact>, finished: bool, queued: bool,
                               returned: seq<DB.Item>)

  predicate Answered(answers: seq<Answer>, e: Contact) {
    exists i :: 0 <= i < |answers| && answers[i].node == e
  }

  /** The loop of `update` over the answered list. */
  function SendAnnounces(a: Announce): Announce
    decreases |a.answered|
  {
    if a.answered == [] || !CanDoRequest(a.q.outstanding) then a
    else
      var e := a.answered[0].node;
      var a' := a.(answered := a.answered[1..]);
      if e in a.announced then SendAnnounces(a')
      else SendAnnounces(a'.(announced := a.announced + [e], q := a.q.(outstanding := a.q.outstanding + 1)))
  }

  function AnnounceUpdate(a: Announce): Announce {
    var b := SendAnnounces(a);
    var c := b.(q := Advance(b.q));
    if c.q.todo == [] && c.answered == [] && c.q.outstanding == 0 && !c.finished then c.(finished := true)
    else if |c.announced| >= K then c.(finished := true) else c
  }

  function AnnounceStart(contacts: seq<Contact>, queued: bool): Announce {
    var a := Announce(NewQueries(contacts), [], [], false, queued, []);
    if queued then a else AnnounceUpdate(a)
  }

  function AnnounceStartQueued(a: Announce): Announce {
    if a.queued then AnnounceUpdate(a.(queued := false)) else a
  }

  /** Replies to anything but get_peers are ignored. */
  function AnnounceCallFinished(a: Announce, reply: Reply): Announce {
    match reply
    case PeersNodes(nodes) => a.(q := Learn(a.q, nodes, {}, true))
    case PeersValues(origin, token, items) =>
      var b := a.(returned := a.returned + items);
      if !Answered(a.answered, origin) && origin !in a.announced
      then b.(answered := a.answered + [Answer(origin, token)]) else b
    case _ => a
  }

  function AnnounceUpdateIfPossible(a: Announce): Announce {
    if CanDoRequest(a.q.outstanding) && !a.finished then AnnounceUpdate(a) else a
  }

  function AnnounceOnResponse(a: Announce, reply: Reply): Announce {
    var a' := a.(q := EndRequest(a.q));
    if a.finished then a' else AnnounceUpdateIfPossible(AnnounceCallFinished(a', reply))
  }

  function AnnounceOnTimeout(a: Announce): Announce {
    var a' := a.(q := EndRequest(a.q));
    if a.finished then a' else AnnounceUpdateIfPossible(a')
  }

  /** Between events nobody waits to be announced to, so each event adds at most one announce. */
  ghost predicate AnnounceInv(a: Announce) {
    && QueriesOk(a.q)
    && Distinct(a.announced)
    && |a.q.visited| + |a.announced| == a.q.ended + a.q.outstanding
    && a.answered == []
    && |a.announced| <= K
    && (a.queued ==> a.q.visited == [] && a.announced == [] && !a.finished)
    && (!a.finished ==> TodoKnown(a.q))
    && (!a.finished ==> |a.announced| < K)
    && (!a.finished && !a.queued ==> a.q.outstanding >= 1)
    && (a.finished && |a.announced| < K ==> a.q.outstanding == 0 && forall e :: e in a.q.known ==> e in a.q.visited)
  }

  lemma SendAnnouncesKeeps(a: Announce)
    requires |a.answered| <= 1 && CanDoRequest(a.q.outstanding) && Distinct(a.announced)
    ensures var b := SendAnnounces(a);
            && b.answered == [] && Distinct(b.announced) && a.announced <= b.announced
            && b.announced == a.announced + (if a.answered != [] && a.answered[0].node !in a.announced
                                             then [a.answered[0].node] else [])
            && b == a.(answered := [], announced := b.announced,
                       q := a.q.(outstanding := a.q.outstanding + |b.announced| - |a.announced|))
  {
    if a.answered != [] {
      var a' := a.(answered := []);
      assert a.answered[1..] == [];
      var e := a.answered[0].node;
      if e !in a.announced {
        var b := a'.(announced := a.announced + [e], q := a.q.(outstanding := a.q.outstanding + 1));
        assert SendAnnounces(b) == b;
      } else {
        assert SendAnnounces(a') == a';
      }
    }
  }

  lemma AnnounceUpdateKeeps(a: Announce)
    requires QueriesOk(a.q) && Distinct(a.announced) && |a.answered| <= 1 && !a.queued && !a.finished
    requires |a.q.visited| + |a.announced| == a.q.ended + a.q.outstanding
    requires CanDoRequest(a.q.outstanding) && |a.announced| < K
    requires TodoKnown(a.q)
    ensures var b := AnnounceUpdate(a);
            && AnnounceInv(b) && a.q.visited <= b.q.visited && a.announced <= b.announced && b.q.ended == a.q.ended
            && b.announced == a.announced + (if a.answered != [] && a.answered[0].node !in a.announced
                                             then [a.answered[0].node] else [])
            && b.q.known == a.q.known && b.returned == a.returned && Busy(b.q)
  {
    SendAnnouncesKeeps(a);
    AdvanceKeeps(SendAnnounces(a).q);
  }

  lemma AnnounceStartKeeps(contacts: seq<Contact>, queued: bool)
    ensures var a := AnnounceStart(contacts, queued);
            AnnounceInv(a) && a.queued == queued && a.q.known == ToSet(contacts) && (!queued ==> Busy(a.q))
  {
    if !queued { AnnounceUpdateKeeps(Announce(NewQueries(contacts), [], [], false, false, [])); }
  }

  lemma AnnounceStartQueuedKeeps(a: Announce)
    requires AnnounceInv(a)
    ensures var b := AnnounceStartQueued(a);
            && AnnounceInv(b) && !b.queued && b.q.ended == a.q.ended && (a.queued ==> Busy(b.q))
            && a.q.visited <= b.q.visited && a.announced <= b.announced && b.q.known == a.q.known
  {
    if a.queued { AnnounceUpdateKeeps(a.(queued := false)); }
  }

  /** Whom a response makes an unfinished task announce to: the sender of values, unless it was announced to
      before. */
  function AnnouncesTo(a: Announce, reply: Reply): seq<Contact> {
    if !a.finished && reply.PeersValues? && reply.origin !in a.announced then [reply.origin] else []
  }

  function ItemsOf(a: Announce, reply: Reply): seq<DB.Item> {
    if !a.finished && reply.PeersValues? then reply.items else []
  }

  /** The list after a response that names contacts, before any is queried. */
  function ListAfter(a: Announce, nodes: seq<Contact>): seq<Contact> {
    Learn(EndRequest(a.q), nodes, {}, true).todo
  }

  lemma AnnounceResponseKeeps(a: Announce, reply: Reply)
    requires AnnounceInv(a) && a.q.outstanding >= 1
    ensures var b := AnnounceOnResponse(a, reply);
            && AnnounceInv(b) && a.q.visited <= b.q.visited && b.q.ended == a.q.ended + 1
            && b.announced == a.announced + AnnouncesTo(a, reply) && b.returned == a.returned + ItemsOf(a, reply)
            && (!a.finished ==> Busy(b.q))
            && (forall e :: e in a.q.known ==> e in b.q.known)
            && (forall e :: e in b.q.known ==> e in a.q.known || (!a.finished && reply.PeersNodes? && e in reply.nodes))
            && (!a.finished && reply.PeersNodes? ==> forall e :: e in reply.nodes ==>
                  e in b.q.known || |ListAfter(a, reply.nodes)| >= MAX_TODO)
  {
    var p := EndRequest(a.q);
    if !a.finished {
      if reply.PeersNodes? { AnnounceLearns(p, reply.nodes); }
      AnnounceUpdateKeeps(AnnounceCallFinished(a.(q := p), reply));
    }
  }

  lemma AnnounceLearns(q: Queries, nodes: seq<Contact>)
    requires QueriesOk(q) && TodoKnown(q)
    ensures var r := Learn(q, nodes, {}, true);
            && QueriesOk(r) && TodoKnown(r)
            && r.visited == q.visited && r.outstanding == q.outstanding && r.ended == q.ended
            && (forall e :: e in q.known ==> e in r.known)
            && (forall e :: e in r.known ==> e in q.known || e in nodes)
            && forall e :: e in nodes ==> e in r.known || |r.todo| >= MAX_TODO
  {
    LearnKeeps(q, nodes, {}, true);
    forall e | e in nodes ensures e in Learn(q, nodes, {}, true).known || |Learn(q, nodes, {}, true).todo| >= MAX_TODO {
      LearnForgetsNobody(q, nodes, {}, true, e);
    }
  }

  lemma AnnounceTimeoutKeeps(a: Announce)
    requires AnnounceInv(a) && a.q.outstanding >= 1
    ensures var b := AnnounceOnTimeout(a);
            && AnnounceInv(b) && a.q.visited <= b.q.visited && b.q.ended == a.q.ended + 1
            && b.announced == a.announced && b.returned == a.returned && b.q.known == a.q.known
            && (!a.finished ==> Busy(b.q))
  {
    if !a.finished { AnnounceUpdateKeeps(a.(q := EndRequest(a.q))); }
  }

  lemma AnnounceResolveKeeps(a: Announce, e: Contact)
    requires AnnounceInv(a)
    ensures var q := Resolve(a.q, e, a.finished);
            AnnounceInv(a.(q := q)) && e in q.todo && (!a.finished ==> q.known == a.q.known + {e})
  {
  }

  /** An announce among N contacts is over once N + 8 of its requests have ended, at most 8 of which
      announced. */
  lemma AnnounceEnds(a: Announce, universe: set<Contact>)
    requires AnnounceInv(a) && a.q.known <= universe
    ensures |a.q.visited| <= |universe| && |a.announced| <= K
    ensures a.q.ended >= |universe| + K ==> a.finished || a.queued
  {
    DistinctWithin(a.q.visited, universe);
  }
}
