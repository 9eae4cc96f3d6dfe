/** The ring buffer between a packet stream and a socket (libktorrent/net/circularbuffer.cpp). */
module CircularBuffers {
  import opened Bytes
  import opened BufferedSockets

  /** What the buffer is meant to be: a bounded queue. `first` is where its oldest byte lies in the array;
      `send` can leave it one past the end. */
  datatype Ring = Ring(cap: nat, first: nat, queue: seq<Byte>) {
    predicate Valid() { first <= cap && |queue| <= cap }
  }

  function Wrap(cap: nat, x: nat): nat { if x < cap then x else x - cap }

  lemma WrapIsMod(cap: nat, x: nat)
    requires x < 2 * cap
    ensures x % cap == Wrap(cap, x)
  {
    if x >= cap { ModUnique(x, cap, 1, x - cap); } else { ModUnique(x, cap, 0, x); }
  }

  // ---- the three operations ----

  /** How much `write` takes; a size of 0 asks it to fill the buffer. */
  function WriteCount(r: Ring, dsize: nat): nat
    requires r.Valid()
  {
    var free := r.cap - |r.queue|;
    if dsize == 0 then free else Least(dsize, free)
  }

  /** The data has the bytes it is said to have. */
  function Written(r: Ring, data: seq<Byte>, dsize: nat): Ring
    requires r.Valid()
  {
    r.(queue := r.queue + data[..Least(WriteCount(r, dsize), |data|)])
  }

  function ReadCount(r: Ring, max: nat): (n: nat)
    ensures n <= |r.queue|
  {
    Least(max, |r.queue|)
  }

  /** Where reading goes on after `n` bytes. */
  function Advance(cap: nat, first: nat, n: nat): nat {
    if n == 0 then first else Wrap(cap, (if first == cap then 0 else first) + n)
  }

  function ReadOut(r: Ring, max: nat): (t: Ring)
    requires r.Valid()
    ensures t.Valid()
  {
    var n := ReadCount(r, max);
    Ring(r.cap, Advance(r.cap, r.first, n), r.queue[n..])
  }

  /** What the reader gets; `outside` is the byte that lies behind the array, which is read in place of the
      oldest one when `first` has come to stand there. */
  function ReadData(r: Ring, max: nat, outside: Byte): (d: seq<Byte>)
    ensures |d| == ReadCount(r, max)
  {
    var n := ReadCount(r, max);
    if n == 0 || r.first < r.cap then r.queue[..n] else [outside] + r.queue[1..n]
  }

  /** The part of `n` bytes that the limit lets through; 0 is no limit. */
  function Limited(n: nat, max: nat): nat { if max > 0 then Least(n, max) else n }

  /** Where the queue starts after its first `n` bytes, which lie together, are gone. */
  function After(cap: nat, first: nat, size: nat, n: nat): nat {
    if first + size <= cap then first + n else Wrap(cap, first + n)
  }

  /** The ring and the wire after one call that offers the next `n` bytes, which lie together. */
  function PartOut(r: Ring, k: Kernel, w: Wire, n: nat): (Ring, Wire)
    requires r.Valid() && n <= |r.queue| && r.first + n <= r.cap
  {
    var ret := Taken(k, w, n);
    (Ring(r.cap, After(r.cap, r.first, |r.queue|, ret), r.queue[ret..]), Pushed(k, w, r.queue[..n]))
  }

  /** After `ret` of the `n` bytes up to the end of the array went: those at its start, if all of them did and
      the limit allows. */
  function SendRest(r: Ring, k: Kernel, w: Wire, max: nat, n: nat, ret: nat): (Ring, Wire, nat)
    requires r.Valid() && (ret == n && (max == 0 || max > ret) ==> r.first == 0)
  {
    if (max == 0 || max > ret) && ret == n && r.queue != [] then
      var n2 := Limited(|r.queue|, if max == 0 then 0 else max - ret);
      var (r2, w2) := PartOut(r, k, w, n2);
      (r2, w2, Taken(k, w, n2))
    else (r, w, 0)
  }

  /** `send` when the bytes wrap around. */
  function SendWrapped(r: Ring, k: Kernel, w: Wire, max: nat): (Ring, Wire, nat)
    requires r.Valid() && r.first + |r.queue| > r.cap
  {
    var n := Limited(r.cap - r.first, max);
    var ret := Taken(k, w, n);
    var (r1, w1) := PartOut(r, k, w, n);
    var (r2, w2, ret2) := SendRest(r1, k, w1, max, n, ret);
    (r2, w2, ret + ret2)
  }

  /** The ring, the wire and the count after `send`. */
  function SendOut(r: Ring, k: Kernel, w: Wire, max: nat): (Ring, Wire, nat)
    requires r.Valid()
  {
    if r.queue == [] then (r, w, 0)
    else if r.first + |r.queue| <= r.cap then
      var n := Limited(|r.queue|, max);
      var (r1, w1) := PartOut(r, k, w, n);
      (r1, w1, Taken(k, w, n))
    else SendWrapped(r, k, w, max)
  }

  lemma SliceTwice(w: seq<Byte>, q: seq<Byte>, a: nat, b: nat)
    requires a + b <= |q|
    ensures w + q[..a] + q[a..][..b] == w + q[..a + b] && q[a..][b..] == q[a + b..]
  {
  }

  /** One call takes bytes from the front of the queue to the end of the wire. */
  lemma PartIsDequeue(r: Ring, k: Kernel, w: Wire, n: nat)
    requires r.Valid() && n <= |r.queue| && r.first + n <= r.cap
    ensures var (r1, w1) := PartOut(r, k, w, n); var ret := Taken(k, w, n);
            && ret <= n && r1.queue == r.queue[ret..] && w1.bytes == w.bytes + r.queue[..ret]
            && r1.Valid() && r1.cap == r.cap
  {
    assert r.queue[..n][..Taken(k, w, n)] == r.queue[..Taken(k, w, n)];
  }

  lemma RestIsDequeue(r: Ring, k: Kernel, w: Wire, max: nat, n: nat, ret: nat)
    requires r.Valid() && (ret == n && (max == 0 || max > ret) ==> r.first == 0) && (max > 0 ==> ret <= max)
    ensures var (t, w1, ret2) := SendRest(r, k, w, max, n, ret);
            && ret2 <= |r.queue| && (max > 0 ==> ret + ret2 <= max)
            && t.queue == r.queue[ret2..] && w1.bytes == w.bytes + r.queue[..ret2]
            && t.Valid() && t.cap == r.cap
  {
    if (max == 0 || max > ret) && ret == n && r.queue != [] {
      PartIsDequeue(r, k, w, Limited(|r.queue|, if max == 0 then 0 else max - ret));
    }
  }

  /** So does `send`, within the limit. */
  lemma WrappedIsDequeue(r: Ring, k: Kernel, w: Wire, max: nat)
    requires r.Valid() && r.first + |r.queue| > r.cap
    ensures var (t, w1, ret) := SendWrapped(r, k, w, max);
            && ret <= Limited(|r.queue|, max)
            && t.queue == r.queue[ret..] && w1.bytes == w.bytes + r.queue[..ret]
            && t.Valid() && t.cap == r.cap
  {
    var n := Limited(r.cap - r.first, max);
    var ret := Taken(k, w, n);
    var (r1, w1) := PartOut(r, k, w, n);
    PartIsDequeue(r, k, w, n);
    RestIsDequeue(r1, k, w1, max, n, ret);
    var (t, w2, ret2) := SendRest(r1, k, w1, max, n, ret);
    assert SendWrapped(r, k, w, max) == (t, w2, ret + ret2);
    SliceTwice(w.bytes, r.queue, ret, ret2);
  }

  lemma SendIsDequeue(r: Ring, k: Kernel, w: Wire, max: nat)
    requires r.Valid()
    ensures var (t, w1, ret) := SendOut(r, k, w, max);
            && ret <= Limited(|r.queue|, max)
            && t.queue == r.queue[ret..] && w1.bytes == w.bytes + r.queue[..ret]
            && t.Valid() && t.cap == r.cap
  {
    if r.queue == [] {
    } else if r.first + |r.queue| <= r.cap {
      PartIsDequeue(r, k, w, Limited(|r.queue|, max));
    } else {
      WrappedIsDequeue(r, k, w, max);
    }
  }

  /** `send` ends one past the end of the array exactly when it empties a queue that ended there, or a full
      buffer from there on. */
  lemma SendParks(r: Ring, k: Kernel, w: Wire, max: nat)
    requires r.Valid() && r.queue != []
    ensures var (t, _, ret) := SendOut(r, k, w, max);
            t.first == r.cap <==> ret == |r.queue| && (r.first + ret == r.cap || r.first + ret == 2 * r.cap)
  {
  }

  // ---- runs ----

  datatype Op = Write(data: seq<Byte>, dsize: nat) | Read(max: nat, outside: Byte) | Send(limit: nat)

  /** The ring, the socket's wire, all bytes ever accepted, all bytes taken off the queue, in order, and the bytes
      that readers and socket were handed for them. */
  datatype Pipe = Pipe(ring: Ring, wire: Wire, accepted: seq<Byte>, gone: seq<Byte>, handed: seq<Byte>)

  function Step(k: Kernel, p: Pipe, op: Op): (q: Pipe)
    requires p.ring.Valid()
    ensures q.ring.Valid() && q.ring.cap == p.ring.cap
  {
    var queue := p.ring.queue;
    match op
    case Write(data, dsize) =>
      var n := Least(WriteCount(p.ring, dsize), |data|);
      Pipe(Written(p.ring, data, dsize), p.wire, p.accepted + data[..n], p.gone, p.handed)
    case Read(max, outside) =>
      Pipe(ReadOut(p.ring, max), p.wire, p.accepted, p.gone + queue[..ReadCount(p.ring, max)],
           p.handed + ReadData(p.ring, max, outside))
    case Send(limit) =>
      SendIsDequeue(p.ring, k, p.wire, limit);
      var (t, w, ret) := SendOut(p.ring, k, p.wire, limit);
      Pipe(t, w, p.accepted, p.gone + queue[..ret], p.handed + queue[..ret])
  }

  function Run(k: Kernel, p: Pipe, ops: seq<Op>): (q: Pipe)
    requires p.ring.Valid()
    ensures q.ring.Valid() && q.ring.cap == p.ring.cap
    decreases |ops|
  {
    if ops == [] then p else Step(k, Run(k, p, ops[..|ops| - 1]), ops[|ops| - 1])
  }

  /** No operation does less than it can: a write of enough data takes all it is asked to take or fills the buffer,
      a read takes all it is asked for or empties it, and so does a send whose socket takes what it is offered. */
  lemma StepIsEager(k: Kernel, p: Pipe, op: Op)
    requires p.ring.Valid()
    ensures var size, size1 := |p.ring.queue|, |Step(k, p, op).ring.queue|;
            && (op.Write? && |op.data| >= p.ring.cap ==>
                  size1 == if op.dsize == 0 || size + op.dsize > p.ring.cap then p.ring.cap else size + op.dsize)
            && (op.Read? ==> size1 == if size <= op.max then 0 else size - op.max)
            && (op.Send? && k(p.wire.calls) >= size && k(p.wire.calls + 1) >= size ==>
                  size1 == if op.limit == 0 || size <= op.limit then 0 else size - op.limit)
  {
    if op.Send? { SendIsDequeue(p.ring, k, p.wire, op.limit); }
  }

  /** Whatever the socket takes, bytes stay behind within the limit only because it took less than offered. */
  lemma SendStops(r: Ring, k: Kernel, w: Wire, max: nat)
    requires r.Valid()
    ensures var (t, w1, ret) := SendOut(r, k, w, max);
            t.queue != [] && (max == 0 || ret < max) ==>
              w.calls < w1.calls <= w.calls + 2 && k(w1.calls - 1) < |r.queue|
  {
    SendIsDequeue(r, k, w, max);
  }

  ghost predicate Fifo(p: Pipe) { p.gone + p.ring.queue == p.accepted && |p.handed| == |p.gone| }

  lemma MovedAlong(gone: seq<Byte>, q: seq<Byte>, n: nat)
    requires n <= |q|
    ensures gone + q[..n] + q[n..] == gone + q
  {
  }

  lemma Joined(gone: seq<Byte>, q: seq<Byte>, d: seq<Byte>)
    ensures gone + (q + d) == gone + q + d
  {
  }

  lemma StepFifo(k: Kernel, p: Pipe, op: Op)
    requires p.ring.Valid() && Fifo(p)
    ensures Fifo(Step(k, p, op))
  {
    match op
    case Write(data, dsize) => Joined(p.gone, p.ring.queue, data[..Least(WriteCount(p.ring, dsize), |data|)]);
    case Read(max, outside) => MovedAlong(p.gone, p.ring.queue, ReadCount(p.ring, max));
    case Send(limit) =>
      SendIsDequeue(p.ring, k, p.wire, limit);
      MovedAlong(p.gone, p.ring.queue, SendOut(p.ring, k, p.wire, limit).2);
  }

  /** In every run of writes, reads and sends the bytes are taken off in the order they came, none lost and none
      twice: what was taken off, then what is still queued, is what was accepted. */
  lemma {:induction false} RunFifo(k: Kernel, p: Pipe, ops: seq<Op>)
    requires p.ring.Valid() && Fifo(p)
    ensures Fifo(Run(k, p, ops))
    decreases |ops|
  {
    if ops == [] {
    } else {
      RunFifo(k, p, ops[..|ops| - 1]);
      StepFifo(k, Run(k, p, ops[..|ops| - 1]), ops[|ops| - 1]);
    }
  }

  /** `send` empties a queue that ends where the array does. */
  predicate ParksNow(k: Kernel, p: Pipe, limit: nat)
    requires p.ring.Valid()
  {
    var r, ret := p.ring, SendOut(p.ring, k, p.wire, limit).2;
    ret == |r.queue| && (r.first + ret == r.cap || r.first + ret == 2 * r.cap)
  }

  /** Told from the operations: the last one that took anything off (or sent anything of a non-empty queue) was a
      `send` that emptied the queue at the end of the array. */
  predicate Parked(k: Kernel, p: Pipe, ops: seq<Op>)
    requires p.ring.Valid()
    decreases |ops|
  {
    if ops == [] then p.ring.first == p.ring.cap else
      var init := ops[..|ops| - 1];
      var q := Run(k, p, init);
      match ops[|ops| - 1]
      case Write(_, _) => Parked(k, p, init)
      case Read(max, _) => ReadCount(q.ring, max) == 0 && Parked(k, p, init)
      case Send(limit) => if q.ring.queue == [] then Parked(k, p, init) else ParksNow(k, q, limit)
  }

  lemma {:induction false} ParkedIs(k: Kernel, p: Pipe, ops: seq<Op>)
    requires p.ring.Valid()
    ensures Run(k, p, ops).ring.first == p.ring.cap <==> Parked(k, p, ops)
    decreases |ops|
  {
    if ops != [] {
      var q := Run(k, p, ops[..|ops| - 1]);
      ParkedIs(k, p, ops[..|ops| - 1]);
      match ops[|ops| - 1]
      case Write(_, _) =>
      case Read(max, _) =>
      case Send(limit) => if q.ring.queue != [] { SendParks(q.ring, k, q.wire, limit); }
    }
  }

  /** Read `i` takes a byte from behind the array, and it is not the right one by chance. */
  predicate BadRead(k: Kernel, p: Pipe, ops: seq<Op>, i: nat)
    requires p.ring.Valid() && i < |ops|
  {
    var q := Run(k, p, ops[..i]);
    && ops[i].Read? && ReadCount(q.ring, ops[i].max) > 0
    && Parked(k, p, ops[..i]) && ops[i].outside != q.ring.queue[0]
  }

  ghost predicate NoBadRead(k: Kernel, p: Pipe, ops: seq<Op>)
    requires p.ring.Valid()
  {
    forall i :: 0 <= i < |ops| ==> !BadRead(k, p, ops, i)
  }

  lemma BadReadPrefix(k: Kernel, p: Pipe, ops: seq<Op>)
    requires p.ring.Valid() && ops != []
    ensures NoBadRead(k, p, ops) <==> NoBadRead(k, p, ops[..|ops| - 1]) && !BadRead(k, p, ops, |ops| - 1)
  {
    var init := ops[..|ops| - 1];
    forall i | 0 <= i < |init| ensures BadRead(k, p, init, i) <==> BadRead(k, p, ops, i) {
      assert init[..i] == ops[..i];
    }
  }

  lemma SameTails(a: seq<Byte>, b: seq<Byte>, c: seq<Byte>, d: seq<Byte>)
    requires |a| == |b| && |c| == |d|
    ensures a + c == b + d <==> a == b && c == d
  {
    if a + c == b + d {
      assert (a + c)[..|a|] == a && (b + d)[..|a|] == b;
      assert (a + c)[|a|..] == c && (b + d)[|a|..] == d;
    }
  }

  lemma ReadDataIs(r: Ring, max: nat, outside: Byte)
    requires r.Valid()
    ensures ReadData(r, max, outside) == r.queue[..ReadCount(r, max)] <==>
            !(ReadCount(r, max) > 0 && r.first == r.cap && outside != r.queue[0])
  {
    var n := ReadCount(r, max);
    if n > 0 {
      assert r.queue[..n] == [r.queue[0]] + r.queue[1..n];
      assert ([outside] + r.queue[1..n])[0] == outside;
    }
  }

  /** In every run readers and socket are handed exactly the bytes taken off, if and only if no read is bad. */
  lemma {:induction false} RunHandsOver(k: Kernel, p: Pipe, ops: seq<Op>)
    requires p.ring.Valid() && Fifo(p) && p.handed == p.gone
    ensures Run(k, p, ops).handed == Run(k, p, ops).gone <==> NoBadRead(k, p, ops)
    decreases |ops|
  {
    if ops != [] {
      var init := ops[..|ops| - 1];
      var q, op := Run(k, p, init), ops[|ops| - 1];
      RunHandsOver(k, p, init);
      BadReadPrefix(k, p, ops);
      RunFifo(k, p, init);
      ParkedIs(k, p, init);
      match op
      case Write(_, _) =>
      case Read(max, outside) =>
        ReadDataIs(q.ring, max, outside);
        SameTails(q.handed, q.gone, ReadData(q.ring, max, outside), q.ring.queue[..ReadCount(q.ring, max)]);
      case Send(limit) =>
        SendIsDequeue(q.ring, k, q.wire, limit);
        var sent := q.ring.queue[..SendOut(q.ring, k, q.wire, limit).2];
        SameTails(q.handed, q.gone, sent, sent);
    }
  }

  /** From a wire `w0` and removed bytes `g0` on, the wire carries exactly what left. */
  ghost predicate OnWire(p: Pipe, w0: seq<Byte>, g0: seq<Byte>) {
    g0 <= p.gone && p.wire.bytes == w0 + p.gone[|g0|..]
  }

  lemma MoreOnWire(w0: seq<Byte>, g0: seq<Byte>, gone: seq<Byte>, d: seq<Byte>)
    requires g0 <= gone
    ensures g0 <= gone + d && w0 + gone[|g0|..] + d == w0 + (gone + d)[|g0|..]
  {
    assert (gone + d)[|g0|..] == gone[|g0|..] + d;
  }

  lemma StepOnWire(k: Kernel, p: Pipe, op: Op, w0: seq<Byte>, g0: seq<Byte>)
    requires p.ring.Valid() && !op.Read? && OnWire(p, w0, g0)
    ensures OnWire(Step(k, p, op), w0, g0)
  {
    if op.Send? {
      SendIsDequeue(p.ring, k, p.wire, op.limit);
      MoreOnWire(w0, g0, p.gone, p.ring.queue[..SendOut(p.ring, k, p.wire, op.limit).2]);
    }
  }

  /** In runs of writes and sends the wire carries exactly what left. */
  lemma {:induction false} SendRun(k: Kernel, p: Pipe, ops: seq<Op>, w0: seq<Byte>, g0: seq<Byte>)
    requires p.ring.Valid() && OnWire(p, w0, g0)
    requires forall i :: 0 <= i < |ops| ==> !ops[i].Read?
    ensures OnWire(Run(k, p, ops), w0, g0)
    decreases |ops|
  {
    if ops == [] {
    } else {
      SendRun(k, p, ops[..|ops| - 1], w0, g0);
      StepOnWire(k, Run(k, p, ops[..|ops| - 1]), ops[|ops| - 1], w0, g0);
    }
  }

  /** Runs of writes and reads from inside the array stay inside it. */
  lemma {:induction false} ReadRun(k: Kernel, p: Pipe, ops: seq<Op>)
    requires p.ring.Valid() && p.ring.first < p.ring.cap
    requires forall i :: 0 <= i < |ops| ==> !ops[i].Send?
    ensures Run(k, p, ops).ring.first < p.ring.cap && Run(k, p, ops).wire == p.wire
    ensures NoBadRead(k, p, ops)
    decreases |ops|
  {
    if ops == [] {
    } else {
      ReadRun(k, p, ops[..|ops| - 1]);
      BadReadPrefix(k, p, ops);
      ParkedIs(k, p, ops[..|ops| - 1]);
    }
  }

  lemma RunThree(k: Kernel, p: Pipe, a: Op, b: Op, c: Op)
    requires p.ring.Valid()
    ensures Run(k, p, [a, b, c]) == Step(k, Step(k, Step(k, p, a), b), c)
  {
    var three, two := [a, b, c], [a, b];
    assert three[..2] == two && two[..1] == [a] && [a][..0] == [];
    assert Run(k, p, []) == p;
    assert Run(k, p, [a]) == Step(k, p, a);
    assert Run(k, p, two) == Step(k, Run(k, p, [a]), b);
  }

  /** A bad read: `send` empties a buffer that ended at the end of the array, a byte is written, and the reader is
      handed whatever lies behind the array instead. */
  lemma ReadAfterSend(k: Kernel, p: Pipe, b: Byte, outside: Byte)
    requires p.ring.Valid() && p.ring.queue != [] && p.ring.first + |p.ring.queue| == p.ring.cap
    requires k(p.wire.calls) >= |p.ring.queue|
    ensures Run(k, p, [Send(0), Write([b], 1), Read(1, outside)]).handed == p.handed + p.ring.queue + [outside]
  {
    var op1, op2, op3 := Send(0), Write([b], 1), Read(1, outside);
    SendParks(p.ring, k, p.wire, 0);
    SendIsDequeue(p.ring, k, p.wire, 0);
    var p1 := Step(k, p, op1);
    assert p1.ring == Ring(p.ring.cap, p.ring.cap, []) && p1.handed == p.handed + p.ring.queue;
    var p2 := Step(k, p1, op2);
    assert p2.ring == Ring(p.ring.cap, p.ring.cap, [b]);
    assert ReadData(p2.ring, 1, outside) == [outside];
    RunThree(k, p, op1, op2, op3);
  }

  // ---- the buffer ----

  /** Array `a` holds the queue from `first` on, wrapping around. */
  ghost predicate Holds(a: seq<Byte>, first: nat, queue: seq<Byte>) {
    && first <= |a| && |queue| <= |a|
    && forall i :: 0 <= i < |queue| ==> queue[i] == a[Wrap(|a|, first + i)]
  }

  lemma HeldFront(a: seq<Byte>, first: nat, queue: seq<Byte>, n: nat)
    requires Holds(a, first, queue) && n <= |queue| && first + n <= |a|
    ensures queue[..n] == a[first..first + n]
  {
  }

  lemma HeldWithout(a: seq<Byte>, first: nat, queue: seq<Byte>, n: nat)
    requires Holds(a, first, queue) && n <= |queue| && first + n <= |a|
    ensures Holds(a, After(|a|, first, |queue|, n), queue[n..])
  {
    var rest, next := queue[n..], After(|a|, first, |queue|, n);
    forall i | 0 <= i < |rest| ensures rest[i] == a[Wrap(|a|, next + i)] {
      assert rest[i] == queue[n + i];
    }
  }

  /** The same when the queue is taken to begin one past the array: it lies at its start. */
  lemma HeldParked(a: seq<Byte>, queue: seq<Byte>)
    requires Holds(a, |a|, queue) && queue != []
    ensures Holds(a, Advance(|a|, |a|, 1), queue[1..])
  {
    var rest, next := queue[1..], Advance(|a|, |a|, 1);
    forall i | 0 <= i < |rest| ensures rest[i] == a[Wrap(|a|, next + i)] {
      assert rest[i] == queue[i + 1];
    }
  }

  /** A byte put behind the queue joins it and changes nothing in it. */
  lemma HeldWith(a: seq<Byte>, first: nat, queue: seq<Byte>, b: Byte)
    requires Holds(a, first, queue) && |queue| < |a|
    ensures Holds(a[Wrap(|a|, first + |queue|) := b], first, queue + [b])
  {
  }

  /** Reading one byte more. */
  lemma OneMore(r: Ring, n: nat, outside: Byte)
    requires r.Valid() && n < |r.queue|
    ensures var t := ReadOut(r, n);
            && ReadOut(r, n + 1) == Ring(r.cap, Advance(r.cap, t.first, 1), t.queue[1..])
            && ReadData(r, n + 1, outside)
               == ReadData(r, n, outside) + [if t.first < r.cap then t.queue[0] else outside]
  {
    assert r.queue[n..][1..] == r.queue[n + 1..];
    assert r.queue[..n + 1] == r.queue[..n] + [r.queue[n]];
    if n > 0 { assert r.queue[1..n + 1] == r.queue[1..n] + [r.queue[n]]; }
  }

  class CircularBuffer {
    const buf: array<Byte>
    var first: nat
    var size: nat
    ghost var queue: seq<Byte>

    ghost predicate Valid()
      reads this, buf
    {
      size == |queue| && Holds(buf[..], first, queue)
    }

    ghost function View(): (r: Ring)
      requires Valid()
      reads this, buf
      ensures r.Valid()
    {
      Ring(buf.Length, first, queue)
    }

    constructor (maxSize: nat)
      ensures Valid() && fresh(buf) && View() == Ring(maxSize, 0, [])
    {
      buf := new Byte[maxSize];
      first, size, queue := 0, 0, [];
    }

    /** One turn of the loop of `write`. */
    method Put(wp: nat, b: Byte)
      requires Valid() && size < buf.Length && wp == Wrap(buf.Length, first + size)
      modifies this`size, this`queue, buf
      ensures Valid() && queue == old(queue) + [b]
    {
      HeldWith(buf[..], first, queue, b);
      buf[wp] := b;
      assert buf[..] == old(buf[..])[wp := b];
      size, queue := size + 1, queue + [b];
    }

    method Write(data: seq<Byte>, dsize: nat) returns (j: nat)
      requires Valid() && WriteCount(View(), dsize) <= |data|
      modifies this`size, this`queue, buf
      ensures Valid() && View() == Written(old(View()), data, dsize) && j == WriteCount(old(View()), dsize)
    {
      j := 0;
      if size == buf.Length {
        assert data[..0] == [];
        return;
      }
      var wp := (first + size) % buf.Length;
      WrapIsMod(buf.Length, first + size);
      while size < buf.Length && (dsize == 0 || j < dsize)
        invariant Valid() && first == old(first) && j <= |data| && size == old(size) + j && (dsize > 0 ==> j <= dsize)
        invariant size < buf.Length ==> wp == Wrap(buf.Length, first + size)
        invariant queue == old(queue) + data[..j]
      {
        Put(wp, data[j]);
        j := j + 1;
        assert data[..j] == data[..j - 1] + [data[j - 1]];
        WrapIsMod(buf.Length, wp + 1);
        wp := (wp + 1) % buf.Length;
      }
    }

    /** One turn of the loop of `read`; `outside` is the byte behind the array. */
    method Get(outside: Byte) returns (b: Byte)
      requires Valid() && size > 0
      modifies this
      ensures Valid() && first < buf.Length && first == Advance(buf.Length, old(first), 1)
      ensures b == if old(first) < buf.Length then old(queue)[0] else outside
      ensures queue == old(queue)[1..]
    {
      if first < buf.Length {
        HeldWithout(buf[..], first, queue, 1);
        b := buf[first];
        WrapIsMod(buf.Length, first + 1);
      } else {
        HeldParked(buf[..], queue);
        b := outside;
        ModUnique(first + 1, buf.Length, if buf.Length == 1 then 2 else 1, if buf.Length == 1 then 0 else 1);
      }
      first := (first + 1) % buf.Length;
      size, queue := size - 1, queue[1..];
    }

    method Read(max: nat, outside: Byte) returns (data: seq<Byte>)
      requires Valid()
      modifies this
      ensures Valid() && View() == ReadOut(old(View()), max)
      ensures data == ReadData(old(View()), max, outside)
    {
      data := [];
      if size == 0 { return; }
      ghost var r := View();
      while size > 0 && |data| < max
        invariant Valid() && |data| <= max && size == |r.queue| - |data|
        invariant View() == ReadOut(r, |data|) && data == ReadData(r, |data|, outside)
      {
        OneMore(r, |data|, outside);
        var b := Get(outside);
        data := data + [b];
      }
    }

    method Send(s: BufferedSocket, max: nat) returns (ret: nat)
      requires Valid()
      modifies this, s`wire
      ensures Valid() && (View(), s.wire, ret) == SendOut(old(View()), s.kernel, old(s.wire), max)
    {
      if size == 0 { return 0; }
      if first + size <= buf.Length {
        ret := SendPart(s, Limited(size, max));
      } else {
        ret := SendAround(s, max);
      }
    }

    /** Both of its branches for bytes that wrap around. */
    method SendAround(s: BufferedSocket, max: nat) returns (ret: nat)
      requires Valid() && first + size > buf.Length
      modifies this, s`wire
      ensures Valid() && (View(), s.wire, ret) == SendWrapped(old(View()), s.kernel, old(s.wire), max)
    {
      var n := Limited(buf.Length - first, max);
      ret := SendPart(s, n);
      var ret2 := SendMore(s, max, n, ret);
      ret := ret + ret2;
    }

    method SendMore(s: BufferedSocket, max: nat, n: nat, ret: nat) returns (ret2: nat)
      requires Valid() && (ret == n && (max == 0 || max > ret) ==> first == 0)
      modifies this, s`wire
      ensures Valid() && (View(), s.wire, ret2) == SendRest(old(View()), s.kernel, old(s.wire), max, n, ret)
    {
      ret2 := 0;
      if (max == 0 || max > ret) && ret == n && size > 0 {
        ret2 := SendPart(s, Limited(size, if max == 0 then 0 else max - ret));
      }
    }

    /** Send the next `n` bytes, which lie together; from the end of the array on, start again at 0 when more
        bytes remain there. */
    method SendPart(s: BufferedSocket, n: nat) returns (ret: nat)
      requires Valid() && n <= size && first + n <= buf.Length
      modifies this, s`wire
      ensures Valid() && ret == Taken(s.kernel, old(s.wire), n)
      ensures (View(), s.wire) == PartOut(old(View()), s.kernel, old(s.wire), n)
    {
      HeldFront(buf[..], first, queue, n);
      ret := s.Send(buf[first..first + n]);
      HeldWithout(buf[..], first, queue, ret);
      if first + size <= buf.Length {
        first := first + ret;
      } else {
        WrapIsMod(buf.Length, first + ret);
        first := (first + ret) % buf.Length;
      }
      size, queue := size - ret, queue[ret..];
    }
  }
}
