/** A socket with an output buffer that is refilled by a packet writer (libktorrent/net/bufferedsocket.cpp). */
module BufferedSockets {
  import opened Bytes

  const OUTPUT_BUFFER_SIZE := 16393
  const UINT32 := 0x1_0000_0000

  /** What the writer puts into the output buffer at one call. */
  type Chunk = c: seq<Byte> | |c| <= OUTPUT_BUFFER_SIZE

  /** How many bytes the kernel is ready to take (or has ready) at each call, in order. */
  type Kernel = nat -> nat

  function Least(a: nat, b: nat): nat { if a < b then a else b }

  /** The bytes that left through the socket and the number of `send` calls so far. */
  datatype Wire = Wire(bytes: seq<Byte>, calls: nat)

  function Taken(k: Kernel, w: Wire, n: nat): nat { Least(k(w.calls), n) }

  function Pushed(k: Kernel, w: Wire, data: seq<Byte>): Wire {
    Wire(w.bytes + data[..Taken(k, w, |data|)], w.calls + 1)
  }

  /** `rest` are the bytes of the output buffer still to send, `sent` how many before them were sent,
      `pending` what the writer will still supply, `lost` counts bytes discarded unsent. */
  datatype State = State(wire: Wire, rest: seq<Byte>, sent: nat, pending: seq<Chunk>, lost: nat) {
    predicate Valid() { sent + |rest| <= OUTPUT_BUFFER_SIZE }
  }

  // ---- sending the output buffer ----

  /** The branch that tries to send everything. */
  predicate SendsAll(s: State, max: nat) { max == 0 || |s.rest| <= max }

  function Attempt(s: State, max: nat): (n: nat)
    ensures n <= |s.rest|
  {
    if SendsAll(s, max) then |s.rest| else max
  }

  /** A partial send of everything after which the two counters happen to be equal. */
  predicate Drops(k: Kernel, s: State, max: nat) {
    var ret := Taken(k, s.wire, Attempt(s, max));
    s.rest != [] && SendsAll(s, max) && ret > 0 && s.sent + ret == |s.rest| - ret
  }

  /** The next `n` bytes of the buffer are given to the kernel. */
  function Sent(k: Kernel, s: State, n: nat): State
    requires n <= |s.rest|
  {
    var ret := Taken(k, s.wire, n);
    State(Pushed(k, s.wire, s.rest[..n]), s.rest[ret..], s.sent + ret, s.pending, s.lost)
  }

  function SendOutput(k: Kernel, s: State, max: nat): (State, nat) {
    if s.rest == [] then (s, 0) else
      var n := Attempt(s, max);
      var t, ret := Sent(k, s, n), Taken(k, s.wire, n);
      if Drops(k, s, max) then (t.(rest := [], sent := 0, lost := t.lost + |t.rest|), ret) else (t, ret)
  }

  function Flat(pending: seq<Chunk>): seq<Byte> {
    if pending == [] then [] else pending[0] + Flat(pending[1..])
  }

  /** Everything sent, buffered or still to be supplied, in order. */
  function Stream(s: State): seq<Byte> { s.wire.bytes + s.rest + Flat(s.pending) }

  /** One send moves bytes from the buffer to the wire, as many as buffer, limit and kernel have room for; it loses
      some exactly in the case `Drops`. */
  lemma SendOutputStream(k: Kernel, s: State, max: nat)
    requires s.Valid()
    ensures var (t, ret) := SendOutput(k, s, max);
            && t.Valid() && t.pending == s.pending
            && t.wire.bytes == s.wire.bytes + s.rest[..ret] && ret <= |s.rest| && (max > 0 ==> ret <= max)
            && (ret == |s.rest| || (max > 0 && ret == max) || ret == k(s.wire.calls))
            && (Drops(k, s, max) <==> t.lost > s.lost)
            && (!Drops(k, s, max) ==> t.lost == s.lost && Stream(t) == Stream(s))
            && |Stream(t)| + t.lost == |Stream(s)| + s.lost
  {
    if s.rest != [] {
      var n := Attempt(s, max);
      var ret := Taken(k, s.wire, n);
      assert s.rest[..n][..ret] == s.rest[..ret];
      assert s.rest == s.rest[..ret] + s.rest[ret..];
      var rest, more := s.rest[ret..], Flat(s.pending);
      assert s.wire.bytes + s.rest + more == (s.wire.bytes + s.rest[..ret]) + rest + more;
    }
  }

  // ---- writing ----

  function Filled(s: State): State {
    if s.pending == [] then s.(rest := [], sent := 0)
    else s.(rest := s.pending[0], sent := 0, pending := s.pending[1..])
  }

  lemma FilledStream(s: State)
    requires s.rest == []
    ensures var f := Filled(s);
            f.Valid() && f.wire == s.wire && f.lost == s.lost && Stream(f) == Stream(s)
  {
    var f := Filled(s);
    if s.pending != [] {
      assert s.wire.bytes + s.rest + Flat(s.pending) == s.wire.bytes + (f.rest + Flat(f.pending));
    }
  }

  /** `max - bw` on 32 bits: with no limit it wraps around. */
  function Minus32(max: nat, bw: nat): (left: nat)
    requires bw < UINT32
    ensures bw <= max ==> left == max - bw
  {
    if bw <= max then max - bw else max - bw + UINT32
  }

  function Plus32(bw: nat, ret: nat): (sum: nat)
    requires bw < UINT32 && ret < UINT32
    ensures sum < UINT32 && (bw + ret < UINT32 ==> sum == bw + ret)
  {
    if bw + ret < UINT32 then bw + ret else bw + ret - UINT32
  }

  /** One turn of the refill loop: the new state, the new count, and whether there was anything to send. */
  function Refill(k: Kernel, s: State, max: nat, bw: nat): (r: (State, nat, bool))
    requires bw < UINT32
    ensures r.1 < UINT32 && (r.2 ==> |r.0.pending| < |s.pending|)
  {
    var f := Filled(s);
    if f.rest == [] then (f, bw, false) else
      var (t, ret) := SendOutput(k, f, Minus32(max, bw));
      assert ret <= |f.rest|;
      (t, Plus32(bw, ret), true)
  }

  /** The refill loop of `writeBuffered`. */
  function WriteLoop(k: Kernel, s: State, max: nat, bw: nat): (State, nat)
    requires bw < UINT32
    decreases |s.pending|
  {
    if (max == 0 || bw < max) && s.rest == [] then
      var (t, sum, more) := Refill(k, s, max, bw);
      if more then WriteLoop(k, t, max, sum) else (t, sum)
    else (s, bw)
  }

  function Write(k: Kernel, s: State, max: nat): (State, nat)
    requires s.Valid()
  {
    if s.rest == [] then WriteLoop(k, s, max, 0) else
      var (t, ret) := SendOutput(k, s, max);
      if t.rest != [] then (t, ret) else WriteLoop(k, t, max, ret)
  }

  /** What one call does to the stream of bytes: it is carried on unchanged, except that each dropping send
      takes bytes out of it. */
  ghost predicate Carried(s: State, t: State) {
    && t.Valid() && s.wire.bytes <= t.wire.bytes
    && s.lost <= t.lost && |Stream(t)| + t.lost == |Stream(s)| + s.lost
    && (t.lost == s.lost ==> Stream(t) == Stream(s))
  }

  lemma CarriedOn(s: State, t: State, u: State)
    requires Carried(s, t) && Carried(t, u)
    ensures Carried(s, u)
  {
  }

  lemma RefillCarries(k: Kernel, s: State, max: nat, bw: nat)
    requires s.Valid() && s.rest == [] && bw < UINT32 && max < UINT32 && (max > 0 ==> bw < max)
    ensures var (t, sum, more) := Refill(k, s, max, bw);
            && Carried(s, t)
            && (max > 0 ==> sum <= max && |t.wire.bytes| - |s.wire.bytes| == sum - bw)
  {
    FilledStream(s);
    SendOutputStream(k, Filled(s), Minus32(max, bw));
  }

  lemma {:induction false} WriteLoopCarries(k: Kernel, s: State, max: nat, bw: nat)
    requires s.Valid() && bw < UINT32 && max < UINT32 && (max > 0 ==> bw <= max)
    ensures var (t, r) := WriteLoop(k, s, max, bw);
            && Carried(s, t)
            && (max > 0 ==> r <= max && |t.wire.bytes| - |s.wire.bytes| == r - bw)
    decreases |s.pending|
  {
    if (max == 0 || bw < max) && s.rest == [] {
      var (t, sum, more) := Refill(k, s, max, bw);
      RefillCarries(k, s, max, bw);
      if more {
        WriteLoopCarries(k, t, max, sum);
        CarriedOn(s, t, WriteLoop(k, t, max, sum).0);
      }
    }
  }

  /** A call with a limit puts at most that many bytes on the wire and returns how many. */
  lemma WriteCarries(k: Kernel, s: State, max: nat)
    requires s.Valid() && max < UINT32
    ensures var (t, r) := Write(k, s, max);
            && Carried(s, t)
            && (max > 0 ==> r == |t.wire.bytes| - |s.wire.bytes| <= max)
  {
    if s.rest == [] {
      WriteLoopCarries(k, s, max, 0);
    } else {
      SendOutputStream(k, s, max);
      var (t, ret) := SendOutput(k, s, max);
      if t.rest == [] { WriteLoopCarries(k, t, max, ret); }
    }
  }

  /** The last send of a call took less than a buffer full. */
  predicate KernelFull(k: Kernel, w0: Wire, w: Wire) {
    w0.calls < w.calls && k(w.calls - 1) < OUTPUT_BUFFER_SIZE
  }

  /** The writer had nothing for the last refill: no chunk was left, or the next was empty. */
  predicate Dry(s: State, t: State) {
    t.pending == [] || (|t.pending| < |s.pending| && s.pending[|s.pending| - |t.pending| - 1] == [])
  }

  /** The limit is used up; without one the count is, at 2^32. */
  predicate UsedUp(w0: Wire, w: Wire, max: nat, bw: nat) {
    if max > 0 then bw == max else |w.bytes| - |w0.bytes| >= UINT32
  }

  /** What came from the writer since `s0` came from the front of its chunks; the bytes on the wire are counted. */
  ghost predicate Onward(s0: State, s: State, bw: nat) {
    && s.Valid() && bw < UINT32
    && |s.pending| <= |s0.pending| && s.pending == s0.pending[|s0.pending| - |s.pending|..]
    && |s.wire.bytes| - |s0.wire.bytes| >= bw && s0.wire.calls <= s.wire.calls
  }

  /** Something stays in the buffer only if the kernel or the limit stopped it. */
  lemma SendStops(k: Kernel, s: State, max: nat)
    requires s.Valid() && s.rest != []
    ensures var (t, ret) := SendOutput(k, s, max);
            && t.Valid() && t.pending == s.pending && t.wire.calls == s.wire.calls + 1
            && |t.wire.bytes| == |s.wire.bytes| + ret
            && (t.rest != [] ==> (max > 0 && ret == max) || k(s.wire.calls) < OUTPUT_BUFFER_SIZE)
  {
  }

  lemma RefillStops(k: Kernel, s0: State, s: State, max: nat, bw: nat)
    requires Onward(s0, s, bw) && s.rest == [] && max < UINT32 && (max > 0 ==> bw < max)
    ensures var (t, sum, more) := Refill(k, s, max, bw);
            && Onward(s0, t, sum) && (max > 0 ==> sum <= max) && (!more ==> Dry(s0, t) && t.rest == [])
            && (t.rest != [] ==> KernelFull(k, s0.wire, t.wire) || UsedUp(s0.wire, t.wire, max, sum))
  {
    var f := Filled(s);
    if s.pending != [] {
      assert s.pending[1..] == s0.pending[|s0.pending| - |s.pending| + 1..];
      assert s.pending[0] == s0.pending[|s0.pending| - |s.pending|];
    }
    if f.rest != [] { SendStops(k, f, Minus32(max, bw)); }
  }

  lemma {:induction false} LoopStops(k: Kernel, s0: State, s: State, max: nat, bw: nat)
    requires Onward(s0, s, bw) && max < UINT32 && (max > 0 ==> bw <= max)
    requires s.rest != [] ==> KernelFull(k, s0.wire, s.wire) || UsedUp(s0.wire, s.wire, max, bw)
    ensures var (t, r) := WriteLoop(k, s, max, bw);
            UsedUp(s0.wire, t.wire, max, r) || KernelFull(k, s0.wire, t.wire) || (t.rest == [] && Dry(s0, t))
    decreases |s.pending|
  {
    if (max == 0 || bw < max) && s.rest == [] {
      var (t, sum, more) := Refill(k, s, max, bw);
      RefillStops(k, s0, s, max, bw);
      if more { LoopStops(k, s0, t, max, sum); }
    }
  }

  /** A call stops for one of three reasons only: the limit is used up, the kernel took less than a buffer full
      at the last send, or everything was sent and the writer has nothing more. */
  lemma WriteStops(k: Kernel, s: State, max: nat)
    requires s.Valid() && max < UINT32
    ensures var (t, r) := Write(k, s, max);
            UsedUp(s.wire, t.wire, max, r) || KernelFull(k, s.wire, t.wire) || (t.rest == [] && Dry(s, t))
  {
    if s.rest == [] {
      LoopStops(k, s, s, max, 0);
    } else {
      SendStops(k, s, max);
      SendOutputStream(k, s, max);
      var (t, ret) := SendOutput(k, s, max);
      if t.rest == [] { LoopStops(k, s, t, max, ret); }
    }
  }

  predicate Limits32(maxes: seq<nat>) { forall i :: 0 <= i < |maxes| ==> maxes[i] < UINT32 }

  /** A run of calls with these limits. */
  function WriteRun(k: Kernel, s: State, maxes: seq<nat>): State
    requires s.Valid() && Limits32(maxes)
    decreases |maxes|
  {
    if maxes == [] then s else
      WriteCarries(k, s, maxes[0]);
      WriteRun(k, Write(k, s, maxes[0]).0, maxes[1..])
  }

  /** In every run the wire, the buffer and the writer's remaining chunks together are the writer's stream
      if and only if no send dropped the rest of the buffer; so the wire then carries a prefix of it. */
  lemma {:induction false} WriteRunCarries(k: Kernel, s: State, maxes: seq<nat>)
    requires s.Valid() && Limits32(maxes)
    ensures var t := WriteRun(k, s, maxes);
            && Carried(s, t)
            && (Stream(t) == Stream(s) <==> t.lost == s.lost)
            && (t.lost == s.lost ==> t.wire.bytes <= Stream(s))
            && (t.lost == s.lost && t.rest == [] && t.pending == [] ==> t.wire.bytes == Stream(s))
    decreases |maxes|
  {
    if maxes == [] {
    } else {
      WriteCarries(k, s, maxes[0]);
      var t := Write(k, s, maxes[0]).0;
      WriteRunCarries(k, t, maxes[1..]);
      CarriedOn(s, t, WriteRun(k, t, maxes[1..]));
    }
  }

  // ---- when bytes can be lost ----

  /** No partial send of what the buffer holds can leave as many bytes as were sent before: half of it is gone
      already, or its length is odd. */
  predicate BufferSafe(s: State) { |s.rest| <= s.sent || (s.sent + |s.rest|) % 2 == 1 }

  predicate ChunksSafe(pending: seq<Chunk>) {
    forall i :: 0 <= i < |pending| ==> pending[i] == [] || |pending[i]| % 2 == 1
  }

  lemma SafeSend(k: Kernel, s: State, max: nat)
    requires BufferSafe(s)
    ensures !Drops(k, s, max) && BufferSafe(SendOutput(k, s, max).0)
    ensures SendOutput(k, s, max).0.lost == s.lost && SendOutput(k, s, max).0.pending == s.pending
  {
  }

  lemma SafeFill(s: State)
    requires ChunksSafe(s.pending)
    ensures BufferSafe(Filled(s)) && ChunksSafe(Filled(s).pending) && Filled(s).lost == s.lost
  {
  }

  lemma {:induction false} SafeLoop(k: Kernel, s: State, max: nat, bw: nat)
    requires BufferSafe(s) && ChunksSafe(s.pending) && bw < UINT32
    ensures var t := WriteLoop(k, s, max, bw).0;
            BufferSafe(t) && ChunksSafe(t.pending) && t.lost == s.lost
    decreases |s.pending|
  {
    if (max == 0 || bw < max) && s.rest == [] {
      var (t, sum, more) := Refill(k, s, max, bw);
      SafeFill(s);
      SafeSend(k, Filled(s), Minus32(max, bw));
      if more { SafeLoop(k, t, max, sum); }
    }
  }

  lemma {:induction false} SafeRun(k: Kernel, s: State, maxes: seq<nat>)
    requires s.Valid() && Limits32(maxes) && BufferSafe(s) && ChunksSafe(s.pending)
    ensures WriteRun(k, s, maxes).lost == s.lost
    ensures WriteRun(k, s, maxes).Valid() && Stream(WriteRun(k, s, maxes)) == Stream(s)
    decreases |maxes|
  {
    if maxes != [] {
      WriteCarries(k, s, maxes[0]);
      var t := Write(k, s, maxes[0]).0;
      if s.rest == [] {
        SafeLoop(k, s, maxes[0], 0);
      } else {
        SafeSend(k, s, maxes[0]);
        var (u, ret) := SendOutput(k, s, maxes[0]);
        if u.rest == [] { SafeLoop(k, u, maxes[0], ret); }
      }
      SafeRun(k, t, maxes[1..]);
    }
    WriteRunCarries(k, s, maxes);
  }

  /** A kernel that takes everything but for one call. */
  function TakesAllBut(call: nat, n: nat): Kernel { (i: nat) => if i == call then n else OUTPUT_BUFFER_SIZE }

  /** With the limit at what the buffer holds, one call drains it if the kernel takes everything. */
  lemma DrainBuffer(k: Kernel, s: State)
    requires s.Valid() && s.rest != [] && k(s.wire.calls) == OUTPUT_BUFFER_SIZE
    ensures Write(k, s, |s.rest|).0 ==
            State(Wire(s.wire.bytes + s.rest, s.wire.calls + 1), [], s.sent + |s.rest|, s.pending, s.lost)
  {
    var n := |s.rest|;
    var (u, ret) := SendOutput(k, s, n);
    assert s.rest[..n][..n] == s.rest && ret == n;
    assert WriteLoop(k, u, n, n) == (u, n);
  }

  /** And if the kernel takes just enough of it, the rest of an unsafe buffer is lost. */
  lemma SpoilBuffer(k: Kernel, s: State)
    requires s.Valid() && !BufferSafe(s) && k(s.wire.calls) == (|s.rest| - s.sent) / 2
    ensures Write(k, s, |s.rest|).0.lost > s.lost
  {
    var (u, ret) := SendOutput(k, s, |s.rest|);
    SendOutputStream(k, s, |s.rest|);
    assert Drops(k, s, |s.rest|);
    WriteLoopCarries(k, u, |s.rest|, ret);
  }

  /** The limit under which one call handles just the next chunk. */
  function Just(c: Chunk): nat { if c == [] then 1 else |c| }

  /** The next chunk went out whole. */
  function Delivered(s: State): State
    requires s.pending != []
  {
    var c := s.pending[0];
    State(if c == [] then s.wire else Wire(s.wire.bytes + c, s.wire.calls + 1), [], |c|, s.pending[1..], s.lost)
  }

  lemma DeliverChunk(k: Kernel, s: State)
    requires s.Valid() && s.rest == [] && s.pending != []
    requires s.pending[0] == [] || k(s.wire.calls) == OUTPUT_BUFFER_SIZE
    ensures Delivered(s).Valid() && Write(k, s, Just(s.pending[0])).0 == Delivered(s)
  {
    var c := s.pending[0];
    if c != [] {
      var f := Filled(s);
      var (t, ret) := SendOutput(k, f, |c|);
      assert c[..|c|] == c && ret == |c|;
      assert t == Delivered(s);
      assert Refill(k, s, |c|, 0) == (t, |c|, true);
      assert WriteLoop(k, t, |c|, |c|) == (t, |c|);
    }
  }

  lemma SpoilNext(k: Kernel, s: State)
    requires s.Valid() && s.rest == [] && s.pending != [] && s.pending[0] != [] && |s.pending[0]| % 2 == 0
    requires k(s.wire.calls) == |s.pending[0]| / 2
    ensures Write(k, s, |s.pending[0]|).0.lost > s.lost
  {
    var c, f := s.pending[0], Filled(s);
    var (t, ret) := SendOutput(k, f, |c|);
    SendOutputStream(k, f, |c|);
    assert Drops(k, f, |c|);
    assert Refill(k, s, |c|, 0) == (t, ret, true);
    WriteLoopCarries(k, t, |c|, ret);
  }

  /** Chunk `j` of even length can be spoilt, after everything before it was sent whole. */
  lemma {:induction false} SpoilChunk(s: State, j: nat) returns (call: nat, maxes: seq<nat>)
    requires s.Valid() && s.rest == [] && j < |s.pending| && s.pending[j] != [] && |s.pending[j]| % 2 == 0
    ensures call >= s.wire.calls && Limits32(maxes)
    ensures WriteRun(TakesAllBut(call, |s.pending[j]| / 2), s, maxes).lost > s.lost
    decreases j
  {
    var c := s.pending[0];
    if j == 0 {
      call, maxes := s.wire.calls, [|c|];
      var k := TakesAllBut(call, |c| / 2);
      SpoilNext(k, s);
      RunOne(k, s, |c|, []);
    } else {
      var rest;
      call, rest := SpoilChunk(Delivered(s), j - 1);
      var k := TakesAllBut(call, |s.pending[j]| / 2);
      DeliverChunk(k, s);
      maxes := [Just(c)] + rest;
      RunOne(k, s, Just(c), rest);
    }
  }

  lemma RunOne(k: Kernel, s: State, max: nat, rest: seq<nat>)
    requires s.Valid() && max < UINT32 && Limits32(rest)
    ensures Limits32([max] + rest) && Write(k, s, max).0.Valid()
    ensures WriteRun(k, s, [max] + rest) == WriteRun(k, Write(k, s, max).0, rest)
  {
    WriteCarries(k, s, max);
    assert ([max] + rest)[1..] == rest;
  }

  /** A run that loses bytes, for every state that is not safe. */
  lemma SomeRunLoses(s: State) returns (k: Kernel, maxes: seq<nat>)
    requires s.Valid() && !(BufferSafe(s) && ChunksSafe(s.pending))
    ensures Limits32(maxes) && WriteRun(k, s, maxes).lost > s.lost
  {
    if !BufferSafe(s) {
      k, maxes := TakesAllBut(s.wire.calls, (|s.rest| - s.sent) / 2), [|s.rest|];
      SpoilBuffer(k, s);
      RunOne(k, s, |s.rest|, []);
    } else {
      var j :| 0 <= j < |s.pending| && s.pending[j] != [] && |s.pending[j]| % 2 != 1;
      var call;
      if s.rest == [] {
        call, maxes := SpoilChunk(s, j);
        k := TakesAllBut(call, |s.pending[j]| / 2);
      } else {
        var t := State(Wire(s.wire.bytes + s.rest, s.wire.calls + 1), [], s.sent + |s.rest|, s.pending, s.lost);
        call, maxes := SpoilChunk(t, j);
        k := TakesAllBut(call, |s.pending[j]| / 2);
        DrainBuffer(k, s);
        RunOne(k, s, |s.rest|, maxes);
        maxes := [|s.rest|] + maxes;
      }
    }
  }

  ghost predicate NeverLoses(s: State)
    requires s.Valid()
  {
    forall k: Kernel, maxes: seq<nat> | Limits32(maxes) :: WriteRun(k, s, maxes).lost == s.lost
  }

  /** Whatever the kernel takes and whatever the limits, nothing is ever lost: exactly when the buffer in use is
      safe and every chunk to come is empty or of odd length. */
  lemma NeverLosesExactly(s: State)
    requires s.Valid()
    ensures NeverLoses(s) <==> BufferSafe(s) && ChunksSafe(s.pending)
  {
    if BufferSafe(s) && ChunksSafe(s.pending) {
      forall k: Kernel, maxes: seq<nat> | Limits32(maxes) ensures WriteRun(k, s, maxes).lost == s.lost {
        SafeRun(k, s, maxes);
      }
    } else {
      var k, maxes := SomeRunLoses(s);
    }
  }

  // ---- reading ----

  /** What the operating system answers at each call: how much is available, how much is received, and whether
      a call that receives nothing only found nothing yet (`EAGAIN`) rather than the end or an error. */
  datatype Source = Source(ready: Kernel, received: Kernel, blocks: nat -> bool)

  /** What the peer sent and is still unread, what the reader was given, the numbers of the calls of
      `bytesAvailable` and `recv` so far, and whether the socket was closed. */
  datatype Input = Input(incoming: seq<Byte>, delivered: seq<Byte>, probes: nat, receives: nat, closed: bool)

  function Available(io: Source, s: Input): nat { Least(io.ready(s.probes), |s.incoming|) }

  function Probed(s: Input): Input { s.(probes := s.probes + 1) }

  /** How much to ask for: what is there, within the input buffer and the limit. */
  function ToRead(available: nat, max: nat, br: nat): (tr: nat)
    requires br < UINT32
    ensures tr <= OUTPUT_BUFFER_SIZE
    ensures 0 < max <= UINT32 - OUTPUT_BUFFER_SIZE && br < max ==> br + tr <= max
  {
    var tr := Least(available, OUTPUT_BUFFER_SIZE);
    if max > 0 && Plus32(tr, br) > max && br <= max then Least(tr, max - br) else tr
  }

  /** `recv` closes the socket when it returns nothing, unless nothing has come yet. */
  function Received(io: Source, s: Input, tr: nat): (r: (Input, nat))
    ensures r.1 <= tr && r.1 <= |s.incoming|
  {
    var ret := Least(io.received(s.receives), Least(tr, |s.incoming|));
    (Input(s.incoming[ret..], s.delivered + s.incoming[..ret], s.probes, s.receives + 1,
           s.closed || (ret == 0 && !io.blocks(s.receives))), ret)
  }

  /** The loop of `readBuffered`: it ends when the limit is reached, when nothing is available, or when
      `recv` returns nothing. */
  function ReadLoop(io: Source, s: Input, max: nat, br: nat): (Input, nat)
    requires br < UINT32
    decreases |s.incoming|
  {
    if max > 0 && br >= max then (s, br)
    else if Available(io, s) == 0 then (Probed(s), br)
    else
      var (t, ret) := Received(io, Probed(Probed(s)), ToRead(Available(io, Probed(s)), max, br));
      if ret == 0 then (t, br) else ReadLoop(io, t, max, Plus32(br, ret))
  }

  /** `readBuffered`: a socket with nothing to read is closed. */
  function Read(io: Source, s: Input, max: nat): (Input, nat) {
    if Available(io, s) == 0 then (Probed(s).(closed := true), 0) else ReadLoop(io, Probed(s), max, 0)
  }

  /** One turn of the loop. */
  lemma ReceivedDelivers(io: Source, s: Input, max: nat, br: nat, tr: nat)
    requires br < UINT32 && tr == ToRead(Available(io, Probed(s)), max, br)
    ensures var (t, ret) := Received(io, Probed(Probed(s)), tr);
            && ret <= OUTPUT_BUFFER_SIZE && t.delivered + t.incoming == s.delivered + s.incoming
            && |t.delivered| == |s.delivered| + ret && |t.incoming| == |s.incoming| - ret
            && (0 < max <= UINT32 - OUTPUT_BUFFER_SIZE && br < max ==> Plus32(br, ret) == br + ret <= max)
            && t.receives == s.receives + 1 && (t.closed && !s.closed ==> ret == 0 && !io.blocks(s.receives))
            && (ret != 0 ==> t.closed == s.closed)
  {
    var ret := Received(io, Probed(Probed(s)), tr).1;
    assert s.incoming == s.incoming[..ret] + s.incoming[ret..];
  }

  /** The reader gets the incoming bytes in order and no others; the limit is kept except where the sum of
      the 32-bit counters could wrap around; the socket is closed on the way only by the last `recv`. */
  lemma {:induction false} ReadLoopDelivers(io: Source, s: Input, max: nat, br: nat)
    requires br < UINT32
    ensures var (t, r) := ReadLoop(io, s, max, br);
            && t.delivered + t.incoming == s.delivered + s.incoming && |s.delivered| <= |t.delivered|
            && (0 < max <= UINT32 - OUTPUT_BUFFER_SIZE && br <= max ==>
                  r <= max && |t.delivered| - |s.delivered| == r - br)
            && (t.closed && !s.closed ==> t.receives > s.receives && !io.blocks(t.receives - 1))
    decreases |s.incoming|
  {
    if !(max > 0 && br >= max) && Available(io, s) != 0 {
      var tr := ToRead(Available(io, Probed(s)), max, br);
      var (t, ret) := Received(io, Probed(Probed(s)), tr);
      ReceivedDelivers(io, s, max, br, tr);
      if ret != 0 { ReadLoopDelivers(io, t, max, Plus32(br, ret)); }
    }
  }

  /** Reading stops for one of three reasons only: the limit is reached, the last question for available bytes was
      answered with none, or nothing was received. */
  ghost predicate ReadStopped(io: Source, s: Input, t: Input, max: nat, br: nat) {
    || (max > 0 && br >= max)
    || t.incoming == []
    || (s.probes < t.probes && io.ready(t.probes - 1) == 0)
    || (s.receives < t.receives && io.received(t.receives - 1) == 0)
  }

  /** A last `recv` that returned nothing, and not because nothing had come yet, has closed the socket. */
  ghost predicate HangsUp(io: Source, s: Input, t: Input) {
    s.receives < t.receives && io.received(t.receives - 1) == 0 && !io.blocks(t.receives - 1) ==> t.closed
  }

  lemma {:induction false} ReadLoopStops(io: Source, s0: Input, s: Input, max: nat, br: nat)
    requires br < UINT32 && s0.probes <= s.probes && s0.receives <= s.receives
    requires s0.receives < s.receives ==> io.received(s.receives - 1) > 0
    ensures var (t, r) := ReadLoop(io, s, max, br);
            ReadStopped(io, s0, t, max, r) && HangsUp(io, s0, t)
    decreases |s.incoming|
  {
    if !(max > 0 && br >= max) && Available(io, s) != 0 {
      var (t, ret) := Received(io, Probed(Probed(s)), ToRead(Available(io, Probed(s)), max, br));
      if ret != 0 { ReadLoopStops(io, s0, t, max, Plus32(br, ret)); }
    }
  }

  /** A socket is closed without a read exactly when nothing is available at first. */
  lemma ReadStops(io: Source, s: Input, max: nat)
    ensures var (t, r) := Read(io, s, max);
            && ReadStopped(io, s, t, max, r) && HangsUp(io, s, t)
            && (t.receives == s.receives && t.closed && !s.closed <==>
                  !s.closed && (s.incoming == [] || io.ready(s.probes) == 0))
  {
    if Available(io, s) != 0 {
      ReadLoopStops(io, s, Probed(s), max, 0);
      ReadLoopDelivers(io, Probed(s), max, 0);
    }
  }

  /** The count from which on the sum of the 32-bit counters can wrap around. */
  const HIGHEST := UINT32 - OUTPUT_BUFFER_SIZE

  /** Single bytes, until the count has come that far, and then a buffer full. */
  function Trickle(): Source {
    Source(_ => OUTPUT_BUFFER_SIZE, (i: nat) => if i < HIGHEST then 1 else OUTPUT_BUFFER_SIZE, _ => true)
  }

  /** What one read of it gives. */
  function Trickled(s: Input, br: nat): (r: (Input, nat))
    requires br <= HIGHEST && |s.incoming| >= UINT32 - br
  {
    var n := if br < HIGHEST then 1 else OUTPUT_BUFFER_SIZE;
    (Input(s.incoming[n..], s.delivered + s.incoming[..n], s.probes + 2, s.receives + 1, s.closed),
     if br < HIGHEST then br + 1 else 0)
  }

  lemma TrickleReceives(s: Input, max: nat, br: nat, tr: nat)
    requires HIGHEST < max < UINT32 && br <= HIGHEST && s.receives == br && |s.incoming| >= UINT32 - br
    requires tr == ToRead(Available(Trickle(), Probed(s)), max, br)
    ensures Available(Trickle(), s) == OUTPUT_BUFFER_SIZE
    ensures var (t, sum) := Trickled(s, br);
            var (r, ret) := Received(Trickle(), Probed(Probed(s)), tr);
            r == t && ret > 0 && sum == Plus32(br, ret)
  {
    assert Available(Trickle(), Probed(s)) == OUTPUT_BUFFER_SIZE;
    assert tr == if br < HIGHEST then Least(OUTPUT_BUFFER_SIZE, max - br) else OUTPUT_BUFFER_SIZE;
  }

  lemma TrickleStep(s: Input, max: nat, br: nat)
    requires HIGHEST < max < UINT32 && br <= HIGHEST && s.receives == br && |s.incoming| >= UINT32 - br
    ensures var (t, sum) := Trickled(s, br);
            sum < UINT32 && ReadLoop(Trickle(), s, max, br) == ReadLoop(Trickle(), t, max, sum)
  {
    TrickleReceives(s, max, br, ToRead(Available(Trickle(), Probed(s)), max, br));
  }

  /** The next read then is not cut down to the limit, and the count starts anew. */
  lemma {:induction false} TrickleOverruns(s: Input, max: nat, br: nat)
    requires HIGHEST < max < UINT32 && br <= HIGHEST && s.receives == br && |s.incoming| >= UINT32 - br
    ensures |ReadLoop(Trickle(), s, max, br).0.delivered| >= |s.delivered| + UINT32 - br
    decreases HIGHEST - br
  {
    var (t, sum) := Trickled(s, br);
    TrickleStep(s, max, br);
    if br < HIGHEST { TrickleOverruns(t, max, sum); } else { ReadLoopDelivers(Trickle(), t, max, sum); }
  }

  ghost predicate LimitKept(io: Source, s: Input, max: nat) {
    |Read(io, s, max).0.delivered| - |s.delivered| <= max
  }

  /** A limit is kept, whatever comes in and however, if and only if it lies a buffer below 2^32. */
  lemma LimitKeptExactly(max: nat)
    requires 0 < max < UINT32
    ensures (forall io, s :: LimitKept(io, s, max)) <==> max <= HIGHEST
  {
    if max <= HIGHEST {
      forall io, s ensures LimitKept(io, s, max) { ReadLoopDelivers(io, Probed(s), max, 0); }
    } else {
      var zero: Byte := 0;
      var s := Input(seq(UINT32, _ => zero), [], 0, 0, false);
      TrickleOverruns(Probed(s), max, 0);
      assert !LimitKept(Trickle(), s, max);
    }
  }

  // ---- the socket ----

  class Writer {
    var pending: seq<Chunk>

    constructor (chunks: seq<Chunk>)
      ensures pending == chunks
    {
      pending := chunks;
    }

    /** Copy the next chunk into the buffer; 0 when there is none. */
    method OnReadyToWrite(buf: array<Byte>) returns (n: nat)
      requires buf.Length == OUTPUT_BUFFER_SIZE
      modifies this, buf
      ensures old(pending) == [] ==> n == 0 && pending == []
      ensures old(pending) != [] ==> n == |old(pending)[0]| && pending == old(pending)[1..]
      ensures old(pending) != [] ==> buf[..n] == old(pending)[0]
    {
      if pending == [] { return 0; }
      n := |pending[0]|;
      for j := 0 to n
        invariant pending == old(pending) && buf[..j] == pending[0][..j]
      {
        buf[j] := pending[0][j];
      }
      assert pending[0][..n] == pending[0];
      pending := pending[1..];
    }
  }

  lemma PartOfBuffer(buf: array<Byte>, from: nat, len: nat, n: nat)
    requires from + len <= buf.Length && n <= len
    ensures buf[from..from + len][..n] == buf[from..from + n]
    ensures buf[from..from + len][n..] == buf[from + n..from + len]
  {
  }

  class BufferedSocket {
    const kernel: Kernel
    var wire: Wire
    const wrt: Writer
    const outputBuffer: array<Byte>
    var bytesInOutputBuffer: nat
    var bytesSent: nat
    ghost var lost: nat
    // the receiving side: what the peer sent and is still unread, what the reader was given
    const io: Source
    var incoming: seq<Byte>
    var delivered: seq<Byte>
    var probes: nat
    var receives: nat
    var closed: bool

    ghost predicate Valid()
      reads this
    {
      outputBuffer.Length == OUTPUT_BUFFER_SIZE && bytesSent + bytesInOutputBuffer <= OUTPUT_BUFFER_SIZE
    }

    ghost function View(): State
      reads this, outputBuffer, wrt
      requires Valid()
    {
      State(wire, outputBuffer[bytesSent..bytesSent + bytesInOutputBuffer], bytesSent, wrt.pending, lost)
    }

    constructor (kernel: Kernel, io: Source, wrt: Writer, incoming: seq<Byte>)
      ensures Valid() && fresh(outputBuffer) && this.kernel == kernel && this.wrt == wrt
      ensures View() == State(Wire([], 0), [], 0, wrt.pending, 0)
      ensures this.incoming == incoming && delivered == [] && !closed
    {
      this.kernel, this.wrt, this.io := kernel, wrt, io;
      this.incoming, delivered, probes, receives, closed := incoming, [], 0, 0, false;
      wire := Wire([], 0);
      outputBuffer := new Byte[OUTPUT_BUFFER_SIZE];
      bytesInOutputBuffer, bytesSent, lost := 0, 0, 0;
    }

    method Send(data: seq<Byte>) returns (ret: nat)
      modifies this`wire
      ensures ret == Taken(kernel, old(wire), |data|) && wire == Pushed(kernel, old(wire), data)
    {
      ret := Least(kernel(wire.calls), |data|);
      wire := Wire(wire.bytes + data[..ret], wire.calls + 1);
    }

    /** Send the next `n` bytes of the output buffer and move the counters along. */
    method Transmit(n: nat) returns (ret: nat)
      requires Valid() && n <= bytesInOutputBuffer
      modifies this`wire, this`bytesInOutputBuffer, this`bytesSent
      ensures Valid() && ret == Taken(kernel, old(wire), n)
      ensures View() == Sent(kernel, old(View()), n)
    {
      ret := Send(outputBuffer[bytesSent..bytesSent + n]);
      PartOfBuffer(outputBuffer, bytesSent, bytesInOutputBuffer, n);
      PartOfBuffer(outputBuffer, bytesSent, bytesInOutputBuffer, ret);
      bytesInOutputBuffer := bytesInOutputBuffer - ret;
      bytesSent := bytesSent + ret;
    }

    method SendOutputBuffer(max: nat) returns (ret: nat)
      requires Valid()
      modifies this`wire, this`bytesInOutputBuffer, this`bytesSent, this`lost
      ensures Valid() && (View(), ret) == SendOutput(kernel, old(View()), max)
    {
      if bytesInOutputBuffer == 0 { return 0; }
      if max == 0 || bytesInOutputBuffer <= max {
        ret := Transmit(bytesInOutputBuffer);
        if ret > 0 && bytesSent == bytesInOutputBuffer {
          lost := lost + bytesInOutputBuffer;
          bytesInOutputBuffer, bytesSent := 0, 0;
        }
      } else {
        ret := Transmit(max);
      }
    }

    method WriteBuffered(max: nat) returns (bw: nat)
      requires Valid() && max < UINT32
      modifies this`wire, this`bytesInOutputBuffer, this`bytesSent, this`lost, outputBuffer, wrt
      ensures Valid() && (View(), bw) == Write(kernel, old(View()), max)
    {
      bw := 0;
      if bytesInOutputBuffer > 0 {
        var ret := SendOutputBuffer(max);
        if bytesInOutputBuffer > 0 { return ret; }
        bw := bw + ret;
      }
      bw := RefillAll(max, bw);
    }

    /** The refill loop. */
    method RefillAll(max: nat, bw0: nat) returns (bw: nat)
      requires Valid() && bw0 < UINT32
      modifies this`wire, this`bytesInOutputBuffer, this`bytesSent, this`lost, outputBuffer, wrt
      ensures Valid() && (View(), bw) == WriteLoop(kernel, old(View()), max, bw0)
    {
      bw := bw0;
      var more := true;
      while more && (max == 0 || bw < max) && bytesInOutputBuffer == 0
        invariant Valid() && bw < UINT32
        invariant WriteLoop(kernel, old(View()), max, bw0) ==
                  if more then WriteLoop(kernel, View(), max, bw) else (View(), bw)
        decreases more, |wrt.pending|
      {
        bw, more := RefillOnce(max, bw);
      }
    }

    /** Its body. */
    method RefillOnce(max: nat, bw0: nat) returns (bw: nat, more: bool)
      requires Valid() && bw0 < UINT32 && bytesInOutputBuffer == 0
      modifies this`wire, this`bytesInOutputBuffer, this`bytesSent, this`lost, outputBuffer, wrt
      ensures Valid() && (View(), bw, more) == Refill(kernel, old(View()), max, bw0)
    {
      bytesInOutputBuffer := wrt.OnReadyToWrite(outputBuffer);
      bytesSent := 0;
      assert View() == Filled(old(View()));
      more := bytesInOutputBuffer > 0;
      bw := bw0;
      if more {
        var ret := SendOutputBuffer(Minus32(max, bw));
        bw := Plus32(bw, ret);
      }
    }

    ghost function Unread(): Input
      reads this
    {
      Input(incoming, delivered, probes, receives, closed)
    }

    method BytesAvailable() returns (n: nat)
      modifies this`probes
      ensures n == Available(io, old(Unread())) && Unread() == Probed(old(Unread()))
    {
      n := Least(io.ready(probes), |incoming|);
      probes := probes + 1;
    }

    /** Receive at most `tr` bytes and give them to the reader. */
    method Receive(tr: nat) returns (ret: nat)
      modifies this`incoming, this`delivered, this`receives, this`closed
      ensures (Unread(), ret) == Received(io, old(Unread()), tr)
    {
      ret := Least(io.received(receives), Least(tr, |incoming|));
      if ret == 0 && !io.blocks(receives) { closed := true; }
      receives := receives + 1;
      delivered := delivered + incoming[..ret];
      incoming := incoming[ret..];
    }

    method ReadBuffered(max: nat) returns (br: nat)
      requires max < UINT32
      modifies this`incoming, this`delivered, this`probes, this`receives, this`closed
      ensures (Unread(), br) == Read(io, old(Unread()), max)
    {
      br := 0;
      var available := BytesAvailable();
      if available == 0 {
        closed := true;
        return;
      }
      ghost var s := Unread();
      var more := true;
      while more && (max == 0 || br < max)
        invariant br < UINT32
        invariant ReadLoop(io, s, max, 0) == if more then ReadLoop(io, Unread(), max, br) else (Unread(), br)
        decreases more, |incoming|
      {
        available := BytesAvailable();
        if available == 0 {
          more := false;
        } else {
          available := BytesAvailable();
          var ret := Receive(ToRead(available, max, br));
          more := ret != 0;
          br := Plus32(br, ret);
        }
      }
    }
  }
}
