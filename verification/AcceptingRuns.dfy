/** What comes in pieces. */
module Pieces {
  import opened Bytes

  function Joined(pieces: seq<seq<Byte>>): seq<Byte>
    decreases |pieces|
  {
    if pieces == [] then [] else pieces[0] + Joined(pieces[1..])
  }

  /** Every read finds something. */
  predicate NoneEmpty(pieces: seq<seq<Byte>>) { forall i :: 0 <= i < |pieces| ==> pieces[i] != [] }

  lemma FirstPiece(all: seq<Byte>, from: nat, pieces: seq<seq<Byte>>)
    requires from <= |all| && pieces != [] && Joined(pieces) == all[from..]
    ensures var to := from + |pieces[0]|;
            to <= |all| && all[from..to] == pieces[0] && Joined(pieces[1..]) == all[to..]
  {
    var p := pieces[0];
    assert all[from..][..|p|] == p;
    assert all[from..][|p|..] == all[from + |p|..];
  }

  lemma TwoPieces(f: seq<Byte>, l: seq<Byte>, n: nat)
    requires 0 < n < |l|
    ensures var pieces := [f + l[..n], l[n..]]; NoneEmpty(pieces) && Joined(pieces) == f + l
  {
    var last: seq<seq<Byte>> := [l[n..]];
    var pieces := [f + l[..n]] + last;
    assert pieces[1..] == last && last[1..] == [];
    assert Joined(last) == l[n..];
    assert f + l[..n] + l[n..] == f + l;
    assert pieces == [f + l[..n], l[n..]];
  }

  lemma AppendRaw(all: seq<Byte>, from: nat, to: nat)
    requires from <= to <= |all|
    ensures all[..from] + all[from..to] == all[..to]
  {
  }

  lemma AppendBehind(front: seq<Byte>, rest: seq<Byte>, all: seq<Byte>, plain: seq<Byte>, from: nat, to: nat)
    requires all == front + rest && |plain| == |front| <= from <= to <= |all|
    ensures plain + rest[..from - |front|] + all[from..to] == plain + rest[..to - |front|]
  {
  }
}

/** The accepting side over every run of reads: what comes in whatever pieces the network makes of it. */
module AcceptingRuns {
  import opened Bytes
  import opened Keys
  import opened DiffieHellman
  import opened Handshake
  import opened HandshakeProofs
  import opened Pieces

  /** One read after the other; once it has failed, the object is not asked to read any more. */
  function ServerRun(cfg: ServerCfg, s: Server, pieces: seq<seq<Byte>>): Server
    requires |cfg.junk| == KEY_BYTES
    decreases |pieces|
  {
    if pieces == [] || s.failed then s else ServerRun(cfg, ServerReady(cfg, s, pieces[0]), pieces[1..])
  }

  // ---- what a peer sends that keeps to the protocol ----

  /** Its public value with padding, and line 3 for a torrent. */
  datatype Words = Words(f1: seq<Byte>, infoHash: Key, provide: seq<Byte>, padC: seq<Byte>, ia: seq<Byte>) {
    predicate Valid() {
      96 <= |f1| < 96 + MAX_PAD && |provide| == 4 && |padC| <= MAX_PAD && |ia| <= IA_BYTES
    }

    /** How many bytes there are when the hashes, the head, pad C and IA are complete. */
    function Hashes(): nat { |f1| + 40 }

    function HeadEnd(): nat { |f1| + 54 }

    function PadEnd(): nat { |f1| + 56 + |padC| }

    function Total(): nat { PadEnd() + |ia| }
  }

  /** The secret, our stream and the peer's. */
  function TheSecret(cfg: ServerCfg, x: Words): seq<Byte>
    requires |cfg.junk| == KEY_BYTES && x.Valid()
  {
    Export(Secret(cfg.xb, Val(x.f1[..96])), cfg.junk)
  }

  function Ours(cfg: ServerCfg, x: Words): Stream
    requires |cfg.junk| == KEY_BYTES && x.Valid()
  {
    NewStream(cfg.sha, false, TheSecret(cfg, x), x.infoHash)
  }

  function Theirs(cfg: ServerCfg, x: Words): Stream
    requires |cfg.junk| == KEY_BYTES && x.Valid()
  {
    NewStream(cfg.sha, true, TheSecret(cfg, x), x.infoHash)
  }

  /** The bytes before the encrypted part, and that part as it comes and as it is decrypted, in three pieces. */
  function Front(cfg: ServerCfg, x: Words): (r: seq<Byte>)
    requires |cfg.junk| == KEY_BYTES && x.Valid()
    ensures |r| == x.Hashes()
  {
    var secret := TheSecret(cfg, x);
    x.f1 + Req1(cfg.sha, secret) + Distance(Req2(cfg.sha, x.infoHash), Req3(cfg.sha, secret))
  }

  function TheHead(x: Words): (r: seq<Byte>)
    requires x.Valid()
    ensures |r| == 14
  {
    Head(x.provide, |x.padC|)
  }

  function Pad(x: Words): (r: seq<Byte>)
    requires x.Valid()
    ensures |r| == |x.padC| + 2
  {
    x.padC + Be16(|x.ia|)
  }

  function HeadSent(cfg: ServerCfg, x: Words): (r: seq<Byte>)
    requires |cfg.junk| == KEY_BYTES && x.Valid()
    ensures |r| == 14
  {
    Crypt(cfg.ks, Theirs(cfg, x), TheHead(x))
  }

  function PadSent(cfg: ServerCfg, x: Words): (r: seq<Byte>)
    requires |cfg.junk| == KEY_BYTES && x.Valid()
    ensures |r| == |x.padC| + 2
  {
    Crypt(cfg.ks, Theirs(cfg, x).After(14), Pad(x))
  }

  function IaSent(cfg: ServerCfg, x: Words): (r: seq<Byte>)
    requires |cfg.junk| == KEY_BYTES && x.Valid()
    ensures |r| == |x.ia|
  {
    Crypt(cfg.ks, Theirs(cfg, x).After(16 + |x.padC|), x.ia)
  }

  /** All of it. */
  function AllSent(cfg: ServerCfg, x: Words): (r: seq<Byte>)
    requires |cfg.junk| == KEY_BYTES && x.Valid()
    ensures |r| == x.Total()
  {
    Front(cfg, x) + HeadSent(cfg, x) + PadSent(cfg, x) + IaSent(cfg, x)
  }

  lemma AllSentIs(cfg: ServerCfg, x: Words)
    requires |cfg.junk| == KEY_BYTES && x.Valid()
    ensures AllSent(cfg, x) == x.f1 + AnyLine3(cfg.sha, cfg.ks, TheSecret(cfg, x), x.infoHash, x.provide, x.padC, x.ia)
  {
    var st, h, p := Theirs(cfg, x), TheHead(x), Pad(x);
    CryptConcat(cfg.ks, st, h, p + x.ia);
    CryptConcat(cfg.ks, st.After(14), p, x.ia);
    AfterTwice(st, 14, |p|, 16 + |x.padC|);
    assert Tail(x.padC, x.ia) == p + x.ia;
  }

  // ---- the stages of the accepting side, by how many bytes have come ----

  function Waiting(cfg: ServerCfg, x: Words, n: nat): Server
    requires |cfg.junk| == KEY_BYTES && x.Valid() && n <= x.Total()
  {
    NewServer().(buf := AllSent(cfg, x)[..n])
  }

  function Searching(cfg: ServerCfg, x: Words, n: nat): Server
    requires |cfg.junk| == KEY_BYTES && x.Valid() && n <= x.Total()
  {
    Waiting(cfg, x, n).(sent := Line2(cfg), secret := TheSecret(cfg, x), phase := WaitingForReq1)
  }

  function KeyFound(cfg: ServerCfg, x: Words, n: nat): Server
    requires |cfg.junk| == KEY_BYTES && x.Valid() && n <= x.Total()
  {
    Searching(cfg, x, n).(phase := FoundReq1, req1Off := |x.f1|)
  }

  function HashFound(cfg: ServerCfg, x: Words, n: nat): Server
    requires |cfg.junk| == KEY_BYTES && x.Valid() && n <= x.Total()
  {
    KeyFound(cfg, x, n).(phase := FoundInfoHash, infoHash := x.infoHash, rc4 := Cipher(Ours(cfg, x), Theirs(cfg, x)))
  }

  /** The head is decrypted and answered. */
  function OpenedBuf(cfg: ServerCfg, x: Words, n: nat): (r: seq<Byte>)
    requires |cfg.junk| == KEY_BYTES && x.Valid() && x.HeadEnd() <= n <= x.Total()
    ensures |r| == n
  {
    Front(cfg, x) + TheHead(x) + (PadSent(cfg, x) + IaSent(cfg, x))[..n - x.HeadEnd()]
  }

  function Opened(cfg: ServerCfg, x: Words, n: nat, phase: ServerPhase): Server
    requires |cfg.junk| == KEY_BYTES && x.Valid() && x.HeadEnd() <= n <= x.Total()
  {
    var choice := Choice(Val(x.provide));
    HashFound(cfg, x, n).(
      phase := phase, buf := OpenedBuf(cfg, x, n), padCLen := |x.padC|, cryptoSelect := choice,
      sent := Line2(cfg) + Crypt(cfg.ks, Ours(cfg, x), Select(choice)),
      rc4 := Cipher(Ours(cfg, x).After(14), Theirs(cfg, x).After(14)))
  }

  /** Pad C and the length of IA are decrypted. */
  function ClearedBuf(cfg: ServerCfg, x: Words, n: nat): (r: seq<Byte>)
    requires |cfg.junk| == KEY_BYTES && x.Valid() && x.PadEnd() <= n <= x.Total()
    ensures |r| == n
  {
    Front(cfg, x) + TheHead(x) + Pad(x) + IaSent(cfg, x)[..n - x.PadEnd()]
  }

  function Cleared(cfg: ServerCfg, x: Words, n: nat, phase: ServerPhase): Server
    requires |cfg.junk| == KEY_BYTES && x.Valid() && x.PadEnd() <= n <= x.Total()
  {
    Opened(cfg, x, n, phase).(
      buf := ClearedBuf(cfg, x, n), iaLen := |x.ia|,
      rc4 := Cipher(Ours(cfg, x).After(14), Theirs(cfg, x).After(16 + |x.padC|)))
  }

  // ---- going from one stage to the next with what has come ----

  lemma PadDecrypted(cfg: ServerCfg, s: Server, buf: seq<Byte>)
    requires s.rc4.Cipher? && s.req1Off + 56 + s.padCLen <= |s.buf|
    requires buf == DecryptAt(cfg.ks, s.buf, s.rc4.dec, s.req1Off + 54, s.padCLen + 2)
    ensures HandlePadC(cfg, s)
         == ReadIaLength(cfg, s.(buf := buf, rc4 := s.rc4.(dec := s.rc4.dec.After(s.padCLen + 2))))
  {
  }

  lemma LengthRead(cfg: ServerCfg, t: Server, a: seq<Byte>, padC: seq<Byte>, n: nat, z: seq<Byte>)
    requires n <= IA_BYTES && |a| == t.req1Off + 54 && t.padCLen == |padC| && t.buf == a + (padC + Be16(n)) + z
    ensures ReadIaLength(cfg, t) ==
            if |padC| + 2 + |z| < n then t.(iaLen := n, phase := WaitForIa) else HandleIA(cfg, t.(iaLen := n))
  {
    var x := padC + Be16(n);
    Slice(a, x, z, |padC|, |padC| + 2);
    assert x[|padC|..|padC| + 2] == Be16(n);
    Be16Value(n);
  }

  lemma PadCOpened(cfg: ServerCfg, s: Server, a: seq<Byte>, padC: seq<Byte>, n: nat, z: seq<Byte>, t: Server)
    requires n <= IA_BYTES && s.rc4.Cipher? && |a| == s.req1Off + 54 && s.padCLen == |padC|
    requires s.buf == a + Crypt(cfg.ks, s.rc4.dec, padC + Be16(n)) + z
    requires t == s.(buf := a + (padC + Be16(n)) + z, rc4 := s.rc4.(dec := s.rc4.dec.After(|padC| + 2)))
    ensures HandlePadC(cfg, s) ==
            if |padC| + 2 + |z| < n then t.(iaLen := n, phase := WaitForIa) else HandleIA(cfg, t.(iaLen := n))
  {
    var x := padC + Be16(n);
    DecryptMiddle(cfg.ks, a, s.rc4.dec, x, z);
    PadDecrypted(cfg, s, t.buf);
    LengthRead(cfg, t, a, padC, n, z);
  }

  lemma VcDecrypted(cfg: ServerCfg, s: Server, buf: seq<Byte>)
    requires s.rc4.Cipher? && s.req1Off + 54 <= |s.buf|
    requires buf == DecryptAt(cfg.ks, s.buf, s.rc4.dec, s.req1Off + 40, 14)
    ensures ProcessVC(cfg, s) == ReadVC(cfg, s.(buf := buf, rc4 := s.rc4.(dec := s.rc4.dec.After(14))))
  {
  }

  lemma HeadIsOpened(cfg: ServerCfg, s: Server, a: seq<Byte>, provide: seq<Byte>, n: nat, z: seq<Byte>, t: Server)
    requires |provide| == 4 && n <= MAX_PAD && s.rc4.Cipher? && |a| == s.req1Off + 40
    requires s.buf == a + Crypt(cfg.ks, s.rc4.dec, Head(provide, n)) + z
    requires t == s.(buf := a + Head(provide, n) + z, rc4 := s.rc4.(dec := s.rc4.dec.After(14)))
    ensures ProcessVC(cfg, s) == AwaitPadC(cfg, Answer(cfg, t, Val(provide), n))
  {
    HeadFields(provide, n);
    DecryptMiddle(cfg.ks, a, s.rc4.dec, Head(provide, n), z);
    VcDecrypted(cfg, s, t.buf);
    HeadRead(a, provide, n, z);
    VcStep(cfg, t, |a|, Val(provide), n);
  }

  lemma CiphersOnce(cfg: ServerCfg, s: Server, t: Server)
    requires t == WithCiphers(cfg, s)
    ensures ProcessVC(cfg, s) == ProcessVC(cfg, t)
  {
    assert WithCiphers(cfg, t) == t;
  }

  lemma FromOpened(cfg: ServerCfg, x: Words, n: nat, phase: ServerPhase)
    requires |cfg.junk| == KEY_BYTES && x.Valid() && x.HeadEnd() <= n <= x.Total()
    ensures HandlePadC(cfg, Opened(cfg, x, n, phase)) ==
            if n < x.PadEnd() then Opened(cfg, x, n, phase)
            else if n < x.HeadEnd() + |x.ia| then Cleared(cfg, x, n, WaitForIa)
            else HandleIA(cfg, Cleared(cfg, x, n, phase))
  {
    if n >= x.PadEnd() {
      var s, a, z := Opened(cfg, x, n, phase), Front(cfg, x) + TheHead(x), IaSent(cfg, x)[..n - x.PadEnd()];
      assert (PadSent(cfg, x) + IaSent(cfg, x))[..n - x.HeadEnd()] == PadSent(cfg, x) + z;
      assert s.buf == a + PadSent(cfg, x) + z;
      var t := s.(buf := ClearedBuf(cfg, x, n), rc4 := s.rc4.(dec := s.rc4.dec.After(|x.padC| + 2)));
      AfterTwice(Theirs(cfg, x), 14, |x.padC| + 2, 16 + |x.padC|);
      PadCOpened(cfg, s, a, x.padC, |x.ia|, z, t);
      assert t.(iaLen := |x.ia|) == Cleared(cfg, x, n, phase);
    }
  }

  lemma FromHash(cfg: ServerCfg, x: Words, n: nat)
    requires |cfg.junk| == KEY_BYTES && x.Valid() && x.Hashes() <= n <= x.Total()
    ensures ProcessVC(cfg, HashFound(cfg, x, n)) ==
            if n < x.HeadEnd() then HashFound(cfg, x, n) else AwaitPadC(cfg, Opened(cfg, x, n, FoundInfoHash))
  {
    if n >= x.HeadEnd() {
      var s, z := HashFound(cfg, x, n), (PadSent(cfg, x) + IaSent(cfg, x))[..n - x.HeadEnd()];
      assert s.buf == Front(cfg, x) + HeadSent(cfg, x) + z;
      var t := s.(buf := OpenedBuf(cfg, x, n), rc4 := s.rc4.(dec := s.rc4.dec.After(14)));
      HeadIsOpened(cfg, s, Front(cfg, x), x.provide, |x.padC|, z, t);
      assert Answer(cfg, t, Val(x.provide), |x.padC|) == Opened(cfg, x, n, FoundInfoHash);
    }
  }

  /** The hash is there but the encryptor not made yet. */
  lemma FromKey(cfg: ServerCfg, x: Words, n: nat)
    requires |cfg.junk| == KEY_BYTES && x.Valid() && |x.f1| + 20 < n <= x.Total()
    requires cfg.lookup(Req2(cfg.sha, x.infoHash)) == Found(x.infoHash)
    ensures CalculateSKey(cfg, KeyFound(cfg, x, n)) ==
            if n < x.Hashes() then KeyFound(cfg, x, n) else ProcessVC(cfg, HashFound(cfg, x, n))
  {
    if n >= x.Hashes() {
      var s := KeyFound(cfg, x, n);
      var rest := AllSent(cfg, x)[x.Hashes()..n];
      assert s.buf == Front(cfg, x) + rest;
      SKeyStep(cfg, s, x.f1, x.infoHash, rest);
      var t := s.(infoHash := x.infoHash, phase := FoundInfoHash);
      assert WithCiphers(cfg, t) == HashFound(cfg, x, n);
      CiphersOnce(cfg, t, HashFound(cfg, x, n));
    }
  }

  /** Nothing like HASH('req1', S) comes before it. */
  ghost predicate Unmistaken(cfg: ServerCfg, x: Words)
    requires |cfg.junk| == KEY_BYTES && x.Valid()
  {
    NotEarlier(AllSent(cfg, x), Req1(cfg.sha, TheSecret(cfg, x)), |x.f1|)
  }

  lemma NotFoundYet(cfg: ServerCfg, x: Words, n: nat)
    requires |cfg.junk| == KEY_BYTES && x.Valid() && 96 <= n <= |x.f1| + 20 && Unmistaken(cfg, x)
    ensures n >= 116 ==> Search(AllSent(cfg, x)[..n], Req1(cfg.sha, TheSecret(cfg, x)), 96, n - 20) == n - 20
  {
    var all, q := AllSent(cfg, x), Req1(cfg.sha, TheSecret(cfg, x));
    NotInPrefix(all, n, q, |x.f1|);
    if n >= 116 { SearchMisses(all[..n], q, 96, n - 20); }
  }

  lemma FoundAtLast(cfg: ServerCfg, x: Words, n: nat)
    requires |cfg.junk| == KEY_BYTES && x.Valid() && |x.f1| + 20 < n <= x.Total() && Unmistaken(cfg, x)
    ensures Search(AllSent(cfg, x)[..n], Req1(cfg.sha, TheSecret(cfg, x)), 96, n - 20) == |x.f1|
  {
    var all, q := AllSent(cfg, x), Req1(cfg.sha, TheSecret(cfg, x));
    NotInPrefix(all, n, q, |x.f1|);
    var tail := all[|x.f1| + 20..n];
    assert all[..n] == x.f1 + q + tail;
    Slice(x.f1, q, tail, 0, 20);
    assert q[0..20] == q;
    assert Matches(all[..n], q, |x.f1|);
    SearchFinds(all[..n], q, 96, |x.f1|, n - 20);
  }

  lemma FromSearch(cfg: ServerCfg, x: Words, n: nat)
    requires |cfg.junk| == KEY_BYTES && x.Valid() && 96 <= n <= x.Total() && Unmistaken(cfg, x)
    ensures FindReq1(cfg, Searching(cfg, x, n)) ==
            if n > |x.f1| + 20 then CalculateSKey(cfg, KeyFound(cfg, x, n))
            else if n > 608 then Searching(cfg, x, n).(failed := true)
            else Searching(cfg, x, n)
  {
    if n > |x.f1| + 20 { FoundAtLast(cfg, x, n); } else { NotFoundYet(cfg, x, n); }
  }

  // ---- where a turn ends, by how many bytes have come ----

  function PadLand(cfg: ServerCfg, x: Words, n: nat, phase: ServerPhase): Server
    requires |cfg.junk| == KEY_BYTES && x.Valid() && x.HeadEnd() <= n <= x.Total()
  {
    if n < x.PadEnd() then Opened(cfg, x, n, phase)
    else if n < x.HeadEnd() + |x.ia| then Cleared(cfg, x, n, WaitForIa)
    else HandleIA(cfg, Cleared(cfg, x, n, phase))
  }

  function HeadLand(cfg: ServerCfg, x: Words, n: nat): Server
    requires |cfg.junk| == KEY_BYTES && x.Valid() && x.Hashes() <= n <= x.Total()
  {
    if n < x.HeadEnd() then HashFound(cfg, x, n)
    else if n < |x.f1| + 14 + |x.padC| then Opened(cfg, x, n, WaitForPadC)
    else PadLand(cfg, x, n, FoundInfoHash)
  }

  function KeyLand(cfg: ServerCfg, x: Words, n: nat): Server
    requires |cfg.junk| == KEY_BYTES && x.Valid() && n <= x.Total()
  {
    if n < x.Hashes() then KeyFound(cfg, x, n) else HeadLand(cfg, x, n)
  }

  function SearchLand(cfg: ServerCfg, x: Words, n: nat): Server
    requires |cfg.junk| == KEY_BYTES && x.Valid() && n <= x.Total()
  {
    if n > |x.f1| + 20 then KeyLand(cfg, x, n)
    else if n > 608 then Searching(cfg, x, n).(failed := true)
    else Searching(cfg, x, n)
  }

  lemma HeadLands(cfg: ServerCfg, x: Words, n: nat)
    requires |cfg.junk| == KEY_BYTES && x.Valid() && x.Hashes() <= n <= x.Total()
    ensures ProcessVC(cfg, HashFound(cfg, x, n)) == HeadLand(cfg, x, n)
  {
    FromHash(cfg, x, n);
    if n >= x.HeadEnd() { FromOpened(cfg, x, n, FoundInfoHash); }
  }

  /** The hash and the torrent are found. */
  ghost predicate Understood(cfg: ServerCfg, x: Words) {
    && |cfg.junk| == KEY_BYTES && x.Valid() && Unmistaken(cfg, x)
    && cfg.lookup(Req2(cfg.sha, x.infoHash)) == Found(x.infoHash)
  }

  lemma KeyLands(cfg: ServerCfg, x: Words, n: nat)
    requires Understood(cfg, x) && |x.f1| + 20 < n <= x.Total()
    ensures CalculateSKey(cfg, KeyFound(cfg, x, n)) == KeyLand(cfg, x, n)
  {
    FromKey(cfg, x, n);
    if n >= x.Hashes() { HeadLands(cfg, x, n); }
  }

  lemma SearchLands(cfg: ServerCfg, x: Words, n: nat)
    requires Understood(cfg, x) && 96 <= n <= x.Total()
    ensures FindReq1(cfg, Searching(cfg, x, n)) == SearchLand(cfg, x, n)
  {
    FromSearch(cfg, x, n);
    if n > |x.f1| + 20 { KeyLands(cfg, x, n); }
  }

  lemma FirstLands(cfg: ServerCfg, x: Words, n: nat)
    requires Understood(cfg, x) && 96 <= n <= x.Total()
    ensures ServerTurn(cfg, Waiting(cfg, x, n)) == SearchLand(cfg, x, n)
  {
    var s := Waiting(cfg, x, n);
    assert s.buf[..96] == x.f1[..96];
    assert [] + Export(Public(cfg.xb), cfg.junk) + cfg.pad == Line2(cfg);
    assert HandleYA(cfg, s) == FindReq1(cfg, Searching(cfg, x, n));
    SearchLands(cfg, x, n);
  }

  // ---- pieces ----

  /** Where the accepting side stands between two good pieces. */
  function Stage(cfg: ServerCfg, x: Words, n: nat): Server
    requires |cfg.junk| == KEY_BYTES && x.Valid() && n < x.Total()
  {
    if n < 96 then Waiting(cfg, x, n)
    else if n <= |x.f1| + 20 then Searching(cfg, x, n)
    else if n < x.Hashes() then KeyFound(cfg, x, n)
    else if n < x.HeadEnd() then HashFound(cfg, x, n)
    else if n < x.PadEnd() then Opened(cfg, x, n, WaitForPadC)
    else Cleared(cfg, x, n, WaitForIa)
  }

  /** Where its next turn ends. */
  function Landing(cfg: ServerCfg, x: Words, from: nat, to: nat): Server
    requires |cfg.junk| == KEY_BYTES && x.Valid() && from < to <= x.Total()
  {
    if to < 96 then Waiting(cfg, x, to)
    else if from <= |x.f1| + 20 then SearchLand(cfg, x, to)
    else if from < x.Hashes() then KeyLand(cfg, x, to)
    else if from < x.HeadEnd() then HeadLand(cfg, x, to)
    else if from < x.PadEnd() then PadLand(cfg, x, to, WaitForPadC)
    else HandleIA(cfg, Cleared(cfg, x, to, WaitForIa))
  }

  lemma Append(cfg: ServerCfg, x: Words, from: nat, to: nat)
    requires |cfg.junk| == KEY_BYTES && x.Valid() && from < to <= x.Total()
    ensures var all := AllSent(cfg, x);
            && all[..from] + all[from..to] == all[..to]
            && (from >= x.HeadEnd() ==> OpenedBuf(cfg, x, from) + all[from..to] == OpenedBuf(cfg, x, to))
            && (from >= x.PadEnd() ==> ClearedBuf(cfg, x, from) + all[from..to] == ClearedBuf(cfg, x, to))
  {
    var all, f, h, p, i := AllSent(cfg, x), Front(cfg, x), HeadSent(cfg, x), PadSent(cfg, x), IaSent(cfg, x);
    AppendRaw(all, from, to);
    if from >= x.HeadEnd() {
      assert all == (f + h) + (p + i);
      AppendBehind(f + h, p + i, all, f + TheHead(x), from, to);
    }
    if from >= x.PadEnd() {
      assert all == (f + h + p) + i;
      AppendBehind(f + h + p, i, all, f + TheHead(x) + Pad(x), from, to);
    }
  }

  /** A read that is not taken for an unencrypted handshake. */
  lemma TurnLands(cfg: ServerCfg, x: Words, from: nat, to: nat)
    requires Understood(cfg, x) && from < to <= x.Total()
    ensures var s, piece := Stage(cfg, x, from), AllSent(cfg, x)[from..to];
            !LooksPlain(cfg, s, piece) ==> ServerReady(cfg, s, piece) == Landing(cfg, x, from, to)
  {
    var s, piece := Stage(cfg, x, from), AllSent(cfg, x)[from..to];
    Append(cfg, x, from, to);
    var t := s.(buf := s.buf + piece);
    assert Fill(s.buf, piece, MAX_SEA_BUF_SIZE) == s.buf + piece;
    if from < 96 {
      assert t == Waiting(cfg, x, to);
      if to >= 96 { FirstLands(cfg, x, to); }
    } else if from <= |x.f1| + 20 {
      assert t == Searching(cfg, x, to);
      SearchLands(cfg, x, to);
    } else if from < x.Hashes() {
      assert t == KeyFound(cfg, x, to);
      KeyLands(cfg, x, to);
    } else if from < x.HeadEnd() {
      assert t == HashFound(cfg, x, to);
      HeadLands(cfg, x, to);
    } else if from < x.PadEnd() {
      assert t == Opened(cfg, x, to, WaitForPadC);
      FromOpened(cfg, x, to, WaitForPadC);
    } else {
      assert t == Cleared(cfg, x, to, WaitForIa);
    }
  }

  /** The end of the handshake at this side, for what this peer sent. */
  ghost predicate Accepted(cfg: ServerCfg, x: Words, t: Server)
    requires |cfg.junk| == KEY_BYTES && x.Valid()
  {
    ServerDone(cfg, t, Line2(cfg), Ours(cfg, x), Theirs(cfg, x), x.provide, x.padC, x.ia)
  }

  lemma IaEnds(cfg: ServerCfg, x: Words, phase: ServerPhase)
    requires |cfg.junk| == KEY_BYTES && x.Valid()
    ensures Accepted(cfg, x, HandleIA(cfg, Cleared(cfg, x, x.Total(), phase)))
  {
    var s, a, c := Cleared(cfg, x, x.Total(), phase), Front(cfg, x) + TheHead(x) + Pad(x), IaSent(cfg, x);
    assert c[..|x.ia|] == c;
    assert s.buf == a + c;
    IaStep(cfg, s, a, c);
  }

  /** The piece from byte `from` to byte `to` spoils the handshake: it is short and comes before the public value is
      complete, where it can be taken for an unencrypted handshake; or it ends behind byte 608 with the hash searched
      for not complete; or it brings the head but not pad C, and more than the code waits for; or it brings pad C and
      not all of IA, but more than the code waits for. */
  predicate Spoils(cfg: ServerCfg, x: Words, from: nat, to: nat) {
    || (cfg.allowPlain && from < 96 && to - from <= 68)
    || 608 < to <= |x.f1| + 20
    || (from < x.HeadEnd() <= to && |x.f1| + 14 + |x.padC| <= to < x.PadEnd())
    || (from < x.PadEnd() <= to && x.HeadEnd() + |x.ia| <= to < x.Total())
  }

  /** No piece, the first one beginning at byte `from`, does. */
  predicate NoneSpoils(cfg: ServerCfg, x: Words, from: nat, pieces: seq<seq<Byte>>)
    decreases |pieces|
  {
    pieces == [] ||
    (!Spoils(cfg, x, from, from + |pieces[0]|) && NoneSpoils(cfg, x, from + |pieces[0]|, pieces[1..]))
  }

  lemma GoodPiece(cfg: ServerCfg, x: Words, from: nat, to: nat)
    requires Understood(cfg, x) && from < to <= x.Total() && !Spoils(cfg, x, from, to)
    ensures var t := ServerReady(cfg, Stage(cfg, x, from), AllSent(cfg, x)[from..to]);
            if to < x.Total() then t == Stage(cfg, x, to) else Accepted(cfg, x, t)
  {
    TurnLands(cfg, x, from, to);
    if to == x.Total() {
      IaEnds(cfg, x, WaitForIa);
      IaEnds(cfg, x, WaitForPadC);
      IaEnds(cfg, x, FoundInfoHash);
    }
  }

  // ---- what a spoilt handshake comes to ----

  /** The phases behind the head of line 3. */
  predicate Late(s: Server) { s.phase in {WaitForPadC, WaitForIa, NonEncrypted} }

  /** The phase in which the next turn decrypts the head once more. */
  predicate Reopens(s: Server) { s.phase == FoundInfoHash && s.rc4.Cipher? && |s.buf| >= s.req1Off + 54 }

  /** A turn behind the head sends nothing more, and leaves the phase only for a later one. */
  predicate Goes(s: Server, t: Server) {
    && t.sent == s.sent
    && (t.failed || Late(t) || (t.phase == s.phase && t.rc4.Cipher? && |t.buf| == |s.buf| && t.req1Off == s.req1Off))
  }

  lemma IaGoes(cfg: ServerCfg, s: Server)
    requires s.rc4.Cipher? || Late(s)
    ensures Goes(s, HandleIA(cfg, s))
  {
  }

  lemma PadGoes(cfg: ServerCfg, s: Server)
    requires s.rc4.Cipher? || Late(s)
    ensures Goes(s, HandlePadC(cfg, s))
  {
    if !(|s.buf| < s.req1Off + 54 + s.padCLen + 2 || s.rc4.NoCipher?) {
      var t := Decrypted(cfg, s, s.req1Off + 54, s.padCLen + 2);
      var ia := Val(t.buf[t.req1Off + 54 + t.padCLen..t.req1Off + 54 + t.padCLen + 2]);
      IaGoes(cfg, t.(iaLen := ia));
    }
  }

  /** VC read once more is wrong, or line 4 is sent once more. */
  predicate Repeats(s: Server, t: Server) { t.failed || (|t.sent| == |s.sent| + 14 && (Late(t) || Reopens(t))) }

  lemma AwaitGoes(cfg: ServerCfg, s: Server)
    requires s.rc4.Cipher?
    ensures Goes(s, AwaitPadC(cfg, s))
  {
    if |s.buf| >= s.req1Off + 14 + s.padCLen { PadGoes(cfg, s); }
  }

  lemma VcRepeats(cfg: ServerCfg, s: Server)
    requires Reopens(s)
    ensures Repeats(s, ReadVC(cfg, s))
  {
    var o := OpeningAt(s.buf, s.req1Off + 40);
    if !o.vc || o.pad > MAX_PAD {
      assert ReadVC(cfg, s).failed;
    } else {
      var u := Answer(cfg, s, o.crypto, o.pad);
      AwaitGoes(cfg, u);
      assert ReadVC(cfg, s) == AwaitPadC(cfg, u);
    }
  }

  lemma HeadRepeats(cfg: ServerCfg, s: Server, d: Server)
    requires Reopens(s) && d == Decrypted(cfg, s, s.req1Off + 40, 14)
    ensures Repeats(s, ProcessVC(cfg, s))
  {
    VcRepeats(cfg, d);
    assert WithCiphers(cfg, s) == s;
    assert ProcessVC(cfg, s) == ReadVC(cfg, d);
  }

  /** The peer's stream stands behind `pos` wherever it is still used. */
  predicate Beyond(t: Server, pos: nat) {
    && Late(t)
    && (t.rc4.Cipher? ==> t.rc4.dec.pos > pos) && (t.sockCipher.Cipher? ==> t.sockCipher.dec.pos > pos)
    && (t.rc4.NoCipher? ==> t.phase == NonEncrypted)
  }

  /** In the next turn it is moved on. */
  predicate MovesBeyond(t: Server, pos: nat) {
    && t.phase == WaitForPadC && t.rc4.Cipher? && t.rc4.dec.pos >= pos && t.sockCipher.NoCipher?
    && |t.buf| >= t.req1Off + 56 + t.padCLen
  }

  /** It has failed or been taken for unencrypted, or line 4 was sent twice or is about to be, or the peer's stream
      was moved beyond its place or is about to be. */
  predicate Doomed(t: Server, sent: nat, pos: nat) {
    || t.failed
    || (t.phase == NonEncrypted && |t.sent| < sent)
    || (Late(t) && |t.sent| > sent)
    || (Reopens(t) && |t.sent| >= sent)
    || MovesBeyond(t, pos)
    || Beyond(t, pos)
  }

  lemma IaBeyond(cfg: ServerCfg, s: Server, pos: nat)
    requires Beyond(s, pos)
    ensures Beyond(HandleIA(cfg, s), pos)
  {
  }

  lemma LengthBeyond(cfg: ServerCfg, s: Server, pos: nat)
    requires Beyond(s, pos) && s.rc4.Cipher? && s.req1Off + 56 + s.padCLen <= |s.buf|
    ensures Beyond(ReadIaLength(cfg, s), pos)
  {
    var ia := Val(s.buf[s.req1Off + 54 + s.padCLen..s.req1Off + 54 + s.padCLen + 2]);
    IaBeyond(cfg, s.(iaLen := ia), pos);
  }

  lemma PadBeyond(cfg: ServerCfg, s: Server, pos: nat)
    requires MovesBeyond(s, pos) || (s.phase == WaitForPadC && Beyond(s, pos))
    ensures Beyond(HandlePadC(cfg, s), pos)
  {
    if !(|s.buf| < s.req1Off + 54 + s.padCLen + 2 || s.rc4.NoCipher?) {
      LengthBeyond(cfg, Decrypted(cfg, s, s.req1Off + 54, s.padCLen + 2), pos);
    }
  }

  lemma DoomedStays(cfg: ServerCfg, s: Server, avail: seq<Byte>, sent: nat, pos: nat)
    requires |cfg.junk| == KEY_BYTES && avail != [] && Doomed(s, sent, pos) && !s.failed
    ensures Doomed(ServerReady(cfg, s, avail), sent, pos)
  {
    var t := s.(buf := Fill(s.buf, avail, MAX_SEA_BUF_SIZE));
    match s.phase
    case FoundInfoHash => HeadRepeats(cfg, t, Decrypted(cfg, t, t.req1Off + 40, 14));
    case WaitForPadC =>
      PadGoes(cfg, t);
      if MovesBeyond(s, pos) || Beyond(s, pos) { PadBeyond(cfg, t, pos); }
    case WaitForIa =>
      IaGoes(cfg, t);
      if Beyond(s, pos) { IaBeyond(cfg, t, pos); }
    case NonEncrypted =>
  }

  lemma {:induction false} DoomedRun(cfg: ServerCfg, s: Server, pieces: seq<seq<Byte>>, sent: nat, pos: nat)
    requires |cfg.junk| == KEY_BYTES && NoneEmpty(pieces) && Doomed(s, sent, pos)
    ensures Doomed(ServerRun(cfg, s, pieces), sent, pos)
    decreases |pieces|
  {
    if pieces != [] && !s.failed {
      DoomedStays(cfg, s, pieces[0], sent, pos);
      DoomedRun(cfg, ServerReady(cfg, s, pieces[0]), pieces[1..], sent, pos);
    }
  }

  /** It is never accepted then, if the peer offers RC4. */
  lemma DoomedIsNot(cfg: ServerCfg, x: Words, t: Server)
    requires |cfg.junk| == KEY_BYTES && x.Valid() && Bit(Val(x.provide), 1)
    requires Doomed(t, |Line2(cfg)| + 14, 16 + |x.padC|)
    ensures !Accepted(cfg, x, t)
  {
  }

  lemma SpoilingPiece(cfg: ServerCfg, x: Words, from: nat, to: nat)
    requires Understood(cfg, x) && from < to <= x.Total() && Spoils(cfg, x, from, to)
    ensures Doomed(ServerReady(cfg, Stage(cfg, x, from), AllSent(cfg, x)[from..to]), |Line2(cfg)| + 14, 16 + |x.padC|)
  {
    TurnLands(cfg, x, from, to);
    if to >= x.PadEnd() && to < x.Total() {
      assert HandleIA(cfg, Cleared(cfg, x, to, WaitForPadC)) == Cleared(cfg, x, to, WaitForPadC);
      assert HandleIA(cfg, Cleared(cfg, x, to, FoundInfoHash)) == Cleared(cfg, x, to, FoundInfoHash);
    }
  }

  /** From any stage on. */
  lemma {:induction false} FromStage(cfg: ServerCfg, x: Words, from: nat, pieces: seq<seq<Byte>>)
    requires Understood(cfg, x) && Bit(Val(x.provide), 1) && from < x.Total() && NoneEmpty(pieces)
    requires Joined(pieces) == AllSent(cfg, x)[from..]
    ensures Accepted(cfg, x, ServerRun(cfg, Stage(cfg, x, from), pieces)) <==> NoneSpoils(cfg, x, from, pieces)
    decreases |pieces|
  {
    var s, p, to := Stage(cfg, x, from), pieces[0], from + |pieces[0]|;
    FirstPiece(AllSent(cfg, x), from, pieces);
    var t := ServerReady(cfg, s, p);
    if Spoils(cfg, x, from, to) {
      SpoilingPiece(cfg, x, from, to);
      DoomedRun(cfg, t, pieces[1..], |Line2(cfg)| + 14, 16 + |x.padC|);
      DoomedIsNot(cfg, x, ServerRun(cfg, s, pieces));
    } else {
      GoodPiece(cfg, x, from, to);
      if to < x.Total() {
        FromStage(cfg, x, to, pieces[1..]);
      } else {
        assert pieces[1..] == [];
      }
    }
  }

  /** Whatever pieces the network makes of a peer's words, the accepting side ends as the protocol wants it if and
      only if no piece is of the kind that spoils it. */
  lemma AcceptsExactly(cfg: ServerCfg, x: Words, pieces: seq<seq<Byte>>)
    requires Understood(cfg, x) && Bit(Val(x.provide), 1) && NoneEmpty(pieces)
    requires Joined(pieces) == x.f1 + AnyLine3(cfg.sha, cfg.ks, TheSecret(cfg, x), x.infoHash, x.provide, x.padC, x.ia)
    ensures Accepted(cfg, x, ServerRun(cfg, NewServer(), pieces)) <==> NoneSpoils(cfg, x, 0, pieces)
  {
    AllSentIs(cfg, x);
    assert AllSent(cfg, x)[0..] == AllSent(cfg, x) && AllSent(cfg, x)[..0] == [];
    FromStage(cfg, x, 0, pieces);
  }

  /** One such cut, right behind the head of line 3, when pad C is not longer than 40 bytes. */
  lemma CutBehindHead(cfg: ServerCfg, x: Words)
    requires Understood(cfg, x) && Bit(Val(x.provide), 1) && |x.padC| <= 40
    ensures var line3 := AnyLine3(cfg.sha, cfg.ks, TheSecret(cfg, x), x.infoHash, x.provide, x.padC, x.ia);
            && |line3| == 56 + |x.padC| + |x.ia|
            && !Accepted(cfg, x, ServerRun(cfg, NewServer(), [x.f1 + line3[..54], line3[54..]]))
  {
    var line3 := AnyLine3(cfg.sha, cfg.ks, TheSecret(cfg, x), x.infoHash, x.provide, x.padC, x.ia);
    AllSentIs(cfg, x);
    var p, q := x.f1 + line3[..54], line3[54..];
    TwoPieces(x.f1, line3, 54);
    AcceptsExactly(cfg, x, [p, q]);
    assert Spoils(cfg, x, 0, |p|);
  }
}
