/** The connecting side over every run of reads. */
module ConnectingRuns {
  import opened Bytes
  import opened Keys
  import opened DiffieHellman
  import opened Handshake
  import opened HandshakeProofs
  import opened Pieces

  /** How many of the bytes waiting are read. */
  function Grows(s: Client, avail: seq<Byte>): (n: nat)
    ensures n <= |avail|
  {
    if s.phase == NormalHandshake then 0 else |Fill(s.buf, avail, ClientMax(s))| - |s.buf|
  }

  /** One read after the other, with what still waits on the socket; once it has failed, the object is not asked to
      read any more. */
  function ClientRun(cfg: ClientCfg, s: Client, unread: seq<Byte>, pieces: seq<seq<Byte>>): (Client, seq<Byte>)
    requires |cfg.junk| == KEY_BYTES
    decreases |pieces|
  {
    if pieces == [] || s.failed then (s, unread) else
      var avail := unread + pieces[0];
      ClientRun(cfg, ClientReady(cfg, s, avail), avail[Grows(s, avail)..], pieces[1..])
  }

  // ---- what a peer sends that keeps to the protocol ----

  /** Its public value with padding, line 4, and what comes behind it. */
  datatype Reply = Reply(f2: seq<Byte>, select: seq<Byte>, padD: seq<Byte>, payload: seq<Byte>) {
    predicate Valid() {
      96 <= |f2| < 96 + MAX_PAD && |select| == 4 && |padD| <= MAX_PAD && payload != []
    }

    /** The selection is one of the two known. */
    predicate Known()
      requires |select| == 4
    {
      Bit(Val(select), 0) || Bit(Val(select), 1)
    }

    /** How many bytes there are when the head and pad D are complete. */
    function HeadEnd(): nat { |f2| + 14 }

    function PadEnd(): nat { HeadEnd() + |padD| }

    function Total(): nat { PadEnd() + |payload| }
  }

  function TheSecret(cfg: ClientCfg, x: Reply): seq<Byte>
    requires |cfg.junk| == KEY_BYTES && x.Valid()
  {
    Export(Secret(cfg.xa, Val(x.f2[..96])), cfg.junk)
  }

  function Ours(cfg: ClientCfg, x: Reply): Stream
    requires |cfg.junk| == KEY_BYTES && x.Valid()
  {
    NewStream(cfg.sha, true, TheSecret(cfg, x), cfg.infoHash)
  }

  function Theirs(cfg: ClientCfg, x: Reply): Stream
    requires |cfg.junk| == KEY_BYTES && x.Valid()
  {
    NewStream(cfg.sha, false, TheSecret(cfg, x), cfg.infoHash)
  }

  function TheHead(x: Reply): (r: seq<Byte>)
    requires x.Valid()
    ensures |r| == 14
  {
    Head(x.select, |x.padD|)
  }

  function HeadSent(cfg: ClientCfg, x: Reply): (r: seq<Byte>)
    requires |cfg.junk| == KEY_BYTES && x.Valid()
    ensures |r| == 14
  {
    Crypt(cfg.ks, Theirs(cfg, x), TheHead(x))
  }

  function PadSent(cfg: ClientCfg, x: Reply): (r: seq<Byte>)
    requires |cfg.junk| == KEY_BYTES && x.Valid()
    ensures |r| == |x.padD|
  {
    Crypt(cfg.ks, Theirs(cfg, x).After(14), x.padD)
  }

  /** All of it. */
  function AllSent(cfg: ClientCfg, x: Reply): (r: seq<Byte>)
    requires |cfg.junk| == KEY_BYTES && x.Valid()
    ensures |r| == x.Total()
  {
    x.f2 + HeadSent(cfg, x) + PadSent(cfg, x) + x.payload
  }

  lemma AllSentIs(cfg: ClientCfg, x: Reply)
    requires |cfg.junk| == KEY_BYTES && x.Valid()
    ensures AllSent(cfg, x) == x.f2 + (Crypt(cfg.ks, Theirs(cfg, x), Head(x.select, |x.padD|) + x.padD) + x.payload)
  {
    CryptConcat(cfg.ks, Theirs(cfg, x), TheHead(x), x.padD);
  }

  // ---- the stages of the connecting side, by how many bytes it has read ----

  function Begun(cfg: ClientCfg): Client
    requires |cfg.junk| == KEY_BYTES
  {
    Connected(cfg, NewClient())
  }

  function AllOurs(cfg: ClientCfg, x: Reply): seq<Byte>
    requires |cfg.junk| == KEY_BYTES && x.Valid()
  {
    Begun(cfg).sent + Line3(cfg.sha, cfg.ks, TheSecret(cfg, x), cfg.infoHash, Offer(cfg))
  }

  function Searching(cfg: ClientCfg, x: Reply, n: nat): Client
    requires |cfg.junk| == KEY_BYTES && x.Valid() && n <= x.Total()
  {
    Begun(cfg).(phase := GotYb, buf := AllSent(cfg, x)[..n], secret := TheSecret(cfg, x),
                rc4 := Cipher(Ours(cfg, x).After(84), Theirs(cfg, x)), sent := AllOurs(cfg, x))
  }

  function VcFound(cfg: ClientCfg, x: Reply, n: nat): Client
    requires |cfg.junk| == KEY_BYTES && x.Valid() && n <= x.Total()
  {
    Searching(cfg, x, n).(phase := FoundVc, vcOff := |x.f2|)
  }

  function OpenedBuf(cfg: ClientCfg, x: Reply, n: nat): (r: seq<Byte>)
    requires |cfg.junk| == KEY_BYTES && x.Valid() && x.HeadEnd() <= n <= x.Total()
    ensures |r| == n
  {
    x.f2 + TheHead(x) + (PadSent(cfg, x) + x.payload)[..n - x.HeadEnd()]
  }

  /** The head is decrypted. */
  function Opened(cfg: ClientCfg, x: Reply, n: nat, phase: ClientPhase): Client
    requires |cfg.junk| == KEY_BYTES && x.Valid() && x.HeadEnd() <= n <= x.Total()
  {
    VcFound(cfg, x, n).(
      phase := phase, buf := OpenedBuf(cfg, x, n), cryptoSelect := Val(x.select), padDLen := |x.padD|,
      rc4 := Cipher(Ours(cfg, x).After(84), Theirs(cfg, x).After(14)))
  }

  // ---- going from one stage to the next with what was read ----

  lemma SelectRead(cfg: ClientCfg, s: Client, a: seq<Byte>, select: seq<Byte>, n: nat, z: seq<Byte>, t: Client)
    requires |select| == 4 && n <= MAX_PAD && s.rc4.Cipher? && |a| == s.vcOff && z != []
    requires s.buf == a + Crypt(cfg.ks, s.rc4.dec, Head(select, n)) + z
    requires t == s.(buf := a + Head(select, n) + z, rc4 := s.rc4.(dec := s.rc4.dec.After(14)),
                     cryptoSelect := Val(select), padDLen := n)
    ensures HandleCryptoSelect(cfg, s) == if |z| <= n then t.(phase := WaitForPadD) else HandlePadD(cfg, t)
  {
    HeadFields(select, n);
    DecryptMiddle(cfg.ks, a, s.rc4.dec, Head(select, n), z);
    HeadRead(a, select, n, z);
    var d := s.(buf := t.buf, rc4 := t.rc4);
    assert ClientDecrypted(cfg, s, s.vcOff, 14) == d;
    assert HandleCryptoSelect(cfg, s) == ReadSelect(cfg, d);
  }

  /** What has been handed on so far, and what still waits, is what came behind pad D. */
  ghost predicate Followed(cfg: ClientCfg, x: Reply, t: Client, unread: seq<Byte>, n: nat)
    requires |cfg.junk| == KEY_BYTES && x.Valid() && x.PadEnd() <= n <= x.Total()
  {
    && ClientDone(t, Ours(cfg, x).After(84), Theirs(cfg, x), Val(x.select), |x.padD|, t.reinserted, AllOurs(cfg, x))
    && t.reinserted + unread == AllSent(cfg, x)[x.PadEnd()..n]
  }

  lemma BehindPad(cfg: ClientCfg, x: Reply, n: nat)
    requires |cfg.junk| == KEY_BYTES && x.Valid() && x.PadEnd() <= n <= x.Total()
    ensures var z := x.payload[..n - x.PadEnd()];
            && OpenedBuf(cfg, x, n) == (x.f2 + TheHead(x)) + PadSent(cfg, x) + z
            && AllSent(cfg, x)[x.PadEnd()..n] == z
  {
    var z := x.payload[..n - x.PadEnd()];
    assert (PadSent(cfg, x) + x.payload)[..n - x.HeadEnd()] == PadSent(cfg, x) + z;
  }

  lemma PadHandled(cfg: ClientCfg, x: Reply, n: nat, phase: ClientPhase)
    requires |cfg.junk| == KEY_BYTES && x.Valid() && x.Known() && x.PadEnd() <= n <= x.Total()
    ensures Followed(cfg, x, HandlePadD(cfg, Opened(cfg, x, n, phase)), [], n)
  {
    BehindPad(cfg, x, n);
    PadDStep(cfg, Opened(cfg, x, n, phase), x.f2 + TheHead(x), x.padD, x.payload[..n - x.PadEnd()]);
    AfterTwice(Theirs(cfg, x), 14, |x.padD|, 14 + |x.padD|);
  }

  lemma FromVc(cfg: ClientCfg, x: Reply, n: nat)
    requires |cfg.junk| == KEY_BYTES && x.Valid() && |x.f2| + 8 < n <= x.Total()
    ensures HandleCryptoSelect(cfg, VcFound(cfg, x, n)) ==
            if n <= x.HeadEnd() then VcFound(cfg, x, n)
            else if n <= x.PadEnd() then Opened(cfg, x, n, WaitForPadD)
            else HandlePadD(cfg, Opened(cfg, x, n, FoundVc))
  {
    if n > x.HeadEnd() {
      var s, z := VcFound(cfg, x, n), (PadSent(cfg, x) + x.payload)[..n - x.HeadEnd()];
      assert s.buf == x.f2 + HeadSent(cfg, x) + z;
      SelectRead(cfg, s, x.f2, x.select, |x.padD|, z, Opened(cfg, x, n, FoundVc));
    }
  }

  /** Nothing like the encrypted VC comes before it. */
  ghost predicate Unmistaken(cfg: ClientCfg, x: Reply) {
    && |cfg.junk| == KEY_BYTES && |cfg.hello| == IA_BYTES && x.Valid()
    && NotEarlier(AllSent(cfg, x), Crypt(cfg.ks, Theirs(cfg, x), VC), |x.f2|)
  }

  lemma VcThere(cfg: ClientCfg, x: Reply, n: nat)
    requires |cfg.junk| == KEY_BYTES && x.Valid() && |x.f2| + 8 <= n <= x.Total()
    ensures Matches(AllSent(cfg, x)[..n], Crypt(cfg.ks, Theirs(cfg, x), VC), |x.f2|)
  {
    AllSentIs(cfg, x);
    VcPrefix(cfg.ks, Theirs(cfg, x), x.select, x.padD, x.f2, x.payload);
    var all, k := AllSent(cfg, x), |x.f2|;
    assert all[..n][k..k + 8] == all[k..k + 8];
  }

  lemma VcSearch(cfg: ClientCfg, x: Reply, n: nat)
    requires Unmistaken(cfg, x) && 104 <= n <= x.Total()
    ensures Search(AllSent(cfg, x)[..n], Crypt(cfg.ks, Theirs(cfg, x), VC), 96, n - 8) ==
            if n > |x.f2| + 8 then |x.f2| else n - 8
  {
    var buf, vc := AllSent(cfg, x)[..n], Crypt(cfg.ks, Theirs(cfg, x), VC);
    NotInPrefix(AllSent(cfg, x), n, vc, |x.f2|);
    if n > |x.f2| + 8 {
      VcThere(cfg, x, n);
      SearchFinds(buf, vc, 96, |x.f2|, n - 8);
    } else {
      SearchMisses(buf, vc, 96, n - 8);
    }
  }

  lemma FromSearch(cfg: ClientCfg, x: Reply, n: nat)
    requires Unmistaken(cfg, x) && 96 <= n <= x.Total()
    ensures FindVC(cfg, Searching(cfg, x, n)) ==
            if n > |x.f2| + 8 then HandleCryptoSelect(cfg, VcFound(cfg, x, n)) else Searching(cfg, x, n)
  {
    if n >= 104 { VcSearch(cfg, x, n); }
  }

  // ---- where a turn ends, by how many bytes have been read ----

  function SelectLand(cfg: ClientCfg, x: Reply, n: nat): Client
    requires |cfg.junk| == KEY_BYTES && x.Valid() && n <= x.Total()
  {
    if n <= x.HeadEnd() then VcFound(cfg, x, n)
    else if n <= x.PadEnd() then Opened(cfg, x, n, WaitForPadD)
    else HandlePadD(cfg, Opened(cfg, x, n, FoundVc))
  }

  function SearchLand(cfg: ClientCfg, x: Reply, n: nat): Client
    requires |cfg.junk| == KEY_BYTES && x.Valid() && n <= x.Total()
  {
    if n > |x.f2| + 8 then SelectLand(cfg, x, n) else Searching(cfg, x, n)
  }

  lemma SearchLands(cfg: ClientCfg, x: Reply, n: nat)
    requires Unmistaken(cfg, x) && 96 <= n <= x.Total()
    ensures FindVC(cfg, Searching(cfg, x, n)) == SearchLand(cfg, x, n)
  {
    FromSearch(cfg, x, n);
    if n > |x.f2| + 8 { FromVc(cfg, x, n); }
  }

  lemma FirstLands(cfg: ClientCfg, x: Reply, n: nat)
    requires Unmistaken(cfg, x) && 96 <= n <= x.Total()
    ensures HandleYB(cfg, Begun(cfg).(buf := AllSent(cfg, x)[..n])) == SearchLand(cfg, x, n)
  {
    var s := Begun(cfg).(buf := AllSent(cfg, x)[..n]);
    assert s.buf[..96] == x.f2[..96];
    OfferIsHead(cfg);
    assert HandleYB(cfg, s) == FindVC(cfg, Searching(cfg, x, n));
    SearchLands(cfg, x, n);
  }

  // ---- pieces ----

  /** Where the connecting side stands between two good pieces, while it has not left the handshake. */
  function Stage(cfg: ClientCfg, x: Reply, n: nat): Client
    requires |cfg.junk| == KEY_BYTES && x.Valid() && n <= x.PadEnd()
  {
    if n < 96 then Begun(cfg)
    else if n <= |x.f2| + 8 then Searching(cfg, x, n)
    else if n <= x.HeadEnd() then VcFound(cfg, x, n)
    else Opened(cfg, x, n, WaitForPadD)
  }

  /** How far it reads with bytes up to `to` waiting. */
  function Reach(x: Reply, from: nat, to: nat): nat {
    if from > x.HeadEnd() then (if to <= x.PadEnd() then to else x.PadEnd())
    else if to <= MAX_EA_BUF_SIZE then to else MAX_EA_BUF_SIZE
  }

  /** The piece from byte `from` to byte `to` spoils the handshake: it is the first and does not have the whole public
      value, or is longer than that and the longest padding and a half; or it comes after the head and before the end
      of pad D. */
  predicate Spoils(x: Reply, from: nat, to: nat) {
    || (from == 0 && !(96 <= to <= 608))
    || x.HeadEnd() < from < to < x.PadEnd()
  }

  predicate NoneSpoils(x: Reply, from: nat, pieces: seq<seq<Byte>>)
    decreases |pieces|
  {
    pieces == [] || (!Spoils(x, from, from + |pieces[0]|) && NoneSpoils(x, from + |pieces[0]|, pieces[1..]))
  }

  lemma FillUp(buf: seq<Byte>, all: seq<Byte>, to: nat, max: nat, n: nat)
    requires |buf| <= to <= |all| && |buf| <= max && n == Least(to, max)
    ensures Fill(buf, all[|buf|..to], max) == buf + all[|buf|..n]
  {
    assert all[|buf|..to][..n - |buf|] == all[|buf|..n];
  }

  /** Where it stands having read up to byte `n`. */
  function ReadUp(cfg: ClientCfg, x: Reply, from: nat, n: nat): Client
    requires |cfg.junk| == KEY_BYTES && x.Valid() && n <= x.Total() && (from > x.HeadEnd() ==> from <= n)
  {
    if from == 0 then Begun(cfg).(buf := AllSent(cfg, x)[..n])
    else if from <= |x.f2| + 8 then Searching(cfg, x, n)
    else if from <= x.HeadEnd() then VcFound(cfg, x, n)
    else Opened(cfg, x, n, WaitForPadD)
  }

  lemma BufferGrows(cfg: ClientCfg, x: Reply, from: nat, n: nat)
    requires Unmistaken(cfg, x) && from <= x.PadEnd() && from <= n <= x.Total() && (from == 0 || from >= 96)
    ensures Stage(cfg, x, from).buf + AllSent(cfg, x)[from..n] == ReadUp(cfg, x, from, n).buf
  {
    var all := AllSent(cfg, x);
    if from > x.HeadEnd() {
      assert all == (x.f2 + HeadSent(cfg, x)) + (PadSent(cfg, x) + x.payload);
      AppendBehind(x.f2 + HeadSent(cfg, x), PadSent(cfg, x) + x.payload, all, x.f2 + TheHead(x), from, n);
    } else {
      AppendRaw(all, from, n);
      assert all[..0] == [];
    }
  }

  /** What is read of a piece. */
  lemma Reads(cfg: ClientCfg, x: Reply, from: nat, to: nat)
    requires Unmistaken(cfg, x) && from <= x.PadEnd() && from < to <= x.Total() && (from == 0 || from >= 96)
    ensures var s, piece, n := Stage(cfg, x, from), AllSent(cfg, x)[from..to], Reach(x, from, to);
            && from <= n <= to && Grows(s, piece) == n - from && |s.buf| == from && s.phase != NormalHandshake
            && s.(buf := Fill(s.buf, piece, ClientMax(s))) == ReadUp(cfg, x, from, n)
  {
    var s, n := Stage(cfg, x, from), Reach(x, from, to);
    FillUp(s.buf, AllSent(cfg, x), to, ClientMax(s), n);
    BufferGrows(cfg, x, from, n);
  }

  /** Where the turn with a piece ends. */
  function Landing(cfg: ClientCfg, x: Reply, from: nat, n: nat): Client
    requires |cfg.junk| == KEY_BYTES && x.Valid() && n <= x.Total() && (from > x.HeadEnd() ==> from <= n)
  {
    if from <= |x.f2| + 8 then SearchLand(cfg, x, n)
    else if from <= x.HeadEnd() then SelectLand(cfg, x, n)
    else HandlePadD(cfg, Opened(cfg, x, n, WaitForPadD))
  }

  lemma ReadyTurns(cfg: ClientCfg, s: Client, p: seq<Byte>, t: Client, grew: nat)
    requires |cfg.junk| == KEY_BYTES && p != [] && s.phase != NormalHandshake && |t.buf| - |s.buf| == grew
    requires t == s.(buf := Fill(s.buf, p, ClientMax(s)))
    ensures ClientReady(cfg, s, p) == ClientTurn(cfg, t, grew)
  {
  }

  lemma TurnOf(cfg: ClientCfg, x: Reply, from: nat, n: nat)
    requires Unmistaken(cfg, x) && from <= x.PadEnd() && from <= n <= x.Total()
    requires if from == 0 then 96 <= n <= 608 else from >= 96
    ensures ClientTurn(cfg, ReadUp(cfg, x, from, n), n - from) == Landing(cfg, x, from, n)
  {
    if from == 0 {
      FirstLands(cfg, x, n);
    } else if from <= |x.f2| + 8 {
      SearchLands(cfg, x, n);
    } else if from <= x.HeadEnd() {
      FromVc(cfg, x, n);
    }
  }

  lemma TurnLands(cfg: ClientCfg, x: Reply, from: nat, to: nat, s: Client, p: seq<Byte>)
    requires Unmistaken(cfg, x) && from <= x.PadEnd() && from < to <= x.Total()
    requires if from == 0 then 96 <= to <= 608 else from >= 96
    requires s == Stage(cfg, x, from) && p == AllSent(cfg, x)[from..to]
    ensures ClientReady(cfg, s, p) == Landing(cfg, x, from, Reach(x, from, to))
  {
    var n := Reach(x, from, to);
    Reads(cfg, x, from, to);
    ReadyTurns(cfg, s, p, ReadUp(cfg, x, from, n), n - from);
    TurnOf(cfg, x, from, n);
  }

  /** The rest of the piece waits on. */
  lemma RestWaits(cfg: ClientCfg, x: Reply, from: nat, to: nat)
    requires Unmistaken(cfg, x) && from <= x.PadEnd() && from < to <= x.Total() && (from == 0 || from >= 96)
    ensures var s, piece, n := Stage(cfg, x, from), AllSent(cfg, x)[from..to], Reach(x, from, to);
            piece[Grows(s, piece)..] == AllSent(cfg, x)[n..to]
  {
    Reads(cfg, x, from, to);
  }

  lemma MoreFollows(cfg: ClientCfg, x: Reply, t: Client, unread: seq<Byte>, n: nat, to: nat)
    requires |cfg.junk| == KEY_BYTES && x.Valid() && x.PadEnd() <= n <= to <= x.Total()
    requires Followed(cfg, x, t, unread, n)
    ensures Followed(cfg, x, t, unread + AllSent(cfg, x)[n..to], to)
  {
    var all := AllSent(cfg, x);
    assert t.reinserted + (unread + all[n..to]) == (t.reinserted + unread) + all[n..to];
    assert all[x.PadEnd()..n] + all[n..to] == all[x.PadEnd()..to];
  }

  lemma GoodPiece(cfg: ClientCfg, x: Reply, from: nat, to: nat)
    requires Unmistaken(cfg, x) && x.Known() && from <= x.PadEnd() && from < to <= x.Total()
    requires (from == 0 || from >= 96) && !Spoils(x, from, to)
    ensures var s, piece := Stage(cfg, x, from), AllSent(cfg, x)[from..to];
            var t, rest := ClientReady(cfg, s, piece), piece[Grows(s, piece)..];
            if from <= x.HeadEnd() && to <= x.PadEnd() then t == Stage(cfg, x, to) && rest == []
            else Followed(cfg, x, t, rest, to)
  {
    var n := Reach(x, from, to);
    TurnLands(cfg, x, from, to, Stage(cfg, x, from), AllSent(cfg, x)[from..to]);
    RestWaits(cfg, x, from, to);
    var rest := AllSent(cfg, x)[n..to];
    if !(from <= x.HeadEnd() && to <= x.PadEnd()) {
      var phase := if from <= x.HeadEnd() then FoundVc else WaitForPadD;
      var t := HandlePadD(cfg, Opened(cfg, x, n, phase));
      PadHandled(cfg, x, n, phase);
      MoreFollows(cfg, x, t, [], n, to);
      assert [] + rest == rest;
    }
  }

  // ---- what a spoilt handshake comes to ----

  /** It has failed, or has taken the rest of pad D for what comes behind it. */
  predicate Doomed(x: Reply, t: Client, unread: seq<Byte>, n: nat) {
    t.failed || (t.phase == NormalHandshake && t.reinserted == [] && |unread| + x.PadEnd() > n)
  }

  lemma SpoilingPiece(cfg: ClientCfg, x: Reply, from: nat, to: nat)
    requires Unmistaken(cfg, x) && x.Known() && from <= x.PadEnd() && from < to <= x.Total()
    requires (from == 0 || from >= 96) && Spoils(x, from, to)
    ensures var s, piece := Stage(cfg, x, from), AllSent(cfg, x)[from..to];
            Doomed(x, ClientReady(cfg, s, piece), piece[Grows(s, piece)..], to)
  {
    Reads(cfg, x, from, to);
  }

  lemma {:induction false} DoomedRun(cfg: ClientCfg, x: Reply, s: Client, unread: seq<Byte>, n: nat,
                                     pieces: seq<seq<Byte>>)
    requires Unmistaken(cfg, x) && x.Known() && NoneEmpty(pieces) && Doomed(x, s, unread, n)
    requires n + |Joined(pieces)| == x.Total()
    ensures var (t, rest) := ClientRun(cfg, s, unread, pieces); !Followed(cfg, x, t, rest, x.Total())
    decreases |pieces|
  {
    if pieces != [] && !s.failed {
      DoomedRun(cfg, x, s, unread + pieces[0], n + |pieces[0]|, pieces[1..]);
    }
  }

  lemma {:induction false} FollowedRun(cfg: ClientCfg, x: Reply, s: Client, unread: seq<Byte>, n: nat,
                                       pieces: seq<seq<Byte>>)
    requires Unmistaken(cfg, x) && x.Known() && NoneEmpty(pieces) && x.PadEnd() <= n <= x.Total()
    requires Followed(cfg, x, s, unread, n) && Joined(pieces) == AllSent(cfg, x)[n..]
    ensures var (t, rest) := ClientRun(cfg, s, unread, pieces); Followed(cfg, x, t, rest, x.Total())
    decreases |pieces|
  {
    if pieces != [] {
      var to := n + |pieces[0]|;
      FirstPiece(AllSent(cfg, x), n, pieces);
      MoreFollows(cfg, x, s, unread, n, to);
      FollowedRun(cfg, x, s, unread + pieces[0], to, pieces[1..]);
    }
  }

  lemma {:induction false} GoodFollows(x: Reply, from: nat, pieces: seq<seq<Byte>>)
    requires from >= x.PadEnd() && x.Valid()
    ensures NoneSpoils(x, from, pieces)
    decreases |pieces|
  {
    if pieces != [] { GoodFollows(x, from + |pieces[0]|, pieces[1..]); }
  }

  /** What a piece comes to, from any stage. */
  ghost predicate EndsWell(cfg: ClientCfg, x: Reply, from: nat, to: nat, t: Client, rest: seq<Byte>)
    requires |cfg.junk| == KEY_BYTES && x.Valid() && from <= x.PadEnd() && from < to <= x.Total()
  {
    if Spoils(x, from, to) then Doomed(x, t, rest, to)
    else if from <= x.HeadEnd() && to <= x.PadEnd() then t == Stage(cfg, x, to) && rest == []
    else to >= x.PadEnd() && Followed(cfg, x, t, rest, to)
  }

  lemma PieceEnds(cfg: ClientCfg, x: Reply, from: nat, to: nat, s: Client, p: seq<Byte>)
    returns (t: Client, rest: seq<Byte>)
    requires Unmistaken(cfg, x) && x.Known() && from <= x.PadEnd() && from < to <= x.Total()
    requires (from == 0 || from >= 96) && s == Stage(cfg, x, from) && p == AllSent(cfg, x)[from..to]
    ensures EndsWell(cfg, x, from, to, t, rest)
    ensures t == ClientReady(cfg, s, p) && rest == p[Grows(s, p)..]
  {
    t, rest := ClientReady(cfg, s, p), p[Grows(s, p)..];
    if Spoils(x, from, to) { SpoilingPiece(cfg, x, from, to); } else { GoodPiece(cfg, x, from, to); }
  }

  lemma RunOne(cfg: ClientCfg, s: Client, p: seq<Byte>, pieces: seq<seq<Byte>>, t: Client, rest: seq<Byte>)
    requires |cfg.junk| == KEY_BYTES && pieces != [] && !s.failed && p == pieces[0]
    requires t == ClientReady(cfg, s, p) && rest == p[Grows(s, p)..]
    ensures ClientRun(cfg, s, [], pieces) == ClientRun(cfg, t, rest, pieces[1..])
  {
    assert [] + pieces[0] == pieces[0];
  }

  /** A piece that spoils the handshake, or ends it, decides. */
  lemma Decided(cfg: ClientCfg, x: Reply, from: nat, to: nat, t: Client, rest: seq<Byte>, pieces: seq<seq<Byte>>)
    requires Unmistaken(cfg, x) && x.Known() && NoneEmpty(pieces) && from <= x.PadEnd() && from < to <= x.Total()
    requires Spoils(x, from, to) || from > x.HeadEnd() || to > x.PadEnd()
    requires EndsWell(cfg, x, from, to, t, rest) && Joined(pieces) == AllSent(cfg, x)[to..]
    ensures var (u, left) := ClientRun(cfg, t, rest, pieces);
            Followed(cfg, x, u, left, x.Total()) <==> !Spoils(x, from, to) && NoneSpoils(x, to, pieces)
  {
    if Spoils(x, from, to) {
      DoomedRun(cfg, x, t, rest, to, pieces);
    } else {
      FollowedRun(cfg, x, t, rest, to, pieces);
      GoodFollows(x, to, pieces);
    }
  }

  /** The first piece of a run from a stage, as far as it goes. */
  ghost predicate Running(cfg: ClientCfg, x: Reply, from: nat, pieces: seq<seq<Byte>>) {
    && Unmistaken(cfg, x) && x.Known() && NoneEmpty(pieces) && from <= x.PadEnd() && (from == 0 || from >= 96)
    && pieces != [] && Joined(pieces) == AllSent(cfg, x)[from..]
  }

  ghost predicate Ends(cfg: ClientCfg, x: Reply, from: nat, pieces: seq<seq<Byte>>)
    requires Running(cfg, x, from, pieces)
  {
    var (t, rest) := ClientRun(cfg, Stage(cfg, x, from), [], pieces);
    Followed(cfg, x, t, rest, x.Total())
  }

  lemma StaysOnStage(cfg: ClientCfg, x: Reply, from: nat, pieces: seq<seq<Byte>>, to: nat)
    requires Running(cfg, x, from, pieces) && to == from + |pieces[0]|
    requires !Spoils(x, from, to) && from <= x.HeadEnd() && to <= x.PadEnd()
    ensures Running(cfg, x, to, pieces[1..]) && (Ends(cfg, x, from, pieces) <==> Ends(cfg, x, to, pieces[1..]))
  {
    FirstPiece(AllSent(cfg, x), from, pieces);
    var s, p := Stage(cfg, x, from), pieces[0];
    var t, rest := PieceEnds(cfg, x, from, to, s, p);
    RunOne(cfg, s, p, pieces, t, rest);
  }

  lemma DecidedAtOnce(cfg: ClientCfg, x: Reply, from: nat, pieces: seq<seq<Byte>>, to: nat)
    requires Running(cfg, x, from, pieces) && to == from + |pieces[0]|
    requires Spoils(x, from, to) || from > x.HeadEnd() || to > x.PadEnd()
    ensures Ends(cfg, x, from, pieces) <==> !Spoils(x, from, to) && NoneSpoils(x, to, pieces[1..])
  {
    FirstPiece(AllSent(cfg, x), from, pieces);
    var s, p := Stage(cfg, x, from), pieces[0];
    var t, rest := PieceEnds(cfg, x, from, to, s, p);
    RunOne(cfg, s, p, pieces, t, rest);
    Decided(cfg, x, from, to, t, rest, pieces[1..]);
  }

  lemma {:induction false} FromStage(cfg: ClientCfg, x: Reply, from: nat, pieces: seq<seq<Byte>>)
    requires Running(cfg, x, from, pieces)
    ensures Ends(cfg, x, from, pieces) <==> NoneSpoils(x, from, pieces)
    decreases |pieces|
  {
    var to := from + |pieces[0]|;
    if !Spoils(x, from, to) && from <= x.HeadEnd() && to <= x.PadEnd() {
      StaysOnStage(cfg, x, from, pieces, to);
      FromStage(cfg, x, to, pieces[1..]);
    } else {
      DecidedAtOnce(cfg, x, from, pieces, to);
    }
  }

  /** Whatever pieces the network makes of a peer's words, the connecting side ends as the protocol wants it if and
      only if no piece is of the kind that spoils it. */
  lemma ConnectsExactly(cfg: ClientCfg, x: Reply, pieces: seq<seq<Byte>>)
    requires Unmistaken(cfg, x) && x.Known() && NoneEmpty(pieces)
    requires Joined(pieces)
          == x.f2 + (Crypt(cfg.ks, Theirs(cfg, x), Head(x.select, |x.padD|) + x.padD) + x.payload)
    ensures var (t, rest) := ClientRun(cfg, Begun(cfg), [], pieces);
            Followed(cfg, x, t, rest, x.Total()) <==> NoneSpoils(x, 0, pieces)
  {
    AllSentIs(cfg, x);
    assert AllSent(cfg, x)[0..] == AllSent(cfg, x);
    FromStage(cfg, x, 0, pieces);
  }
}
