/** What the two ends of the handshake achieve: both ciphers leave it at the same position of the
    same streams, and the bytes handed on are read back as they were meant. */
module HandshakeProofs {
  import opened Bytes
  import opened Keys
  import opened DiffieHellman
  import opened Handshake

  // ---- searching ----

  lemma {:induction false} SearchFinds(buf: seq<Byte>, pat: seq<Byte>, i: nat, k: nat, end: nat)
    requires i <= k < end && Matches(buf, pat, k)
    requires forall j :: i <= j < k ==> !Matches(buf, pat, j)
    ensures Search(buf, pat, i, end) == k
    decreases k - i
  {
    if i < k { SearchFinds(buf, pat, i + 1, k, end); }
  }

  lemma {:induction false} SearchMisses(buf: seq<Byte>, pat: seq<Byte>, i: nat, end: nat)
    requires i <= end
    requires forall j :: i <= j < end ==> !Matches(buf, pat, j)
    ensures Search(buf, pat, i, end) == end
    decreases end - i
  {
    if i < end { SearchMisses(buf, pat, i + 1, end); }
  }

  // ---- decrypting a message piece by piece in a buffer ----

  /** A stream may be cut anywhere, and used twice it gives the data back. */
  lemma CryptConcat(ks: Keystream, st: Stream, x: seq<Byte>, y: seq<Byte>)
    ensures Crypt(ks, st, x + y) == Crypt(ks, st, x) + Crypt(ks, st.After(|x|), y)
  {
    forall i | 0 <= i < |y| ensures Crypt(ks, st, x + y)[|x| + i] == Crypt(ks, st.After(|x|), y)[i] {
      assert (x + y)[|x| + i] == y[i];
    }
  }

  lemma CryptTwice(ks: Keystream, st: Stream, x: seq<Byte>)
    ensures Crypt(ks, st, Crypt(ks, st, x)) == x
  {
    forall i | 0 <= i < |x| ensures Crypt(ks, st, Crypt(ks, st, x))[i] == x[i] {
      XorCancels(ks(st.key, st.pos + i), x[i]);
    }
  }

  /** Decrypting the front of what follows `a` leaves the rest to the continued stream. */
  lemma DecryptFront(ks: Keystream, a: seq<Byte>, st: Stream, x: seq<Byte>, y: seq<Byte>)
    ensures |a + Crypt(ks, st, x + y)| == |a| + |x| + |y|
    ensures DecryptAt(ks, a + Crypt(ks, st, x + y), st, |a|, |x|) == (a + x) + Crypt(ks, st.After(|x|), y)
  {
    var c, d := Crypt(ks, st, x), Crypt(ks, st.After(|x|), y);
    CryptConcat(ks, st, x, y);
    CryptTwice(ks, st, x);
    var buf := a + Crypt(ks, st, x + y);
    assert buf == a + c + d;
    assert buf[..|a|] == a && buf[|a|..|a| + |x|] == c && buf[|a| + |x|..] == d;
  }

  lemma DecryptMiddle(ks: Keystream, a: seq<Byte>, st: Stream, x: seq<Byte>, z: seq<Byte>)
    ensures DecryptAt(ks, a + Crypt(ks, st, x) + z, st, |a|, |x|) == a + x + z
  {
    var buf := a + Crypt(ks, st, x) + z;
    CryptTwice(ks, st, x);
    assert buf[..|a|] == a && buf[|a|..|a| + |x|] == Crypt(ks, st, x) && buf[|a| + |x|..] == z;
  }

  lemma Slice(a: seq<Byte>, x: seq<Byte>, c: seq<Byte>, i: nat, j: nat)
    requires i <= j <= |x|
    ensures (a + x + c)[|a| + i..|a| + j] == x[i..j]
  {
  }

  lemma Be16Value(n: nat)
    requires n < 65536
    ensures Val(Be16(n)) == n
  {
    var b := Be16(n);
    assert b[..1] == [n / 256] && b[..1][..0] == [];
    assert Val(b[..1]) == Val([]) * 256 + n / 256;
  }

  // ---- the accepting side ----

  /** VC, crypto_provide (or crypto_select) and a padding length. */
  function Head(provide: seq<Byte>, n: nat): seq<Byte>
    requires n < 65536
  {
    VC + provide + Be16(n)
  }

  /** What follows the head of line 3. */
  function Tail(padC: seq<Byte>, ia: seq<Byte>): seq<Byte>
    requires |ia| < 65536
  {
    (padC + Be16(|ia|)) + ia
  }

  lemma HeadFields(provide: seq<Byte>, n: nat)
    requires |provide| == 4 && n < 65536
    ensures var h := Head(provide, n);
            |h| == 14 && h[0..8] == VC && h[8..12] == provide && h[12..14] == Be16(n)
  {
  }

  /** The decrypted head as the receiving side reads it. */
  ghost predicate HeadAt(buf: seq<Byte>, off: nat, crypto: nat, n: nat) {
    off + 14 <= |buf| && OpeningAt(buf, off) == Opening(true, crypto, n)
  }

  lemma HeadRead(a: seq<Byte>, provide: seq<Byte>, n: nat, rest: seq<Byte>)
    requires |provide| == 4 && n < 65536
    ensures HeadAt(a + Head(provide, n) + rest, |a|, Val(provide), n)
  {
    var h := Head(provide, n);
    HeadFields(provide, n);
    Slice(a, h, rest, 0, 8);
    Slice(a, h, rest, 8, 12);
    Slice(a, h, rest, 12, 14);
    Be16Value(n);
  }

  lemma IaStep(cfg: ServerCfg, s: Server, a: seq<Byte>, c: seq<Byte>)
    requires s.buf == a + c && |a| == s.req1Off + 56 + s.padCLen && s.iaLen == |c| && s.reinserted == []
    ensures HandleIA(cfg, s) ==
            (if s.cryptoSelect == 2 then
               s.(sockCipher := s.rc4, rc4 := NoCipher, phase := NonEncrypted, reinserted := c)
             else if cfg.allowPlain then s.(rc4 := NoCipher, phase := NonEncrypted, reinserted := c)
             else s.(failed := true, reinserted := c))
  {
    assert s.buf[|a|..] == c;
    assert |c| == 0 ==> c == [];
  }

  lemma IaLengthStep(cfg: ServerCfg, s: Server, buf: seq<Byte>, a: seq<Byte>, padC: seq<Byte>, c: seq<Byte>)
    requires |c| <= IA_BYTES && buf == a + (padC + Be16(|c|)) + c
    requires |a| == s.req1Off + 54 && s.padCLen == |padC| && s.rc4.Cipher?
    ensures ReadIaLength(cfg, s.(buf := buf, rc4 := s.rc4.(dec := s.rc4.dec.After(|padC| + 2)))) ==
            HandleIA(cfg, s.(buf := buf, rc4 := s.rc4.(dec := s.rc4.dec.After(|padC| + 2)), iaLen := |c|))
  {
    var x := padC + Be16(|c|);
    Slice(a, x, c, |padC|, |padC| + 2);
    assert x[|padC|..|padC| + 2] == Be16(|c|);
    Be16Value(|c|);
  }

  lemma PadCStep(cfg: ServerCfg, s: Server, a: seq<Byte>, padC: seq<Byte>, ia: seq<Byte>)
    requires |ia| <= IA_BYTES && s.rc4.Cipher? && |a| == s.req1Off + 54 && s.padCLen == |padC|
    requires s.buf == a + Crypt(cfg.ks, s.rc4.dec, Tail(padC, ia))
    ensures var d := s.rc4.dec.After(|padC| + 2);
            HandlePadC(cfg, s) ==
            HandleIA(cfg, s.(buf := a + (padC + Be16(|ia|)) + Crypt(cfg.ks, d, ia),
                             rc4 := s.rc4.(dec := d), iaLen := |ia|))
  {
    DecryptFront(cfg.ks, a, s.rc4.dec, padC + Be16(|ia|), ia);
    var c := Crypt(cfg.ks, s.rc4.dec.After(|padC| + 2), ia);
    IaLengthStep(cfg, s, a + (padC + Be16(|ia|)) + c, a, padC, c);
  }

  lemma VcStep(cfg: ServerCfg, s: Server, off: nat, provide: nat, n: nat)
    requires s.rc4.Cipher? && n <= MAX_PAD && off == s.req1Off + 40 && HeadAt(s.buf, off, provide, n)
    ensures ReadVC(cfg, s) == AwaitPadC(cfg, Answer(cfg, s, provide, n))
  {
  }

  /** How the accepting side ends: RC4 if it was offered, the socket's ciphers then 14 bytes into our
      stream and past pad C and the IA length in the peer's, and IA handed on still encrypted. */
  ghost predicate ServerDone(cfg: ServerCfg, t: Server, sentBefore: seq<Byte>, enc: Stream, dec: Stream,
                             provide: seq<Byte>, padC: seq<Byte>, ia: seq<Byte>)
  {
    var rc4 := Bit(Val(provide), 1);
    var d := dec.After(16 + |padC|);
    && t.sent == sentBefore + Crypt(cfg.ks, enc, Select(if rc4 then 2 else 1))
    && t.reinserted == Crypt(cfg.ks, d, ia)
    && (t.failed <==> !rc4 && !cfg.allowPlain)
    && (!t.failed ==> t.phase == NonEncrypted && t.sockCipher == if rc4 then Cipher(enc.After(14), d) else NoCipher)
  }

  lemma PadCDone(cfg: ServerCfg, s: Server, a: seq<Byte>, padC: seq<Byte>, ia: seq<Byte>)
    requires |padC| <= MAX_PAD && |ia| <= IA_BYTES && s.rc4.Cipher? && |a| == s.req1Off + 54 && s.padCLen == |padC|
    requires s.buf == a + Crypt(cfg.ks, s.rc4.dec, Tail(padC, ia))
    requires s.reinserted == [] && !s.failed && s.sockCipher == NoCipher
    ensures var t, d := AwaitPadC(cfg, s), s.rc4.dec.After(|padC| + 2);
            && t.sent == s.sent && t.reinserted == Crypt(cfg.ks, d, ia)
            && t.failed == (s.cryptoSelect != 2 && !cfg.allowPlain)
            && (!t.failed ==>
                  && t.phase == NonEncrypted
                  && t.sockCipher == if s.cryptoSelect == 2 then s.rc4.(dec := d) else NoCipher)
  {
    PadCStep(cfg, s, a, padC, ia);
    var d := s.rc4.dec.After(|padC| + 2);
    var x, c := padC + Be16(|ia|), Crypt(cfg.ks, d, ia);
    IaStep(cfg, s.(buf := a + x + c, rc4 := s.rc4.(dec := d), iaLen := |ia|), a + x, c);
  }

  lemma ProcessVCStep(cfg: ServerCfg, s: Server, buf: seq<Byte>)
    requires s.rc4.NoCipher? && s.req1Off + 54 <= |s.buf|
    requires buf == DecryptAt(cfg.ks, s.buf, NewStream(cfg.sha, true, s.secret, s.infoHash), s.req1Off + 40, 14)
    ensures var enc := NewStream(cfg.sha, false, s.secret, s.infoHash);
            var dec := NewStream(cfg.sha, true, s.secret, s.infoHash);
            ProcessVC(cfg, s) == ReadVC(cfg, s.(buf := buf, rc4 := Cipher(enc, dec.After(14))))
  {
  }

  lemma AfterTwice(st: Stream, m: nat, n: nat, sum: nat)
    requires sum == m + n
    ensures st.After(m).After(n) == st.After(sum)
  {
  }

  lemma AnswerDone(cfg: ServerCfg, s: Server, a: seq<Byte>, enc: Stream, dec: Stream,
                   provide: seq<Byte>, padC: seq<Byte>, ia: seq<Byte>)
    requires |padC| <= MAX_PAD && |ia| <= IA_BYTES && |a| == s.req1Off + 54
    requires s.rc4 == Cipher(enc, dec.After(14)) && s.buf == a + Crypt(cfg.ks, dec.After(14), Tail(padC, ia))
    requires s.reinserted == [] && !s.failed && s.sockCipher == NoCipher
    ensures ServerDone(cfg, AwaitPadC(cfg, Answer(cfg, s, Val(provide), |padC|)), s.sent, enc, dec, provide, padC, ia)
  {
    var n, v := |padC|, Val(provide);
    var u := Answer(cfg, s, v, n);
    AfterTwice(dec, 14, n + 2, 16 + n);
    assert u.rc4 == Cipher(enc.After(14), dec.After(14)) && u.cryptoSelect == if Bit(v, 1) then 2 else 1;
    PadCDone(cfg, u, a, padC, ia);
  }

  lemma HeadOpened(cfg: ServerCfg, s: Server, a: seq<Byte>, h: seq<Byte>, tail: seq<Byte>) returns (t: Server)
    requires |h| == 14 && |a| == s.req1Off + 40 && s.rc4.NoCipher?
    requires s.buf == a + Crypt(cfg.ks, NewStream(cfg.sha, true, s.secret, s.infoHash), h + tail)
    ensures var enc := NewStream(cfg.sha, false, s.secret, s.infoHash);
            var dec := NewStream(cfg.sha, true, s.secret, s.infoHash);
            t == s.(buf := a + h + Crypt(cfg.ks, dec.After(14), tail), rc4 := Cipher(enc, dec.After(14)))
    ensures ProcessVC(cfg, s) == ReadVC(cfg, t)
  {
    var enc, dec := NewStream(cfg.sha, false, s.secret, s.infoHash), NewStream(cfg.sha, true, s.secret, s.infoHash);
    DecryptFront(cfg.ks, a, dec, h, tail);
    var buf := a + h + Crypt(cfg.ks, dec.After(14), tail);
    ProcessVCStep(cfg, s, buf);
    t := s.(buf := buf, rc4 := Cipher(enc, dec.After(14)));
  }

  /** Line 3 from its encrypted part on, at the accepting side. */
  lemma ProcessVCDone(cfg: ServerCfg, s: Server, a: seq<Byte>, provide: seq<Byte>, padC: seq<Byte>, ia: seq<Byte>)
    requires |provide| == 4 && |padC| <= MAX_PAD && |ia| <= IA_BYTES && |a| == s.req1Off + 40
    requires s.rc4.NoCipher? && s.reinserted == [] && !s.failed && s.sockCipher == NoCipher
    requires var st := NewStream(cfg.sha, true, s.secret, s.infoHash);
             s.buf == a + Crypt(cfg.ks, st, Head(provide, |padC|) + Tail(padC, ia))
    ensures var enc := NewStream(cfg.sha, false, s.secret, s.infoHash);
            var dec := NewStream(cfg.sha, true, s.secret, s.infoHash);
            ServerDone(cfg, ProcessVC(cfg, s), s.sent, enc, dec, provide, padC, ia)
  {
    var enc, dec := NewStream(cfg.sha, false, s.secret, s.infoHash), NewStream(cfg.sha, true, s.secret, s.infoHash);
    var h, n, tail := Head(provide, |padC|), |padC|, Tail(padC, ia);
    HeadFields(provide, n);
    var t := HeadOpened(cfg, s, a, h, tail);
    HeadRead(a, provide, n, Crypt(cfg.ks, dec.After(14), tail));
    VcStep(cfg, t, |a|, Val(provide), n);
    AnswerDone(cfg, t, a + h, enc, dec, provide, padC, ia);
  }

  /** The hash of the info hash, masked by that of the secret, is unmasked by it. */
  lemma Unmask(a: Key, b: Key)
    ensures Distance(Distance(a, b), b) == a
  {
    forall i | 0 <= i < 20 ensures Distance(Distance(a, b), b)[i] == a[i] {
      XorCancels(a[i], b[i]);
    }
  }

  /** Line 3 with any pad C and any IA. */
  function AnyLine3(sha: Hash, ks: Keystream, secret: seq<Byte>, infoHash: Key, provide: seq<Byte>, padC: seq<Byte>,
                    ia: seq<Byte>): seq<Byte>
    requires |padC| <= MAX_PAD && |ia| <= IA_BYTES
  {
    Line3(sha, ks, secret, infoHash, Head(provide, |padC|) + Tail(padC, ia))
  }

  lemma SKeyStep(cfg: ServerCfg, s: Server, f1: seq<Byte>, infoHash: Key, rest: seq<Byte>)
    requires s.req1Off == |f1| && cfg.lookup(Req2(cfg.sha, infoHash)) == Found(infoHash)
    requires s.buf == f1 + Req1(cfg.sha, s.secret) + Distance(Req2(cfg.sha, infoHash), Req3(cfg.sha, s.secret)) + rest
    ensures CalculateSKey(cfg, s) == ProcessVC(cfg, s.(infoHash := infoHash, phase := FoundInfoHash))
  {
    var q, r := Req1(cfg.sha, s.secret), Distance(Req2(cfg.sha, infoHash), Req3(cfg.sha, s.secret));
    assert s.buf == (f1 + q) + r + rest;
    Slice(f1 + q, r, rest, 0, 20);
    assert r[0..20] == r;
    Unmask(Req2(cfg.sha, infoHash), Req3(cfg.sha, s.secret));
  }

  /** `pat` does not occur in `buf` at a position in [96, end). */
  ghost predicate NotEarlier(buf: seq<Byte>, pat: seq<Byte>, end: nat) {
    forall i :: 96 <= i < end ==> !Matches(buf, pat, i)
  }

  lemma MatchesInPrefix(a: seq<Byte>, b: seq<Byte>, pat: seq<Byte>, i: nat)
    requires Matches(a, pat, i)
    ensures Matches(a + b, pat, i)
  {
    assert (a + b)[i..i + |pat|] == a[i..i + |pat|];
  }

  lemma NotInPrefix(buf: seq<Byte>, n: nat, pat: seq<Byte>, end: nat)
    requires n <= |buf| && NotEarlier(buf, pat, end)
    ensures NotEarlier(buf[..n], pat, end)
  {
    assert buf == buf[..n] + buf[n..];
    forall i | 96 <= i < end ensures !Matches(buf[..n], pat, i) {
      if Matches(buf[..n], pat, i) { MatchesInPrefix(buf[..n], buf[n..], pat, i); }
    }
  }

  lemma NotYet(f1: seq<Byte>, rest: seq<Byte>, q: Key)
    requires |f1| >= 116 && NotEarlier(f1 + rest, q, |f1|)
    ensures Search(f1, q, 96, |f1| - 20) == |f1| - 20
  {
    forall i | 96 <= i < |f1| - 20 ensures !Matches(f1, q, i) {
      if Matches(f1, q, i) { MatchesInPrefix(f1, rest, q, i); }
    }
    SearchMisses(f1, q, 96, |f1| - 20);
  }

  lemma KeyRead(cfg: ServerCfg, f1: seq<Byte>)
    requires |cfg.junk| == KEY_BYTES && 96 <= |f1| < 96 + MAX_PAD
    ensures ServerReady(cfg, NewServer(), f1) == HandleYA(cfg, NewServer().(buf := f1))
  {
    assert [] + f1 == f1;
  }

  /** The first flight of the connecting side: its public value and up to 511 bytes more. */
  lemma FirstFlight(cfg: ServerCfg, f1: seq<Byte>, rest: seq<Byte>, secret: seq<Byte>)
    requires |cfg.junk| == KEY_BYTES && 96 <= |f1| < 96 + MAX_PAD
    requires secret == Export(Secret(cfg.xb, Val(f1[..96])), cfg.junk)
    requires NotEarlier(f1 + rest, Req1(cfg.sha, secret), |f1|)
    ensures ServerReady(cfg, NewServer(), f1) ==
            NewServer().(phase := WaitingForReq1, buf := f1, secret := secret,
                         sent := Export(Public(cfg.xb), cfg.junk) + cfg.pad)
  {
    var s := NewServer().(buf := f1, sent := Export(Public(cfg.xb), cfg.junk) + cfg.pad, secret := secret,
                          phase := WaitingForReq1);
    if |f1| >= 116 { NotYet(f1, rest, Req1(cfg.sha, secret)); }
    KeyRead(cfg, f1);
    assert FindReq1(cfg, s) == s;
    assert HandleYA(cfg, NewServer().(buf := f1)) == FindReq1(cfg, s);
  }

  /** The search meets the hash right behind the padding. */
  lemma Req1Behind(f1: seq<Byte>, q: Key, rest: seq<Byte>)
    requires 96 <= |f1| && rest != [] && NotEarlier(f1 + (q + rest), q, |f1|)
    ensures Search(f1 + (q + rest), q, 96, |f1| + |rest|) == |f1|
  {
    var buf := f1 + (q + rest);
    assert buf == f1 + q + rest;
    Slice(f1, q, rest, 0, 20);
    assert q[0..20] == q && Matches(buf, q, |f1|);
    SearchFinds(buf, q, 96, |f1|, |f1| + |rest|);
  }

  lemma ReadsOn(cfg: ServerCfg, s: Server, avail: seq<Byte>)
    requires |cfg.junk| == KEY_BYTES && s.phase == WaitingForReq1
    requires avail != [] && |s.buf| + |avail| <= MAX_SEA_BUF_SIZE
    ensures ServerReady(cfg, s, avail) == FindReq1(cfg, s.(buf := s.buf + avail))
  {
  }

  lemma Req1Found(cfg: ServerCfg, s: Server, i: nat)
    requires |s.buf| >= 116 && Search(s.buf, Req1(cfg.sha, s.secret), 96, |s.buf| - 20) == i < |s.buf| - 20
    ensures FindReq1(cfg, s) == CalculateSKey(cfg, s.(phase := FoundReq1, req1Off := i))
  {
  }

  lemma FindsReq1(cfg: ServerCfg, s: Server, f1: seq<Byte>, q: Key, rest: seq<Byte>)
    requires |cfg.junk| == KEY_BYTES && 96 <= |f1| && q == Req1(cfg.sha, s.secret) && rest != []
    requires s.phase == WaitingForReq1 && s.buf == f1 && |f1| + 20 + |rest| <= MAX_SEA_BUF_SIZE
    requires NotEarlier(f1 + (q + rest), q, |f1|)
    ensures ServerReady(cfg, s, q + rest)
         == CalculateSKey(cfg, s.(buf := f1 + (q + rest), phase := FoundReq1, req1Off := |f1|))
  {
    var t := s.(buf := f1 + (q + rest));
    Req1Behind(f1, q, rest);
    ReadsOn(cfg, s, q + rest);
    Req1Found(cfg, t, |f1|);
  }

  /** The third line, whole: the accepting side leaves the handshake. */
  lemma ThirdLine(cfg: ServerCfg, s: Server, f1: seq<Byte>, infoHash: Key, provide: seq<Byte>, padC: seq<Byte>,
                  ia: seq<Byte>)
    requires |cfg.junk| == KEY_BYTES && 96 <= |f1| < 96 + MAX_PAD
    requires |provide| == 4 && |padC| <= MAX_PAD && |ia| <= IA_BYTES
    requires cfg.lookup(Req2(cfg.sha, infoHash)) == Found(infoHash)
    requires s.phase == WaitingForReq1 && s.buf == f1 && s.rc4.NoCipher?
    requires s.reinserted == [] && !s.failed && s.sockCipher == NoCipher
    requires var f3 := AnyLine3(cfg.sha, cfg.ks, s.secret, infoHash, provide, padC, ia);
             NotEarlier(f1 + f3, Req1(cfg.sha, s.secret), |f1|)
    ensures var f3 := AnyLine3(cfg.sha, cfg.ks, s.secret, infoHash, provide, padC, ia);
            var enc, dec := NewStream(cfg.sha, false, s.secret, infoHash), NewStream(cfg.sha, true, s.secret, infoHash);
            ServerDone(cfg, ServerReady(cfg, s, f3), s.sent, enc, dec, provide, padC, ia)
  {
    var q, r: seq<Byte> := Req1(cfg.sha, s.secret), Distance(Req2(cfg.sha, infoHash), Req3(cfg.sha, s.secret));
    var msg := Head(provide, |padC|) + Tail(padC, ia);
    var c := Crypt(cfg.ks, NewStream(cfg.sha, true, s.secret, infoHash), msg);
    HeadFields(provide, |padC|);
    var f3 := AnyLine3(cfg.sha, cfg.ks, s.secret, infoHash, provide, padC, ia);
    assert f3 == q + (r + c);
    var t := s.(buf := f1 + (q + (r + c)), phase := FoundReq1, req1Off := |f1|);
    assert t.buf == f1 + q + r + c;
    var u := t.(infoHash := infoHash, phase := FoundInfoHash);
    assert ServerReady(cfg, s, f3) == ProcessVC(cfg, u) by {
      FindsReq1(cfg, s, f1, q, r + c);
      SKeyStep(cfg, t, f1, infoHash, c);
    }
    ProcessVCDone(cfg, u, f1 + q + r, provide, padC, ia);
  }

  /** What a reader of the socket gets. */
  function ReadThrough(ks: Keystream, c: Cipher, data: seq<Byte>): seq<Byte> {
    if c.NoCipher? then data else Crypt(ks, c.dec, data)
  }

  /** IA is handed on as it came, so the handshake in it can be read exactly when RC4 was offered (or
      the stream leaves it as it is): choosing plain text drops the cipher IA was encrypted with. */
  lemma IaReadable(cfg: ServerCfg, t: Server, sentBefore: seq<Byte>, enc: Stream, dec: Stream,
                   provide: seq<Byte>, padC: seq<Byte>, ia: seq<Byte>)
    requires ServerDone(cfg, t, sentBefore, enc, dec, provide, padC, ia) && !t.failed
    ensures ReadThrough(cfg.ks, t.sockCipher, t.reinserted) == ia
        <==> Bit(Val(provide), 1) || Crypt(cfg.ks, dec.After(16 + |padC|), ia) == ia
  {
    CryptTwice(cfg.ks, dec.After(16 + |padC|), ia);
  }

  // ---- the connecting side ----

  /** As `DecryptFront`, with more bytes behind the message. */
  lemma DecryptFrontOf(ks: Keystream, a: seq<Byte>, st: Stream, x: seq<Byte>, y: seq<Byte>, z: seq<Byte>)
    ensures DecryptAt(ks, a + Crypt(ks, st, x + y) + z, st, |a|, |x|) == (a + x) + Crypt(ks, st.After(|x|), y) + z
  {
    var b := a + Crypt(ks, st, x + y);
    DecryptFront(ks, a, st, x, y);
    assert (b + z)[..|a|] == b[..|a|] && (b + z)[|a|..|a| + |x|] == b[|a|..|a| + |x|];
    assert (b + z)[|a| + |x|..] == b[|a| + |x|..] + z;
  }

  /** How the connecting side ends: with `payload` handed on as it came, and RC4 only if plain text was
      not selected. */
  ghost predicate ClientDone(t: Client, enc: Stream, dec: Stream, select: nat, n: nat, payload: seq<Byte>,
                             sent: seq<Byte>) {
    && t.sent == sent
    && (t.failed <==> !Bit(select, 0) && !Bit(select, 1))
    && (!t.failed ==>
          && t.phase == NormalHandshake && t.reinserted == payload
          && t.sockCipher == if Bit(select, 0) then NoCipher else Cipher(enc, dec.After(14 + n)))
  }

  lemma PadDStep(cfg: ClientCfg, s: Client, a: seq<Byte>, padD: seq<Byte>, payload: seq<Byte>)
    requires s.rc4.Cipher? && |a| == s.vcOff + 14 && s.padDLen == |padD|
    requires s.buf == a + Crypt(cfg.ks, s.rc4.dec, padD) + payload && |a| + |padD| <= MAX_EA_BUF_SIZE
    requires s.reinserted == [] && !s.failed && s.sockCipher == NoCipher
    ensures var t := HandlePadD(cfg, s);
            && t.sent == s.sent
            && (t.failed <==> !Bit(s.cryptoSelect, 0) && !Bit(s.cryptoSelect, 1))
            && (!t.failed ==>
                  && t.phase == NormalHandshake && t.reinserted == payload
                  && t.sockCipher == if Bit(s.cryptoSelect, 0) then NoCipher
                                     else s.rc4.(dec := s.rc4.dec.After(|padD|)))
  {
    assert padD + [] == padD;
    DecryptFrontOf(cfg.ks, a, s.rc4.dec, padD, [], payload);
    var buf := (a + padD) + Crypt(cfg.ks, s.rc4.dec.After(|padD|), []) + payload;
    assert buf[|a| + |padD|..] == payload;
  }

  lemma SelectStep(cfg: ClientCfg, s: Client, buf: seq<Byte>, select: nat, n: nat)
    requires s.rc4.Cipher? && n <= MAX_PAD && s.vcOff + 14 + n < |s.buf|
    requires buf == DecryptAt(cfg.ks, s.buf, s.rc4.dec, s.vcOff, 14) && HeadAt(buf, s.vcOff, select, n)
    ensures HandleCryptoSelect(cfg, s) ==
            HandlePadD(cfg, s.(buf := buf, rc4 := s.rc4.(dec := s.rc4.dec.After(14)), cryptoSelect := select,
                               padDLen := n))
  {
  }

  /** The buffer once the head of line 4 is decrypted. */
  function Opened(ks: Keystream, a: seq<Byte>, dec: Stream, select: seq<Byte>, padD: seq<Byte>,
                  payload: seq<Byte>): seq<Byte>
    requires |padD| <= MAX_PAD
  {
    (a + Head(select, |padD|)) + Crypt(ks, dec.After(14), padD) + payload
  }

  lemma OpenedFacts(ks: Keystream, a: seq<Byte>, dec: Stream, select: seq<Byte>, padD: seq<Byte>, payload: seq<Byte>)
    requires |select| == 4 && |padD| <= MAX_PAD
    ensures var buf := a + Crypt(ks, dec, Head(select, |padD|) + padD) + payload;
            && |buf| == |a| + 14 + |padD| + |payload|
            && DecryptAt(ks, buf, dec, |a|, 14) == Opened(ks, a, dec, select, padD, payload)
    ensures HeadAt(Opened(ks, a, dec, select, padD, payload), |a|, Val(select), |padD|)
  {
    var h, c := Head(select, |padD|), Crypt(ks, dec.After(14), padD);
    HeadFields(select, |padD|);
    DecryptFrontOf(ks, a, dec, h, padD, payload);
    assert Opened(ks, a, dec, select, padD, payload) == a + h + (c + payload);
    HeadRead(a, select, |padD|, c + payload);
  }

  lemma CryptoSelectDone(cfg: ClientCfg, s: Client, a: seq<Byte>, select: seq<Byte>, padD: seq<Byte>,
                         payload: seq<Byte>)
    requires |select| == 4 && |padD| <= MAX_PAD && payload != [] && |a| == s.vcOff && s.rc4.Cipher?
    requires |a| + 14 + |padD| <= MAX_EA_BUF_SIZE
    requires s.buf == a + Crypt(cfg.ks, s.rc4.dec, Head(select, |padD|) + padD) + payload
    requires s.reinserted == [] && !s.failed && s.sockCipher == NoCipher
    ensures ClientDone(HandleCryptoSelect(cfg, s), s.rc4.enc, s.rc4.dec, Val(select), |padD|, payload, s.sent)
  {
    var d := s.rc4.dec.After(14);
    var buf := Opened(cfg.ks, a, s.rc4.dec, select, padD, payload);
    var t := s.(buf := buf, rc4 := s.rc4.(dec := d), cryptoSelect := Val(select), padDLen := |padD|);
    assert HandleCryptoSelect(cfg, s) == HandlePadD(cfg, t) by {
      OpenedFacts(cfg.ks, a, s.rc4.dec, select, padD, payload);
      SelectStep(cfg, s, buf, Val(select), |padD|);
    }
    HeadFields(select, |padD|);
    PadDStep(cfg, t, a + Head(select, |padD|), padD, payload);
  }

  lemma OfferIsHead(cfg: ClientCfg)
    requires |cfg.hello| == IA_BYTES
    ensures Offer(cfg) == Head([0, 0, 0, if cfg.allowPlain then 3 else 2], 0) + Tail([], cfg.hello)
    ensures |Offer(cfg)| == 84
    ensures Bit(Val([0, 0, 0, if cfg.allowPlain then 3 else 2]), 1)
  {
    var p: seq<Byte> := [0, 0, 0, if cfg.allowPlain then 3 else 2];
    SmallVal(p[3]);
    assert p == [0, 0, 0, p[3]];
    assert Bit(2, 1) && Bit(3, 1);
  }

  lemma SmallVal(b: Byte)
    ensures Val([0, 0, 0, b]) == b
  {
    var p: seq<Byte> := [0, 0, 0, b];
    ZeroVal(p[..3]);
  }

  /** The second flight: the connecting side sends line 3 and goes on looking for VC. */
  lemma SecondFlight(cfg: ClientCfg, c: Client, f2: seq<Byte>, rest: seq<Byte>, secret: seq<Byte>)
    requires |cfg.junk| == KEY_BYTES && |cfg.hello| == IA_BYTES && 96 <= |f2| < 96 + MAX_PAD
    requires c.phase == SentYa && c.buf == [] && c.padDLen == 0
    requires secret == Export(Secret(cfg.xa, Val(f2[..96])), cfg.junk)
    requires NotEarlier(f2 + rest, Crypt(cfg.ks, NewStream(cfg.sha, false, secret, cfg.infoHash), VC), |f2|)
    ensures var enc := NewStream(cfg.sha, true, secret, cfg.infoHash);
            var dec := NewStream(cfg.sha, false, secret, cfg.infoHash);
            ClientReady(cfg, c, f2) ==
            c.(phase := GotYb, buf := f2, secret := secret, rc4 := Cipher(enc.After(84), dec),
               sent := c.sent + Line3(cfg.sha, cfg.ks, secret, cfg.infoHash, Offer(cfg)))
  {
    var enc, dec := NewStream(cfg.sha, true, secret, cfg.infoHash), NewStream(cfg.sha, false, secret, cfg.infoHash);
    var vc := Crypt(cfg.ks, dec, VC);
    OfferIsHead(cfg);
    var t := c.(phase := GotYb, buf := f2, secret := secret, rc4 := Cipher(enc.After(84), dec),
                sent := c.sent + Line3(cfg.sha, cfg.ks, secret, cfg.infoHash, Offer(cfg)));
    assert [] + f2 == f2;
    forall i | 96 <= i < |f2| - 8 ensures !Matches(f2, vc, i) {
      if Matches(f2, vc, i) { MatchesInPrefix(f2, rest, vc, i); }
    }
    if |f2| >= 104 { SearchMisses(f2, vc, 96, |f2| - 8); }
    assert FindVC(cfg, t) == t;
    assert HandleYB(cfg, c.(buf := f2)) == FindVC(cfg, t);
  }

  /** What fits into the buffer of the bytes behind line 4. */
  function Taken(f2: seq<Byte>, n: nat, payload: seq<Byte>): (r: seq<Byte>)
    requires |f2| + 14 + n < MAX_EA_BUF_SIZE
    ensures payload != [] ==> r != []
    ensures r <= payload
  {
    var room := MAX_EA_BUF_SIZE - |f2| - 14 - n;
    if |payload| <= room then payload else payload[..room]
  }

  /** Line 4 begins with the encrypted VC. */
  lemma VcPrefix(ks: Keystream, st: Stream, select: seq<Byte>, padD: seq<Byte>, a: seq<Byte>, z: seq<Byte>)
    requires |select| == 4 && |padD| <= MAX_PAD
    ensures Matches(a + (Crypt(ks, st, Head(select, |padD|) + padD) + z), Crypt(ks, st, VC), |a|)
  {
    var tail := select + Be16(|padD|) + padD;
    assert Head(select, |padD|) + padD == VC + tail;
    CryptConcat(ks, st, VC, tail);
    var vc, d := Crypt(ks, st, VC), Crypt(ks, st.After(8), tail);
    assert a + ((vc + d) + z) == a + vc + (d + z);
    Slice(a, vc, d + z, 0, 8);
    assert vc[0..8] == vc;
  }

  /** The search meets the encrypted VC right behind the padding. */
  lemma FindsVC(cfg: ClientCfg, s: Client, f2: seq<Byte>, e: seq<Byte>, payload: seq<Byte>, n: nat)
    requires |cfg.junk| == KEY_BYTES && 96 <= |f2| < 96 + MAX_PAD && n <= MAX_PAD && |e| == 14 + n && payload != []
    requires s.phase == GotYb && s.buf == f2 && s.padDLen == 0
    requires var vc := Crypt(cfg.ks, NewStream(cfg.sha, false, s.secret, cfg.infoHash), VC);
             var buf := f2 + (e + Taken(f2, n, payload));
             Matches(buf, vc, |f2|) && NotEarlier(buf, vc, |f2|)
    ensures ClientReady(cfg, s, e + payload)
         == HandleCryptoSelect(cfg, s.(buf := f2 + (e + Taken(f2, n, payload)), phase := FoundVc, vcOff := |f2|))
  {
    var vc := Crypt(cfg.ks, NewStream(cfg.sha, false, s.secret, cfg.infoHash), VC);
    var buf := f2 + (e + Taken(f2, n, payload));
    assert Fill(f2, e + payload, MAX_EA_BUF_SIZE) == buf;
    SearchFinds(buf, vc, 96, |f2|, |buf| - 8);
  }

  /** Line 4, whole, and at least one byte of payload: the connecting side leaves the handshake. */
  lemma FourthLine(cfg: ClientCfg, s: Client, f2: seq<Byte>, select: seq<Byte>, padD: seq<Byte>, payload: seq<Byte>)
    requires |cfg.junk| == KEY_BYTES && 96 <= |f2| < 96 + MAX_PAD
    requires |select| == 4 && |padD| <= MAX_PAD && payload != []
    requires s.phase == GotYb && s.buf == f2 && s.rc4.Cipher? && s.padDLen == 0 && s.reinserted == [] && !s.failed
    requires s.sockCipher == NoCipher && s.rc4.dec == NewStream(cfg.sha, false, s.secret, cfg.infoHash)
    requires var f4 := Crypt(cfg.ks, s.rc4.dec, Head(select, |padD|) + padD) + Taken(f2, |padD|, payload);
             NotEarlier(f2 + f4, Crypt(cfg.ks, s.rc4.dec, VC), |f2|)
    ensures var f4 := Crypt(cfg.ks, s.rc4.dec, Head(select, |padD|) + padD) + payload;
            ClientDone(ClientReady(cfg, s, f4), s.rc4.enc, s.rc4.dec, Val(select), |padD|, Taken(f2, |padD|, payload),
                       s.sent)
  {
    var e, z := Crypt(cfg.ks, s.rc4.dec, Head(select, |padD|) + padD), Taken(f2, |padD|, payload);
    var t := s.(buf := f2 + (e + z), phase := FoundVc, vcOff := |f2|);
    var r := ClientReady(cfg, s, e + payload);
    assert r == HandleCryptoSelect(cfg, t) by {
      HeadFields(select, |padD|);
      VcPrefix(cfg.ks, s.rc4.dec, select, padD, f2, z);
      FindsVC(cfg, s, f2, e, payload, |padD|);
    }
    assert ClientDone(HandleCryptoSelect(cfg, t), s.rc4.enc, s.rc4.dec, Val(select), |padD|, z, s.sent) by {
      assert f2 + (e + z) == f2 + e + z;
      CryptoSelectDone(cfg, t, f2, select, padD, z);
    }
  }

  // ---- both ends together ----

  /** A connecting and an accepting object with the same hash and cipher; the accepting side shares the
      torrent, the public values fill their 96 bytes, and the secret is written alike on both sides. */
  ghost predicate Peers(a: ClientCfg, b: ServerCfg) {
    && a.sha == b.sha && a.ks == b.ks
    && |a.junk| == KEY_BYTES && |b.junk| == KEY_BYTES && |a.hello| == IA_BYTES
    && |a.pad| < MAX_PAD && |b.pad| < MAX_PAD
    && b.lookup(Req2(b.sha, a.infoHash)) == Found(a.infoHash)
    && Full(Public(a.xa)) && Full(Public(b.xb))
    && Export(Secret(a.xa, Public(b.xb)), a.junk) == Export(Secret(a.xa, Public(b.xb)), b.junk)
  }

  function Line1(a: ClientCfg): seq<Byte>
    requires |a.junk| == KEY_BYTES
  {
    Export(Public(a.xa), a.junk) + a.pad
  }

  function Line2(b: ServerCfg): seq<Byte>
    requires |b.junk| == KEY_BYTES
  {
    Export(Public(b.xb), b.junk) + b.pad
  }

  ghost function SharedSecret(a: ClientCfg, b: ServerCfg): seq<Byte>
    requires |a.junk| == KEY_BYTES
  {
    Export(Secret(a.xa, Public(b.xb)), a.junk)
  }

  /** Each side computes the shared secret from what it received. */
  lemma PeersShareSecret(a: ClientCfg, b: ServerCfg)
    requires Peers(a, b)
    ensures Export(Secret(b.xb, Val(Line1(a)[..96])), b.junk) == SharedSecret(a, b)
    ensures Export(Secret(a.xa, Val(Line2(b)[..96])), a.junk) == SharedSecret(a, b)
  {
    assert Line1(a)[..96] == Export(Public(a.xa), a.junk);
    assert Line2(b)[..96] == Export(Public(b.xb), b.junk);
    BothPeersAgree(a.xa, b.xb, a.junk, b.junk);
    ExportFull(Public(b.xb), b.junk);
  }

  /** The states of both ends after each of the four flights, `payload` being what the accepting side
      sends behind line 4. */
  datatype Meeting = Meeting(client1: Client, server1: Server, client2: Client, server2: Server, client3: Client)

  ghost function Meet(a: ClientCfg, b: ServerCfg, payload: seq<Byte>): Meeting
    requires |a.junk| == KEY_BYTES && |b.junk| == KEY_BYTES
  {
    var c1 := Connected(a, NewClient());
    var s1 := ServerReady(b, NewServer(), c1.sent);
    var c2 := ClientReady(a, c1, s1.sent);
    var s2 := ServerReady(b, s1, if |c1.sent| <= |c2.sent| then c2.sent[|c1.sent|..] else []);
    var line4 := if |s1.sent| <= |s2.sent| then s2.sent[|s1.sent|..] else [];
    var cipher := if s2.sockCipher.Cipher? then Crypt(b.ks, s2.sockCipher.enc, payload) else payload;
    Meeting(c1, s1, c2, s2, ClientReady(a, c2, line4 + cipher))
  }

  /** The patterns searched for do not occur in the padding before them. */
  ghost predicate NoFalseMatch(a: ClientCfg, b: ServerCfg, payload: seq<Byte>)
    requires Peers(a, b)
  {
    var secret := SharedSecret(a, b);
    var dec := NewStream(a.sha, false, secret, a.infoHash);
    && NotEarlier(Line1(a) + Line3(a.sha, a.ks, secret, a.infoHash, Offer(a)), Req1(b.sha, secret), |Line1(a)|)
    && NotEarlier(Line2(b) + (Crypt(a.ks, dec, Select(2)) + Taken(Line2(b), 0, Crypt(a.ks, dec.After(14), payload))),
                  Crypt(a.ks, dec, VC), |Line2(b)|)
  }

  lemma SelectIsHead()
    ensures Select(2) == Head([0, 0, 0, 2], 0) + []
    ensures Val([0, 0, 0, 2]) == 2
  {
    SmallVal(2);
    assert Be16(0) == [0, 0];
  }

  lemma FirstTwoFlights(a: ClientCfg, b: ServerCfg, payload: seq<Byte>)
    requires Peers(a, b) && NoFalseMatch(a, b, payload)
    ensures var m, secret := Meet(a, b, payload), SharedSecret(a, b);
            var enc, dec := NewStream(a.sha, true, secret, a.infoHash), NewStream(a.sha, false, secret, a.infoHash);
            && m.server1 == NewServer().(phase := WaitingForReq1, buf := Line1(a), secret := secret, sent := Line2(b))
            && m.client2 == NewClient().(phase := GotYb, buf := Line2(b), secret := secret,
                                         rc4 := Cipher(enc.After(84), dec),
                                         sent := Line1(a) + Line3(a.sha, a.ks, secret, a.infoHash, Offer(a)))
            && m.client1.sent == Line1(a)
  {
    var m, secret := Meet(a, b, payload), SharedSecret(a, b);
    var dec := NewStream(a.sha, false, secret, a.infoHash);
    PeersShareSecret(a, b);
    assert [] + Export(Public(a.xa), a.junk) + a.pad == Line1(a);
    FirstFlight(b, Line1(a), Line3(a.sha, a.ks, secret, a.infoHash, Offer(a)), secret);
    SecondFlight(a, m.client1, Line2(b),
                 Crypt(a.ks, dec, Select(2)) + Taken(Line2(b), 0, Crypt(a.ks, dec.After(14), payload)), secret);
  }

  /** The third flight arrives: the accepting side has chosen RC4. */
  lemma ThirdFlight(a: ClientCfg, b: ServerCfg, payload: seq<Byte>)
    requires Peers(a, b) && NoFalseMatch(a, b, payload)
    ensures var m, secret := Meet(a, b, payload), SharedSecret(a, b);
            var enc, dec := NewStream(a.sha, true, secret, a.infoHash), NewStream(a.sha, false, secret, a.infoHash);
            && !m.server2.failed && m.server2.phase == NonEncrypted
            && m.server2.sockCipher == Cipher(dec.After(14), enc.After(16))
            && m.server2.reinserted == Crypt(a.ks, enc.After(16), a.hello)
            && m.server2.sent == Line2(b) + Crypt(a.ks, dec, Select(2))
  {
    var m, secret := Meet(a, b, payload), SharedSecret(a, b);
    FirstTwoFlights(a, b, payload);
    OfferIsHead(a);
    var provide: seq<Byte> := [0, 0, 0, if a.allowPlain then 3 else 2];
    var f3 := Line3(a.sha, a.ks, secret, a.infoHash, Offer(a));
    assert (Line1(a) + f3)[|Line1(a)|..] == f3;
    ThirdLine(b, m.server1, Line1(a), a.infoHash, provide, [], a.hello);
  }

  lemma TakenDecrypts(ks: Keystream, st: Stream, f2: seq<Byte>, payload: seq<Byte>)
    requires |f2| + 14 < MAX_EA_BUF_SIZE
    ensures var z := Taken(f2, 0, Crypt(ks, st, payload));
            |z| <= |payload| && Crypt(ks, st, z) == payload[..|z|]
  {
    var z := Taken(f2, 0, Crypt(ks, st, payload));
    var x, y := payload[..|z|], payload[|z|..];
    assert x + y == payload;
    CryptConcat(ks, st, x, y);
    assert z == Crypt(ks, st, x);
    CryptTwice(ks, st, x);
  }

  /** The fourth flight arrives: the connecting side follows the choice. */
  lemma FourthFlight(a: ClientCfg, b: ServerCfg, payload: seq<Byte>)
    requires Peers(a, b) && payload != [] && NoFalseMatch(a, b, payload)
    ensures var c, secret := Meet(a, b, payload).client3, SharedSecret(a, b);
            var enc, dec := NewStream(a.sha, true, secret, a.infoHash), NewStream(a.sha, false, secret, a.infoHash);
            && !c.failed && c.phase == NormalHandshake
            && c.sockCipher == Cipher(enc.After(84), dec.After(14))
            && c.reinserted == Taken(Line2(b), 0, Crypt(a.ks, dec.After(14), payload))
  {
    var m, secret := Meet(a, b, payload), SharedSecret(a, b);
    var dec := NewStream(a.sha, false, secret, a.infoHash);
    FirstTwoFlights(a, b, payload);
    ThirdFlight(a, b, payload);
    var f4, p := Crypt(a.ks, dec, Select(2)), Crypt(a.ks, dec.After(14), payload);
    assert (Line2(b) + f4)[|Line2(b)|..] == f4;
    SelectIsHead();
    FourthLine(a, m.client2, Line2(b), [0, 0, 0, 2], [], p);
    assert !Bit(2, 0) && Bit(2, 1);
  }

  /** Each direction's stream stands at the same position at both ends, once the bytes handed on still
      encrypted are counted; and those bytes decrypt to what the peer meant. */
  ghost predicate Aligned(s: Server, c: Client, ks: Keystream, hello: seq<Byte>, payload: seq<Byte>) {
    && !s.failed && !c.failed && s.phase == NonEncrypted && c.phase == NormalHandshake
    && s.sockCipher.Cipher? && c.sockCipher.Cipher?
    && c.sockCipher.enc == s.sockCipher.dec.After(|s.reinserted|)
    && s.sockCipher.enc == c.sockCipher.dec
    && Crypt(ks, s.sockCipher.dec, s.reinserted) == hello
    && 0 < |c.reinserted| <= |payload|
    && Crypt(ks, c.sockCipher.dec, c.reinserted) == payload[..|c.reinserted|]
  }

  lemma AlignedEnds(s: Server, c: Client, ks: Keystream, enc: Stream, dec: Stream, hello: seq<Byte>, f2: seq<Byte>,
                    payload: seq<Byte>)
    requires |hello| == IA_BYTES && payload != [] && |f2| + 14 < MAX_EA_BUF_SIZE
    requires !s.failed && s.phase == NonEncrypted
    requires s.sockCipher == Cipher(dec.After(14), enc.After(16)) && s.reinserted == Crypt(ks, enc.After(16), hello)
    requires !c.failed && c.phase == NormalHandshake && c.sockCipher == Cipher(enc.After(84), dec.After(14))
    requires c.reinserted == Taken(f2, 0, Crypt(ks, dec.After(14), payload))
    ensures Aligned(s, c, ks, hello, payload)
  {
    CryptTwice(ks, enc.After(16), hello);
    TakenDecrypts(ks, dec.After(14), f2, payload);
  }

  /** The two objects, talking to each other, leave the handshake aligned. */
  lemma HandshakeAligned(a: ClientCfg, b: ServerCfg, payload: seq<Byte>)
    requires Peers(a, b) && payload != [] && NoFalseMatch(a, b, payload)
    ensures Aligned(Meet(a, b, payload).server2, Meet(a, b, payload).client3, a.ks, a.hello, payload)
  {
    var secret := SharedSecret(a, b);
    var enc, dec := NewStream(a.sha, true, secret, a.infoHash), NewStream(a.sha, false, secret, a.infoHash);
    ThirdFlight(a, b, payload);
    FourthFlight(a, b, payload);
    AlignedEnds(Meet(a, b, payload).server2, Meet(a, b, payload).client3, a.ks, enc, dec, a.hello, Line2(b), payload);
  }

  /** There are such meetings, for every hash, cipher, torrent and hello: exponent 760 gives a public value that
      fills its buffer, and without padding there is nothing to mislead a search. */
  lemma MeetingsExist(sha: Hash, ks: Keystream, infoHash: Key, hello: seq<Byte>, junk: seq<Byte>, payload: seq<Byte>)
    returns (a: ClientCfg, b: ServerCfg)
    requires |hello| == IA_BYTES && |junk| == KEY_BYTES
    ensures a.sha == sha && a.ks == ks && a.infoHash == infoHash && a.hello == hello
    ensures Peers(a, b) && NoFalseMatch(a, b, payload)
  {
    a := ClientCfg(sha, ks, 760, junk, [], infoHash, hello, true);
    b := ServerCfg(sha, ks, 760, junk, [], _ => Found(infoHash), true);
    FirstFullExponent();
  }
}
