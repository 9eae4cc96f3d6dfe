/** What the accepting side can rely on, whatever a peer sends and in whatever pieces. */
module AcceptingSafety {
  import opened Bytes
  import opened Keys
  import opened DiffieHellman
  import opened Handshake
  import opened Pieces
  import opened AcceptingRuns

  /** The secret is that of the public value at the front. */
  predicate SecretOf(cfg: ServerCfg, front: seq<Byte>, secret: seq<Byte>) {
    |cfg.junk| == KEY_BYTES && |front| >= 96 && secret == Export(Secret(cfg.xb, Val(front[..96])), cfg.junk)
  }

  /** Behind it, at `off`, stands HASH('req1', S). */
  predicate Named(cfg: ServerCfg, front: seq<Byte>, off: nat, secret: seq<Byte>) {
    && SecretOf(cfg, front, secret) && 96 <= off && off + 20 <= |front|
    && front[off..off + 20] == Req1(cfg.sha, secret)
  }

  /** Behind that stands the masked hash of a torrent of ours. */
  predicate Known(cfg: ServerCfg, front: seq<Byte>, off: nat, secret: seq<Byte>, infoHash: Key) {
    && Named(cfg, front, off, secret) && off + 40 == |front|
    && cfg.lookup(Distance(front[off + 20..off + 40], Req3(cfg.sha, secret))) == Found(infoHash)
  }

  /** The streams are those of the secret and the torrent. */
  predicate KeyedBy(cfg: ServerCfg, c: Cipher, secret: seq<Byte>, infoHash: Key) {
    c.Cipher? ==>
      && c.enc.key == NewStream(cfg.sha, false, secret, infoHash).key
      && c.dec.key == NewStream(cfg.sha, true, secret, infoHash).key
  }

  /** All of it, at the front of `all` that has come. */
  predicate Proven(cfg: ServerCfg, s: Server, all: seq<Byte>) {
    && s.req1Off + 40 <= |s.buf| && s.buf[..s.req1Off + 40] <= all
    && Known(cfg, s.buf[..s.req1Off + 40], s.req1Off, s.secret, s.infoHash)
    && KeyedBy(cfg, s.rc4, s.secret, s.infoHash) && KeyedBy(cfg, s.sockCipher, s.secret, s.infoHash)
  }

  predicate Filled(buf: seq<Byte>, all: seq<Byte>, max: nat) {
    buf <= all && |buf| <= max && (buf == all || |buf| == max)
  }

  /** The buffer holds all that has come, or as much as it can. */
  predicate Holds(s: Server, all: seq<Byte>) {
    Filled(s.buf, all, MAX_SEA_BUF_SIZE) && s.rc4.NoCipher? && s.sockCipher.NoCipher?
  }

  predicate Fine(cfg: ServerCfg, s: Server, all: seq<Byte>) {
    match s.phase
    case WaitingForYa => Holds(s, all)
    case WaitingForReq1 => Holds(s, all) && SecretOf(cfg, s.buf, s.secret)
    case FoundReq1 => Holds(s, all) && Named(cfg, s.buf, s.req1Off, s.secret)
    case FoundInfoHash => Proven(cfg, s, all) && s.sockCipher.NoCipher?
    case WaitForPadC => Under(cfg, s, all)
    case WaitForIa => Under(cfg, s, all)
    case NonEncrypted => if s.sockCipher.Cipher? then Proven(cfg, s, all) else cfg.allowPlain
  }

  predicate Safe(cfg: ServerCfg, s: Server, all: seq<Byte>) { s.failed || Fine(cfg, s, all) }

  /** Behind the hashes, with an encryptor made. */
  predicate Under(cfg: ServerCfg, s: Server, all: seq<Byte>) {
    s.phase in {FoundInfoHash, WaitForPadC, WaitForIa} && Proven(cfg, s, all) && s.rc4.Cipher? && s.sockCipher.NoCipher?
  }

  lemma DecryptKeeps(ks: Keystream, buf: seq<Byte>, dec: Stream, from: nat, len: nat, n: nat)
    requires n <= from && from + len <= |buf|
    ensures DecryptAt(ks, buf, dec, from, len)[..n] == buf[..n]
  {
  }

  lemma DecryptedUnder(cfg: ServerCfg, s: Server, all: seq<Byte>, from: nat, len: nat, d: Server)
    requires Under(cfg, s, all) && s.req1Off + 40 <= from && from + len <= |s.buf| && d == Decrypted(cfg, s, from, len)
    ensures Under(cfg, d, all)
  {
    DecryptKeeps(cfg.ks, s.buf, s.rc4.dec, from, len, s.req1Off + 40);
  }

  lemma IaSafe(cfg: ServerCfg, s: Server, all: seq<Byte>)
    requires Under(cfg, s, all)
    ensures Safe(cfg, HandleIA(cfg, s), all)
  {
  }

  lemma LengthSafe(cfg: ServerCfg, s: Server, all: seq<Byte>, r: Server)
    requires Under(cfg, s, all) && s.req1Off + 56 + s.padCLen <= |s.buf| && r == ReadIaLength(cfg, s)
    ensures Safe(cfg, r, all)
  {
    var ia := Val(s.buf[s.req1Off + 54 + s.padCLen..s.req1Off + 54 + s.padCLen + 2]);
    var t := s.(iaLen := ia);
    if |s.buf| < s.req1Off + 54 + ia {
      assert r == t.(phase := WaitForIa);
    } else {
      IaSafe(cfg, t, all);
      assert r == HandleIA(cfg, t);
    }
  }

  lemma PadSafe(cfg: ServerCfg, s: Server, all: seq<Byte>)
    requires Under(cfg, s, all)
    ensures Safe(cfg, HandlePadC(cfg, s), all)
  {
    if |s.buf| >= s.req1Off + 54 + s.padCLen + 2 {
      var d := Decrypted(cfg, s, s.req1Off + 54, s.padCLen + 2);
      DecryptedUnder(cfg, s, all, s.req1Off + 54, s.padCLen + 2, d);
      var r := HandlePadC(cfg, s);
      assert r == ReadIaLength(cfg, d);
      LengthSafe(cfg, d, all, r);
    }
  }

  lemma AwaitSafe(cfg: ServerCfg, s: Server, all: seq<Byte>)
    requires Under(cfg, s, all)
    ensures Safe(cfg, AwaitPadC(cfg, s), all)
  {
    if |s.buf| >= s.req1Off + 14 + s.padCLen {
      PadSafe(cfg, s, all);
      assert AwaitPadC(cfg, s) == HandlePadC(cfg, s);
    }
  }

  lemma AnsweredSafe(cfg: ServerCfg, s: Server, all: seq<Byte>, crypto: nat, pad: nat, u: Server)
    requires Under(cfg, s, all) && u == Answer(cfg, s, crypto, pad)
    ensures Under(cfg, u, all)
  {
  }

  lemma VcSafe(cfg: ServerCfg, s: Server, all: seq<Byte>, o: Opening)
    requires Under(cfg, s, all) && s.req1Off + 54 <= |s.buf| && o == OpeningAt(s.buf, s.req1Off + 40)
    ensures Safe(cfg, ReadVC(cfg, s), all)
  {
    if o.vc && o.pad <= MAX_PAD {
      var u := Answer(cfg, s, o.crypto, o.pad);
      AnsweredSafe(cfg, s, all, o.crypto, o.pad, u);
      AwaitSafe(cfg, u, all);
      assert ReadVC(cfg, s) == AwaitPadC(cfg, u);
    } else {
      assert ReadVC(cfg, s).failed;
    }
  }

  lemma CiphersUnder(cfg: ServerCfg, s: Server, all: seq<Byte>, t: Server)
    requires s.phase == FoundInfoHash && Fine(cfg, s, all) && t == WithCiphers(cfg, s)
    ensures Under(cfg, t, all)
  {
  }

  lemma OpenedUnder(cfg: ServerCfg, s: Server, all: seq<Byte>, t: Server, d: Server)
    requires s.phase == FoundInfoHash && Fine(cfg, s, all) && t == WithCiphers(cfg, s)
    requires t.req1Off + 54 <= |t.buf| && d == Decrypted(cfg, t, t.req1Off + 40, 14)
    ensures Under(cfg, d, all)
  {
    CiphersUnder(cfg, s, all, t);
    DecryptedUnder(cfg, t, all, t.req1Off + 40, 14, d);
  }

  lemma OpenSafe(cfg: ServerCfg, s: Server, all: seq<Byte>, t: Server, d: Server)
    requires s.phase == FoundInfoHash && Fine(cfg, s, all) && t == WithCiphers(cfg, s)
    requires t.req1Off + 54 <= |t.buf| && d == Decrypted(cfg, t, t.req1Off + 40, 14)
    ensures d.rc4.Cipher? && d.req1Off + 54 <= |d.buf| && Safe(cfg, ReadVC(cfg, d), all)
  {
    OpenedUnder(cfg, s, all, t, d);
    VcSafe(cfg, d, all, OpeningAt(d.buf, d.req1Off + 40));
  }

  lemma HashSafe(cfg: ServerCfg, s: Server, all: seq<Byte>, r: Server)
    requires s.phase == FoundInfoHash && Fine(cfg, s, all) && r == ProcessVC(cfg, s)
    ensures Safe(cfg, r, all)
  {
    var t := WithCiphers(cfg, s);
    if |t.buf| < t.req1Off + 54 {
      CiphersUnder(cfg, s, all, t);
      assert r == t;
    } else {
      var d := Decrypted(cfg, t, t.req1Off + 40, 14);
      OpenSafe(cfg, s, all, t, d);
      assert r == ReadVC(cfg, d);
    }
  }

  lemma FoundFine(cfg: ServerCfg, s: Server, all: seq<Byte>, infoHash: Key, t: Server)
    requires s.phase == FoundReq1 && Fine(cfg, s, all) && s.req1Off + 40 <= |s.buf|
    requires cfg.lookup(Distance(s.buf[s.req1Off + 20..s.req1Off + 40], Req3(cfg.sha, s.secret))) == Found(infoHash)
    requires t == s.(infoHash := infoHash, phase := FoundInfoHash)
    ensures Fine(cfg, t, all)
  {
    var front := s.buf[..s.req1Off + 40];
    assert front[s.req1Off + 20..s.req1Off + 40] == s.buf[s.req1Off + 20..s.req1Off + 40];
    assert front[s.req1Off..s.req1Off + 20] == s.buf[s.req1Off..s.req1Off + 20] && front[..96] == s.buf[..96];
    assert Known(cfg, front, s.req1Off, s.secret, infoHash);
  }

  lemma LookedUpSafe(cfg: ServerCfg, s: Server, all: seq<Byte>, l: Lookup)
    requires s.phase == FoundReq1 && Fine(cfg, s, all) && s.req1Off + 40 <= |s.buf|
    requires l == cfg.lookup(Distance(s.buf[s.req1Off + 20..s.req1Off + 40], Req3(cfg.sha, s.secret)))
    ensures Safe(cfg, LookedUp(cfg, s, l), all)
  {
    if l.Found? {
      var t := s.(infoHash := l.infoHash, phase := FoundInfoHash);
      FoundFine(cfg, s, all, l.infoHash, t);
      assert LookedUp(cfg, s, l) == ProcessVC(cfg, t);
      HashSafe(cfg, t, all, ProcessVC(cfg, t));
    }
  }

  lemma KeySafe(cfg: ServerCfg, s: Server, all: seq<Byte>)
    requires s.phase == FoundReq1 && Fine(cfg, s, all)
    ensures Safe(cfg, CalculateSKey(cfg, s), all)
  {
    if s.req1Off + 40 <= |s.buf| {
      var l := cfg.lookup(Distance(s.buf[s.req1Off + 20..s.req1Off + 40], Req3(cfg.sha, s.secret)));
      LookedUpSafe(cfg, s, all, l);
      assert CalculateSKey(cfg, s) == LookedUp(cfg, s, l);
    }
  }

  lemma {:induction false} SearchMatches(buf: seq<Byte>, pat: seq<Byte>, i: nat, end: nat)
    ensures Search(buf, pat, i, end) >= i
    ensures Search(buf, pat, i, end) < end ==> Matches(buf, pat, Search(buf, pat, i, end))
    decreases end - i
  {
    if i < end && !Matches(buf, pat, i) { SearchMatches(buf, pat, i + 1, end); }
  }

  lemma SearchedSafe(cfg: ServerCfg, s: Server, all: seq<Byte>, i: nat)
    requires s.phase == WaitingForReq1 && Fine(cfg, s, all) && i >= 96
    requires i < |s.buf| - HASH_BYTES ==> Matches(s.buf, Req1(cfg.sha, s.secret), i)
    ensures Safe(cfg, Req1Searched(cfg, s, i), all)
  {
    if i < |s.buf| - HASH_BYTES {
      var t := s.(phase := FoundReq1, req1Off := i);
      KeySafe(cfg, t, all);
      assert Req1Searched(cfg, s, i) == CalculateSKey(cfg, t);
    }
  }

  lemma SearchSafe(cfg: ServerCfg, s: Server, all: seq<Byte>)
    requires s.phase == WaitingForReq1 && Fine(cfg, s, all)
    ensures Safe(cfg, FindReq1(cfg, s), all)
  {
    if |s.buf| >= 116 {
      var i := Search(s.buf, Req1(cfg.sha, s.secret), 96, |s.buf| - HASH_BYTES);
      SearchMatches(s.buf, Req1(cfg.sha, s.secret), 96, |s.buf| - HASH_BYTES);
      SearchedSafe(cfg, s, all, i);
      assert FindReq1(cfg, s) == Req1Searched(cfg, s, i);
    }
  }

  lemma FirstSafe(cfg: ServerCfg, s: Server, all: seq<Byte>)
    requires |cfg.junk| == KEY_BYTES && s.phase == WaitingForYa && Fine(cfg, s, all) && |s.buf| >= 96
    ensures Safe(cfg, HandleYA(cfg, s), all)
  {
    var t := s.(sent := s.sent + Export(Public(cfg.xb), cfg.junk) + cfg.pad,
                secret := Export(Secret(cfg.xb, Val(s.buf[..96])), cfg.junk), phase := WaitingForReq1);
    SearchSafe(cfg, t, all);
    assert HandleYA(cfg, s) == FindReq1(cfg, t);
  }

  lemma FillsUp(buf: seq<Byte>, all: seq<Byte>, avail: seq<Byte>, max: nat)
    ensures buf <= Fill(buf, avail, max)
    ensures Filled(buf, all, max) ==> Filled(Fill(buf, avail, max), all + avail, max)
  {
    if |buf| + |avail| > max && |buf| <= max { assert avail[..max - |buf|] <= avail; }
  }

  lemma SlicesStay(buf: seq<Byte>, more: seq<Byte>, i: nat, j: nat)
    requires buf <= more && i <= j <= |buf|
    ensures more[i..j] == buf[i..j] && more[..j] == buf[..j]
  {
  }

  lemma ProvenStays(cfg: ServerCfg, s: Server, all: seq<Byte>, avail: seq<Byte>, t: Server)
    requires Proven(cfg, s, all) && s.buf <= t.buf && t == s.(buf := t.buf)
    ensures Proven(cfg, t, all + avail)
  {
    SlicesStay(s.buf, t.buf, 0, s.req1Off + 40);
    assert all <= all + avail;
  }

  /** Bytes added behind take nothing away. */
  lemma FilledFine(cfg: ServerCfg, s: Server, all: seq<Byte>, avail: seq<Byte>, t: Server)
    requires Fine(cfg, s, all) && t == s.(buf := Fill(s.buf, avail, MAX_SEA_BUF_SIZE))
    ensures Fine(cfg, t, all + avail)
  {
    FillsUp(s.buf, all, avail, MAX_SEA_BUF_SIZE);
    if s.phase in {WaitingForYa, WaitingForReq1, FoundReq1} {
      if |s.buf| >= 96 { SlicesStay(s.buf, t.buf, 0, 96); }
      if s.req1Off + 20 <= |s.buf| { SlicesStay(s.buf, t.buf, s.req1Off, s.req1Off + 20); }
    } else if s.phase != NonEncrypted || s.sockCipher.Cipher? {
      ProvenStays(cfg, s, all, avail, t);
    }
  }

  lemma TurnSafe(cfg: ServerCfg, s: Server, all: seq<Byte>)
    requires |cfg.junk| == KEY_BYTES && Fine(cfg, s, all)
    ensures Safe(cfg, ServerTurn(cfg, s), all)
  {
    match s.phase
    case WaitingForYa => if |s.buf| >= 96 { FirstSafe(cfg, s, all); }
    case WaitingForReq1 => SearchSafe(cfg, s, all);
    case FoundReq1 => KeySafe(cfg, s, all);
    case FoundInfoHash => HashSafe(cfg, s, all, ProcessVC(cfg, s));
    case WaitForPadC => PadSafe(cfg, s, all);
    case WaitForIa => IaSafe(cfg, s, all);
    case NonEncrypted =>
  }

  lemma ReadySafe(cfg: ServerCfg, s: Server, all: seq<Byte>, avail: seq<Byte>)
    requires |cfg.junk| == KEY_BYTES && Fine(cfg, s, all)
    ensures Safe(cfg, ServerReady(cfg, s, avail), all + avail)
  {
    var t := s.(buf := Fill(s.buf, avail, MAX_SEA_BUF_SIZE));
    FilledFine(cfg, s, all, avail, t);
    if avail == [] {
      assert ServerReady(cfg, s, avail).failed;
    } else if s.phase == NonEncrypted {
      assert ServerReady(cfg, s, avail) == s;
      if s.sockCipher.Cipher? { ProvenStays(cfg, s, all, avail, s); }
    } else if LooksPlain(cfg, s, avail) {
      assert ServerReady(cfg, s, avail) == s.(phase := NonEncrypted);
    } else {
      TurnSafe(cfg, t, all + avail);
      assert ServerReady(cfg, s, avail) == ServerTurn(cfg, t);
    }
  }

  lemma {:induction false} RunSafe(cfg: ServerCfg, s: Server, all: seq<Byte>, pieces: seq<seq<Byte>>)
    requires |cfg.junk| == KEY_BYTES && Safe(cfg, s, all)
    ensures Safe(cfg, ServerRun(cfg, s, pieces), all + Joined(pieces))
    decreases |pieces|
  {
    if pieces == [] || s.failed {
      assert all + Joined([]) == all;
    } else {
      ReadySafe(cfg, s, all, pieces[0]);
      RunSafe(cfg, ServerReady(cfg, s, pieces[0]), all + pieces[0], pieces[1..]);
      assert all + pieces[0] + Joined(pieces[1..]) == all + Joined(pieces);
    }
  }

  /** Whatever bytes come and however they are cut: an accepting side that has left the handshake without failing
      either is allowed to go on in plain text and does so, or has a cipher, and then the bytes that came begin by
      showing that the peer knows the secret of its own public value and a torrent of ours, and the cipher is keyed by
      these two. */
  lemma AcceptedIsProven(cfg: ServerCfg, pieces: seq<seq<Byte>>)
    requires |cfg.junk| == KEY_BYTES
    ensures var t := ServerRun(cfg, NewServer(), pieces);
            !t.failed && t.phase == NonEncrypted ==>
              if t.sockCipher.Cipher? then Proven(cfg, t, Joined(pieces)) else cfg.allowPlain
  {
    RunSafe(cfg, NewServer(), [], pieces);
    assert [] + Joined(pieces) == Joined(pieces);
  }
}
