/** The two handshake objects, with their byte buffers and RC4 encryptors updated in place, proved to take the
    steps of `Handshake`. */
module HandshakeClasses {
  import opened Bytes
  import opened Keys
  import opened DiffieHellman
  import opened Handshake
  import R = Rc4

  /** RC4 seen as the byte each key yields at each position. */
  function Rc4Keystream(): Keystream {
    (key: Key, n: nat) => R.KeyByte(R.After(R.Fresh(key), n))
  }

  /** An encryptor that has used `pos` bytes of its stream does what the handshake model says. */
  lemma Rc4IsKeystream(st: R.State, key: Key, pos: nat, data: seq<Byte>)
    requires R.StandsAt(st, key, pos)
    ensures Crypt(Rc4Keystream(), Stream(key, pos), data) == R.Crypt(st, data)
  {
    var a, b := Crypt(Rc4Keystream(), Stream(key, pos), data), R.Crypt(st, data);
    forall i: nat | i < |data| ensures a[i] == b[i] {
      Rc4ByteIs(st, key, pos, data, i);
      CryptByteIs(Rc4Keystream(), key, pos, data, i);
    }
  }

  lemma CryptByteIs(ks: Keystream, key: Key, pos: nat, data: seq<Byte>, i: nat)
    requires i < |data|
    ensures Crypt(ks, Stream(key, pos), data)[i] == Xor(ks(key, pos + i), data[i])
  {
  }

  lemma Rc4ByteIs(st: R.State, key: Key, pos: nat, data: seq<Byte>, i: nat)
    requires R.StandsAt(st, key, pos) && i < |data|
    ensures R.Crypt(st, data)[i] == Xor(Rc4Keystream()(key, pos + i), data[i])
  {
    R.CryptAt(st, data, i);
    R.AfterAdd(R.Fresh(key), pos, i);
  }

  // ---- the encryptor ----

  /** Where an encryptor stands. */
  ghost function EncOf(c: R.RC4Encryptor): Stream
    reads c
  {
    Stream(c.encKey, c.encPos)
  }

  ghost function DecOf(c: R.RC4Encryptor): Stream
    reads c
  {
    Stream(c.decKey, c.decPos)
  }

  ghost function CipherOf(c: R.RC4Encryptor?): Cipher
    reads c
  {
    if c == null then NoCipher else Cipher(EncOf(c), DecOf(c))
  }

  ghost function ReprOf(c: R.RC4Encryptor?): set<object> {
    if c == null then {} else {c, c.enc, c.enc.s, c.dec, c.dec.s}
  }

  /** In order, and apart from the buffer. */
  ghost predicate Sound(c: R.RC4Encryptor?, buf: array<Byte>)
    reads ReprOf(c)
  {
    c != null ==> c.Valid() && c.enc.s != buf && c.dec.s != buf
  }

  /** `our_rc4->decrypt(buf + from,len)`. */
  method DecryptIn(c: R.RC4Encryptor, buf: array<Byte>, size: nat, from: nat, len: nat)
    requires Sound(c, buf) && from + len <= size <= buf.Length
    modifies c, c.dec, c.dec.s, buf
    ensures Sound(c, buf) && EncOf(c) == old(EncOf(c)) && DecOf(c) == old(DecOf(c)).After(len)
    ensures buf[..size] == DecryptAt(Rc4Keystream(), old(buf[..size]), old(DecOf(c)), from, len)
  {
    ghost var was := buf[..];
    Rc4IsKeystream(c.dec.St(), c.decKey, c.decPos, buf[from..from + len]);
    c.Decrypt(buf, from, len);
    Replaced(was, buf[..], size, from, len);
  }

  /** A stretch of a buffer was overwritten. */
  lemma Replaced(was: seq<Byte>, b: seq<Byte>, size: nat, from: nat, len: nat)
    requires |b| == |was| && from + len <= size <= |b|
    requires b[..from] == was[..from] && b[from + len..] == was[from + len..]
    ensures was[..size][from..from + len] == was[from..from + len]
    ensures b[..size] == was[..size][..from] + b[from..from + len] + was[..size][from + len..]
  {
    assert b[..size] == b[..from] + b[from..from + len] + b[from + len..][..size - (from + len)];
    assert was[..size][from + len..] == was[from + len..][..size - (from + len)];
  }

  /** `our_rc4->encrypt(tmp,len)` of bytes in a buffer of their own. */
  method EncryptOut(c: R.RC4Encryptor, data: seq<Byte>, ghost buf: array<Byte>) returns (out: seq<Byte>)
    requires Sound(c, buf)
    modifies c, c.enc, c.enc.s
    ensures Sound(c, buf) && EncOf(c) == old(EncOf(c)).After(|data|) && DecOf(c) == old(DecOf(c))
    ensures out == Crypt(Rc4Keystream(), old(EncOf(c)), data)
  {
    Rc4IsKeystream(c.enc.St(), c.encKey, c.encPos, data);
    var tmp := new Byte[|data|](i requires 0 <= i < |data| => data[i]);
    assert tmp[..|data|] == data;
    var enc := c.Encrypt(tmp, |data|);
    out := enc[..];
  }

  // ---- the buffer ----

  lemma SplitAt(buf: array<Byte>, m: nat, n: nat)
    requires m <= n <= buf.Length
    ensures buf[..n] == buf[..m] + buf[m..n]
  {
  }

  /** `sock->readData(buf + size,ba)` of what is available and fits below `max`. */
  method ReadInto(buf: array<Byte>, size: nat, avail: seq<Byte>, max: nat) returns (n: nat)
    requires size <= buf.Length && max <= buf.Length
    modifies buf
    ensures size <= n <= buf.Length && buf[..n] == Fill(old(buf[..size]), avail, max)
  {
    var ba := |avail|;
    if size + ba > max { ba := if size <= max then max - size else 0; }
    for k := 0 to ba
      invariant buf[..size] == old(buf[..size]) && buf[size..size + k] == avail[..k]
    {
      buf[size + k] := avail[k];
      assert buf[size..size + k + 1] == buf[size..size + k] + [avail[k]];
    }
    n := size + ba;
    SplitAt(buf, size, n);
    assert avail[..|avail|] == avail;
  }

  lemma Within(buf: array<Byte>, size: nat, m: nat, n: nat)
    requires m <= n <= size <= buf.Length
    ensures buf[..size][m..n] == buf[m..n]
  {
  }

  /** `ReadUint16` and `ReadUint32`. */
  method ReadUint(buf: array<Byte>, from: nat, len: nat) returns (v: nat)
    requires from + len <= buf.Length
    ensures v == Val(buf[from..from + len])
  {
    v := 0;
    for k := 0 to len
      invariant v == Val(buf[from..from + k])
    {
      assert buf[from..from + k + 1][..k] == buf[from..from + k];
      v := v * 256 + buf[from + k];
    }
  }

  /** The loops that look for a byte other than 0 in VC. */
  method IsVC(buf: array<Byte>, from: nat) returns (ok: bool)
    requires from + VC_BYTES <= buf.Length
    ensures ok <==> buf[from..from + VC_BYTES] == VC
  {
    for k := 0 to VC_BYTES
      invariant forall j :: from <= j < from + k ==> buf[j] == 0
    {
      if buf[from + k] != 0 {
        assert buf[from..from + VC_BYTES][k] != VC[k];
        return false;
      }
    }
    ok := true;
  }

  /** The 14 bytes that open lines 3 and 4, once decrypted. */
  method ReadOpening(buf: array<Byte>, size: nat, off: nat) returns (o: Opening)
    requires off + 14 <= size <= buf.Length
    ensures o == OpeningAt(buf[..size], off)
  {
    Within(buf, size, off, off + VC_BYTES);
    Within(buf, size, off + 8, off + 12);
    Within(buf, size, off + 12, off + 14);
    var vc := IsVC(buf, off);
    var crypto := ReadUint(buf, off + 8, 4);
    var pad := ReadUint(buf, off + 12, 2);
    o := Opening(vc, crypto, pad);
  }

  /** The search loops: the first byte is compared before the rest. */
  method FindPattern(buf: array<Byte>, size: nat, pat: seq<Byte>, from: nat, end: nat) returns (i: nat)
    requires end + |pat| <= size <= buf.Length && pat != []
    ensures i == Search(buf[..size], pat, from, end)
  {
    i := from;
    while i < end
      invariant Search(buf[..size], pat, i, end) == Search(buf[..size], pat, from, end)
      decreases end - i
    {
      assert buf[..size][i..i + |pat|] == buf[i..i + |pat|];
      if buf[i] == pat[0] {
        if buf[i..i + |pat|] == pat { return; }
      } else {
        assert buf[i..i + |pat|][0] != pat[0];
      }
      i := i + 1;
    }
  }

  // ---- the accepting side ----

  lemma OpenedThenVC(cfg: ServerCfg, s: Server, t: Server, from: nat)
    requires from == s.req1Off + 40 && from + 14 <= |s.buf| && t == WithCiphers(cfg, s)
    ensures t.rc4.Cipher? && |t.buf| == |s.buf|
    ensures ProcessVC(cfg, s) == ReadVC(cfg, Decrypted(cfg, t, from, 14))
  {
    assert ProcessVC(cfg, s) == OpenVC(cfg, t);
  }

  lemma AnsweredThenPadC(cfg: ServerCfg, s: Server, t: Server)
    requires s.rc4.Cipher? && s.req1Off + 54 <= |s.buf|
    requires var o := OpeningAt(s.buf, s.req1Off + 40);
             o.vc && o.pad <= MAX_PAD && t == Answer(cfg, s.(padCLen := o.pad), o.crypto, o.pad)
    ensures ReadVC(cfg, s) == AwaitPadC(cfg, t)
  {
  }

  lemma PadCThenIa(cfg: ServerCfg, s: Server, from: nat, len: nat)
    requires from == s.req1Off + 54 && len == s.padCLen + 2 && from + len <= |s.buf| && s.rc4.Cipher?
    ensures HandlePadC(cfg, s) == ReadIaLength(cfg, Decrypted(cfg, s, from, len))
  {
  }

  lemma LengthThenIa(cfg: ServerCfg, s: Server, t: Server)
    requires s.req1Off + 56 + s.padCLen <= |s.buf| && s.req1Off + 54 + t.iaLen <= |s.buf|
    requires var off := s.req1Off + 54;
             t == s.(iaLen := Val(s.buf[off + s.padCLen..off + s.padCLen + 2]))
    ensures ReadIaLength(cfg, s) == HandleIA(cfg, t)
  {
  }

  lemma IaThenHandOver(cfg: ServerCfg, s: Server, t: Server)
    requires s.req1Off + 56 + s.padCLen + s.iaLen <= |s.buf|
    requires t == if s.iaLen > 0 then s.(reinserted := s.reinserted + s.buf[s.req1Off + 56 + s.padCLen..]) else s
    ensures HandleIA(cfg, s) == HandOver(cfg, t)
  {
  }

  lemma SearchesReq1(cfg: ServerCfg, s: Server, req1: Key, end: nat)
    requires |s.buf| >= 116 && end == |s.buf| - HASH_BYTES && req1 == Req1(cfg.sha, s.secret)
    ensures FindReq1(cfg, s) == Req1Searched(cfg, s, Search(s.buf, req1, 96, end))
  {
  }

  class EncryptedServerAuthenticate {
    const cfg: ServerCfg
    const buf: array<Byte>
    var bufSize: nat
    var phase: ServerPhase
    var secret: seq<Byte>
    var req1Off: nat
    var infoHash: Key
    var ourRc4: R.RC4Encryptor?
    var cryptoSelect: nat
    var padCLen: nat
    var iaLen: nat
    var failed: bool
    // what the socket was given: bytes to send, bytes to read again, an encryptor (and where it stood)
    var sent: seq<Byte>
    var reinserted: seq<Byte>
    var sockRc4: R.RC4Encryptor?
    ghost var sockCipher: Cipher

    ghost predicate Valid()
      reads this, ReprOf(ourRc4)
    {
      && buf.Length == MAX_SEA_BUF_SIZE && bufSize <= MAX_SEA_BUF_SIZE
      && cfg.ks == Rc4Keystream() && Sound(ourRc4, buf)
    }

    ghost function State(): Server
      requires Valid()
      reads this, buf, ReprOf(ourRc4)
    {
      Server(phase, buf[..bufSize], secret, req1Off, infoHash, CipherOf(ourRc4), cryptoSelect, padCLen, iaLen, failed,
             sent, sockCipher, reinserted)
    }

    constructor (cfg: ServerCfg)
      requires cfg.ks == Rc4Keystream()
      ensures Valid() && this.cfg == cfg && fresh(buf) && ourRc4 == null && State() == NewServer()
    {
      this.cfg := cfg;
      buf, bufSize := new Byte[MAX_SEA_BUF_SIZE], 0;
      phase, secret, req1Off, infoHash := WaitingForYa, [], 0, NO_KEY;
      ourRc4, cryptoSelect, padCLen, iaLen := null, 0, 0, 0;
      failed, sent, reinserted, sockRc4, sockCipher := false, [], [], null, NoCipher;
    }

    method OnReadyRead(avail: seq<Byte>)
      requires Valid() && |cfg.junk| == KEY_BYTES
      modifies this, buf, ReprOf(ourRc4)
      ensures Valid() && State() == ServerReady(cfg, old(State()), avail)
    {
      if avail == [] {
        failed := true;
        return;
      }
      if phase == NonEncrypted { return; }
      var ba := if bufSize + |avail| > MAX_SEA_BUF_SIZE then MAX_SEA_BUF_SIZE - bufSize else |avail|;
      if phase == WaitingForYa && ba <= 68 && cfg.allowPlain {
        phase := NonEncrypted;
        return;
      }
      Read(avail);
      Turn();
    }

    method Read(avail: seq<Byte>)
      requires Valid()
      modifies this`bufSize, buf
      ensures Valid() && State() == old(State()).(buf := Fill(old(State()).buf, avail, MAX_SEA_BUF_SIZE))
    {
      bufSize := ReadInto(buf, bufSize, avail, MAX_SEA_BUF_SIZE);
    }

    method Turn()
      requires Valid() && |cfg.junk| == KEY_BYTES
      modifies this, buf, ReprOf(ourRc4)
      ensures Valid() && State() == ServerTurn(cfg, old(State()))
    {
      match phase
      case WaitingForYa => if bufSize >= 96 { DoHandleYA(); }
      case WaitingForReq1 => DoFindReq1();
      case FoundReq1 => DoCalculateSKey();
      case FoundInfoHash => DoProcessVC();
      case WaitForPadC => DoHandlePadC();
      case WaitForIa => DoHandleIA();
      case NonEncrypted =>
    }

    method DoHandleYA()
      requires Valid() && bufSize >= 96 && |cfg.junk| == KEY_BYTES
      modifies this, buf, ReprOf(ourRc4)
      ensures Valid() && State() == HandleYA(cfg, old(State()))
    {
      Within(buf, bufSize, 0, 96);
      assert buf[..bufSize][..96] == buf[..bufSize][0..96];
      sent := sent + Export(Public(cfg.xb), cfg.junk) + cfg.pad;
      var ya := ReadUint(buf, 0, 96);
      secret := Export(Secret(cfg.xb, ya), cfg.junk);
      phase := WaitingForReq1;
      DoFindReq1();
    }

    method DoFindReq1()
      requires Valid()
      modifies this, buf, ReprOf(ourRc4)
      ensures Valid() && State() == FindReq1(cfg, old(State()))
    {
      if bufSize < 116 { return; }
      var req1, end := Req1(cfg.sha, secret), bufSize - HASH_BYTES;
      SearchesReq1(cfg, State(), req1, end);
      var i := FindPattern(buf, bufSize, req1, 96, end);
      DoReq1Searched(i);
    }

    method DoReq1Searched(i: nat)
      requires Valid()
      modifies this, buf, ReprOf(ourRc4)
      ensures Valid() && State() == Req1Searched(cfg, old(State()), i)
    {
      if i < bufSize - HASH_BYTES {
        phase, req1Off := FoundReq1, i;
        DoCalculateSKey();
      } else if bufSize > 608 {
        failed := true;
      }
    }

    method DoCalculateSKey()
      requires Valid()
      modifies this, buf, ReprOf(ourRc4)
      ensures Valid() && State() == CalculateSKey(cfg, old(State()))
    {
      if req1Off + 40 > bufSize { return; }
      var r := buf[req1Off + 20..req1Off + 40];
      Within(buf, bufSize, req1Off + 20, req1Off + 40);
      DoLookedUp(cfg.lookup(Distance(r, Req3(cfg.sha, secret))));
    }

    method DoLookedUp(l: Lookup)
      requires Valid()
      modifies this, buf, ReprOf(ourRc4)
      ensures Valid() && State() == LookedUp(cfg, old(State()), l)
    {
      match l
      case Unknown => failed := true;
      case Found(ih) =>
        infoHash, phase := ih, FoundInfoHash;
        DoProcessVC();
    }

    /** The encryptor is made on the first call. */
    method MakeRc4()
      requires Valid()
      modifies this`ourRc4
      ensures Valid() && ourRc4 != null && (fresh(ReprOf(ourRc4)) || ourRc4 == old(ourRc4))
      ensures State() == WithCiphers(cfg, old(State()))
    {
      if ourRc4 == null {
        ourRc4 := new R.RC4Encryptor(EncryptionKey(cfg.sha, true, secret, infoHash),
                                     EncryptionKey(cfg.sha, false, secret, infoHash));
      }
    }

    /** `our_rc4->decrypt` on the buffer. */
    method DecryptBuf(from: nat, len: nat)
      requires Valid() && ourRc4 != null && from + len <= bufSize
      modifies ourRc4, ourRc4.dec, ourRc4.dec.s, buf
      ensures Valid() && State() == Decrypted(cfg, old(State()), from, len)
    {
      DecryptIn(ourRc4, buf, bufSize, from, len);
    }

    method DoProcessVC()
      requires Valid()
      modifies this, buf, ReprOf(ourRc4)
      ensures Valid() && State() == ProcessVC(cfg, old(State()))
    {
      ghost var s := State();
      MakeRc4();
      var from := req1Off + 40;
      if bufSize < from + 14 { return; }
      OpenedThenVC(cfg, s, State(), from);
      DoOpen(from);
    }

    method DoOpen(from: nat)
      requires Valid() && ourRc4 != null && from == req1Off + 40 && from + 14 <= bufSize
      modifies this, buf, ReprOf(ourRc4)
      ensures Valid() && State() == ReadVC(cfg, Decrypted(cfg, old(State()), from, 14))
    {
      DecryptBuf(from, 14);
      DoReadVC();
    }

    method DoReadVC()
      requires Valid() && ourRc4 != null && req1Off + 54 <= bufSize
      modifies this, buf, ReprOf(ourRc4)
      ensures Valid() && State() == ReadVC(cfg, old(State()))
    {
      ghost var s := State();
      var o := ReadOpening(buf, bufSize, req1Off + 40);
      if !o.vc {
        failed := true;
        return;
      }
      padCLen := o.pad;
      if padCLen > MAX_PAD {
        failed := true;
        return;
      }
      DoAnswer(o.crypto);
      assert State() == Answer(cfg, s.(padCLen := o.pad), o.crypto, o.pad);
      ghost var t := State();
      AnsweredThenPadC(cfg, s, t);
      DoAwaitPadC();
    }

    /** RC4 is chosen whenever it is offered. */
    method DoAnswer(provide: nat)
      requires Valid() && ourRc4 != null
      modifies this, ourRc4, ourRc4.enc, ourRc4.enc.s
      ensures Valid() && ourRc4 == old(ourRc4) && State() == Answer(cfg, old(State()), provide, old(padCLen))
    {
      cryptoSelect := if Bit(provide, 1) then 2 else 1;
      var tmp: seq<Byte> := [0, 0, 0, 0, 0, 0, 0, 0, 0, 0, 0, cryptoSelect, 0, 0];
      assert tmp == Select(Choice(provide));
      var out := EncryptOut(ourRc4, tmp, buf);
      sent := sent + out;
    }

    method DoAwaitPadC()
      requires Valid()
      modifies this, buf, ReprOf(ourRc4)
      ensures Valid() && State() == AwaitPadC(cfg, old(State()))
    {
      if bufSize < req1Off + 14 + padCLen {
        phase := WaitForPadC;
        return;
      }
      DoHandlePadC();
    }

    method DoHandlePadC()
      requires Valid()
      modifies this, buf, ReprOf(ourRc4)
      ensures Valid() && State() == HandlePadC(cfg, old(State()))
    {
      if bufSize < req1Off + 54 + padCLen + 2 || ourRc4 == null { return; }
      var from, len := req1Off + 54, padCLen + 2;
      PadCThenIa(cfg, State(), from, len);
      DecryptBuf(from, len);
      DoReadIaLength();
    }

    method ReadLength(off: nat)
      requires Valid() && off + 2 <= bufSize
      modifies this`iaLen
      ensures Valid() && State() == old(State()).(iaLen := Val(old(State()).buf[off..off + 2]))
    {
      Within(buf, bufSize, off, off + 2);
      iaLen := ReadUint(buf, off, 2);
    }

    method DoReadIaLength()
      requires Valid() && req1Off + 56 + padCLen <= bufSize
      modifies this
      ensures Valid() && State() == ReadIaLength(cfg, old(State()))
    {
      ghost var s := State();
      ReadLength(req1Off + 54 + padCLen);
      if bufSize < req1Off + 54 + iaLen {
        phase := WaitForIa;
        return;
      }
      ghost var t := State();
      LengthThenIa(cfg, s, t);
      DoHandleIA();
    }

    /** `sock->reinsert` of the rest of the buffer. */
    method Reinsert(off: nat)
      requires Valid() && off <= bufSize
      modifies this`reinserted
      ensures Valid() && State() == old(State()).(reinserted := old(reinserted) + old(State()).buf[off..])
    {
      Within(buf, bufSize, off, bufSize);
      assert buf[..bufSize][off..] == buf[..bufSize][off..bufSize];
      reinserted := reinserted + buf[off..bufSize];
    }

    method DoHandleIA()
      requires Valid()
      modifies this
      ensures Valid() && State() == HandleIA(cfg, old(State()))
      ensures sockRc4 != old(sockRc4) ==> sockRc4 == old(ourRc4) && CipherOf(sockRc4) == sockCipher
    {
      ghost var s := State();
      var off := req1Off + 54 + padCLen + 2;
      if bufSize < off + iaLen { return; }
      if iaLen > 0 { Reinsert(off); }
      ghost var t := State();
      IaThenHandOver(cfg, s, t);
      DoHandOver();
    }

    /** The socket takes over the encryptor itself, or it is deleted. */
    method DoHandOver()
      requires Valid()
      modifies this
      ensures Valid() && State() == HandOver(cfg, old(State()))
      ensures sockRc4 != old(sockRc4) ==> sockRc4 == old(ourRc4) && CipherOf(sockRc4) == sockCipher
    {
      if cryptoSelect == 2 {
        sockCipher := CipherOf(ourRc4);
        sockRc4, ourRc4 := ourRc4, null;
      } else if !cfg.allowPlain {
        failed := true;
        return;
      } else {
        ourRc4 := null;
      }
      phase := NonEncrypted;
    }
  }

  // ---- the connecting side ----

  lemma OpenedThenSelect(cfg: ClientCfg, s: Client, from: nat)
    requires from == s.vcOff && from + 14 < |s.buf| && s.rc4.Cipher?
    ensures HandleCryptoSelect(cfg, s) == ReadSelect(cfg, ClientDecrypted(cfg, s, from, 14))
  {
  }

  lemma PadDThenLeave(cfg: ClientCfg, s: Client, from: nat, have: nat)
    requires from == s.vcOff + 14 <= |s.buf| && have == Least(s.padDLen, |s.buf| - from) && s.rc4.Cipher?
    requires from + s.padDLen <= MAX_EA_BUF_SIZE
    ensures HandlePadD(cfg, s) == LeaveCrypto(PadDDecrypted(cfg, s, from, have))
  {
    var d := PadDDecrypted(cfg, s, from, have);
    assert HandlePadD(cfg, s) == LeaveCrypto(d);
  }

  lemma CryptPrefix(ks: Keystream, st: Stream, data: seq<Byte>, n: nat)
    requires n <= |data|
    ensures Crypt(ks, st, data[..n]) == Crypt(ks, st, data)[..n]
  {
  }

  /** Decryption that runs on behind the filled part. */
  lemma DecryptPart(ks: Keystream, whole: seq<Byte>, after: seq<Byte>, size: nat, dec: Stream, from: nat, len: nat,
                    have: nat)
    requires from <= size <= |whole| && from + len <= |whole| && have == Least(len, size - from)
    requires after == DecryptAt(ks, whole, dec, from, len)
    ensures after[..size] == DecryptAt(ks, whole[..size], dec, from, have)
  {
    var f, x := whole[..size], whole[from..from + len];
    assert f[from..from + have] == x[..have];
    CryptPrefix(ks, dec, x, have);
    assert f[..from] == whole[..from];
    if have == len {
      assert after[..size] == (whole[..from] + Crypt(ks, dec, x)) + whole[from + len..][..size - (from + len)];
      assert f[from + have..] == whole[from + len..][..size - (from + len)];
    } else {
      assert after[..size] == whole[..from] + Crypt(ks, dec, x)[..have];
      assert f[from + have..] == [];
    }
  }

  lemma FrontOf(b: seq<Byte>, whole: seq<Byte>, size: nat, length: nat)
    requires size <= length == |b| && whole == b[..length]
    ensures whole[..size] == b[..size]
  {
  }

  lemma SearchesVC(cfg: ClientCfg, s: Client, vc: seq<Byte>, end: nat)
    requires |s.buf| >= 96 && end == |s.buf| - VC_BYTES
    requires vc == Crypt(cfg.ks, NewStream(cfg.sha, false, s.secret, cfg.infoHash), VC)
    ensures FindVC(cfg, s) == VcSearched(cfg, s, Search(s.buf, vc, 96, end))
  {
  }

  lemma SecretThenSearch(cfg: ClientCfg, s: Client, secret: seq<Byte>)
    requires |cfg.junk| == KEY_BYTES && |s.buf| >= 96
    requires secret == Export(Secret(cfg.xa, Val(s.buf[..96])), cfg.junk)
    ensures HandleYB(cfg, s) == FindVC(cfg, SentLine3(cfg, s.(secret := secret, phase := GotYb)))
  {
  }

  class EncryptedAuthenticate {
    const cfg: ClientCfg
    const buf: array<Byte>
    var bufSize: nat
    var phase: ClientPhase
    var secret: seq<Byte>
    var ourRc4: R.RC4Encryptor?
    var vcOff: nat
    var cryptoSelect: nat
    var padDLen: nat
    var failed: bool
    // what the socket was given: bytes to send, bytes to read again, an encryptor (and where it stood)
    var sent: seq<Byte>
    var reinserted: seq<Byte>
    var sockRc4: R.RC4Encryptor?
    ghost var sockCipher: Cipher

    ghost predicate Valid()
      reads this, ReprOf(ourRc4)
    {
      && buf.Length == MAX_EA_BUF_SIZE && bufSize <= MAX_EA_BUF_SIZE
      && cfg.ks == Rc4Keystream() && Sound(ourRc4, buf)
    }

    ghost function State(): Client
      requires Valid()
      reads this, buf, ReprOf(ourRc4)
    {
      Client(phase, buf[..bufSize], secret, CipherOf(ourRc4), vcOff, cryptoSelect, padDLen, failed,
             sent, sockCipher, reinserted)
    }

    constructor (cfg: ClientCfg)
      requires cfg.ks == Rc4Keystream()
      ensures Valid() && this.cfg == cfg && fresh(buf) && ourRc4 == null && State() == NewClient()
    {
      this.cfg := cfg;
      buf, bufSize := new Byte[MAX_EA_BUF_SIZE], 0;
      phase, secret, ourRc4, vcOff := NotConnected, [], null, 0;
      cryptoSelect, padDLen, failed := 0, 0, false;
      sent, reinserted, sockRc4, sockCipher := [], [], null, NoCipher;
    }

    method OnConnected()
      requires Valid() && |cfg.junk| == KEY_BYTES
      modifies this`sent, this`phase
      ensures Valid() && State() == Connected(cfg, old(State()))
    {
      sent := sent + Export(Public(cfg.xa), cfg.junk) + cfg.pad;
      phase := SentYa;
    }

    method OnReadyRead(avail: seq<Byte>)
      requires Valid() && |cfg.junk| == KEY_BYTES
      modifies this, buf, ReprOf(ourRc4)
      ensures Valid() && State() == ClientReady(cfg, old(State()), avail)
    {
      if avail == [] {
        failed := true;
        return;
      }
      var had := bufSize;
      if phase != NormalHandshake { Read(avail); }
      Turn(bufSize - had);
    }

    /** Not past the end of pad D. */
    method Read(avail: seq<Byte>)
      requires Valid()
      modifies this`bufSize, buf
      ensures Valid() && State() == old(State()).(buf := Fill(old(State()).buf, avail, ClientMax(old(State()))))
    {
      var max := MAX_EA_BUF_SIZE;
      if padDLen > 0 && vcOff + 14 + padDLen <= max { max := vcOff + 14 + padDLen; }
      bufSize := ReadInto(buf, bufSize, avail, max);
    }

    method Turn(grew: int)
      requires Valid() && |cfg.junk| == KEY_BYTES
      modifies this, buf, ReprOf(ourRc4)
      ensures Valid() && State() == ClientTurn(cfg, old(State()), grew)
    {
      match phase
      case SentYa => if grew > 608 { failed := true; } else { DoHandleYB(); }
      case GotYb => DoFindVC();
      case FoundVc => DoHandleCryptoSelect();
      case WaitForPadD => DoHandlePadD();
      case _ =>
    }

    method DoHandleYB()
      requires Valid() && |cfg.junk| == KEY_BYTES
      modifies this, buf, ReprOf(ourRc4)
      ensures Valid() && State() == HandleYB(cfg, old(State()))
    {
      if bufSize < 96 {
        failed := true;
        return;
      }
      ghost var s := State();
      GotSecret();
      SecretThenSearch(cfg, s, secret);
      SendLine3();
      DoFindVC();
    }

    /** The secret from the other side's public value. */
    method GotSecret()
      requires Valid() && |cfg.junk| == KEY_BYTES && bufSize >= 96
      modifies this`secret, this`phase
      ensures Valid() && secret == Export(Secret(cfg.xa, Val(old(State()).buf[..96])), cfg.junk)
      ensures State() == old(State()).(secret := secret, phase := GotYb)
    {
      Within(buf, bufSize, 0, 96);
      assert buf[..bufSize][..96] == buf[..bufSize][0..96];
      var yb := ReadUint(buf, 0, 96);
      secret := Export(Secret(cfg.xa, yb), cfg.junk);
      phase := GotYb;
    }

    /** Both hashes in the clear, then the offer, the first bytes through a new encryptor. */
    method SendLine3()
      requires Valid()
      modifies this`ourRc4, this`sent
      ensures Valid() && ourRc4 != null && fresh(ReprOf(ourRc4))
      ensures State() == SentLine3(cfg, old(State()))
    {
      var rc4 := new R.RC4Encryptor(EncryptionKey(cfg.sha, false, secret, cfg.infoHash),
                                    EncryptionKey(cfg.sha, true, secret, cfg.infoHash));
      var line := MakeLine3(rc4);
      sent := sent + line;
      ourRc4 := rc4;
    }

    method MakeLine3(rc4: R.RC4Encryptor) returns (line: seq<Byte>)
      requires Valid() && Sound(rc4, buf) && EncOf(rc4) == NewStream(cfg.sha, true, secret, cfg.infoHash)
      modifies rc4, rc4.enc, rc4.enc.s
      ensures Sound(rc4, buf) && EncOf(rc4) == old(EncOf(rc4)).After(|Offer(cfg)|) && DecOf(rc4) == old(DecOf(rc4))
      ensures line == Line3(cfg.sha, cfg.ks, secret, cfg.infoHash, Offer(cfg))
    {
      var req1, req2, req3 := Req1(cfg.sha, secret), Req2(cfg.sha, cfg.infoHash), Req3(cfg.sha, secret);
      var tmp: seq<Byte> := [0, 0, 0, 0, 0, 0, 0, 0, 0, 0, 0, if cfg.allowPlain then 3 else 2, 0, 0, 0, 68];
      assert tmp + cfg.hello == Offer(cfg);
      var out := EncryptOut(rc4, tmp + cfg.hello, buf);
      line := req1 + Distance(req2, req3) + out;
    }

    /** The VC as the other side encrypts it, with an encryptor made for the purpose. */
    method ExpectedVC() returns (vc: seq<Byte>)
      requires Valid()
      ensures vc == Crypt(cfg.ks, NewStream(cfg.sha, false, secret, cfg.infoHash), VC)
    {
      var rc4 := new R.RC4Encryptor(EncryptionKey(cfg.sha, true, secret, cfg.infoHash),
                                    EncryptionKey(cfg.sha, false, secret, cfg.infoHash));
      vc := EncryptOut(rc4, VC, buf);
    }

    method DoFindVC()
      requires Valid()
      modifies this, buf, ReprOf(ourRc4)
      ensures Valid() && State() == FindVC(cfg, old(State()))
    {
      if bufSize < 96 { return; }
      var vc := ExpectedVC();
      var end := bufSize - VC_BYTES;
      SearchesVC(cfg, State(), vc, end);
      var i := FindPattern(buf, bufSize, vc, 96, end);
      DoVcSearched(i);
    }

    method DoVcSearched(i: nat)
      requires Valid()
      modifies this, buf, ReprOf(ourRc4)
      ensures Valid() && State() == VcSearched(cfg, old(State()), i)
    {
      if i < bufSize - VC_BYTES {
        phase, vcOff := FoundVc, i;
        DoHandleCryptoSelect();
      } else if bufSize >= 616 {
        failed := true;
      }
    }

    /** `our_rc4->decrypt` on the buffer. */
    method DecryptBuf(from: nat, len: nat)
      requires Valid() && ourRc4 != null && from + len <= bufSize
      modifies ourRc4, ourRc4.dec, ourRc4.dec.s, buf
      ensures Valid() && State() == ClientDecrypted(cfg, old(State()), from, len)
    {
      DecryptIn(ourRc4, buf, bufSize, from, len);
    }

    method DoHandleCryptoSelect()
      requires Valid()
      modifies this, buf, ReprOf(ourRc4)
      ensures Valid() && State() == HandleCryptoSelect(cfg, old(State()))
    {
      if vcOff + 14 >= bufSize || ourRc4 == null { return; }
      OpenedThenSelect(cfg, State(), vcOff);
      DecryptBuf(vcOff, 14);
      DoReadSelect();
    }

    method DoReadSelect()
      requires Valid() && vcOff + 14 < bufSize
      modifies this, buf, ReprOf(ourRc4)
      ensures Valid() && State() == ReadSelect(cfg, old(State()))
    {
      var o := ReadOpening(buf, bufSize, vcOff);
      if !o.vc {
        failed := true;
        return;
      }
      cryptoSelect, padDLen := o.crypto, o.pad;
      if padDLen > MAX_PAD {
        failed := true;
        return;
      }
      if !(vcOff + 14 + padDLen < bufSize) {
        phase := WaitForPadD;
        return;
      }
      DoHandlePadD();
    }

    method DoHandlePadD()
      requires Valid()
      modifies this, buf, ReprOf(ourRc4)
      ensures Valid() && State() == HandlePadD(cfg, old(State()))
    {
      var from := vcOff + 14;
      if ourRc4 == null || from > bufSize || from + padDLen > buf.Length { return; }
      ghost var have := Least(padDLen, bufSize - from);
      PadDThenLeave(cfg, State(), from, have);
      DecryptPadD(from, have);
      DoLeaveCrypto();
    }

    /** All of pad D, whether or not it has come. */
    method DecryptPadD(from: nat, ghost have: nat)
      requires Valid() && ourRc4 != null && from <= bufSize && from + padDLen <= buf.Length
      requires have == Least(padDLen, bufSize - from)
      modifies ourRc4, ourRc4.dec, ourRc4.dec.s, buf
      ensures Valid() && State() == PadDDecrypted(cfg, old(State()), from, have)
    {
      ghost var whole, dec := buf[..buf.Length], DecOf(ourRc4);
      FrontOf(buf[..], whole, bufSize, buf.Length);
      DecryptIn(ourRc4, buf, buf.Length, from, padDLen);
      ghost var after := buf[..buf.Length];
      FrontOf(buf[..], after, bufSize, buf.Length);
      DecryptPart(cfg.ks, whole, after, bufSize, dec, from, padDLen, have);
    }

    /** `sock->reinsert` of the rest of the buffer. */
    method Reinsert(off: nat)
      requires Valid() && off <= bufSize
      modifies this`reinserted
      ensures Valid() && State() == old(State()).(reinserted := old(reinserted) + old(State()).buf[off..])
    {
      Within(buf, bufSize, off, bufSize);
      assert buf[..bufSize][off..] == buf[..bufSize][off..bufSize];
      reinserted := reinserted + buf[off..bufSize];
    }

    method DoLeaveCrypto()
      requires Valid()
      modifies this
      ensures Valid() && State() == LeaveCrypto(old(State()))
      ensures sockRc4 != old(sockRc4) ==> sockRc4 == old(ourRc4) && CipherOf(sockRc4) == sockCipher
    {
      if Bit(cryptoSelect, 0) {
        ourRc4 := null;
      } else if Bit(cryptoSelect, 1) {
        sockCipher := CipherOf(ourRc4);
        sockRc4, ourRc4 := ourRc4, null;
      } else {
        failed := true;
        return;
      }
      phase := NormalHandshake;
      var off := vcOff + 14 + padDLen;
      if bufSize > off { Reinsert(off); }
    }
  }
}
