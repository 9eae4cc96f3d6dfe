/** The five-line encrypted handshake, both ends, as steps on their state
    (libktorrent/mse/encryptedauthenticate.cpp, encryptedserverauthenticate.cpp). */
module Handshake {
  import opened Bytes
  import opened Keys
  import opened DiffieHellman

  const VC_BYTES: nat := 8
  const HASH_BYTES: nat := 20
  const MAX_PAD: nat := 512
  const MAX_SEA_BUF_SIZE: nat := 608 + 20 + 20 + 8 + 4 + 2 + 512 + 2 + 68
  const MAX_EA_BUF_SIZE: nat := 622 + 512
  const IA_BYTES: nat := 68

  const VC: seq<Byte> := [0, 0, 0, 0, 0, 0, 0, 0]

  /** A stream cipher: the byte each key yields at each position. */
  type Keystream = (Key, nat) -> Byte

  /** How far the stream of a key has been used. */
  datatype Stream = Stream(key: Key, pos: nat) {
    function After(n: nat): Stream { Stream(key, pos + n) }
  }

  function Crypt(ks: Keystream, st: Stream, data: seq<Byte>): (r: seq<Byte>)
    ensures |r| == |data|
  {
    seq(|data|, i requires 0 <= i < |data| => Xor(ks(st.key, st.pos + i), data[i]))
  }

  /** `our_rc4`, or the encryptor given to the socket. */
  datatype Cipher = NoCipher | Cipher(enc: Stream, dec: Stream)

  datatype Lookup = Unknown | Found(infoHash: Key)

  // "req1", "req2", "req3"
  function Req1(sha: Hash, secret: seq<Byte>): Key { sha([114, 101, 113, 49] + secret) }

  function Req2(sha: Hash, infoHash: Key): Key { sha([114, 101, 113, 50] + infoHash) }

  function Req3(sha: Hash, secret: seq<Byte>): Key { sha([114, 101, 113, 51] + secret) }

  /** The stream of the peer that made the connection (`true`) and of the one that accepted it. */
  function NewStream(sha: Hash, a: bool, secret: seq<Byte>, infoHash: Key): Stream {
    Stream(EncryptionKey(sha, a, secret, infoHash), 0)
  }

  function Be16(n: nat): seq<Byte>
    requires n < 65536
  {
    [n / 256, n % 256]
  }

  function Least(a: nat, b: nat): nat { if a < b then a else b }

  predicate Matches(buf: seq<Byte>, pat: seq<Byte>, i: nat) {
    i + |pat| <= |buf| && buf[i..i + |pat|] == pat
  }

  /** First position in [i, end) where the pattern occurs; a position not before `end` if there is none. */
  function Search(buf: seq<Byte>, pat: seq<Byte>, i: nat, end: nat): nat
    decreases end - i
  {
    if i >= end then i else if Matches(buf, pat, i) then i else Search(buf, pat, i + 1, end)
  }

  /** Decryption of part of a buffer in place. */
  function DecryptAt(ks: Keystream, buf: seq<Byte>, dec: Stream, from: nat, len: nat): (r: seq<Byte>)
    requires from + len <= |buf|
    ensures |r| == |buf|
  {
    buf[..from] + Crypt(ks, dec, buf[from..from + len]) + buf[from + len..]
  }

  /** What fits of the bytes available. */
  function Fill(buf: seq<Byte>, avail: seq<Byte>, max: nat): seq<Byte> {
    if |buf| + |avail| <= max then buf + avail
    else if |buf| <= max then buf + avail[..max - |buf|] else buf
  }

  // ---- the accepting side ----

  datatype ServerPhase =
    | WaitingForYa | WaitingForReq1 | FoundReq1 | FoundInfoHash | WaitForPadC | WaitForIa | NonEncrypted

  /** What the object is given: its exponent, the junk its buffers held, the bytes sent after Yb, the
      torrents the server knows by HASH('req2', SKEY), and the configuration. */
  datatype ServerCfg = ServerCfg(
    sha: Hash, ks: Keystream, xb: nat, junk: seq<Byte>, pad: seq<Byte>, lookup: Key -> Lookup, allowPlain: bool)

  datatype Server = Server(
    phase: ServerPhase, buf: seq<Byte>, secret: seq<Byte>, req1Off: nat, infoHash: Key, rc4: Cipher,
    cryptoSelect: nat, padCLen: nat, iaLen: nat, failed: bool,
    sent: seq<Byte>, sockCipher: Cipher, reinserted: seq<Byte>)

  const NO_KEY: Key := [0,0,0,0,0, 0,0,0,0,0, 0,0,0,0,0, 0,0,0,0,0]

  function NewServer(): Server {
    Server(WaitingForYa, [], [], 0, NO_KEY, NoCipher, 0, 0, 0, false, [], NoCipher, [])
  }

  /** The socket takes over the encryptor, or goes on in plain text. */
  function HandOver(cfg: ServerCfg, s: Server): Server {
    if s.cryptoSelect == 2 then s.(sockCipher := s.rc4, rc4 := NoCipher, phase := NonEncrypted)
    else if !cfg.allowPlain then s.(failed := true)
    else s.(rc4 := NoCipher, phase := NonEncrypted)
  }

  function HandleIA(cfg: ServerCfg, s: Server): Server {
    var off := s.req1Off + 56 + s.padCLen;
    if |s.buf| < off + s.iaLen then s
    else HandOver(cfg, if s.iaLen > 0 then s.(reinserted := s.reinserted + s.buf[off..]) else s)
  }

  /** `our_rc4` decrypts part of the buffer in place. */
  function Decrypted(cfg: ServerCfg, s: Server, from: nat, len: nat): Server
    requires s.rc4.Cipher? && from + len <= |s.buf|
  {
    s.(buf := DecryptAt(cfg.ks, s.buf, s.rc4.dec, from, len), rc4 := s.rc4.(dec := s.rc4.dec.After(len)))
  }

  /** Pad C and the IA length have been decrypted. */
  function ReadIaLength(cfg: ServerCfg, s: Server): Server
    requires s.req1Off + 56 + s.padCLen <= |s.buf|
  {
    var off := s.req1Off + 54;
    var ia := Val(s.buf[off + s.padCLen..off + s.padCLen + 2]);
    if |s.buf| < off + ia then s.(iaLen := ia, phase := WaitForIa) else HandleIA(cfg, s.(iaLen := ia))
  }

  function HandlePadC(cfg: ServerCfg, s: Server): Server {
    if |s.buf| < s.req1Off + 54 + s.padCLen + 2 || s.rc4.NoCipher? then s
    else ReadIaLength(cfg, Decrypted(cfg, s, s.req1Off + 54, s.padCLen + 2))
  }

  /** The 14 bytes of line 4. */
  function Select(select: Byte): seq<Byte> { VC + [0, 0, 0, select] + [0, 0] }

  /** RC4 is chosen whenever it is offered. */
  function Choice(provide: nat): Byte { if Bit(provide, 1) then 2 else 1 }

  /** The 14 bytes that open the encrypted parts of lines 3 and 4: whether VC is there, crypto_provide
      or crypto_select, and the padding length. */
  datatype Opening = Opening(vc: bool, crypto: nat, pad: nat)

  function OpeningAt(buf: seq<Byte>, off: nat): Opening
    requires off + 14 <= |buf|
  {
    Opening(buf[off..off + VC_BYTES] == VC, Val(buf[off + 8..off + 12]), Val(buf[off + 12..off + 14]))
  }

  /** The selection is sent, and the stream cipher moves on by 14 bytes. */
  function Answer(cfg: ServerCfg, s: Server, provide: nat, padC: nat): Server
    requires s.rc4.Cipher?
  {
    s.(padCLen := padC, cryptoSelect := Choice(provide),
       sent := s.sent + Crypt(cfg.ks, s.rc4.enc, Select(Choice(provide))),
       rc4 := s.rc4.(enc := s.rc4.enc.After(14)))
  }

  function AwaitPadC(cfg: ServerCfg, s: Server): Server {
    if |s.buf| < s.req1Off + 14 + s.padCLen then s.(phase := WaitForPadC) else HandlePadC(cfg, s)
  }

  /** VC, crypto_provide and the pad C length have been decrypted. */
  function ReadVC(cfg: ServerCfg, s: Server): Server
    requires s.rc4.Cipher? && s.req1Off + 54 <= |s.buf|
  {
    var o := OpeningAt(s.buf, s.req1Off + 40);
    if !o.vc then s.(failed := true)
    else if o.pad > MAX_PAD then s.(padCLen := o.pad, failed := true)
    else AwaitPadC(cfg, Answer(cfg, s, o.crypto, o.pad))
  }

  function WithCiphers(cfg: ServerCfg, s: Server): Server {
    if s.rc4.Cipher? then s
    else s.(rc4 := Cipher(NewStream(cfg.sha, false, s.secret, s.infoHash),
                          NewStream(cfg.sha, true, s.secret, s.infoHash)))
  }

  /** With an encryptor: once the 14 bytes are there they are decrypted. */
  function OpenVC(cfg: ServerCfg, s: Server): Server
    requires s.rc4.Cipher?
  {
    if |s.buf| < s.req1Off + 54 then s else ReadVC(cfg, Decrypted(cfg, s, s.req1Off + 40, 14))
  }

  function ProcessVC(cfg: ServerCfg, s: Server): Server {
    OpenVC(cfg, WithCiphers(cfg, s))
  }

  function LookedUp(cfg: ServerCfg, s: Server, l: Lookup): Server {
    match l
    case Unknown => s.(failed := true)
    case Found(ih) => ProcessVC(cfg, s.(infoHash := ih, phase := FoundInfoHash))
  }

  function CalculateSKey(cfg: ServerCfg, s: Server): Server {
    if s.req1Off + 40 > |s.buf| then s else
      var r := s.buf[s.req1Off + 20..s.req1Off + 40];
      LookedUp(cfg, s, cfg.lookup(Distance(r, Req3(cfg.sha, s.secret))))
  }

  /** The search for HASH('req1', S) ended at `i`. */
  function Req1Searched(cfg: ServerCfg, s: Server, i: nat): Server {
    if i < |s.buf| - HASH_BYTES then CalculateSKey(cfg, s.(phase := FoundReq1, req1Off := i))
    else if |s.buf| > 608 then s.(failed := true) else s
  }

  function FindReq1(cfg: ServerCfg, s: Server): Server {
    if |s.buf| < 116 then s
    else Req1Searched(cfg, s, Search(s.buf, Req1(cfg.sha, s.secret), 96, |s.buf| - HASH_BYTES))
  }

  function HandleYA(cfg: ServerCfg, s: Server): Server
    requires |s.buf| >= 96 && |cfg.junk| == KEY_BYTES
  {
    var secret := Export(Secret(cfg.xb, Val(s.buf[..96])), cfg.junk);
    FindReq1(cfg, s.(sent := s.sent + Export(Public(cfg.xb), cfg.junk) + cfg.pad, secret := secret,
                     phase := WaitingForReq1))
  }

  /** What it does next, having read. */
  function ServerTurn(cfg: ServerCfg, s: Server): Server
    requires |cfg.junk| == KEY_BYTES
  {
    match s.phase
    case WaitingForYa => if |s.buf| >= 96 then HandleYA(cfg, s) else s
    case WaitingForReq1 => FindReq1(cfg, s)
    case FoundReq1 => CalculateSKey(cfg, s)
    case FoundInfoHash => ProcessVC(cfg, s)
    case WaitForPadC => HandlePadC(cfg, s)
    case WaitForIa => HandleIA(cfg, s)
    case NonEncrypted => s
  }

  /** A short first message is taken for an unencrypted handshake, where that is allowed. */
  predicate LooksPlain(cfg: ServerCfg, s: Server, avail: seq<Byte>) {
    s.phase == WaitingForYa && cfg.allowPlain && |Fill(s.buf, avail, MAX_SEA_BUF_SIZE)| - |s.buf| <= 68
  }

  /** `onReadyRead` with the bytes waiting on the socket. */
  function ServerReady(cfg: ServerCfg, s: Server, avail: seq<Byte>): Server
    requires |cfg.junk| == KEY_BYTES
  {
    if avail == [] then s.(failed := true)
    else if s.phase == NonEncrypted then s
    else if LooksPlain(cfg, s, avail) then s.(phase := NonEncrypted)
    else ServerTurn(cfg, s.(buf := Fill(s.buf, avail, MAX_SEA_BUF_SIZE)))
  }

  // ---- the connecting side ----

  datatype ClientPhase = NotConnected | SentYa | GotYb | FoundVc | WaitForPadD | NormalHandshake

  /** `hello` is the 68-byte BitTorrent handshake sent as IA. */
  datatype ClientCfg = ClientCfg(
    sha: Hash, ks: Keystream, xa: nat, junk: seq<Byte>, pad: seq<Byte>, infoHash: Key, hello: seq<Byte>,
    allowPlain: bool)

  datatype Client = Client(
    phase: ClientPhase, buf: seq<Byte>, secret: seq<Byte>, rc4: Cipher, vcOff: nat, cryptoSelect: nat, padDLen: nat,
    failed: bool, sent: seq<Byte>, sockCipher: Cipher, reinserted: seq<Byte>)

  function NewClient(): Client {
    Client(NotConnected, [], [], NoCipher, 0, 0, 0, false, [], NoCipher, [])
  }

  function Connected(cfg: ClientCfg, s: Client): Client
    requires |cfg.junk| == KEY_BYTES
  {
    s.(sent := s.sent + Export(Public(cfg.xa), cfg.junk) + cfg.pad, phase := SentYa)
  }

  /** `our_rc4` decrypts part of the buffer in place. */
  function ClientDecrypted(cfg: ClientCfg, s: Client, from: nat, len: nat): Client
    requires s.rc4.Cipher? && from + len <= |s.buf|
  {
    s.(buf := DecryptAt(cfg.ks, s.buf, s.rc4.dec, from, len), rc4 := s.rc4.(dec := s.rc4.dec.After(len)))
  }

  /** Pad D has been decrypted: the bytes behind it are handed on, with the cipher if RC4 was selected. */
  function LeaveCrypto(s: Client): Client {
    var end := s.vcOff + 14 + s.padDLen;
    var t := s.(rc4 := NoCipher, phase := NormalHandshake,
                reinserted := s.reinserted + if end <= |s.buf| then s.buf[end..] else []);
    if Bit(s.cryptoSelect, 0) then t
    else if Bit(s.cryptoSelect, 1) then t.(sockCipher := s.rc4)
    else s.(failed := true)
  }

  /** The stream moves on by all of pad D, even if only `have` bytes of it have come. */
  function PadDDecrypted(cfg: ClientCfg, s: Client, from: nat, have: nat): Client
    requires s.rc4.Cipher? && from + have <= |s.buf|
  {
    s.(buf := DecryptAt(cfg.ks, s.buf, s.rc4.dec, from, have), rc4 := s.rc4.(dec := s.rc4.dec.After(s.padDLen)))
  }

  function HandlePadD(cfg: ClientCfg, s: Client): Client {
    var from := s.vcOff + 14;
    if s.rc4.NoCipher? || from > |s.buf| || from + s.padDLen > MAX_EA_BUF_SIZE then s
    else LeaveCrypto(PadDDecrypted(cfg, s, from, Least(s.padDLen, |s.buf| - from)))
  }

  /** VC, crypto_select and the pad D length have been decrypted. */
  function ReadSelect(cfg: ClientCfg, s: Client): Client
    requires s.vcOff + 14 <= |s.buf|
  {
    var o := OpeningAt(s.buf, s.vcOff);
    if !o.vc then s.(failed := true) else
      var t := s.(cryptoSelect := o.crypto, padDLen := o.pad);
      if o.pad > MAX_PAD then t.(failed := true)
      else if !(s.vcOff + 14 + o.pad < |s.buf|) then t.(phase := WaitForPadD)
      else HandlePadD(cfg, t)
  }

  function HandleCryptoSelect(cfg: ClientCfg, s: Client): Client {
    if s.vcOff + 14 >= |s.buf| || s.rc4.NoCipher? then s
    else ReadSelect(cfg, ClientDecrypted(cfg, s, s.vcOff, 14))
  }

  /** The search for VC ended at `i`. */
  function VcSearched(cfg: ClientCfg, s: Client, i: nat): Client {
    if i < |s.buf| - VC_BYTES then HandleCryptoSelect(cfg, s.(phase := FoundVc, vcOff := i))
    else if |s.buf| >= 616 then s.(failed := true) else s
  }

  /** VC is searched for as the other side encrypts it, with a cipher made for the purpose. */
  function FindVC(cfg: ClientCfg, s: Client): Client {
    var vc := Crypt(cfg.ks, NewStream(cfg.sha, false, s.secret, cfg.infoHash), VC);
    if |s.buf| < 96 then s else VcSearched(cfg, s, Search(s.buf, vc, 96, |s.buf| - VC_BYTES))
  }

  /** VC, crypto_provide, an empty pad C and the handshake as IA. */
  function Offer(cfg: ClientCfg): seq<Byte> {
    VC + [0, 0, 0, if cfg.allowPlain then 3 else 2] + [0, 0] + [0, 68] + cfg.hello
  }

  /** Line 3. */
  function Line3(sha: Hash, ks: Keystream, secret: seq<Byte>, infoHash: Key, offer: seq<Byte>): seq<Byte> {
    Req1(sha, secret) + Distance(Req2(sha, infoHash), Req3(sha, secret))
      + Crypt(ks, NewStream(sha, true, secret, infoHash), offer)
  }

  /** It is sent, and its encrypted part moves our stream on. */
  function SentLine3(cfg: ClientCfg, s: Client): Client {
    var enc := NewStream(cfg.sha, true, s.secret, cfg.infoHash);
    var dec := NewStream(cfg.sha, false, s.secret, cfg.infoHash);
    s.(rc4 := Cipher(enc.After(|Offer(cfg)|), dec),
       sent := s.sent + Line3(cfg.sha, cfg.ks, s.secret, cfg.infoHash, Offer(cfg)))
  }

  function HandleYB(cfg: ClientCfg, s: Client): Client
    requires |cfg.junk| == KEY_BYTES
  {
    if |s.buf| < 96 then s.(failed := true) else
      var secret := Export(Secret(cfg.xa, Val(s.buf[..96])), cfg.junk);
      FindVC(cfg, SentLine3(cfg, s.(secret := secret, phase := GotYb)))
  }

  /** How much the connecting side buffers. */
  function ClientMax(s: Client): nat {
    if s.padDLen > 0 && s.vcOff + 14 + s.padDLen <= MAX_EA_BUF_SIZE then s.vcOff + 14 + s.padDLen else MAX_EA_BUF_SIZE
  }

  /** What it does next, having read `grew` bytes. */
  function ClientTurn(cfg: ClientCfg, s: Client, grew: int): Client
    requires |cfg.junk| == KEY_BYTES
  {
    match s.phase
    case SentYa => if grew > 608 then s.(failed := true) else HandleYB(cfg, s)
    case GotYb => FindVC(cfg, s)
    case FoundVc => HandleCryptoSelect(cfg, s)
    case WaitForPadD => HandlePadD(cfg, s)
    case _ => s
  }

  /** `onReadyRead` with the bytes waiting on the socket. */
  function ClientReady(cfg: ClientCfg, s: Client, avail: seq<Byte>): Client
    requires |cfg.junk| == KEY_BYTES
  {
    if avail == [] then s.(failed := true) else
      var t := if s.phase == NormalHandshake then s else s.(buf := Fill(s.buf, avail, ClientMax(s)));
      ClientTurn(cfg, t, |t.buf| - |s.buf|)
  }
}
