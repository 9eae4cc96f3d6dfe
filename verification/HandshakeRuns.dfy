/** The two objects talking to each other over a network that cuts what they send into pieces as it likes. */
module HandshakeRuns {
  import opened Bytes
  import opened Keys
  import opened DiffieHellman
  import opened Handshake
  import opened HandshakeProofs
  import opened Pieces
  import A = AcceptingRuns
  import C = ConnectingRuns

  /** What the connecting side sends. */
  function Request(a: ClientCfg): A.Words
    requires |a.junk| == KEY_BYTES
  {
    A.Words(Line1(a), a.infoHash, [0, 0, 0, if a.allowPlain then 3 else 2], [], a.hello)
  }

  /** What the accepting side sends, with the payload behind line 4. */
  ghost function Response(a: ClientCfg, b: ServerCfg, payload: seq<Byte>): C.Reply
    requires Peers(a, b)
  {
    var dec := NewStream(a.sha, false, SharedSecret(a, b), a.infoHash);
    C.Reply(Line2(b), [0, 0, 0, 2], [], Crypt(a.ks, dec.After(14), payload))
  }

  lemma SameSecrets(a: ClientCfg, b: ServerCfg, payload: seq<Byte>)
    requires Peers(a, b) && payload != []
    ensures Request(a).Valid() && A.TheSecret(b, Request(a)) == SharedSecret(a, b)
    ensures Response(a, b, payload).Valid() && C.TheSecret(a, Response(a, b, payload)) == SharedSecret(a, b)
    ensures Response(a, b, payload).Known() && Bit(Val(Request(a).provide), 1)
  {
    PeersShareSecret(a, b);
    OfferIsHead(a);
    SelectIsHead();
    assert Bit(2, 1);
  }

  /** The patterns searched for do not occur before their place. */
  ghost predicate Clear(a: ClientCfg, b: ServerCfg, payload: seq<Byte>)
    requires Peers(a, b) && payload != []
  {
    SameSecrets(a, b, payload);
    A.Unmistaken(b, Request(a)) && C.Unmistaken(a, Response(a, b, payload))
  }

  /** Both ends have left the handshake with ciphers that match: what each reads from there on is what the other
      means, IA and the whole payload included. */
  ghost predicate Aligned(s: Server, c: Client, unread: seq<Byte>, ks: Keystream, hello: seq<Byte>,
                          payload: seq<Byte>)
  {
    && !s.failed && !c.failed && s.phase == NonEncrypted && c.phase == NormalHandshake
    && s.sockCipher.Cipher? && c.sockCipher.Cipher?
    && c.sockCipher.enc == s.sockCipher.dec.After(|s.reinserted|)
    && s.sockCipher.enc == c.sockCipher.dec
    && Crypt(ks, s.sockCipher.dec, s.reinserted) == hello
    && Crypt(ks, c.sockCipher.dec, c.reinserted + unread) == payload
  }

  lemma EndsAligned(a: ClientCfg, b: ServerCfg, payload: seq<Byte>, s: Server, c: Client, unread: seq<Byte>)
    requires Peers(a, b) && payload != [] && Request(a).Valid() && Response(a, b, payload).Valid()
    requires A.TheSecret(b, Request(a)) == SharedSecret(a, b)
    requires C.TheSecret(a, Response(a, b, payload)) == SharedSecret(a, b)
    requires A.Accepted(b, Request(a), s)
    requires C.Followed(a, Response(a, b, payload), c, unread, Response(a, b, payload).Total())
    ensures Aligned(s, c, unread, a.ks, a.hello, payload)
    ensures c.sent == Line1(a) + Line3(a.sha, a.ks, SharedSecret(a, b), a.infoHash, Offer(a))
  {
    var x, y := Request(a), Response(a, b, payload);
    var secret := SharedSecret(a, b);
    var enc, dec := NewStream(a.sha, true, secret, a.infoHash), NewStream(a.sha, false, secret, a.infoHash);
    OfferIsHead(a);
    SelectIsHead();
    assert Bit(2, 1) && !Bit(2, 0);
    CryptTwice(a.ks, enc.After(16), a.hello);
    assert C.AllSent(a, y)[y.PadEnd()..y.Total()] == y.payload;
    CryptTwice(a.ks, dec.After(14), payload);
    assert [] + Export(Public(a.xa), a.junk) + a.pad == Line1(a);
  }

  /** Whatever pieces the network makes of what both sides send, both leave the handshake as the protocol wants it if
      and only if no piece is of the kinds that spoil it, and then they are aligned. */
  lemma HandshakeInPieces(a: ClientCfg, b: ServerCfg, payload: seq<Byte>, toB: seq<seq<Byte>>, toA: seq<seq<Byte>>)
    requires Peers(a, b) && payload != [] && Clear(a, b, payload) && NoneEmpty(toB) && NoneEmpty(toA)
    requires Request(a).Valid() && Response(a, b, payload).Valid()
    requires Joined(toB) == Line1(a) + Line3(a.sha, a.ks, SharedSecret(a, b), a.infoHash, Offer(a))
    requires var dec := NewStream(a.sha, false, SharedSecret(a, b), a.infoHash);
             Joined(toA) == Line2(b) + (Crypt(a.ks, dec, Select(2)) + Crypt(a.ks, dec.After(14), payload))
    ensures var s := A.ServerRun(b, NewServer(), toB);
            var (c, unread) := C.ClientRun(a, Connected(a, NewClient()), [], toA);
            var y := Response(a, b, payload);
            && (A.Accepted(b, Request(a), s) && C.Followed(a, y, c, unread, y.Total()) <==>
                  A.NoneSpoils(b, Request(a), 0, toB) && C.NoneSpoils(y, 0, toA))
            && (A.Accepted(b, Request(a), s) && C.Followed(a, y, c, unread, y.Total()) ==>
                  Aligned(s, c, unread, a.ks, a.hello, payload) && c.sent == Joined(toB))
  {
    var x, y := Request(a), Response(a, b, payload);
    SameSecrets(a, b, payload);
    OfferIsHead(a);
    SelectIsHead();
    A.AcceptsExactly(b, x, toB);
    C.ConnectsExactly(a, y, toA);
    var s := A.ServerRun(b, NewServer(), toB);
    var (c, unread) := C.ClientRun(a, Connected(a, NewClient()), [], toA);
    if A.Accepted(b, x, s) && C.Followed(a, y, c, unread, y.Total()) {
      EndsAligned(a, b, payload, s, c, unread);
    }
  }

  /** Without padding there is nothing to mislead a search. */
  lemma ClearWithoutPadding(a: ClientCfg, b: ServerCfg, payload: seq<Byte>)
    requires Peers(a, b) && payload != [] && a.pad == [] && b.pad == []
    ensures Clear(a, b, payload) && Request(a).Valid() && Response(a, b, payload).Valid()
  {
    SameSecrets(a, b, payload);
    assert |Line1(a)| == 96 && |Line2(b)| == 96;
  }
}
