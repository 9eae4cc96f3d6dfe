/** XOR with the output of any machine that no data enters. */
module Streams {
  import opened Bytes

  function Iterate<S>(next: S -> S, st: S, n: nat): S
    decreases n, next
  {
    if n == 0 then st else next(Iterate(next, st, n - 1))
  }

  function Outputs<S>(next: S -> S, out: S -> Byte, st: S, n: nat): (k: seq<Byte>)
    ensures |k| == n
    decreases n, next
  {
    if n == 0 then [] else Outputs(next, out, st, n - 1) + [out(Iterate(next, st, n - 1))]
  }

  function XorWith(key: seq<Byte>, data: seq<Byte>): (r: seq<Byte>)
    requires |key| == |data|
    ensures |r| == |data|
  {
    seq(|data|, i requires 0 <= i < |data| => Xor(key[i], data[i]))
  }

  lemma {:induction false} IterateAdd<S>(next: S -> S, st: S, m: nat, n: nat)
    ensures Iterate(next, Iterate(next, st, m), n) == Iterate(next, st, m + n)
  {
    if n > 0 { IterateAdd(next, st, m, n - 1); }
  }

  lemma {:induction false} OutputsAdd<S>(next: S -> S, out: S -> Byte, st: S, m: nat, n: nat)
    ensures Outputs(next, out, st, m + n) == Outputs(next, out, st, m) + Outputs(next, out, Iterate(next, st, m), n)
  {
    if n > 0 {
      OutputsAdd(next, out, st, m, n - 1);
      IterateAdd(next, st, m, n - 1);
      var o := [out(Iterate(next, st, m + (n - 1)))];
      assert Outputs(next, out, st, m + n) == Outputs(next, out, st, m + (n - 1)) + o;
    }
  }

  lemma {:induction false} OutputsAt<S>(next: S -> S, out: S -> Byte, st: S, n: nat, k: nat)
    requires k < n
    ensures Outputs(next, out, st, n)[k] == out(Iterate(next, st, k))
  {
    if k < n - 1 { OutputsAt(next, out, st, n - 1, k); }
  }

  lemma XorConcat(j: seq<Byte>, k: seq<Byte>, a: seq<Byte>, b: seq<Byte>)
    requires |j| == |a| && |k| == |b|
    ensures XorWith(j + k, a + b) == XorWith(j, a) + XorWith(k, b)
  {
  }

  lemma XorTwice(k: seq<Byte>, a: seq<Byte>)
    requires |k| == |a|
    ensures XorWith(k, XorWith(k, a)) == a
  {
    forall i | 0 <= i < |a| ensures XorWith(k, XorWith(k, a))[i] == a[i] {
      XorCancels(k[i], a[i]);
    }
  }
}

/** The RC4 stream cipher and the two-way encryptor (libktorrent/mse/rc4encryptor.cpp). */
module Rc4 {
  import opened Bytes
  import opened Keys
  import opened Streams

  const N: nat := 256
  const DISCARD: nat := 1024

  type Table = s: seq<Byte> | |s| == 256 witness seq(256, _ => 0)

  datatype State = State(i: Byte, j: Byte, s: Table)

  function Exchange(s: Table, a: Byte, b: Byte): Table {
    s[a := s[b]][b := s[a]]
  }

  /** The state after one byte; no data enters. */
  function Next(st: State): State {
    var i := (st.i + 1) % N;
    var j := (st.j + st.s[i]) % N;
    State(i, j, Exchange(st.s, i, j))
  }

  /** The byte the next data byte is XORed with. */
  function KeyByte(st: State): Byte {
    var n := Next(st);
    n.s[(n.s[n.i] + n.s[n.j]) % N]
  }

  function After(st: State, n: nat): State {
    Iterate(Next, st, n)
  }

  function Keystream(st: State, n: nat): (k: seq<Byte>)
    ensures |k| == n
  {
    Outputs(Next, KeyByte, st, n)
  }

  /** What the cipher makes of a byte string. */
  function Crypt(st: State, data: seq<Byte>): (r: seq<Byte>)
    ensures |r| == |data|
  {
    XorWith(Keystream(st, |data|), data)
  }

  /** The key schedule after `t` rounds. */
  function Schedule(key: seq<Byte>, t: nat): State
    requires key != [] && t <= N
  {
    if t == 0 then State(0, 0, seq(256, i requires 0 <= i < 256 => i)) else
      var p := Schedule(key, t - 1);
      var j := (p.j + p.s[t - 1] + key[(t - 1) % |key|]) % N;
      State(0, j, Exchange(p.s, t - 1, j))
  }

  function Keyed(key: seq<Byte>): State
    requires key != []
  {
    Schedule(key, N).(i := 0, j := 0)
  }

  /** The state an encryptor starts from: keyed, with the first 1024 bytes thrown away. */
  function Fresh(key: seq<Byte>): State
    requires key != []
  {
    After(Keyed(key), DISCARD)
  }

  // ---- what the key does ----

  /** A place no round has come to yet, and no index has hit, still holds its own number. */
  lemma {:induction false} UntouchedStays(key: seq<Byte>, t: nat, x: nat)
    requires key != [] && t <= x < N
    requires forall u: nat :: 0 < u <= t ==> Schedule(key, u).j != x
    ensures Schedule(key, t).s[x] == x
  {
    if t > 0 {
      UntouchedStays(key, t - 1, x);
      assert Schedule(key, t).j != x;
    }
  }

  lemma SameResidue(a: nat, x: Byte, y: Byte)
    requires (a + x) % N == (a + y) % N
    ensures x == y
  {
  }

  lemma RoundGivesByte(key: seq<Byte>, other: seq<Byte>, n: nat)
    requires n < |key| == |other| && n < N && Schedule(key, n) == Schedule(other, n)
    requires Schedule(key, n + 1).j == Schedule(other, n + 1).j
    ensures key[n] == other[n] && Schedule(key, n + 1) == Schedule(other, n + 1)
  {
    var p := Schedule(key, n);
    ModUnique(n, |key|, 0, n);
    SameResidue(p.j + p.s[n], key[n], other[n]);
  }

  /** The index `j` after each round gives the key away: two keys of one length that lead to the same indices
      are the same. */
  lemma {:induction false} RoundsGiveKey(key: seq<Byte>, other: seq<Byte>, n: nat)
    requires n <= |key| == |other| && key != [] && n <= N
    requires forall t: nat :: t <= n ==> Schedule(key, t).j == Schedule(other, t).j
    ensures key[..n] == other[..n] && Schedule(key, n) == Schedule(other, n)
  {
    if n > 0 {
      RoundsGiveKey(key, other, n - 1);
      RoundGivesByte(key, other, n - 1);
      assert key[..n] == key[..n - 1] + [key[n - 1]] && other[..n] == other[..n - 1] + [other[n - 1]];
    }
  }

  lemma HalfResidue(i: nat, n: nat, q: nat, r: nat)
    requires n > 0 && i == q * (n + n) + r && r < n + n
    ensures i % n == if r < n then r else r - n
  {
    if r < n { ModUnique(i, n, 2 * q, r); } else { ModUnique(i, n, 2 * q + 1, r - n); }
  }

  lemma RepeatedAt(key: seq<Byte>, i: nat)
    requires key != []
    ensures (key + key)[i % |key + key|] == key[i % |key|]
  {
    var n := |key|;
    HalfResidue(i, n, i / (n + n), i % (n + n));
  }

  /** A key and the same key written twice have the same schedule. */
  lemma {:induction false} KeyRepeats(key: seq<Byte>, t: nat)
    requires key != [] && t <= N
    ensures Schedule(key + key, t) == Schedule(key, t)
  {
    if t > 0 {
      KeyRepeats(key, t - 1);
      RepeatedAt(key, t - 1);
    }
  }

  /** The bias of the second byte (Mantin and Shamir): a table with 0 at place 2 and anything but 2 at place 1
      yields 0 there. */
  lemma SecondByte(s: Table)
    requires s[2] == 0 && s[1] != 2
    ensures KeyByte(Next(State(0, 0, s))) == 0
  {
    var x := s[1];
    var a := Next(State(0, 0, s));
    assert a.i == 1 && a.j == x;
    var b := Next(a);
    assert b.i == 2 && a.s[2] == 0 && b.j == x;
  }

  // ---- the table stays a permutation of 0..255 ----

  ghost predicate Permutation(s: Table) {
    forall a, b :: 0 <= a < b < N ==> s[a] != s[b]
  }

  lemma ExchangePermutes(s: Table, a: Byte, b: Byte)
    requires Permutation(s)
    ensures Permutation(Exchange(s, a, b))
    ensures multiset(Exchange(s, a, b)) == multiset(s)
  {
  }

  lemma {:induction false} SchedulePermutes(key: seq<Byte>, t: nat)
    requires key != [] && t <= N
    ensures Permutation(Schedule(key, t).s)
  {
    if t > 0 {
      SchedulePermutes(key, t - 1);
      var p := Schedule(key, t - 1);
      ExchangePermutes(p.s, t - 1, (p.j + p.s[t - 1] + key[(t - 1) % |key|]) % N);
    }
  }

  /** From any key on, over every stream. */
  lemma {:induction false} StreamPermutes(key: seq<Byte>, n: nat)
    requires key != []
    ensures Permutation(After(Keyed(key), n).s)
  {
    if n == 0 {
      SchedulePermutes(key, N);
    } else {
      StreamPermutes(key, n - 1);
      var p := After(Keyed(key), n - 1);
      ExchangePermutes(p.s, Next(p).i, Next(p).j);
    }
  }

  // ---- streams ----

  lemma AfterAdd(st: State, m: nat, n: nat)
    ensures After(After(st, m), n) == After(st, m + n)
  {
    IterateAdd(Next, st, m, n);
  }

  /** A stream may be cut anywhere. */
  lemma CryptConcat(st: State, a: seq<Byte>, b: seq<Byte>)
    ensures Crypt(st, a + b) == Crypt(st, a) + Crypt(After(st, |a|), b)
  {
    OutputsAdd(Next, KeyByte, st, |a|, |b|);
    XorConcat(Keystream(st, |a|), Keystream(After(st, |a|), |b|), a, b);
  }

  /** An encryptor begins behind the first 1024 bytes of its key's stream. */
  lemma FreshSkips(key: seq<Byte>, n: nat)
    requires key != []
    ensures Keystream(Fresh(key), n) == Keystream(Keyed(key), 1024 + n)[1024..]
  {
    OutputsAdd(Next, KeyByte, Keyed(key), 1024, n);
  }

  lemma CryptAt(st: State, data: seq<Byte>, k: nat)
    requires k < |data|
    ensures Crypt(st, data)[k] == Xor(KeyByte(After(st, k)), data[k])
    ensures After(st, k + 1) == Next(After(st, k))
  {
    OutputsAt(Next, KeyByte, st, |data|, k);
  }

  /** The same stream applied again gives the data back. */
  lemma CryptTwice(st: State, data: seq<Byte>)
    ensures Crypt(st, Crypt(st, data)) == data
  {
    XorTwice(Keystream(st, |data|), data);
  }

  function Joined(chunks: seq<seq<Byte>>): seq<Byte> {
    if chunks == [] then [] else Joined(chunks[..|chunks| - 1]) + chunks[|chunks| - 1]
  }

  /** Chunks processed one call after the other. */
  function CryptChunks(st: State, chunks: seq<seq<Byte>>): seq<seq<Byte>> {
    if chunks == [] then [] else
      var n := |chunks| - 1;
      CryptChunks(st, chunks[..n]) + [Crypt(After(st, |Joined(chunks[..n])|), chunks[n])]
  }

  lemma {:induction false} ChunksJoin(st: State, chunks: seq<seq<Byte>>)
    ensures Joined(CryptChunks(st, chunks)) == Crypt(st, Joined(chunks))
  {
    if chunks != [] {
      var n := |chunks| - 1;
      var c, last := CryptChunks(st, chunks[..n]), Crypt(After(st, |Joined(chunks[..n])|), chunks[n]);
      ChunksJoin(st, chunks[..n]);
      CryptConcat(st, Joined(chunks[..n]), chunks[n]);
      assert (c + [last])[..|c|] == c;
      assert Joined(c + [last]) == Joined(c) + last;
    }
  }

  /** Whatever the sender's chunks and whatever chunks the receiver gets the bytes in, the receiver
      recovers the sender's bytes. */
  lemma StreamRecovered(st: State, sent: seq<seq<Byte>>, received: seq<seq<Byte>>)
    requires Joined(received) == Joined(CryptChunks(st, sent))
    ensures Joined(CryptChunks(st, received)) == Joined(sent)
  {
    ChunksJoin(st, sent);
    ChunksJoin(st, received);
    CryptTwice(st, Joined(sent));
  }

  // ---- the objects ----

  class RC4 {
    var i: Byte
    var j: Byte
    const s: array<Byte>

    ghost predicate Valid()
      reads this
    {
      s.Length == N
    }

    ghost function St(): State
      requires Valid()
      reads this, s
    {
      State(i, j, s[..])
    }

    constructor (key: seq<Byte>)
      requires key != []
      ensures Valid() && fresh(s) && St() == Keyed(key)
    {
      s := new Byte[N];
      i, j := 0, 0;
      new;
      for t := 0 to N
        invariant i == 0 && j == 0 && forall k :: 0 <= k < t ==> s[k] == k
      {
        s[t] := t;
      }
      assert s[..] == Schedule(key, 0).s;
      for t := 0 to N
        invariant St() == Schedule(key, t)
      {
        j := (j + s[t] + key[t % |key|]) % N;
        s[t], s[j] := s[j], s[t];
        assert s[..] == Schedule(key, t + 1).s;
      }
      i, j := 0, 0;
    }

    method ProcessByte(b: Byte) returns (r: Byte)
      requires Valid()
      modifies this, s
      ensures St() == Next(old(St()))
      ensures r == Xor(KeyByte(old(St())), b)
    {
      ghost var st := St();
      i := (i + 1) % N;
      j := (j + s[i]) % N;
      s[i], s[j] := s[j], s[i];
      assert s[..] == Next(st).s;
      var at := (s[i] + s[j]) % N;
      assert s[at] == KeyByte(st);
      return Xor(s[at], b);
    }

    /** `in` and `out` may be the same buffer; what it held does not matter to the state. */
    method Process(inBuf: array<Byte>, out: array<Byte>, from: nat, size: nat)
      requires Valid() && from + size <= inBuf.Length && from + size <= out.Length
      requires s != inBuf && s != out
      modifies this, s, out
      ensures St() == After(old(St()), size)
      ensures out[from..from + size] == Crypt(old(St()), old(inBuf[from..from + size]))
      ensures forall x :: 0 <= x < out.Length && !(from <= x < from + size) ==> out[x] == old(out[x])
    {
      ghost var st, data := St(), inBuf[from..from + size];
      ghost var cipher := Crypt(st, data);
      for k := 0 to size
        invariant St() == After(st, k)
        invariant forall x :: from <= x < from + k ==> out[x] == cipher[x - from]
        invariant forall x :: 0 <= x < out.Length && !(from <= x < from + k) ==> out[x] == old(out[x])
        invariant forall x :: from + k <= x < from + size ==> inBuf[x] == old(inBuf[x])
      {
        CryptAt(st, data, k);
        var b := inBuf[from + k];
        assert b == data[k];
        b := ProcessByte(b);
        assert b == cipher[k];
        out[from + k] := b;
      }
    }
  }

  /** The state of a stream after `pos` bytes. */
  ghost predicate StandsAt(st: State, key: Key, pos: nat) {
    st == After(Fresh(key), pos)
  }

  lemma MovesOn(st: State, key: Key, pos: nat, n: nat)
    requires StandsAt(st, key, pos)
    ensures StandsAt(After(st, n), key, pos + n)
  {
    AfterAdd(Fresh(key), pos, n);
  }

  lemma FromStart(data: array<Byte>, len: nat)
    requires len <= data.Length
    ensures data[0..len] == data[..len] && data[..data.Length] == data[..]
  {
  }

  class RC4Encryptor {
    const enc: RC4
    const dec: RC4
    // where the two streams stand
    ghost const encKey: Key
    ghost const decKey: Key
    ghost var encPos: nat
    ghost var decPos: nat

    ghost predicate Valid()
      reads this, enc, dec, enc.s, dec.s
    {
      && enc.Valid() && dec.Valid() && enc != dec && enc.s != dec.s
      && StandsAt(enc.St(), encKey, encPos) && StandsAt(dec.St(), decKey, decPos)
    }

    /** Both streams start 1024 bytes in, whatever the scratch buffer held. */
    constructor (dk: Key, ek: Key)
      ensures Valid() && fresh(enc) && fresh(dec) && fresh(enc.s) && fresh(dec.s)
      ensures encKey == ek && decKey == dk && encPos == 0 && decPos == 0
    {
      enc := new RC4(ek);
      dec := new RC4(dk);
      encKey, decKey, encPos, decPos := ek, dk, 0, 0;
      new;
      var tmp := new Byte[DISCARD];
      enc.Process(tmp, tmp, 0, DISCARD);
      dec.Process(tmp, tmp, 0, DISCARD);
    }

    /** In place. */
    method Decrypt(data: array<Byte>, from: nat, len: nat)
      requires Valid() && from + len <= data.Length && data != enc.s && data != dec.s
      modifies this`decPos, dec, dec.s, data
      ensures Valid() && decPos == old(decPos) + len
      ensures data[from..from + len] == Crypt(old(dec.St()), old(data[from..from + len]))
      ensures data[..from] == old(data[..from]) && data[from + len..] == old(data[from + len..])
    {
      MovesOn(dec.St(), decKey, decPos, len);
      dec.Process(data, data, from, len);
      decPos := decPos + len;
    }

    method EncryptInto(data: array<Byte>, len: nat) returns (out: array<Byte>)
      requires Valid() && len <= data.Length && data != enc.s && data != dec.s
      modifies this`encPos, enc, enc.s
      ensures Valid() && fresh(out) && out.Length == len && encPos == old(encPos) + len
      ensures out[0..len] == Crypt(old(enc.St()), old(data[0..len]))
    {
      ghost var e, d := enc.St(), dec.St();
      out := new Byte[len];
      enc.Process(data, out, 0, len);
      encPos := encPos + len;
      assert enc.St() == After(e, len);
      assert dec.St() == d;
      MovesOn(e, encKey, old(encPos), len);
    }

    /** Into a buffer of its own. */
    method Encrypt(data: array<Byte>, len: nat) returns (out: array<Byte>)
      requires Valid() && len <= data.Length && data != enc.s && data != dec.s
      modifies this`encPos, enc, enc.s
      ensures Valid() && fresh(out) && encPos == old(encPos) + len
      ensures out[..] == Crypt(old(enc.St()), old(data[..len]))
    {
      FromStart(data, len);
      out := EncryptInto(data, len);
      FromStart(out, len);
    }
  }
}
