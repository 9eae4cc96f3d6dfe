/** Key agreement of the stream encryption: modular powers, export of big numbers, derived keys
    (libktorrent/mse/functions.cpp, bigint.cpp:62-98). */
module DiffieHellman {
  import opened Bytes
  import opened Keys

  const P: nat := 0xFFFFFFFFFFFFFFFFC90FDAA22168C234C4C6628B80DC1CD129024E088A67CC74020BBEA63B139B22514A08798E3404DDEF9519B3CD3A431B302B0A6DF25F14374FE1356D6D51C245E485B576625E7EC6F44C42E9A63A36210000000000090563
  const G: nat := 2

  function Pow(x: nat, e: nat): nat {
    if e == 0 then 1 else x * Pow(x, e - 1)
  }

  /** `mpz_powm`. */
  function PowerMod(x: nat, e: nat, m: nat): nat
    requires m > 0
  {
    Pow(x, e) % m
  }

  lemma ModOfProduct(a: nat, b: nat, m: nat)
    requires m > 0
    ensures (a * b) % m == ((a % m) * b) % m
  {
    var q, r := a / m, a % m;
    var p, t := (r * b) / m, (r * b) % m;
    assert a == q * m + r;
    assert a * b == (q * m) * b + r * b;
    assert (q * m) * b == (q * b) * m;
    assert a * b == (q * b + p) * m + t;
    ModUnique(a * b, m, q * b + p, t);
  }

  lemma {:induction false} PowOfMod(x: nat, e: nat, m: nat)
    requires m > 0
    ensures Pow(x % m, e) % m == Pow(x, e) % m
  {
    if e > 0 {
      var y := x % m;
      var p, q := Pow(y, e - 1), Pow(x, e - 1);
      PowOfMod(x, e - 1, m);
      ModOfProduct(p, y, m);
      ModOfProduct(q, y, m);
      ModOfProduct(x, q, m);
      assert Pow(y, e) == p * y && y * q == q * y && Pow(x, e) == x * q;
    }
  }

  lemma {:induction false} PowAdd(x: nat, a: nat, b: nat)
    ensures Pow(x, a + b) == Pow(x, a) * Pow(x, b)
  {
    if a > 0 {
      PowAdd(x, a - 1, b);
      var p, q := Pow(x, a - 1), Pow(x, b);
      assert Pow(x, a + b) == x * Pow(x, a - 1 + b);
      assert x * (p * q) == (x * p) * q;
    }
  }

  lemma {:induction false} PowOfPow(x: nat, a: nat, b: nat)
    ensures Pow(Pow(x, a), b) == Pow(x, a * b)
  {
    if b == 0 {
      assert a * b == 0;
    } else {
      PowOfPow(x, a, b - 1);
      PowAdd(x, a, a * (b - 1));
      assert a * b == a + a * (b - 1);
    }
  }

  /** Both peers raise the other's public value to their own exponent and get the same secret. */
  lemma SecretsAgree(g: nat, xa: nat, xb: nat, m: nat)
    requires m > 0
    ensures PowerMod(PowerMod(g, xb, m), xa, m) == PowerMod(PowerMod(g, xa, m), xb, m) == Pow(g, xa * xb) % m
  {
    PowOfMod(Pow(g, xb), xa, m);
    PowOfMod(Pow(g, xa), xb, m);
    PowOfPow(g, xb, xa);
    PowOfPow(g, xa, xb);
    assert xa * xb == xb * xa;
  }

  // ---- export ----

  const KEY_BYTES: nat := 96

  /** `mpz_export` writes as many bytes as the number needs, most significant first. */
  function ToBytes(v: nat): seq<Byte> {
    if v == 0 then [] else ToBytes(v / 256) + [v % 256]
  }

  lemma {:induction false} ToBytesValue(v: nat)
    ensures Val(ToBytes(v)) == v
  {
    if v > 0 {
      ToBytesValue(v / 256);
      assert ToBytes(v)[..|ToBytes(v)| - 1] == ToBytes(v / 256);
    }
  }

  lemma {:induction false} ToBytesLength(v: nat, n: nat)
    ensures |ToBytes(v)| <= n <==> v < Pow2(8 * n)
    decreases n, v
  {
    if v > 0 && n > 0 {
      ToBytesLength(v / 256, n - 1);
      Pow2Add(8, 8 * (n - 1));
      SmallPowers();
    }
  }

  /** `toBuffer(buf,96)` over a buffer that held `fill`: there is no padding on the left. */
  function Export(v: nat, fill: seq<Byte>): (r: seq<Byte>)
    requires |fill| == KEY_BYTES
    ensures |r| == KEY_BYTES
  {
    var b := ToBytes(v);
    if |b| <= KEY_BYTES then b + fill[|b|..] else b[..KEY_BYTES]
  }

  /** The number fills the buffer. */
  predicate Full(v: nat) {
    |ToBytes(v)| == KEY_BYTES
  }

  lemma FullMeansBig(v: nat)
    ensures Full(v) <==> Pow2(760) <= v < Pow2(768)
  {
    ToBytesLength(v, KEY_BYTES);
    ToBytesLength(v, KEY_BYTES - 1);
    assert 8 * KEY_BYTES == 768 && 8 * (KEY_BYTES - 1) == 760;
  }

  lemma {:induction false} ValExtend(a: seq<Byte>, b: seq<Byte>)
    ensures Val(a + b) >= Val(a)
    ensures b != [] && Val(a) > 0 ==> Val(a + b) > Val(a)
  {
    if b == [] {
      assert a + b == a;
    } else {
      var n := |b| - 1;
      assert (a + b)[..|a + b| - 1] == a + b[..n];
      ValExtend(a, b[..n]);
    }
  }

  /** A value reaches the peer unchanged exactly when it fills the 96 bytes (or is 0, of which nothing is written,
      over a buffer of zeros). */
  lemma ExportReadBack(v: nat, fill: seq<Byte>)
    requires |fill| == KEY_BYTES && v < Pow2(768)
    ensures Val(Export(v, fill)) == v <==> Full(v) || (v == 0 && Val(fill) == 0)
  {
    ToBytesValue(v);
    ToBytesLength(v, KEY_BYTES);
    var b := ToBytes(v);
    ValExtend(b, fill[|b|..]);
    if Full(v) { assert Export(v, fill) == b; }
    if v == 0 { assert Export(v, fill) == fill; }
  }

  /** Two sides write the same number alike exactly when what they leave of their buffers is alike. */
  lemma ExportAlike(v: nat, fa: seq<Byte>, fb: seq<Byte>)
    requires |fa| == KEY_BYTES && |fb| == KEY_BYTES && v < Pow2(768)
    ensures |ToBytes(v)| <= KEY_BYTES
    ensures Export(v, fa) == Export(v, fb) <==> fa[|ToBytes(v)|..] == fb[|ToBytes(v)|..]
  {
    ToBytesLength(v, KEY_BYTES);
    var b := ToBytes(v);
    if Export(v, fa) == Export(v, fb) {
      assert Export(v, fa)[|b|..] == fa[|b|..] && Export(v, fb)[|b|..] == fb[|b|..];
    }
  }

  /** A full number is exported the same way over any buffer. */
  lemma ExportFull(v: nat, fill: seq<Byte>)
    requires |fill| == KEY_BYTES && Full(v)
    ensures Export(v, fill) == ToBytes(v) && Val(Export(v, fill)) == v
  {
    ToBytesValue(v);
    assert Export(v, fill) == ToBytes(v);
  }

  // ---- keys ----

  /** `EncryptionKey(a, s, skey)`, the secret given as its 96-byte export. */
  function EncryptionKey(sha: Hash, a: bool, secret: seq<Byte>, skey: Key): Key {
    sha([107, 101, 121, if a then 65 else 66] + secret + skey)
  }

  /** Two keys are the same whatever the hash only if they are for one direction, one secret and one torrent. */
  lemma KeysDiffer(a: bool, b: bool, s: seq<Byte>, t: seq<Byte>, k: Key, l: Key)
    requires |s| == |t| == KEY_BYTES
    ensures (forall sha: Hash :: EncryptionKey(sha, a, s, k) == EncryptionKey(sha, b, t, l)) <==>
            a == b && s == t && k == l
  {
    var x: seq<Byte> := [107, 101, 121, if a then 65 else 66] + s + k;
    var y: seq<Byte> := [107, 101, 121, if b then 65 else 66] + t + l;
    if forall sha: Hash :: EncryptionKey(sha, a, s, k) == EncryptionKey(sha, b, t, l) {
      var zeros: Key := seq(20, _ => 0);
      var ones: Key := seq(20, _ => 1);
      var sha: Hash := z => if z == x then zeros else ones;
      assert EncryptionKey(sha, a, s, k) == zeros && EncryptionKey(sha, b, t, l) == sha(y);
      assert zeros[0] != ones[0];
      assert x == y && x[3] == y[3];
      assert x[4..100] == s && y[4..100] == t;
      assert x[100..] == k && y[100..] == l;
    }
  }

  /** `DHSecret`. */
  function Secret(priv: nat, peerPub: nat): nat {
    PowerMod(peerPub, priv, P)
  }

  function Public(priv: nat): nat {
    PowerMod(G, priv, P)
  }

  lemma PowersOfTwo()
    ensures Pow2(256) == 0x1_0000000000000000000000000000000000000000000000000000000000000000
    ensures Pow2(768) == Pow2(256) * Pow2(256) * Pow2(256)
    ensures Pow2(768) == 256 * Pow2(760)
  {
    SmallPowers();
    Pow2Add(8, 8);
    Pow2Add(16, 16);
    Pow2Add(32, 32);
    Pow2Add(64, 64);
    Pow2Add(128, 128);
    Pow2Add(256, 256);
    Pow2Add(512, 256);
    Pow2Add(8, 760);
  }

  lemma PublicBelow(x: nat, e: nat)
    ensures PowerMod(x, e, P) < Pow2(768)
    ensures Pow2(760) < P
  {
    PowersOfTwo();
  }

  /** When both public values fill the buffer, both sides compute the same secret, and hash the same bytes exactly
      when they leave the same behind it: always if the secret fills the buffer too. */
  lemma BothPeersAgree(xa: nat, xb: nat, fillA: seq<Byte>, fillB: seq<Byte>)
    requires |fillA| == KEY_BYTES && |fillB| == KEY_BYTES && Full(Public(xa)) && Full(Public(xb))
    ensures var sa, sb := Secret(xa, Val(Export(Public(xb), fillB))), Secret(xb, Val(Export(Public(xa), fillA)));
            var n := |ToBytes(sa)|;
            && sa == sb == Pow(2, xa * xb) % P && n <= KEY_BYTES
            && (Export(sa, fillA) == Export(sb, fillB) <==> fillA[n..] == fillB[n..])
            && (Full(sa) ==> Export(sa, fillA) == Export(sb, fillB))
  {
    ExportFull(Public(xa), fillA);
    ExportFull(Public(xb), fillB);
    SecretsAgree(G, xa, xb, P);
    var s := Secret(xa, Public(xb));
    PublicBelow(Public(xb), xa);
    ExportAlike(s, fillA, fillB);
    if Full(s) { assert fillA[|ToBytes(s)|..] == [] == fillB[|ToBytes(s)|..]; }
  }

  lemma {:induction false} PowIsPow2(e: nat)
    ensures Pow(2, e) == Pow2(e)
  {
    if e > 0 { PowIsPow2(e - 1); }
  }

  /** An exponent that makes a public value too short to be understood: any below 760. */
  lemma SmallExponentMisread(e: nat, fill: seq<Byte>)
    requires e < 760 && |fill| == KEY_BYTES
    ensures Public(e) == Pow2(e) && !Full(Public(e)) && Val(Export(Public(e), fill)) != Public(e)
  {
    PowIsPow2(e);
    Pow2Monotone(e, 759);
    assert Pow2(760) == 2 * Pow2(759);
    PublicBelow(2, e);
    ModUnique(Pow2(e), P, 0, Pow2(e));
    FullMeansBig(Public(e));
    ExportReadBack(Public(e), fill);
  }

  /** 760 is the first that does not. */
  lemma FirstFullExponent()
    ensures Public(760) == Pow2(760) && Full(Public(760))
  {
    PowIsPow2(760);
    PowersOfTwo();
    PublicBelow(2, 760);
    ModUnique(Pow2(760), P, 0, Pow2(760));
    FullMeansBig(Public(760));
  }
}
