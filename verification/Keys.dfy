/** 160-bit DHT keys as 20 big-endian bytes: numeric order, XOR distance, bucket index
    (libktorrent/kademlia/key.cpp and the key arithmetic of node.cpp). */
module Keys {
  import opened Bytes

  type Key = k: seq<Byte> | |k| == 20
    witness [0,0,0,0,0, 0,0,0,0,0, 0,0,0,0,0, 0,0,0,0,0]

  /** SHA-1, of which nothing is assumed. */
  type Hash = seq<Byte> -> Key

  /** The number a big-endian byte string denotes. */
  function Val(s: seq<Byte>): nat {
    if s == [] then 0 else Val(s[..|s| - 1]) * 256 + s[|s| - 1]
  }

  lemma {:induction false} ValBound(s: seq<Byte>)
    ensures Val(s) < Pow2(8 * |s|)
  {
    if s != [] {
      ValBound(s[..|s| - 1]);
      Pow2Add(8, 8 * (|s| - 1));
      SmallPowers();
    }
  }

  /** Two strings first differing at byte `i` are ordered by that byte. */
  lemma {:induction false} FirstDifferenceDecides(a: seq<Byte>, b: seq<Byte>, i: nat)
    requires |a| == |b| && i < |a| && a[..i] == b[..i]
    requires a[i] < b[i]
    ensures Val(a) < Val(b)
  {
    var n := |a| - 1;
    if i < n {
      assert a[..n][..i] == a[..i] && b[..n][..i] == b[..i];
      FirstDifferenceDecides(a[..n], b[..n], i);
    }
  }

  lemma {:induction false} ValInjective(a: seq<Byte>, b: seq<Byte>)
    requires |a| == |b| && Val(a) == Val(b)
    ensures a == b
  {
    if a != [] {
      var n := |a| - 1;
      assert a == a[..n] + [a[n]] && b == b[..n] + [b[n]];
      ValInjective(a[..n], b[..n]);
    }
  }

  lemma {:induction false} ZeroVal(s: seq<Byte>)
    requires forall i :: 0 <= i < |s| ==> s[i] == 0
    ensures Val(s) == 0
  {
    if s != [] { ZeroVal(s[..|s| - 1]); }
  }

  /** `operator <`: the bytewise scan decides exactly the numeric order. */
  method LessThan(a: Key, b: Key) returns (r: bool)
    ensures r <==> Val(a) < Val(b)
  {
    for i := 0 to 20
      invariant a[..i] == b[..i]
    {
      if a[i] < b[i] {
        FirstDifferenceDecides(a, b, i);
        return true;
      } else if a[i] > b[i] {
        FirstDifferenceDecides(b, a, i);
        return false;
      }
    }
    assert a == a[..20] && b == b[..20];
    return false;
  }

  /** `operator >` scans the same bytes with the answers exchanged. */
  method GreaterThan(a: Key, b: Key) returns (r: bool)
    ensures r <==> Val(a) > Val(b)
  {
    for i := 0 to 20
      invariant a[..i] == b[..i]
    {
      if a[i] < b[i] {
        FirstDifferenceDecides(a, b, i);
        return false;
      } else if a[i] > b[i] {
        FirstDifferenceDecides(b, a, i);
        return true;
      }
    }
    assert a == a[..20] && b == b[..20];
    return false;
  }

  /** `Key::distance`: the XOR metric. */
  function Distance(a: Key, b: Key): Key {
    seq(20, i requires 0 <= i < 20 => Xor(a[i], b[i]))
  }

  lemma DistanceMetric(a: Key, b: Key)
    ensures Distance(a, b) == Distance(b, a)
    ensures Val(Distance(a, b)) == 0 <==> a == b
  {
    var d := Distance(a, b);
    forall i | 0 <= i < 20
      ensures d[i] == Distance(b, a)[i] && (d[i] == 0 <==> a[i] == b[i])
    {
      XorCancels(a[i], b[i]);
    }
    var z := seq(20, _ => 0);
    ZeroVal(z);
    if Val(d) == 0 {
      ValInjective(d, z);
      assert forall i :: 0 <= i < 20 ==> d[i] == z[i];
    }
    if a == b { ZeroVal(d); }
  }

  /** Seen from one key, distinct keys lie at distinct distances. */
  lemma DistanceInjective(k: Key, a: Key, b: Key)
    requires Distance(k, a) == Distance(k, b)
    ensures a == b
  {
    forall i | 0 <= i < 20 ensures a[i] == b[i] {
      assert Distance(k, a)[i] == Distance(k, b)[i];
      XorCancels(k[i], a[i]);
      XorCancels(k[i], b[i]);
    }
  }

  /** Position of the highest set bit of a positive number. */
  function TopBit(n: nat): nat
    requires n >= 1
  {
    if n == 1 then 0 else 1 + TopBit(n / 2)
  }

  lemma {:induction false} TopBitRange(n: nat)
    requires n >= 1
    ensures Pow2(TopBit(n)) <= n < Pow2(TopBit(n) + 1)
  {
    if n > 1 { TopBitRange(n / 2); }
  }

  lemma TopBitUnique(n: nat, i: nat)
    requires Pow2(i) <= n < Pow2(i + 1)
    ensures TopBit(n) == i
  {
    TopBitRange(n);
    if TopBit(n) < i { Pow2Monotone(TopBit(n) + 1, i); }
    if i < TopBit(n) { Pow2Monotone(i + 1, TopBit(n)); }
  }

  /** The bucket a contact belongs to, as a number: 0xFF when there is none. */
  function BucketOf(ourId: Key, id: Key): nat {
    var d := Val(Distance(id, ourId));
    if d == 0 then 0xFF else TopBit(d)
  }

  /** Bucket `i` holds exactly the ids whose XOR with ours lies in [2^i, 2^(i+1)); only our own
      id has no bucket. */
  lemma BucketMeaning(ourId: Key, id: Key)
    ensures BucketOf(ourId, id) == 0xFF <==> id == ourId
    ensures id != ourId ==> BucketOf(ourId, id) < 160
    ensures forall i: nat :: i < 160 ==>
              (BucketOf(ourId, id) == i <==> Pow2(i) <= Val(Distance(id, ourId)) < Pow2(i + 1))
  {
    var d := Distance(id, ourId);
    DistanceMetric(id, ourId);
    if id != ourId {
      TopBitRange(Val(d));
      ValBound(d);
      if TopBit(Val(d)) >= 160 { Pow2Monotone(160, TopBit(Val(d))); }
    }
    forall i: nat | i < 160 && Pow2(i) <= Val(d) < Pow2(i + 1) ensures TopBit(Val(d)) == i {
      TopBitUnique(Val(d), i);
    }
  }

  /** A number whose first nonzero byte is at `i` and has top bit `7 - j`. */
  lemma {:induction false} TopBitOfBytes(d: seq<Byte>, i: nat, j: nat)
    requires i < |d| && j < 8
    requires forall k :: 0 <= k < i ==> d[k] == 0
    requires Pow2(7 - j) <= d[i] < Pow2(8 - j)
    ensures Pow2((|d| - 1 - i) * 8 + (7 - j)) <= Val(d) < Pow2((|d| - 1 - i) * 8 + (8 - j))
    ensures TopBit(Val(d)) == (|d| - 1 - i) * 8 + (7 - j)
  {
    var n := |d| - 1;
    var e := (n - i) * 8 + (7 - j);
    if i == n {
      ZeroVal(d[..n]);
    } else {
      TopBitOfBytes(d[..n], i, j);
      SmallPowers();
      Pow2Add(8, e - 8);
      Pow2Add(8, e - 7);
    }
    TopBitUnique(Val(d), e);
  }

  /** `Node::findBucket`: two nested scans for the first bit that is on. */
  method FindBucket(ourId: Key, id: Key) returns (bitOn: nat)
    ensures bitOn == BucketOf(ourId, id)
  {
    var d := Distance(id, ourId);
    for i := 0 to 20
      invariant forall k :: 0 <= k < i ==> d[k] == 0
    {
      var b := d[i];
      if b == 0 { continue; }
      SmallPowers();
      for j := 0 to 8
        invariant b < Pow2(8 - j)
      {
        MaskTest(b, j);
        TopBitTest(7 - j, b);
        if And(b, Mask(j)) != 0 {
          TopBitOfBytes(d, i, j);
          return (19 - i) * 8 + (7 - j);
        }
      }
      assert false;
    }
    ZeroVal(d);
    return 0xFF;
  }

  /** XOR of two bytes that agree on the `r` top digits and differ on the next one. */
  lemma XorFirstDifference(x: Byte, y: Byte, r: nat)
    requires r < 8
    requires forall k :: 7 - r < k < 8 ==> Bit(x, k) == Bit(y, k)
    requires Bit(x, 7 - r) != Bit(y, 7 - r)
    ensures Pow2(7 - r) <= Xor(x, y) < Pow2(8 - r)
  {
    var d := Xor(x, y);
    SmallPowers();
    forall k | 0 <= k < 8 ensures Bit(d, k) == (Bit(x, k) != Bit(y, k)) { XorBit(x, y, k); }
    HighBitsOff(8, 8 - r, d);
    TopBitTest(7 - r, d);
  }

  /** `RandomKeyInBucket`: `fill` is what `Key::random` returned.  It copies the first `b` bits of
      our id and flips the next one, counting from the top, so the key it makes lies in the bucket
      counted from the other end. */
  method RandomKeyInBucket(b: nat, ourId: Key, fill: Key) returns (key: Key)
    requires b < 160
    ensures BucketOf(ourId, key) == 159 - b
    ensures BucketOf(ourId, key) != b
  {
    var data := new Byte[20](i requires 0 <= i < 20 => fill[i]);
    var nb, r := b / 8, b % 8;
    for i := 0 to nb
      invariant forall k :: 0 <= k < i ==> data[k] == ourId[k]
    {
      data[i] := ourId[i];
    }
    var ob := ourId[nb];
    for j := 0 to r
      invariant forall k :: 0 <= k < nb ==> data[k] == ourId[k]
      invariant forall k :: 7 - j < k < 8 ==> Bit(data[nb], k) == Bit(ob, k)
    {
      data[nb] := CopyBit(data[nb], ob, j);
    }
    MaskTest(ob, r);
    forall k | 0 <= k < 8 { MaskUpdate(data[nb], r, k); }
    if And(ob, Mask(r)) != 0 {
      data[nb] := And(data[nb], NotMask(r));
    } else {
      data[nb] := Or(data[nb], Mask(r));
    }
    key := data[..];
    var d := Distance(key, ourId);
    forall k | 0 <= k < nb ensures d[k] == 0 { XorCancels(key[k], ourId[k]); }
    XorFirstDifference(key[nb], ob, r);
    TopBitOfBytes(d, nb, r);
  }

  /** The loop body that makes digit `7 - j` of `x` that of `ob`. */
  function CopyBit(x: Byte, ob: Byte, j: nat): (y: Byte)
    requires j < 8
    ensures forall k :: 0 <= k < 8 ==> Bit(y, k) == Bit(if k == 7 - j then ob else x, k)
  {
    MaskTest(ob, j);
    assert forall k :: 0 <= k < 8 ==>
      && Bit(Or(x, Mask(j)), k) == (Bit(x, k) || k == 7 - j)
      && Bit(And(x, NotMask(j)), k) == (Bit(x, k) && k != 7 - j) by {
      forall k | 0 <= k < 8 { MaskUpdate(x, j, k); }
    }
    if And(ob, Mask(j)) != 0 then Or(x, Mask(j)) else And(x, NotMask(j))
  }
}
