/** `KClosestNodesSearch`: the bounded search for the closest contacts by XOR distance
    (libktorrent/kademlia/kclosestnodessearch.cpp). */
module KClosest {
  import opened Keys
  import opened Contacts

  /** The key a contact is filed under. */
  function Dist(key: Key, e: Entry): Key {
    Distance(key, e.node.id)
  }

  ghost predicate IsLast(s: set<Key>, k: Key) {
    k in s && forall x :: x in s ==> Val(x) <= Val(k)
  }

  lemma {:induction false} HasLast(s: set<Key>)
    requires s != {}
    ensures exists k :: IsLast(s, k)
  {
    var x :| x in s;
    if s == {x} {
      assert IsLast(s, x);
    } else {
      var rest := s - {x};
      assert s == rest + {x} && rest != {};
      HasLast(rest);
      var y :| IsLast(rest, y);
      assert IsLast(s, if Val(x) <= Val(y) then y else x);
    }
  }

  /** The key of the last element of the sorted map. */
  ghost function Last(s: set<Key>): (k: Key)
    requires s != {}
    ensures IsLast(s, k)
  {
    HasLast(s);
    var k :| IsLast(s, k); k
  }

  lemma LastUnique(s: set<Key>, k: Key)
    requires IsLast(s, k)
    ensures k == Last(s)
  {
    ValInjective(k, Last(s));
  }

  /** `std::map::insert` leaves an existing mapping alone. */
  function Insert(m: map<Key, Entry>, d: Key, e: Entry): map<Key, Entry> {
    if d in m then m else m[d := e]
  }

  /** The search map after one offer. */
  ghost function Offer(key: Key, max: nat, m: map<Key, Entry>, e: Entry): map<Key, Entry>
    requires max >= 1
  {
    var d := Dist(key, e);
    if |m| < max then Insert(m, d, e)
    else
      var last := Last(m.Keys);
      if Val(d) < Val(last) then Insert(m, d, e) - {last} else m
  }

  /** The search map after a sequence of offers. */
  ghost function OfferAll(key: Key, max: nat, m: map<Key, Entry>, es: seq<Entry>): map<Key, Entry>
    requires max >= 1
  {
    if es == [] then m
    else Offer(key, max, OfferAll(key, max, m, es[..|es| - 1]), es[|es| - 1])
  }

  lemma {:induction false} OfferAllConcat(key: Key, max: nat, m: map<Key, Entry>, es: seq<Entry>, fs: seq<Entry>)
    requires max >= 1
    ensures OfferAll(key, max, m, es + fs) == OfferAll(key, max, OfferAll(key, max, m, es), fs)
  {
    if fs == [] {
      assert es + fs == es;
    } else {
      assert (es + fs)[..|es + fs| - 1] == es + fs[..|fs| - 1];
      OfferAllConcat(key, max, m, es, fs[..|fs| - 1]);
    }
  }

  class KClosestNodesSearch {
    const key: Key
    const maxEntries: nat
    var emap: map<Key, Entry>

    constructor (key: Key, maxEntries: nat)
      ensures this.key == key && this.maxEntries == maxEntries && emap == map[]
    {
      this.key := key;
      this.maxEntries := maxEntries;
      emap := map[];
    }

    /** `emap.rbegin()->first`. */
    method LastKey() returns (last: Key)
      requires emap != map[]
      ensures IsLast(emap.Keys, last)
    {
      var rest := emap.Keys;
      last :| last in rest;
      rest := rest - {last};
      while rest != {}
        invariant rest <= emap.Keys && last in emap
        invariant forall x :: x in emap && x !in rest ==> Val(x) <= Val(last)
        decreases |rest|
      {
        var x :| x in rest;
        rest := rest - {x};
        var less := LessThan(last, x);
        if less { last := x; }
      }
    }

    method TryInsert(e: Entry)
      requires maxEntries >= 1
      modifies this
      ensures emap == Offer(key, maxEntries, old(emap), e)
    {
      var d := Distance(key, e.node.id);
      if |emap| < maxEntries {
        emap := Insert(emap, d, e);
      } else {
        var last := LastKey();
        LastUnique(emap.Keys, last);
        var closer := LessThan(d, last);
        if closer {
          emap := Insert(emap, d, e);
          emap := emap - {last};
        }
      }
    }

    /** `KBucket::findKClosestNodes`: offer every contact of a list. */
    method OfferEntries(entries: seq<Entry>)
      requires maxEntries >= 1
      modifies this
      ensures emap == OfferAll(key, maxEntries, old(emap), entries)
    {
      var i := 0;
      while i < |entries|
        invariant i <= |entries|
        invariant emap == OfferAll(key, maxEntries, old(emap), entries[..i])
      {
        assert entries[..i + 1][..i] == entries[..i];
        TryInsert(entries[i]);
        i := i + 1;
      }
      assert entries[..i] == entries;
    }
  }

  // ---- what a search computes ----

  /** All distances on offer. */
  ghost function Distances(key: Key, es: seq<Entry>): set<Key> {
    set e | e in es :: Dist(key, e)
  }

  function Min(a: nat, b: nat): nat { if a < b then a else b }

  /** `a` is the set of the `k` smallest members of `s` (of all of them, if there are fewer). */
  ghost predicate Closest(k: nat, s: set<Key>, a: set<Key>) {
    && a <= s
    && |a| == Min(k, |s|)
    && forall x, y :: x in s && x !in a && y in a ==> Val(y) < Val(x)
  }

  ghost predicate DistinctIds(es: seq<Entry>) {
    forall i, j :: 0 <= i < j < |es| ==> es[i].node.id != es[j].node.id
  }

  lemma CardinalitySubset(a: set<Key>, b: set<Key>)
    requires a <= b
    ensures |a| <= |b|
    ensures |a| == |b| ==> a == b
  {
    assert b == a + (b - a);
    assert |b| == |a| + |b - a|;
  }

  /** There is only one such set. */
  lemma ClosestUnique(k: nat, s: set<Key>, a: set<Key>, b: set<Key>)
    requires Closest(k, s, a) && Closest(k, s, b)
    ensures a == b
  {
    if a != b {
      if a <= b { CardinalitySubset(a, b); assert false; }
      if b <= a { CardinalitySubset(b, a); assert false; }
      var x :| x in a && x !in b;
      var y :| y in b && y !in a;
      assert false;
    }
  }

  /** The distances kept by one offer of distance `d`. */
  ghost function Keep(max: nat, a: set<Key>, d: Key): set<Key>
    requires max >= 1
  {
    if |a| < max then a + {d}
    else if Val(d) < Val(Last(a)) then a + {d} - {Last(a)} else a
  }

  lemma OfferKeys(key: Key, max: nat, m: map<Key, Entry>, e: Entry)
    requires max >= 1
    ensures Offer(key, max, m, e).Keys == Keep(max, m.Keys, Dist(key, e))
  {
    assert |m| == |m.Keys|;
    assert Insert(m, Dist(key, e), e).Keys == m.Keys + {Dist(key, e)};
  }

  lemma KeepWithRoom(max: nat, s: set<Key>, a: set<Key>, d: Key)
    requires Closest(max, s, a) && |a| < max
    ensures Closest(max, s + {d}, a + {d})
  {
    CardinalitySubset(a, s);
    assert a == s;
    assert |s + {d}| <= |s| + 1;
  }

  lemma KeepRepeated(max: nat, s: set<Key>, a: set<Key>, d: Key)
    requires max >= 1 && Closest(max, s, a) && |a| == max && d in a
    ensures Closest(max, s + {d}, Keep(max, a, d)) <==> d == Last(a)
  {
    assert s + {d} == s;
    ValInjectiveKeys(d, Last(a));
    if d != Last(a) {
      assert a + {d} - {Last(a)} == a - {Last(a)};
      assert |a - {Last(a)}| == max - 1;
    }
  }

  lemma KeepCloser(max: nat, s: set<Key>, a: set<Key>, d: Key)
    requires max >= 1 && Closest(max, s, a) && |a| == max && d !in a && Val(d) < Val(Last(a))
    ensures Closest(max, s + {d}, a + {d} - {Last(a)})
  {
    var last := Last(a);
    assert |a + {d}| == max + 1;
    assert |a + {d} - {last}| == max;
    CardinalitySubset(a + {d}, s + {d});
    forall x, y | x in s + {d} && x !in a + {d} - {last} && y in a + {d} - {last}
      ensures Val(y) < Val(x)
    {
      if y != d { ValInjectiveKeys(y, last); }
    }
  }

  lemma KeepFarther(max: nat, s: set<Key>, a: set<Key>, d: Key)
    requires max >= 1 && Closest(max, s, a) && |a| == max && d !in a && Val(d) >= Val(Last(a))
    ensures Closest(max, s + {d}, a)
  {
    CardinalitySubset(a, s + {d});
    forall x, y | x in s + {d} && x !in a && y in a ensures Val(y) < Val(x) {
      ValInjectiveKeys(d, y);
    }
  }

  /** One offer keeps "the map holds the closest so far" exactly when it is not a repeated
      distance, other than the last one, offered to a full map: there `insert` does nothing and the
      erase that follows loses the last entry. */
  lemma OfferKeepsClosest(key: Key, max: nat, s: set<Key>, m: map<Key, Entry>, e: Entry)
    requires max >= 1 && Closest(max, s, m.Keys)
    ensures Closest(max, s + {Dist(key, e)}, Offer(key, max, m, e).Keys)
        <==> !(|m| == max && Dist(key, e) in m && Dist(key, e) != Last(m.Keys))
  {
    var d, a := Dist(key, e), m.Keys;
    OfferKeys(key, max, m, e);
    if |a| < max { KeepWithRoom(max, s, a, d); }
    else if d in a { KeepRepeated(max, s, a, d); }
    else if Val(d) < Val(Last(a)) { KeepCloser(max, s, a, d); }
    else { KeepFarther(max, s, a, d); }
  }

  lemma ValInjectiveKeys(a: Key, b: Key)
    ensures Val(a) == Val(b) <==> a == b
  {
    if Val(a) == Val(b) { ValInjective(a, b); }
  }

  lemma DistancesSnoc(key: Key, es: seq<Entry>)
    requires es != []
    ensures Distances(key, es) == Distances(key, es[..|es| - 1]) + {Dist(key, es[|es| - 1])}
  {
    var n := |es| - 1;
    assert es == es[..n] + [es[n]];
  }

  /** The map holds only offered contacts, each under its own distance. */
  ghost predicate Sound(key: Key, max: nat, es: seq<Entry>, m: map<Key, Entry>) {
    |m| <= max && forall d :: d in m ==> m[d] in es && Dist(key, m[d]) == d
  }

  ghost predicate Nearest(s: set<Key>, d: Key) {
    d in s && forall x :: x in s ==> Val(d) <= Val(x)
  }

  lemma {:induction false} SearchIsSound(key: Key, max: nat, es: seq<Entry>)
    requires max >= 1
    ensures Sound(key, max, es, OfferAll(key, max, map[], es))
  {
    if es != [] {
      var n := |es| - 1;
      SearchIsSound(key, max, es[..n]);
      OfferSize(key, max, OfferAll(key, max, map[], es[..n]), es[n]);
    }
  }

  lemma OfferSize(key: Key, max: nat, m: map<Key, Entry>, e: Entry)
    requires max >= 1 && |m| <= max
    ensures |Offer(key, max, m, e)| <= max
  {
    var a, d := m.Keys, Dist(key, e);
    OfferKeys(key, max, m, e);
    assert |a + {d}| <= |a| + 1;
    if |a| == max { assert |a + {d} - {Last(a)}| == |a + {d}| - 1; }
    assert |Offer(key, max, m, e)| == |Keep(max, a, d)|;
  }

  lemma KeepNearest(max: nat, s: set<Key>, a: set<Key>, d: Key, near: Key)
    requires max >= 1 && Nearest(s, near) && near in a && |a| <= max && a <= s
    ensures var near' := if Val(d) < Val(near) then d else near;
            Nearest(s + {d}, near') && near' in Keep(max, a, d)
  {
    ValInjectiveKeys(near, Last(a));
  }

  lemma {:induction false} KeysOffered(key: Key, max: nat, es: seq<Entry>)
    requires max >= 1
    ensures OfferAll(key, max, map[], es).Keys <= Distances(key, es)
  {
    SearchIsSound(key, max, es);
    var m := OfferAll(key, max, map[], es);
    forall d | d in m ensures d in Distances(key, es) { assert m[d] in es; }
  }

  /** Whatever is offered, repeated or not, the nearest distance offered is in the map. */
  lemma {:induction false} SearchKeepsNearest(key: Key, max: nat, es: seq<Entry>) returns (near: Key)
    requires max >= 1 && es != []
    ensures Nearest(Distances(key, es), near) && near in OfferAll(key, max, map[], es)
  {
    var n := |es| - 1;
    var p, d := OfferAll(key, max, map[], es[..n]), Dist(key, es[n]);
    DistancesSnoc(key, es);
    OfferKeys(key, max, p, es[n]);
    if n == 0 {
      assert Distances(key, es[..n]) == {};
      return d;
    }
    near := SearchKeepsNearest(key, max, es[..n]);
    assert |p.Keys| <= max by { SearchIsSound(key, max, es[..n]); }
    KeysOffered(key, max, es[..n]);
    KeepNearest(max, Distances(key, es[..n]), p.Keys, d, near);
    near := if Val(d) < Val(near) then d else near;
  }

  /** For contacts with pairwise distinct ids the search ends with exactly the `max` closest. */
  lemma {:induction false} SearchFindsClosest(key: Key, max: nat, es: seq<Entry>)
    requires max >= 1 && DistinctIds(es)
    ensures Closest(max, Distances(key, es), OfferAll(key, max, map[], es).Keys)
  {
    if es == [] {
      assert Distances(key, es) == {};
    } else {
      var n := |es| - 1;
      var p := OfferAll(key, max, map[], es[..n]);
      SearchFindsClosest(key, max, es[..n]);
      SearchIsSound(key, max, es[..n]);
      assert Dist(key, es[n]) !in p by {
        if Dist(key, es[n]) in p {
          DistanceInjective(key, p[Dist(key, es[n])].node.id, es[n].node.id);
          assert false;
        }
      }
      OfferKeepsClosest(key, max, Distances(key, es[..n]), p, es[n]);
      DistancesSnoc(key, es);
    }
  }

  lemma SameIdSameEntry(es: seq<Entry>, e: Entry, f: Entry)
    requires DistinctIds(es) && e in es && f in es && e.node.id == f.node.id
    ensures e == f
  {
  }

  lemma SameContacts(es: seq<Entry>, fs: seq<Entry>)
    requires multiset(es) == multiset(fs)
    ensures forall e :: e in es <==> e in fs
  {
    assert forall e :: e in es <==> e in multiset(es);
    assert forall e :: e in fs <==> e in multiset(fs);
  }

  lemma SoundMapsAgree(key: Key, max: nat, es: seq<Entry>, m: map<Key, Entry>, w: map<Key, Entry>)
    requires DistinctIds(es) && Sound(key, max, es, m) && Sound(key, max, es, w) && m.Keys == w.Keys
    ensures m == w
  {
    forall d | d in m ensures m[d] == w[d] {
      DistanceInjective(key, m[d].node.id, w[d].node.id);
      SameIdSameEntry(es, m[d], w[d]);
    }
  }

  /** The outcome does not depend on the order of the offers. */
  lemma SearchOrderIrrelevant(key: Key, max: nat, es: seq<Entry>, fs: seq<Entry>)
    requires max >= 1 && DistinctIds(es) && multiset(es) == multiset(fs)
    ensures OfferAll(key, max, map[], es) == OfferAll(key, max, map[], fs)
  {
    PermutationDistinct(es, fs);
    SameContacts(es, fs);
    var m, w := OfferAll(key, max, map[], es), OfferAll(key, max, map[], fs);
    assert m.Keys == w.Keys by {
      SearchFindsClosest(key, max, es);
      SearchFindsClosest(key, max, fs);
      assert Distances(key, es) == Distances(key, fs);
      ClosestUnique(max, Distances(key, es), m.Keys, w.Keys);
    }
    assert Sound(key, max, es, w) by { SearchIsSound(key, max, fs); }
    SearchIsSound(key, max, es);
    SoundMapsAgree(key, max, es, m, w);
  }

  lemma PermutationDistinct(es: seq<Entry>, fs: seq<Entry>)
    requires DistinctIds(es) && multiset(es) == multiset(fs)
    ensures DistinctIds(fs)
  {
    forall i, j | 0 <= i < j < |fs| ensures fs[i].node.id != fs[j].node.id {
      var e, f := fs[i], fs[j];
      assert e in multiset(fs) && f in multiset(fs);
      if e.node.id == f.node.id {
        SameIdSameEntry(es, e, f);
        TwiceInMultiset(fs, i, j);
        OnceInMultiset(es, e);
        assert false;
      }
    }
  }

  lemma TwiceInMultiset(fs: seq<Entry>, i: nat, j: nat)
    requires i < j < |fs| && fs[i] == fs[j]
    ensures multiset(fs)[fs[i]] >= 2
  {
    assert fs == fs[..i] + [fs[i]] + fs[i + 1..j] + [fs[j]] + fs[j + 1..];
  }

  lemma {:induction false} OnceInMultiset(es: seq<Entry>, e: Entry)
    requires DistinctIds(es)
    ensures multiset(es)[e] <= 1
  {
    if es != [] {
      var n := |es| - 1;
      assert es == es[..n] + [es[n]];
      OnceInMultiset(es[..n], e);
      if e == es[n] { assert e !in es[..n]; }
    }
  }

  // ---- repeated ids ----

  ghost function Below(s: set<Key>, d: Key): set<Key> { set x | x in s && Val(x) < Val(d) }

  /** Offer `i` loses a contact: so many distances came before that the map is full, this one was among them,
      and it is nearer than the last one in the map. */
  ghost predicate Lossy(key: Key, max: nat, es: seq<Entry>, i: nat)
    requires i < |es|
  {
    var s, d := Distances(key, es[..i]), Dist(key, es[i]);
    |s| >= max && d in s && |Below(s, d)| + 1 < max
  }

  lemma LossyOffer(max: nat, s: set<Key>, a: set<Key>, d: Key)
    requires max >= 1 && Closest(max, s, a)
    ensures |s| >= max && d in s && |Below(s, d)| + 1 < max <==> |a| == max && d in a && d != Last(a)
  {
    if |s| >= max && d in s {
      var last := Last(a);
      if d !in a {
        CardinalitySubset(a, Below(s, d));
      } else if d == last {
        forall x | x in a - {d} ensures x in Below(s, d) { ValInjectiveKeys(x, d); }
        CardinalitySubset(a - {d}, Below(s, d));
      } else {
        ValInjectiveKeys(d, last);
        assert Below(s, d) <= a - {d} - {last};
        CardinalitySubset(Below(s, d), a - {d} - {last});
      }
    }
  }

  /** After every offer the map holds the closest so far. */
  ghost predicate StaysClosest(key: Key, max: nat, es: seq<Entry>)
    requires max >= 1
    decreases |es|
  {
    && Closest(max, Distances(key, es), OfferAll(key, max, map[], es).Keys)
    && (es != [] ==> StaysClosest(key, max, es[..|es| - 1]))
  }

  lemma LastOffer(key: Key, max: nat, es: seq<Entry>)
    requires max >= 1 && es != []
    requires Closest(max, Distances(key, es[..|es| - 1]), OfferAll(key, max, map[], es[..|es| - 1]).Keys)
    ensures Closest(max, Distances(key, es), OfferAll(key, max, map[], es).Keys) <==> !Lossy(key, max, es, |es| - 1)
  {
    var n := |es| - 1;
    var p := OfferAll(key, max, map[], es[..n]);
    DistancesSnoc(key, es);
    OfferKeepsClosest(key, max, Distances(key, es[..n]), p, es[n]);
    assert |p| == |p.Keys|;
    LossyOffer(max, Distances(key, es[..n]), p.Keys, Dist(key, es[n]));
  }

  ghost predicate NoneLossy(key: Key, max: nat, es: seq<Entry>) {
    forall i :: 0 <= i < |es| ==> !Lossy(key, max, es, i)
  }

  /** Without any assumption on the ids: exactly when no offer is lossy. */
  lemma {:induction false} SearchStaysClosest(key: Key, max: nat, es: seq<Entry>)
    requires max >= 1
    ensures StaysClosest(key, max, es) <==> NoneLossy(key, max, es)
    decreases |es|
  {
    if es == [] {
      assert Distances(key, es) == {};
    } else {
      SearchStaysClosest(key, max, es[..|es| - 1]);
      LossyPrefix(key, max, es);
      if StaysClosest(key, max, es[..|es| - 1]) { LastOffer(key, max, es); }
    }
  }

  lemma LossyPrefix(key: Key, max: nat, es: seq<Entry>)
    requires es != []
    ensures NoneLossy(key, max, es) <==> NoneLossy(key, max, es[..|es| - 1]) && !Lossy(key, max, es, |es| - 1)
  {
    var init := es[..|es| - 1];
    forall i | 0 <= i < |init| ensures Lossy(key, max, init, i) <==> Lossy(key, max, es, i) {
      assert init[..i] == es[..i];
    }
  }

  // ---- when the result is right ----

  /** With a distance `a` holds every smaller one that `s` has. */
  ghost predicate DownClosed(s: set<Key>, a: set<Key>) {
    a <= s && forall x, y :: x in s && y in a && Val(x) <= Val(y) ==> x in a
  }

  /** A full map does not give up a member of a set of fewer nearest distances. */
  lemma KeepsNear(max: nat, s: set<Key>, a: set<Key>, d: Key, near: set<Key>)
    requires max >= 1 && a <= s && |a| <= max && DownClosed(s + {d}, near) && |near| < max
    requires forall x :: x in near && x in s ==> x in a
    ensures near <= Keep(max, a, d)
  {
    if |a| == max && Last(a) in near {
      CardinalitySubset(a, near);
      assert false;
    }
  }

  /** Whatever is offered, repeated or not, fewer than `max` nearest distances are never lost. */
  lemma {:induction false} NearIsKept(key: Key, max: nat, es: seq<Entry>, near: set<Key>)
    requires max >= 1 && DownClosed(Distances(key, es), near) && |near| < max
    ensures near <= OfferAll(key, max, map[], es).Keys
  {
    if es == [] {
      assert Distances(key, es) == {};
    } else {
      var n := |es| - 1;
      var s, d, p := Distances(key, es[..n]), Dist(key, es[n]), OfferAll(key, max, map[], es[..n]);
      DistancesSnoc(key, es);
      CardinalitySubset(near * s, near);
      NearIsKept(key, max, es[..n], near * s);
      SearchIsSound(key, max, es[..n]);
      KeysOffered(key, max, es[..n]);
      OfferKeys(key, max, p, es[n]);
      KeepsNear(max, s, p.Keys, d, near);
    }
  }

  /** The distances in `s` with fewer than `k` nearer ones. */
  ghost function Front(k: nat, s: set<Key>): set<Key> { set d | d in s && |Below(s, d)| < k }

  lemma {:induction false} FrontSize(k: nat, s: set<Key>)
    ensures |Front(k, s)| == Min(k, |s|)
    decreases |s|
  {
    if s != {} {
      var z := Last(s);
      var r := s - {z};
      FrontSize(k, r);
      forall d | d in r ensures Below(r, d) == Below(s, d) { ValInjectiveKeys(d, z); }
      assert Below(s, z) == r by {
        forall d | d in r ensures Val(d) < Val(z) { ValInjectiveKeys(d, z); }
      }
      assert Front(k, s) == if |r| < k then Front(k, r) + {z} else Front(k, r);
    } else {
      assert Front(k, s) == {};
    }
  }

  lemma NearerRanksLower(s: set<Key>, x: Key, y: Key)
    ensures Val(x) <= Val(y) ==> |Below(s, x)| <= |Below(s, y)|
    ensures x in s && Val(x) < Val(y) ==> |Below(s, x)| < |Below(s, y)|
  {
    if Val(x) <= Val(y) { CardinalitySubset(Below(s, x), Below(s, y)); }
    if x in s && Val(x) < Val(y) { assert x in Below(s, y) && x !in Below(s, x); }
  }

  /** They are the `k` closest. */
  lemma FrontIsClosest(k: nat, s: set<Key>)
    ensures DownClosed(s, Front(k, s)) && Closest(k, s, Front(k, s))
  {
    FrontSize(k, s);
    forall x, y | x in s && y in Front(k, s) && Val(x) <= Val(y) ensures x in Front(k, s) { NearerRanksLower(s, x, y); }
  }

  /** The distance with exactly `k` nearer ones is the last of the `k + 1` closest. */
  lemma LastRank(k: nat, s: set<Key>, d: Key)
    requires |s| > k && d in s
    ensures var y := Front(k + 1, s);
            && y != {} && Front(k, s) == y - {Last(y)}
            && (d == Last(y) <==> |Below(s, d)| == k)
  {
    FrontSize(k + 1, s);
    FrontSize(k, s);
    var y := Front(k + 1, s);
    var x := Last(y);
    forall z | z in y && z != x ensures |Below(s, z)| < k {
      ValInjectiveKeys(z, x);
      NearerRanksLower(s, z, x);
    }
    if |Below(s, x)| < k {
      assert y <= Front(k, s);
      CardinalitySubset(y, Front(k, s));
      assert false;
    }
  }

  /** Offer `k` takes the last of the `max` closest out of the map for good: they have all been offered, it repeats
      another of them, and the last is not offered again. */
  ghost predicate SpoiltAt(key: Key, max: nat, es: seq<Entry>, k: nat)
    requires max >= 1 && k < |es|
  {
    var s := Distances(key, es);
    && |s| >= max && Dist(key, es[k]) in Front(max - 1, s)
    && Front(max, s) <= Distances(key, es[..k])
    && forall j :: k < j < |es| ==> |Below(s, Dist(key, es[j]))| != max - 1
  }

  ghost predicate Spoilt(key: Key, max: nat, es: seq<Entry>)
    requires max >= 1
  {
    exists k :: 0 <= k < |es| && SpoiltAt(key, max, es, k)
  }

  /** The same for the `max` closest `y` of all and their last `x`, while only `es` has been offered. */
  ghost predicate Gone(key: Key, es: seq<Entry>, y: set<Key>, x: Key) {
    exists k :: 0 <= k < |es| && GoneAt(key, es, y, x, k)
  }

  ghost predicate GoneAt(key: Key, es: seq<Entry>, y: set<Key>, x: Key, k: nat)
    requires k < |es|
  {
    && Dist(key, es[k]) in y - {x} && y <= Distances(key, es[..k])
    && forall j :: k < j < |es| ==> Dist(key, es[j]) != x
  }

  lemma GoneSnoc(key: Key, es: seq<Entry>, y: set<Key>, x: Key)
    requires es != []
    ensures var init, d := es[..|es| - 1], Dist(key, es[|es| - 1]);
            Gone(key, es, y, x) <==> d != x && (Gone(key, init, y, x) || (d in y && y <= Distances(key, init)))
  {
    var n := |es| - 1;
    var init := es[..n];
    forall k | 0 <= k < n ensures GoneAt(key, es, y, x, k) <==> GoneAt(key, init, y, x, k) && Dist(key, es[n]) != x {
      assert init[..k] == es[..k];
    }
    assert GoneAt(key, es, y, x, n) <==> Dist(key, es[n]) in y - {x} && y <= Distances(key, init);
  }

  /** A map that holds the last `x` of the closest `y` loses it only when it holds all of them and one of the others
      is offered. */
  lemma LosesLast(max: nat, s: set<Key>, seen: set<Key>, a: set<Key>, d: Key, y: set<Key>, x: Key)
    requires max >= 1 && DownClosed(s, y) && |y| == max && IsLast(y, x)
    requires seen <= s && d in s && d != x && a <= seen && |a| <= max && x in a
    requires forall z :: z in y && z in seen && z != x ==> z in a
    ensures x !in Keep(max, a, d) <==> d in y && y <= seen
  {
    ValInjectiveKeys(d, x);
    if |a| == max && Last(a) == x {
      CardinalitySubset(a, y);
      assert a == y;
    }
    if d in y && y <= seen {
      assert y <= a;
      CardinalitySubset(y, a);
      LastUnique(a, x);
    }
  }

  /** An offer of `x` itself always leaves it in the map. */
  lemma TakesLast(max: nat, s: set<Key>, a: set<Key>, y: set<Key>, x: Key)
    requires max >= 1 && DownClosed(s, y) && |y| == max && IsLast(y, x) && a <= s && |a| <= max
    ensures x in Keep(max, a, x)
  {
    if |a| == max && Val(x) >= Val(Last(a)) {
      CardinalitySubset(a, y);
      assert a == y;
    }
  }

  lemma {:induction false} LastKept(key: Key, max: nat, s: set<Key>, y: set<Key>, x: Key, es: seq<Entry>)
    requires max >= 1 && DownClosed(s, y) && |y| == max && IsLast(y, x) && Distances(key, es) <= s
    ensures x in OfferAll(key, max, map[], es) <==> x in Distances(key, es) && !Gone(key, es, y, x)
  {
    if es == [] {
      assert Distances(key, es) == {};
    } else {
      var n := |es| - 1;
      var seen, d, p := Distances(key, es[..n]), Dist(key, es[n]), OfferAll(key, max, map[], es[..n]);
      DistancesSnoc(key, es);
      LastKept(key, max, s, y, x, es[..n]);
      GoneSnoc(key, es, y, x);
      OfferKeys(key, max, p, es[n]);
      SearchIsSound(key, max, es[..n]);
      KeysOffered(key, max, es[..n]);
      if d == x {
        TakesLast(max, s, p.Keys, y, x);
      } else if x in p {
        OthersKept(key, max, s, y, x, es[..n]);
        LosesLast(max, s, seen, p.Keys, d, y, x);
      }
    }
  }

  lemma OthersKept(key: Key, max: nat, s: set<Key>, y: set<Key>, x: Key, es: seq<Entry>)
    requires max >= 1 && DownClosed(s, y) && |y| == max && IsLast(y, x) && Distances(key, es) <= s
    ensures forall z :: z in y && z in Distances(key, es) && z != x ==> z in OfferAll(key, max, map[], es)
  {
    var near := (y - {x}) * Distances(key, es);
    CardinalitySubset(near, y - {x});
    assert DownClosed(Distances(key, es), near) by {
      forall z, w | z in Distances(key, es) && w in near && Val(z) <= Val(w) ensures z in near {
        ValInjectiveKeys(w, x);
      }
    }
    NearIsKept(key, max, es, near);
  }

  lemma GoneAtIsSpoiltAt(key: Key, max: nat, es: seq<Entry>, x: Key, k: nat)
    requires max >= 1 && |Distances(key, es)| >= max && k < |es|
    requires var s := Distances(key, es);
             && Front(max - 1, s) == Front(max, s) - {x}
             && forall d :: d in s ==> (d == x <==> |Below(s, d)| == max - 1)
    ensures GoneAt(key, es, Front(max, Distances(key, es)), x, k) <==> SpoiltAt(key, max, es, k)
  {
    var s := Distances(key, es);
    forall j | 0 <= j < |es| ensures Dist(key, es[j]) == x <==> |Below(s, Dist(key, es[j]))| == max - 1 {
      assert es[j] in es && Dist(key, es[j]) in s;
    }
  }

  /** The last of the `max` closest, by its rank. */
  lemma TheLast(max: nat, s: set<Key>) returns (x: Key)
    requires 1 <= max <= |s|
    ensures IsLast(Front(max, s), x) && Front(max - 1, s) == Front(max, s) - {x}
    ensures forall d :: d in s ==> (d == x <==> |Below(s, d)| == max - 1)
  {
    var d :| d in s;
    LastRank(max - 1, s, d);
    x := Last(Front(max, s));
    forall d | d in s ensures d == x <==> |Below(s, d)| == max - 1 { LastRank(max - 1, s, d); }
  }

  lemma GoneIsSpoilt(key: Key, max: nat, es: seq<Entry>, x: Key)
    requires max >= 1 && |Distances(key, es)| >= max
    requires var s := Distances(key, es);
             && Front(max - 1, s) == Front(max, s) - {x}
             && forall d :: d in s ==> (d == x <==> |Below(s, d)| == max - 1)
    ensures Gone(key, es, Front(max, Distances(key, es)), x) <==> Spoilt(key, max, es)
  {
    var y := Front(max, Distances(key, es));
    forall k | 0 <= k < |es| ensures GoneAt(key, es, y, x, k) <==> SpoiltAt(key, max, es, k) {
      GoneAtIsSpoiltAt(key, max, es, x, k);
    }
  }

  lemma RightIfLastThere(max: nat, s: set<Key>, a: set<Key>, y: set<Key>, x: Key)
    requires Closest(max, s, y) && |y| == max && x in y && a <= s && |a| <= max && y - {x} <= a
    ensures Closest(max, s, a) <==> x in a
  {
    if x in a {
      CardinalitySubset(y, a);
    } else if Closest(max, s, a) {
      ClosestUnique(max, s, a, y);
    }
  }

  lemma ManyRightExactly(key: Key, max: nat, es: seq<Entry>)
    requires 1 <= max <= |Distances(key, es)|
    ensures Closest(max, Distances(key, es), OfferAll(key, max, map[], es).Keys) <==> !Spoilt(key, max, es)
  {
    var s, a := Distances(key, es), OfferAll(key, max, map[], es).Keys;
    var y := Front(max, s);
    var x := TheLast(max, s);
    FrontIsClosest(max, s);
    KeysOffered(key, max, es);
    assert |a| <= max by { SearchIsSound(key, max, es); }
    GoneIsSpoilt(key, max, es, x);
    LastKept(key, max, s, y, x, es);
    OthersKept(key, max, s, y, x, es);
    RightIfLastThere(max, s, a, y, x);
  }

  /** Without any assumption on the ids: the search ends with exactly the `max` closest, unless an offer spoils it. */
  lemma SearchRightExactly(key: Key, max: nat, es: seq<Entry>)
    requires max >= 1
    ensures Closest(max, Distances(key, es), OfferAll(key, max, map[], es).Keys) <==> !Spoilt(key, max, es)
  {
    if |Distances(key, es)| < max { FewRight(key, max, es); } else { ManyRightExactly(key, max, es); }
  }

  lemma FewRight(key: Key, max: nat, es: seq<Entry>)
    requires |Distances(key, es)| < max
    ensures Closest(max, Distances(key, es), OfferAll(key, max, map[], es).Keys) && !Spoilt(key, max, es)
  {
    var s, a := Distances(key, es), OfferAll(key, max, map[], es).Keys;
    assert a == s by {
      KeysOffered(key, max, es);
      NearIsKept(key, max, es, s);
    }
    forall k | 0 <= k < |es| ensures !SpoiltAt(key, max, es, k) {
    }
  }

  /** Repeats or not, the `max` - 1 nearest distances of all are in the map at the end. */
  lemma SearchKeepsAllButOne(key: Key, max: nat, es: seq<Entry>) returns (near: set<Key>)
    requires max >= 1
    ensures Closest(max - 1, Distances(key, es), near) && near <= OfferAll(key, max, map[], es).Keys
  {
    near := Nearby(max - 1, Distances(key, es));
    NearIsKept(key, max, es, near);
  }

  lemma Nearby(k: nat, s: set<Key>) returns (near: set<Key>)
    ensures DownClosed(s, near) && |near| <= k && Closest(k, s, near)
  {
    near := Front(k, s);
    FrontIsClosest(k, s);
  }

  /** Offering the nearer of two ids again, from whatever address, to a map of two loses the other contact. */
  lemma RepeatLosesContact(key: Key, e: Entry, f: Entry, e': Entry)
    requires Val(Dist(key, e)) < Val(Dist(key, f)) && e'.node.id == e.node.id
    ensures OfferAll(key, 2, map[], [e, f, e']) == map[Dist(key, e) := e]
  {
    var d, g := Dist(key, e), Dist(key, f);
    assert [e, f, e'][..2] == [e, f] && [e, f][..1] == [e] && [e][..0] == [];
    assert OfferAll(key, 2, map[], [e]) == map[d := e];
    var m := OfferAll(key, 2, map[], [e, f]);
    assert m == map[d := e, g := f];
    assert m.Keys == {d, g} && |m| == 2;
    LastUnique(m.Keys, g);
  }

  lemma OneIsNotTwo(d: Key, g: Key, s: set<Key>, e: Entry)
    requires d != g && d in s && g in s
    ensures !Closest(2, s, map[d := e].Keys)
  {
    CardinalitySubset({d, g}, s);
    assert map[d := e].Keys == {d};
  }
}
