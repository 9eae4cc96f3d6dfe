/** `KBucket` and `Node` as objects, proved to take the steps of `Buckets` and `RoutingTable`. */
module NodeClasses {
  import opened Keys
  import opened Contacts
  import opened Buckets
  import opened RoutingTable
  import KC = KClosest

  class KBucket {
    var entries: seq<Entry>
    var pendingEntries: seq<Entry>
    var busyPinging: map<PingCall, Entry>

    ghost function State(): Bucket
      reads this
    {
      Bucket(entries, pendingEntries, busyPinging)
    }

    constructor ()
      ensures State() == EMPTY
    {
      entries, pendingEntries, busyPinging := [], [], map[];
    }

    /** The loops over `entries`, which differ in what they look for. */
    method Scan(t: Test) returns (i: nat)
      ensures i == First(entries, t)
    {
      i := 0;
      while i < |entries| && !t.Holds(entries[i])
        invariant i <= |entries| && First(entries, t) == i + First(entries[i..], t)
      {
        assert entries[i..][1..] == entries[i + 1..];
        i := i + 1;
      }
    }

    method Insert(e: Entry, now: nat, serial: nat)
      modifies this
      ensures State() == Buckets.Insert(old(State()), e, now, serial)
    {
      var i := Scan(SameNode(e.node));
      if i < |entries| {
        entries := entries[..i] + entries[i + 1..];
        entries := entries + [e];
        return;
      }
      if |entries| < K {
        entries := entries + [e];
      } else {
        ReplaceBadOrPing(e, now, serial);
      }
    }

    method ReplaceBadOrPing(e: Entry, now: nat, serial: nat)
      modifies this
      ensures State() == ReplaceOrPing(old(State()), e, now, serial)
    {
      var replaced := ReplaceBadEntry(e, now);
      if !replaced { PingQuestionable(e, now, serial); }
    }

    method ReplaceBadEntry(e: Entry, now: nat) returns (replaced: bool)
      modifies this
      ensures replaced == CanReplaceBad(old(State()), now)
      ensures State() == ReplaceBad(old(State()), e, now)
    {
      var i := Scan(BadAt(now));
      if i < |entries| {
        entries := entries[..i] + entries[i + 1..];
        entries := entries + [e];
        return true;
      }
      return false;
    }

    method PingQuestionable(e: Entry, now: nat, serial: nat)
      modifies this
      ensures State() == Buckets.PingQuestionable(old(State()), e, now, serial)
    {
      if |busyPinging| >= MAX_PINGS {
        pendingEntries := pendingEntries + [e];
        return;
      }
      var i := Scan(QuestionableAt(now));
      if i < |entries| {
        var q := entries[i];
        var c := PingCall(serial, q.node.addr);
        entries := entries[i := q.(questionablePings := q.questionablePings + 1)];
        busyPinging := busyPinging[c := e];
      }
    }

    method OnResponse(c: PingCall, now: nat, serial: nat)
      modifies this
      ensures State() == Buckets.OnResponse(old(State()), c, now, serial)
    {
      if c !in busyPinging { return; }
      var e := busyPinging[c];
      busyPinging := busyPinging - {c};
      ReplaceBadOrPing(e, now, serial);
    }

    /** The entry that did not answer makes room for the candidate. */
    method Replace(c: PingCall)
      requires c in busyPinging
      modifies this
      ensures State() == GiveWay(old(State()), c)
    {
      var e := busyPinging[c];
      var i := Scan(HasAddress(c.target));
      if i < |entries| {
        entries := entries[..i] + entries[i + 1..];
        entries := entries + [e];
      }
      busyPinging := busyPinging - {c};
    }

    method OnTimeout(c: PingCall, now: nat, serial: nat)
      modifies this
      ensures State() == Buckets.OnTimeout(old(State()), c, now, serial)
    {
      if c !in busyPinging { return; }
      Replace(c);
      if |busyPinging| < MAX_PINGS && |pendingEntries| > 0 {
        var pe := pendingEntries[0];
        pendingEntries := pendingEntries[1..];
        ReplaceBadOrPing(pe, now, serial);
      }
    }

    method OnRequestTimeout(addr: Address) returns (found: bool)
      modifies this
      ensures found <==> First(old(entries), HasAddress(addr)) < |old(entries)|
      ensures State() == Buckets.OnRequestTimeout(old(State()), addr)
    {
      var i := Scan(HasAddress(addr));
      if i < |entries| {
        entries := entries[i := entries[i].(failedQueries := entries[i].failedQueries + 1)];
        return true;
      }
      return false;
    }
  }

  lemma ReceiveAt(t: Table, node: Contact, now: nat, serial: nat, i: nat) returns (bs: seq<BucketPtr>)
    requires i == BucketOf(t.ourId, node.id) && i < BUCKETS && |t.buckets| == BUCKETS
    ensures var b := if t.buckets[i].Null? then EMPTY else t.buckets[i].b;
            bs == t.buckets[i := Ptr(Buckets.Insert(b, NewEntry(node, now), now, serial))]
    ensures RoutingTable.Receive(t, node, now, serial) == Table(t.ourId, bs, t.numReceives + 1, Total(bs))
  {
    bs := RoutingTable.Receive(t, node, now, serial).buckets;
  }

  lemma RequestLostAt(t: Table, addr: Address, now: nat, serial: nat, i: nat)
    requires i < |t.buckets| && FirstHolding(t.buckets, addr) == i && t.buckets[i].Ptr?
    ensures TableStep(t, RequestLost(addr), now, serial)
         == t.(buckets := t.buckets[i := Ptr(Buckets.OnRequestTimeout(t.buckets[i].b, addr))])
  {
  }

  /** One turn of the loop of `Node::onTimeout`. */
  lemma FirstHoldingStep(bs: seq<BucketPtr>, addr: Address, i: nat)
    requires i < |bs|
    ensures FirstHolding(bs[i..], addr) ==
            if First(EntriesOf(bs[i]), HasAddress(addr)) < |EntriesOf(bs[i])| then 0
            else 1 + FirstHolding(bs[i + 1..], addr)
  {
    assert bs[i..][1..] == bs[i + 1..];
  }

  /** `table` is what the 160 references and the objects behind them amount to. */
  class Node {
    const ourId: Key
    var bucket: seq<KBucket?>
    var numReceives: nat
    var numEntries: nat
    ghost var table: Table

    ghost predicate Valid()
      reads this, bucket
    {
      && |bucket| == BUCKETS == |table.buckets|
      && (forall i, j :: 0 <= i < j < BUCKETS && bucket[i] != null ==> bucket[i] != bucket[j])
      && (forall i :: 0 <= i < BUCKETS ==> Shows(bucket[i], table.buckets[i]))
      && table.ourId == ourId && table.numReceives == numReceives && table.numEntries == numEntries
    }

    constructor (ourId: Key)
      ensures Valid() && table == NewTable(ourId) && forall b :: b in bucket ==> b == null
    {
      this.ourId := ourId;
      bucket := seq(BUCKETS, _ => null);
      numReceives, numEntries := 0, 0;
      table := NewTable(ourId);
    }

    /** `lookup` says that a lookup of our own id is started. */
    method Receive(node: Contact, now: nat, serial: nat) returns (lookup: bool)
      requires Valid()
      modifies this, bucket
      ensures lookup == StartsLookup(old(table), Received(node))
      ensures Valid() && table == RoutingTable.Receive(old(table), node, now, serial)
      ensures forall b :: b in bucket ==> b == null || b in old(bucket) || fresh(b)
    {
      var bitOn := FindBucket(ourId, node.id);
      BucketMeaning(ourId, node.id);
      if bitOn >= BUCKETS { return false; }
      ghost var bs := ReceiveAt(table, node, now, serial, bitOn);
      Put(bitOn, NewEntry(node, now), now, serial);
      lookup := numReceives == 3;
      CountEntries();
    }

    method Put(i: nat, e: Entry, now: nat, serial: nat)
      requires Valid() && i < BUCKETS
      modifies this, bucket
      ensures Valid()
      ensures var b := if old(table).buckets[i].Null? then EMPTY else old(table).buckets[i].b;
              table == old(table).(numReceives := old(numReceives) + 1,
                                   buckets := old(table).buckets[i := Ptr(Buckets.Insert(b, e, now, serial))])
      ensures forall b :: b in bucket ==> b == null || b in old(bucket) || fresh(b)
    {
      MakeBucket(i);
      InsertAt(i, e, now, serial);
    }

    /** The bucket is made on its first use. */
    method MakeBucket(i: nat)
      requires Valid() && i < BUCKETS
      modifies this`bucket, this`table
      ensures Valid() && bucket[i] != null && (bucket[i] in old(bucket) || fresh(bucket[i]))
      ensures bucket == old(bucket)[i := bucket[i]]
      ensures table == if old(table).buckets[i].Null?
                       then old(table).(buckets := old(table).buckets[i := Ptr(EMPTY)]) else old(table)
    {
      assert Shows(bucket[i], table.buckets[i]);
      if bucket[i] == null {
        var kb := new KBucket();
        bucket := bucket[i := kb];
        table := table.(buckets := table.buckets[i := Ptr(EMPTY)]);
      }
    }

    /** Hand the contact to its bucket and count the message. */
    method InsertAt(i: nat, e: Entry, now: nat, serial: nat)
      requires Valid() && i < BUCKETS && bucket[i] != null
      modifies this`table, this`numReceives, bucket[i]
      ensures Valid()
      ensures old(table).buckets[i].Ptr?
      ensures table == old(table).(numReceives := old(numReceives) + 1,
                buckets := old(table).buckets[i := Ptr(Buckets.Insert(old(table).buckets[i].b, e, now, serial))])
    {
      assert Shows(bucket[i], table.buckets[i]);
      bucket[i].Insert(e, now, serial);
      numReceives := numReceives + 1;
      table := table.(numReceives := numReceives, buckets := table.buckets[i := Ptr(bucket[i].State())]);
    }

    /** The loop that recounts `num_entries`. */
    method CountEntries()
      requires Valid()
      modifies this`numEntries, this`table
      ensures Valid() && table == old(table).(numEntries := Total(old(table).buckets))
    {
      numEntries := 0;
      for i := 0 to BUCKETS
        invariant table == old(table) && numEntries == Total(table.buckets[..i])
      {
        assert table.buckets[..i + 1][..i] == table.buckets[..i];
        assert Shows(bucket[i], table.buckets[i]);
        if bucket[i] != null { numEntries := numEntries + |bucket[i].entries|; }
      }
      assert table.buckets[..BUCKETS] == table.buckets;
      table := table.(numEntries := numEntries);
    }

    /** `Node::onTimeout`: the first bucket that knows the address takes note. */
    method OnTimeout(addr: Address, now: nat, serial: nat)
      requires Valid()
      modifies this`table, bucket
      ensures Valid() && table == TableStep(old(table), RequestLost(addr), now, serial)
    {
      var i := 0;
      ghost var bs := table.buckets;
      while i < BUCKETS
        invariant i <= BUCKETS && table == old(table) && Valid()
        invariant FirstHolding(bs, addr) == i + FirstHolding(bs[i..], addr)
      {
        FirstHoldingStep(bs, addr, i);
        var found := OnTimeoutAt(i, addr);
        if found {
          RequestLostAt(old(table), addr, now, serial, i);
          return;
        }
        i := i + 1;
      }
      assert bs[BUCKETS..] == [];
    }

    method OnTimeoutAt(i: nat, addr: Address) returns (found: bool)
      requires Valid() && i < BUCKETS
      modifies this`table, bucket
      ensures Valid()
      ensures var es := EntriesOf(old(table).buckets[i]); found <==> First(es, HasAddress(addr)) < |es|
      ensures found ==> old(table).buckets[i].Ptr?
      ensures table == if !found then old(table) else
                         var b := Buckets.OnRequestTimeout(old(table).buckets[i].b, addr);
                         old(table).(buckets := old(table).buckets[i := Ptr(b)])
    {
      assert Shows(bucket[i], table.buckets[i]);
      if bucket[i] == null { return false; }
      found := bucket[i].OnRequestTimeout(addr);
      if found { table := table.(buckets := table.buckets[i := Ptr(bucket[i].State())]); }
    }

    /** `findKClosestNodes`. */
    method FindKClosestNodes(kns: KC.KClosestNodesSearch)
      requires Valid() && kns.maxEntries >= 1
      modifies kns
      ensures kns.emap == KC.OfferAll(kns.key, kns.maxEntries, old(kns.emap), Flatten(table.buckets))
    {
      for i := 0 to BUCKETS
        invariant kns.emap == KC.OfferAll(kns.key, kns.maxEntries, old(kns.emap), Flatten(table.buckets[..i]))
      {
        assert table.buckets[..i + 1][..i] == table.buckets[..i];
        assert Shows(bucket[i], table.buckets[i]);
        ghost var before := Flatten(table.buckets[..i]);
        if bucket[i] != null {
          KC.OfferAllConcat(kns.key, kns.maxEntries, old(kns.emap), before, bucket[i].entries);
          kns.OfferEntries(bucket[i].entries);
        } else {
          assert before + [] == before;
        }
      }
      assert table.buckets[..BUCKETS] == table.buckets;
    }
  }

  ghost predicate Shows(b: KBucket?, p: BucketPtr)
    reads if b == null then {} else {b}
  {
    p == if b == null then Null else Ptr(b.State())
  }
}
