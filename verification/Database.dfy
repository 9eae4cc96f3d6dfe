/** The peers stored for each torrent and the tokens that allow storing them (libktorrent/kademlia/database.cpp). */
module Database {
  import opened Bytes
  import opened Keys
  import opened Contacts

  // ---- tokens ----

  function BigEndian(v: nat, n: nat): (r: seq<Byte>)
    ensures |r| == n
  {
    if n == 0 then [] else BigEndian(v / 256, n - 1) + [v % 256]
  }

  lemma {:induction false} BigEndianValue(v: nat, n: nat)
    requires v < Pow2(8 * n)
    ensures Val(BigEndian(v, n)) == v
    decreases n, v
  {
    if n > 0 {
      Pow2Add(8, 8 * (n - 1));
      SmallPowers();
      BigEndianValue(v / 256, n - 1);
      assert BigEndian(v, n)[..n - 1] == BigEndian(v / 256, n - 1);
    }
  }

  /** Who a token is for and when it was made: 32-bit ip, 16-bit port, 64-bit time. */
  datatype Grant = Grant(addr: Address, time: nat) {
    predicate InRange() { addr.ip < Pow2(8 * 4) && addr.port < Pow2(8 * 2) && time < Pow2(8 * 8) }
  }

  /** The 14 bytes that are hashed. */
  function Encoded(g: Grant): (r: seq<Byte>)
    ensures |r| == 14
  {
    BigEndian(g.addr.ip, 4) + BigEndian(g.addr.port, 2) + BigEndian(g.time, 8)
  }

  lemma EncodedInjective(g: Grant, h: Grant)
    requires g.InRange() && h.InRange() && Encoded(g) == Encoded(h)
    ensures g == h
  {
    var x, y := Encoded(g), Encoded(h);
    assert x[..4] == BigEndian(g.addr.ip, 4) && y[..4] == BigEndian(h.addr.ip, 4);
    assert x[4..6] == BigEndian(g.addr.port, 2) && y[4..6] == BigEndian(h.addr.port, 2);
    assert x[6..] == BigEndian(g.time, 8) && y[6..] == BigEndian(h.time, 8);
    BigEndianValue(g.addr.ip, 4);
    BigEndianValue(h.addr.ip, 4);
    BigEndianValue(g.addr.port, 2);
    BigEndianValue(h.addr.port, 2);
    BigEndianValue(g.time, 8);
    BigEndianValue(h.time, 8);
  }

  /** No two 14-byte inputs collide. */
  ghost predicate Injective(sha: Hash) {
    forall x: seq<Byte>, y: seq<Byte> :: |x| == 14 && |y| == 14 && sha(x) == sha(y) ==> x == y
  }

  function Token(sha: Hash, g: Grant): Key { sha(Encoded(g)) }

  lemma TokenInjective(sha: Hash, g: Grant, h: Grant)
    requires Injective(sha) && g.InRange() && h.InRange()
    ensures Token(sha, g) == Token(sha, h) <==> g == h
  {
    if Token(sha, g) == Token(sha, h) { EncodedInjective(g, h); }
  }

  type Tokens = map<Key, nat>

  datatype TokenOp = Issue(grant: Grant) | Check(token: Key, addr: Address)

  predicate Accepts(sha: Hash, m: Tokens, token: Key, addr: Address) {
    token in m && token == Token(sha, Grant(addr, m[token]))
  }

  function TokenStep(sha: Hash, m: Tokens, op: TokenOp): Tokens {
    match op
    case Issue(g) => m[Token(sha, g) := g.time]
    case Check(token, addr) => if Accepts(sha, m, token, addr) then m - {token} else m
  }

  function TokenRun(sha: Hash, m: Tokens, ops: seq<TokenOp>): Tokens
    decreases |ops|
  {
    if ops == [] then m else TokenRun(sha, TokenStep(sha, m, ops[0]), ops[1..])
  }

  /** How often `token` is issued in a run. */
  function Issues(sha: Hash, ops: seq<TokenOp>, token: Key): nat
    decreases |ops|
  {
    if ops == [] then 0 else
      (if ops[0].Issue? && Token(sha, ops[0].grant) == token then 1 else 0) + Issues(sha, ops[1..], token)
  }

  /** How often `checkToken` succeeds for it. */
  function Successes(sha: Hash, m: Tokens, ops: seq<TokenOp>, token: Key): nat
    decreases |ops|
  {
    if ops == [] then 0 else
      (if ops[0].Check? && ops[0].token == token && Accepts(sha, m, token, ops[0].addr) then 1 else 0)
      + Successes(sha, TokenStep(sha, m, ops[0]), ops[1..], token)
  }

  function Has(m: Tokens, token: Key): nat { if token in m then 1 else 0 }

  /** Every success uses up an issue: from any state on, there are no more successes than issues and the one
      the token may have had left. */
  lemma {:induction false} TokenSpentOnce(sha: Hash, m: Tokens, ops: seq<TokenOp>, token: Key)
    ensures Successes(sha, m, ops, token) + Has(TokenRun(sha, m, ops), token) <= Issues(sha, ops, token) + Has(m, token)
    decreases |ops|
  {
    if ops == [] {
    } else {
      TokenSpentOnce(sha, TokenStep(sha, m, ops[0]), ops[1..], token);
    }
  }

  predicate Issued(ops: seq<TokenOp>, g: Grant) { exists i :: 0 <= i < |ops| && ops[i] == Issue(g) }

  /** Every stored token belongs to a grant of the run that is in range. */
  ghost predicate Granted(sha: Hash, m: Tokens, ops: seq<TokenOp>) {
    forall t <- m :: exists g: Grant {:trigger Issued(ops, g)} ::
      Issued(ops, g) && g.InRange() && t == Token(sha, g) && g.time == m[t]
  }

  lemma IssuedMore(ops: seq<TokenOp>, op: TokenOp, g: Grant)
    requires Issued(ops, g) || op == Issue(g)
    ensures Issued(ops + [op], g)
  {
    if op == Issue(g) {
      assert (ops + [op])[|ops|] == op;
    } else {
      var i :| 0 <= i < |ops| && ops[i] == Issue(g);
      assert (ops + [op])[i] == Issue(g);
    }
  }

  lemma GrantedStep(sha: Hash, m: Tokens, ops: seq<TokenOp>, op: TokenOp)
    requires Granted(sha, m, ops) && (op.Issue? ==> op.grant.InRange())
    ensures Granted(sha, TokenStep(sha, m, op), ops + [op])
  {
    var m1 := TokenStep(sha, m, op);
    forall t | t in m1
      ensures exists g: Grant {:trigger Issued(ops + [op], g)} ::
                Issued(ops + [op], g) && g.InRange() && t == Token(sha, g) && g.time == m1[t]
    {
      if op.Issue? && t == Token(sha, op.grant) {
        IssuedMore(ops, op, op.grant);
      } else {
        var g: Grant :| Issued(ops, g) && g.InRange() && t == Token(sha, g) && g.time == m[t];
        IssuedMore(ops, op, g);
      }
    }
  }

  predicate OpsInRange(ops: seq<TokenOp>) {
    forall i :: 0 <= i < |ops| ==>
      if ops[i].Issue? then ops[i].grant.InRange() else Grant(ops[i].addr, 0).InRange()
  }

  lemma {:induction false} RunSplit(sha: Hash, m: Tokens, ops: seq<TokenOp>, op: TokenOp)
    ensures TokenRun(sha, m, ops + [op]) == TokenStep(sha, TokenRun(sha, m, ops), op)
    decreases |ops|
  {
    if ops == [] {
      assert (ops + [op])[1..] == [];
    } else {
      assert (ops + [op])[1..] == ops[1..] + [op];
      RunSplit(sha, TokenStep(sha, m, ops[0]), ops[1..], op);
    }
  }

  lemma {:induction false} GrantedRun(sha: Hash, ops: seq<TokenOp>)
    requires OpsInRange(ops)
    ensures Granted(sha, TokenRun(sha, map[], ops), ops)
    decreases |ops|
  {
    if ops == [] {
    } else {
      var init, last := ops[..|ops| - 1], ops[|ops| - 1];
      assert ops == init + [last];
      GrantedRun(sha, init);
      RunSplit(sha, map[], init, last);
      GrantedStep(sha, TokenRun(sha, map[], init), init, last);
    }
  }

  /** After any run a token is accepted exactly from the address it was issued to, as long as it is stored. */
  lemma AcceptedFromOwner(sha: Hash, ops: seq<TokenOp>, token: Key, addr: Address)
    requires Injective(sha) && OpsInRange(ops) && Grant(addr, 0).InRange()
    ensures var m := TokenRun(sha, map[], ops);
            Accepts(sha, m, token, addr) <==>
            token in m && exists g: Grant :: Issued(ops, g) && g.InRange() && token == Token(sha, g) && g.addr == addr
  {
    var m := TokenRun(sha, map[], ops);
    GrantedRun(sha, ops);
    if token in m {
      var h: Grant :| Issued(ops, h) && h.InRange() && token == Token(sha, h) && h.time == m[token];
      TokenInjective(sha, h, Grant(addr, m[token]));
      forall g: Grant | Issued(ops, g) && g.InRange() && token == Token(sha, g) ensures g == h {
        TokenInjective(sha, g, h);
      }
    }
  }

  /** Time alone never ends a token: until a check succeeds for it, it stays. */
  lemma {:induction false} TokenStays(sha: Hash, m: Tokens, ops: seq<TokenOp>, token: Key)
    requires token in m && Successes(sha, m, ops, token) == 0
    ensures token in TokenRun(sha, m, ops)
    decreases |ops|
  {
    if ops == [] {
    } else {
      TokenStays(sha, TokenStep(sha, m, ops[0]), ops[1..], token);
    }
  }

  lemma {:induction false} TokenLife(sha: Hash, m: Tokens, ops: seq<TokenOp>, g: Grant)
    requires Injective(sha) && OpsInRange(ops) && g.InRange()
    requires Token(sha, g) in m ==> m[Token(sha, g)] == g.time
    ensures var t, e := Token(sha, g), TokenRun(sha, m, ops);
            && (t in e ==> e[t] == g.time)
            && (t in m && Successes(sha, m, ops, t) == 0 ==> t in e)
            && (t !in m && Issues(sha, ops, t) == 0 ==> t !in e)
            && (Successes(sha, m, ops, t) > 0 && Issues(sha, ops, t) == 0 ==> t !in e)
    decreases |ops|
  {
    if ops != [] {
      assert OpsInRange(ops[1..]) by { forall i | 0 <= i < |ops| - 1 ensures ops[1..][i] == ops[i + 1] {} }
      if ops[0].Issue? { TokenInjective(sha, ops[0].grant, g); }
      TokenLife(sha, TokenStep(sha, m, ops[0]), ops[1..], g);
    }
  }

  /** Whatever happens after a token was issued: until a check of it succeeds it is accepted, from its owner and
      from nobody else; from then on it is accepted from nobody until the same token is issued again. */
  lemma IssuedIsAccepted(sha: Hash, m: Tokens, g: Grant, ops: seq<TokenOp>, addr: Address)
    requires Injective(sha) && OpsInRange(ops) && g.InRange() && Grant(addr, 0).InRange()
    ensures var t, m1 := Token(sha, g), TokenStep(sha, m, Issue(g));
            && (Successes(sha, m1, ops, t) == 0 ==> (Accepts(sha, TokenRun(sha, m1, ops), t, addr) <==> addr == g.addr))
            && (Successes(sha, m1, ops, t) > 0 && Issues(sha, ops, t) == 0 ==>
                  !Accepts(sha, TokenRun(sha, m1, ops), t, addr))
  {
    TokenLife(sha, TokenStep(sha, m, Issue(g)), ops, g);
    TokenInjective(sha, g, Grant(addr, g.time));
  }

  // ---- stored peers ----

  const MAX_ITEM_AGE: nat := 30 * 60 * 1000

  datatype Item = Item(data: seq<Byte>, time: nat)

  /** On 64 bits: an item from the future counts as expired. */
  predicate Expired(i: Item, now: nat) { Elapsed(i.time, now) >= MAX_ITEM_AGE }

  /** What `expire` does to one list. */
  function PopExpired(l: seq<Item>, now: nat): seq<Item> {
    if l != [] && Expired(l[0], now) then PopExpired(l[1..], now) else l
  }

  /** What it is for: only the items that have not expired stay. */
  function Unexpired(l: seq<Item>, now: nat): seq<Item> {
    if l == [] then [] else (if Expired(l[0], now) then [] else [l[0]]) + Unexpired(l[1..], now)
  }

  /** No item has expired that stands behind one that has not. */
  predicate ExpiredFirst(l: seq<Item>, now: nat) {
    forall i, j :: 0 <= i < j < |l| && Expired(l[j], now) ==> Expired(l[i], now)
  }

  lemma {:induction false} UnexpiredShorter(l: seq<Item>, now: nat)
    ensures |Unexpired(l, now)| <= |l|
    ensures |Unexpired(l, now)| == |l| <==> forall i :: 0 <= i < |l| ==> !Expired(l[i], now)
    ensures |Unexpired(l, now)| == |l| ==> Unexpired(l, now) == l
  {
    if l != [] {
      UnexpiredShorter(l[1..], now);
      if |Unexpired(l, now)| == |l| {
        forall i | 0 <= i < |l| ensures !Expired(l[i], now) {
          if i > 0 { assert l[i] == l[1..][i - 1]; }
        }
      }
    }
  }

  lemma ExpiredFirstTail(l: seq<Item>, now: nat)
    requires l != [] && Expired(l[0], now)
    ensures ExpiredFirst(l, now) <==> ExpiredFirst(l[1..], now)
  {
    if ExpiredFirst(l[1..], now) {
      forall i, j | 0 <= i < j < |l| && Expired(l[j], now) ensures Expired(l[i], now) {
        if i > 0 { assert l[i] == l[1..][i - 1] && l[j] == l[1..][j - 1]; }
      }
    }
    if ExpiredFirst(l, now) {
      forall i, j | 0 <= i < j < |l[1..]| && Expired(l[1..][j], now) ensures Expired(l[1..][i], now) {
        assert l[1..][i] == l[i + 1] && l[1..][j] == l[j + 1];
      }
    }
  }

  lemma UnexpiredFirst(l: seq<Item>, now: nat)
    requires l != [] && !Expired(l[0], now)
    ensures ExpiredFirst(l, now) <==> forall i :: 0 <= i < |l| ==> !Expired(l[i], now)
  {
  }

  /** Popping from the front leaves exactly the unexpired items if and only if the expired ones stand first. */
  lemma {:induction false} PopIsFilter(l: seq<Item>, now: nat)
    ensures PopExpired(l, now) == Unexpired(l, now) <==> ExpiredFirst(l, now)
  {
    if l == [] {
    } else if Expired(l[0], now) {
      PopIsFilter(l[1..], now);
      ExpiredFirstTail(l, now);
      assert Unexpired(l, now) == Unexpired(l[1..], now);
    } else {
      UnexpiredShorter(l, now);
      UnexpiredFirst(l, now);
    }
  }

  type Items = map<Key, seq<Item>>

  function Get(m: Items, k: Key): seq<Item> { if k in m then m[k] else [] }

  /** Items stored for one key, one after the other. */
  function StoredAll(m: Items, k: Key, items: seq<Item>): Items
    decreases |items|
  {
    if items == [] then m else ItemStep(StoredAll(m, k, items[..|items| - 1]), Store(k, items[|items| - 1]))
  }

  lemma {:induction false} StoredAllAt(m: Items, k: Key, items: seq<Item>, j: Key)
    ensures Get(StoredAll(m, k, items), j) == if j == k then Get(m, k) + items else Get(m, j)
    decreases |items|
  {
    if items != [] {
      var n := |items| - 1;
      StoredAllAt(m, k, items[..n], j);
      assert items == items[..n] + [items[n]];
      assert Get(m, k) + items == Get(m, k) + items[..n] + [items[n]];
    }
  }

  datatype ItemOp = Insert(key: Key) | Store(key: Key, item: Item) | Expire(now: nat)

  function ItemStep(m: Items, op: ItemOp): Items {
    match op
    case Insert(k) => m[k := Get(m, k)]
    case Store(k, i) => m[k := Get(m, k) + [i]]
    case Expire(now) => map k | k in m :: PopExpired(m[k], now)
  }

  function ItemRun(m: Items, ops: seq<ItemOp>): Items
    decreases |ops|
  {
    if ops == [] then m else ItemStep(ItemRun(m, ops[..|ops| - 1]), ops[|ops| - 1])
  }

  /** All items ever stored for a key, oldest first. */
  function AllStored(ops: seq<ItemOp>, k: Key): seq<Item>
    decreases |ops|
  {
    if ops == [] then [] else
      AllStored(ops[..|ops| - 1], k) +
      if ops[|ops| - 1].Store? && ops[|ops| - 1].key == k then [ops[|ops| - 1].item] else []
  }

  function TimeOf(op: ItemOp, before: nat): nat {
    match op
    case Insert(_) => before
    case Store(_, i) => i.time
    case Expire(now) => now
  }

  /** The clock at the end of a run; `Clocked` says that it never went back. */
  function Clock(ops: seq<ItemOp>): nat
    decreases |ops|
  {
    if ops == [] then 0 else TimeOf(ops[|ops| - 1], Clock(ops[..|ops| - 1]))
  }

  predicate Clocked(ops: seq<ItemOp>)
    decreases |ops|
  {
    ops == [] ||
    (Clocked(ops[..|ops| - 1])
     && Clock(ops[..|ops| - 1]) <= TimeOf(ops[|ops| - 1], Clock(ops[..|ops| - 1])) < TIME_RANGE)
  }

  ghost predicate Sorted(l: seq<Item>, now: nat) {
    && (forall i, j :: 0 <= i < j < |l| ==> l[i].time <= l[j].time)
    && (forall i :: 0 <= i < |l| ==> l[i].time <= now)
  }

  lemma SortedExpiredFirst(l: seq<Item>, now: nat)
    requires Sorted(l, now)
    ensures ExpiredFirst(l, now)
  {
  }

  lemma {:induction false} UnexpiredAppend(a: seq<Item>, b: seq<Item>, now: nat)
    ensures Unexpired(a + b, now) == Unexpired(a, now) + Unexpired(b, now)
  {
    if a == [] {
      assert a + b == b;
    } else {
      assert (a + b)[1..] == a[1..] + b;
      UnexpiredAppend(a[1..], b, now);
    }
  }

  /** Filtering at an earlier time first makes no difference. */
  lemma {:induction false} UnexpiredTwice(l: seq<Item>, earlier: nat, now: nat)
    requires Sorted(l, earlier) && earlier <= now
    ensures Unexpired(Unexpired(l, earlier), now) == Unexpired(l, now)
  {
    if l != [] {
      UnexpiredTwice(l[1..], earlier, now);
      if !Expired(l[0], earlier) {
        UnexpiredAppend([l[0]], Unexpired(l[1..], earlier), now);
        assert [l[0]][1..] == [];
      } else {
        assert Unexpired(l, earlier) == Unexpired(l[1..], earlier);
      }
    }
  }

  lemma {:induction false} PopSorted(l: seq<Item>, now: nat)
    requires Sorted(l, now)
    ensures Sorted(PopExpired(l, now), now)
  {
    if l != [] && Expired(l[0], now) { PopSorted(l[1..], now); }
  }

  /** What an operation does to the list of one key. */
  function KeyStep(l: seq<Item>, op: ItemOp, k: Key): seq<Item> {
    match op
    case Insert(_) => l
    case Store(j, i) => if j == k then l + [i] else l
    case Expire(now) => PopExpired(l, now)
  }

  lemma GetStep(m: Items, op: ItemOp, k: Key)
    ensures Get(ItemStep(m, op), k) == KeyStep(Get(m, k), op, k)
  {
  }

  lemma KeyStepKeepsUnexpired(l: seq<Item>, op: ItemOp, k: Key, clock: nat, later: nat)
    requires Sorted(l, clock) && clock <= TimeOf(op, clock) <= later
    ensures Sorted(KeyStep(l, op, k), TimeOf(op, clock))
    ensures Unexpired(KeyStep(l, op, k), later)
         == Unexpired(if op.Store? && op.key == k then l + [op.item] else l, later)
  {
    if op.Expire? {
      PopIsFilter(l, op.now);
      SortedExpiredFirst(l, op.now);
      UnexpiredTwice(l, op.now, later);
      PopSorted(l, op.now);
    }
  }

  /** The lists stay sorted, and as far as any later time can tell nothing is missing from them. */
  lemma {:induction false} RunKeepsUnexpired(ops: seq<ItemOp>, k: Key, later: nat)
    requires Clocked(ops) && Clock(ops) <= later
    ensures Sorted(Get(ItemRun(map[], ops), k), Clock(ops))
    ensures Unexpired(Get(ItemRun(map[], ops), k), later) == Unexpired(AllStored(ops, k), later)
    decreases |ops|
  {
    if ops == [] {
    } else {
      var init, op := ops[..|ops| - 1], ops[|ops| - 1];
      var l, all := Get(ItemRun(map[], init), k), AllStored(init, k);
      RunKeepsUnexpired(init, k, later);
      GetStep(ItemRun(map[], init), op, k);
      KeyStepKeepsUnexpired(l, op, k, Clock(init), later);
      if op.Store? && op.key == k {
        UnexpiredAppend(l, [op.item], later);
        UnexpiredAppend(all, [op.item], later);
      } else {
        assert AllStored(ops, k) == all;
      }
    }
  }

  /** The items stored less than half an hour (in milliseconds) ago. */
  function Recent(l: seq<Item>, now: nat): seq<Item> {
    if l == [] then [] else (if now < l[0].time + 1_800_000 then [l[0]] else []) + Recent(l[1..], now)
  }

  lemma {:induction false} UnexpiredIsRecent(l: seq<Item>, now: nat)
    requires now < TIME_RANGE && forall i :: 0 <= i < |l| ==> l[i].time <= now
    ensures Unexpired(l, now) == Recent(l, now)
  {
    if l != [] { UnexpiredIsRecent(l[1..], now); }
  }

  lemma {:induction false} StoredBefore(ops: seq<ItemOp>, k: Key)
    requires Clocked(ops)
    ensures forall i :: 0 <= i < |AllStored(ops, k)| ==> AllStored(ops, k)[i].time <= Clock(ops)
    decreases |ops|
  {
    if ops != [] { StoredBefore(ops[..|ops| - 1], k); }
  }

  /** Over every run with a clock that does not go back, `expire` leaves for each key exactly the items stored
      less than half an hour ago, in the order they were stored. */
  lemma ExpireIsExact(ops: seq<ItemOp>, k: Key, now: nat)
    requires Clocked(ops) && Clock(ops) <= now < TIME_RANGE
    ensures Get(ItemStep(ItemRun(map[], ops), Expire(now)), k) == Recent(AllStored(ops, k), now)
  {
    StoredBefore(ops, k);
    UnexpiredIsRecent(AllStored(ops, k), now);
    RunKeepsUnexpired(ops, k, now);
    var m := ItemRun(map[], ops);
    if k in m {
      PopIsFilter(m[k], now);
      SortedExpiredFirst(m[k], now);
    }
  }

  /** A key, once there, is there for good, even with an empty list. */
  lemma {:induction false} KeyStays(m: Items, ops: seq<ItemOp>, k: Key)
    ensures k in ItemRun(m, ops) <==> k in m || exists i :: 0 <= i < |ops| && !ops[i].Expire? && ops[i].key == k
    decreases |ops|
  {
    if ops == [] {
    } else {
      var init := ops[..|ops| - 1];
      KeyStays(m, init, k);
      if exists i :: 0 <= i < |init| && !init[i].Expire? && init[i].key == k {
        var i :| 0 <= i < |init| && !init[i].Expire? && init[i].key == k;
        assert ops[i] == init[i];
      }
      if exists i :: 0 <= i < |ops| && !ops[i].Expire? && ops[i].key == k {
        var i :| 0 <= i < |ops| && !ops[i].Expire? && ops[i].key == k;
        if i < |ops| - 1 { assert init[i] == ops[i]; }
      }
    }
  }

  // ---- the database ----

  class Database {
    const sha: Hash
    var items: Items
    var tokens: Tokens

    constructor (sha: Hash)
      ensures this.sha == sha && items == map[] && tokens == map[]
    {
      this.sha, items, tokens := sha, map[], map[];
    }

    method StoreItem(k: Key, i: Item)
      modifies this`items
      ensures items == ItemStep(old(items), Store(k, i))
    {
      var l := [];
      if k in items { l := items[k]; }
      items := items[k := l + [i]];
    }

    method InsertKey(k: Key)
      modifies this`items
      ensures items == ItemStep(old(items), Insert(k))
    {
      if k !in items { items := items[k := []]; }
      assert items == ItemStep(old(items), Insert(k));
    }

    method ExpireItems(now: nat)
      modifies this`items
      ensures items == ItemStep(old(items), Expire(now))
    {
      var rest := items.Keys;
      while rest != {}
        invariant rest <= items.Keys == old(items).Keys
        invariant forall k :: k in items ==>
          items[k] == if k in rest then old(items)[k] else PopExpired(old(items)[k], now)
        decreases |rest|
      {
        var k :| k in rest;
        var l := items[k];
        while |l| > 0 && Expired(l[0], now)
          invariant PopExpired(l, now) == PopExpired(items[k], now)
        {
          l := l[1..];
        }
        items := items[k := l];
        rest := rest - {k};
      }
    }

    /** The first `max` items of a key, or all of them; not a random choice. */
    method Sample(k: Key, max: nat) returns (r: seq<Item>)
      ensures r <= Get(items, k) && |r| == if |Get(items, k)| < max then |Get(items, k)| else max
    {
      r := [];
      if k !in items { return; }
      var l := items[k];
      while |r| < |l| && |r| < max
        invariant r <= l && |r| <= max
        decreases |l| - |r|
      {
        r := r + [l[|r|]];
      }
    }

    method GenToken(addr: Address, now: nat) returns (token: Key)
      modifies this`tokens
      ensures tokens == TokenStep(sha, old(tokens), Issue(Grant(addr, now))) && token == Token(sha, Grant(addr, now))
    {
      token := Token(sha, Grant(addr, now));
      tokens := tokens[token := now];
    }

    method CheckToken(token: Key, addr: Address) returns (ok: bool)
      modifies this`tokens
      ensures ok == Accepts(sha, old(tokens), token, addr)
      ensures tokens == TokenStep(sha, old(tokens), Check(token, addr))
    {
      if token !in tokens { return false; }
      if token != Token(sha, Grant(addr, tokens[token])) { return false; }
      tokens := tokens - {token};
      ok := true;
    }
  }
}
