/** Sharing out the bandwidth over groups of sockets (libktorrent/net/networkthread.cpp, socketgroup.cpp). */
module NetworkThreads {
  import opened BufferedSockets

  /** A list of sockets may hold null ones. */
  const NULL: nat := 0

  /** A group: its own limit (0 for none), its sockets that are ready, and what its limit still allows. */
  datatype Group = Group(limit: nat, sockets: seq<nat>, allowance: nat)

  /** A socket of group `gid` had its turn: it was allowed `asked` bytes, 0 meaning any number, and moved `got`. */
  datatype Turn = Turn(gid: nat, socket: nat, asked: nat, got: nat)

  /** What a socket moves in the turn with this number when allowed so many bytes. */
  type Transfer = (nat, nat, nat) -> nat

  /** No socket exceeded a limit: `writeBuffered` and `readBuffered` keep to this. */
  ghost predicate Obeyed(turns: seq<Turn>) {
    forall i :: 0 <= i < |turns| && turns[i].asked > 0 ==> turns[i].got <= turns[i].asked
  }

  lemma ObeyedAppend(a: seq<Turn>, b: seq<Turn>)
    ensures Obeyed(a + b) <==> Obeyed(a) && Obeyed(b)
  {
    if Obeyed(a + b) {
      forall i | 0 <= i < |a| && a[i].asked > 0 ensures a[i].got <= a[i].asked { assert (a + b)[i] == a[i]; }
      forall i | 0 <= i < |b| && b[i].asked > 0 ensures b[i].got <= b[i].asked { assert (a + b)[|a| + i] == b[i]; }
    }
  }

  lemma ObeyedBefore(a: seq<Turn>, b: seq<Turn>)
    requires a <= b
    ensures Obeyed(b) ==> Obeyed(a)
  {
    if Obeyed(b) {
      forall i | 0 <= i < |a| && a[i].asked > 0 ensures a[i].got <= a[i].asked { assert b[i] == a[i]; }
    }
  }

  /** An allowance is never charged with more than was moved, and with just that if no socket exceeded a limit
      (what exceeds the allowance cannot be charged to it). */
  predicate Spent(before: nat, after: nat, moved: nat, obeyed: bool) {
    after <= before && before - after <= moved && (obeyed ==> before - after == moved)
  }

  function Sum(turns: seq<Turn>): nat {
    if turns == [] then 0 else Sum(turns[..|turns| - 1]) + turns[|turns| - 1].got
  }

  function SumOf(turns: seq<Turn>, gid: nat): nat {
    if turns == [] then 0 else
      SumOf(turns[..|turns| - 1], gid) + if turns[|turns| - 1].gid == gid then turns[|turns| - 1].got else 0
  }

  lemma {:induction false} SumAppend(a: seq<Turn>, b: seq<Turn>, gid: nat)
    ensures Sum(a + b) == Sum(a) + Sum(b) && SumOf(a + b, gid) == SumOf(a, gid) + SumOf(b, gid)
  {
    if b == [] {
      assert a + b == a;
    } else {
      assert (a + b)[..|a + b| - 1] == a + b[..|b| - 1];
      SumAppend(a, b[..|b| - 1], gid);
    }
  }

  /** All these turns are of group `gid`. */
  ghost predicate AllOf(turns: seq<Turn>, gid: nat) {
    forall i :: 0 <= i < |turns| ==> turns[i].gid == gid
  }

  lemma {:induction false} SumOfOne(turns: seq<Turn>, gid: nat, other: nat)
    requires AllOf(turns, gid)
    ensures SumOf(turns, other) == if other == gid then Sum(turns) else 0
  {
    if turns != [] { SumOfOne(turns[..|turns| - 1], gid, other); }
  }

  /** Never was a socket let loose, and none was allowed more than `max`. */
  ghost predicate Bounded(turns: seq<Turn>, max: nat) {
    forall i :: 0 <= i < |turns| ==> 1 <= turns[i].asked <= max
  }

  lemma {:induction false} MulAtLeast(q: nat, b: nat)
    requires b > 0
    ensures q * b >= q
  {
    if b > 1 {
      MulAtLeast(q, b - 1);
      assert q * b == q * (b - 1) + q;
    }
  }

  lemma DivAtMost(a: nat, b: nat)
    requires b > 0
    ensures a / b <= a
    ensures b > 1 && a > 0 ==> a / b < a
  {
    var q := a / b;
    assert a == q * b + a % b;
    MulAtLeast(q, b);
    if b > 1 {
      MulAtLeast(q, b - 1);
      assert q * b == q * (b - 1) + q;
    }
  }

  /** The share of a socket in `processLimited`, on 32 bits. */
  function Slot(allowance: nat, sockets: nat): nat
    requires sockets > 0 && allowance < UINT32
  {
    DivAtMost(allowance, sockets);
    Plus32(allowance / sockets, 1)
  }

  /** It becomes 0, which would mean no limit at all, in one case only. */
  lemma SlotVanishes(allowance: nat, sockets: nat)
    requires sockets > 0 && allowance < UINT32
    ensures Slot(allowance, sockets) == 0 <==> sockets == 1 && allowance == UINT32 - 1
  {
    DivAtMost(allowance, sockets);
  }

  /** Otherwise it is just large enough for one round of turns to use up the allowance. */
  lemma SlotIsShare(allowance: nat, sockets: nat)
    requires sockets > 0 && allowance < UINT32 && Slot(allowance, sockets) > 0
    ensures (Slot(allowance, sockets) - 1) * sockets <= allowance < Slot(allowance, sockets) * sockets
  {
    var q := allowance / sockets;
    DivAtMost(allowance, sockets);
    assert allowance == q * sockets + allowance % sockets;
    assert (q + 1) * sockets == q * sockets + sockets;
  }

  /** What is left of an allowance, never below 0. */
  function Left(allowance: nat, done: nat): nat { if done > allowance then 0 else allowance - done }

  // ---- one group ----

  function Erase(s: seq<nat>, i: nat): (r: seq<nat>)
    requires i < |s|
    ensures |r| == |s| - 1 && r[i..] == s[i + 1..]
  {
    s[..i] + s[i + 1..]
  }

  /** The loop of `processLimited`: the sockets left, whose turn it is, the allowance left, and the turns so far. */
  datatype Round = Round(sockets: seq<nat>, itr: nat, allowance: nat, turns: seq<Turn>) {
    predicate Valid() { sockets == [] || itr < |sockets| }

    predicate Over() { sockets == [] || allowance == 0 }
  }

  /** One turn: a socket that does not move exactly what it was allowed is out, and so is a null one. */
  function NextTurn(t: Transfer, gid: nat, slot: nat, n: nat, r: Round): (r': Round)
    requires r.Valid() && !r.Over()
    ensures r'.Valid() && r.turns <= r'.turns
    ensures slot > 0 ==> r'.allowance + |r'.sockets| < r.allowance + |r.sockets|
  {
    var socket := r.sockets[r.itr];
    var asked := Least(slot, r.allowance);
    var ret := t(socket, n + |r.turns|, asked);
    var out := socket == NULL || ret != asked;
    var sockets := if out then Erase(r.sockets, r.itr) else r.sockets;
    var itr := if out then r.itr else r.itr + 1;
    var next := if itr == |sockets| then 0 else itr;
    if socket == NULL then Round(sockets, next, r.allowance, r.turns)
    else Round(sockets, next, Left(r.allowance, ret), r.turns + [Turn(gid, socket, asked, ret)])
  }

  function Rounds(t: Transfer, gid: nat, slot: nat, n: nat, r: Round): (e: Round)
    requires r.Valid() && slot > 0
    ensures r.turns <= e.turns && e.Over()
    decreases r.allowance + |r.sockets|
  {
    if r.Over() then r else Rounds(t, gid, slot, n, NextTurn(t, gid, slot, n, r))
  }

  lemma TurnSpends(t: Transfer, gid: nat, slot: nat, n: nat, r: Round, max: nat)
    requires r.Valid() && !r.Over() && slot > 0 && r.allowance <= max
    requires AllOf(r.turns, gid) && Bounded(r.turns, max)
    ensures var r' := NextTurn(t, gid, slot, n, r);
            && AllOf(r'.turns, gid) && Bounded(r'.turns, max) && r'.allowance <= r.allowance
            && Sum(r.turns) <= Sum(r'.turns)
            && Spent(r.allowance, r'.allowance, Sum(r'.turns) - Sum(r.turns), Obeyed(r'.turns))
  {
    var r' := NextTurn(t, gid, slot, n, r);
    if r.sockets[r.itr] != NULL {
      assert r'.turns[..|r.turns|] == r.turns;
      var last := r'.turns[|r.turns|];
      assert Obeyed(r'.turns) ==> last.got <= last.asked <= r.allowance;
    }
  }

  /** Bytes moved are taken off the allowance, no socket is ever let loose, and nobody stops early. */
  lemma {:induction false} RoundsSpend(t: Transfer, gid: nat, slot: nat, n: nat, r: Round, max: nat)
    requires r.Valid() && slot > 0 && r.allowance <= max
    requires AllOf(r.turns, gid) && Bounded(r.turns, max)
    ensures var e := Rounds(t, gid, slot, n, r);
            && AllOf(e.turns, gid) && Bounded(e.turns, max) && Sum(r.turns) <= Sum(e.turns)
            && Spent(r.allowance, e.allowance, Sum(e.turns) - Sum(r.turns), Obeyed(e.turns))
    decreases r.allowance + |r.sockets|
  {
    if !r.Over() {
      var r' := NextTurn(t, gid, slot, n, r);
      TurnSpends(t, gid, slot, n, r, max);
      RoundsSpend(t, gid, slot, n, r', max);
      ObeyedBefore(r'.turns, Rounds(t, gid, slot, n, r').turns);
    }
  }

  /** Every turn is allowed the share, or all that is left when that is less. */
  ghost predicate Shared(turns: seq<Turn>, slot: nat, allowance: nat) {
    forall i :: 0 <= i < |turns| ==> turns[i].asked == Least(slot, Left(allowance, Sum(turns[..i])))
  }

  lemma {:induction false} RoundsShare(t: Transfer, gid: nat, slot: nat, n: nat, r: Round, allowance: nat)
    requires r.Valid() && slot > 0 && r.allowance == Left(allowance, Sum(r.turns)) && Shared(r.turns, slot, allowance)
    ensures var e := Rounds(t, gid, slot, n, r);
            Shared(e.turns, slot, allowance) && e.allowance == Left(allowance, Sum(e.turns))
    decreases r.allowance + |r.sockets|
  {
    if !r.Over() {
      var r' := NextTurn(t, gid, slot, n, r);
      if r.sockets[r.itr] != NULL {
        assert r'.turns[..|r.turns|] == r.turns;
        forall i | 0 <= i < |r'.turns|
          ensures r'.turns[i].asked == Least(slot, Left(allowance, Sum(r'.turns[..i])))
        {
          assert r'.turns[..i] == r.turns[..i];
        }
      }
      RoundsShare(t, gid, slot, n, r', allowance);
    }
  }

  /** The turns that ended a socket's part: those in which it did not move exactly what it was allowed. */
  function Ended(turns: seq<Turn>): nat {
    if turns == [] then 0 else
      Ended(turns[..|turns| - 1]) + if turns[|turns| - 1].got != turns[|turns| - 1].asked then 1 else 0
  }

  function EndedOf(turns: seq<Turn>, gid: nat): nat {
    if turns == [] then 0 else
      var last := turns[|turns| - 1];
      EndedOf(turns[..|turns| - 1], gid) + if last.gid == gid && last.got != last.asked then 1 else 0
  }

  /** How many turns the sockets of group `gid` had. */
  function TurnsOf(turns: seq<Turn>, gid: nat): nat {
    if turns == [] then 0 else
      TurnsOf(turns[..|turns| - 1], gid) + if turns[|turns| - 1].gid == gid then 1 else 0
  }

  lemma {:induction false} EndedAppend(a: seq<Turn>, b: seq<Turn>, gid: nat)
    ensures EndedOf(a + b, gid) == EndedOf(a, gid) + EndedOf(b, gid)
    ensures TurnsOf(a + b, gid) == TurnsOf(a, gid) + TurnsOf(b, gid)
  {
    if b == [] {
      assert a + b == a;
    } else {
      assert (a + b)[..|a + b| - 1] == a + b[..|b| - 1];
      EndedAppend(a, b[..|b| - 1], gid);
    }
  }

  lemma {:induction false} EndedOfOne(turns: seq<Turn>, gid: nat, other: nat)
    requires AllOf(turns, gid)
    ensures EndedOf(turns, other) == if other == gid then Ended(turns) else 0
    ensures TurnsOf(turns, other) == if other == gid then |turns| else 0
  {
    if turns != [] { EndedOfOne(turns[..|turns| - 1], gid, other); }
  }

  /** The sockets proper of a list. */
  function Proper(sockets: seq<nat>): seq<nat> {
    if sockets == [] then [] else (if sockets[0] == NULL then [] else [sockets[0]]) + Proper(sockets[1..])
  }

  lemma {:induction false} ProperAppend(a: seq<nat>, b: seq<nat>)
    ensures Proper(a + b) == Proper(a) + Proper(b)
  {
    if a == [] {
      assert a + b == b;
    } else {
      assert (a + b)[1..] == a[1..] + b;
      ProperAppend(a[1..], b);
    }
  }

  lemma ProperErase(s: seq<nat>, i: nat)
    requires i < |s|
    ensures |Proper(Erase(s, i))| == |Proper(s)| - if s[i] == NULL then 0 else 1
  {
    assert s == s[..i] + s[i..] && s[i..][1..] == s[i + 1..];
    ProperAppend(s[..i], s[i..]);
    ProperAppend(s[..i], s[i + 1..]);
  }

  /** Exactly the sockets that did so are out. */
  lemma {:induction false} RoundsEnd(t: Transfer, gid: nat, slot: nat, n: nat, r: Round)
    requires r.Valid() && slot > 0
    ensures var e := Rounds(t, gid, slot, n, r);
            |Proper(r.sockets)| - |Proper(e.sockets)| == Ended(e.turns) - Ended(r.turns)
    decreases r.allowance + |r.sockets|
  {
    if !r.Over() {
      var r' := NextTurn(t, gid, slot, n, r);
      if r.sockets[r.itr] != NULL { assert r'.turns[..|r.turns|] == r.turns; }
      ProperErase(r.sockets, r.itr);
      RoundsEnd(t, gid, slot, n, r');
    }
  }

  lemma ProperSplit(s: seq<nat>, i: nat)
    requires i < |s|
    ensures Proper(s[i..]) == (if s[i] == NULL then [] else [s[i]]) + Proper(s[i + 1..])
  {
    var rest := s[i..];
    assert rest[0] == s[i] && rest[1..] == s[i + 1..];
  }

  /** The turns so far went to the first of `all` in order, and the sockets from `itr` on are the rest of `all`. */
  ghost predicate InOrder(r: Round, all: seq<nat>) {
    && (forall i :: 0 <= i < |r.turns| && i < |all| ==> r.turns[i].socket == all[i])
    && (|r.turns| < |all| ==> r.itr < |r.sockets| && Proper(r.sockets[r.itr..]) == all[|r.turns|..])
  }

  lemma TurnInOrder(t: Transfer, gid: nat, slot: nat, n: nat, r: Round, all: seq<nat>)
    requires r.Valid() && !r.Over() && InOrder(r, all)
    ensures InOrder(NextTurn(t, gid, slot, n, r), all)
  {
    var k := |r.turns|;
    var s, i := r.sockets, r.itr;
    var r' := NextTurn(t, gid, slot, n, r);
    if k < |all| {
      ProperSplit(s, i);
      var later := Proper(s[i + 1..]);
      if s[i] == NULL {
        assert later == all[k..];
        assert s[i + 1..] != [];
      } else {
        assert all[k..] == [s[i]] + later;
        assert all[k] == all[k..][0] == s[i] && all[k + 1..] == all[k..][1..] == later;
        assert k + 1 < |all| ==> s[i + 1..] != [];
      }
    }
  }

  /** The sockets have their first turns in order, before anyone has a second. */
  lemma {:induction false} RoundsFair(t: Transfer, gid: nat, slot: nat, n: nat, r: Round, all: seq<nat>)
    requires r.Valid() && slot > 0 && InOrder(r, all)
    ensures InOrder(Rounds(t, gid, slot, n, r), all)
    decreases r.allowance + |r.sockets|
  {
    if !r.Over() {
      TurnInOrder(t, gid, slot, n, r, all);
      RoundsFair(t, gid, slot, n, NextTurn(t, gid, slot, n, r), all);
    }
  }

  /** `processLimited`. */
  method ProcessLimited(t: Transfer, gid: nat, sockets0: seq<nat>, allowance0: nat, n: nat)
    returns (sockets: seq<nat>, allowance: nat, turns: seq<Turn>)
    requires sockets0 != [] && allowance0 < UINT32 && Slot(allowance0, |sockets0|) > 0
    ensures var e := Rounds(t, gid, Slot(allowance0, |sockets0|), n, Round(sockets0, 0, allowance0, []));
            sockets == e.sockets && allowance == e.allowance && turns == e.turns
  {
    sockets, allowance, turns := sockets0, allowance0, [];
    var bslot := Slot(allowance, |sockets|);
    var itr := 0;
    ghost var r := Round(sockets, itr, allowance, turns);
    ghost var end := Rounds(t, gid, bslot, n, r);
    while |sockets| > 0 && allowance > 0
      invariant r == Round(sockets, itr, allowance, turns) && r.Valid()
      invariant Rounds(t, gid, bslot, n, r) == end
      decreases allowance + |sockets|
    {
      r := NextTurn(t, gid, bslot, n, r);
      assert Rounds(t, gid, bslot, n, r) == end;
      var asked := Least(bslot, allowance);
      var s := sockets[itr];
      if s != NULL {
        var ret := t(s, n + |turns|, asked);
        turns := turns + [Turn(gid, s, asked, ret)];
        if ret != asked {
          sockets := Erase(sockets, itr);
        } else {
          itr := itr + 1;
        }
        allowance := Left(allowance, ret);
      } else {
        sockets := Erase(sockets, itr);
      }
      if itr == |sockets| { itr := 0; }
    }
  }

  /** `processUnlimited`: every socket has one turn without a limit. */
  method ProcessUnlimited(t: Transfer, gid: nat, sockets: seq<nat>, n: nat) returns (turns: seq<Turn>)
    ensures AllOf(turns, gid) && |turns| == |Proper(sockets)|
    ensures forall i :: 0 <= i < |turns| ==>
              turns[i] == Turn(gid, Proper(sockets)[i], 0, t(Proper(sockets)[i], n + i, 0))
  {
    turns := [];
    for i := 0 to |sockets|
      invariant |turns| == |Proper(sockets[..i])|
      invariant forall j :: 0 <= j < |turns| ==>
        var s := Proper(sockets[..i])[j]; turns[j] == Turn(gid, s, 0, t(s, n + j, 0))
    {
      assert sockets[..i + 1] == sockets[..i] + [sockets[i]] && [sockets[i]][1..] == [];
      ProperAppend(sockets[..i], [sockets[i]]);
      if sockets[i] != NULL {
        turns := turns + [Turn(gid, sockets[i], 0, t(sockets[i], n + |turns|, 0))];
      }
    }
    assert sockets[..|sockets|] == sockets;
  }

  /** Each socket of a group whose own allowance is not used up either is still there or ended its part in a turn. */
  ghost predicate Served(g0: Group, g: Group, ended: nat) {
    g.limit == 0 || g.allowance > 0 ==> ended + |Proper(g.sockets)| == |Proper(g0.sockets)|
  }

  /** The sockets of `all` have their first turns in order. */
  ghost predicate FirstTurns(turns: seq<Turn>, all: seq<nat>) {
    forall i :: 0 <= i < |turns| && i < |all| ==> turns[i].socket == all[i]
  }

  /** A group's own limit is charged with what it moved. */
  ghost predicate Charged(g0: Group, g: Group, moved: nat, obeyed: bool) {
    && g.limit == g0.limit && g.allowance <= g0.allowance
    && (g.limit > 0 ==> Spent(g0.allowance, g.allowance, moved, obeyed))
  }

  /** What the loop of `processLimited` comes to from a list of sockets and an allowance. */
  ghost predicate Ran(e: Round, gid: nat, sockets: seq<nat>, allowance: nat, slot: nat) {
    && AllOf(e.turns, gid) && Bounded(e.turns, allowance) && FirstTurns(e.turns, Proper(sockets))
    && Spent(allowance, e.allowance, Sum(e.turns), Obeyed(e.turns)) && Shared(e.turns, slot, allowance)
    && Ended(e.turns) + |Proper(e.sockets)| == |Proper(sockets)| && e.Over()
  }

  lemma RoundsRan(t: Transfer, gid: nat, sockets: seq<nat>, allowance: nat, slot: nat, n: nat)
    requires sockets != [] && slot > 0
    ensures Ran(Rounds(t, gid, slot, n, Round(sockets, 0, allowance, [])), gid, sockets, allowance, slot)
  {
    var r := Round(sockets, 0, allowance, []);
    assert sockets[0..] == sockets;
    RoundsSpend(t, gid, slot, n, r, allowance);
    RoundsEnd(t, gid, slot, n, r);
    RoundsFair(t, gid, slot, n, r, Proper(sockets));
    RoundsShare(t, gid, slot, n, r, allowance);
  }

  /** What a group may move at most: the smaller of the allowances there are. */
  function Permit(g: Group, global: nat): nat {
    if g.limit == 0 then global else if global == 0 then g.allowance else Least(global, g.allowance)
  }

  /** `SocketGroup::process` under the smaller of the global and its own allowance. */
  method Process(t: Transfer, gid: nat, g0: Group, global0: nat, n: nat)
    returns (g: Group, global: nat, ready: bool, turns: seq<Turn>)
    requires g0.sockets != [] && global0 + 1 < UINT32 && g0.allowance + 1 < UINT32
    ensures AllOf(turns, gid) && Charged(g0, g, Sum(turns), Obeyed(turns)) && global <= global0
    ensures global0 > 0 ==> Spent(global0, global, Sum(turns), Obeyed(turns)) && Bounded(turns, global0)
    ensures global0 > 0 ==> (ready <==> g.sockets != []) && (ready ==> global == 0)
    ensures global0 == 0 ==> !ready
    ensures global0 == 0 && g.limit > 0 ==> Bounded(turns, g0.allowance)
    ensures FirstTurns(turns, Proper(g0.sockets))
    ensures global0 > 0 || g.limit > 0 ==>
              Shared(turns, Slot(Permit(g0, global0), |g0.sockets|), Permit(g0, global0))
    ensures global0 > 0 || g.limit > 0 ==> Served(g0, g, Ended(turns))
    ensures global0 > 0 && global > 0 && (g.limit == 0 || g.allowance > 0) ==> g.sockets == []
    ensures global0 == 0 && g.limit > 0 && g.allowance > 0 ==> g.sockets == []
    ensures global0 == 0 && g.limit == 0 ==> |turns| == |Proper(g0.sockets)|
  {
    g, global, turns := g0, global0, [];
    SlotVanishes(global, |g.sockets|);
    SlotVanishes(g.allowance, |g.sockets|);
    if g.limit > 0 {
      var p := if global == 0 || global > g.allowance then g.allowance else global;
      assert p == Permit(g0, global0);
      var sockets, left;
      RoundsRan(t, gid, g.sockets, p, Slot(p, |g.sockets|), n);
      sockets, left, turns := ProcessLimited(t, gid, g.sockets, p, n);
      var done := p - left;
      g := g.(sockets := sockets, allowance := g.allowance - done);
      if global != 0 { global := Left(global, done); }
      ready := g.allowance != 0 && sockets != [];
      if g.allowance == 0 { g := g.(sockets := []); }
    } else if global > 0 {
      var sockets, left;
      RoundsRan(t, gid, g.sockets, global, Slot(global, |g.sockets|), n);
      sockets, left, turns := ProcessLimited(t, gid, g.sockets, global, n);
      g, global, ready := g.(sockets := sockets), left, sockets != [];
    } else {
      turns := ProcessUnlimited(t, gid, g.sockets, n);
      ready := false;
    }
  }

  // ---- all groups ----

  type Groups = map<nat, Group>

  /** Each group with a limit has been charged with exactly its own turns, and its sockets were served. */
  ghost predicate Accounts(groups0: Groups, groups: Groups, turns: seq<Turn>) {
    && groups.Keys == groups0.Keys
    && (forall gid <- groups :: Charged(groups0[gid], groups[gid], SumOf(turns, gid), Obeyed(turns)))
    && (forall gid <- groups :: Served(groups0[gid], groups[gid], EndedOf(turns, gid)))
  }

  ghost predicate Small(groups: Groups) {
    forall gid <- groups :: groups[gid].allowance + 1 < UINT32
  }

  lemma AccountsStep(groups0: Groups, groups: Groups, turns: seq<Turn>, gid: nat, g: Group, more: seq<Turn>)
    requires Accounts(groups0, groups, turns) && gid in groups
    requires AllOf(more, gid) && Charged(groups[gid], g, Sum(more), Obeyed(more)) && Served(groups[gid], g, Ended(more))
    ensures Accounts(groups0, groups[gid := g], turns + more)
    ensures Sum(turns + more) == Sum(turns) + Sum(more) && (Obeyed(turns + more) <==> Obeyed(turns) && Obeyed(more))
  {
    ObeyedAppend(turns, more);
    forall k | k in groups
      ensures Charged(groups0[k], groups[gid := g][k], SumOf(turns + more, k), Obeyed(turns + more))
      ensures Served(groups0[k], groups[gid := g][k], EndedOf(turns + more, k))
    {
      AddTurns(turns, more, gid, k);
    }
    SumAppend(turns, more, gid);
  }

  lemma AccountsChain(groups0: Groups, groups1: Groups, groups: Groups, turns: seq<Turn>, more: seq<Turn>)
    requires Accounts(groups0, groups1, turns) && Accounts(groups1, groups, more)
    ensures Accounts(groups0, groups, turns + more)
    ensures Sum(turns + more) == Sum(turns) + Sum(more) && (Obeyed(turns + more) <==> Obeyed(turns) && Obeyed(more))
  {
    ObeyedAppend(turns, more);
    forall k | k in groups
      ensures Charged(groups0[k], groups[k], SumOf(turns + more, k), Obeyed(turns + more))
      ensures Served(groups0[k], groups[k], EndedOf(turns + more, k))
    {
      SumAppend(turns, more, k);
      EndedAppend(turns, more, k);
    }
    SumAppend(turns, more, 0);
  }

  /** How the allowance is shared: `ceil(sockets / ready * allowance)`, computed in floating point. */
  type Share = (nat, nat, nat) -> nat

  ghost predicate ClearedBut(groups: Groups, rest: set<nat>) {
    forall gid <- groups :: gid in rest || groups[gid].sockets == []
  }

  lemma GroupsStep(groups: Groups, rest: set<nat>, gid: nat, g: Group)
    requires Small(groups) && gid in groups && g.allowance <= groups[gid].allowance
    ensures Small(groups[gid := g])
    ensures ClearedBut(groups, rest) && g.sockets == [] ==> ClearedBut(groups[gid := g], rest - {gid})
  {
  }

  lemma PassStep(allowance0: nat, allowance: nat, turns: seq<Turn>, before: nat, after: nat, more: seq<Turn>)
    requires Spent(allowance0, allowance, Sum(turns), Obeyed(turns)) && Bounded(turns, allowance0)
    requires before == allowance && Spent(before, after, Sum(more), Obeyed(more)) && Bounded(more, before)
    ensures Spent(allowance0, after, Sum(turns + more), Obeyed(turns + more)) && Bounded(turns + more, allowance0)
  {
    SumAppend(turns, more, 0);
    ObeyedAppend(turns, more);
  }

  /** The turn of one group in the loop of `doGroupsLimited`. */
  method DoGroup(t: Transfer, share: Share, groups0: Groups, gid: nat, numReady: nat, allowance0: nat, n: nat)
    returns (groups: Groups, allowance: nat, still: nat, turns: seq<Turn>)
    requires Small(groups0) && numReady > 0 && 0 < allowance0 && allowance0 + 1 < UINT32
    requires gid in groups0 && groups0[gid].sockets != []
    ensures Accounts(groups0, groups, turns) && Small(groups) && groups == groups0[gid := groups[gid]]
    ensures Spent(allowance0, allowance, Sum(turns), Obeyed(turns)) && Bounded(turns, allowance0)
    ensures if still > 0 then allowance < allowance0 else groups[gid].sockets == []
  {
    var groupAllowance := share(|groups0[gid].sockets|, numReady, allowance0);
    if groupAllowance > allowance0 || groupAllowance == 0 { groupAllowance := allowance0; }
    var g, ga, ready, more := Process(t, gid, groups0[gid], groupAllowance, n);
    if !ready { g := g.(sockets := []); }
    still := |g.sockets|;
    AccountsStep(groups0, groups0, [], gid, g, more);
    GroupsStep(groups0, {}, gid, g);
    assert [] + more == more;
    groups, turns := groups0[gid := g], more;
    var done := groupAllowance - ga;
    allowance := Left(allowance0, done);
  }

  /** `doGroupsLimited`: one pass over all groups. Its result is a truth value used as a number. */
  method DoGroupsLimited(t: Transfer, share: Share, groups0: Groups, numReady: nat, allowance0: nat, n: nat)
    returns (groups: Groups, allowance: nat, stillReady: nat, turns: seq<Turn>)
    requires Small(groups0) && numReady > 0 && allowance0 + 1 < UINT32
    ensures Accounts(groups0, groups, turns) && Small(groups)
    ensures Spent(allowance0, allowance, Sum(turns), Obeyed(turns)) && Bounded(turns, allowance0)
    ensures stillReady <= 1 && (stillReady == 1 ==> allowance < allowance0)
    ensures stillReady == 0 && allowance > 0 ==> Cleared(groups)
  {
    groups, allowance, turns := groups0, allowance0, [];
    var numStillReady: nat := 0;
    var rest := groups.Keys;
    while rest != {} && allowance > 0
      invariant rest <= groups.Keys && Accounts(groups0, groups, turns) && Small(groups)
      invariant Spent(allowance0, allowance, Sum(turns), Obeyed(turns)) && Bounded(turns, allowance0)
      invariant numStillReady > 0 ==> allowance < allowance0
      invariant numStillReady == 0 ==> ClearedBut(groups, rest)
      decreases |rest|
    {
      var gid :| gid in rest;
      if |groups[gid].sockets| > 0 {
        ghost var before, left := groups, allowance;
        var still, more;
        groups, allowance, still, more := DoGroup(t, share, groups, gid, numReady, allowance, n + |turns|);
        AccountsChain(groups0, before, groups, turns, more);
        PassStep(allowance0, left, turns, left, allowance, more);
        GroupsStep(before, rest, gid, groups[gid]);
        turns, numStillReady := turns + more, numStillReady + still;
      }
      rest := rest - {gid};
    }
    stillReady := if numStillReady > 0 then 1 else 0;
  }

  /** What a group may move until the next run: computed in floating point from its limit and the time passed. */
  type Grant = (nat, nat) -> nat

  function WithAllowance(g: Group, gid: nat, grant: Grant): Group {
    g.(allowance := if g.limit > 0 then grant(gid, g.limit) else 0)
  }

  ghost predicate Cleared(groups: Groups) {
    forall gid <- groups :: groups[gid].sockets == []
  }

  /** Within a run no group with a limit moved more than it was granted. */
  ghost predicate WithinGrants(groups: Groups, grant: Grant, turns: seq<Turn>) {
    Obeyed(turns) ==>
      forall gid <- groups :: groups[gid].limit > 0 ==> SumOf(turns, gid) <= grant(gid, groups[gid].limit)
  }

  /** What such a group with ready sockets did not move of its grant it has left. */
  ghost predicate KeepsRest(groups0: Groups, groups: Groups, grant: Grant, turns: seq<Turn>) {
    Obeyed(turns) ==>
      forall gid <- groups0 :: gid in groups && groups[gid].limit > 0 && groups0[gid].sockets != [] ==>
        SumOf(turns, gid) + groups[gid].allowance == grant(gid, groups[gid].limit)
  }

  /** Every ready socket of a group that has no limit, or has not used up its own allowance, ended its part in a turn:
      it moved something else than what it was allowed. */
  ghost predicate AllServed(groups0: Groups, groups: Groups, turns: seq<Turn>) {
    forall gid <- groups0 :: gid in groups && (groups[gid].limit == 0 || groups[gid].allowance > 0) ==>
      EndedOf(turns, gid) == |Proper(groups0[gid].sockets)|
  }

  /** Without a global limit: the sockets of a group without a limit have one turn each, in order, and those of the
      others are served likewise. */
  ghost predicate OneServed(g0: Group, g: Group, turns: seq<Turn>, gid: nat) {
    && g.limit == g0.limit && g.sockets == []
    && (g.limit == 0 ==> TurnsOf(turns, gid) == |Proper(g0.sockets)|)
    && (g.limit > 0 && g.allowance > 0 ==> EndedOf(turns, gid) == |Proper(g0.sockets)|)
  }

  /** A group none of these turns belongs to. */
  ghost predicate Idle(turns: seq<Turn>, gid: nat) {
    SumOf(turns, gid) == 0 && TurnsOf(turns, gid) == 0 && EndedOf(turns, gid) == 0
  }

  /** Further turns of group `gid` count for it and for no other group. */
  ghost predicate Adds(turns: seq<Turn>, more: seq<Turn>, gid: nat, k: nat) {
    && SumOf(turns + more, k) == SumOf(turns, k) + (if k == gid then Sum(more) else 0)
    && TurnsOf(turns + more, k) == TurnsOf(turns, k) + (if k == gid then |more| else 0)
    && EndedOf(turns + more, k) == EndedOf(turns, k) + if k == gid then Ended(more) else 0
  }

  lemma AddTurns(turns: seq<Turn>, more: seq<Turn>, gid: nat, k: nat)
    requires AllOf(more, gid)
    ensures Adds(turns, more, gid, k)
  {
    SumAppend(turns, more, k);
    SumOfOne(more, gid, k);
    EndedAppend(turns, more, k);
    EndedOfOne(more, gid, k);
  }

  ghost predicate SpentGrant(g0: Group, g: Group, turns: seq<Turn>, gid: nat, grant: Grant) {
    g.limit > 0 && g0.sockets != [] ==> SumOf(turns, gid) + g.allowance == grant(gid, g.limit)
  }

  /** The groups in `rest` wait, the others were served and kept to their grants. */
  ghost predicate ServedSoFar(groups0: Groups, groups: Groups, rest: set<nat>, turns: seq<Turn>, grant: Grant) {
    && groups.Keys == groups0.Keys
    && (forall gid <- groups :: gid in rest ==> groups[gid] == groups0[gid] && Idle(turns, gid))
    && (forall gid <- groups :: gid !in rest ==> OneServed(groups0[gid], groups[gid], turns, gid))
    && WithinGrants(groups, grant, turns)
    && (Obeyed(turns) ==>
          forall gid <- groups :: gid !in rest ==> SpentGrant(groups0[gid], groups[gid], turns, gid, grant))
  }

  lemma ServeGroup(groups0: Groups, groups: Groups, rest: set<nat>, turns: seq<Turn>, grant: Grant, gid: nat, g: Group,
                   more: seq<Turn>)
    requires gid in groups && gid in rest && ServedSoFar(groups0, groups, rest, turns, grant)
    requires AllOf(more, gid) && g.limit == groups[gid].limit && g.sockets == []
    requires g.limit > 0 && Obeyed(more) ==> Sum(more) + g.allowance == grant(gid, g.limit)
    requires g.limit == 0 ==> |more| == |Proper(groups[gid].sockets)|
    requires g.limit > 0 && g.allowance > 0 ==> Ended(more) == |Proper(groups[gid].sockets)|
    ensures ServedSoFar(groups0, groups[gid := g], rest - {gid}, turns + more, grant)
  {
    var groups', turns' := groups[gid := g], turns + more;
    assert groups[gid] == groups0[gid] && Idle(turns, gid);
    ObeyedAppend(turns, more);
    forall k | k in groups'
      ensures k in rest - {gid} ==> groups'[k] == groups0[k] && Idle(turns', k)
      ensures k !in rest - {gid} ==> OneServed(groups0[k], groups'[k], turns', k)
      ensures Obeyed(turns') && groups'[k].limit > 0 ==> SumOf(turns', k) <= grant(k, groups'[k].limit)
      ensures Obeyed(turns') && k !in rest - {gid} ==> SpentGrant(groups0[k], groups'[k], turns', k, grant)
    {
      AddTurns(turns, more, gid, k);
    }
  }

  lemma SkipGroup(groups0: Groups, groups: Groups, rest: set<nat>, turns: seq<Turn>, grant: Grant, gid: nat)
    requires gid in groups && gid in rest && ServedSoFar(groups0, groups, rest, turns, grant)
    requires groups[gid].sockets == []
    ensures ServedSoFar(groups0, groups, rest - {gid}, turns, grant)
  {
    assert OneServed(groups0[gid], groups[gid], turns, gid);
  }

  // ---- the set of groups ----

  datatype Change = Added(gid: nat, limit: nat) | Removed(gid: nat) | Relimited(gid: nat, limit: nat)

  function Changed(groups: Groups, c: Change): Groups {
    match c
    case Added(gid, limit) =>
      groups[gid := if gid in groups then groups[gid].(limit := limit) else Group(limit, [], 0)]
    case Removed(gid) => if gid == 0 then groups else groups - {gid}
    case Relimited(gid, limit) => if gid in groups then groups[gid := groups[gid].(limit := limit)] else groups
  }

  /** A change reaches its group, keeping its sockets, and no other. */
  lemma ChangeReaches(groups: Groups, c: Change, gid: nat)
    ensures var groups' := Changed(groups, c);
            && (gid != c.gid ==> (gid in groups' <==> gid in groups) && (gid in groups ==> groups'[gid] == groups[gid]))
            && (!c.Removed? && (c.Added? || c.gid in groups) ==>
                  && c.gid in groups' && groups'[c.gid].limit == c.limit
                  && groups'[c.gid].sockets == if c.gid in groups then groups[c.gid].sockets else [])
            && (c.Removed? && c.gid != 0 ==> c.gid !in groups')
            && (c.Relimited? && c.gid !in groups ==> c.gid !in groups')
  {
  }

  function ChangedAll(groups: Groups, cs: seq<Change>): Groups
    decreases |cs|
  {
    if cs == [] then groups else Changed(ChangedAll(groups, cs[..|cs| - 1]), cs[|cs| - 1])
  }

  /** The group a socket is put into: its own, or group 0 when that is gone. */
  function Home(groups: Groups, gid: nat): nat { if gid in groups then gid else 0 }

  /** Over every run of changes group 0 is there, so every socket has a group to go to. */
  lemma {:induction false} EverySocketHasAGroup(groups: Groups, cs: seq<Change>, gid: nat)
    requires 0 in groups
    ensures 0 in ChangedAll(groups, cs) && Home(ChangedAll(groups, cs), gid) in ChangedAll(groups, cs)
    decreases |cs|
  {
    if cs != [] { EverySocketHasAGroup(groups, cs[..|cs| - 1], gid); }
  }

  /** A socket that is ready, and the group it belongs to. */
  datatype Ready = Ready(gid: nat, socket: nat)

  /** The sockets among these that go to group `home`. */
  function Arrivals(groups: Groups, ready: seq<Ready>, home: nat): seq<nat>
    decreases |ready|
  {
    if ready == [] then [] else
      var last := ready[|ready| - 1];
      Arrivals(groups, ready[..|ready| - 1], home) + if Home(groups, last.gid) == home then [last.socket] else []
  }

  /** Every ready socket arrives, in its own group if that is there. */
  lemma {:induction false} ArrivesAtHome(groups: Groups, ready: seq<Ready>, i: nat)
    requires 0 in groups && i < |ready|
    ensures var home := if ready[i].gid in groups then ready[i].gid else 0;
            home in groups && ready[i].socket in Arrivals(groups, ready, home)
    decreases |ready|
  {
    if i < |ready| - 1 { ArrivesAtHome(groups, ready[..|ready| - 1], i); }
  }

  function Joined(g: Group, sockets: seq<nat>): Group { g.(sockets := g.sockets + sockets) }

  /** Every group has been joined by its arrivals. */
  ghost predicate Gathered(groups0: Groups, groups: Groups, ready: seq<Ready>) {
    && groups.Keys == groups0.Keys
    && forall gid <- groups :: groups[gid] == Joined(groups0[gid], Arrivals(groups0, ready, gid))
  }

  lemma GatherOne(groups0: Groups, groups: Groups, ready: seq<Ready>, n: nat, gid: nat)
    requires n < |ready| && Gathered(groups0, groups, ready[..n])
    requires gid == Home(groups0, ready[n].gid) && gid in groups
    ensures Gathered(groups0, groups[gid := Joined(groups[gid], [ready[n].socket])], ready[..n + 1])
  {
    var more := ready[..n + 1];
    assert more[..n] == ready[..n];
    forall k | k in groups
      ensures groups[gid := Joined(groups[gid], [ready[n].socket])][k]
           == Joined(groups0[k], Arrivals(groups0, more, k))
    {
      assert Arrivals(groups0, more, k)
          == Arrivals(groups0, ready[..n], k) + if gid == k then [ready[n].socket] else [];
    }
  }

  class NetworkThread {
    var groups: Groups

    /** Group 0 is always there. */
    ghost predicate Valid()
      reads this
    {
      0 in groups
    }

    constructor ()
      ensures Valid() && groups == map[0 := Group(0, [], 0)]
    {
      groups := map[0 := Group(0, [], 0)];
    }

    method AddGroup(gid: nat, limit: nat)
      requires Valid()
      modifies this
      ensures Valid() && groups == Changed(old(groups), Added(gid, limit))
    {
      if gid in groups {
        groups := groups[gid := groups[gid].(limit := limit)];
      } else {
        groups := groups[gid := Group(limit, [], 0)];
      }
    }

    method RemoveGroup(gid: nat)
      requires Valid()
      modifies this
      ensures Valid() && groups == Changed(old(groups), Removed(gid))
    {
      if gid != 0 { groups := groups - {gid}; }
    }

    method SetGroupLimit(gid: nat, limit: nat)
      requires Valid()
      modifies this
      ensures Valid() && groups == Changed(old(groups), Relimited(gid, limit))
    {
      if gid in groups { groups := groups[gid := groups[gid].(limit := limit)]; }
    }

    /** The first loop of `update` in the upload and download threads: every ready socket joins its group, or
        group 0, which is why that must be there; none is dropped. */
    method Gather(ready: seq<Ready>) returns (numReady: nat)
      requires Valid()
      modifies this
      ensures Valid() && numReady == |ready| && Gathered(old(groups), groups, ready)
    {
      numReady := 0;
      while numReady < |ready|
        invariant numReady <= |ready| && Valid() && Gathered(old(groups), groups, ready[..numReady])
      {
        var r := ready[numReady];
        var gid := if r.gid in groups then r.gid else 0;
        GatherOne(old(groups), groups, ready, numReady, gid);
        groups := groups[gid := groups[gid].(sockets := groups[gid].sockets + [r.socket])];
        numReady := numReady + 1;
      }
      assert ready[..numReady] == ready;
    }

    method CalcAllowances(grant: Grant)
      requires Valid()
      modifies this
      ensures Valid() && groups == map gid | gid in old(groups) :: WithAllowance(old(groups)[gid], gid, grant)
    {
      var rest := groups.Keys;
      while rest != {}
        invariant rest <= groups.Keys == old(groups).Keys
        invariant forall gid <- groups ::
          groups[gid] == if gid in rest then old(groups)[gid] else WithAllowance(old(groups)[gid], gid, grant)
        decreases |rest|
      {
        var gid :| gid in rest;
        rest := rest - {gid};
        groups := groups[gid := WithAllowance(groups[gid], gid, grant)];
      }
    }

    method ClearAll()
      requires Valid()
      modifies this
      ensures Valid() && Cleared(groups) && groups.Keys == old(groups).Keys
      ensures forall gid <- groups :: groups[gid] == old(groups)[gid].(sockets := [])
    {
      var rest := groups.Keys;
      while rest != {}
        invariant rest <= groups.Keys == old(groups).Keys
        invariant forall gid <- groups ::
          groups[gid] == if gid in rest then old(groups)[gid] else old(groups)[gid].(sockets := [])
        decreases |rest|
      {
        var gid :| gid in rest;
        rest := rest - {gid};
        groups := groups[gid := groups[gid].(sockets := [])];
      }
    }

    /** `doGroups` with a global limit, which gives `initial` bytes for this run: at most that many are moved,
        exactly what the allowance went down by; no socket is ever let loose, no group exceeds its own grant,
        and no socket is left waiting. */
    method DoGroupsLimitedBy(t: Transfer, share: Share, grant: Grant, numReady0: nat, initial: nat)
      returns (final: nat, turns: seq<Turn>)
      requires Valid() && initial + 1 < UINT32 && forall gid, l :: grant(gid, l) + 1 < UINT32
      modifies this
      ensures Valid() && Cleared(groups) && groups.Keys == old(groups).Keys
      ensures Spent(initial, final, Sum(turns), Obeyed(turns)) && Bounded(turns, initial)
      ensures WithinGrants(groups, grant, turns) && KeepsRest(old(groups), groups, grant, turns)
      ensures final > 0 && numReady0 > 0 ==> AllServed(old(groups), groups, turns)
    {
      CalcAllowances(grant);
      ghost var granted := groups;
      var numReady := numReady0;
      final, turns := initial, [];
      while final > 0 && numReady > 0
        invariant Valid() && Accounts(granted, groups, turns) && Small(groups)
        invariant Spent(initial, final, Sum(turns), Obeyed(turns)) && Bounded(turns, initial)
        invariant numReady == 0 && final > 0 && numReady0 > 0 ==> Cleared(groups)
        decreases final, numReady
      {
        var more;
        ghost var before, left := groups, final;
        groups, final, numReady, more := DoGroupsLimited(t, share, groups, numReady, final, |turns|);
        AccountsChain(granted, before, groups, turns, more);
        PassStep(initial, left, turns, left, final, more);
        turns := turns + more;
      }
      ClearAll();
    }

    /** `doGroups` without a global limit: the groups with a limit of their own keep to it. */
    method DoGroupsUnlimited(t: Transfer, grant: Grant) returns (turns: seq<Turn>)
      requires Valid() && forall gid, l :: grant(gid, l) + 1 < UINT32
      modifies this
      ensures Valid() && Cleared(groups) && groups.Keys == old(groups).Keys
      ensures WithinGrants(groups, grant, turns) && KeepsRest(old(groups), groups, grant, turns)
      ensures forall gid <- groups :: OneServed(old(groups)[gid], groups[gid], turns, gid)
    {
      turns := [];
      var rest := groups.Keys;
      while rest != {}
        invariant rest <= groups.Keys && ServedSoFar(old(groups), groups, rest, turns, grant)
        decreases |rest|
      {
        var gid :| gid in rest;
        if |groups[gid].sockets| > 0 {
          var g, _, _, more := Process(t, gid, WithAllowance(groups[gid], gid, grant), 0, |turns|);
          ServeGroup(old(groups), groups, rest, turns, grant, gid, g.(sockets := []), more);
          turns := turns + more;
          groups := groups[gid := g.(sockets := [])];
        } else {
          SkipGroup(old(groups), groups, rest, turns, grant, gid);
        }
        rest := rest - {gid};
      }
    }
  }
}
