/** Nobody waits in a circle: a request that cannot move waits for one submitted before it. */
module Progress {
  import opened Basics
  import opened Requests
  import opened Serial

  /** The request can be sorted into a queue, admitted, issued or completed right now. */
  ghost predicate Enabled(s: State, x: nat)
    requires x in s.reqs && InRange(s, s.reqs[x].kind)
  {
    match s.reqs[x].loc
    case InHand => Synced(s, x)
    case BlockedByBuf => false
    case BlockedByRow => Passes(s, s.reqs[x].kind)
    case WaitingForRx => Passes(s, s.reqs[x].kind)
    case Active => Front(s, x)
  }

  /** What a request that cannot move is waiting for: an earlier request of its buffer, a request of
      its block that is not admitted, or a reception of its command. */
  ghost predicate WaitsFor(s: State, x: nat, y: nat)
    requires x in s.reqs && y in s.reqs
  {
    var r, q := s.reqs[x], s.reqs[y];
    match r.loc
    case BlockedByBuf => r.buf.Some? && q.buf == r.buf
    case WaitingForRx => r.kind.TxDma? && q.kind == RxDma(r.kind.cmd)
    case Active => false
    case _ => Nand(r.kind) && Waits(q, r.kind.block)
  }

  ghost predicate HeldBack(s: State, x: nat)
    requires x in s.reqs
  {
    exists y :: y in s.reqs && s.reqs[y].num < s.reqs[x].num && WaitsFor(s, x, y)
  }

  lemma BufHeldBack(s: State, x: nat, pages: nat)
    requires Ok(s, pages, None) && x in s.reqs && s.reqs[x].loc.BlockedByBuf?
    ensures HeldBack(s, x)
  {
    hide GenOk, CountsOk, LogsOk, RxFirst, Distinct;
    assert Heads(s, x, None);
    var k := s.reqs[x].buf.value;
    assert ChainOk(s, k);
    var i :| 0 <= i < |s.chains[k]| && s.chains[k][i] == x;
    assert s.reqs[s.chains[k][0]].num < s.reqs[s.chains[k][i]].num;
    assert WaitsFor(s, x, s.chains[k][0]);
  }

  lemma TxHeldBack(s: State, x: nat, pages: nat)
    requires Ok(s, pages, None) && x in s.reqs && InRange(s, s.reqs[x].kind)
    requires s.reqs[x].loc.WaitingForRx? && !Passes(s, s.reqs[x].kind)
    ensures HeldBack(s, x)
  {
    hide GenOk, LogsOk, Distinct, ChainOk, Heads;
    assert ReqOk(s, x);
    var cmd := s.reqs[x].kind.cmd;
    assert |Rxs(s.reqs, cmd)| > 0;
    var y :| y in Rxs(s.reqs, cmd);
    assert WaitsFor(s, x, y);
  }

  lemma PendingHolds(s: State, x: nat, b: nat, p: nat, n: nat)
    requires x in s.reqs && OfBlock(s.reqs[x].kind, b) && (s.reqs[x].loc.BlockedByRow? || s.reqs[x].loc.InHand?)
    requires Pending(s, b, p, n) && n < s.reqs[x].num
    ensures HeldBack(s, x)
  {
    var y :| y in s.reqs && s.reqs[y].kind == Write(b, p) && s.reqs[y].num == n && !s.reqs[y].loc.Active?;
    assert WaitsFor(s, x, y);
  }

  lemma EraseHolds(s: State, x: nat, b: nat, e: nat)
    requires x in s.reqs && OfBlock(s.reqs[x].kind, b) && (s.reqs[x].loc.BlockedByRow? || s.reqs[x].loc.InHand?)
    requires e in s.reqs && Waits(s.reqs[e], b) && s.reqs[e].num < s.reqs[x].num
    ensures HeldBack(s, x)
  {
    assert WaitsFor(s, x, e);
  }

  lemma HandHeldBack(s: State, x: nat, pages: nat)
    requires Ok(s, pages, None) && x in s.reqs && s.reqs[x].loc.InHand? && !Synced(s, x)
    ensures HeldBack(s, x)
  {
    hide CountsOk, LogsOk, ChainOk, Heads, RxFirst;
    assert ReqOk(s, x);
    var b := s.reqs[x].kind.block;
    assert GenOk(s, b, pages);
    var e := s.gens[b].erase.value;
    assert ReqOk(s, e);
    EraseHolds(s, x, b, e);
  }

  lemma WriteHeldBack(s: State, x: nat, pages: nat)
    requires Ok(s, pages, None) && x in s.reqs && s.reqs[x].kind.Write? && s.reqs[x].loc.BlockedByRow?
    requires InRange(s, s.reqs[x].kind) && !Passes(s, s.reqs[x].kind)
    ensures HeldBack(s, x)
  {
    hide CountsOk, LogsOk, ChainOk, Heads, RxFirst, ReqOk, Pending, HeldBack;
    var b, p := s.reqs[x].kind.block, s.reqs[x].kind.page;
    var g, permitted := s.gens[b], s.rows[b].permittedProgPage;
    assert GenOk(s, b, pages) && Placed(s, x, b);
    if g.erase.None? {
      PendingHolds(s, x, b, permitted, g.current[permitted]);
    } else if s.reqs[x].num < s.reqs[g.erase.value].num {
      PendingHolds(s, x, b, permitted, g.previous[permitted]);
    } else {
      EraseHolds(s, x, b, g.erase.value);
    }
  }

  lemma ReadHeldBack(s: State, x: nat, pages: nat)
    requires Ok(s, pages, None) && x in s.reqs && s.reqs[x].kind.Read? && s.reqs[x].loc.BlockedByRow?
    requires InRange(s, s.reqs[x].kind) && !Passes(s, s.reqs[x].kind)
    ensures HeldBack(s, x)
  {
    hide CountsOk, LogsOk, ChainOk, Heads, RxFirst, ReqOk, Pending, HeldBack;
    var b, p := s.reqs[x].kind.block, s.reqs[x].kind.page;
    var g := s.gens[b];
    assert GenOk(s, b, pages) && Placed(s, x, b);
    if g.erase.None? {
      PendingHolds(s, x, b, p, g.current[p]);
    } else {
      PendingHolds(s, x, b, p, g.previous[p]);
    }
  }

  lemma EraseHeldBack(s: State, x: nat, pages: nat)
    requires Ok(s, pages, None) && x in s.reqs && s.reqs[x].kind.Erase? && s.reqs[x].loc.BlockedByRow?
    requires InRange(s, s.reqs[x].kind) && !Passes(s, s.reqs[x].kind)
    ensures HeldBack(s, x)
  {
    hide LogsOk, ChainOk, Heads, RxFirst, Pending, HeldBack;
    var b := s.reqs[x].kind.block;
    var g, permitted := s.gens[b], s.rows[b].permittedProgPage;
    assert GenOk(s, b, pages) && Placed(s, x, b);
    if permitted < pages {
      PendingHolds(s, x, b, permitted, g.previous[permitted]);
    } else {
      assert |Reads(s.reqs, b)| > 0;
      var y :| y in Reads(s.reqs, b);
      assert Placed(s, y, b);
      EraseHolds(s, x, b, y);
    }
  }

  /** A request that cannot move waits for one submitted before it. */
  lemma WaitsForEarlier(s: State, x: nat, pages: nat)
    requires Ok(s, pages, None) && x in s.reqs && InRange(s, s.reqs[x].kind) && !Enabled(s, x) && !s.reqs[x].loc.Active?
    ensures HeldBack(s, x)
  {
    hide GenOk, CountsOk, LogsOk, ChainOk, Heads, RxFirst, HeldBack;
    assert ReqOk(s, x);
    match s.reqs[x].loc
    case InHand => HandHeldBack(s, x, pages);
    case BlockedByBuf => BufHeldBack(s, x, pages);
    case WaitingForRx => TxHeldBack(s, x, pages);
    case BlockedByRow =>
      match s.reqs[x].kind {
        case Read(_, _) => ReadHeldBack(s, x, pages);
        case Write(_, _) => WriteHeldBack(s, x, pages);
        case Erase(_, _) => EraseHeldBack(s, x, pages);
      }
  }

  /** The live request submitted first. */
  ghost predicate Oldest(s: State, x: nat) {
    x in s.reqs && forall y :: y in s.reqs ==> s.reqs[x].num <= s.reqs[y].num
  }

  lemma {:induction false} OldestFrom(s: State, x: nat) returns (o: nat)
    requires x in s.reqs
    ensures Oldest(s, o)
    decreases s.reqs[x].num
  {
    if y :| y in s.reqs && s.reqs[y].num < s.reqs[x].num {
      o := OldestFrom(s, y);
    } else {
      o := x;
    }
  }

  /** The request to move when o is the oldest: o itself, unless it stands in its NAND queue. */
  function Mover(s: State, o: nat): (x: nat)
    requires o in s.reqs && InRange(s, s.reqs[o].kind)
  {
    var k := s.reqs[o].kind;
    if s.reqs[o].loc.Active? && Nand(k) && s.nand[k.block] != [] then s.nand[k.block][0] else o
  }

  /** Whenever a request is live, some request can move. */
  lemma NoDeadlock(s: State, pages: nat, x: nat)
    requires Ok(s, pages, None) && Queued(s) && x in s.reqs
    ensures exists o :: o in s.reqs && InRange(s, s.reqs[o].kind) && Enabled(s, o)
  {
    var o := OldestFrom(s, x);
    OldestMoves(s, pages, o);
  }

  lemma OldestMoves(s: State, pages: nat, o: nat)
    requires Ok(s, pages, None) && Queued(s) && Oldest(s, o)
    ensures InRange(s, s.reqs[o].kind)
    ensures var x := Mover(s, o); x in s.reqs && InRange(s, s.reqs[x].kind) && Enabled(s, x)
    ensures !s.reqs[o].loc.Active? ==> Mover(s, o) == o
    ensures s.reqs[o].loc.Active? ==> s.reqs[Mover(s, o)].loc.Active?
  {
    hide GenOk, CountsOk, LogsOk, ChainOk, Heads, RxFirst;
    assert ReqOk(s, o);
    if s.reqs[o].loc.Active? {
      assert ReqOk(s, Mover(s, o));
    } else if !Enabled(s, o) {
      WaitsForEarlier(s, o, pages);
    }
  }

  // ---- how far the live requests still have to go ----

  function Rank(l: Loc): (n: nat) {
    match l
    case InHand => 4
    case BlockedByBuf => 3
    case BlockedByRow => 2
    case WaitingForRx => 2
    case Active => 1
  }

  ghost function AtLeast(reqs: map<nat, Req>, n: nat): (r: set<nat>) {
    set x | x in reqs && Rank(reqs[x].loc) >= n
  }

  ghost function ToGo(reqs: map<nat, Req>): (n: nat) {
    |AtLeast(reqs, 1)| + |AtLeast(reqs, 2)| + |AtLeast(reqs, 3)| + |AtLeast(reqs, 4)|
  }

  lemma MovedToGo(reqs: map<nat, Req>, x: nat, loc: Loc)
    requires x in reqs && Rank(loc) <= Rank(reqs[x].loc)
    ensures ToGo(reqs[x := reqs[x].(loc := loc)]) <= ToGo(reqs)
    ensures Rank(loc) < Rank(reqs[x].loc) ==> ToGo(reqs[x := reqs[x].(loc := loc)]) < ToGo(reqs)
  {
    var t := reqs[x := reqs[x].(loc := loc)];
    AtLeastMoved(reqs, x, loc, 1);
    AtLeastMoved(reqs, x, loc, 2);
    AtLeastMoved(reqs, x, loc, 3);
    AtLeastMoved(reqs, x, loc, 4);
  }

  lemma AtLeastMoved(reqs: map<nat, Req>, x: nat, loc: Loc, n: nat)
    requires x in reqs && Rank(loc) <= Rank(reqs[x].loc)
    ensures |AtLeast(reqs[x := reqs[x].(loc := loc)], n)| ==
            |AtLeast(reqs, n)| - (if Rank(loc) < n <= Rank(reqs[x].loc) then 1 else 0)
  {
    var t := reqs[x := reqs[x].(loc := loc)];
    assert AtLeast(t, n) == if n <= Rank(loc) then AtLeast(reqs, n) else AtLeast(reqs, n) - {x};
    assert x in AtLeast(reqs, n) <==> n <= Rank(reqs[x].loc);
  }

  lemma GoneToGo(reqs: map<nat, Req>, x: nat)
    requires x in reqs
    ensures ToGo(reqs - {x}) < ToGo(reqs)
  {
    forall n ensures AtLeast(reqs - {x}, n) == AtLeast(reqs, n) - {x} {
    }
    assert x in AtLeast(reqs, 1);
  }
}
