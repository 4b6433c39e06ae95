/** The dependency engine: attaching requests to buffers, sorting them into queues, releasing
    them, with NAND and DMA completions arriving in any order. */
module Engine {
  import opened Links
  import opened Basics
  import opened Requests
  import opened Serial
  import opened Progress
  import opened Runs
  import opened Sync

  class Engine {
    const pages: nat
    const links: LinkTable         // per buffer entry: blockingReqTail and the prev/nextBlockingReq links
    var reqs: map<nat, Req>        // the live requests by slot
    var rows: seq<Row>             // the row address dependency table
    var rxLeft: seq<nat>           // notCompletedRxCount of every command slot
    var clock: nat                 // number of requests submitted
    var nand: seq<seq<nat>>        // the admitted requests of every block, in the order of their NAND queue
    ghost var gens: seq<Gen>
    ghost var logs: seq<seq<Op>>
    ghost var done: seq<Req>
    ghost const Repr: set<object> := {this} + links.Repr

    ghost function S(): State
      reads this, links
    {
      State(reqs, links.lists, rows, rxLeft, clock, gens, logs, nand, done)
    }

    /** Links and live requests fit together: a slot is on a chain exactly while its request has a buffer. */
    ghost predicate Linked()
      reads Repr
    {
      && this !in links.Repr && links.Valid()
      && (forall x :: x in reqs ==> x < links.size)
      && (forall x :: 0 <= x < links.size && !(x in reqs && reqs[x].buf.Some?) ==> links.Detached(x))
    }

    ghost predicate Valid()
      reads Repr
    {
      Linked() && Ok(S(), pages, None) && InSeries(S())
    }

    constructor (pagesPerBlock: nat, slots: nat, buffers: nat, blocks: nat, commands: nat)
      requires slots <= NONE
      ensures Valid() && fresh(Repr) && reqs == map[] && pages == pagesPerBlock
    {
      pages := pagesPerBlock;
      links := new LinkTable(slots, buffers);
      reqs, clock := map[], 0;
      rows, rxLeft := seq(blocks, _ => Row(0, 0, false)), seq(commands, _ => 0);
      nand, done := seq(blocks, _ => []), [];
      gens, logs := seq(blocks, _ => Gen([], None, [])), seq(blocks, _ => []);
      new;
      hide WellLinked;
      EmptyOk(S(), pages);
    }

    /** Append a request to the chain of its buffer. */
    method UpdateBlockingReq(x: nat, buf: Option<nat>)
      requires links.Valid() && x < links.size && links.Detached(x) && (buf.Some? ==> buf.value < links.count)
      modifies links.Repr
      ensures links.Valid()
      ensures links.lists == if buf.Some? then old(links.lists)[buf.value := old(links.lists)[buf.value] + [x]]
              else old(links.lists)
      ensures forall y :: (y != x || buf.None?) && old(links.Detached(y)) ==> links.Detached(y)
    {
      hide WellLinked;
      if buf.Some? {
        links.PutTail(buf.value, x);
      }
    }

    /** A new request takes a free slot and is appended to the chain of its buffer. */
    method Enter(x: nat, k: Kind, buf: Option<nat>)
      requires Linked() && x < links.size && x !in reqs && InRange(S(), k) && (buf.Some? ==> buf.value < |links.lists|)
      modifies Repr
      ensures Linked() && S() == Submitted(old(S()), x, k, buf)
    {
      hide LinkTable.Valid, LinkTable.Detached, Submitted;
      SubmittedFields(S(), x, k, buf);
      links.Counts();
      UpdateBlockingReq(x, buf);
      reqs := reqs[x := Req(clock, k, buf, InHand)];
      if k.RxDma? {
        rxLeft := rxLeft[k.cmd := Halfword(rxLeft[k.cmd] + 1)];
      }
      gens := Submitted(old(S()), x, k, buf).gens;
      clock := clock + 1;
    }

    /** A request is submitted under the conditions the rest of the firmware has to see to. */
    method Submit(x: nat, k: Kind, buf: Option<nat>)
      requires Valid() && x < links.size && CanSubmit(S(), x, k, buf, pages)
      modifies Repr
      ensures Valid() && S() == Submitted(old(S()), x, k, buf)
    {
      hide Ok, InSeries, LinkTable.Valid, LinkTable.Detached, CanSubmit, Submitted;
      SubmitKeeps(S(), x, k, buf, pages);
      SubmitInSeries(S(), x, k, buf, pages);
      SubmitFresh(S(), x, k, buf, pages);
      Enter(x, k, buf);
    }

    /** Nobody is ahead of the request at its buffer. */
    function CheckBufDep(x: nat): (pass: bool)
      requires Valid() && x in reqs
      reads Repr
      ensures pass <==> First(S(), x)
    {
      BufDepTells(x);
      links.prev[x] == NONE
    }

    lemma BufDepTells(x: nat)
      requires Valid() && x in reqs
      ensures x < links.size == links.prev.Length && (links.prev[x] == NONE <==> First(S(), x))
    {
      hide WellLinked, GenOk, CountsOk, LogsOk, ChainOk, RxFirst, Distinct;
      assert Heads(S(), x, None);
      if reqs[x].buf.Some? {
        var k := reqs[x].buf.value;
        var i :| 0 <= i < |links.lists[k]| && links.lists[k][i] == x;
        links.NeighboursTell(k, i);
        links.NeighboursTell(k, 0);
      } else {
        assert links.Detached(x);
      }
    }

    /** A request is checked as released exactly when it has been queued before. */
    ghost predicate Releasing(r: Req, release: bool) {
      (r.kind.Read? ==> release == Counted(r)) && (r.kind.Erase? ==> release == !r.loc.InHand?)
    }

    /** The row address check, when a request is selected and when it is released. */
    method CheckRowAddrDep(x: nat, release: bool) returns (pass: bool)
      requires x in reqs && Nand(reqs[x].kind) && reqs[x].kind.block < |rows| && Releasing(reqs[x], release)
      modifies this`rows
      ensures var k := reqs[x].kind;
              && (pass <==> match k
                    case Read(b, p) => p < old(rows)[b].permittedProgPage
                    case Write(b, p) => p == old(rows)[b].permittedProgPage
                    case Erase(b, n) => old(rows)[b].permittedProgPage == n && old(rows)[b].blockedReadReqCnt == 0)
              && rows == old(rows)[k.block := NextRow(old(rows)[k.block], reqs[x], NextLoc(k, pass))]
    {
      var b := reqs[x].kind.block;
      var row := rows[b];
      pass := false;
      match reqs[x].kind {
        case Read(_, page) =>
          if page < row.permittedProgPage {
            if release {
              row := row.(blockedReadReqCnt := Halfword(row.blockedReadReqCnt - 1));
            }
            pass := true;
          } else if !release {
            row := row.(blockedReadReqCnt := Halfword(row.blockedReadReqCnt + 1));
          }
        case Write(_, page) =>
          if page == row.permittedProgPage {
            row := row.(permittedProgPage := row.permittedProgPage + 1);
            pass := true;
          }
        case Erase(_, programmedPageCnt) =>
          if row.permittedProgPage == programmedPageCnt && row.blockedReadReqCnt == 0 {
            row := row.(permittedProgPage := 0, blockedEraseReqFlag := false);
            pass := true;
          } else if !release {
            row := row.(blockedEraseReqFlag := true);
          }
      }
      rows := rows[b := row];
    }

    /** A request past the buffer check goes to its NAND or DMA queue, or waits for its row or a Rx. */
    method Place(x: nat, release: bool)
      requires Linked() && x in reqs && InRange(S(), reqs[x].kind) && Releasing(reqs[x], release)
      modifies this
      ensures Linked() && S() == Settled(old(S()), x)
    {
      hide LinkTable.Valid, NextRow;
      var k := reqs[x].kind;
      var pass := true;
      if Nand(k) {
        pass := CheckRowAddrDep(x, release);
        if pass {
          nand := nand[k.block := nand[k.block] + [x]];
          logs := logs[k.block := logs[k.block] + [OpOf(k)]];
          if k.Erase? && gens[k.block].erase == Some(x) {
            gens := gens[k.block := Gen(gens[k.block].current, None, [])];
          }
        }
      } else if k.TxDma? {
        pass := rxLeft[k.cmd] == 0;
      }
      reqs := reqs[x := reqs[x].(loc := if pass then Active else if k.TxDma? then WaitingForRx else BlockedByRow)];
    }

    /** Sort the request in hand into a queue, once no erase of its block is pending if it is a read. */
    method SortReq(x: nat)
      requires Valid() && x in reqs && reqs[x].loc.InHand? && Synced(S(), x)
      modifies Repr
      ensures Valid() && InRange(old(S()), old(reqs)[x].kind)
      ensures S() == if First(old(S()), x) then Settled(old(S()), x) else Moved(old(S()), x, BlockedByBuf)
      ensures old(reqs)[x].kind.TxDma? && First(old(S()), x) ==>
                x in reqs && (reqs[x].loc.Active? <==> NoneToReceive(old(S()), old(reqs)[x].kind.cmd))
    {
      hide Ok, InSeries, LinkTable.Valid, Moved, First, Settled;
      TxIssued(S(), x, pages);
      Kinds(S(), x, pages, None);
      if CheckBufDep(x) {
        SettleKeeps(S(), x, pages, None);
        SettleInSeries(S(), x, pages, None);
        Place(x, false);
      } else {
        BlockKeeps(S(), x, pages);
        MoveInSeries(S(), x, BlockedByBuf, pages, None);
        PutToBlockedByBufDepReqQ(x);
      }
    }

    method PutToBlockedByBufDepReqQ(x: nat)
      requires Linked() && x in reqs && InRange(S(), reqs[x].kind) && reqs[x].loc.InHand?
      modifies this
      ensures Linked() && S() == Moved(old(S()), x, BlockedByBuf)
    {
      hide LinkTable.Valid;
      var k := reqs[x].kind;
      if k.Read? {
        rows := rows[k.block := rows[k.block].(blockedReadReqCnt := Halfword(rows[k.block].blockedReadReqCnt + 1))];
      } else if k.Erase? {
        rows := rows[k.block := rows[k.block].(blockedEraseReqFlag := true)];
      }
      reqs := reqs[x := reqs[x].(loc := BlockedByBuf)];
    }

    /** Take the first request off the chain of its buffer. */
    method PopChain(x: nat, buf: Option<nat>) returns (next: Option<nat>)
      requires links.Valid() && |links.lists| == links.count && x < links.size
      requires buf.Some? ==> buf.value < links.count && links.lists[buf.value] != [] && links.lists[buf.value][0] == x
      modifies links.Repr
      ensures links.Valid() && (buf.Some? ==> links.Detached(x))
      ensures links.lists == if buf.Some? then old(links.lists)[buf.value := old(links.lists)[buf.value][1..]]
              else old(links.lists)
      ensures next == if buf.Some? && |old(links.lists)[buf.value]| > 1
                      then Some(old(links.lists)[buf.value][1]) else None
      ensures forall y :: old(links.Detached(y)) ==> links.Detached(y)
    {
      hide WellLinked;
      next := None;
      if buf.Some? {
        links.NeighboursTell(buf.value, 0);
        if links.next[x] != NONE {
          next := Some(links.next[x]);
        }
        var y := links.PopHead(buf.value);
        links.Clear(x);
      }
    }

    /** Take a completed request off the front of its chain and out of the pool. */
    method PopBlockingReq(x: nat) returns (next: Option<nat>)
      requires Linked() && x in reqs && InRange(S(), reqs[x].kind) && First(S(), x)
      modifies this, links.Repr
      ensures Linked() && S() == Completed(old(S()), x) && next == Successor(old(S()), x)
    {
      hide LinkTable.Valid, LinkTable.Detached, Completed;
      links.Counts();
      CompletedFields(S(), x);
      var r := reqs[x];
      next := PopChain(x, r.buf);
      if r.kind.RxDma? {
        rxLeft := rxLeft[r.kind.cmd := Halfword(rxLeft[r.kind.cmd] as int - 1)];
      }
      if Nand(r.kind) && nand[r.kind.block] != [] {
        nand := nand[r.kind.block := nand[r.kind.block][1..]];
      }
      reqs := reqs - {x};
      done := done + [r];
    }

    /** A NAND operation or host DMA completes: its request leaves, and the next one of its buffer,
        if it was waiting for the buffer, is released. NAND operations on a block complete in the
        order of their queue. */
    method Complete(x: nat)
      requires Valid() && x in reqs && reqs[x].loc.Active? && Front(S(), x)
      modifies Repr
      ensures Valid() && InRange(old(S()), old(reqs)[x].kind) && First(old(S()), x)
      ensures S() == Retired(old(S()), x)
    {
      hide Ok, InSeries, WellLinked, First, Completed, Moved;
      ActiveFirst(S(), x, pages);
      CompleteKeeps(S(), x, pages);
      CompleteInSeries(S(), x, pages);
      NextFirst(S(), x, pages);
      ghost var t := Completed(S(), x);
      var next := PopBlockingReq(x);
      NextLive(t, pages, next);
      if next.Some? && next.value in reqs && reqs[next.value].loc.BlockedByBuf? {
        SettleKeeps(t, next.value, pages, next);
        SettleInSeries(t, next.value, pages, next);
        Place(next.value, true);
      }
    }

    /** The row address queue's scan reaches a request. */
    method Revisit(x: nat)
      requires Valid() && x in reqs && reqs[x].loc.BlockedByRow?
      modifies Repr
      ensures Valid() && InRange(old(S()), old(reqs)[x].kind) && S() == Settled(old(S()), x)
    {
      hide Ok, InSeries, LinkTable.Valid, Moved;
      Kinds(S(), x, pages, None);
      PastBuf(S(), x, pages);
      SettleKeeps(S(), x, pages, None);
      SettleInSeries(S(), x, pages, None);
      Place(x, true);
    }

    /** The scan over a row-blocked queue: its requests are visited in order, each against the row table
        the visits before it left. Those that pass go to their NAND queue, the others stay, in order. */
    method ReleaseBlockedByRowAddrDepReq(queue: seq<nat>) returns (left: seq<nat>)
      requires Valid() && forall i :: 0 <= i < |queue| ==> queue[i] in reqs && reqs[queue[i]].loc.BlockedByRow?
      requires forall i, j :: 0 <= i < j < |queue| ==> queue[i] != queue[j]
      modifies Repr
      ensures Valid() && S() == Scanned(old(S()), queue) && left == Blocked(reqs, queue)
    {
      hide Ok, InSeries, LinkTable.Valid, Settled, Scanned, Blocked;
      left := [];
      ScannedNone(S());
      BlockedNone(reqs);
      var i := 0;
      while i < |queue|
        invariant 0 <= i <= |queue| && Valid() && S() == Scanned(old(S()), queue[..i])
        invariant left == Blocked(reqs, queue[..i])
      {
        var x := queue[i];
        Unvisited(old(S()), queue, i);
        ghost var s := S();
        Revisit(x);
        ScannedNext(old(S()), queue, i);
        BlockedOn(s, queue, i);
        VisitedReqs(s, x);
        if reqs[x].loc.BlockedByRow? {
          left := left + [x];
        }
        i := i + 1;
      }
      assert queue[..i] == queue;
    }

    /** The custom queue's scan reaches a transmission that is not issued. It has passed the buffer
        check, so the branch for a blocked request is never taken. */
    method IssueWaitingTx(x: nat)
      requires Valid() && x in reqs && reqs[x].loc.WaitingForRx?
      modifies Repr
      ensures Valid() && InRange(old(S()), old(reqs)[x].kind) && First(old(S()), x) && S() == Settled(old(S()), x)
      ensures old(reqs)[x].kind.TxDma? && x in reqs
      ensures reqs[x].loc.Active? <==> NoneToReceive(old(S()), old(reqs)[x].kind.cmd)
    {
      hide Ok, InSeries, LinkTable.Valid, Moved, Settled;
      TxIssued(S(), x, pages);
      Kinds(S(), x, pages, None);
      PastBuf(S(), x, pages);
      SettleKeeps(S(), x, pages, None);
      SettleInSeries(S(), x, pages, None);
      Place(x, true);
    }

    /** Let request o move, or the one at the front of the NAND queue it stands in. */
    method Advance(o: nat) returns (ghost x: nat)
      requires Valid() && o in reqs && InRange(S(), reqs[o].kind)
      requires var f := Mover(S(), o); f in reqs && InRange(S(), reqs[f].kind) && Enabled(S(), f)
      requires if reqs[o].loc.Active? then reqs[Mover(S(), o)].loc.Active? else Mover(S(), o) == o
      modifies Repr
      ensures Valid() && x == Mover(old(S()), o) && Closer(old(S()), S(), x)
    {
      hide Ok, InSeries, LinkTable.Valid, Moved, First, Completed, ToGo, Closer;
      ghost var s := S();
      x := Mover(s, o);
      match reqs[o].loc {
        case InHand =>
          MovesOn(s, o);
          SortReq(o);
        case BlockedByRow =>
          MovesOn(s, o);
          Revisit(o);
        case WaitingForRx =>
          MovesOn(s, o);
          IssueWaitingTx(o);
        case Active =>
          var k := reqs[o].kind;
          var f := if Nand(k) && nand[k.block] != [] then nand[k.block][0] else o;
          ActiveFirst(s, f, pages);
          RetiresOne(s, f);
          Complete(f);
        case BlockedByBuf =>
          assert false;
      }
    }

    /** Let the oldest live request move, or the one at the front of the NAND queue it stands in. */
    method StepOldest() returns (ghost x: nat)
      requires Valid() && reqs != map[]
      modifies Repr
      ensures Valid() && Closer(old(S()), S(), x)
      ensures forall y :: y in old(reqs) && old(reqs)[y].loc.InHand? && HeldBack(old(S()), y) ==> y != x
    {
      hide Ok, LinkTable.Valid, Closer, Queued, Ordered, History, Enabled;
      assert reqs.Keys != {};
      ghost var any :| any in reqs;
      ghost var found := OldestFrom(S(), any);
      var o :| o in reqs && forall y :: y in reqs ==> reqs[o].num <= reqs[y].num;
      OldestMoves(S(), pages, o);
      x := Advance(o);
    }

    /** With no further submission every live request completes. */
    method Drain()
      requires Valid()
      modifies Repr
      ensures Valid() && reqs == map[] && clock == old(clock) && |done| == clock && old(done) <= done
    {
      hide Ok, InSeries, LinkTable.Valid, ToGo;
      while reqs != map[]
        invariant Valid() && clock == old(clock) && old(done) <= done
        decreases ToGo(reqs)
      {
        var _ := StepOldest();
      }
      AllDone(S());
    }

    /** Wait until a request slot is free. Slots are held by slice requests and by the code that waits, and
        these the loop cannot free. */
    method SyncAvailFreeReq(held: set<nat>)
      requires Valid() && (forall x :: x in held ==> x < links.size) && |held| < links.size
      modifies Repr
      ensures Valid() && SlotFree(S(), held, links.size) && clock == old(clock) && old(done) <= done
    {
      hide Ok, InSeries, LinkTable.Valid, ToGo;
      ghost var y := Unheld(held, links.size);
      while forall x :: 0 <= x < links.size ==> x in reqs || x in held
        invariant Valid() && clock == old(clock) && old(done) <= done
        decreases ToGo(reqs)
      {
        assert y in reqs;
        var _ := StepOldest();
      }
    }

    /** Wait for host DMAs, NAND operations and blocked requests; the custom command queue is not
        looked at. Given that no request stands behind one of a read-write command at its buffer, the
        loop ends, and leaves exactly the requests of read-write commands, all in their queue. */
    method SyncAllLowLevelReqDone()
      requires Valid() && NoneInHand(S()) && !Trapped(S())
      modifies Repr
      ensures Valid() && Quiet(S()) && clock == old(clock) && old(done) <= done
      ensures forall x :: x in reqs <==> x in old(reqs) && Custom(old(reqs)[x].kind)
      ensures forall x :: x in reqs ==> reqs[x] == old(reqs)[x].(loc := reqs[x].loc)
    {
      hide Ok, LinkTable.Valid, ToGo, Queued, Ordered, History, Trapped, NoneInHand, Enabled;
      while exists x :: x in reqs && !InCustomQ(reqs[x])
        invariant Valid() && NoneInHand(S()) && !Trapped(S()) && clock == old(clock) && old(done) <= done
        invariant forall x :: x in reqs ==> x in old(reqs) && reqs[x] == old(reqs)[x].(loc := reqs[x].loc)
        invariant forall x :: x in old(reqs) && Custom(old(reqs)[x].kind) ==> x in reqs
        decreases ToGo(reqs)
      {
        ghost var s := S();
        ghost var found := PlainLeft(s, pages);
        var o :| o in reqs && !Custom(reqs[o].kind) && forall y :: y in reqs && !Custom(reqs[y].kind) ==>
          reqs[o].num <= reqs[y].num;
        PlainMoves(s, pages, o);
        var x := Advance(o);
        StaysFree(s, S(), x);
      }
    }

    /** Wait until no erase of a block is pending. A read of the block in hand stays in hand. */
    method SyncReleaseEraseReq(b: nat, x: nat)
      requires Valid() && b < |rows| && x in reqs && reqs[x].loc.InHand? && reqs[x].kind.Read?
      requires reqs[x].kind.block == b
      modifies Repr
      ensures Valid() && x in reqs && reqs[x] == old(reqs[x]) && Synced(S(), x)
      ensures clock == old(clock) && old(done) <= done
    {
      hide Ok, InSeries, LinkTable.Valid, ToGo;
      while rows[b].blockedEraseReqFlag
        invariant Valid() && b < |rows| && x in reqs && reqs[x] == old(reqs[x])
        invariant clock == old(clock) && old(done) <= done
        decreases ToGo(reqs)
      {
        HandHeldBack(S(), x, pages);
        var _ := StepOldest();
      }
    }

    /** Sort the request in hand into a queue; a read first waits for a pending erase of its block. */
    method SelectLowLevelReqQ(x: nat)
      requires Valid() && x in reqs && reqs[x].loc.InHand?
      modifies Repr
      ensures Valid() && x in reqs && !reqs[x].loc.InHand?
      ensures reqs[x] == old(reqs[x]).(loc := reqs[x].loc) && clock == old(clock) && old(done) <= done
    {
      hide Ok, InSeries, LinkTable.Valid, First;
      Kinds(S(), x, pages, None);
      if reqs[x].kind.Read? && rows[reqs[x].kind.block].blockedEraseReqFlag {
        SyncReleaseEraseReq(reqs[x].kind.block, x);
      }
      SortReq(x);
    }
  }

  lemma TxIssued(s: State, x: nat, pages: nat)
    requires Ok(s, pages, None) && x in s.reqs
    ensures InRange(s, s.reqs[x].kind) && (s.reqs[x].loc.WaitingForRx? ==> s.reqs[x].kind.TxDma?)
    ensures s.reqs[x].kind.TxDma? ==>
              && x in Settled(s, x).reqs
              && (Settled(s, x).reqs[x].loc.Active? <==> NoneToReceive(s, s.reqs[x].kind.cmd))
  {
    hide GenOk, LogsOk, ChainOk, Heads, RxFirst, Distinct, Settled;
    assert ReqOk(s, x);
    if s.reqs[x].kind.TxDma? {
      SettledTx(s, x);
    }
  }

  lemma AllDone(s: State)
    requires InSeries(s) && s.reqs == map[]
    ensures |s.done| == s.clock
  {
  }
}
