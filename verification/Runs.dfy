/** Runs of the dependency engine: any sequence of submissions, sorting, completions and
    release attempts, in any order the rules allow. */
module Runs {
  import opened Basics
  import opened Requests
  import opened Serial
  import opened Progress
  import Sets

  /** A step moves one request along, or ends it, and may release the next of its chain. */
  ghost predicate Closer(s: State, t: State, x: nat) {
    && ToGo(t.reqs) < ToGo(s.reqs) && |t.rows| == |s.rows| && s.reqs.Keys - {x} <= t.reqs.Keys <= s.reqs.Keys
    && t.clock == s.clock && s.done <= t.done
    && (forall y :: y in t.reqs ==>
          t.reqs[y] == s.reqs[y].(loc := t.reqs[y].loc) && (!s.reqs[y].loc.InHand? ==> !t.reqs[y].loc.InHand?))
    && forall y :: y in t.reqs && y != x && !s.reqs[y].loc.BlockedByBuf? ==> t.reqs[y] == s.reqs[y]
  }

  lemma MovesOn(s: State, x: nat)
    requires x in s.reqs && InRange(s, s.reqs[x].kind) && Enabled(s, x) && !s.reqs[x].loc.Active?
    ensures Closer(s, Settled(s, x), x)
    ensures s.reqs[x].loc.InHand? ==> Closer(s, Moved(s, x, BlockedByBuf), x)
  {
    hide ToGo;
    var loc := NextLoc(s.reqs[x].kind, Passes(s, s.reqs[x].kind));
    MovedToGo(s.reqs, x, loc);
    if s.reqs[x].loc.InHand? {
      MovedToGo(s.reqs, x, BlockedByBuf);
    }
  }

  lemma RetiresOne(s: State, x: nat)
    requires x in s.reqs && InRange(s, s.reqs[x].kind) && First(s, x)
    ensures Closer(s, Retired(s, x), x)
  {
    hide ToGo;
    var t, y := Completed(s, x), Successor(s, x);
    GoneToGo(s.reqs, x);
    if y.Some? && y.value in t.reqs && t.reqs[y.value].loc.BlockedByBuf? && InRange(t, t.reqs[y.value].kind) {
      MovedToGo(t.reqs, y.value, NextLoc(t.reqs[y.value].kind, Passes(t, t.reqs[y.value].kind)));
    }
  }

  /** The state after request x has completed and the next of its chain has been released. */
  ghost function Retired(s: State, x: nat): (t: State)
    requires x in s.reqs && InRange(s, s.reqs[x].kind) && First(s, x)
  {
    var t, y := Completed(s, x), Successor(s, x);
    if y.Some? && y.value in t.reqs && t.reqs[y.value].loc.BlockedByBuf? && InRange(t, t.reqs[y.value].kind)
      then Settled(t, y.value)
    else t
  }

  lemma PastBuf(s: State, x: nat, pages: nat)
    requires Ok(s, pages, None) && x in s.reqs && (s.reqs[x].loc.BlockedByRow? || s.reqs[x].loc.WaitingForRx?)
    ensures First(s, x) && Synced(s, x)
    ensures s.reqs[x].kind.Read? ==> Counted(s.reqs[x])
  {
    assert ReqOk(s, x) && Heads(s, x, None);
  }

  /** What the next request of a chain is like when the one before it has left. */
  lemma NextLive(t: State, pages: nat, next: Option<nat>)
    requires Ok(t, pages, next)
    ensures next.None? || next.value !in t.reqs || !t.reqs[next.value].loc.BlockedByBuf? ==> Ok(t, pages, None)
    ensures next.Some? && next.value in t.reqs ==> InRange(t, t.reqs[next.value].kind)
    ensures next.Some? && next.value in t.reqs && t.reqs[next.value].loc.BlockedByBuf? ==>
              Synced(t, next.value) && (t.reqs[next.value].kind.Read? ==> Counted(t.reqs[next.value]))
  {
    hide GenOk, CountsOk, LogsOk, ChainOk, RxFirst, Distinct;
    if next.Some? && next.value in t.reqs {
      assert ReqOk(t, next.value);
    }
    if next.None? || next.value !in t.reqs || !t.reqs[next.value].loc.BlockedByBuf? {
      forall y | y in t.reqs ensures Heads(t, y, None) {
        assert Heads(t, y, next);
      }
    }
  }

  lemma NextFirst(s: State, x: nat, pages: nat)
    requires Ok(s, pages, None) && x in s.reqs && InRange(s, s.reqs[x].kind) && First(s, x)
    ensures var t, y := Completed(s, x), Successor(s, x);
            y.Some? ==> y.value in t.reqs && First(t, y.value)
  {
    hide GenOk, CountsOk, LogsOk, RxFirst, Distinct;
    if s.reqs[x].buf.Some? {
      assert ChainOk(s, s.reqs[x].buf.value);
    }
  }

  lemma Kinds(s: State, x: nat, pages: nat, exempt: Option<nat>)
    requires Ok(s, pages, exempt) && x in s.reqs
    ensures InRange(s, s.reqs[x].kind)
  {
    assert ReqOk(s, x);
  }

  /** The engine before any request: nothing live, nothing admitted, blank tables. */
  ghost predicate Blank(s: State) {
    && s.reqs == map[] && |s.gens| == |s.rows| == |s.logs| == |s.nand| && s.clock == 0 && s.done == []
    && (forall b :: 0 <= b < |s.nand| ==> s.nand[b] == [])
    && (forall k :: 0 <= k < |s.chains| ==> s.chains[k] == [])
    && (forall b :: 0 <= b < |s.rows| ==>
          s.rows[b] == Row(0, 0, false) && s.gens[b] == Gen([], None, []) && s.logs[b] == [])
    && (forall cmd :: 0 <= cmd < |s.rxLeft| ==> s.rxLeft[cmd] == 0)
  }

  /** A device before any request. */
  function Bare(buffers: nat, blocks: nat, commands: nat): (s: State)
    ensures Blank(s)
  {
    State(map[], seq(buffers, _ => []), seq(blocks, _ => Row(0, 0, false)), seq(commands, _ => 0), 0,
          seq(blocks, _ => Gen([], None, [])), seq(blocks, _ => []), seq(blocks, _ => []), [])
  }

  lemma EmptyOk(s: State, pages: nat)
    requires Blank(s)
    ensures Ok(s, pages, None) && InSeries(s)
  {
    assert forall b :: Reads(s.reqs, b) == {};
    assert forall cmd :: Rxs(s.reqs, cmd) == {};
    forall b | 0 <= b < |s.gens| ensures GenOk(s, b, pages) {
    }
  }

  // ---- the scan over a row-blocked queue ----

  /** The scan reaches request x, if it is still there to be released. */
  ghost function Visited(s: State, x: nat): (t: State) {
    if x in s.reqs && s.reqs[x].loc.BlockedByRow? && InRange(s, s.reqs[x].kind) then Settled(s, x) else s
  }

  /** The state after one whole scan over a queue. */
  ghost function Scanned(s: State, queue: seq<nat>): (t: State) {
    if queue == [] then s else Visited(Scanned(s, queue[..|queue|-1]), queue[|queue|-1])
  }

  /** The requests of a queue that are still blocked by their row, in order. */
  ghost function Blocked(reqs: map<nat, Req>, queue: seq<nat>): (r: seq<nat>) {
    if queue == [] then []
    else
      var x := queue[|queue|-1];
      Blocked(reqs, queue[..|queue|-1]) + (if x in reqs && reqs[x].loc.BlockedByRow? then [x] else [])
  }

  lemma BlockedNext(reqs: map<nat, Req>, queue: seq<nat>, i: nat)
    requires i < |queue|
    ensures Blocked(reqs, queue[..i + 1]) ==
            Blocked(reqs, queue[..i])
              + (if queue[i] in reqs && reqs[queue[i]].loc.BlockedByRow? then [queue[i]] else [])
  {
    assert queue[..i + 1][..i] == queue[..i];
  }

  lemma {:induction false} BlockedSame(reqs: map<nat, Req>, reqs': map<nat, Req>, queue: seq<nat>)
    requires forall x :: x in queue ==> (x in reqs <==> x in reqs') && (x in reqs ==> reqs[x] == reqs'[x])
    ensures Blocked(reqs, queue) == Blocked(reqs', queue)
    decreases |queue|
  {
    if queue != [] {
      BlockedSame(reqs, reqs', queue[..|queue|-1]);
    }
  }

  lemma ScannedNone(s: State)
    ensures Scanned(s, []) == s
  {
  }

  lemma BlockedNone(reqs: map<nat, Req>)
    ensures Blocked(reqs, []) == []
  {
  }

  lemma ScannedNext(s: State, queue: seq<nat>, i: nat)
    requires i < |queue|
    ensures Scanned(s, queue[..i + 1]) == Visited(Scanned(s, queue[..i]), queue[i])
  {
    assert queue[..i + 1][..i] == queue[..i];
  }

  /** A visit touches one request, and leaves it blocked by its row or admitted. */
  lemma VisitedReqs(s: State, x: nat)
    ensures var t := Visited(s, x);
            && t.reqs.Keys == s.reqs.Keys && (forall y :: y in s.reqs && y != x ==> t.reqs[y] == s.reqs[y])
            && (x in s.reqs ==> t.reqs[x] == s.reqs[x].(loc := t.reqs[x].loc))
            && |t.rows| == |s.rows| && |t.gens| == |s.gens| && |t.logs| == |s.logs| && |t.nand| == |s.nand|
            && t.clock == s.clock && t.done == s.done && t.chains == s.chains && t.rxLeft == s.rxLeft
  {
  }

  /** A scan touches the requests of its queue only, and moves them at most. */
  lemma {:induction false} ScannedReqs(s: State, queue: seq<nat>)
    ensures var t := Scanned(s, queue);
            && t.reqs.Keys == s.reqs.Keys && (forall y :: y in s.reqs && y !in queue ==> t.reqs[y] == s.reqs[y])
            && (forall y :: y in s.reqs ==> t.reqs[y] == s.reqs[y].(loc := t.reqs[y].loc))
            && |t.rows| == |s.rows| && |t.gens| == |s.gens| && |t.logs| == |s.logs| && |t.nand| == |s.nand|
            && t.clock == s.clock && t.done == s.done && t.chains == s.chains && t.rxLeft == s.rxLeft
    decreases |queue|
  {
    hide Visited;
    if queue != [] {
      ScannedReqs(s, queue[..|queue|-1]);
      VisitedReqs(Scanned(s, queue[..|queue|-1]), queue[|queue|-1]);
    }
  }

  /** What the scan has not reached yet waits as it did. */
  lemma Unvisited(s: State, queue: seq<nat>, i: nat)
    requires i < |queue| && forall h, j :: 0 <= h < j < |queue| ==> queue[h] != queue[j]
    ensures queue[i] !in queue[..i]
    ensures queue[i] in s.reqs ==>
              queue[i] in Scanned(s, queue[..i]).reqs && Scanned(s, queue[..i]).reqs[queue[i]] == s.reqs[queue[i]]
  {
    hide Scanned;
    ScannedReqs(s, queue[..i]);
  }

  lemma BlockedOn(s: State, queue: seq<nat>, i: nat)
    requires i < |queue| && forall h, j :: 0 <= h < j < |queue| ==> queue[h] != queue[j]
    ensures var reqs := Visited(s, queue[i]).reqs;
            Blocked(reqs, queue[..i + 1]) ==
            Blocked(s.reqs, queue[..i])
              + (if queue[i] in reqs && reqs[queue[i]].loc.BlockedByRow? then [queue[i]] else [])
  {
    hide Visited, Blocked;
    VisitedReqs(s, queue[i]);
    BlockedSame(s.reqs, Visited(s, queue[i]).reqs, queue[..i]);
    BlockedNext(Visited(s, queue[i]).reqs, queue, i);
  }

  // ---- whole runs ----

  /** Finish is a NAND or DMA completion, the NAND operations of a block in the order they were
      admitted; Retry a visit of the scan over the row address queue or the custom queue. */
  datatype Event =
    | Submit(x: nat, kind: Kind, buf: Option<nat>)
    | Sort(x: nat)
    | Finish(x: nat)
    | Retry(x: nat)

  /** Which of the two conditions the engine does not check the submissions of a run meet. */
  datatype Care = Care(lastFilled: bool, lastErased: bool)

  const BOTH: Care := Care(true, true)
  const NEITHER: Care := Care(false, false)

  ghost predicate Possible(s: State, e: Event, pages: nat, c: Care) {
    match e
    case Submit(x, k, buf) =>
      Orderly(s, x, k, buf, pages) && (c.lastFilled ==> LastFilled(s, k, pages)) && (c.lastErased ==> LastErased(s, k))
    case Sort(x) => x in s.reqs && InRange(s, s.reqs[x].kind) && s.reqs[x].loc.InHand? && Synced(s, x)
    case Finish(x) => x in s.reqs && InRange(s, s.reqs[x].kind) && s.reqs[x].loc.Active? && First(s, x) && Front(s, x)
    case Retry(x) =>
      x in s.reqs && InRange(s, s.reqs[x].kind) && (s.reqs[x].loc.BlockedByRow? || s.reqs[x].loc.WaitingForRx?)
  }

  lemma Weaker(s: State, e: Event, pages: nat, c: Care)
    requires Possible(s, e, pages, c)
    ensures Possible(s, e, pages, NEITHER)
  {
  }

  ghost function Next(s: State, e: Event, pages: nat): (t: State)
    requires Possible(s, e, pages, NEITHER)
  {
    match e
    case Submit(x, k, buf) => Submitted(s, x, k, buf)
    case Sort(x) => if First(s, x) then Settled(s, x) else Moved(s, x, BlockedByBuf)
    case Finish(x) => Retired(s, x)
    case Retry(x) => Settled(s, x)
  }

  lemma SettleInSeries(s: State, x: nat, pages: nat, exempt: Option<nat>)
    requires Ok(s, pages, exempt) && InSeries(s) && x in s.reqs && InRange(s, s.reqs[x].kind)
    requires !s.reqs[x].loc.Active? && Synced(s, x)
    ensures InSeries(Settled(s, x))
  {
    hide Ok, InSeries, Moved, Passes;
    MoveInSeries(s, x, NextLoc(s.reqs[x].kind, Passes(s, s.reqs[x].kind)), pages, exempt);
  }

  lemma RetireKeeps(s: State, x: nat, pages: nat)
    requires Ok(s, pages, None) && InSeries(s) && x in s.reqs && InRange(s, s.reqs[x].kind) && s.reqs[x].loc.Active?
    requires First(s, x) && Front(s, x)
    ensures Ok(Retired(s, x), pages, None) && InSeries(Retired(s, x))
  {
    hide Ok, Completed, Moved, InSeries;
    CompleteKeeps(s, x, pages);
    CompleteInSeries(s, x, pages);
    NextFirst(s, x, pages);
    var t, y := Completed(s, x), Successor(s, x);
    NextLive(t, pages, y);
    if y.Some? && y.value in t.reqs && t.reqs[y.value].loc.BlockedByBuf? {
      SettleKeeps(t, y.value, pages, y);
      SettleInSeries(t, y.value, pages, y);
    }
  }

  lemma NextKeeps(s: State, e: Event, pages: nat)
    requires Ok(s, pages, None) && InSeries(s) && Possible(s, e, pages, BOTH)
    ensures Ok(Next(s, e, pages), pages, None) && InSeries(Next(s, e, pages))
  {
    hide Ok, Orderly, Moved, Submitted, Completed, InSeries, Front;
    match e
    case Submit(x, k, buf) =>
      SubmitKeeps(s, x, k, buf, pages);
      SubmitInSeries(s, x, k, buf, pages);
    case Sort(x) =>
      if First(s, x) {
        SettleKeeps(s, x, pages, None);
        SettleInSeries(s, x, pages, None);
      } else {
        BlockKeeps(s, x, pages);
        MoveInSeries(s, x, BlockedByBuf, pages, None);
      }
    case Finish(x) => RetireKeeps(s, x, pages);
    case Retry(x) =>
      PastBuf(s, x, pages);
      SettleKeeps(s, x, pages, None);
      SettleInSeries(s, x, pages, None);
  }

  /** The states a run goes through, the first one given. */
  ghost predicate Run(states: seq<State>, events: seq<Event>, pages: nat, c: Care) {
    && |states| == |events| + 1
    && forall i :: 0 <= i < |events| ==>
         Possible(states[i], events[i], pages, c) && states[i + 1] == Next(states[i], events[i], pages)
  }

  /** Every state of every run is in order, and as long as requests are live one of them can go on:
      sorted, admitted, issued or completed. */
  lemma {:induction false} EveryRun(states: seq<State>, events: seq<Event>, pages: nat, n: nat)
    requires Run(states, events, pages, BOTH) && Ok(states[0], pages, None) && InSeries(states[0]) && n < |states|
    ensures Ok(states[n], pages, None) && InSeries(states[n])
    ensures states[n].reqs != map[] ==>
              exists o :: o in states[n].reqs && InRange(states[n], states[n].reqs[o].kind) && Enabled(states[n], o)
    decreases n
  {
    hide Ok, Possible, Next, Enabled, Queued, Ordered, History;
    if n > 0 {
      EveryRun(states, events, pages, n - 1);
      NextKeeps(states[n - 1], events[n - 1], pages);
    }
    if states[n].reqs != map[] {
      assert states[n].reqs.Keys != {};
      var x :| x in states[n].reqs;
      NoDeadlock(states[n], pages, x);
    }
  }

  /** The oldest request moves, or the one at the front of its NAND queue. */
  lemma OldestEvent(s: State, pages: nat) returns (e: Event)
    requires Ok(s, pages, None) && InSeries(s) && s.reqs != map[]
    ensures Possible(s, e, pages, BOTH) && !e.Submit? && Possible(s, e, pages, NEITHER)
    ensures ToGo(Next(s, e, pages).reqs) < ToGo(s.reqs)
  {
    hide Ok, Queued, Ordered, History, Retired, Settled, Moved, First, ToGo;
    assert s.reqs.Keys != {};
    var any :| any in s.reqs;
    var o := OldestFrom(s, any);
    OldestMoves(s, pages, o);
    var x := Mover(s, o);
    match s.reqs[x].loc
    case InHand =>
      e := Sort(x);
      MovesOn(s, x);
    case Active =>
      e := Finish(x);
      ActiveFirst(s, x, pages);
      RetiresOne(s, x);
    case BlockedByRow =>
      e := Retry(x);
      MovesOn(s, x);
    case WaitingForRx =>
      e := Retry(x);
      MovesOn(s, x);
  }

  /** What happens without a submission either changes nothing, as a visit that finds its request
      still blocked, or brings a request closer to its end. */
  lemma NextCloser(s: State, e: Event, pages: nat)
    requires Ok(s, pages, None) && Possible(s, e, pages, BOTH) && !e.Submit?
    ensures Next(s, e, pages) == s || Closer(s, Next(s, e, pages), e.x)
  {
    hide GenOk, CountsOk, LogsOk, ChainOk, Heads, RxFirst, Distinct, Closer;
    assert ReqOk(s, e.x);
    match e
    case Sort(x) => MovesOn(s, x);
    case Finish(x) => RetiresOne(s, x);
    case Retry(x) =>
      if Passes(s, s.reqs[x].kind) {
        MovesOn(s, x);
      } else {
        StillBlocked(s, x);
      }
  }

  lemma StillBlocked(s: State, x: nat)
    requires x in s.reqs && InRange(s, s.reqs[x].kind) && ReqOk(s, x) && !Passes(s, s.reqs[x].kind)
    requires s.reqs[x].loc.BlockedByRow? || s.reqs[x].loc.WaitingForRx?
    ensures Settled(s, x) == s
  {
    var r := s.reqs[x];
    assert s.reqs[x := r] == s.reqs;
    if Nand(r.kind) {
      assert s.rows[r.kind.block := s.rows[r.kind.block]] == s.rows;
    }
  }

  // ---- transmissions after receptions ----

  /** No reception of command cmd is live. */
  ghost predicate NoneToReceive(s: State, cmd: nat) {
    forall y :: y in s.reqs ==> s.reqs[y].kind != RxDma(cmd)
  }

  /** A transmission of a read-write command that has been issued has no reception of its command left. */
  ghost predicate TxLast(s: State) {
    forall x :: x in s.reqs && s.reqs[x].kind.TxDma? && s.reqs[x].loc.Active? ==> NoneToReceive(s, s.reqs[x].kind.cmd)
  }

  /** A transmission whose buffer is its own is issued if and only if no reception of its command is live. */
  lemma SettledTx(s: State, x: nat)
    requires x in s.reqs && InRange(s, s.reqs[x].kind) && CountsOk(s) && s.reqs[x].kind.TxDma?
    ensures x in Settled(s, x).reqs
    ensures Settled(s, x).reqs[x].loc.Active? <==> NoneToReceive(s, s.reqs[x].kind.cmd)
    ensures Settled(s, x).reqs[x].loc.Active? || Settled(s, x).reqs[x].loc.WaitingForRx?
  {
    var rxs := Rxs(s.reqs, s.reqs[x].kind.cmd);
    if y :| y in s.reqs && s.reqs[y].kind == RxDma(s.reqs[x].kind.cmd) {
      assert y in rxs;
    } else {
      assert rxs == {};
    }
  }

  lemma MovedTx(s: State, x: nat, loc: Loc)
    requires x in s.reqs && InRange(s, s.reqs[x].kind) && TxLast(s)
    requires loc.Active? && s.reqs[x].kind.TxDma? ==> NoneToReceive(s, s.reqs[x].kind.cmd)
    ensures TxLast(Moved(s, x, loc))
  {
    var t := Moved(s, x, loc);
    assert forall y :: y in t.reqs ==> y in s.reqs && t.reqs[y].kind == s.reqs[y].kind;
  }

  /** What keeps transmissions behind receptions: the counters of the commands. */
  ghost predicate RxKept(s: State) {
    |s.reqs| < 0x1_0000 && CountsOk(s) && TxLast(s)
  }

  lemma SettleRx(s: State, x: nat)
    requires x in s.reqs && InRange(s, s.reqs[x].kind) && RxKept(s)
    ensures RxKept(Settled(s, x))
  {
    hide CountsOk, TxLast, Moved, NoneToReceive;
    var loc := NextLoc(s.reqs[x].kind, Passes(s, s.reqs[x].kind));
    MovedCounts(s, x, loc);
    MovedIs(s, x, loc);
    if s.reqs[x].kind.TxDma? {
      SettledTx(s, x);
    }
    MovedTx(s, x, loc);
  }

  lemma MovedIs(s: State, x: nat, loc: Loc)
    requires x in s.reqs && InRange(s, s.reqs[x].kind)
    ensures x in Moved(s, x, loc).reqs && Moved(s, x, loc).reqs[x].loc == loc
  {
  }

  lemma CompleteRx(s: State, x: nat)
    requires x in s.reqs && InRange(s, s.reqs[x].kind) && First(s, x) && s.reqs[x].loc.Active? && RxKept(s)
    ensures RxKept(Completed(s, x))
  {
    hide CountsOk;
    CompletedCounts(s, x);
  }

  lemma SubmitRx(s: State, x: nat, k: Kind, buf: Option<nat>, pages: nat)
    requires Orderly(s, x, k, buf, pages) && RxKept(s)
    ensures RxKept(Submitted(s, x, k, buf))
  {
    hide CountsOk;
    SubmittedCounts(s, x, k, buf);
  }

  lemma NextRx(s: State, e: Event, pages: nat)
    requires RxKept(s) && Possible(s, e, pages, NEITHER)
    ensures RxKept(Next(s, e, pages))
  {
    hide Completed, Submitted, Settled, Moved, Orderly, CountsOk, TxLast, Front;
    match e
    case Submit(x, k, buf) => SubmitRx(s, x, k, buf, pages);
    case Sort(x) =>
      SettleRx(s, x);
      MovedCounts(s, x, BlockedByBuf);
      MovedTx(s, x, BlockedByBuf);
    case Retry(x) => SettleRx(s, x);
    case Finish(x) =>
      CompleteRx(s, x);
      var t, y := Completed(s, x), Successor(s, x);
      if y.Some? && y.value in t.reqs && t.reqs[y.value].loc.BlockedByBuf? && InRange(t, t.reqs[y.value].kind) {
        SettleRx(t, y.value);
      }
  }

  /** In every state of every run, whether or not its submissions meet the two conditions, a transmission
      that has been issued has no reception of its command left. */
  lemma {:induction false} TxAfterRx(states: seq<State>, events: seq<Event>, pages: nat, c: Care, n: nat)
    requires Run(states, events, pages, c) && Blank(states[0]) && n < |states|
    ensures RxKept(states[n])
    ensures var s := states[n];
            forall x, y :: x in s.reqs && s.reqs[x].kind.TxDma? && s.reqs[x].loc.Active? && y in s.reqs ==>
              s.reqs[y].kind != RxDma(s.reqs[x].kind.cmd)
  {
    hide Possible, Next;
    if n == 0 {
      EmptyOk(states[0], pages);
    } else {
      hide CountsOk, Blank;
      TxAfterRx(states, events, pages, c, n - 1);
      Weaker(states[n - 1], events[n - 1], pages, c);
      NextRx(states[n - 1], events[n - 1], pages);
    }
  }

  /** How many events of a run changed the state. */
  ghost function Changes(states: seq<State>): (n: nat) {
    if |states| <= 1 then 0
    else Changes(states[..|states|-1]) + (if states[|states|-1] != states[|states|-2] then 1 else 0)
  }

  /** Whatever order things happen in, without submissions a run settles: at most four events for
      each live request change anything. */
  lemma {:induction false} RunsDown(states: seq<State>, events: seq<Event>, pages: nat)
    requires Run(states, events, pages, BOTH) && Ok(states[0], pages, None) && InSeries(states[0])
    requires forall i :: 0 <= i < |events| ==> !events[i].Submit?
    ensures Changes(states) + ToGo(states[|events|].reqs) <= ToGo(states[0].reqs) <= 4 * |states[0].reqs|
    decreases |events|
  {
    hide Ok, Possible, Next, InSeries, ToGo, Enabled;
    var n := |events|;
    AtMostFour(states[0].reqs);
    if n > 0 {
      RunsDown(states[..n], events[..n-1], pages);
      EveryRun(states, events, pages, n - 1);
      NextCloser(states[n - 1], events[n - 1], pages);
    }
  }

  lemma AtMostFour(reqs: map<nat, Req>)
    ensures ToGo(reqs) <= 4 * |reqs|
  {
    Sets.Within(AtLeast(reqs, 1), reqs.Keys);
    Sets.Within(AtLeast(reqs, 2), reqs.Keys);
    Sets.Within(AtLeast(reqs, 3), reqs.Keys);
    Sets.Within(AtLeast(reqs, 4), reqs.Keys);
  }

  /** However the operations of a run complete, what they have done to buffers, flash and host is what
      they would have done one after another in the order they were submitted. */
  lemma RunsAreSerial<D>(states: seq<State>, events: seq<Event>, pages: nat, n: nat, m: Mem<D>,
                         fill: (nat, D) -> D, blank: D)
    requires Run(states, events, pages, BOTH) && Ok(states[0], pages, None) && InSeries(states[0]) && n < |states|
    requires Total(m)
    ensures var s := states[n];
            && Play(m, s.done, fill, blank) == Play(m, InOrder(s.done), fill, blank) && Increases(InOrder(s.done))
            && (s.reqs == map[] ==> |InOrder(s.done)| == s.clock && forall i :: 0 <= i < s.clock ==>
              InOrder(s.done)[i].num == i)
  {
    hide Ok, Play, InOrder, Queued, Ordered, History, Increases, Run;
    EveryRun(states, events, pages, n);
    Serializable(states[n], m, fill, blank);
  }

  /** The operation on block b is what the request asks for. */
  predicate AsAsked(o: Op, k: Kind, b: nat) {
    match o
    case Sensed(p) => k == Read(b, p)
    case Programmed(p) => k == Write(b, p)
    case Wiped(n) => k == Erase(b, n)
  }

  /** The log of block b has grown exactly if a request of the block has been admitted, and then by the
      operation of that request, which is now last in the NAND queue of the block. */
  ghost predicate Logged(s: State, t: State, b: nat)
    requires b < |s.logs| == |t.logs|
  {
    && (forall x :: x in s.reqs && x in t.reqs && !s.reqs[x].loc.Active? && t.reqs[x].loc.Active? ==>
          OfBlock(t.reqs[x].kind, b) ==> |t.logs[b]| > |s.logs[b]|)
    && (|t.logs[b]| > |s.logs[b]| ==>
          && b < |t.nand| && t.nand[b] != []
          && var x := t.nand[b][|t.nand[b]|-1];
             x in t.reqs && t.reqs[x].loc.Active? && AsAsked(t.logs[b][|s.logs[b]|], t.reqs[x].kind, b))
  }

  /** What has been admitted to the NAND queue of a block, from the start of a run on: pages
      programmed in order, read once programmed, erased when as many are programmed as the erase
      says; the log only grows, and an erase is admitted with no blocked read left. */
  lemma AdmittedInOrder(s: State, e: Event, pages: nat, b: nat)
    requires Ok(s, pages, None) && InSeries(s) && Possible(s, e, pages, BOTH) && b < |s.logs|
    ensures var t := Next(s, e, pages);
            && |t.logs| == |s.logs| && s.logs[b] <= t.logs[b] && |t.logs[b]| <= |s.logs[b]| + 1 && Legal(t.logs[b])
            && (|t.logs[b]| > |s.logs[b]| && t.logs[b][|s.logs[b]|].Wiped? ==> Reads(t.reqs, b) == {})
            && Logged(s, t, b)
  {
    NextKeeps(s, e, pages);
    LogGrows(s, e, pages, b);
  }

  lemma SettledLog(s: State, x: nat, b: nat)
    requires x in s.reqs && InRange(s, s.reqs[x].kind) && CountsOk(s) && b < |s.logs| == |s.rows|
    ensures var t := Settled(s, x);
            && |t.logs| == |s.logs| && s.logs[b] <= t.logs[b] && |t.logs[b]| <= |s.logs[b]| + 1
            && (|t.logs[b]| > |s.logs[b]| && t.logs[b][|s.logs[b]|].Wiped? ==> Reads(t.reqs, b) == {})
            && Logged(s, t, b)
  {
    var t := Settled(s, x);
    if s.reqs[x].kind.Erase? && s.reqs[x].kind.block == b && Passes(s, s.reqs[x].kind) {
      assert Reads(s.reqs, b) == {};
      ReadsSet(s.reqs, x, t.reqs[x], b);
    }
  }

  lemma LogGrows(s: State, e: Event, pages: nat, b: nat)
    requires Ok(s, pages, None) && Possible(s, e, pages, BOTH) && b < |s.logs|
    ensures var t := Next(s, e, pages);
            && |t.logs| == |s.logs| && s.logs[b] <= t.logs[b] && |t.logs[b]| <= |s.logs[b]| + 1
            && (|t.logs[b]| > |s.logs[b]| && t.logs[b][|s.logs[b]|].Wiped? ==> Reads(t.reqs, b) == {})
            && Logged(s, t, b)
  {
    hide GenOk, LogsOk, ChainOk, Heads, RxFirst, Distinct, Orderly, Settled;
    match e
    case Submit(x, k, buf) => SubmitFresh(s, x, k, buf, pages);
    case Sort(x) => SettledLog(s, x, b);
    case Retry(x) => SettledLog(s, x, b);
    case Finish(x) =>
      var t, y := Completed(s, x), Successor(s, x);
      CompletedCounts(s, x);
      if y.Some? && y.value in t.reqs && t.reqs[y.value].loc.BlockedByBuf? && InRange(t, t.reqs[y.value].kind) {
        SettledLog(t, y.value, b);
      }
  }
}
