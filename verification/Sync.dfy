/** The loop that waits for all low-level requests. It retires host DMAs and NAND operations and rescans
    the row-blocked queues, but never looks at the custom command queue, so it may wait for ever. And the
    loop that waits for a free request slot, which does look at all queues. */
module Sync {
  import opened Basics
  import opened Requests
  import opened Serial
  import opened Progress
  import opened Runs
  import Sets

  /** A request of a read-write command. */
  predicate Custom(k: Kind) {
    k.RxDma? || k.TxDma?
  }

  /** The request is in the custom command queue. */
  predicate InCustomQ(r: Req) {
    Custom(r.kind) && (r.loc.Active? || r.loc.WaitingForRx?)
  }

  /** The loop ends: no host DMA, no NAND operation and no blocked request is left. */
  ghost predicate Quiet(s: State) {
    forall x :: x in s.reqs ==> InCustomQ(s.reqs[x])
  }

  ghost predicate NoneInHand(s: State) {
    forall x :: x in s.reqs ==> !s.reqs[x].loc.InHand?
  }

  /** What an iteration of the loop can do. */
  ghost predicate LoopEvent(s: State, e: Event) {
    match e
    case Finish(x) => x in s.reqs && !Custom(s.reqs[x].kind)
    case Retry(x) => x in s.reqs && s.reqs[x].loc.BlockedByRow?
    case _ => false
  }

  ghost predicate LoopRun(states: seq<State>, events: seq<Event>, pages: nat) {
    && Run(states, events, pages, BOTH)
    && forall i :: 0 <= i < |events| ==> LoopEvent(states[i], events[i])
  }

  /** Request x stands behind a request y of a read-write command at its buffer. */
  ghost predicate Behind(s: State, x: nat, y: nat) {
    && x in s.reqs && y in s.reqs && Custom(s.reqs[y].kind)
    && s.reqs[x].buf.Some? && s.reqs[y].buf == s.reqs[x].buf && s.reqs[y].num < s.reqs[x].num
  }

  ghost predicate Trapped(s: State) {
    exists x, y :: Behind(s, x, y)
  }

  // ---- a trapped request is never released ----

  lemma BehindWaits(s: State, x: nat, y: nat, pages: nat)
    requires Ok(s, pages, None) && Behind(s, x, y)
    ensures !First(s, x) && (s.reqs[x].loc.BlockedByBuf? || s.reqs[x].loc.InHand?)
  {
    hide GenOk, CountsOk, LogsOk, RxFirst;
    assert Heads(s, x, None) && Heads(s, y, None);
    var k := s.reqs[x].buf.value;
    assert ChainOk(s, k);
    var i, j :| 0 <= i < |s.chains[k]| && s.chains[k][i] == x && 0 <= j < |s.chains[k]| && s.chains[k][j] == y;
  }

  lemma StaysBehind(s: State, e: Event, pages: nat, x: nat, y: nat)
    requires Ok(s, pages, None) && Possible(s, e, pages, BOTH) && LoopEvent(s, e) && Behind(s, x, y)
    ensures Behind(Next(s, e, pages), x, y)
  {
    hide Ok, ToGo, Next, First;
    RowBlocked(s, e.x, pages);
    BehindWaits(s, x, y, pages);
    NextCloser(s, e, pages);
  }

  lemma RowBlocked(s: State, x: nat, pages: nat)
    requires Ok(s, pages, None)
    ensures x in s.reqs && s.reqs[x].loc.BlockedByRow? ==> !Custom(s.reqs[x].kind)
  {
    assert x in s.reqs ==> ReqOk(s, x);
  }

  lemma {:induction false} NeverQuiet(states: seq<State>, events: seq<Event>, pages: nat, x: nat, y: nat, n: nat)
    requires LoopRun(states, events, pages) && Ok(states[0], pages, None) && InSeries(states[0])
    requires Behind(states[0], x, y) && n < |states|
    ensures Behind(states[n], x, y) && !Quiet(states[n])
    decreases n
  {
    hide Ok, Possible, Next, LoopEvent, InSeries, Behind, Enabled;
    EveryRun(states, events, pages, n);
    if n > 0 {
      NeverQuiet(states, events, pages, x, y, n - 1);
      EveryRun(states, events, pages, n - 1);
      StaysBehind(states[n - 1], events[n - 1], pages, x, y);
    }
    BehindNotQuiet(states[n], x, y, pages);
  }

  lemma BehindNotQuiet(s: State, x: nat, y: nat, pages: nat)
    requires Ok(s, pages, None) && Behind(s, x, y)
    ensures !Quiet(s)
  {
    BehindWaits(s, x, y, pages);
  }

  // ---- otherwise the loop always has something to do ----

  /** The oldest live request that is not of a read-write command. */
  ghost predicate OldestPlain(s: State, o: nat) {
    && o in s.reqs && !Custom(s.reqs[o].kind)
    && forall y :: y in s.reqs && !Custom(s.reqs[y].kind) ==> s.reqs[o].num <= s.reqs[y].num
  }

  lemma {:induction false} OldestPlainFrom(s: State, x: nat) returns (o: nat)
    requires x in s.reqs && !Custom(s.reqs[x].kind)
    ensures OldestPlain(s, o)
    decreases s.reqs[x].num
  {
    if y :| y in s.reqs && !Custom(s.reqs[y].kind) && s.reqs[y].num < s.reqs[x].num {
      o := OldestPlainFrom(s, y);
    } else {
      o := x;
    }
  }

  lemma PlainLeft(s: State, pages: nat) returns (o: nat)
    requires Ok(s, pages, None) && NoneInHand(s) && !Trapped(s) && !Quiet(s)
    ensures OldestPlain(s, o)
  {
    hide GenOk, CountsOk, LogsOk, RxFirst, Distinct, ChainOk, Heads;
    var x :| x in s.reqs && !InCustomQ(s.reqs[x]);
    if Custom(s.reqs[x].kind) {
      assert ReqOk(s, x);
      BufHeldBack(s, x, pages);
      var y :| y in s.reqs && s.reqs[y].num < s.reqs[x].num && WaitsFor(s, x, y);
      assert !Behind(s, x, y);
      o := OldestPlainFrom(s, y);
    } else {
      o := OldestPlainFrom(s, x);
    }
  }

  lemma PlainMoves(s: State, pages: nat, o: nat)
    requires Ok(s, pages, None) && Queued(s) && NoneInHand(s) && !Trapped(s) && OldestPlain(s, o)
    ensures InRange(s, s.reqs[o].kind)
    ensures var x := Mover(s, o); x in s.reqs && InRange(s, s.reqs[x].kind) && Enabled(s, x) && !Custom(s.reqs[x].kind)
    ensures !s.reqs[o].loc.Active? ==> Mover(s, o) == o && s.reqs[o].loc.BlockedByRow?
    ensures s.reqs[o].loc.Active? ==> s.reqs[Mover(s, o)].loc.Active?
  {
    hide GenOk, CountsOk, LogsOk, ChainOk, Heads, RxFirst;
    assert ReqOk(s, o);
    if s.reqs[o].loc.Active? {
      assert ReqOk(s, Mover(s, o));
    } else if !Enabled(s, o) {
      WaitsForEarlier(s, o, pages);
      var y :| y in s.reqs && s.reqs[y].num < s.reqs[o].num && WaitsFor(s, o, y);
      assert !Behind(s, o, y);
    }
  }

  lemma StaysFree(s: State, t: State, x: nat)
    requires Closer(s, t, x) && !Trapped(s) && NoneInHand(s)
    ensures !Trapped(t) && NoneInHand(t)
  {
    if x', y' :| Behind(t, x', y') {
      assert Behind(s, x', y');
    }
  }

  /** One more event of the loop, and it changes something. */
  lemma GoesOn(s: State, pages: nat) returns (e: Event)
    requires Ok(s, pages, None) && InSeries(s) && NoneInHand(s) && !Trapped(s) && !Quiet(s)
    ensures Possible(s, e, pages, BOTH) && LoopEvent(s, e) && Closer(s, Next(s, e, pages), e.x)
    ensures !Trapped(Next(s, e, pages)) && NoneInHand(Next(s, e, pages))
  {
    hide Ok, Trapped, NoneInHand, Quiet, Ordered, History, Queued, Closer, First, Retired, Settled;
    var o := PlainLeft(s, pages);
    PlainMoves(s, pages, o);
    var x := Mover(s, o);
    if s.reqs[o].loc.Active? {
      ActiveFirst(s, x, pages);
      RetiresOne(s, x);
      e := Finish(x);
    } else {
      MovesOn(s, x);
      e := Retry(x);
    }
    StaysFree(s, Next(s, e, pages), x);
  }

  /** A run of the loop from s to where it ends. */
  lemma {:induction false} RunsOut(s: State, pages: nat) returns (states: seq<State>, events: seq<Event>)
    requires Ok(s, pages, None) && InSeries(s) && NoneInHand(s) && !Trapped(s)
    ensures LoopRun(states, events, pages) && states[0] == s && Quiet(states[|events|])
    decreases ToGo(s.reqs)
  {
    hide Ok, InSeries, Trapped, NoneInHand, Possible, Next, LoopEvent, ToGo;
    states, events := [s], [];
    if !Quiet(s) {
      var e := GoesOn(s, pages);
      Weaker(s, e, pages, BOTH);
      NextKeeps(s, e, pages);
      var later, rest := RunsOut(Next(s, e, pages), pages);
      states, events := [s] + later, [e] + rest;
      forall i | 0 <= i < |events|
        ensures Possible(states[i], events[i], pages, BOTH) && Possible(states[i], events[i], pages, NEITHER)
        ensures states[i + 1] == Next(states[i], events[i], pages) && LoopEvent(states[i], events[i])
      {
        assert i > 0 ==> states[i] == later[i - 1] && events[i] == rest[i - 1];
        Weaker(states[i], events[i], pages, BOTH);
      }
    }
  }

  /** Some run of the loop that starts in s ends. */
  ghost predicate CanEnd(s: State, pages: nat) {
    exists states, events :: LoopRun(states, events, pages) && states[0] == s && Quiet(states[|events|])
  }

  /** The loop can end if and only if no request stands behind one of a read-write command at its
      buffer; and then it always has something left to do until it does. */
  lemma EndsExactly(s: State, pages: nat)
    requires Ok(s, pages, None) && InSeries(s) && NoneInHand(s)
    ensures CanEnd(s, pages) <==> !Trapped(s)
  {
    hide Ok, InSeries, NoneInHand, Quiet, Possible, Next, LoopEvent;
    if x, y :| Behind(s, x, y) {
      forall states, events | LoopRun(states, events, pages) && |states| > |events| && states[0] == s
        ensures !Quiet(states[|events|])
      {
        NeverQuiet(states, events, pages, x, y, |events|);
      }
    } else {
      var states, events := RunsOut(s, pages);
    }
  }

  /** A reception is going into a buffer. */
  ghost predicate Receives(s: State) {
    && s.reqs == map[0 := Req(0, RxDma(0), Some(0), Active)] && |s.chains| == 1 && s.chains[0] == [0] && |s.rxLeft| == 1
    && |s.rows| == |s.gens| == |s.logs| == |s.nand| == 1 && s.gens[0] == Gen([], None, []) && s.clock == 1
  }

  lemma Receiving(s: State) returns (u: State, t: State)
    requires s == Bare(1, 1, 1)
    ensures Possible(s, Submit(0, RxDma(0), Some(0)), 1, BOTH) && u == Next(s, Submit(0, RxDma(0), Some(0)), 1)
    ensures Possible(u, Sort(0), 1, BOTH) && t == Next(u, Sort(0), 1) && Receives(t)
  {
    u := Next(s, Submit(0, RxDma(0), Some(0)), 1);
    t := Next(u, Sort(0), 1);
  }

  /** A program from it stands right behind. */
  lemma Trapping() returns (states: seq<State>, events: seq<Event>)
    ensures Run(states, events, 1, BOTH) && Blank(states[0]) && |events| == 4 && |states| == 5
    ensures NoneInHand(states[4]) && Behind(states[4], 1, 0)
  {
    hide Bare;
    var s0 := Bare(1, 1, 1);
    var s1, s2 := Receiving(s0);
    var s3 := Next(s2, Submit(1, Write(0, 0), Some(0)), 1);
    var s4 := Next(s3, Sort(1), 1);
    states := [s0, s1, s2, s3, s4];
    events := [Submit(0, RxDma(0), Some(0)), Sort(0), Submit(1, Write(0, 0), Some(0)), Sort(1)];
  }

  /** That is enough: the loop never ends. */
  lemma TrapHappens() returns (states: seq<State>, events: seq<Event>)
    ensures Run(states, events, 1, BOTH) && Blank(states[0]) && !CanEnd(states[|events|], 1)
  {
    hide Ok, InSeries, CanEnd, Enabled, Run, NoneInHand, Behind, Blank;
    states, events := Trapping();
    EmptyOk(states[0], 1);
    EveryRun(states, events, 1, |events|);
    EndsExactly(states[|events|], 1);
  }

  // ---- the wait for a free request slot ----

  /** A request slot is neither live nor held, by a slice request or by the code that waits. */
  ghost predicate SlotFree(s: State, held: set<nat>, slots: nat) {
    exists x :: 0 <= x < slots && x !in s.reqs && x !in held
  }

  /** A run without submissions: what happens during the wait. */
  ghost predicate WaitRun(states: seq<State>, events: seq<Event>, pages: nat) {
    Run(states, events, pages, BOTH) && forall i :: 0 <= i < |events| ==> !events[i].Submit?
  }

  lemma {:induction false} Empties(s: State, pages: nat) returns (states: seq<State>, events: seq<Event>)
    requires Ok(s, pages, None) && InSeries(s)
    ensures WaitRun(states, events, pages) && states[0] == s && states[|events|].reqs == map[]
    decreases ToGo(s.reqs)
  {
    hide Ok, InSeries, Possible, Next, ToGo;
    states, events := [s], [];
    if s.reqs != map[] {
      var e := OldestEvent(s, pages);
      NextKeeps(s, e, pages);
      var later, rest := Empties(Next(s, e, pages), pages);
      states, events := [s] + later, [e] + rest;
      forall i | 0 <= i < |events|
        ensures Possible(states[i], events[i], pages, BOTH) && Possible(states[i], events[i], pages, NEITHER)
        ensures states[i + 1] == Next(states[i], events[i], pages) && !events[i].Submit?
      {
        assert i > 0 ==> states[i] == later[i - 1] && events[i] == rest[i - 1];
        Weaker(states[i], events[i], pages, BOTH);
      }
    }
  }

  lemma Unheld(held: set<nat>, slots: nat) returns (x: nat)
    requires |held| < slots && forall y :: y in held ==> y < slots
    ensures x < slots && x !in held
  {
    var all := Sets.Upto(slots);
    if all <= held {
      Sets.Within(all, held);
    }
    x :| x in all && x !in held;
  }

  /** The wait can end. */
  ghost predicate CanFree(s: State, held: set<nat>, slots: nat, pages: nat) {
    exists states, events ::
      WaitRun(states, events, pages) && states[0] == s && SlotFree(states[|events|], held, slots)
  }

  /** The wait for a slot can end if and only if not all slots are held: if slice requests hold every one, as
      when a command has as many slices as there are slots and one more, it never does. */
  lemma FreesExactly(s: State, held: set<nat>, slots: nat, pages: nat)
    requires Ok(s, pages, None) && InSeries(s) && (forall x :: x in held ==> x < slots)
    ensures CanFree(s, held, slots, pages) <==> |held| < slots
  {
    hide Ok, InSeries, Possible, Next;
    if |held| < slots {
      var x := Unheld(held, slots);
      var states, events := Empties(s, pages);
      assert x !in states[|events|].reqs;
      assert SlotFree(states[|events|], held, slots);
    } else {
      Sets.Within(held, Sets.Upto(slots));
      assert held == Sets.Upto(slots);
    }
  }
}
