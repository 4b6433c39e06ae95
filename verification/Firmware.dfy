/** Runs as the firmware's scheduler makes them. The row-blocked requests of a die stand in a queue in
    the order they came to be blocked. They are visited in one whole scan of that queue, with
    nothing in between, and only while the NAND queue of the die is empty: when a NAND operation leaves it
    empty, and when the scheduler finds the die idle. */
module Firmware {
  import opened Basics
  import opened Requests
  import opened Serial
  import opened Progress
  import opened Runs

  /** The engine with the die of every block and the row-blocked queue of every die. */
  datatype Device = Device(s: State, die: seq<nat>, rowQ: seq<seq<nat>>)

  /** Plain: a submission, a sorting, the completion of a host DMA, a visit to a transmission that is not
      issued. NandDone: a NAND operation completes. Idle: the scheduler comes to a die with nothing to do. */
  datatype Act = Plain(e: Event) | NandDone(x: nat) | Idle(d: nat)

  /** The die a request goes to. */
  function DieOf(dev: Device, k: Kind): (d: Option<nat>) {
    if Nand(k) && k.block < |dev.die| && dev.die[k.block] < |dev.rowQ| then Some(dev.die[k.block]) else None
  }

  predicate NandEmpty(dev: Device, d: nat) {
    forall b :: 0 <= b < |dev.die| && b < |dev.s.nand| && dev.die[b] == d ==> dev.s.nand[b] == []
  }

  /** The engine went on to t, and request y is put into its queue if it has come to be blocked by its row. */
  function Queueing(dev: Device, t: State, y: Option<nat>): (r: Device) {
    if y.Some? && y.value in dev.s.reqs && !dev.s.reqs[y.value].loc.BlockedByRow? && y.value in t.reqs &&
       t.reqs[y.value].loc.BlockedByRow? && DieOf(dev, t.reqs[y.value].kind).Some?
    then
      var d := DieOf(dev, t.reqs[y.value].kind).value;
      dev.(s := t, rowQ := dev.rowQ[d := dev.rowQ[d] + [y.value]])
    else dev.(s := t)
  }

  /** One whole scan of the row-blocked queue of a die. */
  ghost function Swept(dev: Device, d: nat): (r: Device)
    requires d < |dev.rowQ|
  {
    var t := Scanned(dev.s, dev.rowQ[d]);
    dev.(s := t, rowQ := dev.rowQ[d := Blocked(t.reqs, dev.rowQ[d])])
  }

  ghost predicate CanAct(dev: Device, a: Act, pages: nat, c: Care) {
    match a
    case Plain(e) =>
      && Possible(dev.s, e, pages, c)
      && (e.Finish? ==> !Nand(dev.s.reqs[e.x].kind)) && (e.Retry? ==> dev.s.reqs[e.x].loc.WaitingForRx?)
    case NandDone(x) => Possible(dev.s, Finish(x), pages, c) && DieOf(dev, dev.s.reqs[x].kind).Some?
    case Idle(d) => d < |dev.rowQ| && NandEmpty(dev, d)
  }

  /** The request an event may leave blocked by its row. */
  ghost function Newcomer(s: State, e: Event): (y: Option<nat>) {
    match e
    case Sort(x) => Some(x)
    case Finish(x) => if x in s.reqs then Successor(s, x) else None
    case _ => None
  }

  ghost function After(dev: Device, a: Act, pages: nat): (r: Device)
    requires CanAct(dev, a, pages, NEITHER)
  {
    match a
    case Plain(e) => Queueing(dev, Next(dev.s, e, pages), Newcomer(dev.s, e))
    case NandDone(x) =>
      var d, r := DieOf(dev, dev.s.reqs[x].kind).value, Queueing(dev, Retired(dev.s, x), Successor(dev.s, x));
      if NandEmpty(r, d) then Swept(r, d) else r
    case Idle(d) => Swept(dev, d)
  }

  ghost predicate FirmwareRun(devs: seq<Device>, acts: seq<Act>, pages: nat, c: Care) {
    && |devs| == |acts| + 1
    && forall i :: 0 <= i < |acts| ==>
         && CanAct(devs[i], acts[i], pages, c) && CanAct(devs[i], acts[i], pages, NEITHER)
         && devs[i + 1] == After(devs[i], acts[i], pages)
  }

  /** Before any request: every block on a die, every queue empty. */
  ghost predicate Fresh(dev: Device) {
    && Blank(dev.s) && |dev.die| == |dev.s.rows| && (forall b :: 0 <= b < |dev.die| ==> dev.die[b] < |dev.rowQ|)
    && forall d :: 0 <= d < |dev.rowQ| ==> dev.rowQ[d] == []
  }

  /** A run of the firmware from power on, its submissions meeting the conditions c, ends in dev. */
  ghost predicate Reached(c: Care, pages: nat, dev: Device) {
    exists devs, acts :: FirmwareRun(devs, acts, pages, c) && Fresh(devs[0]) && devs[|acts|] == dev
  }

  lemma Careless(dev: Device, a: Act, pages: nat, c: Care)
    requires CanAct(dev, a, pages, c)
    ensures CanAct(dev, a, pages, NEITHER)
  {
  }

  lemma AtStart(c: Care, pages: nat, dev: Device)
    requires Fresh(dev)
    ensures Reached(c, pages, dev)
  {
    hide Fresh, CanAct;
    assert FirmwareRun([dev], [], pages, c);
  }

  lemma Onward(c: Care, pages: nat, dev: Device, a: Act)
    requires Reached(c, pages, dev) && CanAct(dev, a, pages, c)
    ensures CanAct(dev, a, pages, NEITHER) && Reached(c, pages, After(dev, a, pages))
  {
    hide Fresh, CanAct, After;
    Careless(dev, a, pages, c);
    var devs, acts :| FirmwareRun(devs, acts, pages, c) && Fresh(devs[0]) && devs[|acts|] == dev;
    var devs', acts' := devs + [After(dev, a, pages)], acts + [a];
    forall i | 0 <= i < |acts'|
      ensures CanAct(devs'[i], acts'[i], pages, c) && CanAct(devs'[i], acts'[i], pages, NEITHER)
      ensures devs'[i + 1] == After(devs'[i], acts'[i], pages)
    {
      assert i < |acts| ==> devs'[i] == devs[i] && devs'[i + 1] == devs[i + 1] && acts'[i] == acts[i];
    }
    assert FirmwareRun(devs', acts', pages, c) && devs'[0] == devs[0];
  }

  // ---- such runs are runs of the engine ----

  lemma Longer(states: seq<State>, events: seq<Event>, e: Event, pages: nat, c: Care) returns (more: seq<State>)
    requires Run(states, events, pages, c) && Possible(states[|events|], e, pages, c)
    ensures Possible(states[|events|], e, pages, NEITHER)
    ensures Run(more, events + [e], pages, c) && more[0] == states[0]
    ensures more[|events| + 1] == Next(states[|events|], e, pages)
  {
    hide Possible, Next;
    Weaker(states[|events|], e, pages, c);
    more := states + [Next(states[|events|], e, pages)];
    forall i | 0 <= i < |events| + 1
      ensures Possible(more[i], (events + [e])[i], pages, c) && Possible(more[i], (events + [e])[i], pages, NEITHER)
      ensures more[i + 1] == Next(more[i], (events + [e])[i], pages)
    {
      assert i < |events| ==> more[i] == states[i] && more[i + 1] == states[i + 1] && (events + [e])[i] == events[i];
      Weaker(more[i], (events + [e])[i], pages, c);
    }
  }

  /** A whole scan is one visit after another. */
  lemma {:induction false} ScanIsRun(states: seq<State>, events: seq<Event>, queue: seq<nat>, pages: nat, c: Care)
    returns (states': seq<State>, events': seq<Event>)
    requires Run(states, events, pages, c)
    ensures Run(states', events', pages, c) && states'[0] == states[0]
    ensures states'[|events'|] == Scanned(states[|events|], queue)
    decreases |queue|
  {
    hide Next, Run, Settled;
    states', events' := states, events;
    RunLength(states, events, pages, c);
    if queue != [] {
      var x := queue[|queue|-1];
      states', events' := ScanIsRun(states, events, queue[..|queue|-1], pages, c);
      RunLength(states', events', pages, c);
      var s := states'[|events'|];
      if x in s.reqs && s.reqs[x].loc.BlockedByRow? && InRange(s, s.reqs[x].kind) {
        RetryIs(s, x, pages, c);
        states' := Longer(states', events', Retry(x), pages, c);
        events' := events' + [Retry(x)];
      }
    }
  }

  lemma RunLength(states: seq<State>, events: seq<Event>, pages: nat, c: Care)
    requires Run(states, events, pages, c)
    ensures |states| == |events| + 1
  {
  }

  lemma RetryIs(s: State, x: nat, pages: nat, c: Care)
    requires x in s.reqs && s.reqs[x].loc.BlockedByRow? && InRange(s, s.reqs[x].kind)
    ensures Possible(s, Retry(x), pages, c) && Possible(s, Retry(x), pages, NEITHER)
    ensures Next(s, Retry(x), pages) == Settled(s, x)
  {
  }

  lemma ActIsRun(states: seq<State>, events: seq<Event>, dev: Device, a: Act, pages: nat, c: Care)
    returns (states': seq<State>, events': seq<Event>)
    requires Run(states, events, pages, c) && CanAct(dev, a, pages, c) && dev.s == states[|events|]
    ensures CanAct(dev, a, pages, NEITHER)
    ensures Run(states', events', pages, c) && states'[0] == states[0]
    ensures states'[|events'|] == After(dev, a, pages).s
  {
    hide Run, Retired, Scanned;
    Careless(dev, a, pages, c);
    RunLength(states, events, pages, c);
    match a
    case Plain(e) =>
      states' := Longer(states, events, e, pages, c);
      events' := events + [e];
    case Idle(d) =>
      states', events' := ScanIsRun(states, events, dev.rowQ[d], pages, c);
    case NandDone(x) =>
      states' := Longer(states, events, Finish(x), pages, c);
      events' := events + [Finish(x)];
      var d := DieOf(dev, dev.s.reqs[x].kind).value;
      var r := Queueing(dev, Retired(dev.s, x), Successor(dev.s, x));
      if NandEmpty(r, d) {
        states', events' := ScanIsRun(states', events', r.rowQ[d], pages, c);
      }
  }

  /** Every run of the firmware is a run of the engine. */
  lemma {:induction false} FirmwareIsRun(devs: seq<Device>, acts: seq<Act>, pages: nat, c: Care)
    returns (states: seq<State>, events: seq<Event>)
    requires FirmwareRun(devs, acts, pages, c)
    ensures Run(states, events, pages, c) && states[0] == devs[0].s && states[|events|] == devs[|acts|].s
    decreases |acts|
  {
    hide CanAct, After, Possible, Next;
    if acts == [] {
      states, events := [devs[0].s], [];
    } else {
      var n := |acts| - 1;
      states, events := FirmwareIsRun(devs[..n + 1], acts[..n], pages, c);
      hide Run;
      states, events := ActIsRun(states, events, devs[n], acts[n], pages, c);
    }
  }

  lemma ReachedByRun(c: Care, pages: nat, dev: Device) returns (states: seq<State>, events: seq<Event>)
    requires Reached(c, pages, dev)
    ensures Run(states, events, pages, c) && |states| == |events| + 1 && Blank(states[0]) && states[|events|] == dev.s
  {
    hide CanAct, After, Run, Blank;
    var devs, acts :| FirmwareRun(devs, acts, pages, c) && Fresh(devs[0]) && devs[|acts|] == dev;
    states, events := FirmwareIsRun(devs, acts, pages, c);
    RunLength(states, events, pages, c);
  }

  // ---- the row-blocked queues ----

  ghost predicate RowBlocked(s: State, x: nat) {
    x in s.reqs && s.reqs[x].loc.BlockedByRow?
  }

  ghost predicate Once(q: seq<nat>) {
    forall i, j :: 0 <= i < j < |q| ==> q[i] != q[j]
  }

  /** The queue of every die holds exactly its row-blocked requests, each once. */
  ghost predicate QueuesOk(dev: Device) {
    && (forall d :: 0 <= d < |dev.rowQ| ==> Once(dev.rowQ[d]))
    && forall d, x :: 0 <= d < |dev.rowQ| ==>
         (x in dev.rowQ[d] <==> RowBlocked(dev.s, x) && DieOf(dev, dev.s.reqs[x].kind) == Some(d))
  }

  /** Only transmissions wait for receptions. */
  ghost predicate TxOnly(s: State) {
    forall x :: x in s.reqs && s.reqs[x].loc.WaitingForRx? ==> s.reqs[x].kind.TxDma?
  }

  lemma NextTx(s: State, e: Event, pages: nat)
    requires TxOnly(s) && Possible(s, e, pages, NEITHER)
    ensures TxOnly(Next(s, e, pages))
  {
  }

  lemma {:induction false} ScannedTx(s: State, queue: seq<nat>)
    requires TxOnly(s)
    ensures TxOnly(Scanned(s, queue))
    decreases |queue|
  {
    if queue != [] {
      ScannedTx(s, queue[..|queue|-1]);
    }
  }

  /** From s to t nothing but y came to be blocked by its row, and what was stays so. */
  ghost predicate OnlyJoins(s: State, t: State, y: Option<nat>) {
    forall x :: x in s.reqs || x in t.reqs ==>
      && (RowBlocked(s, x) ==> x in t.reqs && t.reqs[x] == s.reqs[x])
      && (RowBlocked(t, x) && !RowBlocked(s, x) ==> y == Some(x) && x in s.reqs)
  }

  lemma QueueingKeeps(dev: Device, t: State, y: Option<nat>)
    requires QueuesOk(dev) && OnlyJoins(dev.s, t, y)
    ensures QueuesOk(Queueing(dev, t, y))
  {
    var r := Queueing(dev, t, y);
    forall d, x | 0 <= d < |r.rowQ|
      ensures x in r.rowQ[d] <==> RowBlocked(r.s, x) && DieOf(r, r.s.reqs[x].kind) == Some(d)
    {
      assert x in dev.rowQ[d] <==> RowBlocked(dev.s, x) && DieOf(dev, dev.s.reqs[x].kind) == Some(d);
    }
  }

  lemma NextJoins(s: State, e: Event, pages: nat)
    requires Possible(s, e, pages, NEITHER) && (e.Retry? ==> s.reqs[e.x].loc.WaitingForRx? && s.reqs[e.x].kind.TxDma?)
    ensures OnlyJoins(s, Next(s, e, pages), Newcomer(s, e))
  {
  }

  lemma {:induction false} BlockedTells(reqs: map<nat, Req>, q: seq<nat>)
    ensures forall x :: x in Blocked(reqs, q) <==> x in q && x in reqs && reqs[x].loc.BlockedByRow?
    ensures Once(q) ==> Once(Blocked(reqs, q))
    decreases |q|
  {
    if q != [] {
      var n := |q| - 1;
      BlockedTells(reqs, q[..n]);
      assert q[..n] + [q[n]] == q;
      assert Once(q) ==> Once(q[..n]) && q[n] !in q[..n];
    }
  }

  lemma SweptKeeps(dev: Device, d: nat)
    requires QueuesOk(dev) && d < |dev.rowQ|
    ensures QueuesOk(Swept(dev, d))
  {
    hide Scanned, Blocked, Once;
    var r := Swept(dev, d);
    ScannedReqs(dev.s, dev.rowQ[d]);
    BlockedTells(r.s.reqs, dev.rowQ[d]);
    forall e, x | 0 <= e < |r.rowQ|
      ensures x in r.rowQ[e] <==> RowBlocked(r.s, x) && DieOf(r, r.s.reqs[x].kind) == Some(e)
    {
      assert x in dev.rowQ[e] <==> RowBlocked(dev.s, x) && DieOf(dev, dev.s.reqs[x].kind) == Some(e);
      assert x in dev.rowQ[d] <==> RowBlocked(dev.s, x) && DieOf(dev, dev.s.reqs[x].kind) == Some(d);
    }
  }

  lemma ActKeeps(dev: Device, a: Act, pages: nat)
    requires QueuesOk(dev) && TxOnly(dev.s) && CanAct(dev, a, pages, NEITHER)
    ensures QueuesOk(After(dev, a, pages)) && TxOnly(After(dev, a, pages).s)
  {
    hide QueuesOk, Scanned, Settled, Submitted, Completed, Moved, Retired, OnlyJoins, Swept, NandEmpty;
    match a
    case Plain(e) =>
      NextTx(dev.s, e, pages);
      NextJoins(dev.s, e, pages);
      QueueingKeeps(dev, Next(dev.s, e, pages), Newcomer(dev.s, e));
    case NandDone(x) =>
      NextTx(dev.s, Finish(x), pages);
      NextJoins(dev.s, Finish(x), pages);
      var t := Retired(dev.s, x);
      QueueingKeeps(dev, t, Successor(dev.s, x));
      var r, d := Queueing(dev, t, Successor(dev.s, x)), DieOf(dev, dev.s.reqs[x].kind).value;
      SweepsOk(r, d);
    case Idle(d) => SweepsOk(dev, d);
  }

  lemma SweepsOk(dev: Device, d: nat)
    requires QueuesOk(dev) && TxOnly(dev.s) && d < |dev.rowQ|
    ensures QueuesOk(Swept(dev, d)) && TxOnly(Swept(dev, d).s)
  {
    hide QueuesOk, Scanned;
    SweptKeeps(dev, d);
    ScannedTx(dev.s, dev.rowQ[d]);
  }

  /** Throughout every run of the firmware the row-blocked queue of a die holds exactly the requests of the
      die that are blocked by their row, each once, so a scan misses none. */
  lemma {:induction false} EveryQueue(devs: seq<Device>, acts: seq<Act>, pages: nat, c: Care, n: nat)
    requires FirmwareRun(devs, acts, pages, c) && Fresh(devs[0]) && n < |devs|
    ensures QueuesOk(devs[n]) && TxOnly(devs[n].s)
  {
    hide CanAct, After;
    if n > 0 {
      hide QueuesOk, TxOnly;
      EveryQueue(devs, acts, pages, c, n - 1);
      ActKeeps(devs[n - 1], acts[n - 1], pages);
    }
  }

  /** Nothing stands in the NAND queues of the blocks of die d. */
  ghost predicate NothingQueued(s: State, die: seq<nat>, d: nat) {
    forall b :: 0 <= b < |die| && b < |s.nand| && die[b] == d ==> s.nand[b] == []
  }

  /** A row-blocked request is released only by a scan of its die, and only while nothing stands in the NAND
      queue of the die: when the scheduler finds the die idle, or right after the last NAND operation of the
      die has completed. */
  lemma ReleasedWhenIdle(dev: Device, a: Act, pages: nat, x: nat)
    requires QueuesOk(dev) && TxOnly(dev.s) && CanAct(dev, a, pages, NEITHER)
    requires RowBlocked(dev.s, x) && !RowBlocked(After(dev, a, pages).s, x)
    ensures !a.Plain?
    ensures a.Idle? ==>
              DieOf(dev, dev.s.reqs[x].kind) == Some(a.d) && NothingQueued(dev.s, dev.die, a.d)
    ensures a.NandDone? ==>
              && DieOf(dev, dev.s.reqs[x].kind) == DieOf(dev, dev.s.reqs[a.x].kind)
              && DieOf(dev, dev.s.reqs[x].kind).Some?
              && NothingQueued(Retired(dev.s, a.x), dev.die, DieOf(dev, dev.s.reqs[x].kind).value)
  {
    hide Scanned, Settled, Submitted, Completed, Moved, Retired, Blocked;
    match a
    case Plain(e) => NextJoins(dev.s, e, pages);
    case NandDone(y) =>
      NextJoins(dev.s, Finish(y), pages);
      var t := Retired(dev.s, y);
      QueueingKeeps(dev, t, Successor(dev.s, y));
      var r, d := Queueing(dev, t, Successor(dev.s, y)), DieOf(dev, dev.s.reqs[y].kind).value;
      ScannedReqs(r.s, r.rowQ[d]);
    case Idle(d) => ScannedReqs(dev.s, dev.rowQ[d]);
  }
}
