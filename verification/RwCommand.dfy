/** The read-write command: its write slices are received from the host (Rx), its read slices
    transmitted (Tx), and the firmware's counters decide when a Tx may be issued and when the
    completion is posted. Slices are transformed in queue order, all the write slices first. */
module RwCommand {
  import opened Basics
  import opened Sets

  const HALFWORD: nat := 0x1_0000

  /** How far a command has come: how many of its write and read slices have been transformed, which
      have been issued and completed, and how often the completion has been posted. */
  datatype Cmd = Cmd(rxTotal: nat, txTotal: nat, rxCounted: nat, rxIssued: set<nat>, rxCompleted: set<nat>,
                     txCounted: nat, txIssued: set<nat>, txCompleted: set<nat>, posted: nat)

  datatype Event = Transform | IssueRx(i: nat) | CompleteRx(i: nat) | IssueTx(i: nat) | CompleteTx(i: nat)

  ghost function Start(w: nat, r: nat): (c: Cmd) {
    Cmd(w, r, 0, {}, {}, 0, {}, {}, 0)
  }

  /** A transmission is issued, or tried again later, once it is transformed. */
  ghost predicate Possible(c: Cmd, e: Event) {
    match e
    case Transform => c.rxCounted < c.rxTotal || c.txCounted < c.txTotal
    case IssueRx(i) => i < c.rxCounted && i !in c.rxIssued
    case CompleteRx(i) => i in c.rxIssued && i !in c.rxCompleted
    case IssueTx(i) => i < c.txCounted && i !in c.txIssued
    case CompleteTx(i) => i in c.txIssued && i !in c.txCompleted
  }

  /** No transformed write slice is left to receive. */
  ghost predicate AllReceived(c: Cmd) {
    |c.rxCompleted| == c.rxCounted
  }

  /** One transformed read slice is left to transmit. */
  ghost predicate LastCounted(c: Cmd) {
    |c.txCompleted| + 1 == c.txCounted
  }

  ghost function Next(c: Cmd, e: Event): (d: Cmd) {
    match e
    case Transform =>
      if c.rxCounted < c.rxTotal then c.(rxCounted := c.rxCounted + 1) else c.(txCounted := c.txCounted + 1)
    case IssueRx(i) => c.(rxIssued := c.rxIssued + {i})
    case CompleteRx(i) => c.(rxCompleted := c.rxCompleted + {i})
    case IssueTx(i) => if AllReceived(c) then c.(txIssued := c.txIssued + {i}) else c
    case CompleteTx(i) =>
      c.(txCompleted := c.txCompleted + {i}, posted := c.posted + (if LastCounted(c) && AllReceived(c) then 1 else 0))
  }

  ghost predicate Ok(c: Cmd) {
    && 0 < c.txTotal < HALFWORD && 0 < c.rxTotal < HALFWORD && c.rxCounted <= c.rxTotal && c.txCounted <= c.txTotal
    && c.rxCompleted <= c.rxIssued && c.txCompleted <= c.txIssued
    && (forall i :: i in c.rxIssued ==> i < c.rxCounted) && (forall i :: i in c.txIssued ==> i < c.txCounted)
    && |c.rxCompleted| <= |c.rxIssued| <= c.rxCounted && |c.txCompleted| <= |c.txIssued| <= c.txCounted
    && (0 < c.txCounted ==> c.rxCounted == c.rxTotal)
    && (c.txIssued != {} ==> |c.rxCompleted| == c.rxTotal)
  }

  lemma NextKeeps(c: Cmd, e: Event)
    requires Ok(c) && Possible(c, e)
    ensures Ok(Next(c, e))
  {
    var d := Next(c, e);
    Below(d.rxIssued, d.rxCounted);
    Below(d.txIssued, d.txCounted);
    Within(d.rxCompleted, d.rxIssued);
    Within(d.txCompleted, d.txIssued);
  }

  /** Every slice has been received or transmitted. */
  ghost predicate Finished(c: Cmd) {
    |c.rxCompleted| == c.rxTotal && |c.txCompleted| == c.txTotal
  }

  /** A transmission finishes that is the last of those transformed, with others still to be transformed. */
  ghost predicate TooEarly(c: Cmd, e: Event) {
    e.CompleteTx? && LastCounted(c) && c.txCounted < c.txTotal
  }

  ghost predicate Run(states: seq<Cmd>, events: seq<Event>) {
    && |states| == |events| + 1 && 0 < states[0].rxTotal < HALFWORD && 0 < states[0].txTotal < HALFWORD
    && states[0] == Start(states[0].rxTotal, states[0].txTotal)
    && forall i :: 0 <= i < |events| ==> Possible(states[i], events[i]) && states[i + 1] == Next(states[i], events[i])
  }

  ghost function Earlies(states: seq<Cmd>, events: seq<Event>, n: nat): (k: nat)
    requires n <= |events| < |states|
  {
    if n == 0 then 0 else Earlies(states, events, n - 1) + (if TooEarly(states[n - 1], events[n - 1]) then 1 else 0)
  }

  /** At every point of every run nothing has been transmitted before all write slices were received, and the
      completion has been posted once for every transmission that finished too early and once at the end. */
  lemma {:induction false} EveryRun(states: seq<Cmd>, events: seq<Event>, n: nat)
    requires Run(states, events) && n <= |events|
    ensures Ok(states[n]) && states[n].rxTotal == states[0].rxTotal && states[n].txTotal == states[0].txTotal
    ensures states[n].txIssued != {} ==> forall i :: 0 <= i < states[n].rxTotal ==> i in states[n].rxCompleted
    ensures states[n].posted == Earlies(states, events, n) + (if |states[n].txCompleted| == states[n].txTotal
            then 1 else 0)
  {
    if n > 0 {
      EveryRun(states, events, n - 1);
      NextKeeps(states[n - 1], events[n - 1]);
      OnePost(states[n - 1], events[n - 1]);
    }
    if states[n].txIssued != {} {
      Full(states[n].rxCompleted, states[n].rxTotal);
    }
  }

  lemma OnePost(c: Cmd, e: Event)
    requires Ok(c) && Possible(c, e)
    ensures Ok(Next(c, e))
    ensures Next(c, e).posted - c.posted ==
            (if TooEarly(c, e) then 1 else 0)
            + (if |Next(c, e).txCompleted| == c.txTotal then 1 else 0) - (if |c.txCompleted| == c.txTotal then 1 else 0)
  {
    NextKeeps(c, e);
  }

  lemma {:induction false} NoEarlies(states: seq<Cmd>, events: seq<Event>, n: nat)
    requires n <= |events| < |states|
    ensures Earlies(states, events, n) == 0 <==> forall i :: 0 <= i < n ==> !TooEarly(states[i], events[i])
  {
    if n > 0 {
      NoEarlies(states, events, n - 1);
    }
  }

  /** A finished command has been completed, and exactly once if and only if no transmission finished as
      the last of those transformed while others were still to be transformed. */
  lemma OnceExactly(states: seq<Cmd>, events: seq<Event>)
    requires Run(states, events) && Finished(states[|events|])
    ensures states[|events|].posted >= 1
    ensures states[|events|].posted == 1 <==> forall i :: 0 <= i < |events| ==> !TooEarly(states[i], events[i])
  {
    EveryRun(states, events, |events|);
    NoEarlies(states, events, |events|);
  }

  /** It is enough that all read slices are transformed before the first of them has been transmitted. */
  lemma CountedFirst(states: seq<Cmd>, events: seq<Event>)
    requires Run(states, events) && Finished(states[|events|])
    requires forall i :: 0 <= i < |events| && events[i].CompleteTx? ==> states[i].txCounted == states[i].txTotal
    ensures states[|events|].posted == 1
  {
    OnceExactly(states, events);
  }

  class CustomIoCmd {
    var notIssuedRx: nat           // 16-bit fields
    var notCompletedRx: nat
    var notIssuedTx: nat
    var notCompletedTx: nat
    ghost var cmd: Cmd

    ghost predicate Valid()
      reads this
    {
      && Ok(cmd)
      && notIssuedRx == cmd.rxCounted - |cmd.rxIssued| && notCompletedRx == cmd.rxCounted - |cmd.rxCompleted|
      && notIssuedTx == cmd.txCounted - |cmd.txIssued| && notCompletedTx == cmd.txCounted - |cmd.txCompleted|
    }

    constructor (w: nat, r: nat)
      requires 0 < w < HALFWORD && 0 < r < HALFWORD
      ensures Valid() && cmd == Start(w, r)
    {
      notIssuedRx, notCompletedRx, notIssuedTx, notCompletedTx := 0, 0, 0, 0;
      cmd := Start(w, r);
    }

    /** The next slice of the command leaves the slice queue as a DMA request. */
    method Transform(rx: bool)
      requires Valid() && Possible(cmd, Event.Transform) && rx == (cmd.rxCounted < cmd.rxTotal)
      modifies this
      ensures Valid() && cmd == Next(old(cmd), Event.Transform)
    {
      NextKeeps(cmd, Event.Transform);
      if rx {
        notCompletedRx := Halfword(notCompletedRx + 1);
        notIssuedRx := Halfword(notIssuedRx + 1);
      } else {
        notCompletedTx := Halfword(notCompletedTx + 1);
        notIssuedTx := Halfword(notIssuedTx + 1);
      }
      cmd := Next(cmd, Event.Transform);
    }

    method IssueRx(i: nat)
      requires Valid() && Possible(cmd, Event.IssueRx(i))
      modifies this
      ensures Valid() && cmd == Next(old(cmd), Event.IssueRx(i))
    {
      NextKeeps(cmd, Event.IssueRx(i));
      notIssuedRx := Halfword(notIssuedRx as int - 1);
      cmd := Next(cmd, Event.IssueRx(i));
    }

    method CompleteRx(i: nat)
      requires Valid() && Possible(cmd, Event.CompleteRx(i))
      modifies this
      ensures Valid() && cmd == Next(old(cmd), Event.CompleteRx(i))
    {
      NextKeeps(cmd, Event.CompleteRx(i));
      notCompletedRx := Halfword(notCompletedRx as int - 1);
      cmd := Next(cmd, Event.CompleteRx(i));
    }

    /** Issue the DMAs of a Tx slice, which is put off while a Rx is not completed. It happens
        exactly when every write slice of the command has been received. */
    method IssueTx(i: nat) returns (issued: bool)
      requires Valid() && Possible(cmd, Event.IssueTx(i))
      modifies this
      ensures Valid() && cmd == Next(old(cmd), Event.IssueTx(i))
      ensures issued <==> |old(cmd).rxCompleted| == cmd.rxTotal
    {
      NextKeeps(cmd, Event.IssueTx(i));
      issued := notCompletedRx == 0;
      if issued {
        notIssuedTx := Halfword(notIssuedTx as int - 1);
      }
      cmd := Next(cmd, Event.IssueTx(i));
    }

    /** A Tx slice has been transmitted. The completion is posted exactly when no transformed
        slice is left. */
    method CompleteTx(i: nat) returns (posts: bool)
      requires Valid() && Possible(cmd, Event.CompleteTx(i))
      modifies this
      ensures Valid() && cmd == Next(old(cmd), Event.CompleteTx(i))
      ensures posts <==> cmd.posted == old(cmd).posted + 1
    {
      NextKeeps(cmd, Event.CompleteTx(i));
      notCompletedTx := Halfword(notCompletedTx as int - 1);
      posts := notCompletedTx == 0 && notCompletedRx == 0;
      cmd := Next(cmd, Event.CompleteTx(i));
    }
  }

  lemma Below(s: set<nat>, n: nat)
    requires forall i :: i in s ==> i < n
    ensures |s| <= n
  {
    Within(s, Upto(n));
  }

  lemma Full(s: set<nat>, n: nat)
    requires (forall i :: i in s ==> i < n) && |s| == n
    ensures forall i :: 0 <= i < n ==> i in s
  {
    Within(s, Upto(n));
  }

  /** One write slice and two read slices, the first read slice transmitted before the second is
      transformed: the completion is posted twice. */
  method PostedTwice() returns (first: bool, second: bool)
    ensures first && second
  {
    var c := new CustomIoCmd(1, 2);
    c.Transform(true);
    c.IssueRx(0);
    c.CompleteRx(0);
    c.Transform(false);
    var ok := c.IssueTx(0);
    first := c.CompleteTx(0);
    c.Transform(false);
    ok := c.IssueTx(1);
    second := c.CompleteTx(1);
  }
}
