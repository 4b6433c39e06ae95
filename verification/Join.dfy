/** The two halves joined: the requests the store submits, run by the dependency engine in any order it
    allows, do to buffers, flash and host what the store says. */
module Join {
  import opened Basics
  import opened Requests
  import opened Serial
  import opened Progress
  import opened Runs
  import opened Journal
  import opened Shadow
  import S = Store

  /** The requests submitted in a run, in order. */
  ghost function Log(events: seq<Event>): (log: seq<Req>) {
    if events == [] then []
    else
      var log, e := Log(events[..|events|-1]), events[|events|-1];
      if e.Submit? then log + [Req(|log|, e.kind, e.buf, Active)] else log
  }

  /** The state has taken in exactly these requests. */
  ghost predicate Took(s: State, log: seq<Req>) {
    && s.clock == |log|
    && (forall x :: x in s.reqs ==> s.reqs[x].num < |log| && log[s.reqs[x].num] == s.reqs[x].(loc := Active))
    && (forall i :: 0 <= i < |s.done| ==> s.done[i].num < |log| && log[s.done[i].num] == s.done[i])
    && (forall b :: 0 <= b < |s.gens| ==> |s.gens[b].current| == Filled(log, b))
  }

  lemma TookMoved(s: State, log: seq<Req>, x: nat, loc: Loc)
    requires Took(s, log) && x in s.reqs && InRange(s, s.reqs[x].kind)
    ensures Took(Moved(s, x, loc), log)
  {
  }

  lemma TookCompleted(s: State, log: seq<Req>, x: nat)
    requires Took(s, log) && x in s.reqs && InRange(s, s.reqs[x].kind) && First(s, x) && s.reqs[x].loc.Active?
    ensures Took(Completed(s, x), log)
  {
    hide Completed;
    CompletedFields(s, x);
  }

  lemma TookRetired(s: State, log: seq<Req>, x: nat)
    requires Took(s, log) && x in s.reqs && InRange(s, s.reqs[x].kind) && First(s, x) && s.reqs[x].loc.Active?
    ensures Took(Retired(s, x), log)
  {
    hide Took, Completed, Moved, Passes;
    TookCompleted(s, log, x);
    var t, y := Completed(s, x), Successor(s, x);
    if y.Some? && y.value in t.reqs && t.reqs[y.value].loc.BlockedByBuf? && InRange(t, t.reqs[y.value].kind) {
      TookMoved(t, log, y.value, NextLoc(t.reqs[y.value].kind, Passes(t, t.reqs[y.value].kind)));
    }
  }

  lemma TookSubmitted(s: State, log: seq<Req>, x: nat, k: Kind, buf: Option<nat>)
    requires Took(s, log) && InRange(s, k) && (buf.Some? ==> buf.value < |s.chains|)
    ensures Took(Submitted(s, x, k, buf), log + [Req(|log|, k, buf, Active)])
  {
    var t, r := Submitted(s, x, k, buf), Req(|log|, k, buf, Active);
    forall b | 0 <= b < |t.gens| ensures |t.gens[b].current| == Filled(log + [r], b) {
      FilledMore(log, r, b);
    }
  }

  lemma TookNext(s: State, log: seq<Req>, e: Event, pages: nat)
    requires Took(s, log) && Possible(s, e, pages, NEITHER)
    ensures Took(Next(s, e, pages), if e.Submit? then log + [Req(|log|, e.kind, e.buf, Active)] else log)
  {
    hide Took, Moved, Passes, Submitted, Retired;
    match e
    case Submit(x, k, buf) => TookSubmitted(s, log, x, k, buf);
    case Sort(x) =>
      TookMoved(s, log, x, BlockedByBuf);
      TookMoved(s, log, x, NextLoc(s.reqs[x].kind, Passes(s, s.reqs[x].kind)));
    case Retry(x) => TookMoved(s, log, x, NextLoc(s.reqs[x].kind, Passes(s, s.reqs[x].kind)));
    case Finish(x) => TookRetired(s, log, x);
  }

  lemma {:induction false} RunTook(states: seq<State>, events: seq<Event>, pages: nat)
    requires Run(states, events, pages, BOTH) && Blank(states[0])
    ensures Took(states[|events|], Log(events))
    decreases |events|
  {
    hide Took, Possible, Next;
    var n := |events|;
    if n == 0 {
      TookNone(states[0]);
    } else {
      RunTook(states[..n], events[..n-1], pages);
      Weaker(states[n-1], events[n-1], pages, BOTH);
      TookNext(states[n-1], Log(events[..n-1]), events[n-1], pages);
    }
  }

  lemma TookNone(s: State)
    requires Blank(s)
    ensures Took(s, [])
  {
  }

  // ---- what the store submits may be submitted ----

  /** Given a free slot, with nobody in hand, the next request of a sound journal meets every condition on
      submissions but the two the engine does not check. */
  lemma MaySubmit<T>(states: seq<State>, events: seq<Event>, j: Journal<T>, pages: nat, x: nat)
    requires Run(states, events, pages, BOTH) && Blank(states[0]) && Sound(j, pages)
    requires |Log(events)| < |j.log| && Log(events) == j.log[..|Log(events)|]
    requires var s, r := states[|events|], j.log[|Log(events)|];
             && x !in s.reqs && |s.reqs| + 1 < 0x1_0000 && InRange(s, r.kind) &&
               (r.buf.Some? ==> r.buf.value < |s.chains|)
             && forall y :: y in s.reqs ==> !s.reqs[y].loc.InHand?
    ensures var s, r := states[|events|], j.log[|Log(events)|]; Orderly(s, x, r.kind, r.buf, pages)
  {
    hide Ok, Possible, Next, InSeries, Sound, Tidy, Filled;
    var n := |Log(events)|;
    assert Tidy(j.log, pages) by {
      SoundTidy(j, pages);
    }
    TidyAt(j.log, n, pages);
    RunTook(states, events, pages);
    EmptyOk(states[0], pages);
    EveryRun(states, events, pages, |events|);
    Widths(states[|events|], pages);
  }

  lemma SoundTidy<T>(j: Journal<T>, pages: nat)
    requires Sound(j, pages)
    ensures Tidy(j.log, pages)
  {
  }

  lemma Widths(s: State, pages: nat)
    requires Ok(s, pages, None)
    ensures |s.gens| == |s.rows| == |s.logs| == |s.nand|
  {
  }

  // ---- and has the effect the store says ----

  lemma SameLog(s: State, log: seq<Req>, t: seq<Req>)
    requires Took(s, log) && |t| == |log| && forall i :: 0 <= i < |t| ==> t[i] in s.done && t[i].num == i
    ensures t == log
  {
    forall i | 0 <= i < |t| ensures t[i] == log[i] {
      var k :| 0 <= k < |s.done| && s.done[k] == t[i];
    }
  }

  /** However the engine runs the requests of a journal, once all have completed buffers, flash and host
      hold what the journal says. */
  lemma EngineAgrees<T>(states: seq<State>, events: seq<Event>, j: Journal<T>, pages: nat)
    requires Run(states, events, pages, BOTH) && Blank(states[0]) && Sound(j, pages) && Total(j.start)
    requires Log(events) == j.log && states[|events|].reqs == map[]
    ensures Play(j.start, states[|events|].done, FillOf(j.fills), j.blank) == j.mem
  {
    hide Ok, Possible, Next, InSeries, Play, Tidy, InOrder;
    var s := states[|events|];
    EmptyOk(states[0], pages);
    RunsAreSerial(states, events, pages, |events|, j.start, FillOf(j.fills), j.blank);
    RunTook(states, events, pages);
    SameLog(s, j.log, InOrder(s.done));
  }

  // ---- and every journal can be run ----

  /** Tables, chains and commands are as many as before. */
  ghost predicate SameSizes(s: State, t: State) {
    |t.rows| == |s.rows| && |t.chains| == |s.chains| && |t.rxLeft| == |s.rxLeft|
  }

  lemma NextSizes(s: State, e: Event, pages: nat)
    requires Possible(s, e, pages, NEITHER)
    ensures SameSizes(s, Next(s, e, pages))
  {
  }

  /** A run that ends in t and has taken in the first n requests. */
  ghost predicate Ran(states: seq<State>, events: seq<Event>, pages: nat, log: seq<Req>, t: State) {
    && Run(states, events, pages, BOTH) && Blank(states[0]) && Log(events) == log && states[|events|] == t
    && SameSizes(states[0], t)
  }

  lemma RanOn(states: seq<State>, events: seq<Event>, pages: nat, log: seq<Req>, t: State, e: Event)
    requires Ran(states, events, pages, log, t) && Possible(t, e, pages, BOTH) && Possible(t, e, pages, NEITHER)
    ensures var u, r := Next(t, e, pages), if e.Submit? then [Req(|log|, e.kind, e.buf, Active)] else [];
            Ran(states + [u], events + [e], pages, log + r, u)
  {
    hide Possible, Next, Blank;
    var u := Next(t, e, pages);
    var more := states + [u];
    NextSizes(t, e, pages);
    assert (events + [e])[..|events|] == events;
    forall i | 0 <= i < |events|
      ensures Possible(more[i], events[i], pages, BOTH) && Possible(more[i], events[i], pages, NEITHER)
      ensures more[i + 1] == Next(more[i], events[i], pages)
    {
      assert more[i] == states[i] && more[i + 1] == states[i + 1];
      Weaker(states[i], events[i], pages, BOTH);
    }
  }

  lemma RanOk(states: seq<State>, events: seq<Event>, pages: nat, log: seq<Req>, t: State)
    requires Ran(states, events, pages, log, t)
    ensures Ok(t, pages, None) && InSeries(t)
  {
    hide Ok, Possible, Next, InSeries, Enabled;
    EmptyOk(states[0], pages);
    EveryRun(states, events, pages, |events|);
  }

  lemma {:induction false} Drained(states: seq<State>, events: seq<Event>, pages: nat, log: seq<Req>, t: State)
    returns (states': seq<State>, events': seq<Event>, u: State)
    requires Ran(states, events, pages, log, t)
    ensures Ran(states', events', pages, log, u) && u.reqs == map[] && states'[0] == states[0]
    decreases ToGo(t.reqs)
  {
    hide Ok, Possible, Next, InSeries, Run, ToGo, Blank;
    states', events', u := states, events, t;
    if t.reqs != map[] {
      RanOk(states, events, pages, log, t);
      var e := OldestEvent(t, pages);
      RanOn(states, events, pages, log, t, e);
      assert log + [] == log;
      FirstKept(states, events, pages, log, t, Next(t, e, pages));
      states', events', u := Drained(states + [Next(t, e, pages)], events + [e], pages, log, Next(t, e, pages));
    }
  }

  lemma FirstKept(states: seq<State>, events: seq<Event>, pages: nat, log: seq<Req>, t: State, u: State)
    requires Ran(states, events, pages, log, t)
    ensures |states| > 0 && (states + [u])[0] == states[0]
  {
  }

  /** With nothing live no erase is pending. */
  lemma NothingPending(t: State, pages: nat, k: Kind)
    requires Ok(t, pages, None) && t.reqs == map[]
    ensures LastFilled(t, k, pages) && LastErased(t, k)
  {
    if (k.Write? || k.Erase?) && k.block < |t.gens| {
      assert GenOk(t, k.block, pages);
    }
  }

  /** A device with enough buffers and blocks can run any sound journal to its end. */
  lemma {:induction false} CanRun<T>(s: State, j: Journal<T>, pages: nat, n: nat)
    returns (states: seq<State>, events: seq<Event>, t: State)
    requires Blank(s) && Sound(j, pages) && n <= |j.log|
    requires forall i :: 0 <= i < |j.log| ==>
               InRange(s, j.log[i].kind) && (j.log[i].buf.Some? ==> j.log[i].buf.value < |s.chains|)
    ensures Ran(states, events, pages, j.log[..n], t) && states[0] == s && t.reqs == map[]
    decreases n
  {
    hide Ok, Possible, Next, InSeries, Run, Blank, Sound, InRange, Orderly, LastFilled, LastErased;
    if n == 0 {
      RanNone(s, pages);
      states, events, t := [s], [], s;
    } else {
      states, events, t := CanRun(s, j, pages, n - 1);
      var r := j.log[n - 1];
      RanOk(states, events, pages, j.log[..n-1], t);
      StillInRange(s, t, r.kind, pages);
      MaySubmitNext(states, events, j, pages, n - 1, t);
      NothingPending(t, pages, r.kind);
      var e := Submit(0, r.kind, r.buf);
      SubmitPossible(t, e, pages);
      RanOn(states, events, pages, j.log[..n-1], t, e);
      FirstKept(states, events, pages, j.log[..n-1], t, Next(t, e, pages));
      LogAt(j, pages, n - 1);
      assert j.log[..n-1] + [r] == j.log[..n];
      states, events, t := Drained(states + [Next(t, e, pages)], events + [e], pages, j.log[..n], Next(t, e, pages));
    }
  }

  lemma RanNone(s: State, pages: nat)
    requires Blank(s)
    ensures Ran([s], [], pages, [], s) && s.reqs == map[]
  {
  }

  lemma StillInRange(s: State, t: State, k: Kind, pages: nat)
    requires InRange(s, k) && SameSizes(s, t) && Ok(t, pages, None)
    ensures InRange(t, k)
  {
  }

  lemma SubmitPossible(t: State, e: Event, pages: nat)
    requires e.Submit? && Orderly(t, e.x, e.kind, e.buf, pages) && LastFilled(t, e.kind, pages) && LastErased(t, e.kind)
    ensures Possible(t, e, pages, BOTH) && Possible(t, e, pages, NEITHER)
  {
  }

  lemma LogAt<T>(j: Journal<T>, pages: nat, i: nat)
    requires Sound(j, pages) && i < |j.log|
    ensures j.log[i] == Req(i, j.log[i].kind, j.log[i].buf, Active)
  {
  }

  lemma MaySubmitNext<T>(states: seq<State>, events: seq<Event>, j: Journal<T>, pages: nat, i: nat, t: State)
    requires i < |j.log| && Ran(states, events, pages, j.log[..i], t) && Sound(j, pages) && t.reqs == map[]
    requires InRange(t, j.log[i].kind) && (j.log[i].buf.Some? ==> j.log[i].buf.value < |t.chains|)
    ensures Orderly(t, 0, j.log[i].kind, j.log[i].buf, pages)
  {
    hide Sound, Run, Blank, Orderly;
    MaySubmit(states, events, j, pages, 0);
  }

  /** Where the blocks of logical slice l are: in the buffer that has it, or on the page it is mapped to, or
      nowhere because they were never written. */
  ghost predicate Holds<B>(m: Mem<seq<B>>, s: S.Mem<B>, l: nat, dies: nat)
    requires Total(m) && |s.bufs| == 2
  {
    && (forall k, e :: 0 <= k <= S.RBUF && 0 <= e < |s.bufs[k].lsa| && s.bufs[k].lsa[e] == Some(l) ==>
          S.Agrees(s.flat, l, m.bufs[S.EntryNo(dies, |s.bufs[S.MAIN].data|, k, e)]))
    && (!S.Buffered(s, l) ==>
          if l in s.l2v then S.Agrees(s.flat, l, m.flash[(BlockNo(s.l2v[l], dies), s.l2v[l].page)])
          else S.Unwritten(s.flat, l))
  }

  lemma MemHolds<B>(j: Journal<seq<B>>, s: S.Mem<B>, l: nat, dies: nat, pages: nat)
    requires S.Coherent(s) && |s.bufs| == 2 && S.Shadowed(s.bufs, j, dies) && Journaled(s.cells, j, dies, pages)
    ensures Total(j.mem) && Holds(j.mem, s, l, dies)
  {
    hide Sound;
    forall k, e | 0 <= k <= S.RBUF && 0 <= e < |s.bufs[k].lsa| && s.bufs[k].lsa[e] == Some(l)
      ensures S.Agrees(s.flat, l, j.mem.bufs[S.EntryNo(dies, |s.bufs[S.MAIN].data|, k, e)])
    {
      S.HitAgrees(s, k, e, l);
    }
  }

  /** The device as a whole. Once the engine has completed every request a store has submitted, in whatever
      order, the memory is what the store takes it for: it holds the host's array, and the host has been
      sent what the store answered. */
  lemma DeviceAgrees<B>(s: S.Store<B>, states: seq<State>, events: seq<Event>)
    requires s.Valid() && Run(states, events, s.ftl.pages, BOTH) && Blank(states[0])
    requires Log(events) == s.ftl.journal.log && states[|events|].reqs == map[]
    ensures var j := s.ftl.journal;
            && Total(j.start) && Total(j.mem)
            && Play(j.start, states[|events|].done, FillOf(j.fills), j.blank) == j.mem
            && forall l :: Holds(j.mem, s.M(), l, |s.ftl.arr.dies|)
  {
    hide Run, Blank, Play, S.Coherent, S.Shadowed, Mirrors, Holds, Tidy;
    var j := s.ftl.journal;
    s.JournalThere();
    EngineAgrees(states, events, j, s.ftl.pages);
    forall l: nat ensures Holds(j.mem, s.M(), l, |s.ftl.arr.dies|) {
      MemHolds(j, s.M(), l, |s.ftl.arr.dies|, s.ftl.pages);
    }
  }
}
