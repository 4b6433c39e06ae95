/** The first of the two conditions on submissions, met by the journal of a device: as soon as a block is
    programmed again after an erase, the device can run its journal so that the condition is broken. */
module Reuse {
  import opened Basics
  import opened Requests
  import opened Serial
  import opened Runs
  import opened Firmware
  import opened Journal
  import Shadow
  import Sets
  import S = Store
  import F = Ftl
  import Buffer
  import Dies
  import Room
  import Tables
  import D = Die
  import C = Capacity

  ghost predicate Erased(log: seq<Req>, b: nat) {
    exists i :: 0 <= i < |log| && log[i].kind.Erase? && log[i].kind.block == b
  }

  /** Request k programs a block that has been erased before. */
  ghost predicate Reuses(log: seq<Req>, k: nat) {
    k < |log| && log[k].kind.Write? && Erased(log[..k], log[k].kind.block)
  }

  ghost predicate Unused(log: seq<Req>) {
    forall k :: 0 <= k < |log| ==> !Reuses(log, k)
  }

  lemma ErasedMore(log: seq<Req>, r: Req, b: nat)
    ensures Erased(log + [r], b) <==> Erased(log, b) || (r.kind.Erase? && r.kind.block == b)
  {
    var more := log + [r];
    if Erased(log, b) {
      var i :| 0 <= i < |log| && log[i].kind.Erase? && log[i].kind.block == b;
      assert more[i] == log[i];
    }
    if r.kind.Erase? && r.kind.block == b {
      assert more[|log|] == r;
    }
    if Erased(more, b) {
      var i :| 0 <= i < |more| && more[i].kind.Erase? && more[i].kind.block == b;
      assert i < |log| ==> more[i] == log[i];
    }
  }

  lemma UnusedLess(log: seq<Req>, n: nat)
    requires n <= |log| && forall k :: 0 <= k < n ==> !Reuses(log, k)
    ensures Unused(log[..n])
  {
    forall k | 0 <= k < n ensures !Reuses(log[..n], k) {
      assert log[..n][..k] == log[..k] && !Reuses(log, k);
    }
  }

  /** As long as no block is used again an erased one stays blank. */
  lemma {:induction false} StaysBlank(log: seq<Req>, b: nat)
    requires Unused(log) && Erased(log, b)
    ensures Filled(log, b) == 0
    decreases |log|
  {
    var n := |log| - 1;
    var before, r := log[..n], log[n];
    assert log == before + [r];
    ErasedMore(before, r, b);
    UnusedLess(log, n);
    assert !Reuses(log, n);
    if Erased(before, b) {
      StaysBlank(before, b);
    }
  }

  /** The requests of the log, all of them live. */
  ghost predicate Live(reqs: map<nat, Req>, log: seq<Req>) {
    && reqs.Keys == Sets.Upto(|log|)
    && forall i :: 0 <= i < |log| ==>
         reqs[i].kind == log[i].kind && reqs[i].buf == log[i].buf && !reqs[i].loc.InHand?
  }

  /** Whatever buffer one of them uses has somebody waiting. */
  ghost predicate Queued(chains: seq<seq<nat>>, log: seq<Req>) {
    && (forall i :: 0 <= i < |log| && log[i].buf.Some? ==>
          log[i].buf.value < |chains| && chains[log[i].buf.value] != [])
    && forall k :: 0 <= k < |chains| && chains[k] != [] ==> chains[k][0] < |log|
  }

  /** No operation on block b has been admitted. */
  ghost predicate Idling(row: Row, gen: Gen, log: seq<Req>, b: nat) {
    && row.permittedProgPage == 0 && (row.blockedEraseReqFlag ==> Erased(log, b))
    && |gen.current| == Filled(log, b) && (gen.erase.Some? <==> Erased(log, b))
  }

  /** All requests of the log are live: no operation has completed and no NAND operation has been admitted. */
  ghost predicate Held(s: State, log: seq<Req>) {
    && s.clock == |log| && s.done == [] && Live(s.reqs, log) && Queued(s.chains, log)
    && |s.rows| == |s.gens| == |s.logs| == |s.nand|
    && forall b :: 0 <= b < |s.rows| ==> Idling(s.rows[b], s.gens[b], log, b)
  }

  /** The next request can be submitted, meeting all conditions unless it uses a block again. */
  lemma NextOrderly(s: State, log: seq<Req>, k: Kind, buf: Option<nat>, pages: nat)
    requires Held(s, log) && Follows(log, k, buf, pages) && Unused(log) && 0 < pages && |log| + 1 < 0x1_0000
    requires InRange(s, k) && (buf.Some? ==> buf.value < |s.chains|)
    ensures Orderly(s, |log|, k, buf, pages) && LastErased(s, k)
    ensures LastFilled(s, k, pages) <==> !(k.Write? && Erased(log, k.block))
  {
    if k.Erase? && Erased(log, k.block) {
      StaysBlank(log, k.block);
    }
  }

  /** Where the next request goes: a host DMA to its queue or behind others at its buffer, anything
      else to wait. */
  lemma NextSorted(s: State, log: seq<Req>, k: Kind, buf: Option<nat>, pages: nat, c: Care) returns (loc: Loc)
    requires Held(s, log) && Follows(log, k, buf, pages) && Unused(log) && 0 < pages
    requires InRange(s, k) && (buf.Some? ==> buf.value < |s.chains|)
    ensures var u := Submitted(s, |log|, k, buf);
            && Possible(u, Sort(|log|), pages, c) && Possible(u, Sort(|log|), pages, NEITHER)
            && Next(u, Sort(|log|), pages) == Moved(u, |log|, loc)
    ensures !loc.InHand? && (Nand(k) ==> !loc.Active?)
  {
    var u := Submitted(s, |log|, k, buf);
    if k.Read? && Erased(log, k.block) {
      StaysBlank(log, k.block);
    }
    assert Synced(u, |log|);
    if k.Write? {
      var i :| 0 <= i < |log| && log[i].buf == Some(buf.value);
    }
    loc := if First(u, |log|) then NextLoc(k, Passes(u, k)) else BlockedByBuf;
  }

  lemma StillIdling(s: State, log: seq<Req>, r: Req, loc: Loc, b: nat)
    requires Held(s, log) && InRange(s, r.kind) && (r.buf.Some? ==> r.buf.value < |s.chains|) && b < |s.rows|
    requires !(r.kind.Write? && Erased(log, r.kind.block)) && (Nand(r.kind) ==> !loc.Active?)
    ensures var t := Moved(Submitted(s, |log|, r.kind, r.buf), |log|, loc);
            |t.rows| == |t.gens| == |s.rows| && Idling(t.rows[b], t.gens[b], log + [r], b)
  {
    Shadow.FilledMore(log, r, b);
    ErasedMore(log, r, b);
    hide Filled, Erased, Live, Queued;
    assert Idling(s.rows[b], s.gens[b], log, b);
  }

  lemma LiveMore(reqs: map<nat, Req>, log: seq<Req>, r: Req, q: Req)
    requires Live(reqs, log) && q.kind == r.kind && q.buf == r.buf && !q.loc.InHand?
    ensures Live(reqs[|log| := q], log + [r])
  {
    hide Sets.Upto;
    Sets.UptoNext(|log|);
    assert |log + [r]| == |log| + 1;
    assert reqs[|log| := q].Keys == reqs.Keys + {|log|};
  }

  lemma QueuedMore(chains: seq<seq<nat>>, log: seq<Req>, r: Req)
    requires Queued(chains, log) && (r.buf.Some? ==> r.buf.value < |chains|)
    ensures Queued(if r.buf.Some? then chains[r.buf.value := chains[r.buf.value] + [|log|]] else chains, log + [r])
  {
  }

  ghost predicate SameSizes(s: State, t: State) {
    && |t.rows| == |s.rows| && |t.gens| == |s.gens| && |t.logs| == |s.logs| && |t.nand| == |s.nand|
    && |t.chains| == |s.chains| && |t.rxLeft| == |s.rxLeft|
  }

  lemma MoreFields(s: State, x: nat, k: Kind, buf: Option<nat>, loc: Loc)
    requires InRange(s, k) && (buf.Some? ==> buf.value < |s.chains|)
    ensures var t := Moved(Submitted(s, x, k, buf), x, loc);
            && t.clock == s.clock + 1 && t.done == s.done && t.reqs == s.reqs[x := Req(s.clock, k, buf, loc)]
            && t.chains == (if buf.Some? then s.chains[buf.value := s.chains[buf.value] + [x]] else s.chains)
            && SameSizes(s, t)
  {
  }

  lemma HeldMore(s: State, log: seq<Req>, r: Req, loc: Loc)
    requires Held(s, log) && InRange(s, r.kind) && (r.buf.Some? ==> r.buf.value < |s.chains|)
    requires !(r.kind.Write? && Erased(log, r.kind.block)) && (Nand(r.kind) ==> !loc.Active?) && !loc.InHand?
    ensures var t := Moved(Submitted(s, |log|, r.kind, r.buf), |log|, loc);
            Held(t, log + [r]) && SameSizes(s, t)
  {
    var t := Moved(Submitted(s, |log|, r.kind, r.buf), |log|, loc);
    MoreFields(s, |log|, r.kind, r.buf, loc);
    hide Moved, Submitted, Live, Queued, Idling, Erased;
    forall b | 0 <= b < |t.rows| ensures Idling(t.rows[b], t.gens[b], log + [r], b) {
      StillIdling(s, log, r, loc, b);
    }
    LiveMore(s.reqs, log, r, Req(|log|, r.kind, r.buf, loc));
    QueuedMore(s.chains, log, r);
  }

  /** Everything the log names exists on the device. */
  ghost predicate Exist(s: State, log: seq<Req>) {
    forall i :: 0 <= i < |log| ==>
      InRange(s, log[i].kind) && (log[i].buf.Some? ==> log[i].buf.value < |s.chains|)
  }

  /** One more request submitted and sorted. */
  lemma HoldNext(dev: Device, log: seq<Req>, r: Req, pages: nat) returns (t: Device)
    requires Reached(BOTH, pages, dev) && Held(dev.s, log) && Follows(log, r.kind, r.buf, pages) && Unused(log)
    requires 0 < pages && |log| + 1 < 0x1_0000 && !(r.kind.Write? && Erased(log, r.kind.block))
    requires InRange(dev.s, r.kind) && (r.buf.Some? ==> r.buf.value < |dev.s.chains|)
    ensures Reached(BOTH, pages, t) && Held(t.s, log + [r]) && SameSizes(dev.s, t.s)
  {
    hide Reached, Held, Follows, Unused, Erased, Moved, Submitted, Next, SameSizes, Possible;
    NextOrderly(dev.s, log, r.kind, r.buf, pages);
    assert Possible(dev.s, Submit(|log|, r.kind, r.buf), pages, BOTH) by {
      SubmitPossible(dev.s, |log|, r.kind, r.buf, pages);
    }
    var loc := NextSorted(dev.s, log, r.kind, r.buf, pages, BOTH);
    HeldMore(dev.s, log, r, loc);
    var submit, sort := Plain(Submit(|log|, r.kind, r.buf)), Plain(Sort(|log|));
    Onward(BOTH, pages, dev, submit);
    var mid := After(dev, submit, pages);
    SubmitIs(dev, |log|, r.kind, r.buf, pages);
    Onward(BOTH, pages, mid, sort);
    t := After(mid, sort, pages);
  }

  lemma SubmitPossible(s: State, x: nat, k: Kind, buf: Option<nat>, pages: nat)
    requires Orderly(s, x, k, buf, pages) && LastFilled(s, k, pages) && LastErased(s, k)
    ensures Possible(s, Submit(x, k, buf), pages, BOTH) && Possible(s, Submit(x, k, buf), pages, NEITHER)
  {
  }

  lemma SubmitIs(dev: Device, x: nat, k: Kind, buf: Option<nat>, pages: nat)
    requires CanAct(dev, Plain(Submit(x, k, buf)), pages, NEITHER)
    ensures InRange(dev.s, k) && (buf.Some? ==> buf.value < |dev.s.chains|)
    ensures After(dev, Plain(Submit(x, k, buf)), pages).s == Submitted(dev.s, x, k, buf)
  {
  }

  lemma HeldNone(s: State)
    requires Blank(s)
    ensures Held(s, [])
  {
    forall b | 0 <= b < |s.rows| ensures Idling(s.rows[b], s.gens[b], [], b) {
      assert !Erased([], b);
    }
    assert Live(s.reqs, []);
    assert Queued(s.chains, []);
  }

  /** Submitting and sorting alone, with nothing completed in between. */
  lemma {:induction false} HoldAll(dev: Device, log: seq<Req>, n: nat, pages: nat) returns (t: Device)
    requires Fresh(dev) && Exist(dev.s, log) && Tidy(log, pages) && 0 < pages && n <= |log| && n < 0xffff
    requires forall k :: 0 <= k < n ==> !Reuses(log, k)
    ensures Reached(BOTH, pages, t) && Held(t.s, log[..n]) && SameSizes(dev.s, t.s)
  {
    hide Reached, Held, Tidy, Reuses;
    if n == 0 {
      AtStart(BOTH, pages, dev);
      HeldNone(dev.s);
      t := dev;
    } else {
      var mid := HoldAll(dev, log, n - 1, pages);
      UnusedLess(log, n - 1);
      TidyAt(log, n - 1, pages);
      NotReused(log, n - 1);
      t := HoldNext(mid, log[..n - 1], log[n - 1], pages);
      assert log[..n - 1] + [log[n - 1]] == log[..n];
    }
  }

  lemma NotReused(log: seq<Req>, k: nat)
    requires k < |log|
    ensures Reuses(log, k) <==> log[k].kind.Write? && Erased(log[..k], log[k].kind.block)
  {
  }

  /** When the first request that programs an erased block again is due, the device can be in a state where
      it is as orderly as any, both conditions have been met all along, and it breaks the first: the
      programs before the erase are not admitted. */
  lemma ReuseBreaks(dev: Device, log: seq<Req>, k: nat, pages: nat) returns (t: Device)
    requires Fresh(dev) && Exist(dev.s, log) && Tidy(log, pages) && 0 < pages && k < 0xffff
    requires Reuses(log, k) && forall i :: 0 <= i < k ==> !Reuses(log, i)
    ensures Reached(BOTH, pages, t) && Held(t.s, log[..k])
    ensures Orderly(t.s, k, log[k].kind, log[k].buf, pages) && LastErased(t.s, log[k].kind)
    ensures !LastFilled(t.s, log[k].kind, pages)
  {
    t := HoldAll(dev, log, k, pages);
    hide Reached, Held, Tidy, Orderly, LastFilled;
    UnusedLess(log, k);
    TidyAt(log, k, pages);
    NextOrderly(t.s, log[..k], log[k].kind, log[k].buf, pages);
  }

  lemma FirstReuse(log: seq<Req>, k: nat) returns (first: nat)
    requires Reuses(log, k)
    ensures first <= k && Reuses(log, first) && forall i :: 0 <= i < first ==> !Reuses(log, i)
  {
    first := k;
    if i :| 0 <= i < k && Reuses(log, i) {
      first := FirstReuse(log, i);
    }
  }

  /** So it is with every store that has come to use a block again. */
  lemma StoreBreaks<B>(s: S.Store<B>, k: nat, dev: Device) returns (t: Device, first: nat)
    requires s.Valid() && Reuses(s.ftl.journal.log, k) && k < 0xffff
    requires Fresh(dev) && Exist(dev.s, s.ftl.journal.log)
    ensures first <= k && Reached(BOTH, s.ftl.pages, t) && Held(t.s, s.ftl.journal.log[..first])
    ensures var r := s.ftl.journal.log[first];
            Orderly(t.s, first, r.kind, r.buf, s.ftl.pages) && !LastFilled(t.s, r.kind, s.ftl.pages)
  {
    hide Reached, Held, Orderly, LastFilled, Reuses, S.Coherent, S.Shadowed, F.Ftl.Valid, Buffer.DataBuffer.Valid;
    var log := s.ftl.journal.log;
    s.ftl.JournalTidy();
    hide S.Store.Valid;
    first := FirstReuse(log, k);
    t := ReuseBreaks(dev, log, first, s.ftl.pages);
  }

  // ---- and it does come to that ----

  lemma {:induction false} StaysFilled(log: seq<Req>, b: nat, i: nat)
    requires i < |log| && log[i].kind.Write? && log[i].kind.block == b && !Erased(log, b)
    ensures Filled(log, b) > 0
    decreases |log|
  {
    var n := |log| - 1;
    assert log == log[..n] + [log[n]];
    ErasedMore(log[..n], log[n], b);
    if i < n {
      StaysFilled(log[..n], b, i);
    }
  }

  /** The blocks the requests program. */
  ghost function Programmed(log: seq<Req>): (r: set<nat>) {
    set i | 0 <= i < |log| && log[i].kind.Write? :: log[i].kind.block
  }

  /** With one page to a block, a program that uses no block again is of a block not programmed before. */
  lemma NewBlock(log: seq<Req>, more: seq<Req>)
    requires Tidy(more, 1) && log < more && Unused(more) && more[|more|-1].kind.Write?
    ensures more[|more|-1].kind.block !in Programmed(log) && Programmed(log) <= Programmed(more)
    ensures more[|more|-1].kind.block in Programmed(more)
  {
    hide Tidy;
    var n := |more| - 1;
    var b := more[n].kind.block;
    TidyAt(more, n, 1);
    assert !Reuses(more, n);
    forall i | 0 <= i < |log| ensures log[i] == more[i] == more[..n][i] {
    }
    if i :| 0 <= i < |log| && log[i].kind.Write? && log[i].kind.block == b {
      StaysFilled(more[..n], b, i);
    }
    forall x | x in Programmed(log) ensures x in Programmed(more) {
      var i :| 0 <= i < |log| && log[i].kind.Write? && log[i].kind.block == x;
      assert more[i] == log[i];
    }
  }

  /** A device with one die of three good blocks of one page, on which two slices take turns. */
  ghost predicate TakingTurns<T>(f: F.Ftl<T>, m: nat)
    reads f.Repr()
  {
    && f.Valid() && f.pages == 1 && |f.arr.views| == |f.arr.dies| == 1 && f.arr.bad == [[false, false, false]]
    && f.l2v.Keys <= {0, 1} && m in f.l2v && f.l2v[m].block == f.arr.views[0].current && Sourced(f.journal.log, 1)
  }

  lemma OneOther(l2v: map<nat, Tables.Vsa>, l: nat, m: nat)
    requires l2v.Keys <= {0, 1} && l <= 1 && m <= 1 && l != m
    ensures |C.OnDie(l2v - {l}, 0)| <= 1
  {
    Sets.Within(C.OnDie(l2v - {l}, 0), {m});
  }

  lemma ThreeGood(v: D.DieView)
    requires Dies.Marked(v, [false, false, false])
    ensures |C.Good(v)| == 3
  {
    assert C.Good(v) == Sets.Upto(3);
  }

  lemma TurnFits<T>(f: F.Ftl<T>, l: nat, m: nat)
    requires TakingTurns(f, m) && l <= 1 && l != m
    ensures F.Fits(f.Awaiting(l), 1)
  {
    hide Dies.DieArray.Valid, F.CellsMatch, Tables.Inv, Sourced, C.OnDie, C.Good, F.Fits, F.RunsOut, Dies.Marked,
      Shadow.Journaled;
    f.LocatedAt(m);
    C.FailsOnlyFull(f, l, m);
    C.StopsExactly(f, l);
    f.arr.At(0);
    ThreeGood(f.arr.views[0]);
    OneOther(f.l2v, l, m);
  }

  /** The next slice in turn is written, and the journal ends with the program of its page. */
  method TakeTurn(f: F.Ftl<bool>, l: nat, ghost m: nat)
    requires TakingTurns(f, m) && l <= 1 && l != m && Total(f.journal.mem) && f.journal.mem.bufs[1]
    modifies f.Repr()
    ensures TakingTurns(f, l) && Total(f.journal.mem) && f.journal.mem.bufs[1]
    ensures old(f.journal).log < f.journal.log && |f.journal.log| <= |old(f.journal).log| + 2
    ensures Tidy(f.journal.log, 1) && LastWrites(f.journal.log, 3)
  {
    hide Dies.DieArray.Valid, F.CellsMatch, Tables.Inv, Sourced, F.Fits, F.RunsOut, Shadow.Journaled, Tidy,
      F.SameData, Shadow.KeptFrom, Room.Used, LastIs, LastWrites;
    TurnFits(f, l, m);
    ghost var l2v, cells, j := f.l2v, f.cells, f.journal;
    var r := f.WriteSlice(l, true, 1);
    f.LocatedAt(l);
    f.JournalTidy();
    f.arr.At(0);
    KeptAt(j, f.journal);
    StillSourced(j.log, f.journal.log, 1);
    SameSlices(l2v - {l}, cells, f.l2v - {l}, f.cells);
    assert f.l2v.Keys == (f.l2v - {l}).Keys + {l};
    LastWritten(f.journal.log, r.vsa, f.arr.views[0]);
  }

  lemma KeptAt(j: Journal<bool>, j': Journal<bool>)
    requires Shadow.KeptFrom(1, j, j') && |j.log| < |j'.log|
    ensures j.log < j'.log && Total(j.mem) && Total(j'.mem) && j'.mem.bufs[1] == j.mem.bufs[1]
  {
  }

  lemma SameSlices<T>(l2v: map<nat, Tables.Vsa>, cells: map<Tables.Vsa, T>, l2v': map<nat, Tables.Vsa>,
                      cells': map<Tables.Vsa, T>)
    requires F.SameData(l2v, cells, l2v', cells')
    ensures l2v'.Keys == l2v.Keys
  {
  }

  lemma LastWritten(log: seq<Req>, vsa: Tables.Vsa, v: D.DieView)
    requires LastIs(log, Write(Shadow.BlockNo(vsa, 1), vsa.page)) && vsa.die == 0 && vsa.block < |v.blocks|
    requires Dies.Marked(v, [false, false, false])
    ensures LastWrites(log, 3)
  {
  }

  /** The last request programs a page of one of the first n blocks. */
  ghost predicate LastWrites(log: seq<Req>, n: nat) {
    log != [] && log[|log|-1].kind.Write? && log[|log|-1].kind.block < n
  }

  /** A blank device with a buffer the host has filled. */
  method Begin(ghost start: Mem<bool>) returns (f: F.Ftl<bool>)
    requires Total(start) && start.bufs[1]
    ensures fresh(f.Repr()) && f.Valid() && f.pages == 1 && |f.arr.dies| == 1 && f.arr.bad == [[false, false, false]]
    ensures f.cells == map[] && f.l2v == map[] && f.sliceAllocationTargetDie == 0 && |f.journal.log| == 1
    ensures Sourced(f.journal.log, 1) && Total(f.journal.mem) && f.journal.mem.bufs[1]
  {
    hide F.Ftl.Valid, Sourced, Shadow.Journaled;
    assert Dies.TwoGood([false, false, false]) by {
      assert ![false, false, false][0] && ![false, false, false][1];
    }
    f := new F.Ftl(1, 1, 1, [[false, false, false]], start, true);
    f.JournalIn();
    f.HostDma(1, Shadow.Same());
  }

  method FirstTurn(ghost start: Mem<bool>) returns (f: F.Ftl<bool>)
    requires Total(start) && start.bufs[1]
    ensures fresh(f.Repr()) && TakingTurns(f, 0) && Total(f.journal.mem) && f.journal.mem.bufs[1]
    ensures |f.journal.log| <= 3 && Tidy(f.journal.log, 1) && LastWrites(f.journal.log, 3)
  {
    hide Dies.DieArray.Valid, F.CellsMatch, Tables.Inv, Sourced, F.Fits, F.RunsOut, Shadow.Journaled, Tidy,
      F.SameData, Shadow.KeptFrom, Room.Used, LastIs, LastWrites;
    f := Begin(start);
    C.FirstFits(f, 0);
    ghost var l2v, cells, j := f.l2v, f.cells, f.journal;
    var r := f.WriteSlice(0, true, 1);
    C.DieCount(f);
    f.LocatedAt(0);
    f.JournalTidy();
    f.arr.At(0);
    KeptAt(j, f.journal);
    StillSourced(j.log, f.journal.log, 1);
    SameSlices(l2v - {0}, cells, f.l2v - {0}, f.cells);
    assert f.l2v.Keys == (f.l2v - {0}).Keys + {0};
    LastWritten(f.journal.log, r.vsa, f.arr.views[0]);
  }

  lemma NextBlock(log: seq<Req>, more: seq<Req>, whole: seq<Req>)
    requires log < more <= whole && Unused(whole) && Tidy(more, 1) && LastWrites(more, 3)
    ensures var b := more[|more|-1].kind.block;
            b < 3 && b !in Programmed(log) && b in Programmed(more) && Programmed(log) <= Programmed(more)
  {
    assert whole[..|more|] == more;
    UnusedLess(whole, |more|);
    hide Tidy, Unused;
    NewBlock(log, more);
  }

  /** Four programs do not fit on three blocks of one page. */
  lemma SomeReuse(a: seq<Req>, b: seq<Req>, c: seq<Req>, d: seq<Req>) returns (k: nat)
    requires a < b < c < d && Tidy(a, 1) && Tidy(b, 1) && Tidy(c, 1) && Tidy(d, 1)
    requires LastWrites(a, 3) && LastWrites(b, 3) && LastWrites(c, 3) && LastWrites(d, 3)
    ensures Reuses(d, k)
  {
    hide Tidy, Programmed, Reuses;
    if Unused(d) {
      NextBlock([], a, d);
      NextBlock(a, b, d);
      NextBlock(b, c, d);
      NextBlock(c, d, d);
      var w, x, y, z := Last(a), Last(b), Last(c), Last(d);
      Sets.Within({w, x, y, z}, Sets.Upto(3));
      assert false;
    }
    k :| 0 <= k < |d| && Reuses(d, k);
  }

  ghost function Last(log: seq<Req>): (b: nat)
    requires log != [] && log[|log|-1].kind.Write?
  {
    log[|log|-1].kind.block
  }

  lemma {:induction false} Largest(log: seq<Req>) returns (n: nat)
    ensures forall i :: 0 <= i < |log| ==>
              (Nand(log[i].kind) ==> log[i].kind.block < n) && (log[i].buf.Some? ==> log[i].buf.value < n)
  {
    n := 0;
    if log != [] {
      var r := log[|log|-1];
      n := Largest(log[..|log|-1]);
      n := n + (if Nand(r.kind) then r.kind.block + 1 else 0) + (if r.buf.Some? then r.buf.value + 1 else 0);
      forall i | 0 <= i < |log|
        ensures (Nand(log[i].kind) ==> log[i].kind.block < n) && (log[i].buf.Some? ==> log[i].buf.value < n)
      {
        assert i < |log| - 1 ==> log[..|log|-1][i] == log[i];
      }
    }
  }

  /** There is a device for every journal. */
  lemma DeviceFor(log: seq<Req>, pages: nat) returns (dev: Device)
    requires Tidy(log, pages)
    ensures Fresh(dev) && Exist(dev.s, log)
  {
    hide Tidy;
    var n := Largest(log);
    dev := Device(Bare(n, n, 0), seq(n, _ => 0), [[]]);
    forall i | 0 <= i < |log| ensures InRange(dev.s, log[i].kind) {
      TidyAt(log, i, pages);
    }
  }

  /** Two slices written in turn on three blocks: when the journal of it is run, the first request that uses
      a block again can break the first condition. */
  method ReuseHappens(ghost start: Mem<bool>) returns (f: F.Ftl<bool>, ghost t: Device, ghost k: nat)
    requires Total(start) && start.bufs[1]
    ensures f.Valid() && k < |f.journal.log| && Reached(BOTH, f.pages, t) && Held(t.s, f.journal.log[..k])
    ensures var r := f.journal.log[k];
            Orderly(t.s, k, r.kind, r.buf, f.pages) && LastErased(t.s, r.kind) && !LastFilled(t.s, r.kind, f.pages)
  {
    hide Tidy, Reached, Held, Orderly, LastErased, LastFilled, LastWrites, F.Ftl.Valid, Fresh, Exist;
    f := FirstTurn(start);
    ghost var a := f.journal.log;
    TakeTurn(f, 1, 0);
    ghost var b := f.journal.log;
    TakeTurn(f, 0, 1);
    ghost var c := f.journal.log;
    TakeTurn(f, 1, 0);
    ghost var d := f.journal.log;
    k := SomeReuse(a, b, c, d);
    k := FirstReuse(d, k);
    ghost var dev := DeviceFor(d, 1);
    t := ReuseBreaks(dev, d, k, 1);
  }
}
