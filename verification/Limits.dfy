/** What goes wrong without each of the two conditions on submissions the engine does not check, and
    that together they are exactly what is needed. The runs are on one block, of any number of pages the
    request slots leave room for, and are such as the scheduler makes them. */
module Limits {
  import opened Basics
  import opened Requests
  import opened Serial
  import opened Progress
  import opened Runs
  import opened Firmware

  /** Requests are live and none of them can move. */
  ghost predicate Deadlocked(s: State) {
    s.reqs != map[] && forall x :: x in s.reqs ==> InRange(s, s.reqs[x].kind) && !Enabled(s, x)
  }

  /** A request has completed before one submitted earlier that it conflicts with. */
  ghost predicate OutOfOrder(s: State) {
    exists i, x :: 0 <= i < |s.done| && x in s.reqs && Conflict(s.done[i], s.reqs[x]) && s.reqs[x].num < s.done[i].num
  }

  // ---- one block of one die ----

  /** What there is to a device with one block and no read-write command. */
  datatype View = View(reqs: map<nat, Req>, chains: seq<seq<nat>>, row: Row, gen: Gen, nand: seq<nat>, rowQ: seq<nat>,
                       clock: nat, done: seq<Req>)

  ghost predicate Is(s: State, v: View) {
    && s.reqs == v.reqs && s.chains == v.chains && s.rows == [v.row] && s.gens == [v.gen] && s.nand == [v.nand]
    && |s.logs| == 1 && s.rxLeft == [] && s.clock == v.clock && s.done == v.done
  }

  ghost predicate Matches(dev: Device, v: View) {
    Is(dev.s, v) && dev.die == [0] && dev.rowQ == [v.rowQ]
  }

  predicate Local(k: Kind) {
    k.Dma? || (Nand(k) && k.block == 0)
  }

  /** Every request is of a kind of these runs, and none is in hand. */
  ghost predicate Calm(v: View) {
    forall x :: x in v.reqs ==> Local(v.reqs[x].kind) && !v.reqs[x].loc.InHand?
  }

  /** A run of the firmware, its submissions meeting the conditions c, gets here. */
  ghost predicate Shown(c: Care, pages: nat, v: View) {
    Calm(v) && exists dev :: Reached(c, pages, dev) && Matches(dev, v)
  }

  predicate PassesNow(row: Row, k: Kind) {
    match k
    case Read(_, p) => p < row.permittedProgPage
    case Write(_, p) => p == row.permittedProgPage
    case Erase(_, n) => n == row.permittedProgPage && row.blockedReadReqCnt == 0
    case _ => true
  }

  function MovedView(v: View, x: nat, loc: Loc): (w: View)
    requires x in v.reqs
  {
    var r := v.reqs[x];
    var into := Nand(r.kind) && loc.Active?;
    v.(reqs := v.reqs[x := r.(loc := loc)], row := NextRow(v.row, r, loc),
       gen := if into && r.kind.Erase? && v.gen.erase == Some(x) then Gen(v.gen.current, None, []) else v.gen,
       nand := if into then v.nand + [x] else v.nand)
  }

  lemma MoveShows(s: State, v: View, x: nat, loc: Loc)
    requires Is(s, v) && x in v.reqs && Local(v.reqs[x].kind)
    ensures InRange(s, v.reqs[x].kind) && Is(Moved(s, x, loc), MovedView(v, x, loc))
  {
  }

  function SettledView(v: View, x: nat): (w: View)
    requires x in v.reqs
  {
    MovedView(v, x, if PassesNow(v.row, v.reqs[x].kind) then Active else BlockedByRow)
  }

  lemma SettleShows(s: State, v: View, x: nat)
    requires Is(s, v) && x in v.reqs && Local(v.reqs[x].kind)
    ensures InRange(s, v.reqs[x].kind) && Is(Settled(s, x), SettledView(v, x))
  {
    var k := s.reqs[x].kind;
    assert Passes(s, k) == PassesNow(v.row, k);
    MoveShows(s, v, x, if PassesNow(v.row, k) then Active else BlockedByRow);
  }

  /** Request x joins the row-blocked queue if it has come to be blocked by its row. */
  function Lined(v: View, x: nat): (w: View)
    requires x in v.reqs
  {
    if v.reqs[x].loc.BlockedByRow? then v.(rowQ := v.rowQ + [x]) else v
  }

  // ---- a request is submitted and sorted ----

  function SubmittedView(v: View, k: Kind, buf: Option<nat>): (w: View)
    requires buf.Some? ==> buf.value < |v.chains|
  {
    v.(reqs := v.reqs[v.clock := Req(v.clock, k, buf, InHand)], clock := v.clock + 1,
       chains := if buf.Some? then v.chains[buf.value := v.chains[buf.value] + [v.clock]] else v.chains,
       gen := if k.Write? then v.gen.(current := v.gen.current + [v.clock])
              else if k.Erase? then Gen([], Some(v.clock), v.gen.current) else v.gen)
  }

  lemma SubmitShows(s: State, v: View, k: Kind, buf: Option<nat>)
    requires Is(s, v) && Local(k) && (buf.Some? ==> buf.value < |v.chains|)
    ensures InRange(s, k) && (buf.Some? ==> buf.value < |s.chains|)
    ensures Is(Submitted(s, s.clock, k, buf), SubmittedView(v, k, buf))
  {
    var t, w := Submitted(s, s.clock, k, buf), SubmittedView(v, k, buf);
    assert t.gens == [w.gen] && t.reqs == w.reqs;
  }

  /** The request may be submitted in a state like this under the conditions c, and sorted at once. */
  ghost predicate MayEnter(v: View, k: Kind, buf: Option<nat>, pages: nat, c: Care) {
    && v.clock !in v.reqs && |v.reqs| + 1 < 0x1_0000 && Local(k)
    && (buf.Some? ==>
          buf.value < |v.chains| && (v.chains[buf.value] != [] ==> v.chains[buf.value][0] != v.clock))
    && (k.Write? ==>
          && k.page == |v.gen.current| < pages
          && (c.lastFilled && v.gen.erase.Some? ==> v.row.permittedProgPage == pages))
    && (k.Read? ==> k.page < |v.gen.current| && !v.row.blockedEraseReqFlag)
    && (k.Erase? ==>
          buf.None? && k.programmedPageCnt == pages == |v.gen.current| && (c.lastErased ==> v.gen.erase.None?))
  }

  function Entered(v: View, k: Kind, buf: Option<nat>): (w: View)
    requires buf.Some? ==> buf.value < |v.chains|
  {
    var m := SubmittedView(v, k, buf);
    if buf.Some? && v.chains[buf.value] != [] then MovedView(m, v.clock, BlockedByBuf)
    else Lined(SettledView(m, v.clock), v.clock)
  }

  lemma MaySubmit(s: State, v: View, k: Kind, buf: Option<nat>, pages: nat, c: Care)
    requires Is(s, v) && Calm(v) && MayEnter(v, k, buf, pages, c)
    ensures Possible(s, Submit(s.clock, k, buf), pages, c)
  {
  }

  lemma MaySort(s: State, v: View, k: Kind, buf: Option<nat>, pages: nat, c: Care)
    requires MayEnter(v, k, buf, pages, c) && Is(s, SubmittedView(v, k, buf))
    ensures Possible(s, Sort(v.clock), pages, c)
    ensures First(s, v.clock) <==> buf.None? || v.chains[buf.value] == []
  {
  }

  lemma Submits(dev: Device, v: View, k: Kind, buf: Option<nat>, pages: nat, c: Care) returns (mid: Device)
    requires Reached(c, pages, dev) && Matches(dev, v) && Calm(v) && MayEnter(v, k, buf, pages, c)
    ensures Reached(c, pages, mid) && Matches(mid, SubmittedView(v, k, buf))
  {
    hide Submitted, Reached, Calm;
    MaySubmit(dev.s, v, k, buf, pages, c);
    MaySubmit(dev.s, v, k, buf, pages, NEITHER);
    SubmitShows(dev.s, v, k, buf);
    var a := Plain(Submit(dev.s.clock, k, buf));
    Onward(c, pages, dev, a);
    mid := After(dev, a, pages);
  }

  lemma Sorts(mid: Device, v: View, k: Kind, buf: Option<nat>, pages: nat, c: Care) returns (t: Device)
    requires Reached(c, pages, mid) && MayEnter(v, k, buf, pages, c) && Matches(mid, SubmittedView(v, k, buf))
    ensures Reached(c, pages, t) && Matches(t, Entered(v, k, buf))
  {
    hide Moved, Reached, NextRow;
    var x, u := v.clock, SubmittedView(v, k, buf);
    MaySort(mid.s, v, k, buf, pages, c);
    MaySort(mid.s, v, k, buf, pages, NEITHER);
    MoveShows(mid.s, u, x, BlockedByBuf);
    SettleShows(mid.s, u, x);
    Onward(c, pages, mid, Plain(Sort(x)));
    t := After(mid, Plain(Sort(x)), pages);
  }

  lemma StaysCalm(v: View, k: Kind, buf: Option<nat>)
    requires Calm(v) && Local(k) && (buf.Some? ==> buf.value < |v.chains|)
    ensures Calm(Entered(v, k, buf))
  {
  }

  lemma Enter(c: Care, pages: nat, v: View, k: Kind, buf: Option<nat>)
    requires Shown(c, pages, v) && MayEnter(v, k, buf, pages, c)
    ensures Shown(c, pages, Entered(v, k, buf))
  {
    hide Reached, Matches, Calm, Entered, SubmittedView;
    var dev :| Reached(c, pages, dev) && Matches(dev, v);
    var mid := Submits(dev, v, k, buf, pages, c);
    var t := Sorts(mid, v, k, buf, pages, c);
    StaysCalm(v, k, buf);
  }

  // ---- a request completes ----

  /** The request is first on the chain of its buffer, if it has one. */
  predicate AtHead(v: View, x: nat)
    requires x in v.reqs
  {
    var b := v.reqs[x].buf;
    b.Some? ==> b.value < |v.chains| && v.chains[b.value] != [] && v.chains[b.value][0] == x
  }

  function CompletedView(v: View, x: nat): (w: View)
    requires x in v.reqs && AtHead(v, x)
  {
    var r := v.reqs[x];
    v.(reqs := v.reqs - {x}, done := v.done + [r],
       nand := if Nand(r.kind) && v.nand != [] then v.nand[1..] else v.nand,
       chains := if r.buf.Some? then v.chains[r.buf.value := v.chains[r.buf.value][1..]] else v.chains)
  }

  lemma CompleteShows(s: State, v: View, x: nat)
    requires Is(s, v) && x in v.reqs && Local(v.reqs[x].kind) && AtHead(v, x)
    ensures InRange(s, v.reqs[x].kind) && Is(Completed(s, x), CompletedView(v, x))
  {
  }

  /** The request that the completion of x lets go on. */
  function Released(v: View, x: nat): (y: Option<nat>)
    requires x in v.reqs && AtHead(v, x)
  {
    var w, b := CompletedView(v, x), v.reqs[x].buf;
    if b.Some? && w.chains[b.value] != [] && w.chains[b.value][0] in w.reqs &&
       w.reqs[w.chains[b.value][0]].loc.BlockedByBuf?
    then Some(w.chains[b.value][0]) else None
  }

  function Finished(v: View, x: nat): (w: View)
    requires x in v.reqs && AtHead(v, x)
  {
    var y := Released(v, x);
    if y.Some? then Lined(SettledView(CompletedView(v, x), y.value), y.value) else CompletedView(v, x)
  }

  lemma FinishShows(dev: Device, v: View, x: nat)
    requires Matches(dev, v) && Calm(v) && x in v.reqs && AtHead(v, x)
    ensures Calm(Finished(v, x)) && InRange(dev.s, dev.s.reqs[x].kind) && First(dev.s, x)
    ensures Matches(Queueing(dev, Retired(dev.s, x), Successor(dev.s, x)), Finished(v, x))
  {
    hide Moved, Completed, NextRow;
    CompleteShows(dev.s, v, x);
    var u, y := CompletedView(v, x), Released(v, x);
    if y.Some? {
      SettleShows(Completed(dev.s, x), u, y.value);
    }
  }

  // ---- the scan over the row-blocked queue ----

  function VisitedView(v: View, x: nat): (w: View) {
    if x in v.reqs && v.reqs[x].loc.BlockedByRow? then SettledView(v, x) else v
  }

  function ScannedView(v: View, queue: seq<nat>): (w: View) {
    if queue == [] then v else VisitedView(ScannedView(v, queue[..|queue|-1]), queue[|queue|-1])
  }

  ghost function SweptView(v: View): (w: View) {
    var w := ScannedView(v, v.rowQ);
    w.(rowQ := Blocked(w.reqs, v.rowQ))
  }

  lemma VisitShows(s: State, v: View, x: nat)
    requires Is(s, v) && Calm(v)
    ensures Is(Visited(s, x), VisitedView(v, x)) && Calm(VisitedView(v, x)) && VisitedView(v, x).rowQ == v.rowQ
  {
    hide Moved, NextRow;
    if x in v.reqs && v.reqs[x].loc.BlockedByRow? {
      SettleShows(s, v, x);
    }
  }

  lemma {:induction false} ScanShows(s: State, v: View, queue: seq<nat>)
    requires Is(s, v) && Calm(v)
    ensures var w := ScannedView(v, queue); Is(Scanned(s, queue), w) && Calm(w) && w.rowQ == v.rowQ
    decreases |queue|
  {
    hide Is, Visited, VisitedView, Calm;
    if queue != [] {
      ScanShows(s, v, queue[..|queue|-1]);
      VisitShows(Scanned(s, queue[..|queue|-1]), ScannedView(v, queue[..|queue|-1]), queue[|queue|-1]);
    }
  }

  lemma SweepShows(dev: Device, v: View)
    requires Matches(dev, v) && Calm(v)
    ensures Matches(Swept(dev, 0), SweptView(v)) && Calm(SweptView(v))
  {
    hide Scanned, ScannedView, Blocked;
    ScanShows(dev.s, v, v.rowQ);
  }

  /** A scan that finds nothing to release changes nothing. */
  lemma {:induction false} NothingPasses(v: View, queue: seq<nat>)
    requires forall i :: 0 <= i < |queue| ==>
               queue[i] in v.reqs && v.reqs[queue[i]].loc.BlockedByRow? && Nand(v.reqs[queue[i]].kind) &&
               !v.reqs[queue[i]].kind.Read? && !PassesNow(v.row, v.reqs[queue[i]].kind)
    ensures ScannedView(v, queue) == v && Blocked(v.reqs, queue) == queue
    decreases |queue|
  {
    if queue != [] {
      var x := queue[|queue|-1];
      NothingPasses(v, queue[..|queue|-1]);
      assert v.reqs[x := v.reqs[x]] == v.reqs;
      assert queue[..|queue|-1] + [x] == queue;
    }
  }

  // ---- host DMAs and NAND operations complete ----

  lemma HostDone(c: Care, pages: nat, v: View, x: nat)
    requires Shown(c, pages, v) && x in v.reqs && v.reqs[x].kind.Dma? && v.reqs[x].loc.Active? && AtHead(v, x)
    ensures Shown(c, pages, Finished(v, x))
  {
    hide Reached, Finished, Retired;
    var dev :| Reached(c, pages, dev) && Matches(dev, v);
    FinishShows(dev, v, x);
    Onward(c, pages, dev, Plain(Finish(x)));
  }

  ghost function NandFinished(v: View, x: nat): (w: View)
    requires x in v.reqs && AtHead(v, x)
  {
    var w := Finished(v, x);
    if w.nand == [] then SweptView(w) else w
  }

  lemma FlashDone(c: Care, pages: nat, v: View, x: nat)
    requires Shown(c, pages, v) && x in v.reqs && Nand(v.reqs[x].kind) && v.reqs[x].loc.Active? && AtHead(v, x)
    requires v.nand != [] && v.nand[0] == x
    ensures Shown(c, pages, NandFinished(v, x))
  {
    hide Reached, Finished, Retired, Swept, SweptView;
    var dev :| Reached(c, pages, dev) && Matches(dev, v);
    FinishShows(dev, v, x);
    var r := Queueing(dev, Retired(dev.s, x), Successor(dev.s, x));
    assert r.die[0] == 0 && r.s.nand[0] == Finished(v, x).nand;
    SweepShows(r, Finished(v, x));
    Onward(c, pages, dev, NandDone(x));
  }

  /** A device with one block, one die and four buffer entries. */
  function Start(): (dev: Device) {
    Device(Bare(4, 1, 0), [0], [[]])
  }

  function StartView(): (v: View) {
    View(map[], [[], [], [], []], Row(0, 0, false), Gen([], None, []), [], [], 0, [])
  }

  lemma Starts(c: Care, pages: nat)
    ensures Shown(c, pages, StartView())
  {
    hide Reached;
    AtStart(c, pages, Start());
    assert Matches(Start(), StartView());
  }

  /** The most pages for which the slots of the request pool suffice for these runs. */
  const MOST_PAGES: nat := 0xfffa

  // ---- a block programmed again before all programs before its last erase are admitted ----

  /** A host DMA (0) is using buffer 0, and programs 1 to i of pages 0 to i - 1 wait behind it. */
  ghost predicate Piled(v: View, i: nat) {
    && |v.chains| == 4 && |v.chains[0]| > i && v.chains[0][0] == 0 && (i >= 1 ==> v.chains[0][1] == 1)
    && 0 in v.reqs && v.reqs[0] == Req(0, Dma, Some(0), Active)
    && forall x :: 1 <= x <= i ==> x in v.reqs && v.reqs[x] == Req(x, Write(0, x - 1), Some(0), BlockedByBuf)
  }

  ghost predicate Piling(v: View, i: nat) {
    && Piled(v, i) && v.clock == i + 1 == |v.reqs| && (forall x :: x in v.reqs ==> x <= i)
    && |v.chains[0]| == i + 1 && v.chains[1] == [] && v.row == Row(0, 0, false)
    && |v.gen.current| == i && v.gen.erase.None? && v.nand == [] && v.rowQ == [] && v.done == []
  }

  lemma {:induction false} Pile(c: Care, n: nat, i: nat) returns (v: View)
    requires i <= n <= MOST_PAGES
    ensures Shown(c, n, v) && Piling(v, i)
  {
    hide Shown;
    if i == 0 {
      Starts(c, n);
      v := StartView();
      Enter(c, n, v, Dma, Some(0));
      v := Entered(v, Dma, Some(0));
      assert v.reqs == map[0 := Req(0, Dma, Some(0), Active)];
    } else {
      v := Pile(c, n, i - 1);
      Enter(c, n, v, Write(0, i - 1), Some(0));
      v := Entered(v, Write(0, i - 1), Some(0));
    }
  }

  /** A read of page 0 (n + 1) waits behind the programs, and an erase (n + 2) for them and the read. */
  ghost predicate Crowded(v: View, n: nat) {
    && Piled(v, n) && v.clock == n + 3 == |v.reqs| && (forall x :: x in v.reqs ==> x <= n + 2)
    && n + 1 in v.reqs && v.reqs[n + 1] == Req(n + 1, Read(0, 0), Some(0), BlockedByBuf)
    && n + 2 in v.reqs && v.reqs[n + 2] == Req(n + 2, Erase(0, n), None, BlockedByRow)
    && v.rowQ == [n + 2] && v.nand == [] && v.gen.current == []
  }

  lemma Crowd(c: Care, n: nat) returns (v: View)
    requires 1 <= n <= MOST_PAGES
    ensures Shown(c, n, v) && Crowded(v, n) && v.chains[1] == [] && v.row == Row(0, 1, true) && v.done == []
  {
    hide Shown;
    v := Pile(c, n, n);
    Enter(c, n, v, Read(0, 0), Some(0));
    v := Entered(v, Read(0, 0), Some(0));
    Enter(c, n, v, Erase(0, n), None);
    v := Entered(v, Erase(0, n), None);
  }

  /** The next program of page 0, from another buffer, is taken for the first. */
  lemma Overtaking(c: Care, n: nat) returns (v: View)
    requires 1 <= n <= MOST_PAGES && !c.lastFilled
    ensures Shown(c, n, v) && v.clock == n + 4 && Crowded(v.(clock := n + 3, gen := Gen([], None, [])), n)
    ensures v.row == Row(1, 1, true) && v.done == [Req(n + 3, Write(0, 0), Some(1), Active)]
  {
    hide Shown;
    v := Crowd(c, n);
    Enter(c, n, v, Write(0, 0), Some(1));
    v := Entered(v, Write(0, 0), Some(1));
    FlashDone(c, n, v, n + 3);
    var w := Finished(v, n + 3);
    NothingPasses(w, w.rowQ);
    v := NandFinished(v, n + 3);
  }

  /** When the DMA is done too, programs, read and erase wait for each other. */
  ghost predicate Circling(v: View, n: nat) {
    && (forall x :: x in v.reqs ==> 1 <= x <= n + 2) && 1 in v.reqs
    && v.reqs[1] == Req(1, Write(0, 0), Some(0), BlockedByRow)
    && (forall x :: 2 <= x <= n + 1 ==> x in v.reqs && v.reqs[x].loc.BlockedByBuf?)
    && n + 2 in v.reqs && v.reqs[n + 2] == Req(n + 2, Erase(0, n), None, BlockedByRow)
    && v.row == Row(1, 1, true) && |v.done| == 2 && v.done[0] == Req(n + 3, Write(0, 0), Some(1), Active)
  }

  lemma Circle(c: Care, n: nat) returns (v: View)
    requires 1 <= n <= MOST_PAGES && !c.lastFilled
    ensures Shown(c, n, v) && Circling(v, n)
  {
    hide Shown;
    v := Overtaking(c, n);
    HostDone(c, n, v, 0);
    v := Finished(v, 0);
  }

  // ---- a block erased again before its last erase is admitted ----

  /** Nothing is live and i pages of the block are programmed. */
  ghost predicate Full(v: View, i: nat) {
    && v.reqs == map[] && v.clock == i && v.chains == [[], [], [], []] && v.row == Row(i, 0, false)
    && |v.gen.current| == i && v.gen.erase.None? && v.nand == [] && v.rowQ == []
  }

  lemma {:induction false} Fill(c: Care, n: nat, i: nat) returns (v: View)
    requires i <= n
    ensures Shown(c, n, v) && Full(v, i)
  {
    hide Shown;
    if i == 0 {
      Starts(c, n);
      v := StartView();
    } else {
      v := Fill(c, n, i - 1);
      Enter(c, n, v, Write(0, i - 1), Some(0));
      v := Entered(v, Write(0, i - 1), Some(0));
      FlashDone(c, n, v, i - 1);
      var w := Finished(v, i - 1);
      NothingPasses(w, w.rowQ);
      v := NandFinished(v, i - 1);
    }
  }

  /** A host DMA (n) is using buffer 0, a read (n + 1) waits behind it and an erase (n + 2) for the read. */
  ghost predicate Reading(v: View, n: nat) {
    && |v.chains| == 4 && v.chains[0] == [n, n + 1]
    && n in v.reqs && v.reqs[n] == Req(n, Dma, Some(0), Active)
    && n + 1 in v.reqs && v.reqs[n + 1] == Req(n + 1, Read(0, 0), Some(0), BlockedByBuf)
    && n + 2 in v.reqs && v.reqs[n + 2] == Req(n + 2, Erase(0, n), None, BlockedByRow)
    && v.row == Row(n, 1, true) && v.nand == [] && v.gen.erase.Some?
  }

  lemma ReadBehind(c: Care, n: nat) returns (v: View)
    requires 1 <= n <= MOST_PAGES
    ensures Shown(c, n, v) && v.clock == n + 2 && |v.chains| == 4 && v.chains[0] == [n, n + 1]
    ensures v.reqs == map[n := Req(n, Dma, Some(0), Active), n + 1 := Req(n + 1, Read(0, 0), Some(0), BlockedByBuf)]
    ensures v.chains[1..] == [[], [], []] && v.row == Row(n, 1, false) && v.nand == [] && v.rowQ == []
    ensures |v.gen.current| == n && v.gen.erase.None?
  {
    hide Shown;
    v := Fill(c, n, n);
    Enter(c, n, v, Dma, Some(0));
    v := Entered(v, Dma, Some(0));
    Enter(c, n, v, Read(0, 0), Some(0));
    v := Entered(v, Read(0, 0), Some(0));
  }

  lemma ReadWaits(c: Care, n: nat) returns (v: View)
    requires 1 <= n <= MOST_PAGES
    ensures Shown(c, n, v) && Reading(v, n) && v.clock == n + 3 && v.reqs.Keys == {n, n + 1, n + 2} && v.rowQ == [n + 2]
    ensures v.chains[1..] == [[], [], []] && v.gen.current == []
  {
    hide Shown;
    v := ReadBehind(c, n);
    Enter(c, n, v, Erase(0, n), None);
    v := Entered(v, Erase(0, n), None);
  }

  /** Programs of the next generation, pages i on, wait behind a host DMA or each other at buffer 1. */
  ghost predicate Line(v: View, n: nat, from: nat, to: nat) {
    && n + 4 <= from
    && forall x :: from <= x < to ==> x in v.reqs && v.reqs[x] == Req(x, Write(0, x - n - 4), Some(1), BlockedByBuf)
  }

  ghost predicate Chain(v: View, from: nat, to: nat) {
    && |v.chains| == 4 && from <= to && |v.chains[1]| == to - from && v.chains[2] == v.chains[3] == []
    && forall j :: 0 <= j < to - from ==> v.chains[1][j] == from + j
  }

  ghost predicate Refilling(v: View, n: nat, i: nat) {
    && Reading(v, n) && v.clock == n + 4 + i && |v.reqs| == 4 + i && (forall x :: x in v.reqs ==> n <= x < n + 4 + i)
    && n + 3 in v.reqs && v.reqs[n + 3] == Req(n + 3, Dma, Some(1), Active)
    && Line(v, n, n + 4, n + 4 + i) && Chain(v, n + 3, n + 4 + i) && |v.gen.current| == i && v.rowQ == [n + 2]
  }

  lemma RefillStarts(c: Care, n: nat) returns (v: View)
    requires 1 <= n <= MOST_PAGES
    ensures Shown(c, n, v) && Refilling(v, n, 0)
  {
    hide Shown;
    v := ReadWaits(c, n);
    Enter(c, n, v, Dma, Some(1));
    v := Entered(v, Dma, Some(1));
  }

  lemma {:induction false} Refill(c: Care, n: nat, i: nat) returns (v: View)
    requires 1 <= n <= MOST_PAGES && i <= n
    ensures Shown(c, n, v) && Refilling(v, n, i)
  {
    hide Shown;
    if i == 0 {
      v := RefillStarts(c, n);
    } else {
      v := Refill(c, n, i - 1);
      Enter(c, n, v, Write(0, i - 1), Some(1));
      v := Entered(v, Write(0, i - 1), Some(1));
    }
  }

  /** The block is to be erased again (2 * n + 4). */
  ghost predicate Twice(v: View, n: nat) {
    && v.clock == 2 * n + 5 && |v.reqs| <= n + 5 && (forall x :: x in v.reqs ==> n <= x <= 2 * n + 4)
    && n + 3 in v.reqs && v.reqs[n + 3] == Req(n + 3, Dma, Some(1), Active)
    && Line(v, n, n + 4, 2 * n + 4) && Chain(v, n + 3, 2 * n + 4) && v.gen.current == []
    && 2 * n + 4 in v.reqs && v.reqs[2 * n + 4] == Req(2 * n + 4, Erase(0, n), None, BlockedByRow)
  }

  lemma EraseTwice(c: Care, n: nat) returns (v: View)
    requires 1 <= n <= MOST_PAGES && !c.lastErased
    ensures Shown(c, n, v) && Reading(v, n) && Twice(v, n) && v.rowQ == [n + 2, 2 * n + 4]
  {
    hide Shown;
    v := Refill(c, n, n);
    Enter(c, n, v, Erase(0, n), None);
    v := Entered(v, Erase(0, n), None);
  }

  /** The first DMA completes, and the read is admitted. */
  lemma Sensing(c: Care, n: nat) returns (v: View)
    requires 1 <= n <= MOST_PAGES && !c.lastErased
    ensures Shown(c, n, v) && Twice(v, n) && v.rowQ == [n + 2, 2 * n + 4] && v.row == Row(n, 0, true)
    ensures v.chains[0] == [n + 1] && v.nand == [n + 1] && n !in v.reqs && |v.reqs| <= n + 4
    ensures n + 1 in v.reqs && v.reqs[n + 1] == Req(n + 1, Read(0, 0), Some(0), Active)
    ensures n + 2 in v.reqs && v.reqs[n + 2] == Req(n + 2, Erase(0, n), None, BlockedByRow)
  {
    hide Shown;
    v := EraseTwice(c, n);
    HostDone(c, n, v, n);
    v := Finished(v, n);
  }

  /** A scan of two requests of which the first passes and the second does not. */
  lemma FirstPasses(v: View, x: nat, y: nat)
    requires v.rowQ == [x, y] && x != y && x in v.reqs && y in v.reqs
    requires v.reqs[x].loc.BlockedByRow? && v.reqs[y].loc.BlockedByRow? && PassesNow(v.row, v.reqs[x].kind)
    requires v.reqs[y].kind.Erase? && !PassesNow(SettledView(v, x).row, v.reqs[y].kind)
    ensures SweptView(v) == SettledView(v, x).(rowQ := [y])
  {
    hide NextRow, PassesNow;
    var w := SettledView(v, x);
    assert [x, y][..1] == [x] && [x][..0] == [];
    assert ScannedView(v, []) == v && ScannedView(v, [x]) == w;
    NothingPasses(w, [y]);
    assert [y][..0] == [] && ScannedView(w, []) == w;
    assert ScannedView(v, [x, y]) == w;
    assert Blocked(w.reqs, []) == [] && Blocked(w.reqs, [x]) == [] && Blocked(w.reqs, [x, y]) == [y];
  }

  /** When the read completes the scan admits the first erase: nothing tells that the second is pending. */
  lemma Unflag(c: Care, n: nat) returns (v: View)
    requires 1 <= n <= MOST_PAGES && !c.lastErased
    ensures Shown(c, n, v) && Twice(v, n) && v.rowQ == [2 * n + 4] && v.row == Row(0, 0, false)
    ensures v.nand == [n + 2] && (forall x :: x in v.reqs ==> n + 2 <= x) && |v.reqs| <= n + 3
    ensures n + 2 in v.reqs && v.reqs[n + 2] == Req(n + 2, Erase(0, n), None, Active)
  {
    hide Shown, SweptView;
    v := Sensing(c, n);
    FlashDone(c, n, v, n + 1);
    var w := Finished(v, n + 1);
    FirstPasses(w, n + 2, 2 * n + 4);
    v := NandFinished(v, n + 1);
  }

  /** Since the first erase completed, pages 0 to i - 1 have been programmed from buffer 1, page i is being
      programmed and the others wait behind it. */
  ghost predicate Flowing(v: View, n: nat, i: nat, base: nat) {
    && v.clock == 2 * n + 5 && |v.reqs| <= n + 1 && (forall x :: x in v.reqs ==> n + 4 + i <= x <= 2 * n + 4)
    && i < n && n + 4 + i in v.reqs && v.reqs[n + 4 + i] == Req(n + 4 + i, Write(0, i), Some(1), Active)
    && Line(v, n, n + 5 + i, 2 * n + 4) && Chain(v, n + 4 + i, 2 * n + 4) && v.gen.current == []
    && 2 * n + 4 in v.reqs && v.reqs[2 * n + 4] == Req(2 * n + 4, Erase(0, n), None, BlockedByRow)
    && v.row == Row(i + 1, 0, false) && v.nand == [n + 4 + i] && v.rowQ == [2 * n + 4]
    && Programs(v.done, n, base, i)
  }

  /** From the given place on, what has completed are the programs of pages 0 to i - 1 from buffer 1. */
  ghost predicate Programs(done: seq<Req>, n: nat, base: nat, i: nat) {
    && |done| == base + i
    && forall j :: 0 <= j < i ==> done[base + j] == Req(n + 4 + j, Write(0, j), Some(1), Active)
  }

  /** The second DMA completes, and the first of the waiting programs is admitted behind the erase. */
  lemma Admitted(c: Care, n: nat) returns (v: View)
    requires 1 <= n <= MOST_PAGES && !c.lastErased
    ensures Shown(c, n, v) && v.nand == [n + 2, n + 4]
    ensures n + 2 in v.reqs && v.reqs[n + 2] == Req(n + 2, Erase(0, n), None, Active)
    ensures n + 3 !in v.reqs && (forall x :: x in v.reqs ==> n + 2 <= x) && |v.reqs| <= n + 2
    ensures Flowing(v.(reqs := v.reqs - {n + 2}, nand := [n + 4]), n, 0, |v.done|)
  {
    hide Shown, SweptView;
    v := Unflag(c, n);
    HostDone(c, n, v, n + 3);
    v := Finished(v, n + 3);
  }

  lemma FlowStarts(c: Care, n: nat) returns (v: View)
    requires 1 <= n <= MOST_PAGES && !c.lastErased
    ensures Shown(c, n, v) && Flowing(v, n, 0, |v.done|)
  {
    hide Shown, SweptView;
    v := Admitted(c, n);
    FlashDone(c, n, v, n + 2);
    v := NandFinished(v, n + 2);
  }

  /** A program, alone in the NAND queue, completes and lets the next program at its buffer go on. */
  lemma HandsOn(v: View, x: nat, y: nat, k: nat)
    requires x in v.reqs && y in v.reqs && x != y && v.reqs[x].buf == Some(k) && k < |v.chains|
    requires v.reqs[x].kind.Write? && v.reqs[y].kind.Write? && v.reqs[y].loc.BlockedByBuf? && v.nand == [x]
    requires |v.chains[k]| > 1 && v.chains[k][0] == x && v.chains[k][1] == y
    requires v.reqs[y].kind.page == v.row.permittedProgPage
    ensures NandFinished(v, x) ==
            v.(reqs := (v.reqs - {x})[y := v.reqs[y].(loc := Active)], chains := v.chains[k := v.chains[k][1..]],
               row := v.row.(permittedProgPage := v.row.permittedProgPage + 1), nand := [y],
               done := v.done + [v.reqs[x]])
  {
  }

  /** Each program that completes lets the next one go on. */
  lemma FlowsOn(v: View, n: nat, i: nat, base: nat)
    requires Flowing(v, n, i, base) && i + 1 < n
    ensures var x := n + 4 + i;
            && x in v.reqs && Nand(v.reqs[x].kind) && v.reqs[x].loc.Active? && AtHead(v, x)
            && v.nand != [] && v.nand[0] == x
            && Flowing(NandFinished(v, x), n, i + 1, base)
  {
    assert v.chains[1][0] == n + 4 + i && v.chains[1][1] == n + 5 + i;
    HandsOn(v, n + 4 + i, n + 5 + i, 1);
    hide NandFinished;
  }

  lemma {:induction false} Flow(c: Care, n: nat, i: nat) returns (v: View, base: nat)
    requires 1 <= n <= MOST_PAGES && !c.lastErased && i < n
    ensures Shown(c, n, v) && Flowing(v, n, i, base)
  {
    hide Shown, Flowing, NandFinished;
    if i == 0 {
      v := FlowStarts(c, n);
      base := |v.done|;
    } else {
      v, base := Flow(c, n, i - 1);
      FlowsOn(v, n, i - 1, base);
      FlashDone(c, n, v, n + 3 + i);
      v := NandFinished(v, n + 3 + i);
    }
  }

  /** The last page of the generation is being programmed; then a program of page 0 (2 * n + 5) is submitted. */
  ghost predicate Awaited(v: View, n: nat, base: nat) {
    && 1 <= n && v.clock == 2 * n + 6 && |v.reqs| <= n + 2 && |v.chains| == 4 && v.chains[1] == [2 * n + 3]
    && v.chains[2] == [2 * n + 5] && v.chains[3] == [] && |v.gen.current| == 1
    && (forall x :: x in v.reqs ==> 2 * n + 3 <= x <= 2 * n + 5)
    && 2 * n + 3 in v.reqs && v.reqs[2 * n + 3] == Req(2 * n + 3, Write(0, n - 1), Some(1), Active)
    && 2 * n + 4 in v.reqs && v.reqs[2 * n + 4] == Req(2 * n + 4, Erase(0, n), None, BlockedByRow)
    && 2 * n + 5 in v.reqs && v.reqs[2 * n + 5] == Req(2 * n + 5, Write(0, 0), Some(2), BlockedByRow)
    && v.row == Row(n, 0, false) && v.nand == [2 * n + 3] && v.rowQ == [2 * n + 4, 2 * n + 5]
    && Programs(v.done, n, base, n - 1)
  }

  lemma AllIn(v: View, n: nat, base: nat)
    requires 1 <= n <= MOST_PAGES && Flowing(v, n, n - 1, base)
    ensures v.clock == 2 * n + 5 && |v.reqs| <= n + 1 && |v.chains| == 4 && v.chains[1] == [2 * n + 3]
    ensures v.chains[2] == v.chains[3] == [] && v.gen.current == [] && v.row == Row(n, 0, false)
    ensures v.nand == [2 * n + 3] && v.rowQ == [2 * n + 4] && Programs(v.done, n, base, n - 1)
    ensures v.reqs == map[2 * n + 3 := Req(2 * n + 3, Write(0, n - 1), Some(1), Active),
                          2 * n + 4 := Req(2 * n + 4, Erase(0, n), None, BlockedByRow)]
  {
  }

  lemma Await(c: Care, n: nat) returns (v: View, base: nat)
    requires 1 <= n <= MOST_PAGES && !c.lastErased
    ensures Shown(c, n, v) && Awaited(v, n, base)
  {
    hide Shown, Flowing, Programs;
    v, base := Flow(c, n, n - 1);
    AllIn(v, n, base);
    Enter(c, n, v, Write(0, 0), Some(2));
    v := Entered(v, Write(0, 0), Some(2));
  }

  /** A read behind that program is counted: erase, program and read wait for each other. */
  ghost predicate CirclingAgain(v: View, n: nat) {
    && 2 * n + 4 in v.reqs && v.reqs[2 * n + 4] == Req(2 * n + 4, Erase(0, n), None, BlockedByRow)
    && 2 * n + 5 in v.reqs && v.reqs[2 * n + 5] == Req(2 * n + 5, Write(0, 0), Some(2), BlockedByRow)
    && 2 * n + 6 in v.reqs && v.reqs[2 * n + 6] == Req(2 * n + 6, Read(0, 0), Some(2), BlockedByBuf)
    && v.row == Row(n, 1, false)
  }

  lemma ReadCounts(c: Care, n: nat) returns (v: View)
    requires 1 <= n <= MOST_PAGES && !c.lastErased
    ensures Shown(c, n, v) && CirclingAgain(v, n) && (forall x :: x in v.reqs ==> 2 * n + 3 <= x <= 2 * n + 6)
    ensures 2 * n + 3 in v.reqs && v.reqs[2 * n + 3] == Req(2 * n + 3, Write(0, n - 1), Some(1), Active)
    ensures |v.chains| == 4 && v.chains[1] == v.nand == [2 * n + 3] && v.rowQ == [2 * n + 4, 2 * n + 5]
  {
    hide Shown;
    var base;
    v, base := Await(c, n);
    Enter(c, n, v, Read(0, 0), Some(2));
    v := Entered(v, Read(0, 0), Some(2));
  }

  lemma CircleAgain(c: Care, n: nat) returns (v: View)
    requires 1 <= n <= MOST_PAGES && !c.lastErased
    ensures Shown(c, n, v) && CirclingAgain(v, n) && (forall x :: x in v.reqs ==> 2 * n + 4 <= x <= 2 * n + 6)
  {
    hide Shown;
    v := ReadCounts(c, n);
    FlashDone(c, n, v, 2 * n + 3);
    var w := Finished(v, 2 * n + 3);
    NothingPasses(w, w.rowQ);
    v := NandFinished(v, 2 * n + 3);
  }

  /** A read from another buffer passes at once. */
  lemma Passing(c: Care, n: nat) returns (v: View, base: nat)
    requires 1 <= n <= MOST_PAGES && !c.lastErased
    ensures Shown(c, n, v) && |v.chains| == 4 && v.chains[3] == [2 * n + 6]
    ensures 2 * n + 5 in v.reqs && v.reqs[2 * n + 5] == Req(2 * n + 5, Write(0, 0), Some(2), BlockedByRow)
    ensures 2 * n + 6 in v.reqs && v.reqs[2 * n + 6] == Req(2 * n + 6, Read(0, 0), Some(3), Active)
    ensures v.nand == [2 * n + 6] && Programs(v.done, n, base, n)
  {
    hide Shown, SweptView;
    v, base := Await(c, n);
    Enter(c, n, v, Read(0, 0), Some(3));
    v := Entered(v, Read(0, 0), Some(3));
    FlashDone(c, n, v, 2 * n + 3);
    v := NandFinished(v, 2 * n + 3);
  }

  /** It completes before the program of its page submitted before it. */
  lemma Passed(c: Care, n: nat) returns (v: View, base: nat)
    requires 1 <= n <= MOST_PAGES && !c.lastErased
    ensures Shown(c, n, v) && |v.done| == base + n + 1 && Programs(v.done[..base + n], n, base, n)
    ensures v.done[base + n] == Req(2 * n + 6, Read(0, 0), Some(3), Active)
    ensures 2 * n + 5 in v.reqs && v.reqs[2 * n + 5] == Req(2 * n + 5, Write(0, 0), Some(2), v.reqs[2 * n + 5].loc)
  {
    hide Shown;
    v, base := Passing(c, n);
    FlashDone(c, n, v, 2 * n + 6);
    ScanMoves(Finished(v, 2 * n + 6), Finished(v, 2 * n + 6).rowQ);
    v := NandFinished(v, 2 * n + 6);
  }

  lemma {:induction false} ScanMoves(v: View, queue: seq<nat>)
    ensures var w := ScannedView(v, queue);
            && w.reqs.Keys == v.reqs.Keys && w.done == v.done
            && forall x :: x in v.reqs ==> w.reqs[x] == v.reqs[x].(loc := w.reqs[x].loc)
    decreases |queue|
  {
    hide NextRow, PassesNow;
    if queue != [] {
      ScanMoves(v, queue[..|queue|-1]);
    }
  }

  // ---- the two conditions are exactly what is needed ----

  lemma Stuck(t: State, v: View, x: nat)
    requires Is(t, v) && x in v.reqs
    requires forall y :: y in v.reqs ==>
               && Local(v.reqs[y].kind)
               && (v.reqs[y].loc.BlockedByBuf? || (v.reqs[y].loc.BlockedByRow? && !PassesNow(v.row, v.reqs[y].kind)))
    ensures Deadlocked(t)
  {
  }

  /** Without either condition requests can come to wait in a circle. */
  lemma CanDeadlock(c: Care, pages: nat) returns (t: Device)
    requires c != BOTH && 1 <= pages <= MOST_PAGES
    ensures Reached(c, pages, t) && Deadlocked(t.s)
  {
    hide Is, Deadlocked, Reached;
    var v;
    if !c.lastFilled {
      v := Circle(c, pages);
      t :| Reached(c, pages, t) && Matches(t, v);
      Stuck(t.s, v, 1);
    } else {
      v := CircleAgain(c, pages);
      t :| Reached(c, pages, t) && Matches(t, v);
      Stuck(t.s, v, 2 * pages + 4);
    }
  }

  /** And conflicting requests can complete out of order. */
  lemma CanOvertake(c: Care, pages: nat) returns (t: Device)
    requires c != BOTH && 1 <= pages <= MOST_PAGES
    ensures Reached(c, pages, t) && OutOfOrder(t.s)
  {
    hide Reached;
    var v;
    if !c.lastFilled {
      v := Circle(c, pages);
      t :| Reached(c, pages, t) && Matches(t, v);
      assert Conflict(t.s.done[0], t.s.reqs[1]);
    } else {
      var base;
      v, base := Passed(c, pages);
      t :| Reached(c, pages, t) && Matches(t, v);
      assert Conflict(t.s.done[base + pages], t.s.reqs[2 * pages + 5]);
    }
  }

  /** No run deadlocks if and only if both conditions are met. */
  lemma DeadlockFreeExactly(c: Care, pages: nat)
    requires 1 <= pages <= MOST_PAGES
    ensures (forall t :: Reached(c, pages, t) ==> !Deadlocked(t.s)) <==> c == BOTH
  {
    hide Reached, Deadlocked;
    if c == BOTH {
      forall t | Reached(c, pages, t) ensures !Deadlocked(t.s) {
        NeverDeadlocks(pages, t);
      }
    } else {
      var t := CanDeadlock(c, pages);
    }
  }

  lemma NeverDeadlocks(pages: nat, t: Device)
    requires Reached(BOTH, pages, t)
    ensures !Deadlocked(t.s)
  {
    hide Ok, Run, Enabled, InSeries, Reached, Blank;
    var states, events := ReachedByRun(BOTH, pages, t);
    EmptyOk(states[0], pages);
    EveryRun(states, events, pages, |events|);
  }

  /** Conflicting requests complete in submission order in all runs if and only if both conditions are met. */
  lemma InOrderExactly(c: Care, pages: nat)
    requires 1 <= pages <= MOST_PAGES
    ensures (forall t :: Reached(c, pages, t) ==> !OutOfOrder(t.s)) <==> c == BOTH
  {
    hide Reached, OutOfOrder;
    if c == BOTH {
      forall t | Reached(c, pages, t) ensures !OutOfOrder(t.s) {
        NeverOvertakes(pages, t);
      }
    } else {
      var t := CanOvertake(c, pages);
    }
  }

  lemma NeverOvertakes(pages: nat, t: Device)
    requires Reached(BOTH, pages, t)
    ensures !OutOfOrder(t.s)
  {
    hide Ok, Run, Enabled, Queued, Ordered, Conflict, Reached, Blank;
    var states, events := ReachedByRun(BOTH, pages, t);
    EmptyOk(states[0], pages);
    EveryRun(states, events, pages, |events|);
  }

  // ---- what the read that passed returns ----

  lemma PlayMore<D>(m: Mem<D>, rs: seq<Req>, i: nat, fill: (nat, D) -> D, blank: D)
    requires Total(m) && i < |rs|
    ensures Play(m, rs[..i + 1], fill, blank) == Effect(Play(m, rs[..i], fill, blank), rs[i], fill, blank)
  {
    assert rs[..i + 1][..i] == rs[..i];
  }

  /** Once page 0 has been programmed from buffer 1 it holds what the buffer holds, and the programs
      of the other pages leave both alone. */
  lemma {:induction false} HoldsBuffer<D>(m: Mem<D>, done: seq<Req>, n: nat, base: nat, i: nat,
                                          fill: (nat, D) -> D, blank: D)
    requires Total(m) && base + n <= |done| && Programs(done[..base + n], n, base, n) && 1 <= i <= n
    ensures var t := Play(m, done[..base + i], fill, blank); Total(t) && t.flash[(0, 0)] == t.bufs[1]
  {
    hide Play;
    if i > 1 {
      HoldsBuffer(m, done, n, base, i - 1, fill, blank);
    }
    var j := i - 1;
    PlayMore(m, done, base + j, fill, blank);
    assert done[base + j] == done[..base + n][base + j] == Req(n + 4 + j, Write(0, j), Some(1), Active);
  }

  /** A read behind a second erase returns what the program before that erase left, out of buffer 1, not
      what the program after it, submitted before the read, is to write out of buffer 2. */
  lemma StaleRead<D>(pages: nat, m: Mem<D>, fill: (nat, D) -> D, blank: D) returns (t: Device)
    requires 1 <= pages <= MOST_PAGES && Total(m)
    ensures Reached(Care(true, false), pages, t) && t.s.done != []
    ensures t.s.done[|t.s.done|-1] == Req(2 * pages + 6, Read(0, 0), Some(3), Active)
    ensures exists x :: x in t.s.reqs && t.s.reqs[x] == Req(2 * pages + 5, Write(0, 0), Some(2), t.s.reqs[x].loc)
    ensures var after := Play(m, t.s.done, fill, blank);
            1 in after.bufs && 3 in after.bufs && after.bufs[3] == after.bufs[1]
  {
    hide Reached, Play;
    var v, base := Passed(Care(true, false), pages);
    t :| Reached(Care(true, false), pages, t) && Matches(t, v);
    HoldsBuffer(m, t.s.done, pages, base, pages, fill, blank);
    PlayMore(m, t.s.done, base + pages, fill, blank);
    assert t.s.done[..base + pages + 1] == t.s.done;
  }
}
