/** The request dependency rules as values: live requests, the FIFO chain of every buffer
    entry, the row address table of every block, and the steps that move requests along. */
module Requests {
  import opened Basics
  import opened Sets

  /** In hand: attached to its buffer but not yet sorted into a queue. Active: handed to a NAND
      queue or issued to the host DMA engine. WaitingForRx: a transmission of a read-write
      command in the custom queue, not issued yet. */
  datatype Loc = InHand | BlockedByBuf | BlockedByRow | WaitingForRx | Active

  datatype Kind =
    | Dma
    | RxDma(cmd: nat)
    | TxDma(cmd: nat)
    | Read(block: nat, page: nat)
    | Write(block: nat, page: nat)
    | Erase(block: nat, programmedPageCnt: nat)

  /** num is the order of submission. */
  datatype Req = Req(num: nat, kind: Kind, buf: Option<nat>, loc: Loc)

  datatype Row = Row(permittedProgPage: nat, blockedReadReqCnt: nat, blockedEraseReqFlag: bool)

  /** An operation admitted to a NAND queue. */
  datatype Op = Programmed(page: nat) | Sensed(page: nat) | Wiped(programmedPageCnt: nat)

  /** The submission numbers of the programs of a block since its last submitted erase, that erase
      while it is not admitted, and the programs before it. */
  datatype Gen = Gen(current: seq<nat>, erase: Option<nat>, previous: seq<nat>)

  /** Besides the tables: the admitted requests of every block that are not completed, in the order
      of their NAND queue, what has been admitted, and the completed requests in order. */
  datatype State = State(reqs: map<nat, Req>, chains: seq<seq<nat>>, rows: seq<Row>, rxLeft: seq<nat>,
                         clock: nat, gens: seq<Gen>, logs: seq<seq<Op>>, nand: seq<seq<nat>>, done: seq<Req>)

  predicate Nand(k: Kind) {
    k.Read? || k.Write? || k.Erase?
  }

  predicate InRange(s: State, k: Kind) {
    && (Nand(k) ==> k.block < |s.rows| == |s.gens| == |s.logs| == |s.nand|)
    && (k.RxDma? || k.TxDma? ==> k.cmd < |s.rxLeft|)
  }

  /** Counted in blockedReadReqCnt. */
  predicate Counted(r: Req) {
    r.kind.Read? && (r.loc.BlockedByBuf? || r.loc.BlockedByRow?)
  }

  function Bit(b: bool): (n: nat) {
    if b then 1 else 0
  }

  // ---- the steps ----

  /** CheckRowAddrDep, and the test for issuing a transmission. */
  predicate Passes(s: State, k: Kind)
    requires InRange(s, k)
  {
    match k
    case Dma => true
    case RxDma(_) => true
    case TxDma(cmd) => s.rxLeft[cmd] == 0
    case Read(b, p) => p < s.rows[b].permittedProgPage
    case Write(b, p) => p == s.rows[b].permittedProgPage
    case Erase(b, n) => s.rows[b].permittedProgPage == n && s.rows[b].blockedReadReqCnt == 0
  }

  function NextLoc(k: Kind, pass: bool): (l: Loc) {
    if pass then Active else if k.TxDma? then WaitingForRx else BlockedByRow
  }

  /** The row table entry after request r moved to loc. */
  function NextRow(row: Row, r: Req, loc: Loc): (t: Row) {
    match r.kind
    case Read(_, _) =>
      if Counted(r.(loc := loc)) == Counted(r) then row
      else row.(blockedReadReqCnt := Halfword(row.blockedReadReqCnt + (if Counted(r) then -1 else 1)))
    case Write(_, _) => if loc.Active? then row.(permittedProgPage := row.permittedProgPage + 1) else row
    case Erase(_, _) =>
      if loc.Active? then row.(permittedProgPage := 0, blockedEraseReqFlag := false)
      else if r.loc.InHand? then row.(blockedEraseReqFlag := true)
      else row
    case _ => row
  }

  function OpOf(k: Kind): (o: Op)
    requires Nand(k)
  {
    match k
    case Read(_, p) => Sensed(p)
    case Write(_, p) => Programmed(p)
    case Erase(_, n) => Wiped(n)
  }

  /** Request x moved to loc, with everything that goes with it. */
  function Moved(s: State, x: nat, loc: Loc): (t: State)
    requires x in s.reqs && InRange(s, s.reqs[x].kind)
  {
    var r := s.reqs[x];
    var reqs := s.reqs[x := r.(loc := loc)];
    if !Nand(r.kind) then s.(reqs := reqs)
    else
      var b := r.kind.block;
      s.(reqs := reqs,
         rows := s.rows[b := NextRow(s.rows[b], r, loc)],
         logs := if loc.Active? then s.logs[b := s.logs[b] + [OpOf(r.kind)]] else s.logs,
         nand := if loc.Active? then s.nand[b := s.nand[b] + [x]] else s.nand,
         gens := if loc.Active? && r.kind.Erase? && s.gens[b].erase == Some(x)
           then s.gens[b := Gen(s.gens[b].current, None, [])]
                 else s.gens)
  }

  /** A request whose buffer is its own: admitted, or left waiting for its row or for a Rx. */
  function Settled(s: State, x: nat): (t: State)
    requires x in s.reqs && InRange(s, s.reqs[x].kind)
  {
    Moved(s, x, NextLoc(s.reqs[x].kind, Passes(s, s.reqs[x].kind)))
  }

  /** Request x has completed: off the front of its chain and gone. */
  function Completed(s: State, x: nat): (t: State)
    requires x in s.reqs && InRange(s, s.reqs[x].kind)
    requires s.reqs[x].buf.Some? ==> s.reqs[x].buf.value < |s.chains| && s.chains[s.reqs[x].buf.value] != []
  {
    var r := s.reqs[x];
    s.(reqs := s.reqs - {x}, done := s.done + [r],
       nand := if Nand(r.kind) && s.nand[r.kind.block] != []
         then s.nand[r.kind.block := s.nand[r.kind.block][1..]] else s.nand,
       chains := if r.buf.Some? then s.chains[r.buf.value := s.chains[r.buf.value][1..]] else s.chains,
       rxLeft := if r.kind.RxDma? then s.rxLeft[r.kind.cmd := Halfword(s.rxLeft[r.kind.cmd] as int - 1)] else s.rxLeft)
  }

  /** A new request x attached to its buffer. */
  function Submitted(s: State, x: nat, k: Kind, buf: Option<nat>): (t: State)
    requires InRange(s, k) && (buf.Some? ==> buf.value < |s.chains|)
  {
    s.(reqs := s.reqs[x := Req(s.clock, k, buf, InHand)], clock := s.clock + 1,
       chains := if buf.Some? then s.chains[buf.value := s.chains[buf.value] + [x]] else s.chains,
       rxLeft := if k.RxDma? then s.rxLeft[k.cmd := Halfword(s.rxLeft[k.cmd] + 1)] else s.rxLeft,
       gens := if k.Write? then s.gens[k.block := s.gens[k.block].(current := s.gens[k.block].current + [s.clock])]
               else if k.Erase? then s.gens[k.block := Gen([], Some(x), s.gens[k.block].current)] else s.gens)
  }

  // ---- the invariant ----

  /** Every live request on its chain once, in submission order; only the first of a chain is past
      the buffer check, and it never waits for it. The exempt request is about to be settled. */
  ghost predicate ChainOk(s: State, k: nat)
    requires k < |s.chains|
  {
    && (forall i :: 0 <= i < |s.chains[k]| ==> s.chains[k][i] in s.reqs && s.reqs[s.chains[k][i]].buf == Some(k))
    && (forall i, j :: 0 <= i < j < |s.chains[k]| ==> s.reqs[s.chains[k][i]].num < s.reqs[s.chains[k][j]].num)
  }

  ghost predicate Heads(s: State, x: nat, exempt: Option<nat>)
    requires x in s.reqs
  {
    var r := s.reqs[x];
    if r.buf.None? then !r.loc.BlockedByBuf?
    else
      && r.buf.value < |s.chains| && x in s.chains[r.buf.value]
      && (r.loc.Active? || r.loc.WaitingForRx? || r.loc.BlockedByRow? ==> s.chains[r.buf.value][0] == x)
      && (r.loc.BlockedByBuf? && exempt != Some(x) ==> s.chains[r.buf.value][0] != x)
  }

  ghost predicate ReqOk(s: State, x: nat)
    requires x in s.reqs
  {
    var r := s.reqs[x];
    && InRange(s, r.kind) && r.num < s.clock
    && (r.kind.Erase? ==> r.buf.None?)
    && (r.loc.BlockedByRow? ==> Nand(r.kind)) && (r.loc.WaitingForRx? ==> r.kind.TxDma?)
    && (r.loc.InHand? ==> r.num == s.clock - 1)
  }

  ghost predicate Distinct(s: State) {
    forall x, y :: x in s.reqs && y in s.reqs && s.reqs[x].num == s.reqs[y].num ==> x == y
  }

  /** The blocked reads of a block, and the receptions of a command that are not completed. */
  ghost function Reads(reqs: map<nat, Req>, b: nat): (r: set<nat>) {
    set x | x in reqs && Counted(reqs[x]) && reqs[x].kind.block == b
  }

  ghost function Rxs(reqs: map<nat, Req>, cmd: nat): (r: set<nat>) {
    set x | x in reqs && reqs[x].kind == RxDma(cmd)
  }

  ghost predicate CountsOk(s: State) {
    && (forall b :: 0 <= b < |s.rows| ==> s.rows[b].blockedReadReqCnt == |Reads(s.reqs, b)|)
    && (forall cmd :: 0 <= cmd < |s.rxLeft| ==> s.rxLeft[cmd] == |Rxs(s.reqs, cmd)|)
  }

  /** The receptions of a read-write command are submitted before its transmissions. */
  ghost predicate RxFirst(s: State) {
    forall x, y ::
      x in s.reqs && y in s.reqs && s.reqs[x].kind.RxDma? && s.reqs[y].kind == TxDma(s.reqs[x].kind.cmd) ==>
      s.reqs[x].num < s.reqs[y].num
  }

  ghost predicate Increasing(w: seq<nat>) {
    forall i, j :: 0 <= i < j < |w| ==> w[i] < w[j]
  }

  /** The program of page p of block b, submitted as number n, is live and not admitted. */
  ghost predicate Pending(s: State, b: nat, p: nat, n: nat) {
    exists x :: x in s.reqs && s.reqs[x].kind == Write(b, p) && s.reqs[x].num == n && !s.reqs[x].loc.Active?
  }

  /** Request x, not admitted, belongs to the generation of its block it was submitted to. */
  ghost predicate Placed(s: State, x: nat, b: nat)
    requires x in s.reqs && b < |s.gens| == |s.rows|
  {
    var r, g, permitted := s.reqs[x], s.gens[b], s.rows[b].permittedProgPage;
    var before := g.erase.Some? && g.erase.value in s.reqs && r.num < s.reqs[g.erase.value].num;
    match r.kind
    case Read(c, p) =>
      c == b && !r.loc.Active? ==>
        if before then p < |g.previous| && g.previous[p] < r.num
        else p < |g.current| && g.current[p] < r.num && (Counted(r) ==> g.erase.None?)
    case Write(c, p) =>
      c == b && !r.loc.Active? ==>
        if before then permitted <= p < |g.previous| && g.previous[p] == r.num
        else p < |g.current| && g.current[p] == r.num && (g.erase.None? ==> permitted <= p)
    case Erase(c, n) => c == b && !r.loc.Active? ==> g.erase == Some(x)
    case _ => true
  }

  /** The generations of a block. At most one erase is waiting; the programs before it come first,
      and no program after it is submitted until all of them are admitted. */
  ghost predicate GenShape(s: State, b: nat, pages: nat)
    requires b < |s.gens| == |s.rows|
  {
    var g, row := s.gens[b], s.rows[b];
    && Increasing(g.current) && Increasing(g.previous) && |g.current| <= pages
    && (forall p :: 0 <= p < |g.current| ==> g.current[p] < s.clock)
    && (match g.erase
        case None =>
          && !row.blockedEraseReqFlag && row.permittedProgPage <= |g.current|
          && (forall p :: row.permittedProgPage <= p < |g.current| ==> Pending(s, b, p, g.current[p]))
        case Some(e) =>
          && e in s.reqs && s.reqs[e].kind == Erase(b, pages) && !s.reqs[e].loc.Active? && |g.previous| == pages
          && row.blockedEraseReqFlag == !s.reqs[e].loc.InHand? && row.permittedProgPage <= pages
          && (g.current != [] ==> row.permittedProgPage == pages)
          && (forall p :: 0 <= p < pages ==> g.previous[p] < s.reqs[e].num)
          && (forall p :: 0 <= p < |g.current| ==> s.reqs[e].num < g.current[p])
          && (forall p :: row.permittedProgPage <= p < pages ==> Pending(s, b, p, g.previous[p]))
          && (forall p :: 0 <= p < |g.current| ==> Pending(s, b, p, g.current[p])))
  }

  ghost predicate GenOk(s: State, b: nat, pages: nat)
    requires b < |s.gens| == |s.rows|
  {
    GenShape(s, b, pages) && forall x :: x in s.reqs ==> Placed(s, x, b)
  }

  /** How many pages have been programmed since the last erase. */
  function Since(log: seq<Op>): (n: nat) {
    if log == [] then 0
    else match log[|log|-1]
      case Programmed(_) => Since(log[..|log|-1]) + 1
      case Sensed(_) => Since(log[..|log|-1])
      case Wiped(_) => 0
  }

  /** Pages programmed in order from 0, read only once programmed, and erased only when exactly
      as many have been programmed as the erase says; over and over. */
  ghost predicate Legal(log: seq<Op>) {
    log != [] ==>
      && Legal(log[..|log|-1])
      && match log[|log|-1]
         case Programmed(p) => p == Since(log[..|log|-1])
         case Sensed(p) => p < Since(log[..|log|-1])
         case Wiped(n) => n == Since(log[..|log|-1])
  }

  ghost predicate LogsOk(s: State) {
    && |s.logs| == |s.rows|
    && forall b :: 0 <= b < |s.logs| ==> Legal(s.logs[b]) && Since(s.logs[b]) == s.rows[b].permittedProgPage
  }

  ghost predicate Ok(s: State, pages: nat, exempt: Option<nat>) {
    && |s.gens| == |s.rows| == |s.logs| == |s.nand| && |s.reqs| < 0x1_0000 && Distinct(s) && CountsOk(s) &&
      RxFirst(s) && LogsOk(s)
    && (forall x :: x in s.reqs ==> ReqOk(s, x) && Heads(s, x, exempt))
    && (forall k :: 0 <= k < |s.chains| ==> ChainOk(s, k))
    && (forall b :: 0 <= b < |s.gens| ==> GenOk(s, b, pages))
  }

  // ---- moving a request along ----

  lemma ReadsMoved(reqs: map<nat, Req>, x: nat, loc: Loc, b: nat)
    requires x in reqs
    ensures var r := reqs[x].(loc := loc);
            |Reads(reqs[x := r], b)| == |Reads(reqs, b)|
              + (if r.kind.Read? && r.kind.block == b then Bit(Counted(r)) - Bit(Counted(reqs[x])) else 0)
  {
    var r := reqs[x].(loc := loc);
    ReadsSet(reqs, x, r, b);
  }

  lemma ReadsSet(reqs: map<nat, Req>, x: nat, r: Req, b: nat)
    ensures Reads(reqs[x := r], b) ==
            if Counted(r) && r.kind.block == b then Reads(reqs, b) + {x} else Reads(reqs, b) - {x}
    ensures x in Reads(reqs, b) <==> x in reqs && Counted(reqs[x]) && reqs[x].kind.block == b
  {
    var a, c := Reads(reqs[x := r], b), Reads(reqs, b);
    forall y ensures y in a <==> if y == x then Counted(r) && r.kind.block == b else y in c {
    }
  }

  lemma MovedCounts(s: State, x: nat, loc: Loc)
    requires x in s.reqs && InRange(s, s.reqs[x].kind) && CountsOk(s) && |s.reqs| < 0x1_0000
    ensures CountsOk(Moved(s, x, loc)) && |Moved(s, x, loc).reqs| == |s.reqs|
  {
    var t := Moved(s, x, loc);
    assert t.reqs.Keys == s.reqs.Keys;
    forall b | 0 <= b < |t.rows| ensures t.rows[b].blockedReadReqCnt == |Reads(t.reqs, b)| {
      ReadsMoved(s.reqs, x, loc, b);
      Within(Reads(t.reqs, b), t.reqs.Keys);
    }
    forall cmd | 0 <= cmd < |t.rxLeft| ensures t.rxLeft[cmd] == |Rxs(t.reqs, cmd)| {
      assert Rxs(t.reqs, cmd) == Rxs(s.reqs, cmd);
    }
  }

  lemma LogMore(log: seq<Op>, o: Op)
    ensures (log + [o])[..|log|] == log
  {
  }

  lemma SettledLogs(s: State, x: nat)
    requires x in s.reqs && InRange(s, s.reqs[x].kind) && LogsOk(s)
    ensures LogsOk(Settled(s, x))
  {
    var k := s.reqs[x].kind;
    if Nand(k) {
      LogMore(s.logs[k.block], OpOf(k));
    }
  }

  /** Where a request may be moved, given its place on its chain. */
  ghost predicate CanMove(s: State, x: nat, loc: Loc)
    requires x in s.reqs
  {
    var r := s.reqs[x];
    var first := r.buf.Some? ==>
      r.buf.value < |s.chains| && s.chains[r.buf.value] != [] && s.chains[r.buf.value][0] == x;
    match loc
    case InHand => false
    case BlockedByBuf => r.buf.Some? && !first
    case BlockedByRow => first && Nand(r.kind)
    case WaitingForRx => first && r.kind.TxDma?
    case Active => first
  }

  lemma MovedReq(s: State, x: nat, loc: Loc, exempt: Option<nat>, y: nat)
    requires x in s.reqs && InRange(s, s.reqs[x].kind) && CanMove(s, x, loc) && (exempt.None? || exempt == Some(x))
    requires y in s.reqs && ReqOk(s, y) && Heads(s, y, exempt)
    ensures ReqOk(Moved(s, x, loc), y) && Heads(Moved(s, x, loc), y, None)
  {
  }

  lemma MovedChain(s: State, x: nat, loc: Loc, k: nat)
    requires x in s.reqs && InRange(s, s.reqs[x].kind) && k < |s.chains| && ChainOk(s, k)
    ensures ChainOk(Moved(s, x, loc), k)
  {
    var t := Moved(s, x, loc);
    assert forall y :: y in s.reqs ==> t.reqs[y].num == s.reqs[y].num && t.reqs[y].buf == s.reqs[y].buf;
  }

  lemma MovedOrder(s: State, x: nat, loc: Loc)
    requires x in s.reqs && InRange(s, s.reqs[x].kind) && Distinct(s) && RxFirst(s)
    ensures Distinct(Moved(s, x, loc)) && RxFirst(Moved(s, x, loc))
  {
    var t := Moved(s, x, loc);
    assert t.reqs.Keys == s.reqs.Keys;
    assert forall y :: y in s.reqs ==> t.reqs[y].num == s.reqs[y].num && t.reqs[y].kind == s.reqs[y].kind;
    hide Moved;
  }

  /** A move keeps the chains: what is past the buffer check is first on its chain. */
  lemma MovedChains(s: State, x: nat, loc: Loc, pages: nat, exempt: Option<nat>)
    requires Ok(s, pages, exempt) && x in s.reqs && InRange(s, s.reqs[x].kind) && CanMove(s, x, loc)
    requires exempt.None? || exempt == Some(x)
    ensures var t := Moved(s, x, loc);
            && Distinct(t) && RxFirst(t) && |t.gens| == |t.rows| == |t.logs| == |t.nand|
            && (forall y :: y in t.reqs ==> ReqOk(t, y) && Heads(t, y, None))
            && (forall k :: 0 <= k < |t.chains| ==> ChainOk(t, k))
  {
    hide GenOk, CountsOk, LogsOk, ReqOk, Heads, ChainOk, CanMove, Distinct, RxFirst, NextRow;
    var t := Moved(s, x, loc);
    MovedOrder(s, x, loc);
    forall y | y in t.reqs ensures ReqOk(t, y) && Heads(t, y, None) {
      MovedReq(s, x, loc, exempt, y);
    }
    forall k | 0 <= k < |t.chains| ensures ChainOk(t, k) {
      MovedChain(s, x, loc, k);
    }
  }

  lemma PendingKept(s: State, x: nat, loc: Loc, b: nat, p: nat, n: nat)
    requires x in s.reqs && InRange(s, s.reqs[x].kind) && Pending(s, b, p, n)
    requires loc.Active? ==> s.reqs[x].kind != Write(b, p) || s.reqs[x].num != n
    ensures Pending(Moved(s, x, loc), b, p, n)
  {
    var y :| y in s.reqs && s.reqs[y].kind == Write(b, p) && s.reqs[y].num == n && !s.reqs[y].loc.Active?;
    assert y in Moved(s, x, loc).reqs;
  }

  predicate OfBlock(k: Kind, b: nat) {
    Nand(k) && k.block == b
  }

  /** A request of block b that is not admitted. */
  predicate Waits(r: Req, b: nat) {
    OfBlock(r.kind, b) && !r.loc.Active?
  }

  ghost predicate SameBlock(s: State, t: State, b: nat) {
    && (forall y :: y in s.reqs && Waits(s.reqs[y], b) ==> y in t.reqs && t.reqs[y] == s.reqs[y])
    && (forall y :: y in t.reqs && Waits(t.reqs[y], b) ==> y in s.reqs && t.reqs[y] == s.reqs[y])
  }

  lemma PendingSame(s: State, t: State, b: nat, p: nat, n: nat)
    requires SameBlock(s, t, b) && Pending(s, b, p, n)
    ensures Pending(t, b, p, n)
  {
    var y :| y in s.reqs && s.reqs[y].kind == Write(b, p) && s.reqs[y].num == n && !s.reqs[y].loc.Active?;
    assert Waits(s.reqs[y], b);
  }

  lemma PlacedSame(s: State, t: State, b: nat, y: nat)
    requires SameBlock(s, t, b) && b < |s.gens| == |s.rows| && b < |t.gens| == |t.rows| && t.gens[b] == s.gens[b]
    requires t.rows[b].permittedProgPage == s.rows[b].permittedProgPage && y in t.reqs
    requires y in s.reqs ==> Placed(s, y, b)
    requires s.gens[b].erase.Some? ==> s.gens[b].erase.value in s.reqs && Waits(s.reqs[s.gens[b].erase.value], b)
    ensures Placed(t, y, b)
  {
    if Waits(t.reqs[y], b) {
      assert t.reqs[y] == s.reqs[y];
    }
  }

  /** What does not touch the waiting requests of a block keeps its generations. */
  lemma GenSame(s: State, t: State, b: nat, pages: nat)
    requires b < |s.gens| == |s.rows| && b < |t.gens| == |t.rows| && GenOk(s, b, pages) && SameBlock(s, t, b)
    requires t.gens[b] == s.gens[b] && s.clock <= t.clock
    requires t.rows[b].permittedProgPage == s.rows[b].permittedProgPage
    requires t.rows[b].blockedEraseReqFlag == s.rows[b].blockedEraseReqFlag
    ensures GenOk(t, b, pages)
  {
    assert forall y :: y in s.reqs ==> Placed(s, y, b);
    assert s.gens[b].erase.Some? ==> Waits(s.reqs[s.gens[b].erase.value], b);
    forall p, n | Pending(s, b, p, n) ensures Pending(t, b, p, n) {
      PendingSame(s, t, b, p, n);
    }
    EraseSame(s, t, b);
    hide SameBlock, Placed, Pending;
    forall y | y in t.reqs ensures Placed(t, y, b) {
      PlacedSame(s, t, b, y);
    }
  }

  lemma EraseSame(s: State, t: State, b: nat)
    requires SameBlock(s, t, b) && b < |s.gens|
    ensures s.gens[b].erase.Some? && s.gens[b].erase.value in s.reqs && Waits(s.reqs[s.gens[b].erase.value], b) ==>
              s.gens[b].erase.value in t.reqs && t.reqs[s.gens[b].erase.value] == s.reqs[s.gens[b].erase.value]
  {
  }

  lemma PlacedRead(s: State, x: nat, loc: Loc, b: nat, y: nat)
    requires x in s.reqs && InRange(s, s.reqs[x].kind) && s.reqs[x].kind.Read? && s.reqs[x].kind.block == b
    requires b < |s.gens| == |s.rows| && y in s.reqs && Placed(s, y, b) && !s.reqs[x].loc.Active?
    requires s.gens[b].erase.Some? ==> Counted(s.reqs[x]) && s.gens[b].erase.value != x
    ensures Placed(Moved(s, x, loc), y, b)
  {
  }

  /** A read moved along. While an erase of its block is waiting only reads counted before move. */
  lemma GenRead(s: State, x: nat, loc: Loc, pages: nat)
    requires x in s.reqs && InRange(s, s.reqs[x].kind) && s.reqs[x].kind.Read? && !s.reqs[x].loc.Active?
    requires var b := s.reqs[x].kind.block; b < |s.gens| == |s.rows| && GenOk(s, b, pages)
    requires s.gens[s.reqs[x].kind.block].erase.Some? ==> Counted(s.reqs[x])
    ensures GenOk(Moved(s, x, loc), s.reqs[x].kind.block, pages)
  {
    var t, b := Moved(s, x, loc), s.reqs[x].kind.block;
    forall p, n | Pending(s, b, p, n) ensures Pending(t, b, p, n) {
      PendingKept(s, x, loc, b, p, n);
    }
    assert forall y :: y in s.reqs ==> Placed(s, y, b);
    hide Placed, Pending;
    forall y | y in t.reqs ensures Placed(t, y, b) {
      PlacedRead(s, x, loc, b, y);
    }
  }

  lemma PlacedWrite(s: State, x: nat, loc: Loc, b: nat, y: nat)
    requires x in s.reqs && InRange(s, s.reqs[x].kind) && s.reqs[x].kind.Write? && s.reqs[x].kind.block == b
    requires b < |s.gens| == |s.rows| && y in s.reqs && Placed(s, x, b) && Placed(s, y, b) && Distinct(s)
    requires !s.reqs[x].loc.Active? && (loc.Active? ==> s.reqs[x].kind.page == s.rows[b].permittedProgPage)
    requires loc.Active? && s.gens[b].erase.Some? ==>
               s.gens[b].erase.value in s.reqs && s.reqs[x].num < s.reqs[s.gens[b].erase.value].num
    requires s.gens[b].erase != Some(x)
    ensures Placed(Moved(s, x, loc), y, b)
  {
  }

  /** A program that passes is of the oldest generation that is not filled. */
  lemma WriteTurn(s: State, x: nat, pages: nat)
    requires x in s.reqs && InRange(s, s.reqs[x].kind) && s.reqs[x].kind.Write? && !s.reqs[x].loc.Active?
    requires var b := s.reqs[x].kind.block; b < |s.gens| == |s.rows| && GenOk(s, b, pages)
    requires s.reqs[x].kind.page == s.rows[s.reqs[x].kind.block].permittedProgPage
    ensures var b := s.reqs[x].kind.block; var g := s.gens[b];
            if g.erase.None? then s.rows[b].permittedProgPage < |g.current|
            else s.reqs[x].num < s.reqs[g.erase.value].num && g.current == [] && s.rows[b].permittedProgPage < pages
  {
    assert Placed(s, x, s.reqs[x].kind.block);
  }

  lemma MovedWrite(s: State, x: nat, loc: Loc)
    requires x in s.reqs && InRange(s, s.reqs[x].kind) && s.reqs[x].kind.Write?
    ensures var t, b := Moved(s, x, loc), s.reqs[x].kind.block;
            && t.gens == s.gens && |t.rows| == |s.rows| && t.clock == s.clock &&
              t.reqs == s.reqs[x := s.reqs[x].(loc := loc)]
            && t.rows[b].permittedProgPage == s.rows[b].permittedProgPage + Bit(loc.Active?)
            && t.rows[b].blockedEraseReqFlag == s.rows[b].blockedEraseReqFlag
  {
  }

  /** A program moved along: admitted only when it is the next page of the generation that is being filled. */
  lemma GenWrite(s: State, x: nat, loc: Loc, pages: nat)
    requires x in s.reqs && InRange(s, s.reqs[x].kind) && s.reqs[x].kind.Write? && !s.reqs[x].loc.Active? && Distinct(s)
    requires var b := s.reqs[x].kind.block; b < |s.gens| == |s.rows| && GenOk(s, b, pages)
    requires loc.Active? ==> s.reqs[x].kind.page == s.rows[s.reqs[x].kind.block].permittedProgPage
    ensures GenOk(Moved(s, x, loc), s.reqs[x].kind.block, pages)
  {
    hide Moved, Placed, Pending, Distinct;
    var t, b := Moved(s, x, loc), s.reqs[x].kind.block;
    MovedWrite(s, x, loc);
    if loc.Active? {
      WriteTurn(s, x, pages);
    }
    forall p, m | Pending(s, b, p, m) && (loc.Active? ==> p != s.reqs[x].kind.page) ensures Pending(t, b, p, m) {
      PendingKept(s, x, loc, b, p, m);
    }
    forall y | y in t.reqs ensures Placed(t, y, b) {
      PlacedWrite(s, x, loc, b, y);
    }
  }

  lemma PlacedErase(s: State, x: nat, b: nat, y: nat, pages: nat)
    requires x in s.reqs && s.reqs[x].kind == Erase(b, pages) && InRange(s, s.reqs[x].kind)
    requires b < |s.gens| == |s.rows| && y in s.reqs && Placed(s, y, b) && s.gens[b].erase == Some(x)
    requires |s.gens[b].previous| == pages == s.rows[b].permittedProgPage && y !in Reads(s.reqs, b) && Distinct(s)
    requires s.reqs[y].num < s.reqs[x].num && s.reqs[y].kind.Read? ==> !s.reqs[y].loc.InHand?
    requires s.reqs[y].kind.Read? && s.reqs[y].loc.WaitingForRx? ==> false
    ensures Placed(Moved(s, x, Active), y, b)
  {
  }

  lemma ShapeErase(s: State, x: nat, loc: Loc, pages: nat)
    requires x in s.reqs && InRange(s, s.reqs[x].kind) && s.reqs[x].kind.Erase?
    requires var b := s.reqs[x].kind.block;
             b < |s.gens| == |s.rows| && GenShape(s, b, pages) && s.gens[b].erase == Some(x)
    requires loc.BlockedByRow? || (loc.Active? && s.rows[s.reqs[x].kind.block].permittedProgPage == pages)
    ensures GenShape(Moved(s, x, loc), s.reqs[x].kind.block, pages)
  {
    var t, b := Moved(s, x, loc), s.reqs[x].kind.block;
    forall p, m | Pending(s, b, p, m) ensures Pending(t, b, p, m) {
      PendingKept(s, x, loc, b, p, m);
    }
    hide Pending;
  }

  /** An admitted erase starts the next generation; no read counted for the last one is left. */
  lemma GenErase(s: State, x: nat, loc: Loc, pages: nat)
    requires x in s.reqs && InRange(s, s.reqs[x].kind) && s.reqs[x].kind.Erase? && !s.reqs[x].loc.Active? && Distinct(s)
    requires var b := s.reqs[x].kind.block; b < |s.gens| == |s.rows| && GenOk(s, b, pages)
    requires forall y :: y in s.reqs ==> ReqOk(s, y)
    requires loc.BlockedByRow? || (loc.Active? && Passes(s, s.reqs[x].kind))
    requires s.rows[s.reqs[x].kind.block].blockedReadReqCnt == |Reads(s.reqs, s.reqs[x].kind.block)|
    ensures GenOk(Moved(s, x, loc), s.reqs[x].kind.block, pages)
  {
    var t, b := Moved(s, x, loc), s.reqs[x].kind.block;
    EraseAwaited(s, x, pages);
    hide Placed, Distinct, ReqOk, GenShape;
    ShapeErase(s, x, loc, pages);
    forall y | y in t.reqs ensures Placed(t, y, b) {
      if loc.Active? {
        assert Reads(s.reqs, b) == {};
        EraseOrder(s, x, y);
        PlacedErase(s, x, b, y, pages);
      } else {
        PlacedWaiting(s, x, b, y);
      }
    }
  }

  lemma EraseAwaited(s: State, x: nat, pages: nat)
    requires x in s.reqs && InRange(s, s.reqs[x].kind) && s.reqs[x].kind.Erase? && !s.reqs[x].loc.Active?
    requires var b := s.reqs[x].kind.block; b < |s.gens| == |s.rows| && GenOk(s, b, pages)
    ensures var g := s.gens[s.reqs[x].kind.block];
            g.erase == Some(x) && s.reqs[x].kind == Erase(s.reqs[x].kind.block, pages) && |g.previous| == pages
  {
    assert Placed(s, x, s.reqs[x].kind.block);
  }

  lemma EraseOrder(s: State, x: nat, y: nat)
    requires x in s.reqs && y in s.reqs && ReqOk(s, x) && ReqOk(s, y)
    ensures s.reqs[y].num < s.reqs[x].num && s.reqs[y].kind.Read? ==> !s.reqs[y].loc.InHand?
    ensures s.reqs[y].kind.Read? ==> !s.reqs[y].loc.WaitingForRx?
  {
  }

  lemma PlacedWaiting(s: State, x: nat, b: nat, y: nat)
    requires x in s.reqs && InRange(s, s.reqs[x].kind) && s.reqs[x].kind.Erase? && s.reqs[x].kind.block == b
    requires b < |s.gens| == |s.rows| && y in s.reqs && Placed(s, y, b) && s.gens[b].erase == Some(x)
    ensures Placed(Moved(s, x, BlockedByRow), y, b)
  {
  }

  // ---- the four kinds of step keep the invariant ----

  /** The request passed the buffer check. */
  ghost predicate First(s: State, x: nat)
    requires x in s.reqs
  {
    var r := s.reqs[x];
    r.buf.Some? ==> r.buf.value < |s.chains| && s.chains[r.buf.value] != [] && s.chains[r.buf.value][0] == x
  }

  /** A read in hand has waited until no erase of its block is pending. */
  ghost predicate Synced(s: State, x: nat)
    requires x in s.reqs
  {
    var r := s.reqs[x];
    r.loc.InHand? && r.kind.Read? && r.kind.block < |s.rows| ==> !s.rows[r.kind.block].blockedEraseReqFlag
  }

  lemma SyncedRead(s: State, x: nat, pages: nat, exempt: Option<nat>)
    requires Ok(s, pages, exempt) && x in s.reqs && s.reqs[x].kind.Read? && !s.reqs[x].loc.Active? && Synced(s, x)
    ensures InRange(s, s.reqs[x].kind)
    ensures s.gens[s.reqs[x].kind.block].erase.Some? ==> Counted(s.reqs[x])
  {
    assert ReqOk(s, x);
    var b := s.reqs[x].kind.block;
    assert GenOk(s, b, pages);
  }

  lemma MovedGens(s: State, x: nat, loc: Loc, pages: nat, exempt: Option<nat>)
    requires Ok(s, pages, exempt) && x in s.reqs && InRange(s, s.reqs[x].kind) && !s.reqs[x].loc.Active? && Synced(s, x)
    requires loc.Active? ==> Passes(s, s.reqs[x].kind)
    requires s.reqs[x].kind.Erase? ==> loc.Active? || loc.BlockedByRow?
    ensures var t := Moved(s, x, loc);
            |t.gens| == |t.rows| && forall b :: 0 <= b < |t.gens| ==> GenOk(t, b, pages)
  {
    hide GenOk, CountsOk, LogsOk, Heads, ChainOk, RxFirst, Distinct, ReqOk;
    var t, k := Moved(s, x, loc), s.reqs[x].kind;
    forall b | 0 <= b < |s.gens| ensures GenOk(t, b, pages) {
      if !OfBlock(k, b) {
        Elsewhere(s, x, loc, b);
        GenSame(s, t, b, pages);
      } else if k.Read? {
        SyncedRead(s, x, pages, exempt);
        GenRead(s, x, loc, pages);
      } else if k.Write? {
        GenWrite(s, x, loc, pages);
      } else {
        CountAt(s, b);
        GenErase(s, x, loc, pages);
      }
    }
  }

  lemma CountAt(s: State, b: nat)
    requires CountsOk(s) && b < |s.rows|
    ensures s.rows[b].blockedReadReqCnt == |Reads(s.reqs, b)|
  {
  }

  lemma Elsewhere(s: State, x: nat, loc: Loc, b: nat)
    requires x in s.reqs && InRange(s, s.reqs[x].kind) && !OfBlock(s.reqs[x].kind, b) && b < |s.gens| == |s.rows|
    ensures var t := Moved(s, x, loc);
            SameBlock(s, t, b) && t.gens[b] == s.gens[b] && |t.gens| == |t.rows| == |s.rows| &&
              t.rows[b] == s.rows[b] && t.clock == s.clock
  {
  }

  /** Settling a request that passed the buffer check keeps the invariant. */
  lemma SettleKeeps(s: State, x: nat, pages: nat, exempt: Option<nat>)
    requires Ok(s, pages, exempt) && x in s.reqs && InRange(s, s.reqs[x].kind) && !s.reqs[x].loc.Active?
    requires First(s, x) && Synced(s, x) && (exempt.None? || exempt == Some(x))
    ensures Ok(Settled(s, x), pages, None)
  {
    hide GenOk, CountsOk, LogsOk, Heads, ChainOk, RxFirst, Distinct, ReqOk, Passes, Moved;
    var loc := NextLoc(s.reqs[x].kind, Passes(s, s.reqs[x].kind));
    assert CanMove(s, x, loc) by {
      AlwaysPasses(s, s.reqs[x].kind);
    }
    MovedChains(s, x, loc, pages, exempt);
    MovedCounts(s, x, loc);
    MovedGens(s, x, loc, pages, exempt);
    SettledLogs(s, x);
  }

  lemma AlwaysPasses(s: State, k: Kind)
    requires InRange(s, k)
    ensures !Nand(k) && !k.TxDma? ==> Passes(s, k)
  {
  }

  /** Queueing the request in hand behind an earlier one of its buffer keeps the invariant. */
  lemma BlockKeeps(s: State, x: nat, pages: nat)
    requires Ok(s, pages, None) && x in s.reqs && InRange(s, s.reqs[x].kind) && s.reqs[x].loc.InHand?
    requires !First(s, x) && Synced(s, x)
    ensures Ok(Moved(s, x, BlockedByBuf), pages, None)
  {
    hide GenOk, CountsOk, LogsOk, Heads, ChainOk, RxFirst, Distinct;
    assert ReqOk(s, x);
    MovedChains(s, x, BlockedByBuf, pages, None);
    MovedCounts(s, x, BlockedByBuf);
    MovedGens(s, x, BlockedByBuf, pages, None);
    BlockedLogs(s, x);
  }

  lemma BlockedLogs(s: State, x: nat)
    requires x in s.reqs && InRange(s, s.reqs[x].kind) && LogsOk(s) && !s.reqs[x].kind.Erase?
    ensures LogsOk(Moved(s, x, BlockedByBuf))
  {
  }

  /** A request that completes is the first of its chain. */
  lemma ActiveFirst(s: State, x: nat, pages: nat)
    requires Ok(s, pages, None) && x in s.reqs && s.reqs[x].loc.Active?
    ensures InRange(s, s.reqs[x].kind) && First(s, x)
  {
    assert ReqOk(s, x) && Heads(s, x, None);
  }

  /** The request next in line when x leaves its chain. */
  function Successor(s: State, x: nat): (y: Option<nat>)
    requires x in s.reqs
  {
    var r := s.reqs[x];
    if r.buf.Some? && r.buf.value < |s.chains| && |s.chains[r.buf.value]| > 1
      then Some(s.chains[r.buf.value][1]) else None
  }

  lemma CompletedChain(s: State, x: nat, k: nat)
    requires x in s.reqs && InRange(s, s.reqs[x].kind) && First(s, x) && k < |s.chains| && ChainOk(s, k)
    ensures ChainOk(Completed(s, x), k)
  {
    var t := Completed(s, x);
    forall i | 0 <= i < |t.chains[k]| ensures t.chains[k][i] in t.reqs {
      var j := if s.reqs[x].buf == Some(k) then i + 1 else i;
      assert t.chains[k][i] == s.chains[k][j];
      assert s.reqs[x].buf == Some(k) ==> s.reqs[s.chains[k][0]].num < s.reqs[s.chains[k][j]].num;
    }
  }

  lemma CompletedReq(s: State, x: nat, y: nat)
    requires x in s.reqs && InRange(s, s.reqs[x].kind) && First(s, x) && y in s.reqs && y != x
    requires ReqOk(s, y) && Heads(s, y, None)
    ensures ReqOk(Completed(s, x), y) && Heads(Completed(s, x), y, Successor(s, x))
  {
    var t, r := Completed(s, x), s.reqs[y];
    if r.buf.Some? && r.buf == s.reqs[x].buf {
      var c := s.chains[r.buf.value];
      var i :| 0 <= i < |c| && c[i] == y;
      assert c[1..][i - 1] == y;
    }
  }

  lemma ReadsGone(reqs: map<nat, Req>, x: nat, b: nat)
    requires x in reqs && !Counted(reqs[x])
    ensures Reads(reqs - {x}, b) == Reads(reqs, b)
  {
  }

  lemma RxsGone(reqs: map<nat, Req>, x: nat, cmd: nat)
    requires x in reqs
    ensures |Rxs(reqs - {x}, cmd)| == |Rxs(reqs, cmd)| - Bit(reqs[x].kind == RxDma(cmd))
    ensures |Rxs(reqs, cmd)| <= |reqs|
  {
    assert Rxs(reqs - {x}, cmd) == Rxs(reqs, cmd) - {x};
    assert x in Rxs(reqs, cmd) <==> reqs[x].kind == RxDma(cmd);
    Within(Rxs(reqs, cmd), reqs.Keys);
  }

  lemma CompletedFields(s: State, x: nat)
    requires x in s.reqs && InRange(s, s.reqs[x].kind) && First(s, x)
    ensures var t, k := Completed(s, x), s.reqs[x].kind;
            && t.reqs == s.reqs - {x} && t.rows == s.rows && t.gens == s.gens && t.logs == s.logs && t.clock == s.clock
            && t.chains == (if s.reqs[x].buf.Some?
              then s.chains[s.reqs[x].buf.value := s.chains[s.reqs[x].buf.value][1..]] else s.chains)
            && t.nand == (if Nand(k) && s.nand[k.block] != [] then s.nand[k.block := s.nand[k.block][1..]] else s.nand)
            && t.done == s.done + [s.reqs[x]]
            && t.rxLeft == if k.RxDma? then s.rxLeft[k.cmd := Halfword(s.rxLeft[k.cmd] as int - 1)] else s.rxLeft
  {
  }

  lemma CompletedCounts(s: State, x: nat)
    requires x in s.reqs && InRange(s, s.reqs[x].kind) && First(s, x) && CountsOk(s) && s.reqs[x].loc.Active?
    requires |s.reqs| < 0x1_0000
    ensures CountsOk(Completed(s, x)) && |Completed(s, x).reqs| < |s.reqs|
  {
    hide Reads, Rxs, Completed;
    CompletedFields(s, x);
    var t := Completed(s, x);
    assert t.reqs.Keys == s.reqs.Keys - {x};
    forall b | 0 <= b < |t.rows| ensures t.rows[b].blockedReadReqCnt == |Reads(t.reqs, b)| {
      ReadsGone(s.reqs, x, b);
    }
    forall cmd | 0 <= cmd < |t.rxLeft| ensures t.rxLeft[cmd] == |Rxs(t.reqs, cmd)| {
      RxsGone(s.reqs, x, cmd);
    }
  }

  lemma CompletedOrder(s: State, x: nat)
    requires x in s.reqs && InRange(s, s.reqs[x].kind) && First(s, x) && Distinct(s) && RxFirst(s)
    requires s.reqs[x].loc.Active?
    ensures Distinct(Completed(s, x)) && RxFirst(Completed(s, x))
    ensures forall b :: SameBlock(s, Completed(s, x), b)
  {
  }

  /** Completing a request keeps the invariant, up to the next of its chain, which is settled next. */
  lemma CompleteKeeps(s: State, x: nat, pages: nat)
    requires Ok(s, pages, None) && x in s.reqs && InRange(s, s.reqs[x].kind) && First(s, x) && s.reqs[x].loc.Active?
    ensures Ok(Completed(s, x), pages, Successor(s, x))
  {
    hide GenOk, CountsOk, LogsOk, Heads, ChainOk, RxFirst, Distinct, ReqOk, SameBlock, Successor;
    var t := Completed(s, x);
    CompletedCounts(s, x);
    CompletedOrder(s, x);
    forall y | y in t.reqs ensures ReqOk(t, y) && Heads(t, y, Successor(s, x)) {
      CompletedReq(s, x, y);
    }
    forall k | 0 <= k < |t.chains| ensures ChainOk(t, k) {
      CompletedChain(s, x, k);
    }
    forall b | 0 <= b < |t.gens| ensures GenOk(t, b, pages) {
      GenSame(s, t, b, pages);
    }
    SameLogs(s, t);
  }

  lemma SameLogs(s: State, t: State)
    requires LogsOk(s) && t.logs == s.logs && t.rows == s.rows
    ensures LogsOk(t)
  {
  }

  // ---- submitting a request ----

  /** What the rest of the firmware sees to: programs of a block are submitted in page order, a block
      is erased when all its pages have been submitted, reads are of pages submitted since the last
      erase, and the receptions of a command come before its transmissions. */
  ghost predicate Orderly(s: State, x: nat, k: Kind, buf: Option<nat>, pages: nat) {
    && |s.gens| == |s.rows| == |s.logs| == |s.nand|
    && x !in s.reqs && |s.reqs| + 1 < 0x1_0000 && InRange(s, k) && (buf.Some? ==> buf.value < |s.chains|)
    && (forall y :: y in s.reqs ==> !s.reqs[y].loc.InHand?)
    && match k
       case Dma => true
       case RxDma(cmd) => forall y :: y in s.reqs ==> s.reqs[y].kind != TxDma(cmd)
       case TxDma(_) => true
       case Read(b, p) => p < |s.gens[b].current|
       case Write(b, p) => p == |s.gens[b].current| < pages
       case Erase(b, n) => buf.None? && n == pages == |s.gens[b].current|
  }

  /** The first of two conditions the engine does not check: a block is programmed again after
      an erase only once all programs before the erase are admitted. */
  ghost predicate LastFilled(s: State, k: Kind, pages: nat) {
    k.Write? && k.block < |s.gens| == |s.rows| && s.gens[k.block].erase.Some? ==>
      s.rows[k.block].permittedProgPage == pages
  }

  /** The second: a block is not erased again before its last erase is admitted. */
  ghost predicate LastErased(s: State, k: Kind) {
    k.Erase? && k.block < |s.gens| ==> s.gens[k.block].erase.None?
  }

  ghost predicate CanSubmit(s: State, x: nat, k: Kind, buf: Option<nat>, pages: nat) {
    Orderly(s, x, k, buf, pages) && LastFilled(s, k, pages) && LastErased(s, k)
  }

  lemma SubmittedReq(s: State, x: nat, k: Kind, buf: Option<nat>, pages: nat, y: nat)
    requires CanSubmit(s, x, k, buf, pages) && (y in s.reqs ==> ReqOk(s, y) && Heads(s, y, None))
    requires (y == x || y in s.reqs)
    ensures ReqOk(Submitted(s, x, k, buf), y) && Heads(Submitted(s, x, k, buf), y, None)
  {
    var t := Submitted(s, x, k, buf);
    if y == x && buf.Some? {
      assert t.chains[buf.value][|s.chains[buf.value]|] == x;
    } else if y != x && s.reqs[y].buf.Some? {
      var c := s.chains[s.reqs[y].buf.value];
      var i :| 0 <= i < |c| && c[i] == y;
      assert t.chains[s.reqs[y].buf.value][i] == y;
    }
  }

  lemma SubmittedChain(s: State, x: nat, k: Kind, buf: Option<nat>, pages: nat, c: nat)
    requires CanSubmit(s, x, k, buf, pages) && c < |s.chains| && ChainOk(s, c) && forall y :: y in s.reqs ==>
             ReqOk(s, y)
    ensures ChainOk(Submitted(s, x, k, buf), c)
  {
    var t := Submitted(s, x, k, buf);
    forall i | 0 <= i < |s.chains[c]| ensures s.chains[c][i] in s.reqs && s.reqs[s.chains[c][i]].num < s.clock {
      assert ReqOk(s, s.chains[c][i]);
    }
  }

  lemma ReadsMore(reqs: map<nat, Req>, x: nat, r: Req, b: nat)
    requires x !in reqs && !Counted(r)
    ensures |Reads(reqs[x := r], b)| == |Reads(reqs, b)|
  {
    ReadsSet(reqs, x, r, b);
    assert Reads(reqs, b) - {x} == Reads(reqs, b);
  }

  lemma RxsMore(reqs: map<nat, Req>, x: nat, r: Req, cmd: nat)
    requires x !in reqs
    ensures |Rxs(reqs[x := r], cmd)| == |Rxs(reqs, cmd)| + Bit(r.kind == RxDma(cmd))
  {
    var a, c := Rxs(reqs[x := r], cmd), Rxs(reqs, cmd);
    assert x !in c;
    forall y ensures y in a <==> y in c || (y == x && r.kind == RxDma(cmd)) {
    }
    assert a == if r.kind == RxDma(cmd) then c + {x} else c;
  }

  lemma SubmittedFields(s: State, x: nat, k: Kind, buf: Option<nat>)
    requires InRange(s, k) && (buf.Some? ==> buf.value < |s.chains|)
    ensures var t := Submitted(s, x, k, buf);
            && t.reqs == s.reqs[x := Req(s.clock, k, buf, InHand)] && t.clock == s.clock + 1 && t.rows == s.rows
            && t.logs == s.logs && t.nand == s.nand && t.done == s.done
            && t.chains == (if buf.Some? then s.chains[buf.value := s.chains[buf.value] + [x]] else s.chains)
            && t.rxLeft == if k.RxDma? then s.rxLeft[k.cmd := Halfword(s.rxLeft[k.cmd] + 1)] else s.rxLeft
  {
  }

  lemma SubmittedCounts(s: State, x: nat, k: Kind, buf: Option<nat>)
    requires |s.reqs| + 1 < 0x1_0000 && x !in s.reqs && InRange(s, k) && (buf.Some? ==> buf.value < |s.chains|)
    requires CountsOk(s)
    ensures CountsOk(Submitted(s, x, k, buf)) && |Submitted(s, x, k, buf).reqs| == |s.reqs| + 1
  {
    hide Reads, Rxs, Counted, Submitted;
    SubmittedFields(s, x, k, buf);
    var t, r := Submitted(s, x, k, buf), Req(s.clock, k, buf, InHand);
    forall cmd | 0 <= cmd < |s.rxLeft|
      ensures t.rxLeft[cmd] == s.rxLeft[cmd] + Bit(k == RxDma(cmd))
    {
      RxsFew(s.reqs, cmd);
    }
    assert t.reqs.Keys == s.reqs.Keys + {x};
    NewUncounted(r);
    forall b | 0 <= b < |t.rows| ensures t.rows[b].blockedReadReqCnt == |Reads(t.reqs, b)| {
      ReadsMore(s.reqs, x, r, b);
    }
    forall cmd | 0 <= cmd < |t.rxLeft| ensures t.rxLeft[cmd] == |Rxs(t.reqs, cmd)| {
      RxsMore(s.reqs, x, r, cmd);
    }
  }

  lemma RxsFew(reqs: map<nat, Req>, cmd: nat)
    ensures |Rxs(reqs, cmd)| <= |reqs|
  {
    Within(Rxs(reqs, cmd), reqs.Keys);
  }

  lemma NewUncounted(r: Req)
    requires r.loc.InHand?
    ensures !Counted(r)
  {
  }

  lemma SubmitFresh(s: State, x: nat, k: Kind, buf: Option<nat>, pages: nat)
    requires CanSubmit(s, x, k, buf, pages)
    ensures x !in s.reqs && InRange(s, k) && (buf.Some? ==> buf.value < |s.chains|)
    ensures k.RxDma? ==> forall y :: y in s.reqs ==> s.reqs[y].kind != TxDma(k.cmd)
  {
  }

  lemma SubmittedOrder(s: State, x: nat, k: Kind, buf: Option<nat>, pages: nat)
    requires CanSubmit(s, x, k, buf, pages) && Distinct(s) && RxFirst(s) && forall y :: y in s.reqs ==> ReqOk(s, y)
    ensures Distinct(Submitted(s, x, k, buf)) && RxFirst(Submitted(s, x, k, buf))
  {
    forall y | y in s.reqs ensures s.reqs[y].num < s.clock {
      assert ReqOk(s, y);
    }
    hide CanSubmit, Submitted, ReqOk;
    SubmitFresh(s, x, k, buf, pages);
    SubmittedFields(s, x, k, buf);
  }

  lemma PendingMore(s: State, x: nat, k: Kind, buf: Option<nat>, b: nat, p: nat, n: nat)
    requires x !in s.reqs && InRange(s, k) && (buf.Some? ==> buf.value < |s.chains|)
    requires Pending(s, b, p, n) || (k == Write(b, p) && n == s.clock)
    ensures Pending(Submitted(s, x, k, buf), b, p, n)
  {
    var t := Submitted(s, x, k, buf);
    if Pending(s, b, p, n) {
      var y :| y in s.reqs && s.reqs[y].kind == Write(b, p) && s.reqs[y].num == n && !s.reqs[y].loc.Active?;
      assert t.reqs[y] == s.reqs[y];
    } else {
      assert t.reqs[x].kind == Write(b, p) && t.reqs[x].num == n;
    }
  }

  lemma PlacedMore(s: State, x: nat, k: Kind, buf: Option<nat>, b: nat, pages: nat, y: nat)
    requires CanSubmit(s, x, k, buf, pages) && b < |s.gens| && (y == x || y in s.reqs)
    requires GenOk(s, b, pages) && (forall z :: z in s.reqs ==> s.reqs[z].num < s.clock)
    ensures Placed(Submitted(s, x, k, buf), y, b)
  {
    if y in s.reqs {
      assert Placed(s, y, b);
    }
  }

  lemma ShapeMoreWrite(s: State, x: nat, k: Kind, buf: Option<nat>, pages: nat)
    requires CanSubmit(s, x, k, buf, pages) && k.Write? && GenShape(s, k.block, pages)
    requires forall z :: z in s.reqs ==> s.reqs[z].num < s.clock
    ensures GenShape(Submitted(s, x, k, buf), k.block, pages)
  {
    var t, b := Submitted(s, x, k, buf), k.block;
    forall p, n | Pending(s, b, p, n) || (k == Write(b, p) && n == s.clock) ensures Pending(t, b, p, n) {
      PendingMore(s, x, k, buf, b, p, n);
    }
    hide Pending;
    assert t.rows == s.rows && t.gens[b] == s.gens[b].(current := s.gens[b].current + [s.clock]);
  }

  lemma ShapeMoreErase(s: State, x: nat, k: Kind, buf: Option<nat>, pages: nat)
    requires CanSubmit(s, x, k, buf, pages) && k.Erase? && GenShape(s, k.block, pages)
    ensures GenShape(Submitted(s, x, k, buf), k.block, pages)
  {
    var t, b := Submitted(s, x, k, buf), k.block;
    forall p, n | Pending(s, b, p, n) ensures Pending(t, b, p, n) {
      PendingMore(s, x, k, buf, b, p, n);
    }
    hide Pending;
    assert t.rows == s.rows && t.gens[b] == Gen([], Some(x), s.gens[b].current);
  }

  lemma ShapeMoreElse(s: State, x: nat, k: Kind, buf: Option<nat>, b: nat, pages: nat)
    requires CanSubmit(s, x, k, buf, pages) && b < |s.gens| && GenShape(s, b, pages)
    requires k.Write? || k.Erase? ==> k.block != b
    ensures GenShape(Submitted(s, x, k, buf), b, pages)
  {
    var t := Submitted(s, x, k, buf);
    forall p, n | Pending(s, b, p, n) ensures Pending(t, b, p, n) {
      PendingMore(s, x, k, buf, b, p, n);
    }
    hide Pending;
    assert t.rows == s.rows && t.gens[b] == s.gens[b];
  }

  lemma GenMore(s: State, x: nat, k: Kind, buf: Option<nat>, b: nat, pages: nat)
    requires CanSubmit(s, x, k, buf, pages) && b < |s.gens| && GenOk(s, b, pages)
    requires forall z :: z in s.reqs ==> s.reqs[z].num < s.clock
    ensures GenOk(Submitted(s, x, k, buf), b, pages)
  {
    hide GenShape, Placed;
    var t := Submitted(s, x, k, buf);
    if k.Write? && k.block == b {
      ShapeMoreWrite(s, x, k, buf, pages);
    } else if k.Erase? && k.block == b {
      ShapeMoreErase(s, x, k, buf, pages);
    } else {
      ShapeMoreElse(s, x, k, buf, b, pages);
    }
    forall y | y in t.reqs ensures Placed(t, y, b) {
      PlacedMore(s, x, k, buf, b, pages, y);
    }
  }

  /** Submitting a request keeps the invariant. */
  lemma SubmitKeeps(s: State, x: nat, k: Kind, buf: Option<nat>, pages: nat)
    requires Ok(s, pages, None) && CanSubmit(s, x, k, buf, pages)
    ensures Ok(Submitted(s, x, k, buf), pages, None)
  {
    var t := Submitted(s, x, k, buf);
    forall z | z in s.reqs ensures s.reqs[z].num < s.clock {
      assert ReqOk(s, z);
    }
    hide GenOk, CountsOk, LogsOk, Heads, ChainOk, RxFirst, Distinct, ReqOk, CanSubmit;
    assert |t.gens| == |s.gens| && |t.chains| == |s.chains|;
    SubmittedCounts(s, x, k, buf);
    SubmittedOrder(s, x, k, buf, pages);
    forall y | y in t.reqs ensures ReqOk(t, y) && Heads(t, y, None) {
      SubmittedReq(s, x, k, buf, pages, y);
    }
    forall c | 0 <= c < |t.chains| ensures ChainOk(t, c) {
      SubmittedChain(s, x, k, buf, pages, c);
    }
    forall b | 0 <= b < |t.gens| ensures GenOk(t, b, pages) {
      GenMore(s, x, k, buf, b, pages);
    }
    SameLogs(s, t);
  }
}
