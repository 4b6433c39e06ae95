/** Requests complete out of order, yet with the same effect as in the order they were submitted:
    whatever shares a buffer or a flash page with an earlier request completes after it. */
module Serial {
  import opened Basics
  import opened Requests

  /** Two operations on one block that may not change places. */
  predicate Clash(j: Kind, k: Kind) {
    && Nand(j) && Nand(k) && j.block == k.block
    && (j.Erase? || k.Erase? || (j.page == k.page && (j.Write? || k.Write?)))
  }

  predicate Conflict(a: Req, b: Req) {
    (a.buf.Some? && a.buf == b.buf) || Clash(a.kind, b.kind)
  }

  /** The NAND queue of a block holds its admitted requests, each once. */
  ghost predicate Queued(s: State) {
    && |s.nand| == |s.rows|
    && (forall b, i :: 0 <= b < |s.nand| && 0 <= i < |s.nand[b]| ==>
          s.nand[b][i] in s.reqs && s.reqs[s.nand[b][i]].loc.Active? && OfBlock(s.reqs[s.nand[b][i]].kind, b))
    && (forall b, i, j :: 0 <= b < |s.nand| && 0 <= i < j < |s.nand[b]| ==> s.nand[b][i] != s.nand[b][j])
    && (forall x :: x in s.reqs && s.reqs[x].loc.Active? && Nand(s.reqs[x].kind) ==>
          s.reqs[x].kind.block < |s.nand| && x in s.nand[s.reqs[x].kind.block])
  }

  ghost predicate Ahead(s: State, b: nat, j: nat, x: nat)
    requires b < |s.nand| && j < |s.nand[b]| && x in s.reqs && s.nand[b][j] in s.reqs
  {
    var r := s.reqs[s.nand[b][j]];
    Clash(s.reqs[x].kind, r.kind) && s.reqs[x].num < r.num ==> x in s.nand[b][..j]
  }

  /** An admitted request has every live request it clashes with and that was submitted before it
      ahead of it in its NAND queue. */
  ghost predicate Ordered(s: State) {
    forall b, j, x :: 0 <= b < |s.nand| && 0 <= j < |s.nand[b]| && x in s.reqs && s.nand[b][j] in s.reqs ==>
      Ahead(s, b, j, x)
  }

  /** Conflicting requests have completed in submission order, and before the live ones they conflict with. */
  ghost predicate History(s: State) {
    && |s.done| + |s.reqs| == s.clock
    && (forall i :: 0 <= i < |s.done| ==> s.done[i].num < s.clock)
    && (forall i, j :: 0 <= i < j < |s.done| ==> s.done[i].num != s.done[j].num)
    && (forall i, x :: 0 <= i < |s.done| && x in s.reqs ==> s.done[i].num != s.reqs[x].num)
    && (forall i, j :: 0 <= i < j < |s.done| && Conflict(s.done[i], s.done[j]) ==> s.done[i].num < s.done[j].num)
    && (forall i, x :: 0 <= i < |s.done| && x in s.reqs && Conflict(s.done[i], s.reqs[x]) ==>
      s.done[i].num < s.reqs[x].num)
  }

  ghost predicate InSeries(s: State) {
    Queued(s) && Ordered(s) && History(s)
  }

  // ---- admission keeps clashing requests in order ----

  lemma WriteAfter(s: State, x: nat, y: nat, pages: nat)
    requires x in s.reqs && y in s.reqs && s.reqs[x].kind.Write? && InRange(s, s.reqs[x].kind) && !s.reqs[x].loc.Active?
    requires GenOk(s, s.reqs[x].kind.block, pages) && Distinct(s)
    requires Passes(s, s.reqs[x].kind) && Clash(s.reqs[y].kind, s.reqs[x].kind) && s.reqs[y].num < s.reqs[x].num
    ensures s.reqs[y].loc.Active?
  {
    var b := s.reqs[x].kind.block;
    WriteTurn(s, x, pages);
    assert Placed(s, x, b) && Placed(s, y, b);
  }

  lemma ReadAfter(s: State, x: nat, y: nat, pages: nat)
    requires x in s.reqs && y in s.reqs && s.reqs[x].kind.Read? && InRange(s, s.reqs[x].kind) && !s.reqs[x].loc.Active?
    requires GenOk(s, s.reqs[x].kind.block, pages) && (s.gens[s.reqs[x].kind.block].erase.Some? ==> Counted(s.reqs[x]))
    requires Passes(s, s.reqs[x].kind) && Clash(s.reqs[y].kind, s.reqs[x].kind) && s.reqs[y].num < s.reqs[x].num
    ensures s.reqs[y].loc.Active?
  {
    var b := s.reqs[x].kind.block;
    assert Placed(s, x, b) && Placed(s, y, b);
  }

  lemma EraseAfter(s: State, x: nat, y: nat, pages: nat)
    requires x in s.reqs && y in s.reqs && s.reqs[x].kind.Erase? && InRange(s, s.reqs[x].kind) && !s.reqs[x].loc.Active?
    requires GenOk(s, s.reqs[x].kind.block, pages) && ReqOk(s, x) && ReqOk(s, y)
    requires s.rows[s.reqs[x].kind.block].blockedReadReqCnt == |Reads(s.reqs, s.reqs[x].kind.block)|
    requires Passes(s, s.reqs[x].kind) && Clash(s.reqs[y].kind, s.reqs[x].kind) && s.reqs[y].num < s.reqs[x].num
    ensures s.reqs[y].loc.Active?
  {
    var b := s.reqs[x].kind.block;
    EraseAwaited(s, x, pages);
    assert Placed(s, y, b);
    assert y !in Reads(s.reqs, b);
  }

  /** When a request is admitted, the earlier ones it clashes with are admitted already. */
  lemma AdmittedAfter(s: State, x: nat, y: nat, pages: nat, exempt: Option<nat>)
    requires Ok(s, pages, exempt) && x in s.reqs && y in s.reqs && InRange(s, s.reqs[x].kind) && !s.reqs[x].loc.Active?
    requires Synced(s, x) && Passes(s, s.reqs[x].kind) && Clash(s.reqs[y].kind, s.reqs[x].kind)
    requires s.reqs[y].num < s.reqs[x].num
    ensures s.reqs[y].loc.Active?
  {
    hide GenOk, CountsOk, LogsOk, Heads, ChainOk, RxFirst, Distinct, ReqOk, Passes;
    var k := s.reqs[x].kind;
    assert GenOk(s, k.block, pages);
    if k.Write? {
      WriteAfter(s, x, y, pages);
    } else if k.Read? {
      SyncedRead(s, x, pages, exempt);
      ReadAfter(s, x, y, pages);
    } else {
      CountAt(s, k.block);
      EraseAfter(s, x, y, pages);
    }
  }

  // ---- every step keeps the series ----

  lemma MovedQueued(s: State, x: nat, loc: Loc)
    requires Queued(s) && x in s.reqs && InRange(s, s.reqs[x].kind) && !s.reqs[x].loc.Active?
    ensures Queued(Moved(s, x, loc))
  {
    var t, k := Moved(s, x, loc), s.reqs[x].kind;
    assert forall b, i :: 0 <= b < |s.nand| && 0 <= i < |s.nand[b]| ==> s.nand[b][i] != x;
    if loc.Active? && Nand(k) {
      assert t.nand[k.block][|s.nand[k.block]|] == x;
      forall y | y in s.nand[k.block] ensures y in t.nand[k.block] {
      }
    }
  }

  lemma MovedAhead(s: State, x: nat, loc: Loc, pages: nat, exempt: Option<nat>, b: nat, j: nat, y: nat)
    requires Ok(s, pages, exempt) && Queued(s) && Ordered(s) && x in s.reqs && InRange(s, s.reqs[x].kind)
    requires !s.reqs[x].loc.Active?
    requires loc.Active? ==> Synced(s, x) && Passes(s, s.reqs[x].kind)
    requires var t := Moved(s, x, loc); b < |t.nand| && j < |t.nand[b]| && y in t.reqs && t.nand[b][j] in t.reqs
    ensures Ahead(Moved(s, x, loc), b, j, y)
  {
    hide Ok, Passes, Synced;
    var t := Moved(s, x, loc);
    if j < |s.nand[b]| {
      assert t.nand[b][j] == s.nand[b][j] && t.nand[b][..j] == s.nand[b][..j];
      assert Ahead(s, b, j, y);
    } else {
      assert t.nand[b][j] == x && t.nand[b][..j] == s.nand[b];
      if Clash(s.reqs[y].kind, s.reqs[x].kind) && s.reqs[y].num < s.reqs[x].num {
        AdmittedAfter(s, x, y, pages, exempt);
      }
    }
  }

  lemma MovedHistory(s: State, x: nat, loc: Loc)
    requires History(s) && x in s.reqs && InRange(s, s.reqs[x].kind)
    ensures History(Moved(s, x, loc))
  {
    var t := Moved(s, x, loc);
    assert t.done == s.done && t.clock == s.clock && t.reqs == s.reqs[x := s.reqs[x].(loc := loc)];
    assert t.reqs.Keys == s.reqs.Keys && |t.reqs| == |t.reqs.Keys|;
    hide Moved;
    forall i, y | 0 <= i < |t.done| && y in t.reqs && Conflict(t.done[i], t.reqs[y])
      ensures t.done[i].num < t.reqs[y].num
    {
      assert Conflict(s.done[i], s.reqs[y]);
    }
  }

  /** Moving a request keeps the series; it is admitted only when it passes its check. */
  lemma MoveInSeries(s: State, x: nat, loc: Loc, pages: nat, exempt: Option<nat>)
    requires Ok(s, pages, exempt) && InSeries(s) && x in s.reqs && InRange(s, s.reqs[x].kind) && !s.reqs[x].loc.Active?
    requires loc.Active? ==> Synced(s, x) && Passes(s, s.reqs[x].kind)
    ensures InSeries(Moved(s, x, loc))
  {
    hide Ok, Queued, Ahead, History, Passes, Synced, Moved;
    MovedQueued(s, x, loc);
    MovedHistory(s, x, loc);
    var t := Moved(s, x, loc);
    forall b, j, y | 0 <= b < |t.nand| && 0 <= j < |t.nand[b]| && y in t.reqs && t.nand[b][j] in t.reqs
      ensures Ahead(t, b, j, y)
    {
      MovedAhead(s, x, loc, pages, exempt, b, j, y);
    }
  }

  /** The request is at the front of its NAND queue, if it has one. */
  ghost predicate Front(s: State, x: nat)
    requires x in s.reqs
  {
    var k := s.reqs[x].kind;
    Nand(k) ==> k.block < |s.nand| && s.nand[k.block] != [] && s.nand[k.block][0] == x
  }

  /** A request that completes is the first of those it conflicts with. */
  lemma FinishesFirst(s: State, x: nat, y: nat, pages: nat)
    requires Ok(s, pages, None) && Ordered(s) && x in s.reqs && y in s.reqs && x != y && First(s, x) && Front(s, x)
    requires Conflict(s.reqs[x], s.reqs[y])
    ensures s.reqs[x].num < s.reqs[y].num
  {
    hide GenOk, CountsOk, LogsOk, RxFirst;
    if s.reqs[x].buf.Some? && s.reqs[x].buf == s.reqs[y].buf {
      var k := s.reqs[x].buf.value;
      assert ChainOk(s, k) && Heads(s, y, None);
      var i :| 0 <= i < |s.chains[k]| && s.chains[k][i] == y;
      assert s.reqs[s.chains[k][0]].num < s.reqs[s.chains[k][i]].num;
    } else {
      var b := s.reqs[x].kind.block;
      assert Ahead(s, b, 0, y) && Clash(s.reqs[y].kind, s.reqs[x].kind);
    }
  }

  lemma CompletedQueued(s: State, x: nat)
    requires Queued(s) && x in s.reqs && InRange(s, s.reqs[x].kind) && First(s, x) && Front(s, x)
    requires s.reqs[x].loc.Active?
    ensures Queued(Completed(s, x))
  {
    var t, k := Completed(s, x), s.reqs[x].kind;
    forall b, i | 0 <= b < |t.nand| && 0 <= i < |t.nand[b]|
      ensures t.nand[b][i] in s.reqs && t.nand[b][i] != x && t.nand[b][i] in s.nand[b]
    {
      assert t.nand[b][i] == s.nand[b][if Nand(k) && k.block == b then i + 1 else i];
    }
    forall y | y in t.reqs && t.reqs[y].loc.Active? && Nand(t.reqs[y].kind) ensures y in t.nand[t.reqs[y].kind.block] {
      var q := s.nand[s.reqs[y].kind.block];
      var i :| 0 <= i < |q| && q[i] == y;
      if Nand(k) && k.block == s.reqs[y].kind.block {
        assert q[1..][i - 1] == y;
      }
    }
  }

  lemma CompletedAhead(s: State, x: nat, b: nat, j: nat, y: nat)
    requires Queued(s) && Ordered(s) && x in s.reqs && InRange(s, s.reqs[x].kind) && First(s, x) && Front(s, x)
    requires var t := Completed(s, x); b < |t.nand| && j < |t.nand[b]| && y in t.reqs && t.nand[b][j] in t.reqs
    ensures Ahead(Completed(s, x), b, j, y)
  {
    var t, k := Completed(s, x), s.reqs[x].kind;
    if Nand(k) && k.block == b {
      assert t.nand[b][j] == s.nand[b][j + 1] && Ahead(s, b, j + 1, y);
      if y in s.nand[b][..j + 1] {
        var i :| 0 <= i < j + 1 && s.nand[b][i] == y;
        assert t.nand[b][..j][i - 1] == y;
      }
    } else {
      assert Ahead(s, b, j, y);
    }
  }

  lemma HistoryMore(s: State, x: nat, t: State)
    requires History(s) && x in s.reqs && s.reqs[x].num < s.clock && Distinct(s)
    requires t.reqs == s.reqs - {x} && t.done == s.done + [s.reqs[x]] && t.clock == s.clock
    requires forall y :: y in s.reqs && y != x && Conflict(s.reqs[x], s.reqs[y]) ==> s.reqs[x].num < s.reqs[y].num
    ensures History(t)
  {
    hide Conflict;
    assert t.reqs.Keys == s.reqs.Keys - {x} && |t.reqs| == |t.reqs.Keys|;
    assert forall i :: 0 <= i < |t.done| ==> t.done[i] == if i < |s.done| then s.done[i] else s.reqs[x];
  }

  lemma CompletedHistory(s: State, x: nat, pages: nat)
    requires Ok(s, pages, None) && InSeries(s) && x in s.reqs && InRange(s, s.reqs[x].kind) && First(s, x)
    requires Front(s, x)
    ensures History(Completed(s, x))
  {
    hide GenOk, CountsOk, LogsOk, RxFirst, Heads, ChainOk, Queued, Ordered, Front, Conflict, History, Distinct;
    assert ReqOk(s, x);
    forall y | y in s.reqs && y != x && Conflict(s.reqs[x], s.reqs[y]) ensures s.reqs[x].num < s.reqs[y].num {
      FinishesFirst(s, x, y, pages);
    }
    HistoryMore(s, x, Completed(s, x));
  }

  lemma CompleteInSeries(s: State, x: nat, pages: nat)
    requires Ok(s, pages, None) && InSeries(s) && x in s.reqs && InRange(s, s.reqs[x].kind) && First(s, x)
    requires Front(s, x)
    requires s.reqs[x].loc.Active?
    ensures InSeries(Completed(s, x))
  {
    hide Ok, Queued, Ahead, History, Front;
    CompletedQueued(s, x);
    CompletedHistory(s, x, pages);
    var t := Completed(s, x);
    forall b, j, y | 0 <= b < |t.nand| && 0 <= j < |t.nand[b]| && y in t.reqs && t.nand[b][j] in t.reqs
      ensures Ahead(t, b, j, y)
    {
      CompletedAhead(s, x, b, j, y);
    }
  }

  lemma SubmittedHistory(s: State, x: nat, r: Req, t: State)
    requires History(s) && x !in s.reqs && r.num == s.clock && t.reqs == s.reqs[x := r] && t.done == s.done
    requires t.clock == s.clock + 1
    ensures History(t)
  {
    hide Conflict;
    assert t.reqs.Keys == s.reqs.Keys + {x} && |t.reqs| == |t.reqs.Keys|;
  }

  lemma SubmittedQueued(s: State, x: nat, r: Req, t: State)
    requires Queued(s) && x !in s.reqs && !r.loc.Active? && t.reqs == s.reqs[x := r] && t.nand == s.nand
    requires t.rows == s.rows
    ensures Queued(t)
  {
  }

  lemma SubmittedAhead(s: State, x: nat, r: Req, t: State)
    requires Ordered(s) && x !in s.reqs && t.reqs == s.reqs[x := r] && t.nand == s.nand
    requires forall y :: y in s.reqs ==> s.reqs[y].num < r.num
    requires forall b, j :: 0 <= b < |s.nand| && 0 <= j < |s.nand[b]| ==> s.nand[b][j] in s.reqs
    ensures Ordered(t)
  {
    forall b, j, y | 0 <= b < |t.nand| && 0 <= j < |t.nand[b]| && y in t.reqs && t.nand[b][j] in t.reqs
      ensures Ahead(t, b, j, y)
    {
      assert y != x ==> Ahead(s, b, j, y);
    }
  }

  lemma SubmitInSeries(s: State, x: nat, k: Kind, buf: Option<nat>, pages: nat)
    requires Ok(s, pages, None) && InSeries(s) && CanSubmit(s, x, k, buf, pages)
    ensures InSeries(Submitted(s, x, k, buf))
  {
    forall y | y in s.reqs ensures s.reqs[y].num < s.clock {
      assert ReqOk(s, y);
    }
    hide Ok, Submitted, CanSubmit, History, Ordered;
    SubmitFresh(s, x, k, buf, pages);
    SubmittedFields(s, x, k, buf);
    var t, r := Submitted(s, x, k, buf), Req(s.clock, k, buf, InHand);
    SubmittedQueued(s, x, r, t);
    SubmittedAhead(s, x, r, t);
    SubmittedHistory(s, x, r, t);
  }

  // ---- what the requests do ----

  /** Buffer contents, flash pages, and what the host has been sent by each request. */
  datatype Mem<D> = Mem(bufs: imap<nat, D>, flash: imap<(nat, nat), D>, sent: imap<nat, D>)

  ghost predicate Total<D>(m: Mem<D>) {
    && (forall k: nat :: k in m.bufs) && (forall k: nat :: k in m.sent)
    && (forall b: nat, p: nat :: (b, p) in m.flash)
  }

  /** What a request does to the contents. A host DMA sends the buffer and leaves what `fill` makes of
      it: the received blocks laid over it, or the buffer as it was. */
  ghost function Effect<D>(m: Mem<D>, r: Req, fill: (nat, D) -> D, blank: D): (n: Mem<D>)
    requires Total(m)
    ensures Total(n)
  {
    if r.kind.Erase? then
      m.(flash := imap q: (nat, nat) | true :: if q.0 == r.kind.block then blank else m.flash[q])
    else if r.buf.None? then m
    else
      var k := r.buf.value;
      match r.kind
      case Read(b, p) => m.(bufs := m.bufs[k := m.flash[(b, p)]])
      case Write(b, p) => m.(flash := m.flash[(b, p) := m.bufs[k]])
      case Erase(_, _) => m
      case Dma => Hosted(m, r.num, k, fill)
      case RxDma(_) => Hosted(m, r.num, k, fill)
      case TxDma(_) => Hosted(m, r.num, k, fill)
  }

  ghost function Hosted<D>(m: Mem<D>, num: nat, k: nat, fill: (nat, D) -> D): (n: Mem<D>)
    requires Total(m)
    ensures Total(n)
  {
    m.(bufs := m.bufs[k := fill(num, m.bufs[k])], sent := m.sent[num := m.bufs[k]])
  }

  lemma CommuteErase<D>(m: Mem<D>, a: Req, b: Req, fill: (nat, D) -> D, blank: D)
    requires Total(m) && !Conflict(a, b) && a.kind.Erase?
    ensures Effect(Effect(m, a, fill, blank), b, fill, blank) == Effect(Effect(m, b, fill, blank), a, fill, blank)
  {
    var x := Effect(Effect(m, a, fill, blank), b, fill, blank);
    var y := Effect(Effect(m, b, fill, blank), a, fill, blank);
    assert x.flash == y.flash;
  }

  lemma CommuteRead<D>(m: Mem<D>, a: Req, b: Req, fill: (nat, D) -> D, blank: D)
    requires Total(m) && !Conflict(a, b) && a.kind.Read? && !b.kind.Erase?
    ensures Effect(Effect(m, a, fill, blank), b, fill, blank) == Effect(Effect(m, b, fill, blank), a, fill, blank)
  {
    var x := Effect(Effect(m, a, fill, blank), b, fill, blank);
    var y := Effect(Effect(m, b, fill, blank), a, fill, blank);
    assert x.bufs == y.bufs;
  }

  lemma CommuteWrite<D>(m: Mem<D>, a: Req, b: Req, fill: (nat, D) -> D, blank: D)
    requires Total(m) && !Conflict(a, b) && a.kind.Write? && !b.kind.Erase? && !b.kind.Read?
    ensures Effect(Effect(m, a, fill, blank), b, fill, blank) == Effect(Effect(m, b, fill, blank), a, fill, blank)
  {
    var x := Effect(Effect(m, a, fill, blank), b, fill, blank);
    var y := Effect(Effect(m, b, fill, blank), a, fill, blank);
    assert x.flash == y.flash;
  }

  lemma CommuteHost<D>(m: Mem<D>, a: Req, b: Req, fill: (nat, D) -> D, blank: D)
    requires Total(m) && !Conflict(a, b) && !Nand(a.kind) && !Nand(b.kind) && a.num != b.num
    ensures Effect(Effect(m, a, fill, blank), b, fill, blank) == Effect(Effect(m, b, fill, blank), a, fill, blank)
  {
    var x := Effect(Effect(m, a, fill, blank), b, fill, blank);
    var y := Effect(Effect(m, b, fill, blank), a, fill, blank);
    assert x.bufs == y.bufs;
    assert x.sent == y.sent;
  }

  /** Requests that do not conflict may change places. */
  lemma Commute<D>(m: Mem<D>, a: Req, b: Req, fill: (nat, D) -> D, blank: D)
    requires Total(m) && !Conflict(a, b) && a.num != b.num
    ensures Effect(Effect(m, a, fill, blank), b, fill, blank) == Effect(Effect(m, b, fill, blank), a, fill, blank)
  {
    hide Effect;
    if a.kind.Erase? {
      CommuteErase(m, a, b, fill, blank);
    } else if b.kind.Erase? {
      CommuteErase(m, b, a, fill, blank);
    } else if a.kind.Read? {
      CommuteRead(m, a, b, fill, blank);
    } else if b.kind.Read? {
      CommuteRead(m, b, a, fill, blank);
    } else if a.kind.Write? {
      CommuteWrite(m, a, b, fill, blank);
    } else if b.kind.Write? {
      CommuteWrite(m, b, a, fill, blank);
    } else {
      CommuteHost(m, a, b, fill, blank);
    }
  }

  ghost function Play<D>(m: Mem<D>, rs: seq<Req>, fill: (nat, D) -> D, blank: D): (n: Mem<D>)
    requires Total(m)
    ensures Total(n)
  {
    if rs == [] then m else Effect(Play(m, rs[..|rs|-1], fill, blank), rs[|rs|-1], fill, blank)
  }

  ghost function Insert(rs: seq<Req>, r: Req): (t: seq<Req>)
    ensures |t| == |rs| + 1 && forall d :: d in t <==> d in rs || d == r
  {
    if rs == [] || rs[|rs|-1].num <= r.num then rs + [r]
    else
      assert rs == rs[..|rs|-1] + [rs[|rs|-1]];
      Insert(rs[..|rs|-1], r) + [rs[|rs|-1]]
  }

  /** The requests by submission number. */
  ghost function InOrder(rs: seq<Req>): (t: seq<Req>)
    ensures |t| == |rs| && forall d :: d in t <==> d in rs
  {
    if rs == [] then []
    else
      assert rs == rs[..|rs|-1] + [rs[|rs|-1]];
      Insert(InOrder(rs[..|rs|-1]), rs[|rs|-1])
  }

  lemma {:induction false} InsertPlays<D>(m: Mem<D>, rs: seq<Req>, r: Req, fill: (nat, D) -> D, blank: D)
    requires Total(m) && forall d :: d in rs && d.num > r.num ==> !Conflict(d, r)
    ensures Play(m, Insert(rs, r), fill, blank) == Effect(Play(m, rs, fill, blank), r, fill, blank)
    decreases |rs|
  {
    if rs == [] || rs[|rs|-1].num <= r.num {
      assert (rs + [r])[..|rs|] == rs;
    } else {
      var front, last := rs[..|rs|-1], rs[|rs|-1];
      InsertPlays(m, front, r, fill, blank);
      assert (Insert(front, r) + [last])[..|rs|] == Insert(front, r);
      Commute(Play(m, front, fill, blank), r, last, fill, blank);
    }
  }

  /** If conflicting requests keep their order, playing them as they come is playing them in order. */
  lemma {:induction false} InOrderPlays<D>(m: Mem<D>, rs: seq<Req>, fill: (nat, D) -> D, blank: D)
    requires Total(m) && forall i, j :: 0 <= i < j < |rs| && Conflict(rs[i], rs[j]) ==> rs[i].num < rs[j].num
    ensures Play(m, rs, fill, blank) == Play(m, InOrder(rs), fill, blank)
    decreases |rs|
  {
    if rs != [] {
      var front, r := rs[..|rs|-1], rs[|rs|-1];
      InOrderPlays(m, front, fill, blank);
      forall d | d in InOrder(front) && d.num > r.num ensures !Conflict(d, r) {
        var i :| 0 <= i < |front| && front[i] == d;
        assert rs[i] == d;
      }
      InsertPlays(m, InOrder(front), r, fill, blank);
    }
  }

  ghost predicate Increases(rs: seq<Req>) {
    forall i, j :: 0 <= i < j < |rs| ==> rs[i].num < rs[j].num
  }

  lemma {:induction false} InsertSorts(rs: seq<Req>, r: Req)
    requires Increases(rs) && forall d :: d in rs ==> d.num != r.num
    ensures Increases(Insert(rs, r))
    decreases |rs|
  {
    if !(rs == [] || rs[|rs|-1].num <= r.num) {
      var front, last := rs[..|rs|-1], rs[|rs|-1];
      InsertSorts(front, r);
      forall d | d in Insert(front, r) ensures d.num < last.num {
        assert d in front || d == r;
      }
    }
  }

  lemma {:induction false} InOrderSorts(rs: seq<Req>)
    requires forall i, j :: 0 <= i < j < |rs| ==> rs[i].num != rs[j].num
    ensures Increases(InOrder(rs))
    decreases |rs|
  {
    if rs != [] {
      InOrderSorts(rs[..|rs|-1]);
      InsertSorts(InOrder(rs[..|rs|-1]), rs[|rs|-1]);
    }
  }

  lemma {:induction false} AtLeastIndex(rs: seq<Req>, i: nat)
    requires Increases(rs) && i < |rs|
    ensures i <= rs[i].num
    decreases i
  {
    if i > 0 {
      AtLeastIndex(rs, i - 1);
    }
  }

  lemma {:induction false} AtMostIndex(rs: seq<Req>, i: nat)
    requires Increases(rs) && i < |rs| && rs[|rs|-1].num < |rs|
    ensures rs[i].num <= i
    decreases |rs| - i
  {
    if i + 1 < |rs| {
      AtMostIndex(rs, i + 1);
    }
  }

  /** Completion order has the same effect as submission order. When nothing is live, the requests
      played are all that were ever submitted, number 0 first. */
  lemma Serializable<D>(s: State, m: Mem<D>, fill: (nat, D) -> D, blank: D)
    requires History(s) && Total(m)
    ensures Play(m, s.done, fill, blank) == Play(m, InOrder(s.done), fill, blank) && Increases(InOrder(s.done))
    ensures s.reqs == map[] ==> |InOrder(s.done)| == s.clock && forall i :: 0 <= i < s.clock ==>
            InOrder(s.done)[i].num == i
  {
    hide Conflict, InOrder, Play;
    InOrderPlays(m, s.done, fill, blank);
    InOrderSorts(s.done);
    if s.reqs == map[] {
      var t := InOrder(s.done);
      forall d | d in t ensures d.num < s.clock {
        assert d in s.done;
      }
      forall i | 0 <= i < s.clock ensures t[i].num == i {
        AtLeastIndex(t, i);
        AtMostIndex(t, i);
      }
    }
  }
}
