/** The NAND scheduler of one channel: seven lists of ways on shared links and the state of every
    die. What the hardware answers, and which requests are released meanwhile, are inputs. */
module Ways {
  import opened Basics
  import opened Links
  import opened Sets
  import opened Polling

  const IDLE: nat := 0
  const STATUS_REPORT: nat := 1
  const READ_TRIGGER: nat := 2
  const ERASE: nat := 3
  const WRITE: nat := 4
  const READ_TRANSFER: nat := 5
  const STATUS_CHECK: nat := 6
  const LISTS: nat := 7

  /** What meets a way of the status report list when it is visited: whether it is ready, what it answers,
      what its row-blocked queue releases if its request queue has become empty, and what reaches the
      queues of all ways when its request completes. */
  datatype Visit = Visit(ready: bool, answer: Answer, released: seq<Code>, arrivals: seq<seq<Code>>)

  /** What a scan reads of the dies. */
  datatype DieStates = DieStates(opts: seq<CheckOpt>, retries: seq<nat>, queues: seq<seq<Code>>, exes: seq<bool>)

  /** One entry of each for every way. */
  ghost predicate Level(d: DieStates) {
    |d.opts| == |d.retries| == |d.queues| == |d.exes|
  }

  function WayOf(d: DieStates, w: nat): (r: Way)
    requires w < |d.queues| && w < |d.exes| && w < |d.opts| && w < |d.retries|
  {
    Way(d.queues[w], d.exes[w], d.opts[w], d.retries[w])
  }

  /** Every way gets from the one to the other by steps of its own. */
  ghost predicate AllGo(a: DieStates, b: DieStates) {
    && Level(a) && Level(b) && |a.queues| == |b.queues|
    && forall w :: 0 <= w < |a.queues| ==> Goes(WayOf(a, w), WayOf(b, w))
  }

  lemma AllStay(a: DieStates)
    requires Level(a)
    ensures AllGo(a, a)
  {
    hide Goes;
    forall w | 0 <= w < |a.queues| ensures Goes(WayOf(a, w), WayOf(a, w)) {
      GoesNowhere(WayOf(a, w));
    }
  }

  lemma AllGoTwice(a: DieStates, b: DieStates, c: DieStates)
    requires AllGo(a, b) && AllGo(b, c)
    ensures AllGo(a, c)
  {
    hide Goes;
    forall w | 0 <= w < |a.queues| ensures Goes(WayOf(a, w), WayOf(c, w)) {
      GoesTwice(WayOf(a, w), WayOf(b, w), WayOf(c, w));
    }
  }

  /** One way takes a step, the others stay as they are. */
  lemma OneSteps(a: DieStates, b: DieStates, w: nat, e: Step)
    requires Level(a) && Level(b) && |a.queues| == |b.queues| && w < |a.queues|
    requires CanStep(WayOf(a, w), e) && WayOf(b, w) == Stepped(WayOf(a, w), e)
    requires forall v :: 0 <= v < |a.queues| && v != w ==> WayOf(b, v) == WayOf(a, v)
    ensures AllGo(a, b)
  {
    hide Goes, Stepped;
    forall v | 0 <= v < |a.queues| ensures Goes(WayOf(a, v), WayOf(b, v)) {
      if v == w {
        GoesOne(WayOf(a, w), e);
      } else {
        GoesNowhere(WayOf(a, v));
      }
    }
  }

  lemma Gains(a: DieStates, b: DieStates, w: nat, more: seq<Code>)
    requires Level(a) && w < |a.queues| == |b.queues|
    requires b == a.(queues := b.queues) && b.queues[w] == a.queues[w] + more
    requires forall v :: 0 <= v < |a.queues| && v != w ==> b.queues[v] == a.queues[v]
    ensures AllGo(a, b)
  {
    OneSteps(a, b, w, More(more));
  }

  /** Requests arrive at all ways. */
  lemma AllGain(a: DieStates, b: DieStates, more: seq<seq<Code>>)
    requires Level(a) && Level(b) && |a.queues| == |b.queues| == |more|
    requires forall v :: 0 <= v < |a.queues| ==> WayOf(b, v) == WayOf(a, v).(queue := a.queues[v] + more[v])
    ensures AllGo(a, b)
  {
    hide Goes;
    forall v | 0 <= v < |a.queues| ensures Goes(WayOf(a, v), WayOf(b, v)) {
      GoesOne(WayOf(a, v), More(more[v]));
    }
  }

  function ListFor(c: Code): (k: nat)
    ensures READ_TRIGGER <= k <= READ_TRANSFER && Heading(k, c)
  {
    match c
    case Read => READ_TRIGGER
    case ReadTransfer => READ_TRANSFER
    case Write => WRITE
    case Erase => ERASE
    case Reset => WRITE
    case SetFeature => WRITE
  }

  /** A way of the status report list that a scan leaves where it is. */
  predicate Stays(at: Visit, opt: CheckOpt) {
    !at.ready || (StatusOf(opt, at.answer).Running? && !NextOpt(opt, at.answer).Check?)
  }

  /** What a way on list k looks like: an idle or waiting die is not executing, a waiting one has a
      request of the list's kind at the head of its queue, one being checked is executing. */
  ghost predicate Fitting(k: nat, exe: bool, opt: CheckOpt, queue: seq<Code>) {
    if k == IDLE then !exe
    else if k == STATUS_REPORT then exe && queue != [] && !opt.Check?
    else if k == STATUS_CHECK then exe && queue != [] && (opt.Check? || opt.NoCheck?)
    else !exe && queue != [] && Heading(k, queue[0])
  }

  /** Which requests stand at the head of the queues of the ways on an action list. */
  predicate Heading(k: nat, c: Code) {
    || (k == READ_TRIGGER && c.Read?)
    || (k == ERASE && c.Erase?)
    || (k == WRITE && (c.Write? || c.Reset? || c.SetFeature?))
    || (k == READ_TRANSFER && c.ReadTransfer?)
  }

  ghost predicate Different(s: seq<nat>) {
    forall i, j :: 0 <= i < j < |s| ==> s[i] != s[j]
  }

  /** The operation of a way with this option is found over. */
  predicate Finds(at: Visit, opt: CheckOpt) {
    at.ready && !StatusOf(opt, at.answer).Running?
  }

  /** All queues with what has arrived for them. */
  function Joined(qs: seq<seq<Code>>, more: seq<seq<Code>>): (r: seq<seq<Code>>) {
    seq(|qs|, v requires 0 <= v < |qs| => qs[v] + (if v < |more| then more[v] else []))
  }

  /** The queues after way w has been visited. */
  function Polled(qs: seq<seq<Code>>, w: nat, retry: nat, opt: CheckOpt, at: Visit): (r: seq<seq<Code>>) {
    if w >= |qs| || qs[w] == [] || !Finds(at, opt) then qs
    else
      var s := StatusOf(opt, at.answer);
      var rest := qs[w := Over(qs[w], retry, s)];
      var met := if Leaves(qs[w][0], retry, s) then Joined(rest, at.arrivals) else rest;
      if met[w] == [] then met[w := at.released] else met
  }

  lemma PolledIs(qs: seq<seq<Code>>, w: nat, retry: nat, opt: CheckOpt, at: Visit, r: seq<seq<Code>>)
    requires w < |qs| == |r| == |at.arrivals| && qs[w] != [] && Finds(at, opt)
    requires var s := StatusOf(opt, at.answer);
             var more := if Leaves(qs[w][0], retry, s) then at.arrivals else seq(|qs|, _ => []);
             var mine := Over(qs[w], retry, s) + more[w];
             && r[w] == (if mine == [] then at.released else mine)
             && forall v :: 0 <= v < |qs| && v != w ==> r[v] == qs[v] + more[v]
    ensures r == Polled(qs, w, retry, opt, at)
  {
    var s := StatusOf(opt, at.answer);
    var rest := qs[w := Over(qs[w], retry, s)];
    hide Over, StatusOf;
    assert Leaves(qs[w][0], retry, s) ==> Joined(rest, at.arrivals)[w] == rest[w] + at.arrivals[w];
    assert rest[w] + [] == rest[w] && forall v :: 0 <= v < |qs| ==> qs[v] + [] == qs[v];
  }

  /** A visit of way w takes it through a status check that ends its operation if it is over; what its end lets
      go on arrives, and what its row-blocked queue releases if nothing is left. */
  lemma PollGoes(a: DieStates, b: DieStates, w: nat, at: Visit)
    requires Level(a) && w < |a.queues| == |at.arrivals| && a.exes[w] && a.queues[w] != [] && at.ready
    requires b.opts == a.opts[w := NextOpt(a.opts[w], at.answer)]
    requires b.exes == a.exes[w := StatusOf(a.opts[w], at.answer).Running?]
    requires b.retries == a.retries[w := RetryNow(a.opts[w], at.answer, a.queues[w][0], a.retries[w])]
    requires b.queues == Polled(a.queues, w, a.retries[w], a.opts[w], at)
    ensures AllGo(a, b)
  {
    var s, q := StatusOf(a.opts[w], at.answer), a.queues[w];
    if s.Running? {
      OneSteps(a, b, w, Poll(at.answer));
    } else {
      var ended := b.(queues := a.queues[w := Over(q, a.retries[w], s)]);
      OneSteps(a, ended, w, Poll(at.answer));
      var met := ended;
      hide AllGo, Over, StatusOf, NextOpt, Stepped;
      if Leaves(q[0], a.retries[w], s) {
        met := ended.(queues := Joined(ended.queues, at.arrivals));
        AllGain(ended, met, at.arrivals);
      } else {
        AllStay(ended);
      }
      AllGoTwice(a, ended, met);
      Gains(met, b, w, if met.queues[w] == [] then at.released else []);
      AllGoTwice(a, met, b);
    }
  }

  /** The retries left after a status check. */
  function RetryNow(opt: CheckOpt, a: Answer, c: Code, retry: nat): (r: nat) {
    if StatusOf(opt, a).Running? then retry else RetryAfter(c, retry, StatusOf(opt, a))
  }

  ghost predicate Covered(s: seq<nat>, visits: seq<Visit>, dies: DieStates) {
    && |visits| == |dies.opts| == |dies.retries| == |dies.queues|
    && forall i :: 0 <= i < |s| ==> s[i] < |visits|
  }

  /** The ways of a list that a scan leaves where they are. */
  ghost function Kept(s: seq<nat>, visits: seq<Visit>, dies: DieStates): (r: seq<nat>)
    requires Covered(s, visits, dies)
    ensures |r| <= |s| && forall i :: 0 <= i < |r| ==> r[i] in s
  {
    if s == [] then []
    else
      var w := s[|s|-1];
      Kept(s[..|s|-1], visits, dies) + (if Stays(visits[w], dies.opts[w]) then [w] else [])
  }

  /** The queues after a scan of the list. */
  ghost function Reported(s: seq<nat>, visits: seq<Visit>, dies: DieStates): (r: seq<seq<Code>>)
    requires Covered(s, visits, dies)
    ensures |r| == |dies.queues|
  {
    if s == [] then dies.queues
    else
      var w := s[|s|-1];
      Polled(Reported(s[..|s|-1], visits, dies), w, dies.retries[w], dies.opts[w], visits[w])
  }

  /** The scan leaves a way where it is when it is not ready, or its operation is still running and there is
      nothing to ask again: no report yet, no completion flag, not ready. The ways that stay keep their order. */
  lemma {:induction false} KeptTells(s: seq<nat>, visits: seq<Visit>, dies: DieStates, w: nat)
    requires Covered(s, visits, dies) && w < |visits|
    ensures w in Kept(s, visits, dies) <==>
            && w in s
            && var a := visits[w].answer;
               !visits[w].ready || match dies.opts[w]
                                   case NoCheck => !a.ready
                                   case Check => true
                                   case Report => !a.reported
                                   case CompletionFlag => !a.transferComplete
    decreases |s|
  {
    if s != [] {
      KeptTells(s[..|s|-1], visits, dies, w);
      assert s == s[..|s|-1] + [s[|s|-1]];
    }
  }

  /** The visit finds an operation over after which its request leaves the queue. */
  predicate Drops(at: Visit, opt: CheckOpt, c: Code, retry: nat) {
    var s := StatusOf(opt, at.answer);
    && at.ready
    && (s.Warning? || (s.Done? && !c.Read?) || (s.Fail? && (retry == 0 || !(c.Read? || c.ReadTransfer?))))
  }

  /** What a visit leaves of a queue, with nothing added. */
  function Remains(at: Visit, opt: CheckOpt, q: seq<Code>, retry: nat): (r: seq<Code>)
    requires q != []
  {
    var s := StatusOf(opt, at.answer);
    if !at.ready || s.Running? then q
    else if Drops(at, opt, q[0], retry) then q[1..]
    else if s.Done? then [ReadTransfer] + q[1..]
    else [Read] + q[1..]
  }

  /** What arrives for way v while the list is scanned, in order: whatever the requests that leave let go on. */
  ghost function Sent(s: seq<nat>, visits: seq<Visit>, dies: DieStates, v: nat): (r: seq<Code>)
    requires Scannable(s, visits, dies) && v < |visits|
  {
    if s == [] then []
    else
      var w := s[|s|-1];
      Sent(s[..|s|-1], visits, dies, v)
        + if Drops(visits[w], dies.opts[w], dies.queues[w][0], dies.retries[w]) then visits[w].arrivals[v] else []
  }

  /** Every way of the list has a request, and what its end lets go on is told for every way. */
  ghost predicate Scannable(s: seq<nat>, visits: seq<Visit>, dies: DieStates) {
    && Covered(s, visits, dies) && Different(s)
    && (forall i :: 0 <= i < |s| ==> dies.queues[s[i]] != [])
    && forall w :: 0 <= w < |visits| ==> |visits[w].arrivals| == |visits|
  }

  /** What a visit of way w, whose queue was q and has gained x since, makes of all queues. */
  lemma PolledAt(qs: seq<seq<Code>>, w: nat, retry: nat, opt: CheckOpt, at: Visit, v: nat, q: seq<Code>, x: seq<Code>)
    requires v < |qs| && w < |qs| == |at.arrivals| && q != [] && qs[w] == q + x
    ensures var more := if Drops(at, opt, q[0], retry) then at.arrivals[v] else [];
            Polled(qs, w, retry, opt, at)[v] ==
              if v != w then qs[v] + more else Settled(at, opt, Remains(at, opt, q, retry) + (x + more))
  {
    EndsSo(at, opt, q, x, retry);
    hide Over, Leaves, Remains, Drops, StatusOf;
    assert qs[w][0] == q[0];
    if Finds(at, opt) && Drops(at, opt, q[0], retry) {
      var rest := qs[w := Over(qs[w], retry, StatusOf(opt, at.answer))];
      assert Joined(rest, at.arrivals)[v] == rest[v] + at.arrivals[v];
      assert Joined(rest, at.arrivals)[w] == rest[w] + at.arrivals[w];
    }
  }

  /** What the end of an operation leaves of the queue q with x behind it. */
  lemma EndsSo(at: Visit, opt: CheckOpt, q: seq<Code>, x: seq<Code>, retry: nat)
    requires q != []
    ensures !Finds(at, opt) ==> !Drops(at, opt, q[0], retry) && Remains(at, opt, q, retry) == q
    ensures Finds(at, opt) ==>
              var s := StatusOf(opt, at.answer);
              && (Leaves(q[0], retry, s) <==> Drops(at, opt, q[0], retry))
              && Over(q + x, retry, s) == Remains(at, opt, q, retry) + x
  {
    var s, all := StatusOf(opt, at.answer), q + x;
    if Finds(at, opt) {
      hide StatusOf, Over;
      OverIs(all, retry, s);
      Split(q, x, ReadTransfer);
      Split(q, x, Read);
    }
  }

  lemma Split(q: seq<Code>, x: seq<Code>, c: Code)
    requires q != []
    ensures (q + x)[0] == q[0] && (q + x)[1..] == q[1..] + x && [c] + (q + x)[1..] == ([c] + q[1..]) + x
  {
  }

  /** If the operation was found over and nothing is left, what the row-blocked queue releases. */
  function Settled(at: Visit, opt: CheckOpt, mine: seq<Code>): (r: seq<Code>) {
    if at.ready && !StatusOf(opt, at.answer).Running? && mine == [] then at.released else mine
  }

  lemma ScannablePart(a: seq<nat>, b: seq<nat>, visits: seq<Visit>, dies: DieStates)
    requires Scannable(a + b, visits, dies)
    ensures Scannable(a, visits, dies) && Scannable(b, visits, dies)
    ensures |visits| == |dies.opts| == |dies.retries| == |dies.queues|
    ensures forall u :: u in b ==> u !in a && u < |visits| && dies.queues[u] != []
  {
    var s := a + b;
    assert forall i :: 0 <= i < |a| ==> s[i] == a[i];
    assert forall i :: 0 <= i < |b| ==> s[|a| + i] == b[i];
  }

  /** What the end of the request of way w lets go on to way v, if it leaves. */
  ghost function Lets(w: nat, visits: seq<Visit>, dies: DieStates, v: nat): (r: seq<Code>)
    requires w < |visits| == |dies.opts| == |dies.retries| == |dies.queues| && v < |visits[w].arrivals|
    requires dies.queues[w] != []
  {
    if Drops(visits[w], dies.opts[w], dies.queues[w][0], dies.retries[w]) then visits[w].arrivals[v] else []
  }

  /** One more visit, of a way whose queue has gained x by then. */
  lemma OneMoreVisit(s: seq<nat>, w: nat, visits: seq<Visit>, dies: DieStates, v: nat, x: seq<Code>)
    requires Scannable(s, visits, dies) && Scannable(s + [w], visits, dies) && w < |visits| && v < |visits|
    requires dies.queues[w] != [] && Reported(s, visits, dies)[w] == dies.queues[w] + x
    ensures v != w ==> Reported(s + [w], visits, dies)[v] == Reported(s, visits, dies)[v] + Lets(w, visits, dies, v)
    ensures v == w ==>
              var at, opt, q, retry := visits[w], dies.opts[w], dies.queues[w], dies.retries[w];
              Reported(s + [w], visits, dies)[v] ==
              Settled(at, opt, Remains(at, opt, q, retry) + (x + Lets(w, visits, dies, v)))
  {
    assert (s + [w])[..|s|] == s;
    PolledAt(Reported(s, visits, dies), w, dies.retries[w], dies.opts[w], visits[w], v, dies.queues[w], x);
    hide Polled, Settled, Remains, Drops;
  }

  lemma SentMore(s: seq<nat>, w: nat, visits: seq<Visit>, dies: DieStates, v: nat)
    requires Scannable(s, visits, dies) && Scannable(s + [w], visits, dies) && w < |visits| && v < |visits|
    requires dies.queues[w] != []
    ensures Sent(s + [w], visits, dies, v) == Sent(s, visits, dies, v) + Lets(w, visits, dies, v)
    ensures Sent([], visits, dies, v) == []
  {
    assert (s + [w])[..|s|] == s;
  }

  /** As the scan goes on, a way it does not come to gains what arrives for it. */
  lemma {:induction false} GainsLater(s: seq<nat>, b: seq<nat>, visits: seq<Visit>, dies: DieStates, v: nat)
    requires Scannable(s + b, visits, dies) && v < |visits| && v !in b
    ensures Scannable(s, visits, dies) && Scannable(b, visits, dies)
    ensures Reported(s + b, visits, dies)[v] == Reported(s, visits, dies)[v] + Sent(b, visits, dies, v)
    decreases |s| + |b|, 0
  {
    hide Scannable, Reported, Lets, Sent;
    ScannablePart(s, b, visits, dies);
    if b == [] {
      assert s + b == s;
      NoneYet(visits, dies, v);
    } else {
      var n := |b| - 1;
      var c, u := b[..n], b[n];
      assert b == c + [u] && s + b == (s + c) + [u];
      ScannablePart(s + c, [u], visits, dies);
      ScannablePart(c, [u], visits, dies);
      GainsLater(s, c, visits, dies, v);
      Untouched(s + c, u, visits, dies);
      OneMoreVisit(s + c, u, visits, dies, v, Sent(s + c, visits, dies, u));
      SentMore(c, u, visits, dies, v);
    }
  }

  lemma NoneYet(visits: seq<Visit>, dies: DieStates, v: nat)
    requires Scannable([], visits, dies) && v < |visits|
    ensures Sent([], visits, dies, v) == [] && Reported([], visits, dies) == dies.queues
  {
  }

  /** A way the scan does not come to only gains. */
  lemma {:induction false} Untouched(s: seq<nat>, v: nat, visits: seq<Visit>, dies: DieStates)
    requires Scannable(s, visits, dies) && v < |visits| && v !in s
    ensures Reported(s, visits, dies)[v] == dies.queues[v] + Sent(s, visits, dies, v)
    decreases |s|, 1
  {
    hide Scannable, Reported, Sent;
    assert [] + s == s;
    ScannablePart([], s, visits, dies);
    NoneYet(visits, dies, v);
    GainsLater([], s, visits, dies, v);
  }

  /** What a visit makes of the queue of its own way: it loses what finished, with what has arrived by then. */
  lemma Visited(a: seq<nat>, v: nat, visits: seq<Visit>, dies: DieStates)
    requires Scannable(a + [v], visits, dies)
    ensures v < |visits| == |dies.opts| == |dies.retries| == |dies.queues| && dies.queues[v] != []
    ensures Reported(a + [v], visits, dies)[v] ==
            Settled(visits[v], dies.opts[v],
                    Remains(visits[v], dies.opts[v], dies.queues[v], dies.retries[v]) + Sent(a + [v], visits, dies, v))
  {
    hide Scannable, Reported, Lets, Sent, Settled, Remains;
    ScannablePart(a, [v], visits, dies);
    assert v in [v];
    Untouched(a, v, visits, dies);
    OneMoreVisit(a, v, visits, dies, v, Sent(a, visits, dies, v));
    SentMore(a, v, visits, dies, v);
  }

  /** What a scan makes of the queue of a way it visits, to the last request: the way loses what finished, with
      what has arrived by then; if nothing is left, what its row-blocked queue releases takes its place; and
      it gains what arrives later. */
  lemma NothingLost(a: seq<nat>, v: nat, b: seq<nat>, visits: seq<Visit>, dies: DieStates)
    requires Scannable(a + [v] + b, visits, dies)
    ensures Scannable(a + [v], visits, dies) && Scannable(b, visits, dies)
    ensures v < |visits| == |dies.opts| == |dies.retries| == |dies.queues| && dies.queues[v] != []
    ensures Reported(a + [v] + b, visits, dies)[v] ==
            Settled(visits[v], dies.opts[v],
                    Remains(visits[v], dies.opts[v], dies.queues[v], dies.retries[v]) + Sent(a + [v], visits, dies, v))
              + Sent(b, visits, dies, v)
  {
    hide Scannable, Reported, Sent, Settled, Remains;
    ScannablePart(a + [v], b, visits, dies);
    Visited(a, v, visits, dies);
    assert v in a + [v];
    GainsLater(a + [v], b, visits, dies, v);
  }

  lemma Splice(kept: seq<nat>, s: seq<nat>, v: nat)
    requires v < |s|
    ensures kept + s[v..] == (kept + [s[v]]) + s[v + 1..]
    ensures Without(kept + s[v..], |kept|) == kept + s[v + 1..]
  {
  }

  /** A scan at position v of a list has kept the ways it had to, left the rest alone, and dealt with the
      queues as far as it has come. */
  ghost predicate Halfway(now: seq<nat>, kept: seq<nat>, s: seq<nat>, v: nat, visits: seq<Visit>, was: DieStates,
                          cur: DieStates) {
    && Covered(s, visits, was) && Different(s) && v <= |s|
    && kept == Kept(s[..v], visits, was) && now == kept + s[v..]
    && |cur.opts| == |cur.retries| == |visits| && cur.queues == Reported(s[..v], visits, was)
    && forall i :: v <= i < |s| ==> cur.opts[s[i]] == was.opts[s[i]] && cur.retries[s[i]] == was.retries[s[i]]
  }

  lemma HalfwayStart(s: seq<nat>, visits: seq<Visit>, was: DieStates)
    requires Covered(s, visits, was) && Different(s)
    ensures Halfway(s, [], s, 0, visits, was, was)
  {
    assert s[..0] == [] && [] + s[0..] == s;
  }

  /** The options and retry counts of all ways but w are the same. */
  ghost predicate OnlyOf(w: nat, a: DieStates, b: DieStates) {
    && |a.opts| == |b.opts| && |a.retries| == |b.retries| && |a.opts| == |a.retries|
    && forall u :: 0 <= u < |a.opts| && u != w ==> b.opts[u] == a.opts[u] && b.retries[u] == a.retries[u]
  }

  lemma HalfwayAt(now: seq<nat>, kept: seq<nat>, s: seq<nat>, v: nat, visits: seq<Visit>, was: DieStates,
                  cur: DieStates)
    requires Halfway(now, kept, s, v, visits, was, cur) && |kept| < |now|
    ensures v < |s| && now[|kept|] == s[v] < |visits| == |cur.opts| == |cur.retries|
  {
  }

  lemma HalfwayOn(now: seq<nat>, kept: seq<nat>, s: seq<nat>, v: nat, visits: seq<Visit>, was: DieStates,
                  cur: DieStates, next: DieStates)
    requires Halfway(now, kept, s, v, visits, was, cur) && |kept| < |now| && v < |s|
    requires s[v] < |visits| == |cur.opts| == |cur.retries|
    requires OnlyOf(s[v], cur, next)
    requires next.queues == Polled(cur.queues, s[v], cur.retries[s[v]], cur.opts[s[v]], visits[s[v]])
    ensures if Stays(visits[s[v]], cur.opts[s[v]]) then Halfway(now, kept + [s[v]], s, v + 1, visits, was, next)
            else Halfway(Without(now, |kept|), kept, s, v + 1, visits, was, next)
  {
    hide Stays, Polled, Without;
    assert s[..v + 1][..v] == s[..v];
    Splice(kept, s, v);
  }

  lemma HalfwayEnd(now: seq<nat>, kept: seq<nat>, s: seq<nat>, v: nat, visits: seq<Visit>, was: DieStates,
                   cur: DieStates)
    requires Halfway(now, kept, s, v, visits, was, cur) && |kept| == |now|
    ensures Covered(s, visits, was) && now == Kept(s, visits, was) && cur.queues == Reported(s, visits, was)
  {
    assert s[..v] == s && kept + s[v..] == kept;
  }

  /** The queues after the scan of the idle ways: an empty one has what its row-blocked queue releases. */
  ghost function Woken(idle: seq<nat>, qs: seq<seq<Code>>, released: seq<seq<Code>>): (r: seq<seq<Code>>)
    requires |qs| == |released|
    ensures |r| == |qs|
  {
    seq(|qs|, w requires 0 <= w < |qs| => if w in idle && qs[w] == [] then released[w] else qs[w])
  }

  /** Nothing that is released is lost: every queue is as before, an empty one of an idle way with what its
      row-blocked queue releases. */
  lemma WokenIs(idle: seq<nat>, qs: seq<seq<Code>>, released: seq<seq<Code>>)
    requires |qs| == |released|
    ensures forall w :: 0 <= w < |qs| ==>
              Woken(idle, qs, released)[w] == qs[w] + if w in idle && qs[w] == [] then released[w] else []
  {
  }

  /** The queues after idle way w has been visited, and whether it then has something to do. */
  function Woke(qs: seq<seq<Code>>, w: nat, released: seq<Code>): (r: seq<seq<Code>>) {
    if w < |qs| && qs[w] == [] then qs[w := released] else qs
  }

  predicate Stirs(qs: seq<seq<Code>>, w: nat, released: seq<Code>) {
    w < |qs| && Woke(qs, w, released)[w] != []
  }

  /** The scan of the idle ways at position v of their list. */
  ghost predicate IdleHalfway(now: seq<nat>, kept: seq<nat>, s: seq<nat>, v: nat, was: seq<seq<Code>>,
                              released: seq<seq<Code>>, cur: seq<seq<Code>>) {
    && Different(s) && |was| == |released| && (forall i :: 0 <= i < |s| ==> s[i] < |was|) && v <= |s|
    && now == kept + s[v..] && cur == Woken(s[..v], was, released)
    && forall i :: 0 <= i < |kept| ==> kept[i] < |was| && was[kept[i]] == released[kept[i]] == []
  }

  lemma IdleStart(s: seq<nat>, was: seq<seq<Code>>, released: seq<seq<Code>>)
    requires Different(s) && |was| == |released| && forall i :: 0 <= i < |s| ==> s[i] < |was|
    ensures IdleHalfway(s, [], s, 0, was, released, was)
  {
    assert s[..0] == [] && [] + s[0..] == s;
  }

  lemma IdleAt(now: seq<nat>, kept: seq<nat>, s: seq<nat>, v: nat, was: seq<seq<Code>>, released: seq<seq<Code>>,
               cur: seq<seq<Code>>)
    requires IdleHalfway(now, kept, s, v, was, released, cur) && |kept| < |now|
    ensures v < |s| && now[|kept|] == s[v] < |released| == |cur|
  {
  }

  lemma IdleOn(now: seq<nat>, kept: seq<nat>, s: seq<nat>, v: nat, was: seq<seq<Code>>, released: seq<seq<Code>>,
               cur: seq<seq<Code>>, next: seq<seq<Code>>)
    requires IdleHalfway(now, kept, s, v, was, released, cur) && |kept| < |now|
    requires v < |s| && s[v] < |released| == |cur|
    requires next == Woke(cur, s[v], released[s[v]])
    ensures if Stirs(cur, s[v], released[s[v]])
              then IdleHalfway(Without(now, |kept|), kept, s, v + 1, was, released, next)
            else IdleHalfway(now, kept + [s[v]], s, v + 1, was, released, next)
  {
    WokenOn(s, v, was, released);
    hide Woken, Different, Without;
    Splice(kept, s, v);
  }

  lemma WokenOn(s: seq<nat>, v: nat, was: seq<seq<Code>>, released: seq<seq<Code>>)
    requires v < |s| && s[v] < |was| == |released| && Different(s)
    ensures var cur, w := Woken(s[..v], was, released), s[v];
            && Woken(s[..v + 1], was, released) == Woke(cur, w, released[w])
            && cur[w] == was[w]
  {
    var cur, w := Woken(s[..v], was, released), s[v];
    assert s[..v + 1] == s[..v] + [w] && w !in s[..v];
    var a, b := Woken(s[..v + 1], was, released), Woke(cur, w, released[w]);
    forall u | 0 <= u < |was| ensures a[u] == b[u] {
      assert u in s[..v + 1] <==> u in s[..v] || u == w;
    }
  }

  lemma IdleEnd(now: seq<nat>, kept: seq<nat>, s: seq<nat>, v: nat, was: seq<seq<Code>>, released: seq<seq<Code>>,
                cur: seq<seq<Code>>)
    requires IdleHalfway(now, kept, s, v, was, released, cur) && |kept| == |now|
    ensures |was| == |released| && cur == Woken(s, was, released)
    ensures forall i :: 0 <= i < |now| ==> now[i] < |was| && was[now[i]] == released[now[i]] == []
  {
    assert s[..v] == s && kept + s[v..] == kept;
  }

  /** Every list but one has only had ways added at its end. */
  ghost predicate Grown(a: seq<seq<nat>>, b: seq<seq<nat>>, but: nat) {
    |a| == |b| == LISTS && forall k :: 0 <= k < LISTS && k != but ==> a[k] <= b[k]
  }

  lemma GrownTwice(a: seq<seq<nat>>, b: seq<seq<nat>>, c: seq<seq<nat>>, but: nat)
    requires Grown(a, b, but) && Grown(b, c, but)
    ensures Grown(a, c, but)
  {
  }

  lemma GrownNot(a: seq<seq<nat>>, but: nat)
    requires |a| == LISTS
    ensures Grown(a, a, but)
  {
  }

  lemma GrownMove(a: seq<seq<nat>>, k: nat, s: seq<nat>, to: nat, w: nat)
    requires |a| == LISTS && k < LISTS && to < LISTS && k != to
    ensures Grown(a, a[k := s], k) && Grown(a, a[k := s][to := a[to] + [w]], k)
  {
  }

  /** The scan of the report list under way: from lists l0 and dies d0 it has come to lists l and dies d. */
  ghost predicate Midway(l0: seq<seq<nat>>, d0: DieStates, l: seq<seq<nat>>, d: DieStates, kept: seq<nat>, v: nat,
                         visits: seq<Visit>) {
    && Grown(l0, l, STATUS_REPORT) && AllGo(d0, d)
    && Halfway(l[STATUS_REPORT], kept, l0[STATUS_REPORT], v, visits, d0, d)
  }

  /** One visit of the scan: way w, at position i of the report list, stays there if it has to and leaves it
      otherwise; its operation ends if it is over; every other list only grows. */
  ghost predicate VisitedOne(w: nat, at: Visit, l: seq<seq<nat>>, d: DieStates, i: nat, l': seq<seq<nat>>,
                             d': DieStates) {
    && |l| == |l'| == LISTS && Level(d) && w < |d.queues|
    && Grown(l, l', STATUS_REPORT) && AllGo(d, d') && OnlyOf(w, d, d')
    && d'.queues == Polled(d.queues, w, d.retries[w], d.opts[w], at)
    && i < |l[STATUS_REPORT]|
    && l'[STATUS_REPORT] == if Stays(at, d.opts[w]) then l[STATUS_REPORT] else Without(l[STATUS_REPORT], i)
  }

  lemma MidwayStart(l: seq<seq<nat>>, d: DieStates, visits: seq<Visit>)
    requires |l| == LISTS && Level(d) && Scannable(l[STATUS_REPORT], visits, d)
    ensures Midway(l, d, l, d, [], 0, visits)
  {
    AllStay(d);
    HalfwayStart(l[STATUS_REPORT], visits, d);
  }

  lemma MidwayAt(l0: seq<seq<nat>>, d0: DieStates, l: seq<seq<nat>>, d: DieStates, kept: seq<nat>, v: nat,
                 visits: seq<Visit>)
    requires Midway(l0, d0, l, d, kept, v, visits) && |l| == LISTS && |kept| < |l[STATUS_REPORT]|
    ensures l[STATUS_REPORT][|kept|] < |visits|
  {
  }

  lemma MidwayOn(l0: seq<seq<nat>>, d0: DieStates, l: seq<seq<nat>>, d: DieStates, kept: seq<nat>, v: nat,
                 visits: seq<Visit>, w: nat, l': seq<seq<nat>>, d': DieStates)
    requires Midway(l0, d0, l, d, kept, v, visits) && |l| == LISTS && |kept| < |l[STATUS_REPORT]|
    requires w == l[STATUS_REPORT][|kept|] < |visits| && VisitedOne(w, visits[w], l, d, |kept|, l', d')
    ensures w < |d.opts|
    ensures Midway(l0, d0, l', d', if Stays(visits[w], d.opts[w]) then kept + [w] else kept, v + 1, visits)
  {
    hide Polled, Stays, Without, AllGo;
    HalfwayAt(l[STATUS_REPORT], kept, l0[STATUS_REPORT], v, visits, d0, d);
    HalfwayOn(l[STATUS_REPORT], kept, l0[STATUS_REPORT], v, visits, d0, d, d');
    GrownTwice(l0, l, l', STATUS_REPORT);
    AllGoTwice(d0, d, d');
  }

  lemma MidwayEnd(l0: seq<seq<nat>>, d0: DieStates, l: seq<seq<nat>>, d: DieStates, kept: seq<nat>, v: nat,
                  visits: seq<Visit>)
    requires Midway(l0, d0, l, d, kept, v, visits) && |l| == LISTS && |kept| == |l[STATUS_REPORT]|
    ensures Grown(l0, l, STATUS_REPORT) && AllGo(d0, d) && Covered(l0[STATUS_REPORT], visits, d0)
    ensures l[STATUS_REPORT] == Kept(l0[STATUS_REPORT], visits, d0)
    ensures d.queues == Reported(l0[STATUS_REPORT], visits, d0)
  {
    HalfwayEnd(l[STATUS_REPORT], kept, l0[STATUS_REPORT], v, visits, d0, d);
  }

  /** The way is neither idle nor waiting for a report. */
  ghost predicate Elsewhere(lists: seq<seq<nat>>, w: nat) {
    |lists| == LISTS && exists k :: 0 < k < LISTS && k != STATUS_REPORT && w in lists[k]
  }

  /** The first way of a list that is ready, or the length of the list. */
  ghost function FirstReady(s: seq<nat>, ready: seq<bool>): (j: nat)
    ensures j <= |s| && (j < |s| ==> s[j] < |ready| && ready[s[j]])
    ensures forall i :: 0 <= i < j ==> s[i] >= |ready| || !ready[s[i]]
  {
    if s == [] || (s[0] < |ready| && ready[s[0]]) then 0 else FirstReady(s[1..], ready) + 1
  }

  lemma FirstReadyIs(s: seq<nat>, ready: seq<bool>, j: nat)
    requires j <= |s| && (j < |s| ==> s[j] < |ready| && ready[s[j]])
    requires forall i :: 0 <= i < j ==> s[i] >= |ready| || !ready[s[i]]
    ensures FirstReady(s, ready) == j
  {
  }

  /** The lists after the first ready way of the status check list has been polled. */
  ghost function Checked(lists: seq<seq<nat>>, ready: seq<bool>): (r: seq<seq<nat>>)
    requires |lists| == LISTS
    ensures |r| == LISTS
  {
    var s := lists[STATUS_CHECK];
    var j := FirstReady(s, ready);
    if j == |s| then lists
    else lists[STATUS_CHECK := Without(s, j)][STATUS_REPORT := lists[STATUS_REPORT] + [s[j]]]
  }

  /** The list a way started from action list k goes to. */
  function Waiting(k: nat): (to: nat) {
    if k == READ_TRANSFER then STATUS_REPORT else STATUS_CHECK
  }

  /** The lists after the head of action list k, if any, has been started. */
  ghost function Started(lists: seq<seq<nat>>, k: nat): (r: seq<seq<nat>>)
    requires |lists| == LISTS && READ_TRIGGER <= k <= READ_TRANSFER
    ensures |r| == LISTS
  {
    if lists[k] == [] then lists
    else lists[k := lists[k][1..]][Waiting(k) := lists[Waiting(k)] + [lists[k][0]]]
  }

  /** The action lists from k on, one head each, until a start finds the controller busy. */
  ghost function StartedFrom(lists: seq<seq<nat>>, k: nat, busy: seq<bool>): (r: seq<seq<nat>>)
    requires |lists| == LISTS == |busy| && READ_TRIGGER <= k
    ensures |r| == LISTS
    decreases LISTS - k
  {
    if k > READ_TRANSFER then lists
    else if busy[k] && lists[k] != [] then Started(lists, k)
    else StartedFrom(Started(lists, k), k + 1, busy)
  }

  /** The lists after the acting part of a round. `busy` answers the busy questions, list by list. */
  ghost function Acted(lists: seq<seq<nat>>, ready: seq<bool>, busy: seq<bool>): (r: seq<seq<nat>>)
    requires |lists| == LISTS == |busy|
    ensures |r| == LISTS
  {
    var checked := Checked(lists, ready);
    if busy[STATUS_CHECK] && FirstReady(lists[STATUS_CHECK], ready) < |lists[STATUS_CHECK]| then checked
    else StartedFrom(checked, READ_TRIGGER, busy)
  }

  ghost predicate Free(busy: seq<bool>) {
    forall k :: 0 <= k < |busy| ==> !busy[k]
  }

  lemma {:induction false} HeadsStarted(lists: seq<seq<nat>>, k: nat, busy: seq<bool>, j: nat)
    requires |lists| == LISTS == |busy| && Free(busy) && READ_TRIGGER <= k <= READ_TRANSFER + 1
    ensures var r := StartedFrom(lists, k, busy);
            && (j < k ==> j < LISTS && j != STATUS_REPORT ==> r[j] == lists[j])
            && (k <= j <= READ_TRANSFER ==> r[j] == if lists[j] == [] then [] else lists[j][1..])
            && lists[STATUS_REPORT] <= r[STATUS_REPORT] && lists[STATUS_CHECK] <= r[STATUS_CHECK]
            && (k <= j <= READ_TRANSFER && lists[j] != [] ==> lists[j][0] in r[Waiting(j)][|lists[Waiting(j)]|..])
    decreases LISTS - k
  {
    if k <= READ_TRANSFER {
      var next := Started(lists, k);
      HeadsStarted(next, k + 1, busy, j);
      var r := StartedFrom(next, k + 1, busy);
      var to := Waiting(k);
      if j == k && lists[k] != [] {
        assert r[to][|lists[to]|] == next[to][|lists[to]|] == lists[k][0];
      } else if k < j <= READ_TRANSFER && lists[j] != [] {
        Later(lists[Waiting(j)], next[Waiting(j)], r[Waiting(j)], lists[j][0]);
      }
    }
  }

  lemma Later(a: seq<nat>, b: seq<nat>, c: seq<nat>, x: nat)
    requires a <= b <= c && x in c[|b|..]
    ensures x in c[|a|..]
  {
    var i :| 0 <= i < |c[|b|..]| && c[|b|..][i] == x;
    assert c[|a|..][i + |b| - |a|] == x;
  }

  /** With the controller free, the head of every non-empty action list is started in an acting round: it
      leaves its list and waits for its status. */
  lemma EveryHeadStarts(lists: seq<seq<nat>>, ready: seq<bool>, busy: seq<bool>, k: nat)
    requires |lists| == LISTS == |busy| && Free(busy) && READ_TRIGGER <= k <= READ_TRANSFER && lists[k] != []
    ensures var r := Acted(lists, ready, busy);
            && r[k] == lists[k][1..]
            && (lists[k][0] in r[STATUS_REPORT] || lists[k][0] in r[STATUS_CHECK])
  {
    HeadsStarted(Checked(lists, ready), READ_TRIGGER, busy, k);
  }

  /** The lists are served in the order read trigger, erase, write, read transfer: a start that finds the
      controller busy ends the round, and the lists after it are left alone. */
  lemma BusyStops(lists: seq<seq<nat>>, busy: seq<bool>)
    requires |lists| == LISTS == |busy|
    ensures var r := StartedFrom(lists, READ_TRIGGER, busy);
            && (lists[READ_TRIGGER] != [] ==> r[READ_TRIGGER] == lists[READ_TRIGGER][1..])
            && (lists[READ_TRIGGER] != [] && busy[READ_TRIGGER] ==>
                  r[ERASE] == lists[ERASE] && r[WRITE] == lists[WRITE] && r[READ_TRANSFER] == lists[READ_TRANSFER])
            && (lists[READ_TRIGGER] == [] && lists[ERASE] != [] ==>
                  && r[ERASE] == lists[ERASE][1..]
                  && (busy[ERASE] ==> r[WRITE] == lists[WRITE] && r[READ_TRANSFER] == lists[READ_TRANSFER]))
            && (lists[READ_TRIGGER] == lists[ERASE] == [] && lists[WRITE] != [] ==>
                  && r[WRITE] == lists[WRITE][1..]
                  && (busy[WRITE] ==> r[READ_TRANSFER] == lists[READ_TRANSFER]))
            && (lists[READ_TRIGGER] == lists[ERASE] == lists[WRITE] == [] && lists[READ_TRANSFER] != [] ==>
                  r[READ_TRANSFER] == lists[READ_TRANSFER][1..])
  {
    var a := Started(lists, READ_TRIGGER);
    var b := Started(a, ERASE);
    var c := Started(b, WRITE);
    assert StartedFrom(a, ERASE, busy) == if busy[ERASE] && a[ERASE] != [] then b else StartedFrom(b, WRITE, busy);
    assert StartedFrom(b, WRITE, busy) ==
           if busy[WRITE] && b[WRITE] != [] then c else StartedFrom(c, READ_TRANSFER, busy);
    assert StartedFrom(c, READ_TRANSFER, busy) == Started(c, READ_TRANSFER);
  }

  /** In an acting round the first ready way of those to be checked is asked and waits for its report; those
      before it are not ready, and only it is taken off. If the controller is busy then, nothing is started. */
  lemma FirstReadyAsked(lists: seq<seq<nat>>, ready: seq<bool>, busy: seq<bool>, j: nat)
    requires |lists| == LISTS == |busy| && j < |lists[STATUS_CHECK]|
    requires var s := lists[STATUS_CHECK];
             && s[j] < |ready| && ready[s[j]]
             && forall i :: 0 <= i < j ==> s[i] < |ready| && !ready[s[i]]
    ensures var r, s := Acted(lists, ready, busy), lists[STATUS_CHECK];
            && s[j] in r[STATUS_REPORT] && s[..j] + s[j + 1..] <= r[STATUS_CHECK]
            && (busy[STATUS_CHECK] ==> forall k :: READ_TRIGGER <= k <= READ_TRANSFER ==> r[k] == lists[k])
  {
    FirstReadyIs(lists[STATUS_CHECK], ready, j);
    var checked := Checked(lists, ready);
    assert checked[STATUS_REPORT][|lists[STATUS_REPORT]|] == lists[STATUS_CHECK][j];
    OnlyAdds(checked, READ_TRIGGER, busy);
  }

  lemma {:induction false} OnlyAdds(lists: seq<seq<nat>>, k: nat, busy: seq<bool>)
    requires |lists| == LISTS == |busy| && READ_TRIGGER <= k <= READ_TRANSFER + 1
    ensures var r := StartedFrom(lists, k, busy);
            lists[STATUS_REPORT] <= r[STATUS_REPORT] && lists[STATUS_CHECK] <= r[STATUS_CHECK]
    decreases LISTS - k
  {
    if k <= READ_TRANSFER {
      OnlyAdds(Started(lists, k), k + 1, busy);
    }
  }

  class Channel {
    const ways: nat
    const links: LinkTable
    const exe: array<bool>
    const opt: array<CheckOpt>
    const queue: array<seq<Code>>       // the NAND request queue of every way
    const retry: array<nat>
    ghost const Repr: set<object> := {this, exe, opt, queue, retry} + links.Repr

    ghost predicate Shaped()
      reads this
    {
      && exe.Length == opt.Length == queue.Length == retry.Length == links.size == ways && links.count == LISTS
      && exe !in links.Repr && opt !in links.Repr && queue !in links.Repr && retry !in links.Repr && this !in links.Repr
      && (exe as object) != opt && (exe as object) != queue && (exe as object) != retry
      && (opt as object) != queue && (opt as object) != retry && (queue as object) != retry
    }

    ghost predicate Agrees(w: nat)
      requires Shaped() && w < ways && w < |links.place|
      reads Repr
    {
      links.place[w].At? ==> Fitting(links.place[w].list, exe[w], opt[w], queue[w])
    }

    /** Everything in order, except that way `away` is between two lists. */
    ghost predicate ValidBut(away: int)
      reads Repr
    {
      && Shaped() && links.Valid()
      && (forall w :: 0 <= w < ways ==> (links.place[w].At? <==> w != away))
      && (forall w :: 0 <= w < ways ==> Agrees(w))
    }

    /** Every way is on exactly one list, and the list agrees with its die and its queue. */
    ghost predicate Valid()
      reads Repr
    {
      ValidBut(-1)
    }

    constructor (wayCount: nat)
      requires 0 < wayCount < 15
      ensures Valid() && fresh(Repr) && ways == wayCount && links.lists[IDLE] == Iota(wayCount)
    {
      ways := wayCount;
      links := new LinkTable.InOrder(wayCount, LISTS, IDLE);
      exe := new bool[wayCount](_ => false);
      opt := new CheckOpt[wayCount](_ => NoCheck);
      queue := new seq<Code>[wayCount](_ => []);
      retry := new nat[wayCount](_ => RETRY_LIMIT);
      new;
      hide WellLinked;
    }

    /** As Valid, but the die of way w may have moved on from what its list says. */
    ghost predicate ValidApart(w: nat)
      reads Repr
    {
      && Shaped() && links.Valid()
      && (forall v :: 0 <= v < ways ==> links.place[v].At?)
      && (forall v :: 0 <= v < ways && v != w ==> Agrees(v))
    }

    /** Take way w off list k. */
    method GetFrom(k: nat, w: nat) returns (ghost j: nat)
      requires ValidApart(w) && k < LISTS && w in links.lists[k]
      modifies links.Repr
      ensures w < ways && ValidBut(w) && j < |old(links.lists)[k]| && old(links.lists)[k][j] == w
      ensures old(links.place)[w] == At(k, j)
      ensures links.lists == old(links.lists)[k := Without(old(links.lists)[k], j)]
    {
      hide WellLinked, Fitting;
      links.Counts();
      j := links.PlaceIn(k, w);
      j := links.Unlink(k, w);
      forall v | 0 <= v < ways ensures Agrees(v) {
        assert v != w ==> old(Agrees(v));
      }
    }

    /** Put way w, which is on no list, at the end of list k. */
    method PutTo(k: nat, w: nat)
      requires w < ways && ValidBut(w) && k < LISTS && Fitting(k, exe[w], opt[w], queue[w])
      modifies links.Repr
      ensures Valid() && links.lists == old(links.lists)[k := old(links.lists)[k] + [w]]
    {
      hide WellLinked, Fitting;
      links.Counts();
      links.PutTail(k, w);
      forall v | 0 <= v < ways ensures Agrees(v) {
        assert old(Agrees(v));
      }
    }

    /** Take way w off one list and put it at the end of another. */
    method Move(k: nat, to: nat, w: nat) returns (ghost j: nat)
      requires ValidApart(w) && k < LISTS && to < LISTS && k != to && w in links.lists[k] && w < ways
      requires Fitting(to, exe[w], opt[w], queue[w])
      modifies links.Repr
      ensures Valid() && j < |old(links.lists)[k]| && old(links.lists)[k][j] == w && old(links.place)[w] == At(k, j)
      ensures links.lists == old(links.lists)[k := Without(old(links.lists)[k], j)][to := old(links.lists)[to] + [w]]
      ensures links.next[w] == NONE
    {
      hide WellLinked, Fitting, ValidBut, ValidApart;
      assert Shaped() && |links.lists| == LISTS by {
        Basics(w);
      }
      j := GetFrom(k, w);
      PutTo(to, w);
      LastHasNoNext(to);
    }

    lemma Basics(w: nat)
      requires ValidApart(w)
      ensures Shaped() && links.Valid() && |links.lists| == LISTS && links.next.Length == ways
    {
    }

    lemma LastHasNoNext(k: nat)
      requires Valid() && k < LISTS && |links.lists| == LISTS && links.lists[k] != [] 
      ensures var w := links.lists[k][|links.lists[k]| - 1]; w < links.next.Length && links.next[w] == NONE
    {
      links.NeighboursTell(k, |links.lists[k]| - 1);
    }

    /** The status of the operation way w is executing. */
    method CheckReqStatus(w: nat, a: Answer) returns (s: Status)
      requires w < opt.Length
      modifies opt
      ensures forall v :: 0 <= v < opt.Length && v != w ==> opt[v] == old(opt[v])
      ensures s == StatusOf(old(opt[w]), a) && opt[w] == NextOpt(old(opt[w]), a)
    {
      s := Running;
      match opt[w] {
        case CompletionFlag =>
          if a.transferComplete {
            s := if a.ecc.Warning? || a.ecc.Fail? then a.ecc else Done;
          }
        case Check =>
          opt[w] := Report;
        case Report =>
          if a.reported {
            if a.complete {
              if a.failed {
                s := Fail;
              } else {
                opt[w] := NoCheck;
                s := Done;
              }
            } else {
              opt[w] := Check;
            }
          }
        case NoCheck =>
          if a.ready {
            s := Done;
          }
      }
    }

    /** Start the request at the head of the queue of an idle die. */
    method IssueNandReq(w: nat)
      requires Shaped() && w < ways && queue[w] != []
      modifies opt, exe
      ensures forall v :: 0 <= v < ways && v != w ==> opt[v] == old(opt[v]) && exe[v] == old(exe[v])
      ensures exe[w] && opt[w] == IssuedOpt(queue[w][0])
    {
      opt[w] := match queue[w][0]
        case Read => Check
        case ReadTransfer => CompletionFlag
        case Write => Check
        case Erase => Check
        case Reset => NoCheck
        case SetFeature => NoCheck;
      exe[w] := true;
    }

    /** The operation of way w has ended: its request leaves the queue, unless a read goes on to its
        transfer or a failed read is tried again. */
    method FinishNandReq(w: nat, s: Status) returns (popped: bool)
      requires Shaped() && w < ways && queue[w] != [] && !s.Running?
      modifies exe, queue, retry
      ensures !exe[w] && forall v :: 0 <= v < ways && v != w ==> exe[v] == old(exe[v]) && queue[v] == old(queue[v])
      ensures popped <==> Leaves(old(queue[w])[0], old(retry[w]), s)
      ensures queue[w] == Over(old(queue[w]), old(retry[w]), s)
      ensures retry[w] == RetryAfter(old(queue[w])[0], old(retry[w]), s)
      ensures forall v :: 0 <= v < ways && v != w ==> retry[v] == old(retry[v])
      ensures var c, rest := old(queue[w])[0], old(queue[w])[1..];
              if c.Read? && s.Done? then !popped && queue[w] == [ReadTransfer] + rest && retry[w] == old(retry[w])
              else if (c.Read? || c.ReadTransfer?) && s.Fail? && old(retry[w]) > 0
                then !popped && queue[w] == [Read] + rest && retry[w] == old(retry[w]) - 1
              else popped && queue[w] == rest && retry[w] == RETRY_LIMIT
    {
      var c := queue[w][0];
      popped := true;
      if s.Done? {
        popped := !c.Read?;
      } else if s.Fail? && (c.Read? || c.ReadTransfer?) && retry[w] > 0 {
        popped := false;
      }
      exe[w] := false;
      if popped {
        retry[w] := RETRY_LIMIT;
        queue[w] := queue[w][1..];
      } else if s.Done? {
        queue[w] := [ReadTransfer] + queue[w][1..];
      } else {
        retry[w] := retry[w] - 1;
        queue[w] := [Read] + queue[w][1..];
      }
    }

    /** Requests released meanwhile are appended to the queues of their ways. */
    method Arrive(released: seq<seq<Code>>, ghost x: nat)
      requires |released| == ways && ValidApart(x)
      modifies queue
      ensures ValidApart(x)
      ensures forall v :: 0 <= v < ways ==> queue[v] == old(queue[v]) + released[v]
    {
      hide WellLinked;
      var v := 0;
      while v < ways
        invariant 0 <= v <= ways
        invariant forall u :: 0 <= u < ways ==> queue[u] == if u < v then old(queue[u]) + released[u] else old(queue[u])
        modifies queue
      {
        queue[v] := queue[v] + released[v];
        v := v + 1;
      }
      forall u | 0 <= u < ways && u != x ensures Agrees(u) {
        assert old(Agrees(u));
      }
    }

    lemma OnList(k: nat, i: nat)
      requires Valid() && k < LISTS && |links.lists| == LISTS && i < |links.lists[k]|
      ensures var w := links.lists[k][i];
              && w < ways == links.next.Length == |links.place| && links.place[w] == At(k, i) &&
                Fitting(k, exe[w], opt[w], queue[w])
              && links.next[w] == (if i == |links.lists[k]| - 1 then NONE else links.lists[k][i+1])
    {
      hide WellLinked, Fitting;
      links.NeighboursTell(k, i);
      assert Agrees(links.lists[k][i]);
    }

    /** Entry i of list k, or none past the end. */
    ghost function NextOn(k: nat, i: nat): (w: int)
      requires Valid() && k < LISTS && |links.lists| == LISTS && i <= |links.lists[k]|
      reads Repr
      ensures w == NONE <==> i == |links.lists[k]|
      ensures i < |links.lists[k]| ==> w == links.lists[k][i]
    {
      if i < |links.lists[k]| then
        OnList(k, i);
        links.lists[k][i]
      else NONE
    }

    lemma HeadOf(k: nat)
      requires Valid() && k < LISTS
      ensures |links.lists| == LISTS == links.head.Length && links.head[k] == NextOn(k, 0)
    {
      links.EndTells(k);
    }

    /** More requests on one queue change nothing about the lists. */
    method Release(w: nat, more: seq<Code>, ghost away: int)
      requires w < ways && ValidBut(away)
      modifies queue
      ensures ValidBut(away) && queue[w] == old(queue[w]) + more && forall v :: 0 <= v < ways && v != w ==>
              queue[v] == old(queue[v])
    {
      hide WellLinked;
      queue[w] := queue[w] + more;
      forall u | 0 <= u < ways ensures Agrees(u) {
        assert old(Agrees(u));
      }
    }

    /** Visit entry i of the idle list and find the next one: the way goes to the list of its first request,
        or stays idle. */
    method VisitIdle(w: nat, ghost i: nat, released: seq<Code>) returns (moved: bool, next: int)
      requires Valid() && |links.lists| == LISTS && i < |links.lists[IDLE]| && links.lists[IDLE][i] == w < ways
      requires queue.Length == ways
      modifies queue, links.Repr
      ensures Valid() && Shaped() && |links.lists| == LISTS
      ensures queue[..] == Woke(old(queue[..]), w, released) && (moved <==> Stirs(old(queue[..]), w, released))
      ensures AllGo(old(States()), States())
      ensures links.lists[IDLE] == if moved then Without(old(links.lists)[IDLE], i) else old(links.lists)[IDLE]
      ensures next == NextOn(IDLE, if moved then i else i + 1)
      ensures Grown(old(links.lists), links.lists, IDLE)
      ensures links.lists[STATUS_REPORT] == old(links.lists)[STATUS_REPORT]
    {
      hide ValidBut, WellLinked, Fitting, AllGo, Stepped;
      OnList(IDLE, i);
      next := links.next[w];
      Opened(w);
      LevelNow();
      if queue[w] == [] {
        Release(w, released, -1);
      }
      moved := queue[w] != [];
      if moved {
        Startable(w);
        Opened(w);
        ghost var before := links.lists;
        ghost var j := Move(IDLE, ListFor(queue[w][0]), w);
        GrownMove(before, IDLE, Without(before[IDLE], j), ListFor(queue[w][0]), w);
      }
      ghost var qs := old(queue[..]);
      assert qs[w] == [] ==> qs[w] + released == released;
      assert forall v :: 0 <= v < ways && v != w ==> queue[..][v] == qs[v];
      Gains(old(States()), States(), w, if qs[w] == [] then released else []);
      ghost var _ := NextOn(IDLE, if moved then i else i + 1);
    }

    /** First scan: idle ways with something to do go to the list of their request. Counts the others. */
    method ScanIdle(released: seq<seq<Code>>) returns (waiting: nat)
      requires Valid() && |released| == ways
      modifies queue, links.Repr
      ensures Valid() && |links.lists| == |old(links.lists)| == LISTS && waiting == |links.lists[IDLE]|
      ensures |old(queue[..])| == ways && queue[..] == Woken(old(links.lists)[IDLE], old(queue[..]), released)
      ensures AllGo(old(States()), States())
      ensures forall i :: 0 <= i < |links.lists[IDLE]| ==>
                var w := links.lists[IDLE][i]; w < ways && old(queue[..])[w] == released[w] == []
      ensures Grown(old(links.lists), links.lists, IDLE)
      ensures links.lists[STATUS_REPORT] == old(links.lists)[STATUS_REPORT]
    {
      hide ValidBut, WellLinked, Fitting, Without, Different, IdleHalfway, NextOn, Shaped, Grown, Woken, Woke,
        Stirs, AllGo;
      ShapedNow();
      LevelNow();
      AllStay(States());
      HeadOf(IDLE);
      GrownNot(links.lists, IDLE);
      AllDifferent(IDLE);
      ghost var all, was := links.lists[IDLE], queue[..];
      var w := links.head[IDLE];
      waiting := 0;
      ghost var v: nat, kept: seq<nat> := 0, [];
      IdleStart(all, was, released);
      while w != NONE
        invariant Valid() && |links.lists| == LISTS && waiting == |kept| <= |links.lists[IDLE]|
        invariant IdleHalfway(links.lists[IDLE], kept, all, v, was, released, queue[..])
        invariant w == NextOn(IDLE, |kept|) && Grown(old(links.lists), links.lists, IDLE)
        invariant links.lists[STATUS_REPORT] == old(links.lists)[STATUS_REPORT] && AllGo(old(States()), States())
        decreases |links.lists[IDLE]| - |kept|
      {
        ghost var listed, before, dies := links.lists, queue[..], States();
        IdleAt(links.lists[IDLE], kept, all, v, was, released, before);
        var moved, next := VisitIdle(w, |kept|, released[w]);
        IdleOn(listed[IDLE], kept, all, v, was, released, before, queue[..]);
        GrownTwice(old(links.lists), listed, links.lists, IDLE);
        AllGoTwice(old(States()), dies, States());
        if !moved {
          waiting := waiting + 1;
          kept := kept + [w];
        }
        v := v + 1;
        w := next;
      }
      IdleEnd(links.lists[IDLE], kept, all, v, was, released, queue[..]);
    }

    lemma ShapedNow()
      requires Valid()
      ensures Shaped() && opt.Length == queue.Length == ways
    {
    }

    lemma Opened(w: nat)
      requires Valid() && w < ways
      ensures ValidBut(-1) && ValidApart(w) && Shaped()
    {
    }

    lemma Startable(w: nat)
      requires Valid() && w < ways && w in links.lists[IDLE] && queue[w] != []
      ensures Fitting(ListFor(queue[w][0]), exe[w], opt[w], queue[w])
    {
      var _ := links.PlaceIn(IDLE, w);
      assert Agrees(w);
    }

    /** A way whose operation has ended goes to the list of its next request, or is idle again. */
    method Dispatch(w: nat, released: seq<Code>) returns (idle: bool, ghost j: nat)
      requires ValidApart(w) && w < ways && !exe[w] && |links.lists| == LISTS && w in links.lists[STATUS_REPORT]
      modifies queue, links.Repr
      ensures Valid() && |links.lists| == LISTS
      ensures j < |old(links.lists)[STATUS_REPORT]| && old(links.place)[w] == At(STATUS_REPORT, j)
      ensures links.lists[STATUS_REPORT] == Without(old(links.lists)[STATUS_REPORT], j)
      ensures |links.lists[IDLE]| == |old(links.lists)[IDLE]| + (if idle then 1 else 0)
      ensures Grown(old(links.lists), links.lists, STATUS_REPORT)
      ensures queue[w] == if old(queue[w]) == [] then released else old(queue[w])
      ensures forall v :: 0 <= v < ways && v != w ==> queue[v] == old(queue[v])
    {
      hide ValidBut, WellLinked;
      Basics(w);
      j := GetFrom(STATUS_REPORT, w);
      if queue[w] == [] {
        Release(w, released, w);
      }
      idle := queue[w] == [];
      PutTo(if idle then IDLE else ListFor(queue[w][0]), w);
    }

    /** What a scan reads of the dies. */
    ghost function States(): (r: DieStates)
      reads opt, retry, queue, exe
    {
      DieStates(opt[..], retry[..], queue[..], exe[..])
    }

    lemma LevelNow()
      requires Valid()
      ensures Level(States()) && |States().queues| == ways
    {
    }

    /** Second scan: ways whose operation has ended are dispatched, ways to be checked again go to the
        status check list, exactly the others stay. Adds up the ways that are idle or still waiting
        for a report. */
    method ScanStatusReport(visits: seq<Visit>, count: nat) returns (waiting: nat)
      requires Valid() && |visits| == ways && forall v :: 0 <= v < ways ==> |visits[v].arrivals| == ways
      requires |links.lists| == LISTS && count == |links.lists[IDLE]|
      modifies Repr
      ensures Valid() && |links.lists| == LISTS && waiting == |links.lists[IDLE]| + |links.lists[STATUS_REPORT]|
      ensures Scannable(old(links.lists)[STATUS_REPORT], visits, old(States())) && AllGo(old(States()), States())
      ensures links.lists[STATUS_REPORT] == Kept(old(links.lists)[STATUS_REPORT], visits, old(States()))
      ensures queue[..] == Reported(old(links.lists)[STATUS_REPORT], visits, old(States()))
      ensures Grown(old(links.lists), links.lists, STATUS_REPORT)
    {
      hide ValidBut, ValidApart, WellLinked, Fitting, Stays, Kept, Reported, Polled, Without, NextOn, Shaped, Grown,
        Covered, Scannable, AllGo, Midway, VisitedOne;
      ShapedNow();
      HeadOf(STATUS_REPORT);
      ScannableNow(visits);
      LevelNow();
      ghost var l0, d0 := links.lists, States();
      MidwayStart(l0, d0, visits);
      var w := links.head[STATUS_REPORT];
      waiting := count;
      ghost var v: nat, kept: seq<nat> := 0, [];
      while w != NONE
        invariant Valid() && |links.lists| == LISTS && |kept| <= |links.lists[STATUS_REPORT]|
        invariant Midway(l0, d0, links.lists, States(), kept, v, visits)
        invariant w == NextOn(STATUS_REPORT, |kept|) && waiting == |links.lists[IDLE]| + |kept|
        decreases |links.lists[STATUS_REPORT]| - |kept|
      {
        ghost var l, d := links.lists, States();
        MidwayAt(l0, d0, l, d, kept, v, visits);
        var stays, idle, next := VisitReport(w, |kept|, visits[w]);
        MidwayOn(l0, d0, l, d, kept, v, visits, w, links.lists, States());
        if idle {
          waiting := waiting + 1;
        }
        if stays {
          waiting := waiting + 1;
          kept := kept + [w];
        }
        v := v + 1;
        w := next;
      }
      MidwayEnd(l0, d0, links.lists, States(), kept, v, visits);
    }

    lemma ScannableNow(visits: seq<Visit>)
      requires Valid() && |links.lists| == LISTS
      requires |visits| == ways && forall v :: 0 <= v < ways ==> |visits[v].arrivals| == ways
      ensures Scannable(links.lists[STATUS_REPORT], visits, States())
      ensures Covered(links.lists[STATUS_REPORT], visits, States())
    {
      hide ValidBut, WellLinked, Different, Shaped;
      ShapedNow();
      AllDifferent(STATUS_REPORT);
      LevelNow();
      forall i | 0 <= i < |links.lists[STATUS_REPORT]| ensures queue[links.lists[STATUS_REPORT][i]] != [] {
        OnList(STATUS_REPORT, i);
      }
    }

    /** Visit entry i of the status report list and find the next one. */
    method VisitReport(w: nat, ghost i: nat, at: Visit) returns (stays: bool, idle: bool, next: int)
      requires Valid() && |links.lists| == LISTS && i < |links.lists[STATUS_REPORT]|
      requires links.lists[STATUS_REPORT][i] == w < ways
      requires |at.arrivals| == ways == opt.Length == retry.Length
      modifies Repr
      ensures Valid() && Shaped() && |links.lists| == LISTS && (stays <==> Stays(at, old(opt[w])))
      ensures (stays ==> !idle) && VisitedOne(w, at, old(links.lists), old(States()), i, links.lists, States())
      ensures |links.lists[STATUS_REPORT]| == |old(links.lists)[STATUS_REPORT]| - (if stays then 0 else 1)
      ensures next == NextOn(STATUS_REPORT, if stays then i + 1 else i)
      ensures |links.lists[IDLE]| == |old(links.lists)[IDLE]| + (if idle then 1 else 0)
    {
      hide ValidBut, ValidApart, WellLinked, Fitting, Stays, Polled, Finds, AllGo;
      ShapedNow();
      LevelNow();
      AllStay(States());
      OnList(STATUS_REPORT, i);
      NotReady(at, opt[w], queue[..], w, retry[w]);
      next := links.next[w];
      stays, idle := true, false;
      if at.ready {
        ghost var j;
        stays, idle, j := Poll(w, at);
      }
      ghost var _ := NextOn(STATUS_REPORT, if stays then i + 1 else i);
    }

    lemma AllDifferent(k: nat)
      requires Valid() && k < LISTS && |links.lists| == LISTS
      ensures Different(links.lists[k]) && forall i :: 0 <= i < |links.lists[k]| ==> links.lists[k][i] < ways
    {
      hide WellLinked, Fitting, ValidBut;
      forall i | 0 <= i < |links.lists[k]|
        ensures links.lists[k][i] < ways && forall j :: 0 <= j < i ==> links.lists[k][j] != links.lists[k][i]
      {
        OnList(k, i);
        forall j | 0 <= j < i ensures links.lists[k][j] != links.lists[k][i] {
          OnList(k, j);
        }
      }
    }

    lemma NotReady(at: Visit, o: CheckOpt, qs: seq<seq<Code>>, w: nat, retry: nat)
      ensures !at.ready ==> Stays(at, o) && Polled(qs, w, retry, o, at) == qs
    {
    }

    /** The operation of a way has ended with status s: its request leaves its queue or goes on, what was
        waiting for it arrives, and the way goes to the list of its next request. */
    method End(w: nat, s: Status, at: Visit, ghost o: CheckOpt) returns (idle: bool, ghost j: nat)
      requires ValidApart(w) && w < ways && |links.lists| == LISTS && w in links.lists[STATUS_REPORT]
      requires |at.arrivals| == ways && queue[w] != [] && Finds(at, o) && s == StatusOf(o, at.answer)
      modifies exe, queue, retry, links.Repr
      ensures Valid() && |links.lists| == LISTS && Shaped()
      ensures retry[..] == old(retry[..])[w := RetryAfter(old(queue[w])[0], old(retry[w]), s)]
      ensures exe[..] == old(exe[..])[w := false]
      ensures queue[..] == Polled(old(queue[..]), w, old(retry[w]), o, at)
      ensures j < |old(links.lists)[STATUS_REPORT]| && old(links.place)[w] == At(STATUS_REPORT, j)
      ensures links.lists[STATUS_REPORT] == Without(old(links.lists)[STATUS_REPORT], j)
      ensures |links.lists[IDLE]| == |old(links.lists)[IDLE]| + (if idle then 1 else 0)
      ensures Grown(old(links.lists), links.lists, STATUS_REPORT)
    {
      hide WellLinked, Polled, Over, Leaves, StatusOf, Grown, RetryAfter;
      var popped := FinishNandReq(w, s);
      forall v | 0 <= v < ways && v != w ensures Agrees(v) {
        assert old(Agrees(v));
      }
      if popped {
        Arrive(at.arrivals, w);
      }
      idle, j := Dispatch(w, at.released);
      PolledIs(old(queue[..]), w, old(retry[w]), o, at, queue[..]);
    }

    /** Check one ready way of the status report list and act on the answer. */
    method Poll(w: nat, at: Visit) returns (stays: bool, idle: bool, ghost j: nat)
      requires Valid() && w < ways && |links.lists| == LISTS && w in links.lists[STATUS_REPORT]
      requires |at.arrivals| == ways && at.ready
      modifies Repr
      ensures Valid() && |links.lists| == LISTS && Shaped()
      ensures stays <==> Stays(at, old(opt[w]))
      ensures old(queue[w]) != []
      ensures opt[..] == old(opt[..])[w := NextOpt(old(opt[w]), at.answer)]
      ensures exe[..] == old(exe[..])[w := StatusOf(old(opt[w]), at.answer).Running?]
      ensures retry[..] == old(retry[..])[w := RetryNow(old(opt[w]), at.answer, old(queue[w])[0], old(retry[w]))]
      ensures queue[..] == Polled(old(queue[..]), w, old(retry[w]), old(opt[w]), at)
      ensures AllGo(old(States()), States())
      ensures stays ==> !idle && links.lists == old(links.lists)
      ensures !stays ==> j < |old(links.lists)[STATUS_REPORT]| && old(links.place)[w] == At(STATUS_REPORT, j) &&
                         links.lists[STATUS_REPORT] == Without(old(links.lists)[STATUS_REPORT], j)
      ensures |links.lists[IDLE]| == |old(links.lists)[IDLE]| + (if idle then 1 else 0)
      ensures Grown(old(links.lists), links.lists, STATUS_REPORT)
    {
      hide WellLinked, Polled, Over, Leaves, RetryAfter, AllGo;
      j := links.PlaceIn(STATUS_REPORT, w);
      assert Agrees(w);
      LevelNow();
      NotOver(queue[..], w, retry[w], opt[w], at);
      var s := CheckReqStatus(w, at.answer);
      forall v | 0 <= v < ways && v != w ensures Agrees(v) {
        assert old(Agrees(v));
      }
      stays, idle := false, false;
      if !s.Running? {
        idle, j := End(w, s, at, old(opt[w]));
      } else if opt[w].Check? {
        j := Move(STATUS_REPORT, STATUS_CHECK, w);
      } else {
        stays := true;
      }
      PollGoes(old(States()), States(), w, at);
    }

    lemma NotOver(qs: seq<seq<Code>>, w: nat, retry: nat, o: CheckOpt, at: Visit)
      ensures StatusOf(o, at.answer).Running? ==> Polled(qs, w, retry, o, at) == qs
    {
    }

    lemma CountOn(k: nat)
      requires Valid() && k < LISTS && |links.lists| == LISTS
      ensures |Members(links.lists[k])| == |links.lists[k]|
    {
      hide WellLinked;
      forall i, j | 0 <= i < j < |links.lists[k]| ensures links.lists[k][i] != links.lists[k][j] {
        links.NeighboursTell(k, i);
        links.NeighboursTell(k, j);
      }
      MembersCount(links.lists[k]);
    }

    lemma WhereIs(w: nat, k: nat)
      requires Valid() && w < ways && k < LISTS && |links.lists| == LISTS
      ensures links.place[w].At? && links.place[w].list < LISTS && w in links.lists[links.place[w].list]
      ensures w in links.lists[k] <==> links.place[w].list == k
    {
      assert links.place[w].At?;
      if w in links.lists[k] {
        var _ := links.PlaceIn(k, w);
      }
    }

    /** All ways are idle or waiting for a report exactly when the five lists of ways to act on are empty. */
    lemma WaitingTells()
      requires Valid() && |links.lists| == LISTS
      ensures |links.lists[IDLE]| + |links.lists[STATUS_REPORT]| == ways <==>
              forall k :: READ_TRIGGER <= k < LISTS ==> links.lists[k] == []
    {
      hide WellLinked, Fitting, ValidBut;
      var idle, report := Members(links.lists[IDLE]), Members(links.lists[STATUS_REPORT]);
      CountOn(IDLE);
      CountOn(STATUS_REPORT);
      forall w | w in idle || w in report ensures w < ways && !(w in idle && w in report) {
        Somewhere(w, if w in idle then IDLE else STATUS_REPORT);
        WhereIs(w, IDLE);
        WhereIs(w, STATUS_REPORT);
      }
      assert |idle + report| == |idle| + |report|;
      Within(idle + report, Upto(ways));
      if k :| READ_TRIGGER <= k < LISTS && links.lists[k] != [] {
        var w := links.lists[k][0];
        Somewhere(w, k);
        WhereIs(w, k);
        WhereIs(w, IDLE);
        WhereIs(w, STATUS_REPORT);
        assert w in Upto(ways) && w !in idle + report;
      } else {
        forall w | 0 <= w < ways ensures w in idle + report {
          NowhereElse(w);
        }
        assert idle + report == Upto(ways);
      }
    }

    lemma NowhereElse(w: nat)
      requires Valid() && w < ways && |links.lists| == LISTS
      requires forall k :: READ_TRIGGER <= k < LISTS ==> links.lists[k] == []
      ensures w in links.lists[IDLE] || w in links.lists[STATUS_REPORT]
    {
      WhereIs(w, IDLE);
    }

    lemma Somewhere(w: nat, k: nat)
      requires Valid() && k < LISTS && |links.lists| == LISTS && w in links.lists[k]
      ensures w < ways
    {
      var _ := links.PlaceIn(k, w);
    }

    /** Start the requests of an action list. A way that has been moved stands at the end of its new
        list, so following its link ends the loop: one way is started per call. */
    method RunList(k: nat, busy: bool) returns (stop: bool)
      requires Valid() && READ_TRIGGER <= k <= READ_TRANSFER
      modifies Repr
      ensures Valid() && |links.lists| == |old(links.lists)| == LISTS && (stop <==> busy && old(links.lists)[k] != [])
      ensures links.lists == Started(old(links.lists), k) && queue[..] == old(queue[..])
      ensures AllGo(old(States()), States())
    {
      hide WellLinked, AllGo;
      LevelNow();
      AllStay(States());
      var to := Waiting(k);
      HeadOf(k);
      var w := links.head[k];
      ghost var first := true;
      while w != NONE
        invariant Valid() && |links.lists| == LISTS
        invariant queue[..] == old(queue[..])
        invariant first ==> links.lists == old(links.lists) && w == NextOn(k, 0)
        invariant !first ==> w == NONE && old(links.lists)[k] != [] && !busy
        invariant !first ==> links.lists == Started(old(links.lists), k)
        invariant AllGo(old(States()), States()) && (first ==> States() == old(States()))
        decreases first
      {
        OnList(k, 0);
        label Before:
        IssueNandReq(w);
        forall v | 0 <= v < ways && v != w ensures Agrees(v) {
          assert old@Before(Agrees(v));
        }
        OneSteps(old(States()), States(), w, Begin);
        ghost var j := Move(k, to, w);
        assert Without(old(links.lists)[k], 0) == old(links.lists)[k][1..];
        if busy {
          return true;
        }
        first := false;
        w := links.next[w];
      }
      return false;
    }

    /** Poll the first ready way of the status check list and queue it for its report. */
    method RunStatusCheck(answers: seq<Answer>, ready: seq<bool>, busy: bool) returns (stop: bool)
      requires Valid() && |answers| == |ready| == ways
      modifies Repr
      ensures Valid() && |links.lists| == |old(links.lists)| == LISTS && links.lists == Checked(old(links.lists), ready)
      ensures stop <==> busy && FirstReady(old(links.lists)[STATUS_CHECK], ready) < |old(links.lists)[STATUS_CHECK]|
      ensures queue[..] == old(queue[..]) && AllGo(old(States()), States())
    {
      hide WellLinked, AllGo;
      LevelNow();
      AllStay(States());
      HeadOf(STATUS_CHECK);
      var w := links.head[STATUS_CHECK];
      var i := 0;
      while w != NONE
        invariant Valid() && |links.lists| == LISTS && links.lists == old(links.lists)
        invariant i <= |links.lists[STATUS_CHECK]| && w == NextOn(STATUS_CHECK, i) && States() == old(States())
        invariant forall h :: 0 <= h < i ==> links.lists[STATUS_CHECK][h] < ways && !ready[links.lists[STATUS_CHECK][h]]
        decreases |links.lists[STATUS_CHECK]| - i
      {
        OnList(STATUS_CHECK, i);
        if ready[w] {
          FirstReadyIs(links.lists[STATUS_CHECK], ready, i);
          label Before:
          var s := CheckReqStatus(w, answers[w]);
          forall v | 0 <= v < ways && v != w ensures Agrees(v) {
            assert old@Before(Agrees(v));
          }
          OneSteps(old(States()), States(), w, Ask(answers[w]));
          ghost var j := Move(STATUS_CHECK, STATUS_REPORT, w);
          assert links.next[w] == NONE;
          return busy;
        }
        w := links.next[w];
        i := i + 1;
      }
      FirstReadyIs(links.lists[STATUS_CHECK], ready, i);
      return false;
    }

    lemma FoundElsewhere(w: nat)
      requires Valid() && |links.lists| == LISTS && w < ways && w !in links.lists[STATUS_REPORT]
      requires w !in links.lists[IDLE]
      ensures Elsewhere(links.lists, w)
    {
      WhereIs(w, IDLE);
    }

    lemma NotIdle(first: seq<seq<nat>>, w: nat)
      requires Valid() && |links.lists| == LISTS && w < ways && Grown(first, links.lists, STATUS_REPORT)
      requires Elsewhere(first, w)
      ensures w !in links.lists[IDLE]
    {
      var k :| 0 < k < LISTS && k != STATUS_REPORT && w in first[k];
      WhereIs(w, k);
      WhereIs(w, IDLE);
    }

    /** One round of the scheduler. `busyFirst` answers the busy question before acting, `busy` those after
        each start, list by list; `scanned` are the lists after the two scans. Idle ways with something to do
        are idle no longer, and of the ways waiting for a report exactly those stay that have to. Every queue
        has lost what finished and gained what was released. The round acts exactly when the controller is
        free and some way is to be acted on. */
    method SchedulingNandReqPerCh(idleReleases: seq<seq<Code>>, visits: seq<Visit>, busyFirst: bool,
                                  checks: seq<Answer>, readyNow: seq<bool>, busy: seq<bool>)
      returns (acted: bool, ghost scanned: seq<seq<nat>>)
      requires Valid() && |idleReleases| == |visits| == |checks| == |readyNow| == ways && |busy| == LISTS
      requires forall v :: 0 <= v < ways ==> |visits[v].arrivals| == ways
      modifies Repr
      ensures Valid() && |links.lists| == LISTS == |old(links.lists)| == |scanned| && |old(queue[..])| == ways
      ensures forall w ::
                0 <= w < ways && (old(queue[w]) != [] || idleReleases[w] != []) && w in old(links.lists)[IDLE] ==>
                w !in scanned[IDLE]
      ensures var reporting := old(links.lists)[STATUS_REPORT];
              var woken := old(States()).(queues := Woken(old(links.lists)[IDLE], old(queue[..]), idleReleases));
              && Scannable(reporting, visits, woken) && scanned[STATUS_REPORT] == Kept(reporting, visits, woken)
              && queue[..] == Reported(reporting, visits, woken)
      ensures AllGo(old(States()), States())
      ensures acted <==> !busyFirst && exists k :: READ_TRIGGER <= k < LISTS && scanned[k] != []
      ensures links.lists == if acted then Acted(scanned, readyNow, busy) else scanned
    {
      hide ValidBut, WellLinked, Fitting, Kept, Acted, Checked, Started, Elsewhere, Grown, Reported, Covered, Woken,
        Scannable, AllGo;
      HeadOf(IDLE);
      ShapedNow();
      ghost var had := set w | 0 <= w < ways && (queue[w] != [] || idleReleases[w] != []) && w in links.lists[IDLE];
      forall w | w in had ensures w !in links.lists[STATUS_REPORT] {
        WhereIs(w, IDLE);
        WhereIs(w, STATUS_REPORT);
      }
      var waiting := ScanIdle(idleReleases);
      ghost var first, dies := links.lists, States();
      assert opt[..] == old(opt[..]) && retry[..] == old(retry[..]) && exe[..] == old(exe[..]);
      forall w | w in had ensures Elsewhere(first, w) {
        FoundElsewhere(w);
      }
      waiting := ScanStatusReport(visits, waiting);
      AllGoTwice(old(States()), dies, States());
      scanned, dies := links.lists, States();
      forall w | w in had ensures w !in scanned[IDLE] {
        NotIdle(first, w);
      }
      WaitingTells();
      acted := waiting != ways && !busyFirst;
      if acted {
        Act(checks, readyNow, busy);
        AllGoTwice(old(States()), dies, States());
      }
    }

    /** The acting part of a round. */
    method Act(checks: seq<Answer>, readyNow: seq<bool>, busy: seq<bool>)
      requires Valid() && |checks| == |readyNow| == ways && |busy| == LISTS && |links.lists| == LISTS
      modifies Repr
      ensures Valid() && |links.lists| == LISTS && links.lists == Acted(old(links.lists), readyNow, busy)
      ensures queue[..] == old(queue[..]) && AllGo(old(States()), States())
    {
      hide ValidBut, WellLinked, Fitting, Checked, Started, AllGo;
      var stop := RunStatusCheck(checks, readyNow, busy[STATUS_CHECK]);
      if stop {
        return;
      }
      ghost var dies := States();
      stop := RunList(READ_TRIGGER, busy[READ_TRIGGER]);
      AllGoTwice(old(States()), dies, States());
      if stop {
        return;
      }
      dies := States();
      stop := RunList(ERASE, busy[ERASE]);
      AllGoTwice(old(States()), dies, States());
      if stop {
        return;
      }
      dies := States();
      stop := RunList(WRITE, busy[WRITE]);
      AllGoTwice(old(States()), dies, States());
      if stop {
        return;
      }
      dies := States();
      stop := RunList(READ_TRANSFER, busy[READ_TRANSFER]);
      AllGoTwice(old(States()), dies, States());
    }
  }
}
