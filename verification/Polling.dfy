/** One way of a channel: its request queue and the operation of its die, from the start of the operation
    through the polls to its end. What the hardware answers is an input. */
module Polling {

  const RETRY_LIMIT: nat := 5

  datatype Code = Read | ReadTransfer | Write | Erase | Reset | SetFeature

  datatype CheckOpt = NoCheck | Check | Report | CompletionFlag

  datatype Status = Running | Done | Fail | Warning

  /** What the hardware shows when the status of a way is checked. */
  datatype Answer = Answer(ready: bool, transferComplete: bool, ecc: Status, reported: bool, complete: bool,
                           failed: bool)

  /** What a status check means for a way with the given check option: the status of its operation
      and the next option. */
  function StatusOf(opt: CheckOpt, a: Answer): (s: Status) {
    match opt
    case NoCheck => if a.ready then Done else Running
    case Check => Running
    case Report => if a.reported && a.complete then (if a.failed then Fail else Done) else Running
    case CompletionFlag => if !a.transferComplete then Running else if a.ecc.Warning? || a.ecc.Fail? then a.ecc
      else Done
  }

  function NextOpt(opt: CheckOpt, a: Answer): (o: CheckOpt) {
    match opt
    case Check => Report
    case Report => if !a.reported then Report else if !a.complete then Check else if a.failed then Report else NoCheck
    case _ => opt
  }

  /** The check option of a request just started. */
  function IssuedOpt(c: Code): (o: CheckOpt) {
    match c
    case ReadTransfer => CompletionFlag
    case Reset => NoCheck
    case SetFeature => NoCheck
    case _ => Check
  }

  // ---- the protocol of an operation: started, then polled until it is over ----

  /** The check option of an operation after the given answers to its polls. */
  ghost function OptAfter(c: Code, polls: seq<Answer>): (o: CheckOpt) {
    if polls == [] then IssuedOpt(c) else NextOpt(OptAfter(c, polls[..|polls|-1]), polls[|polls|-1])
  }

  /** None of the polls has found the operation over. */
  ghost predicate StillRunning(c: Code, polls: seq<Answer>) {
    polls != [] ==>
      StillRunning(c, polls[..|polls|-1]) && StatusOf(OptAfter(c, polls[..|polls|-1]), polls[|polls|-1]).Running?
  }

  /** How many status commands the polls have sent, and how many reports they have taken. */
  ghost function Asked(c: Code, polls: seq<Answer>): (n: nat) {
    if polls == [] then 0
    else Asked(c, polls[..|polls|-1]) + (if OptAfter(c, polls[..|polls|-1]).Check? then 1 else 0)
  }

  ghost function Told(c: Code, polls: seq<Answer>): (n: nat) {
    if polls == [] then 0
    else
      var o, a := OptAfter(c, polls[..|polls|-1]), polls[|polls|-1];
      Told(c, polls[..|polls|-1]) + (if o.Report? && a.reported then 1 else 0)
  }

  predicate Timed(c: Code) {
    c.Read? || c.Write? || c.Erase?
  }

  /** At most one status command is unanswered, and while the operation runs the option tells which. */
  lemma {:induction false} OneReportEach(c: Code, polls: seq<Answer>)
    requires StillRunning(c, polls)
    ensures Timed(c) ==> OptAfter(c, polls).Check? || OptAfter(c, polls).Report?
    ensures !Timed(c) ==> OptAfter(c, polls) == IssuedOpt(c)
    ensures Asked(c, polls) == Told(c, polls) + (if OptAfter(c, polls).Report? then 1 else 0)
    decreases |polls|
  {
    if polls != [] {
      OneReportEach(c, polls[..|polls|-1]);
    }
  }

  /** A sensing, program or erase is over exactly when the report of an unanswered status command says so,
      and failed exactly when it says that; a transfer when its completion flag is set, with the verdict of
      the error correction; a reset or set-feature when the way is ready. */
  lemma OverExactly(c: Code, polls: seq<Answer>, a: Answer)
    requires StillRunning(c, polls)
    ensures var s := StatusOf(OptAfter(c, polls), a);
            && (!s.Running? <==>
                  if Timed(c) then Asked(c, polls) > Told(c, polls) && a.reported && a.complete
                  else if c.ReadTransfer? then a.transferComplete else a.ready)
            && (s.Fail? <==> !s.Running? && ((Timed(c) && a.failed) || (c.ReadTransfer? && a.ecc.Fail?)))
            && (s.Warning? <==> !s.Running? && c.ReadTransfer? && a.ecc.Warning?)
  {
    OneReportEach(c, polls);
  }

  // ---- the end of an operation ----

  /** The request leaves the queue when its operation ends: not a read that goes on to its transfer, nor
      a failed one that is tried again. */
  predicate Leaves(c: Code, retry: nat, s: Status) {
    match s
    case Done => !c.Read?
    case Fail => !(c.Read? || c.ReadTransfer?) || retry == 0
    case _ => true
  }

  /** A queue after the operation at its head has ended. */
  function Over(q: seq<Code>, retry: nat, s: Status): (r: seq<Code>)
    requires q != []
  {
    (if Leaves(q[0], retry, s) then [] else [if s.Done? then ReadTransfer else Read]) + q[1..]
  }

  /** The retries left to a way after the operation at the head of its queue has ended. */
  function RetryAfter(c: Code, retry: nat, s: Status): (r: nat) {
    if Leaves(c, retry, s) then RETRY_LIMIT else if s.Done? || retry == 0 then retry else retry - 1
  }

  /** What the end of an operation does to the queue. A read that has been sensed goes on to its transfer. A
      failed sensing or transfer is tried again from the sensing while there are retries left. Anything
      else leaves. */
  lemma OverIs(q: seq<Code>, retry: nat, s: Status)
    requires q != [] && !s.Running?
    ensures q[0].Read? && s.Done? ==>
              Over(q, retry, s) == [ReadTransfer] + q[1..] && RetryAfter(q[0], retry, s) == retry
    ensures (q[0].Read? || q[0].ReadTransfer?) && s.Fail? && retry > 0 ==>
              Over(q, retry, s) == [Read] + q[1..] && RetryAfter(q[0], retry, s) == retry - 1
    ensures s.Warning? || (s.Done? && !q[0].Read?) ==>
              Over(q, retry, s) == q[1..] && RetryAfter(q[0], retry, s) == RETRY_LIMIT
    ensures s.Fail? && (retry == 0 || !(q[0].Read? || q[0].ReadTransfer?)) ==>
              Over(q, retry, s) == q[1..] && RetryAfter(q[0], retry, s) == RETRY_LIMIT
    ensures Leaves(q[0], retry, s) <==> |Over(q, retry, s)| < |q|
  {
  }

  // ---- runs of a way ----

  datatype Way = Way(queue: seq<Code>, exe: bool, opt: CheckOpt, retry: nat)

  /** Begin: the request at the head of the queue is started. Ask: a status check whose verdict is not
      looked at. Poll: a status check that ends the operation if it finds it over. More: requests arrive. */
  datatype Step = Begin | Ask(answer: Answer) | Poll(answer: Answer) | More(codes: seq<Code>)

  ghost predicate CanStep(w: Way, e: Step) {
    match e
    case Begin => !w.exe && w.queue != []
    case Ask(_) => w.exe && w.queue != []
    case Poll(_) => w.exe && w.queue != []
    case More(_) => true
  }

  ghost function Stepped(w: Way, e: Step): (r: Way)
    requires CanStep(w, e)
  {
    match e
    case Begin => w.(exe := true, opt := IssuedOpt(w.queue[0]))
    case Ask(a) => w.(opt := NextOpt(w.opt, a))
    case Poll(a) =>
      var s := StatusOf(w.opt, a);
      if s.Running? then w.(opt := NextOpt(w.opt, a))
      else Way(Over(w.queue, w.retry, s), false, NextOpt(w.opt, a), RetryAfter(w.queue[0], w.retry, s))
    case More(codes) => w.(queue := w.queue + codes)
  }

  ghost predicate WayRun(ways: seq<Way>, steps: seq<Step>) {
    && |ways| == |steps| + 1
    && forall i :: 0 <= i < |steps| ==> CanStep(ways[i], steps[i]) && ways[i + 1] == Stepped(ways[i], steps[i])
  }

  /** A way before any request. */
  const IDLE_WAY: Way := Way([], false, NoCheck, RETRY_LIMIT)

  /** An operation that ended for the request at the head of the queue. */
  datatype Try = Try(code: Code, status: Status)

  /** What has become of the operations of the request at the head of the queue, since it got there. */
  ghost function Tries(ways: seq<Way>, steps: seq<Step>, n: nat): (t: seq<Try>)
    requires WayRun(ways, steps) && n <= |steps|
  {
    if n == 0 then []
    else
      var before, w, e := Tries(ways, steps, n - 1), ways[n - 1], steps[n - 1];
      if !e.Poll? || StatusOf(w.opt, e.answer).Running? then before
      else if |ways[n].queue| < |w.queue| then []
      else before + [Try(w.queue[0], StatusOf(w.opt, e.answer))]
  }

  ghost function Fails(t: seq<Try>): (n: nat) {
    if t == [] then 0 else Fails(t[..|t|-1]) + (if t[|t|-1].status.Fail? then 1 else 0)
  }

  /** How the tries of the request at the head account for the state of its way. */
  ghost predicate Accounted(w: Way, t: seq<Try>) {
    && w.retry + Fails(t) == RETRY_LIMIT
    && (w.exe ==> w.queue != [] && (w.opt.CompletionFlag? <==> w.queue[0].ReadTransfer?))
    && (t != [] ==>
          && w.queue != []
          && if t[|t|-1].status.Done? then t[|t|-1].code.Read? && w.queue[0].ReadTransfer?
             else t[|t|-1].status.Fail? && w.queue[0].Read?)
  }

  lemma FailsMore(t: seq<Try>, r: Try)
    ensures Fails(t + [r]) == Fails(t) + (if r.status.Fail? then 1 else 0)
  {
    assert (t + [r])[..|t|] == t;
  }

  lemma OneMoreTry(w: Way, t: seq<Try>, a: Answer)
    requires Accounted(w, t) && w.exe && !StatusOf(w.opt, a).Running?
    ensures var v, s := Stepped(w, Poll(a)), StatusOf(w.opt, a);
            Accounted(v, if |v.queue| < |w.queue| then [] else t + [Try(w.queue[0], s)])
  {
    var s := StatusOf(w.opt, a);
    FailsMore(t, Try(w.queue[0], s));
    OverIs(w.queue, w.retry, s);
  }

  lemma {:induction false} EveryTry(ways: seq<Way>, steps: seq<Step>, n: nat)
    requires WayRun(ways, steps) && n <= |steps| && ways[0] == IDLE_WAY
    ensures Accounted(ways[n], Tries(ways, steps, n))
  {
    if n > 0 {
      EveryTry(ways, steps, n - 1);
      var w, e := ways[n - 1], steps[n - 1];
      if e.Poll? && !StatusOf(w.opt, e.answer).Running? {
        hide Accounted;
        OneMoreTry(w, Tries(ways, steps, n - 1), e.answer);
      }
    }
  }

  /** In every run of a way, a request that came as a read leaves the queue only when it has been sensed and
      its transfer has then ended well, or with a warning, or when it fails once more after as many failures
      as there are retries. The others behind it stay. */
  lemma ReadLeaves(ways: seq<Way>, steps: seq<Step>, n: nat)
    requires WayRun(ways, steps) && n < |steps| && ways[0] == IDLE_WAY
    requires |ways[n + 1].queue| < |ways[n].queue|
    requires var t := Tries(ways, steps, n); (if t == [] then ways[n].queue[0] else t[0].code) == Read
    ensures var w, t, e := ways[n], Tries(ways, steps, n), steps[n];
            && e.Poll? && ways[n + 1].queue == w.queue[1..]
            && var s := StatusOf(w.opt, e.answer);
            || (s.Fail? && Fails(t) == RETRY_LIMIT)
            || ((s.Done? || s.Warning?) && w.queue[0].ReadTransfer? && t != [] && t[|t|-1] == Try(Read, Done))
  {
    EveryTry(ways, steps, n);
    if steps[n].Poll? && !StatusOf(ways[n].opt, steps[n].answer).Running? {
      OverIs(ways[n].queue, ways[n].retry, StatusOf(ways[n].opt, steps[n].answer));
    }
  }

  /** The way gets from one state to the other by such steps. */
  ghost predicate Goes(v: Way, w: Way) {
    exists ways, steps :: WayRun(ways, steps) && ways[0] == v && ways[|steps|] == w
  }

  lemma GoesNowhere(w: Way)
    ensures Goes(w, w)
  {
    assert WayRun([w], []);
  }

  lemma GoesOne(w: Way, e: Step)
    requires CanStep(w, e)
    ensures Goes(w, Stepped(w, e))
  {
    hide Stepped;
    assert WayRun([w, Stepped(w, e)], [e]);
  }

  lemma GoesTwice(u: Way, v: Way, w: Way)
    requires Goes(u, v) && Goes(v, w)
    ensures Goes(u, w)
  {
    hide CanStep, Stepped;
    var first, e :| WayRun(first, e) && first[0] == u && first[|e|] == v;
    var second, f :| WayRun(second, f) && second[0] == v && second[|f|] == w;
    var ways, steps := first + second[1..], e + f;
    forall i | 0 <= i < |steps| ensures CanStep(ways[i], steps[i]) && ways[i + 1] == Stepped(ways[i], steps[i]) {
      if i < |e| {
        assert ways[i] == first[i] && ways[i + 1] == first[i + 1] && steps[i] == e[i];
      } else {
        assert ways[i] == second[i - |e|] && ways[i + 1] == second[i + 1 - |e|] && steps[i] == f[i - |e|];
      }
    }
    assert WayRun(ways, steps) && ways[|steps|] == w;
  }
}
