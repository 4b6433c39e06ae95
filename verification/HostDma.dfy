/** The host DMA engine's completion test: 8-bit FIFO indices and a 32-bit count of how
    often the tail index wrapped around, against unbounded counts of DMAs. */
module HostDma {
  const FIFO: nat := 256
  const WORD: nat := 0x1_0000_0000

  /** How many DMAs it takes for tail index and wrap-around count to repeat. */
  const CYCLE: nat := FIFO * WORD

  /** The firmware's test, from the head and tail indices now, the wrap-around count now,
      and the index and count recorded when the request was issued. */
  function PartialDone(head: nat, tail: nat, wraps: nat, tailIndex: nat, tailAssist: nat): (done: bool) {
    if head == tail then true
    else if head < tailIndex then
      if tail < tailIndex then
        if tail > head then true else wraps != (tailAssist + 1) % WORD
      else wraps != tailAssist
    else if head == tailIndex then true
    else if tail < tailIndex then true
    else if tail > head then true
    else wraps != tailAssist
  }

  function Index(count: nat): (i: nat)
    ensures i < FIFO
  {
    count % FIFO
  }

  function Wraps(count: nat): (w: nat)
    ensures w < WORD
  {
    count / FIFO % WORD
  }

  /** A count that the recorded index and wrap-around count cannot tell from rec is outstanding. */
  predicate Outstanding(rec: nat, completed: nat, issued: nat) {
    (rec - completed - 1) % CYCLE < issued - completed
  }

  /** Counts split into window and index, windows into cycle and wrap-around count. */
  lemma Split(count: nat) returns (q: nat, w: nat, i: nat)
    ensures count == CYCLE * q + FIFO * w + i && w == Wraps(count) && i == Index(count)
  {
    q, w, i := count / FIFO / WORD, Wraps(count), Index(count);
  }

  /** The number in 0 .. CYCLE - 1 that differs from x by whole cycles. */
  lemma Reduce(x: int, q: int, r: int)
    requires x == CYCLE * q + r && 0 <= r < CYCLE
    ensures x % CYCLE == r
  {
  }

  /** Head and tail are in the same window, or the tail has wrapped once since the head. */
  lemma Windows(qc: nat, wc: nat, h: nat, qi: nat, wi: nat, t: nat)
    requires h < FIFO && t < FIFO && wc < WORD && wi < WORD
    requires 0 <= (CYCLE * qi + FIFO * wi + t) - (CYCLE * qc + FIFO * wc + h) < FIFO
    ensures if t >= h then qi == qc && wi == wc
            else if wc + 1 < WORD then qi == qc && wi == wc + 1 else qi == qc + 1 && wi == 0
  {
  }

  lemma Distance(qc: nat, wc: nat, h: nat, qr: nat, wr: nat, r: nat)
    requires h < FIFO && r < FIFO && wc < WORD && wr < WORD
    ensures var d := FIFO * (wr - wc) + (r - h - 1);
            ((CYCLE * qr + FIFO * wr + r) - (CYCLE * qc + FIFO * wc + h) - 1) % CYCLE == if d < 0 then d + CYCLE else d
  {
    var d := FIFO * (wr - wc) + (r - h - 1);
    var x := (CYCLE * qr + FIFO * wr + r) - (CYCLE * qc + FIFO * wc + h) - 1;
    assert x == CYCLE * (qr - qc) + d;
    if d < 0 {
      Reduce(x, qr - qc - 1, d + CYCLE);
    } else {
      Reduce(x, qr - qc, d);
    }
  }

  /** The test fails exactly when the recorded count, or one that looks the same, is outstanding. */
  lemma DoneExactly(rec: nat, completed: nat, issued: nat)
    requires completed <= issued < completed + FIFO && rec <= issued
    ensures PartialDone(Index(completed), Index(issued), Wraps(issued), Index(rec), Wraps(rec)) <==>
            !Outstanding(rec, completed, issued)
  {
    hide Index, Wraps;
    var qc, wc, h := Split(completed);
    var qi, wi, t := Split(issued);
    var qr, wr, r := Split(rec);
    Windows(qc, wc, h, qi, wi, t);
    Distance(qc, wc, h, qr, wr, r);
  }

  /** It never reports a request that is not finished, and within a cycle it reports every one that is. */
  lemma DoneMeansDone(rec: nat, completed: nat, issued: nat)
    requires completed <= issued < completed + FIFO && rec <= issued
    ensures !Outstanding(rec, completed, issued) ==> rec <= completed
    ensures issued - rec < CYCLE ==> (!Outstanding(rec, completed, issued) <==> rec <= completed)
  {
    if rec > completed {
      Reduce(rec - completed - 1, 0, rec - completed - 1);
    } else if issued - rec < CYCLE {
      Reduce(rec - completed - 1, -1, rec - completed - 1 + CYCLE);
    }
  }

  /** A request left in the queue for a whole cycle of DMAs is reported unfinished although it is finished. */
  lemma CycleHidesDone()
    ensures !PartialDone(Index(CYCLE), Index(CYCLE + 1), Wraps(CYCLE + 1), Index(1), Wraps(1))
  {
  }

  /** The FIFO-full test is exact: one more DMA would make 256 outstanding, and those would
      look like none. */
  lemma FullExactly(completed: nat, issued: nat)
    requires completed <= issued < completed + FIFO
    ensures (Index(issued) + 1) % FIFO == Index(completed) <==> issued + 1 == completed + FIFO
    ensures issued + 1 == completed + FIFO ==> Index(issued + 1) == Index(completed)
  {
  }

  lemma NextCount(issued: nat)
    ensures Index(issued + 1) == (Index(issued) + 1) % FIFO
    ensures Wraps(issued + 1) == if Index(issued) > Index(issued + 1) then (Wraps(issued) + 1) % WORD else Wraps(issued)
  {
    var q, w, i := Split(issued);
    var q', w', i' := Split(issued + 1);
    Windows(q, w, i, q', w', i');
  }

  /** One direction of the engine. The hardware's count of completed DMAs is read modulo 256. */
  class DmaFifo {
    var tail: nat          // 8 bits
    var wraps: nat         // 32 bits
    var completed: nat     // in the hardware
    ghost var issued: nat

    ghost predicate Valid()
      reads this
    {
      completed <= issued < completed + FIFO && tail == Index(issued) && wraps == Wraps(issued)
    }

    constructor ()
      ensures Valid() && issued == completed == 0
    {
      tail, wraps, completed, issued := 0, 0, 0, 0;
    }

    /** The hardware finishes some of the outstanding DMAs. */
    method Progress(count: nat)
      requires Valid() && completed <= count <= issued
      modifies this
      ensures Valid() && completed == count && issued == old(issued)
    {
      completed := count;
    }

    /** Send one DMA, waiting while the FIFO is full. The readings are what the hardware shows
        at successive reads; with a FIFO full at every one of them the wait goes on. */
    method SetAutoDma(readings: seq<nat>) returns (sent: bool)
      requires Valid() && forall i :: 0 <= i < |readings| ==> completed <= readings[i] <= issued
      requires forall i, j :: 0 <= i < j < |readings| ==> readings[i] <= readings[j]
      modifies this
      ensures Valid() && issued == old(issued) + (if sent then 1 else 0)
      ensures sent <==> exists i :: 0 <= i < |readings| && old(issued) - readings[i] < FIFO - 1
      ensures completed == old(completed) || completed in readings
    {
      hide Index, Wraps;
      var k := 0;
      sent := false;
      while k < |readings| && !sent
        invariant 0 <= k <= |readings| && Valid() && issued == old(issued)
        invariant k < |readings| ==> completed <= readings[k]
        invariant sent ==> 0 < k && completed == readings[k-1] && issued - readings[k-1] < FIFO - 1
        invariant !sent ==> forall i :: 0 <= i < k ==> issued - readings[i] == FIFO - 1
        invariant completed == old(completed) || completed in readings
      {
        FullExactly(readings[k], issued);
        completed := readings[k];
        sent := (tail + 1) % FIFO != Index(completed);
        k := k + 1;
      }
      if sent {
        NextCount(issued);
        var was := tail;
        tail := (tail + 1) % FIFO;
        if was > tail {
          wraps := (wraps + 1) % WORD;
        }
        issued := issued + 1;
      }
    }

    /** Whether a request recorded at count rec is finished. */
    method Check(tailIndex: nat, tailAssist: nat, ghost rec: nat) returns (done: bool)
      requires Valid() && rec <= issued && tailIndex == Index(rec) && tailAssist == Wraps(rec)
      ensures done <==> !Outstanding(rec, completed, issued)
      ensures done ==> rec <= completed
      ensures issued - rec < CYCLE ==> (done <==> rec <= completed)
    {
      DoneExactly(rec, completed, issued);
      DoneMeansDone(rec, completed, issued);
      done := PartialDone(Index(completed), tail, wraps, tailIndex, tailAssist);
    }
  }

  // ---- the completion scan ----

  ghost predicate Sorted(recs: seq<nat>) {
    forall i, j :: 0 <= i < j < |recs| ==> recs[i] <= recs[j]
  }

  /** Which requests a scan retires when it asks about each one. */
  function Plain(recs: seq<nat>, completed: nat): (r: seq<bool>)
    ensures |r| == |recs| && forall i :: 0 <= i < |recs| ==> (r[i] <==> recs[i] <= completed)
  {
    seq(|recs|, i requires 0 <= i < |recs| => recs[i] <= completed)
  }

  /** Which requests it retires when it walks from the tail and stops asking after the first yes. */
  function Sticky(recs: seq<nat>, completed: nat, done: bool): (r: seq<bool>)
    ensures |r| == |recs|
  {
    if recs == [] then []
    else
      var last := |recs| - 1;
      var now := done || recs[last] <= completed;
      Sticky(recs[..last], completed, now) + [now]
  }

  lemma {:induction false} StickyAt(recs: seq<nat>, completed: nat, done: bool, i: nat)
    requires i < |recs|
    ensures Sticky(recs, completed, done)[i] <==> done || exists j :: i <= j < |recs| && recs[j] <= completed
  {
    var last := |recs| - 1;
    if i < last {
      StickyAt(recs[..last], completed, done || recs[last] <= completed, i);
      assert forall j :: i <= j < last ==> recs[..last][j] == recs[j];
    }
  }

  /** The shortcut agrees with asking about every request, whatever has completed, exactly
      when the requests were issued in queue order. */
  lemma StickyIsExact(recs: seq<nat>)
    ensures (forall c :: Sticky(recs, c, false) == Plain(recs, c)) <==> Sorted(recs)
  {
    if Sorted(recs) {
      forall c ensures Sticky(recs, c, false) == Plain(recs, c) {
        forall i | 0 <= i < |recs| ensures Sticky(recs, c, false)[i] == Plain(recs, c)[i] {
          StickyAt(recs, c, false, i);
        }
      }
    } else {
      var i, j :| 0 <= i < j < |recs| && recs[i] > recs[j];
      StickyAt(recs, recs[j], false, i);
      assert Sticky(recs, recs[j], false)[i] != Plain(recs, recs[j])[i];
    }
  }

  /** The counts recorded when a scan itself issues waiting transmissions, tail first. */
  function IssuedLate(blocks: seq<nat>, issued: nat): (recs: seq<nat>)
    ensures |recs| == |blocks|
  {
    if blocks == [] then []
    else
      var last := |blocks| - 1;
      IssuedLate(blocks[..last], issued + blocks[last]) + [issued + blocks[last]]
  }

  lemma LastLate(blocks: seq<nat>, issued: nat)
    requires blocks != []
    ensures var last := |blocks| - 1;
            && IssuedLate(blocks, issued)[last] == issued + blocks[last]
            && IssuedLate(blocks, issued)[..last] == IssuedLate(blocks[..last], issued + blocks[last])
  {
  }

  /** Two or more transmissions issued by one scan are out of order, so for some completion
      count the next scan retires a transmission that is not finished. */
  lemma LateIssueBreaks(blocks: seq<nat>, issued: nat)
    requires |blocks| >= 2 && forall i :: 0 <= i < |blocks| ==> 0 < blocks[i]
    ensures !Sorted(IssuedLate(blocks, issued))
    ensures exists c :: Sticky(IssuedLate(blocks, issued), c, false) != Plain(IssuedLate(blocks, issued), c)
  {
    var last, recs := |blocks| - 1, IssuedLate(blocks, issued);
    LastLate(blocks, issued);
    LastLate(blocks[..last], issued + blocks[last]);
    assert recs[last - 1] == IssuedLate(blocks[..last], issued + blocks[last])[last - 1] > recs[last];
    StickyIsExact(recs);
  }
}
