/** The queues of host DMA requests and the scan that retires finished ones, with the hardware
    finishing DMAs and releases appending requests between any two visits. The host DMA queue holds
    issued requests only; the custom command queue also holds transmissions still to be issued. */
module DmaScan {
  import opened Basics
  import opened HostDma

  datatype Pending = Pending(rx: bool, issued: bool, reqTail: nat, overFlowCnt: nat)

  /** The issued requests of one direction stand in the order they were issued. */
  ghost predicate InIssueOrder(q: seq<Pending>, recs: seq<nat>, rx: bool)
    requires |q| == |recs|
  {
    forall i, j :: 0 <= i < j < |q| && q[i].issued && q[j].issued && q[i].rx == q[j].rx == rx ==> recs[i] <= recs[j]
  }

  /** Every issued request holds the index and wrap-around count of the DMA count it was recorded at;
      only transmissions are issued late. */
  ghost predicate Recorded(q: seq<Pending>, recs: seq<nat>, rxIssued: nat, txIssued: nat)
    requires |q| == |recs|
  {
    forall i :: 0 <= i < |q| ==>
      && (q[i].rx ==> q[i].issued)
      && (q[i].issued ==>
            && recs[i] <= (if q[i].rx then rxIssued else txIssued)
            && q[i].reqTail == Index(recs[i]) && q[i].overFlowCnt == Wraps(recs[i]))
  }

  /** As far as the scan still has to go, the issued requests of a direction are finished. */
  ghost predicate Finished(q: seq<Pending>, recs: seq<nat>, cursor: int, rx: bool, completed: nat)
    requires |q| == |recs| && cursor < |q|
  {
    forall i :: 0 <= i <= cursor && q[i].issued && q[i].rx == rx ==> recs[i] <= completed
  }

  /** As far as the scan still has to go, the issued requests of a direction are in issue order. */
  ghost predicate Before(q: seq<Pending>, recs: seq<nat>, cursor: int, rx: bool)
    requires |q| == |recs| && cursor < |q|
  {
    forall i, j :: 0 <= i < j <= cursor && q[i].issued && q[j].issued && q[i].rx == q[j].rx == rx ==> recs[i] <= recs[j]
  }

  lemma WithoutAt<T>(s: seq<T>, c: nat, i: nat)
    requires c < |s| && i < |s| - 1
    ensures Without(s, c)[i] == s[if i < c then i else i + 1]
  {
  }

  lemma RemovedKeeps(q: seq<Pending>, recs: seq<nat>, c: nat, rxIssued: nat, txIssued: nat, rx: bool)
    requires |q| == |recs| && c < |q| && Recorded(q, recs, rxIssued, txIssued)
    ensures Recorded(Without(q, c), Without(recs, c), rxIssued, txIssued)
    ensures InIssueOrder(q, recs, rx) ==> InIssueOrder(Without(q, c), Without(recs, c), rx)
  {
    hide Without;
    forall i | 0 <= i < |q| - 1
      ensures Without(q, c)[i] == q[if i < c then i else i + 1]
      ensures Without(recs, c)[i] == recs[if i < c then i else i + 1]
    {
      WithoutAt(q, c, i);
      WithoutAt(recs, c, i);
    }
  }

  lemma RemovedBefore(q: seq<Pending>, recs: seq<nat>, c: nat, rx: bool, completed: nat)
    requires |q| == |recs| && c < |q|
    ensures Finished(q, recs, c - 1, rx, completed) ==> Finished(Without(q, c), Without(recs, c), c - 1, rx, completed)
    ensures Before(q, recs, c - 1, rx) ==> Before(Without(q, c), Without(recs, c), c - 1, rx)
  {
    assert forall i :: 0 <= i < c ==> Without(q, c)[i] == q[i] && Without(recs, c)[i] == recs[i];
  }

  /** If the request at c is finished, so is everything of its direction before it. */
  lemma EarlierFinished(q: seq<Pending>, recs: seq<nat>, c: nat, completed: nat)
    requires |q| == |recs| && c < |q| && q[c].issued && Before(q, recs, c, q[c].rx) && recs[c] <= completed
    ensures Finished(q, recs, c - 1, q[c].rx, completed)
  {
  }

  lemma OneLess(q: seq<Pending>, recs: seq<nat>, c: nat, rx: bool, completed: nat)
    requires |q| == |recs| && c < |q|
    ensures Finished(q, recs, c, rx, completed) ==> Finished(q, recs, c - 1, rx, completed)
    ensures Before(q, recs, c, rx) ==> Before(q, recs, c - 1, rx)
    ensures q[c].issued && q[c].rx == rx && Finished(q, recs, c, rx, completed) ==> recs[c] <= completed
  {
  }

  lemma RecordedAt(q: seq<Pending>, recs: seq<nat>, rxIssued: nat, txIssued: nat, c: nat)
    requires |q| == |recs| && c < |q| && Recorded(q, recs, rxIssued, txIssued) && q[c].issued
    ensures q[c].reqTail == Index(recs[c]) && q[c].overFlowCnt == Wraps(recs[c])
    ensures recs[c] <= if q[c].rx then rxIssued else txIssued
  {
  }

  /** A transmission issued late keeps the issue order exactly when no transmission behind it is issued. */
  lemma LateOrder(q: seq<Pending>, recs: seq<nat>, c: nat, p: Pending, n: nat)
    requires |q| == |recs| && c < |q| && !q[c].issued && !q[c].rx && p.issued && !p.rx
    requires forall i :: 0 <= i < |q| && q[i].issued && !q[i].rx ==> recs[i] < n
    ensures InIssueOrder(q[c := p], recs[c := n], false) <==>
            InIssueOrder(q, recs, false) && forall j :: c < j < |q| && !q[j].rx ==> !q[j].issued
    ensures Before(q, recs, c - 1, false) ==> Before(q[c := p], recs[c := n], c - 1, false)
  {
    var q', recs' := q[c := p], recs[c := n];
    assert forall i :: 0 <= i < c ==> q'[i] == q[i] && recs'[i] == recs[i];
    if InIssueOrder(q', recs', false) {
      forall i, j | 0 <= i < j < |q| && q[i].issued && q[j].issued && q[i].rx == q[j].rx == false
        ensures recs[i] <= recs[j]
      {
        assert q'[i] == q[i] && q'[j] == q[j];
      }
      forall j | c < j < |q| && !q[j].rx ensures !q[j].issued {
        assert q'[j] == q[j] && q'[c] == p;
      }
    }
  }

  class DmaQueue {
    const rxFifo: DmaFifo
    const txFifo: DmaFifo
    var q: seq<Pending>
    var cursor: int                // next request the scan visits; below 0 when it is over
    var rxDone: bool
    var txDone: bool
    ghost var recs: seq<nat>       // the unbounded count each request was recorded at
    ghost var fair: bool           // the transmissions were in issue order when the scan began

    function Fifo(rx: bool): (f: DmaFifo) {
      if rx then rxFifo else txFifo
    }

    ghost predicate Valid()
      reads this, rxFifo, txFifo
    {
      && rxFifo != txFifo && rxFifo.Valid() && txFifo.Valid()
      && |recs| == |q| && -1 <= cursor < |q|
      && Recorded(q, recs, rxFifo.issued, txFifo.issued) && InIssueOrder(q, recs, true)
      && Before(q, recs, cursor, true) && (rxDone ==> Finished(q, recs, cursor, true, rxFifo.completed))
      && (fair ==> Before(q, recs, cursor, false) && (txDone ==> Finished(q, recs, cursor, false, txFifo.completed)))
    }

    /** All transmissions in issue order, as they always are in the host DMA queue. */
    ghost predicate TxInOrder()
      reads this
    {
      |recs| == |q| && InIssueOrder(q, recs, false)
    }

    constructor ()
      ensures Valid() && q == [] && cursor == -1 && TxInOrder()
      ensures fresh(rxFifo) && fresh(txFifo)
    {
      var r := new DmaFifo();
      var t := new DmaFifo();
      rxFifo, txFifo := r, t;
      q, recs, cursor, rxDone, txDone, fair := [], [], -1, false, false, true;
    }

    /** The hardware finishes DMAs, at any time. */
    method HardwareDone(rx: bool, count: nat)
      requires Valid() && Fifo(rx).completed <= count <= Fifo(rx).issued
      modifies Fifo(rx)
      ensures Valid() && Fifo(rx).completed == count
    {
      hide Index, Wraps;
      Fifo(rx).Progress(count);
    }

    /** One block of a request is sent, waiting while the FIFO is full; possibly while a scan
        is under way, because retiring a request releases others. */
    method Send(rx: bool, readings: seq<nat>) returns (sent: bool)
      requires Valid() && forall i :: 0 <= i < |readings| ==> Fifo(rx).completed <= readings[i] <= Fifo(rx).issued
      requires forall i, j :: 0 <= i < j < |readings| ==> readings[i] <= readings[j]
      modifies Fifo(rx)
      ensures Valid() && Fifo(rx).issued == old(Fifo(rx).issued) + (if sent then 1 else 0)
      ensures sent <==> exists i :: 0 <= i < |readings| && old(Fifo(rx).issued) - readings[i] < FIFO - 1
    {
      hide Index, Wraps;
      var f := Fifo(rx);
      sent := f.SetAutoDma(readings);
      assert f.completed >= old(f.completed);
    }

    /** A request whose blocks have been sent is recorded and appended; a transmission of a command
        with receptions outstanding is appended without being issued. */
    method Append(rx: bool, issued: bool)
      requires Valid() && (rx ==> issued)
      modifies this
      ensures Valid() && cursor == old(cursor) && rxDone == old(rxDone) && txDone == old(txDone)
      ensures q == old(q) + [Pending(rx, issued, Fifo(rx).tail, Fifo(rx).wraps)]
      ensures recs == old(recs) + [Fifo(rx).issued]
      ensures old(TxInOrder()) ==> TxInOrder()
    {
      hide Index, Wraps;
      q := q + [Pending(rx, issued, Fifo(rx).tail, Fifo(rx).wraps)];
      recs := recs + [Fifo(rx).issued];
    }

    /** A new scan starts at the tail. */
    method Begin()
      requires Valid() && cursor == -1
      modifies this
      ensures Valid() && q == old(q) && recs == old(recs) && cursor == |q| - 1 && fair == old(TxInOrder())
    {
      fair := TxInOrder();
      cursor, rxDone, txDone := |q| - 1, false, false;
    }

    /** Visit an issued request: retire it if it, or one visited before it, was found finished. A
        reception is retired exactly when it is finished, and so is a transmission if the
        transmissions were in issue order when the scan began. */
    method Visit() returns (retired: bool)
      requires Valid() && 0 <= cursor && q[cursor].issued
      modifies this
      ensures Valid() && cursor == old(cursor) - 1 && fair == old(fair)
      ensures old(q)[old(cursor)].rx || fair ==>
                && (retired ==> old(recs)[old(cursor)] <= Fifo(old(q)[old(cursor)].rx).completed)
                && (Fifo(old(q)[old(cursor)].rx).issued - old(recs)[old(cursor)] < CYCLE ==>
                      (retired <==> old(recs)[old(cursor)] <= Fifo(old(q)[old(cursor)].rx).completed))
      ensures var c := old(cursor);
              if retired then q == Without(old(q), c) && recs == Without(old(recs), c)
              else q == old(q) && recs == old(recs)
      ensures var r, rx := old(recs)[old(cursor)], old(q)[old(cursor)].rx;
              && (retired <==>
                    (if rx then old(rxDone) else old(txDone)) || !Outstanding(r, Fifo(rx).completed, Fifo(rx).issued))
              && (rxDone <==> if rx then retired else old(rxDone)) && (txDone <==> if rx then old(txDone) else retired)
      ensures old(TxInOrder()) ==> TxInOrder()
    {
      hide Index, Wraps, InIssueOrder, Recorded, Outstanding, Finished, Before, Without;
      var c := cursor;
      var p := q[c];
      RecordedAt(q, recs, rxFifo.issued, txFifo.issued, c);
      OneLess(q, recs, c, true, rxFifo.completed);
      OneLess(q, recs, c, false, txFifo.completed);
      if p.rx {
        if !rxDone {
          rxDone := rxFifo.Check(p.reqTail, p.overFlowCnt, recs[c]);
        }
        retired := rxDone;
        if rxDone {
          EarlierFinished(q, recs, c, rxFifo.completed);
        }
      } else {
        if !txDone {
          txDone := txFifo.Check(p.reqTail, p.overFlowCnt, recs[c]);
        }
        retired := txDone;
        if txDone && fair {
          EarlierFinished(q, recs, c, txFifo.completed);
        }
      }
      if retired {
        RemovedKeeps(q, recs, c, rxFifo.issued, txFifo.issued, true);
        RemovedKeeps(q, recs, c, rxFifo.issued, txFifo.issued, false);
        RemovedBefore(q, recs, c, true, rxFifo.completed);
        RemovedBefore(q, recs, c, false, txFifo.completed);
        q := Without(q, c);
        recs := Without(recs, c);
      }
      cursor := c - 1;
    }

    /** Visit a transmission that is not issued and whose command still has receptions outstanding. */
    method Skip()
      requires Valid() && 0 <= cursor && !q[cursor].issued
      modifies this
      ensures Valid() && cursor == old(cursor) - 1 && q == old(q) && recs == old(recs) && fair == old(fair)
    {
      cursor := cursor - 1;
    }

    /** Visit a transmission whose receptions are done by now and whose blocks have just been sent. The
        transmissions stay in issue order exactly when none behind it is issued; the scan under way is
        not affected. */
    method IssueLate()
      requires Valid() && 0 <= cursor && !q[cursor].issued
      requires forall i :: 0 <= i < |q| && q[i].issued && !q[i].rx ==> recs[i] < txFifo.issued
      modifies this
      ensures Valid() && cursor == old(cursor) - 1 && fair == old(fair)
      ensures q == old(q)[old(cursor) := Pending(false, true, txFifo.tail, txFifo.wraps)]
      ensures recs == old(recs)[old(cursor) := txFifo.issued]
      ensures TxInOrder() <==> old(TxInOrder()) && forall j :: old(cursor) < j < |old(q)| && !old(q)[j].rx ==>
              !old(q)[j].issued
    {
      var c := cursor;
      var p := Pending(false, true, txFifo.tail, txFifo.wraps);
      assert !q[c].rx;
      LateOrder(q, recs, c, p, txFifo.issued);
      hide Index, Wraps;
      q := q[c := p];
      recs := recs[c := txFifo.issued];
      cursor := c - 1;
    }
  }
}
