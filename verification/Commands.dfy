/** Whole NVMe commands, split into slice requests and served in order. */
module Commands {
  import opened Slices
  import S = Store
  import opened Room
  import opened Basics
  import opened Die
  import opened Journal

  datatype Command<+B> =
    | ReadCmd(lba: nat, nlb: nat)
    | WriteCmd(lba: nat, blocks: seq<B>)

  function Nlb<B>(c: Command<B>): (n: int) {
    if c.ReadCmd? then c.nlb else |c.blocks| - 1
  }

  /** A 32-bit address and a 16-bit, 0's based number of blocks. */
  predicate Encodable<B>(c: Command<B>) {
    c.lba < 0x1_0000_0000 && 0 <= Nlb(c) < 0x1_0000
  }

  /** The host's array after a command. */
  ghost function After<B>(flat: map<nat, B>, c: Command<B>): (f: map<nat, B>) {
    if c.ReadCmd? then flat else S.Laid(flat, c.lba, c.blocks)
  }

  ghost function AfterAll<B>(flat: map<nat, B>, cs: seq<Command<B>>): (f: map<nat, B>) {
    if cs == [] then flat else After(AfterAll(flat, cs[..|cs|-1]), cs[|cs|-1])
  }

  /** The first n blocks of a read: each one ever written comes back as last written. */
  ghost predicate Returned<B>(flat: map<nat, B>, lba: nat, n: nat, out: seq<B>) {
    |out| == n && forall i :: 0 <= i < n && lba + i in flat ==> out[i] == flat[lba + i]
  }

  ghost predicate Answered<B>(flat: map<nat, B>, c: Command<B>, out: seq<B>) {
    c.ReadCmd? ==> Returned(flat, c.lba, c.nlb + 1, out)
  }

  lemma {:induction false} LaidTwice<B>(flat: map<nat, B>, lba: nat, a: seq<B>, b: seq<B>)
    ensures S.Laid(S.Laid(flat, lba, a), lba + |a|, b) == S.Laid(flat, lba, a + b)
    decreases |a|
  {
    if a == [] {
      assert a + b == b;
    } else {
      LaidTwice(flat[lba := a[0]], lba + 1, a[1..], b);
      assert (a + b)[1..] == a[1..] + b;
    }
  }

  lemma ReturnedMore<B>(flat: map<nat, B>, lba: nat, n: nat, out: seq<B>, p: Part, more: seq<B>)
    requires Returned(flat, lba, n, out) && Lba(p.lsa, p.offset) == lba + n
    requires S.Answers(flat, S.Read(p.lsa, p.offset, p.count), more)
    ensures Returned(flat, lba, n + p.count, out + more)
  {
    forall i | n <= i < n + p.count && lba + i in flat ensures (out + more)[i] == flat[lba + i] {
      assert Lba(p.lsa, p.offset + (i - n)) == lba + i;
    }
  }

  /** The slice request for a part of a command. */
  function Request<B>(c: Command<B>, p: Part): (r: S.Request<B>)
    requires c.WriteCmd? ==> p.startIndex + p.count <= |c.blocks|
  {
    if c.ReadCmd? then S.Read(p.lsa, p.offset, p.count)
    else S.Write(p.lsa, p.offset, c.blocks[p.startIndex..p.startIndex + p.count])
  }

  /** Where the host's array stands after n blocks of a command. */
  ghost function Partly<B>(flat: map<nat, B>, c: Command<B>, n: nat): (f: map<nat, B>)
    requires c.WriteCmd? ==> n <= |c.blocks|
  {
    if c.ReadCmd? then flat else S.Laid(flat, c.lba, c.blocks[..n])
  }

  lemma PartlyMore<B>(flat: map<nat, B>, c: Command<B>, p: Part)
    requires c.WriteCmd? ==> p.startIndex + p.count <= |c.blocks|
    requires Lba(p.lsa, p.offset) == c.lba + p.startIndex
    ensures S.Apply(Partly(flat, c, p.startIndex), Request(c, p)) == Partly(flat, c, p.startIndex + p.count)
    ensures c.ReadCmd? ==> Partly(flat, c, p.startIndex) == flat
  {
    if c.WriteCmd? {
      var a, b := c.blocks[..p.startIndex], c.blocks[p.startIndex..p.startIndex + p.count];
      LaidTwice(flat, c.lba, a, b);
      assert a + b == c.blocks[..p.startIndex + p.count];
    }
  }

  /** The number of slice requests of a command. */
  function Requests<B>(c: Command<B>): (n: nat) {
    if Nlb(c) < 0 then 0 else Touched(c.lba, Nlb(c) + 1)
  }

  /** A DMA request that transmits blocks of a read, and which blocks of its buffer those are. */
  datatype Ticket = Ticket(num: nat, offset: nat, count: nat)

  /** What the host has been sent for a read. */
  ghost function Gathered<B>(sent: imap<nat, seq<B>>, tickets: seq<Ticket>): (out: seq<B>) {
    if tickets == [] then []
    else
      var t := tickets[|tickets|-1];
      Gathered(sent, tickets[..|tickets|-1]) + (if t.num in sent then S.Cut(sent[t.num], t.offset, t.count) else [])
  }

  ghost predicate Issued(tickets: seq<Ticket>, n: nat) {
    forall i :: 0 <= i < |tickets| ==> tickets[i].num < n
  }

  /** What has been sent stays sent. */
  lemma {:induction false} GatheredKept<B>(j: Journal<seq<B>>, j': Journal<seq<B>>, tickets: seq<Ticket>, n: nat)
    requires S.Sending(j, j', n) && Issued(tickets, |j.log|)
    ensures Gathered(j'.mem.sent, tickets) == Gathered(j.mem.sent, tickets) && Issued(tickets, |j'.log|)
    decreases |tickets|
  {
    if tickets != [] {
      GatheredKept(j, j', tickets[..|tickets|-1], n);
    }
  }

  lemma GatheredAppend<B>(sent: imap<nat, seq<B>>, tickets: seq<Ticket>, t: Ticket)
    requires t.num in sent
    ensures Gathered(sent, tickets + [t]) == Gathered(sent, tickets) + S.Cut(sent[t.num], t.offset, t.count)
  {
    assert (tickets + [t])[..|tickets|] == tickets;
  }

  lemma LastIsSent<B>(j: Journal<seq<B>>, j': Journal<seq<B>>)
    requires S.Sending(j, j', 1)
    ensures |j'.log| > 0 && |j'.log| - 1 in j'.mem.sent && S.LastSent(j') == j'.mem.sent[|j'.log| - 1]
  {
  }

  lemma GatheredMore<B>(j: Journal<seq<B>>, j': Journal<seq<B>>, tickets: seq<Ticket>, offset: nat, count: nat)
    requires S.Sending(j, j', 1) && Issued(tickets, |j.log|)
    ensures |j'.log| > 0
    ensures var more := tickets + [Ticket(|j'.log| - 1, offset, count)];
            && Issued(more, |j'.log|)
            && Gathered(j'.mem.sent, more) == Gathered(j.mem.sent, tickets) + S.Cut(S.LastSent(j'), offset, count)
  {
    hide S.Sending, S.Cut, Gathered;
    LastIsSent(j, j');
    GatheredAppend(j'.mem.sent, tickets, Ticket(|j'.log| - 1, offset, count));
    GatheredKept(j, j', tickets, 1);
  }

  /** The slice a block is in. */
  function SliceNo(lba: nat): (l: nat) {
    lba / NVME_BLOCKS_PER_SLICE
  }

  /** Every slice the command touches is in a buffer. */
  ghost predicate AllBuffered<B>(m: S.Mem<B>, c: Command<B>) {
    forall a :: c.lba <= a <= c.lba + Nlb(c) ==> S.Buffered(m, SliceNo(a))
  }

  lemma PartBuffered<B>(m: S.Mem<B>, c: Command<B>, p: Part)
    requires AllBuffered(m, c) && Fits(p) && Lba(p.lsa, p.offset) == c.lba + p.startIndex
    requires p.startIndex + p.count <= Nlb(c) + 1
    ensures S.Buffered(m, p.lsa)
  {
    SliceOf(p.lsa, p.offset);
    assert SliceNo(c.lba + p.startIndex) == p.lsa;
  }

  lemma InPart<B>(c: Command<B>, p: Part)
    requires Fits(p) && p.startIndex + p.count <= Nlb(c) + 1
    ensures S.InSlice(Request(c, p)) && Request(c, p).lsa == p.lsa
  {
  }

  lemma StillBuffered<B>(m: S.Mem<B>, m': S.Mem<B>, c: Command<B>)
    requires AllBuffered(m, c) && forall l :: S.Buffered(m', l) <==> S.Buffered(m, l)
    ensures AllBuffered(m', c)
  {
  }

  /** What a command changes: the host's array, the dies, the journal, and whether its slices are buffered. */
  datatype Point<!B> = Point(flat: map<nat, B>, views: seq<DieView>, journal: Journal<seq<B>>, held: bool)

  ghost function At<B>(s: S.Store<B>, c: Command<B>): (p: Point<B>)
    reads s, s.main, s.rbuf, s.ftl, s.ftl.arr
  {
    Point(s.flat, s.ftl.arr.views, s.ftl.journal, AllBuffered(s.M(), c))
  }

  /** Part p of a command has been served between a and b. */
  ghost predicate PartServed<B>(a: Point<B>, b: Point<B>, c: Command<B>, p: Part, pages: nat, tickets: seq<Ticket>,
                                all: seq<Ticket>, more: seq<B>) {
    && (c.WriteCmd? ==> p.startIndex + p.count <= |c.blocks|) && b.flat == S.Apply(a.flat, Request(c, p))
    && Used(a.views, b.views, pages, 1) && S.Sending(a.journal, b.journal, 0) && Issued(all, |b.journal.log|)
    && (c.ReadCmd? ==>
          && S.Answers(a.flat, S.Read(p.lsa, p.offset, p.count), more)
          && Gathered(b.journal.mem.sent, all) == Gathered(a.journal.mem.sent, tickets) + more)
    && (a.held ==> b.held && b.views == a.views && |b.journal.log| == |a.journal.log| + 1)
  }

  /** The first n blocks of a command have been served between a and b, in j parts. */
  ghost predicate Underway<B>(a: Point<B>, b: Point<B>, c: Command<B>, pages: nat, j: nat, n: nat, tickets: seq<Ticket>,
                              out: seq<B>) {
    && (c.WriteCmd? ==> n <= |c.blocks|) && b.flat == Partly(a.flat, c, n)
    && Used(a.views, b.views, pages, j) && S.Sending(a.journal, b.journal, 0) && Issued(tickets, |b.journal.log|)
    && (c.ReadCmd? ==> Returned(a.flat, c.lba, n, out) && out == Gathered(b.journal.mem.sent, tickets))
    && (a.held ==> b.held && b.views == a.views && |b.journal.log| == |a.journal.log| + j)
  }

  lemma UnderwayStart<B>(a: Point<B>, c: Command<B>, pages: nat)
    requires S.Sending(a.journal, a.journal, 0)
    ensures Underway(a, a, c, pages, 0, 0, [], [])
  {
  }

  lemma UnderwayOn<B>(a: Point<B>, b: Point<B>, d: Point<B>, c: Command<B>, pages: nat, j: nat, p: Part,
                      tickets: seq<Ticket>, out: seq<B>, all: seq<Ticket>, more: seq<B>)
    requires Underway(a, b, c, pages, j, p.startIndex, tickets, out)
    requires PartServed(b, d, c, p, pages, tickets, all, more) && Lba(p.lsa, p.offset) == c.lba + p.startIndex
    ensures Underway(a, d, c, pages, j + 1, p.startIndex + p.count, all, out + more)
  {
    hide Used, S.Sending, Issued, Gathered, Partly, Returned, S.Apply, S.Answers, Request, Lba;
    UsedTwice(a.views, b.views, d.views, pages, j, 1);
    S.SendingTwice(a.journal, b.journal, d.journal, 0, 0);
    PartlyMore(a.flat, c, p);
    if c.ReadCmd? {
      ReturnedMore(a.flat, c.lba, p.startIndex, out, p, more);
    }
  }

  /** One part of a command. */
  method ServePart<B>(s: S.Store<B>, c: Command<B>, p: Part, ghost tickets: seq<Ticket>)
    returns (ok: bool, more: seq<B>, ghost all: seq<Ticket>)
    requires s.Valid() && Fits(p) && Lba(p.lsa, p.offset) == c.lba + p.startIndex
    requires p.startIndex + p.count <= Nlb(c) + 1 && Issued(tickets, |s.ftl.journal.log|)
    modifies s.Repr()
    ensures ok ==> s.Valid() && PartServed(old(At(s, c)), At(s, c), c, p, s.ftl.pages, tickets, all, more)
    ensures old(HasRoom(s.ftl.arr.views, s.ftl.pages, 1)) || old(AllBuffered(s.M(), c)) ==> ok
  {
    hide S.Store.Valid, S.Apply, S.Answers, HasRoom, Used, S.Sending, S.LastSent, S.Cut, Gathered, Issued,
      S.Refreshed, S.TakenIn, S.Buffered, AllBuffered, Fits, Lba;
    if AllBuffered(s.M(), c) {
      PartBuffered(s.M(), c, p);
    }
    ghost var before := s.ftl.journal;
    ghost var m := s.M();
    all := tickets;
    InPart(c, p);
    ok, more := s.Serve(Request(c, p));
    if !ok {
      return;
    }
    if AllBuffered(m, c) {
      StillBuffered(m, s.M(), c);
    }
    S.SendingLess(before, s.ftl.journal, 1);
    if c.ReadCmd? {
      GatheredMore(before, s.ftl.journal, tickets, p.offset, p.count);
      all := tickets + [Ticket(|s.ftl.journal.log| - 1, p.offset, p.count)];
    } else {
      GatheredKept(before, s.ftl.journal, tickets, 1);
    }
  }

  /** A command served slice by slice. It uses at most one page per slice request on every die, and
      fails only when some die has fewer pages than that left before the reserve. What a read returns
      is what its DMA requests send. A command whose slices are all in the buffers is always served, with no
      page used and no request submitted but its DMAs. */
  method Execute<B>(s: S.Store<B>, c: Command<B>) returns (ok: bool, out: seq<B>, ghost tickets: seq<Ticket>)
    requires s.Valid() && Encodable(c)
    modifies s.Repr()
    ensures ok ==> s.Valid() && s.flat == After(old(s.flat), c) && Answered(old(s.flat), c, out)
    ensures ok ==> Used(old(s.ftl.arr.views), s.ftl.arr.views, s.ftl.pages, Requests(c))
    ensures ok ==> S.Sending(old(s.ftl.journal), s.ftl.journal, 0) && Issued(tickets, |s.ftl.journal.log|)
    ensures ok && c.ReadCmd? ==> out == Gathered(s.ftl.journal.mem.sent, tickets)
    ensures old(HasRoom(s.ftl.arr.views, s.ftl.pages, Requests(c))) ==> ok
    ensures old(AllBuffered(s.M(), c)) ==>
              && ok && s.ftl.arr.views == old(s.ftl.arr.views) && AllBuffered(s.M(), c)
              && |s.ftl.journal.log| == |old(s.ftl.journal).log| + Requests(c)
  {
    hide S.Store.Valid, Tiles, HasRoom, Used, S.Sending, Gathered, Issued, Partly, Returned, After, Touched, Fits, Lba,
      AllBuffered, S.Buffered, Underway, PartServed;
    tickets, out := [], [];
    s.NothingSent();
    ghost var a := At(s, c);
    UnderwayStart(a, c, s.ftl.pages);
    var parts := ReqTransNvmeToSlice(c.lba, Nlb(c));
    OnePartPerSlice(parts, c.lba, Nlb(c) + 1);
    FirstPart(parts, c.lba, Nlb(c) + 1);
    var j := 0;
    ghost var n := 0;
    while j < |parts|
      invariant 0 <= j <= |parts| && s.Valid() && n == if j < |parts| then parts[j].startIndex else Nlb(c) + 1
      invariant Underway(a, At(s, c), c, s.ftl.pages, j, n, tickets, out)
    {
      var p := parts[j];
      PartAt(parts, c.lba, Nlb(c) + 1, j);
      ghost var b := At(s, c);
      UnderwayTells(a, b, c, s.ftl.pages, j, n, tickets, out, |parts|);
      var more;
      ghost var all;
      ok, more, all := ServePart(s, c, p, tickets);
      if !ok {
        return;
      }
      UnderwayOn(a, b, At(s, c), c, s.ftl.pages, j, p, tickets, out, all, more);
      out, tickets := out + more, all;
      n := p.startIndex + p.count;
      j := j + 1;
    }
    ok := true;
    UnderwayEnd(a, At(s, c), c, s.ftl.pages, j, tickets, out);
  }

  lemma UnderwayTells<B>(a: Point<B>, b: Point<B>, c: Command<B>, pages: nat, j: nat, n: nat, tickets: seq<Ticket>,
                         out: seq<B>, parts: nat)
    requires Underway(a, b, c, pages, j, n, tickets, out) && j < parts
    ensures Issued(tickets, |b.journal.log|) && (a.held ==> b.held)
    ensures HasRoom(a.views, pages, parts) ==> HasRoom(b.views, pages, 1)
  {
    StillRoom(a.views, b.views, pages, j, parts);
  }

  lemma UnderwayEnd<B>(a: Point<B>, b: Point<B>, c: Command<B>, pages: nat, j: nat, tickets: seq<Ticket>, out: seq<B>)
    requires 0 <= Nlb(c) && Underway(a, b, c, pages, j, Nlb(c) + 1, tickets, out)
    ensures b.flat == After(a.flat, c) && Answered(a.flat, c, out) && Used(a.views, b.views, pages, j)
    ensures S.Sending(a.journal, b.journal, 0) && Issued(tickets, |b.journal.log|)
    ensures c.ReadCmd? ==> out == Gathered(b.journal.mem.sent, tickets)
    ensures a.held ==> b.held && b.views == a.views && |b.journal.log| == |a.journal.log| + j
  {
    hide S.Laid, Used, S.Sending, Issued, Gathered;
    AllParts(a.flat, c);
  }

  lemma AllParts<B>(flat: map<nat, B>, c: Command<B>)
    requires 0 <= Nlb(c)
    ensures Partly(flat, c, Nlb(c) + 1) == After(flat, c)
  {
    assert c.WriteCmd? ==> c.blocks[..Nlb(c) + 1] == c.blocks;
  }

  lemma FirstPart(parts: seq<Part>, lba: nat, n: nat)
    requires Tiles(parts, lba, n) && 0 < n
    ensures parts != [] && parts[0].startIndex == 0
  {
  }

  lemma PartAt(parts: seq<Part>, lba: nat, n: nat, j: nat)
    requires Tiles(parts, lba, n) && j < |parts|
    ensures Fits(parts[j]) && Lba(parts[j].lsa, parts[j].offset) == lba + parts[j].startIndex
    ensures parts[j].startIndex + parts[j].count == (if j + 1 < |parts| then parts[j + 1].startIndex else n)
    ensures parts[j].startIndex + parts[j].count <= n
  {
    Ends(parts, lba, n, j);
    assert parts[j].startIndex + parts[j].count == Slices.After(parts, j, n);
  }

  lemma UsedNone(dies: seq<DieView>, pages: nat)
    ensures Used(dies, dies, pages, 0)
  {
  }

  lemma StillRoom(dies: seq<DieView>, dies': seq<DieView>, pages: nat, j: nat, n: nat)
    requires Used(dies, dies', pages, j) && j < n
    ensures HasRoom(dies, pages, n) ==> HasRoom(dies', pages, 1)
  {
  }

  ghost function AllRequests<B>(cs: seq<Command<B>>): (n: nat) {
    if cs == [] then 0 else AllRequests(cs[..|cs|-1]) + Requests(cs[|cs|-1])
  }

  lemma NoneYet<B>(flat: map<nat, B>, cs: seq<Command<B>>)
    ensures AllRequests(cs[..0]) == 0 && AfterAll(flat, cs[..0]) == flat
  {
  }

  lemma AfterOne<B>(flat: map<nat, B>, cs: seq<Command<B>>, i: nat)
    requires i < |cs|
    ensures AfterAll(flat, cs[..i + 1]) == After(AfterAll(flat, cs[..i]), cs[i])
  {
    assert cs[..i + 1][..i] == cs[..i];
  }

  lemma {:induction false} PrefixRequests<B>(cs: seq<Command<B>>, i: nat)
    requires i < |cs|
    ensures AllRequests(cs[..i + 1]) == AllRequests(cs[..i]) + Requests(cs[i]) <= AllRequests(cs)
    decreases |cs|
  {
    assert cs[..i + 1][..i] == cs[..i];
    if i + 1 < |cs| {
      PrefixRequests(cs[..|cs|-1], i);
      assert cs[..|cs|-1][..i] == cs[..i] && cs[..|cs|-1][..i + 1] == cs[..i + 1];
    } else {
      assert cs[..i + 1] == cs;
    }
  }

  lemma RoomForNext(dies: seq<DieView>, dies': seq<DieView>, pages: nat, m: nat, n: nat, all: nat)
    requires Used(dies, dies', pages, m) && m + n <= all
    ensures HasRoom(dies, pages, all) ==> HasRoom(dies', pages, n)
  {
  }

  /** The reads answered so far returned what their tickets have been sent. */
  ghost predicate AllSent<B>(j: Journal<seq<B>>, cs: seq<Command<B>>, outs: seq<seq<B>>, tickets: seq<seq<Ticket>>) {
    && |outs| == |tickets| <= |cs|
    && forall i :: 0 <= i < |outs| ==>
         Issued(tickets[i], |j.log|) && (cs[i].ReadCmd? ==> outs[i] == Gathered(j.mem.sent, tickets[i]))
  }

  lemma AllSentNone<B>(j: Journal<seq<B>>, cs: seq<Command<B>>)
    ensures AllSent(j, cs, [], [])
  {
  }

  lemma AllSentMore<B>(j: Journal<seq<B>>, j': Journal<seq<B>>, cs: seq<Command<B>>, outs: seq<seq<B>>,
                       tickets: seq<seq<Ticket>>, out: seq<B>, more: seq<Ticket>)
    requires AllSent(j, cs, outs, tickets) && |outs| < |cs| && S.Sending(j, j', 0) && Issued(more, |j'.log|)
    requires cs[|outs|].ReadCmd? ==> out == Gathered(j'.mem.sent, more)
    ensures AllSent(j', cs, outs + [out], tickets + [more])
  {
    forall i | 0 <= i < |outs|
      ensures Issued(tickets[i], |j'.log|) && Gathered(j'.mem.sent, tickets[i]) == Gathered(j.mem.sent, tickets[i])
    {
      GatheredKept(j, j', tickets[i], 0);
    }
  }

  lemma AllSentTells<B>(j: Journal<seq<B>>, cs: seq<Command<B>>, outs: seq<seq<B>>, tickets: seq<seq<Ticket>>)
    requires AllSent(j, cs, outs, tickets)
    ensures |outs| == |tickets|
    ensures forall i :: 0 <= i < |outs| && cs[i].ReadCmd? ==> outs[i] == Gathered(j.mem.sent, tickets[i])
  {
  }

  /** Any sequence of commands, one after another: every read returns each block ever written as the
      latest write before it left it, up to the first command that cannot be served. All are served
      while every die has a page left before the reserve for each slice request. */
  method Run<B>(s: S.Store<B>, cs: seq<Command<B>>)
    returns (ok: bool, outs: seq<seq<B>>, ghost tickets: seq<seq<Ticket>>)
    requires s.Valid() && forall i :: 0 <= i < |cs| ==> Encodable(cs[i])
    modifies s.Repr()
    ensures |outs| <= |cs| && (ok <==> |outs| == |cs|)
    ensures forall i :: 0 <= i < |outs| ==> Answered(AfterAll(old(s.flat), cs[..i]), cs[i], outs[i])
    ensures ok ==> s.Valid() && s.flat == AfterAll(old(s.flat), cs) && |tickets| == |cs|
    ensures ok ==> forall i :: 0 <= i < |cs| && cs[i].ReadCmd? ==>
            outs[i] == Gathered(s.ftl.journal.mem.sent, tickets[i])
    ensures old(HasRoom(s.ftl.arr.views, s.ftl.pages, AllRequests(cs))) ==> ok
  {
    hide S.Store.Valid, Answered, After, AfterAll, HasRoom, Used, Requests, AllRequests, Encodable, AllSent;
    NoneYet(s.flat, cs);
    outs, tickets := [], [];
    AllSentNone(s.ftl.journal, cs);
    UsedNone(s.ftl.arr.views, s.ftl.pages);
    while |outs| < |cs|
      invariant |outs| <= |cs| && s.Valid() && s.flat == AfterAll(old(s.flat), cs[..|outs|])
      invariant forall i :: 0 <= i < |outs| ==> Answered(AfterAll(old(s.flat), cs[..i]), cs[i], outs[i])
      invariant Used(old(s.ftl.arr.views), s.ftl.arr.views, s.ftl.pages, AllRequests(cs[..|outs|]))
      invariant AllSent(s.ftl.journal, cs, outs, tickets)
    {
      var out;
      ghost var more, journal;
      journal := s.ftl.journal;
      ghost var views, c, n := s.ftl.arr.views, cs[|outs|], AllRequests(cs[..|outs|]);
      PrefixRequests(cs, |outs|);
      RoomForNext(old(s.ftl.arr.views), views, s.ftl.pages, n, Requests(c), AllRequests(cs));
      ok, out, more := Execute(s, cs[|outs|]);
      if !ok {
        return;
      }
      UsedTwice(old(s.ftl.arr.views), views, s.ftl.arr.views, s.ftl.pages, n, Requests(c));
      AfterOne(old(s.flat), cs, |outs|);
      AllSentMore(journal, s.ftl.journal, cs, outs, tickets, out, more);
      outs, tickets := outs + [out], tickets + [more];
    }
    ok := true;
    assert cs[..|outs|] == cs;
    AllSentTells(s.ftl.journal, cs, outs, tickets);
  }
}
