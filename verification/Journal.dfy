/** The low-level requests a device submits, in order, and what they do to buffers, flash and host when
    they are played one after another. */
module Journal {
  import opened Basics
  import opened Requests
  import opened Serial

  /** How many pages of block b are programmed once the requests are done. */
  ghost function Filled(log: seq<Req>, b: nat): (n: nat) {
    if log == [] then 0
    else
      var k, before := log[|log|-1].kind, Filled(log[..|log|-1], b);
      if k.Write? && k.block == b then before + 1
      else if k.Erase? && k.block == b then 0
      else before
  }

  /** A request has used the buffer: it holds what the host or the flash has put there. */
  ghost predicate Sourced(log: seq<Req>, buf: nat) {
    exists i :: 0 <= i < |log| && log[i].buf == Some(buf)
  }

  /** The request may follow: the next page of a block out of a buffer that has been filled, a full block,
      or a programmed page. */
  ghost predicate Follows(log: seq<Req>, k: Kind, buf: Option<nat>, pages: nat) {
    match k
    case Dma => true
    case RxDma(_) => false
    case TxDma(_) => false
    case Read(b, p) => p < Filled(log, b)
    case Write(b, p) => p == Filled(log, b) < pages && buf.Some? && Sourced(log, buf.value)
    case Erase(b, n) => buf.None? && n == pages == Filled(log, b)
  }

  ghost predicate Tidy(log: seq<Req>, pages: nat) {
    log != [] ==>
      Tidy(log[..|log|-1], pages) && Follows(log[..|log|-1], log[|log|-1].kind, log[|log|-1].buf, pages)
  }

  lemma {:induction false} TidyAt(log: seq<Req>, n: nat, pages: nat)
    requires Tidy(log, pages) && n < |log|
    ensures Follows(log[..n], log[n].kind, log[n].buf, pages)
    decreases |log|
  {
    if n + 1 < |log| {
      var front := log[..|log|-1];
      TidyAt(front, n, pages);
      assert front[..n] == log[..n] && front[n] == log[n];
    }
  }

  /** The requests so far, what each host DMA makes of its buffer, and the contents before and after. */
  datatype Journal<!T> = Journal(log: seq<Req>, fills: seq<T -> T>, start: Mem<T>, mem: Mem<T>, blank: T)

  ghost function FillOf<T>(fills: seq<T -> T>): (fill: (nat, T) -> T) {
    (n: nat, d: T) => if n < |fills| then fills[n](d) else d
  }

  ghost predicate Numbered(log: seq<Req>) {
    forall i :: 0 <= i < |log| ==> log[i].num == i && log[i].loc.Active?
  }

  ghost predicate Sound<T>(j: Journal<T>, pages: nat) {
    && |j.fills| == |j.log| && Numbered(j.log) && Tidy(j.log, pages) && Total(j.start)
    && j.mem == Play(j.start, j.log, FillOf(j.fills), j.blank)
  }

  ghost function Noted<T>(j: Journal<T>, k: Kind, buf: Option<nat>, f: T -> T): (n: Journal<T>)
    requires Total(j.mem)
    ensures Total(n.mem)
  {
    var r := Req(|j.log|, k, buf, Active);
    j.(log := j.log + [r], fills := j.fills + [f], mem := Effect(j.mem, r, FillOf(j.fills + [f]), j.blank))
  }

  lemma {:induction false} PlayAgree<T>(m: Mem<T>, log: seq<Req>, f: (nat, T) -> T, g: (nat, T) -> T, blank: T)
    requires Total(m) && forall i, d :: 0 <= i < |log| ==> f(log[i].num, d) == g(log[i].num, d)
    ensures Play(m, log, f, blank) == Play(m, log, g, blank)
    decreases |log|
  {
    if log != [] {
      PlayAgree(m, log[..|log|-1], f, g, blank);
      EffectAgree(Play(m, log[..|log|-1], f, blank), log[|log|-1], f, g, blank);
    }
  }

  lemma EffectAgree<T>(m: Mem<T>, r: Req, f: (nat, T) -> T, g: (nat, T) -> T, blank: T)
    requires Total(m) && forall d :: f(r.num, d) == g(r.num, d)
    ensures Effect(m, r, f, blank) == Effect(m, r, g, blank)
  {
  }

  ghost predicate LastIs(log: seq<Req>, k: Kind) {
    log != [] && log[|log|-1].kind == k
  }

  lemma StillSourced(log: seq<Req>, log': seq<Req>, buf: nat)
    requires log <= log' && Sourced(log, buf)
    ensures Sourced(log', buf)
  {
    var i :| 0 <= i < |log| && log[i].buf == Some(buf);
    assert log'[i] == log[i];
  }

  lemma NowSourced<T>(j: Journal<T>, k: Kind, buf: nat, f: T -> T)
    requires Total(j.mem)
    ensures Sourced(Noted(j, k, Some(buf), f).log, buf)
  {
    assert Noted(j, k, Some(buf), f).log[|j.log|].buf == Some(buf);
  }

  /** A request that may follow keeps the journal sound. */
  lemma NoteSound<T>(j: Journal<T>, k: Kind, buf: Option<nat>, f: T -> T, pages: nat)
    requires Sound(j, pages) && Follows(j.log, k, buf, pages)
    ensures Total(j.mem) && Sound(Noted(j, k, buf, f), pages)
  {
    hide Follows, Effect;
    var n := Noted(j, k, buf, f);
    assert n.log[..|j.log|] == j.log;
    PlayAgree(j.start, j.log, FillOf(j.fills), FillOf(n.fills), j.blank);
  }
}
