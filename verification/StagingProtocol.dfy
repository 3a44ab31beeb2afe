/**
  The staging buffer as a protocol between one producer thread and one consumer thread.

  Every read or write of a shared position is one atomic step; the two threads interleave freely, so
  each of them acts on snapshots of the other's position that may be arbitrarily old. Word accesses
  are taken to be sequentially consistent.
 */
module StagingProtocol {
  import opened Bytes
  import opened StagingLayout

  /** Where the producer stands inside `reserveProducerSpace` / `finishReservation`. */
  datatype Producer =
    | Idle                             // outside every call
    | LoopHead(n: nat)                 // at the loop test of the slow path
    | GotConsumer(n: nat, seen: nat)   // holds a copy of the consumer position
    | NoRoom(n: nat, seen: nat)        // the room up to the end of storage is too small
    | Marked(n: nat, seen: nat)        // end of recorded space written
    | Rolled(n: nat, seen: nat)        // producer position reset, bound not recomputed yet
    | Reserved(n: nat)                 // the call returned; the caller fills the bytes in
    | Finishing(n: nat)                // bound lowered, producer position not advanced yet
    | Gone                             // the owning thread has exited

  /**
    Where the consumer stands. `q` is its copy of the producer position; `count` only helps the
    proof: it is how many records of the newest lap were published when the copy was taken.
   */
  datatype Consumer =
    | AtRest
    | SawProducer(q: nat, count: nat)  // in `peek`, producer position copied
    | RollOver(q: nat, count: nat)     // in `peek`, about to reset the consumer position
    | SawRetired                       // in `checkCanDelete`, deallocation flag read as true
    | Deleted

  /**
    `view` is what the last completed `peek` offered and was not consumed yet, `held` the number
    of records in it. `tail`, `recent`, `committed`, `delivered`, `held` and `stamped` are history:
    no step of either thread decides anything by them.
   */
  datatype State = State(
    st: seq<byte>, p: nat, c: nat, e: nat, free: nat, retired: bool,
    prod: Producer, cons: Consumer, view: nat,
    held: nat, tail: seq<Record>, recent: seq<Record>,
    committed: seq<Record>, delivered: seq<Record>, stamped: bool)

  datatype Action =
    // producer
    | Call(n: nat)                // reserveProducerSpace, with its fast path
    | LoopExit                    // the loop test fails: space was found
    | GiveUp                      // non-blocking mode only
    | ReadConsumer
    | Branch
    | MarkEnd
    | Wrap
    | Rebound
    | Fill(i: nat, b: byte)
    | Settle
    | Publish
    | Retire
    // consumer
    | PeekStart
    | PeekPlain
    | PeekTail
    | PeekRoll
    | Stamp(bs: seq<byte>)        // overwrite the timestamp of the record in hand
    | Consume
    | CheckFlag
    | CheckPositions

  predicate Initial(s: State) {
    && |s.st| > 0
    && s.p == s.c == 0 && s.e == s.free == |s.st| && !s.retired
    && s.prod == Idle && s.cons == AtRest && s.view == s.held == 0
    && s.tail == s.recent == s.committed == s.delivered == []
    && !s.stamped
  }

  predicate Enabled(s: State, a: Action) {
    match a
    case Call(n) => s.prod.Idle?
    case LoopExit => s.prod.LoopHead? && s.free > s.prod.n
    case GiveUp => s.prod.LoopHead? && s.free <= s.prod.n
    case ReadConsumer => s.prod.LoopHead? && s.free <= s.prod.n
    case Branch => s.prod.GotConsumer? && s.p <= |s.st|
    case MarkEnd => s.prod.NoRoom?
    case Wrap => s.prod.Marked?
    case Rebound => s.prod.Rolled? && s.p <= s.prod.seen
    case Fill(i, b) => s.prod.Reserved? && i < s.prod.n && s.p + i < |s.st|
    case Settle =>
      // The caller has written the whole entry, its size field included.
      && s.prod.Reserved?
      && s.p + s.prod.n <= |s.st|
      && s.prod.n <= s.free
      && WellFormed(s.st[s.p..s.p + s.prod.n])
    case Publish => s.prod.Finishing? && s.p + s.prod.n <= |s.st|
    case Retire => s.prod.Idle?
    case PeekStart => s.cons.AtRest?
    case PeekPlain => s.cons.SawProducer? && s.cons.q >= s.c
    case PeekTail => s.cons.SawProducer? && s.cons.q < s.c && s.c <= s.e
    case PeekRoll => s.cons.RollOver?
    case Stamp(bs) => s.cons.AtRest? && s.view > 0 && |bs| == STAMP_SIZE && s.c + STAMP_SIZE <= |s.st|
    case Consume =>
      && s.cons.AtRest?
      && s.view > 0
      && s.c + 16 <= |s.st|
      && s.c + SizeField(s.st[s.c..]) <= |s.st|
      && SizeField(s.st[s.c..]) <= s.view
    case CheckFlag => s.cons.AtRest? && s.retired
    case CheckPositions => s.cons.SawRetired?
  }

  /** The contiguous records at the consumer position. */
  function FrontOf(s: State): seq<Record> {
    Front(s.p, s.c, s.tail, s.recent)
  }

  function Do(s: State, a: Action): State
    requires Enabled(s, a)
  {
    match a
    case Call(n) => s.(prod := if n < s.free then Reserved(n) else LoopHead(n))
    case LoopExit => s.(prod := Reserved(s.prod.n))
    case GiveUp => s.(prod := Idle)
    case ReadConsumer => s.(prod := GotConsumer(s.prod.n, s.c))
    case Branch =>
      var (n, seen) := (s.prod.n, s.prod.seen);
      if seen <= s.p then
        var room := |s.st| - s.p;
        s.(free := room, prod := if room > n then Reserved(n) else NoRoom(n, seen))
      else
        s.(free := seen - s.p, prod := LoopHead(n))
    case MarkEnd => s.(e := s.p, prod := Marked(s.prod.n, s.prod.seen))
    case Wrap =>
      if s.prod.seen != 0 then
        s.(p := 0, prod := Rolled(s.prod.n, s.prod.seen), tail := s.recent, recent := [])
      else
        s.(prod := LoopHead(s.prod.n))
    case Rebound => s.(free := s.prod.seen - s.p, prod := LoopHead(s.prod.n))
    case Fill(i, b) => s.(st := s.st[s.p + i := b])
    case Settle => s.(free := s.free - s.prod.n, prod := Finishing(s.prod.n))
    case Publish =>
      var record := s.st[s.p..s.p + s.prod.n];
      s.(p := s.p + s.prod.n, prod := Idle, recent := s.recent + [record], committed := s.committed + [record])
    case Retire => s.(retired := true, prod := Gone)
    case PeekStart => s.(cons := SawProducer(s.p, |s.recent|))
    case PeekPlain => s.(view := s.cons.q - s.c, held := s.cons.count, cons := AtRest)
    case PeekTail =>
      if s.e - s.c > 0 then s.(view := s.e - s.c, held := |s.tail|, cons := AtRest)
      else s.(cons := RollOver(s.cons.q, s.cons.count))
    case PeekRoll => s.(c := 0, view := s.cons.q, held := s.cons.count, cons := AtRest)
    case Stamp(bs) =>
      var s' := s.(st := Overwrite(s.st, s.c, bs), stamped := true);
      if FrontOf(s) == [] || |FrontOf(s)[0]| < STAMP_SIZE then s'
      else if s.p < s.c then s'.(tail := RestampFirst(s.tail, bs))
      else s'.(recent := RestampFirst(s.recent, bs))
    case Consume =>
      var k := SizeField(s.st[s.c..]);
      var s' := s.(c := s.c + k, view := s.view - k, held := if s.held > 0 then s.held - 1 else 0,
                   delivered := s.delivered + [s.st[s.c..s.c + k]], stamped := false);
      if s.p < s.c then s'.(tail := if s.tail == [] then [] else s.tail[1..])
      else s'.(recent := if s.recent == [] then [] else s.recent[1..])
    case CheckFlag => s.(cons := SawRetired)
    case CheckPositions => s.(cons := if s.c == s.p then Deleted else AtRest)
  }

  // ---- The invariant ----

  /** What a copy `seen` of the consumer position still says about the present. */
  predicate Snapshot(s: State, seen: nat) {
    if seen <= s.p then seen <= s.c <= s.p
    else seen < |s.st| && (s.p < s.c ==> seen <= s.c)
  }

  ghost predicate ProducerInv(s: State) {
    && (s.retired <==> s.prod.Gone?)
    && match s.prod
       case Idle => FreeBound(|s.st|, s.p, s.c, s.free)
       case LoopHead(n) => FreeBound(|s.st|, s.p, s.c, s.free)
       case GotConsumer(n, seen) =>
         FreeBound(|s.st|, s.p, s.c, s.free) && s.free <= n && Snapshot(s, seen)
       case NoRoom(n, seen) =>
         seen <= s.c <= s.p && s.free == |s.st| - s.p <= n
       case Marked(n, seen) =>
         seen <= s.c <= s.p && s.free == |s.st| - s.p <= n && s.e == s.p
       case Rolled(n, seen) =>
         // The bound is stale here: it is sound again after the next producer step.
         s.p == 0 < seen && Snapshot(s, seen)
       case Reserved(n) => FreeBound(|s.st|, s.p, s.c, s.free) && n < s.free
       case Finishing(n) =>
         && FreeBound(|s.st|, s.p, s.c, s.free + n) && s.free > 0
         && s.p + n < |s.st| && WellFormed(s.st[s.p..s.p + n])
       case Gone => true
  }

  ghost predicate Extent(rs: seq<Record>, count: nat, length: int) {
    count <= |rs| && |Concat(rs[..count])| == length
  }

  ghost predicate ConsumerInv(s: State) {
    && Extent(FrontOf(s), s.held, s.view)
    && match s.cons
       case AtRest => true
       case SawProducer(q, count) =>
         if q < s.c then s.p < s.c && q <= s.p && Extent(s.recent, count, q)
         else s.held <= count && Extent(FrontOf(s), count, q - s.c)
       case RollOver(q, count) =>
         s.p < s.c && s.e == s.c && q <= s.p && Extent(s.recent, count, q)
       case SawRetired => s.retired
       case Deleted => s.retired && s.p == s.c
  }

  /** Same record except, possibly, for the timestamp field. */
  predicate SameBody(a: Record, b: Record) {
    |a| == |b| && Body(a) == Body(b)
  }

  predicate SameBodies(a: seq<Record>, b: seq<Record>) {
    |a| == |b| && forall i | 0 <= i < |a| :: SameBody(a[i], b[i])
  }

  function Pending(s: State): seq<Record> {
    s.tail + s.recent
  }

  function History(s: State): seq<Record> {
    s.delivered + Pending(s)
  }

  /** Delivered then pending records are the committed ones; only the oldest may carry a new stamp. */
  ghost predicate HistoryInv(s: State) {
    && SameBodies(History(s), s.committed)
    && (forall i | |s.delivered| < i < |s.committed| :: History(s)[i] == s.committed[i])
    && (!s.stamped && |s.delivered| < |s.committed| ==> History(s)[|s.delivered|] == s.committed[|s.delivered|])
  }

  ghost predicate Inv(s: State) {
    && Layout(s.st, s.p, s.c, s.e, s.tail, s.recent)
    && ProducerInv(s)
    && ConsumerInv(s)
    && HistoryInv(s)
  }

  lemma InitialInv(s: State)
    requires Initial(s)
    ensures Inv(s)
  {
  }

  // ---- Each step keeps it ----

  lemma ExtentAppend(rs: seq<Record>, more: seq<Record>, count: nat, length: int)
    requires Extent(rs, count, length)
    ensures Extent(rs + more, count, length)
  {
    assert (rs + more)[..count] == rs[..count];
  }

  lemma PublishConsumer(s: State)
    requires ProducerInv(s) && InRange(s) && ConsumerInv(s) && Enabled(s, Publish)
    ensures ConsumerInv(Do(s, Publish))
  {
    var record := s.st[s.p..s.p + s.prod.n];
    var more := if s.p < s.c then [] else [record];
    assert FrontOf(Do(s, Publish)) == FrontOf(s) + more;
    ExtentAppend(FrontOf(s), more, s.held, s.view);
    match s.cons {
      case SawProducer(q, count) =>
        if q < s.c { ExtentAppend(s.recent, [record], count, q); }
        else { ExtentAppend(FrontOf(s), more, count, q - s.c); }
      case RollOver(q, count) => ExtentAppend(s.recent, [record], count, q);
      case _ =>
    }
  }

  lemma PublishProducer(s: State)
    requires ProducerInv(s) && InRange(s) && Enabled(s, Publish)
    ensures ProducerInv(Do(s, Publish))
  {
  }

  lemma HistoryAppend(s: State, s': State, record: Record)
    requires HistoryInv(s)
    requires History(s') == History(s) + [record] && s'.committed == s.committed + [record]
    requires s'.delivered == s.delivered && s'.stamped == s.stamped
    ensures HistoryInv(s')
  {
  }

  lemma PublishHistory(s: State)
    requires HistoryInv(s) && Enabled(s, Publish)
    ensures HistoryInv(Do(s, Publish))
  {
    var record := s.st[s.p..s.p + s.prod.n];
    var s' := Do(s, Publish);
    assert History(s') == History(s) + [record];
    HistoryAppend(s, s', record);
  }

  lemma PublishedLayout(s: State)
    requires Layout(s.st, s.p, s.c, s.e, s.tail, s.recent) && ProducerInv(s) && Enabled(s, Publish)
    ensures var s' := Do(s, Publish); Layout(s'.st, s'.p, s'.c, s'.e, s'.tail, s'.recent)
  {
    LayoutPublish(s.st, s.p, s.c, s.e, s.tail, s.recent, s.prod.n);
  }

  lemma PublishKeeps(s: State)
    requires Inv(s) && Enabled(s, Publish)
    ensures Inv(Do(s, Publish))
  {
    PublishedLayout(s);
    PublishConsumer(s);
    PublishHistory(s);
    PublishProducer(s);
  }

  lemma WrapKeeps(s: State)
    requires Inv(s) && Enabled(s, Wrap)
    ensures Inv(Do(s, Wrap))
  {
    if s.prod.seen != 0 {
      LayoutWrap(s.st, s.p, s.c, s.e, s.tail, s.recent);
      assert Pending(Do(s, Wrap)) == Pending(s);
    }
  }

  lemma FillKeeps(s: State, i: nat, b: byte)
    requires Inv(s) && Enabled(s, Fill(i, b))
    ensures Inv(Do(s, Fill(i, b)))
  {
    LayoutFrame(s.st, s.st[s.p + i := b], s.p, s.c, s.e, s.tail, s.recent);
  }

  /** The steps that move nothing but program counters, private values and the end mark. */
  predicate Quiet(a: Action) {
    || a.Call? || a.LoopExit? || a.GiveUp? || a.ReadConsumer? || a.Branch?
    || a.MarkEnd? || a.Rebound? || a.Settle? || a.Retire?
    || a.PeekStart? || a.PeekPlain? || a.PeekTail? || a.CheckFlag? || a.CheckPositions?
  }

  lemma QuietStore(s: State, a: Action)
    requires Layout(s.st, s.p, s.c, s.e, s.tail, s.recent) && ProducerInv(s) && Enabled(s, a) && Quiet(a)
    ensures var s' := Do(s, a);
            && s'.st == s.st && s'.p == s.p && s'.c == s.c
            && s'.tail == s.tail && s'.recent == s.recent
            && s'.committed == s.committed && s'.delivered == s.delivered && s'.stamped == s.stamped
            && (a != MarkEnd ==> s'.e == s.e)
            && Layout(s'.st, s'.p, s'.c, s'.e, s'.tail, s'.recent)
  {
    match a {
      case MarkEnd =>
      case _ =>
    }
  }

  lemma QuietHistory(s: State, s': State)
    requires HistoryInv(s)
    requires s'.tail == s.tail && s'.recent == s.recent
    requires s'.committed == s.committed && s'.delivered == s.delivered && s'.stamped == s.stamped
    ensures HistoryInv(s')
  {
  }

  ghost predicate InRange(s: State) {
    s.p < |s.st| && s.c < |s.st| && (s.p < s.c ==> s.c <= s.e < |s.st|)
  }

  lemma QuietProducer(s: State, a: Action)
    requires ProducerInv(s) && InRange(s) && Enabled(s, a) && Quiet(a)
    ensures ProducerInv(Do(s, a))
  {
    if ConsumerAction(a) {
      ProducerUnmoved(s, Do(s, a));
    } else if a.Branch? {
      BranchProducer(s);
    } else {
      QuietProducerStep(s, a);
    }
  }

  lemma BranchProducer(s: State)
    requires ProducerInv(s) && InRange(s) && Enabled(s, Branch)
    ensures ProducerInv(Do(s, Branch))
  {
  }

  lemma QuietProducerStep(s: State, a: Action)
    requires ProducerInv(s) && InRange(s) && Enabled(s, a) && Quiet(a) && !ConsumerAction(a) && !a.Branch?
    ensures ProducerInv(Do(s, a))
  {
  }

  /** The consumer only ever advances or, once the old lap is used up, starts over at the front. */
  lemma ProducerUnmoved(s: State, s': State)
    requires ProducerInv(s) && InRange(s)
    requires s'.p == s.p && s'.e == s.e && s'.free == s.free && s'.prod == s.prod && s'.retired == s.retired
    requires |s'.st| == |s.st|
    requires if s.p < s.c then s.c <= s'.c <= s.e || s'.c == 0 else s.c <= s'.c <= s.p
    requires s.prod.Finishing? && s.p + s.prod.n < |s.st| ==>
               s'.st[s.p..s.p + s.prod.n] == s.st[s.p..s.p + s.prod.n]
    ensures ProducerInv(s')
  {
  }

  /** Nothing the producer does quietly concerns the consumer. */
  lemma ConsumerUnmoved(s: State, s': State)
    requires ConsumerInv(s) && s'.cons == s.cons && s'.view == s.view && s'.held == s.held
    requires s'.p == s.p && s'.c == s.c && s'.tail == s.tail && s'.recent == s.recent
    requires (s.p < s.c ==> s'.e == s.e) && (s.retired ==> s'.retired)
    ensures ConsumerInv(s')
  {
  }

  lemma QuietConsumer(s: State, a: Action)
    requires Layout(s.st, s.p, s.c, s.e, s.tail, s.recent) && ConsumerInv(s)
    requires Enabled(s, a) && Quiet(a) && (s.prod.NoRoom? ==> s.c <= s.p)
    requires s.retired ==> s.prod.Gone?
    ensures ConsumerInv(Do(s, a))
  {
    if ConsumerAction(a) {
      assert s.recent[..|s.recent|] == s.recent;
      assert s.tail[..|s.tail|] == s.tail;
      assert FrontOf(Do(s, a)) == FrontOf(s);
    } else {
      ConsumerUnmoved(s, Do(s, a));
    }
  }

  lemma QuietKeeps(s: State, a: Action)
    requires Inv(s) && Enabled(s, a) && Quiet(a)
    ensures Inv(Do(s, a))
  {
    QuietStore(s, a);
    QuietHistory(s, Do(s, a));
    assert ProducerInv(Do(s, a)) by { QuietProducer(s, a); }
    assert ConsumerInv(Do(s, a)) by { QuietConsumer(s, a); }
  }

  lemma StampKeeps(s: State, bs: seq<byte>)
    requires Inv(s) && Enabled(s, Stamp(bs))
    ensures Inv(Do(s, Stamp(bs)))
  {
    var rs := FrontOf(s);
    assert rs != [];
    LayoutRestamp(s.st, s.p, s.c, s.e, s.tail, s.recent, bs);
    var s' := Do(s, Stamp(bs));
    RestampExtent(rs, bs, s.held, s.view);
    match s.cons {
      case AtRest =>
    }
    assert ProducerInv(s') by { StampProducer(s, s', bs); }
    StampHistory(s, bs);
  }

  lemma RestampExtent(rs: seq<Record>, bs: seq<byte>, count: nat, length: int)
    requires rs != [] && AllWellFormed(rs) && |bs| == STAMP_SIZE
    requires Extent(rs, count, length)
    ensures |rs[0]| >= STAMP_SIZE && Extent(RestampFirst(rs, bs), count, length)
  {
    assert WellFormed(rs[0]);
    if count > 0 {
      RestampFirstBytes(rs[..count], bs);
      assert RestampFirst(rs, bs)[..count] == RestampFirst(rs[..count], bs);
    }
  }

  /** A stamp changes nothing that the producer has reserved. */
  lemma StampFrame(s: State, bs: seq<byte>, n: nat, free: nat)
    requires Layout(s.st, s.p, s.c, s.e, s.tail, s.recent) && FrontOf(s) != []
    requires |bs| == STAMP_SIZE && FreeBound(|s.st|, s.p, s.c, free) && n <= free
    ensures s.c + |bs| <= |s.st| && s.p + n <= |s.st|
    ensures Overwrite(s.st, s.c, bs)[s.p..s.p + n] == s.st[s.p..s.p + n]
  {
    LayoutHead(s.st, s.p, s.c, s.e, s.tail, s.recent);
    StampBeside(s.st, s.c, bs, s.p, s.p + n);
  }

  lemma StampProducer(s: State, s': State, bs: seq<byte>)
    requires Layout(s.st, s.p, s.c, s.e, s.tail, s.recent) && ProducerInv(s) && FrontOf(s) != []
    requires |bs| == STAMP_SIZE && s.c + |bs| <= |s.st| && s'.st == Overwrite(s.st, s.c, bs)
    requires s'.p == s.p && s'.c == s.c && s'.e == s.e && s'.free == s.free
    requires s'.prod == s.prod && s'.retired == s.retired
    ensures ProducerInv(s')
  {
    if s.prod.Finishing? {
      StampFrame(s, bs, s.prod.n, s.free + s.prod.n);
    }
    ProducerUnmoved(s, s');
  }

  lemma StampBeside(st: seq<byte>, at: nat, bs: seq<byte>, lo: nat, hi: nat)
    requires at + |bs| <= |st| && lo <= hi <= |st|
    requires hi <= at || at + |bs| <= lo
    ensures Overwrite(st, at, bs)[lo..hi] == st[lo..hi]
  {
  }

  lemma StampHistory(s: State, bs: seq<byte>)
    requires Inv(s) && Enabled(s, Stamp(bs)) && FrontOf(s) != []
    ensures HistoryInv(Do(s, Stamp(bs)))
  {
    StampPending(s, bs);
    RestampHistory(s, Do(s, Stamp(bs)), FrontOf(s)[0], bs);
  }

  lemma StampPending(s: State, bs: seq<byte>)
    requires Layout(s.st, s.p, s.c, s.e, s.tail, s.recent) && FrontOf(s) != []
    requires Enabled(s, Stamp(bs))
    ensures var head := FrontOf(s)[0];
            && |head| >= STAMP_SIZE && Pending(s) != [] && Pending(s)[0] == head
            && Pending(Do(s, Stamp(bs))) == [Restamp(head, bs)] + Pending(s)[1..]
  {
    assert WellFormed(FrontOf(s)[0]);
  }

  lemma RestampHistory(s: State, s': State, head: Record, bs: seq<byte>)
    requires HistoryInv(s) && |head| >= STAMP_SIZE && |bs| == STAMP_SIZE
    requires Pending(s) != [] && Pending(s)[0] == head
    requires Pending(s') == [Restamp(head, bs)] + Pending(s)[1..]
    requires s'.delivered == s.delivered && s'.committed == s.committed && s'.stamped
    ensures HistoryInv(s')
  {
    var d := |s.delivered|;
    assert History(s)[d] == head && History(s')[d] == Restamp(head, bs);
    assert forall i | 0 <= i < |History(s)| && i != d :: History(s')[i] == History(s)[i];
  }

  /** Whatever `peek` offered, the record at its front can be consumed and is the oldest one. */
  lemma ViewHoldsHead(s: State)
    requires Inv(s) && s.view > 0
    ensures s.held > 0 && FrontOf(s) != [] && Pending(s) != [] && Pending(s)[0] == FrontOf(s)[0]
    ensures s.c + HEADER_SIZE <= |s.st|
    ensures var head := FrontOf(s)[0];
            && SizeField(s.st[s.c..]) == |head| <= s.view
            && s.c + |head| <= |s.st|
            && s.st[s.c..s.c + |head|] == head
    ensures Extent(FrontOf(s)[1..], s.held - 1, s.view - |FrontOf(s)[0]|)
  {
    LayoutHead(s.st, s.p, s.c, s.e, s.tail, s.recent);
    var rs := FrontOf(s);
    assert rs[..s.held][1..] == rs[1..][..s.held - 1];
    HeadRecord(rs[..s.held]);
  }

  /** Consuming removes the oldest record from wherever it lies and delivers it unchanged. */
  lemma ConsumeEffect(s: State)
    requires Inv(s) && Enabled(s, Consume)
    ensures s.view > 0 && s.held > 0 && FrontOf(s) != []
    ensures var head := FrontOf(s)[0];
            var s' := Do(s, Consume);
            s' == s.(c := s.c + |head|, view := s.view - |head|, held := s.held - 1,
                     delivered := s.delivered + [head], stamped := false,
                     tail := if s.p < s.c then s.tail[1..] else s.tail,
                     recent := if s.p < s.c then s.recent else s.recent[1..])
  {
    ViewHoldsHead(s);
    ConsumeTakes(s, FrontOf(s)[0]);
  }

  lemma ConsumeTakes(s: State, head: Record)
    requires Enabled(s, Consume) && s.held > 0 && FrontOf(s) != []
    requires SizeField(s.st[s.c..]) == |head| && s.st[s.c..s.c + |head|] == head
    ensures Do(s, Consume) ==
            s.(c := s.c + |head|, view := s.view - |head|, held := s.held - 1,
               delivered := s.delivered + [head], stamped := false,
               tail := if s.p < s.c then s.tail[1..] else s.tail,
               recent := if s.p < s.c then s.recent else s.recent[1..])
  {
  }

  lemma ConsumeLayout(s: State, s': State)
    requires Layout(s.st, s.p, s.c, s.e, s.tail, s.recent) && FrontOf(s) != []
    requires s'.st == s.st && s'.p == s.p && s'.e == s.e && s'.c == s.c + |FrontOf(s)[0]|
    requires s'.tail == if s.p < s.c then s.tail[1..] else s.tail
    requires s'.recent == if s.p < s.c then s.recent else s.recent[1..]
    ensures Layout(s'.st, s'.p, s'.c, s'.e, s'.tail, s'.recent)
    ensures FrontOf(s') == FrontOf(s)[1..]
    ensures s.c <= s'.c <= ContiguousEnd(s.p, s.c, s.e)
  {
    LayoutConsume(s.st, s.p, s.c, s.e, s.tail, s.recent);
    LayoutHead(s.st, s.p, s.c, s.e, s.tail, s.recent);
  }

  lemma DeliverHistory(s: State, s': State, head: Record)
    requires HistoryInv(s)
    requires s'.delivered == s.delivered + [head] && Pending(s) == [head] + Pending(s')
    requires s'.committed == s.committed
    ensures HistoryInv(s')
  {
    assert History(s') == History(s);
  }

  lemma PendingHead(s: State)
    requires Layout(s.st, s.p, s.c, s.e, s.tail, s.recent) && FrontOf(s) != []
    ensures Pending(s) == [FrontOf(s)[0]] +
                          (if s.p < s.c then s.tail[1..] + s.recent else s.tail + s.recent[1..])
  {
  }

  lemma ConsumeKeeps(s: State)
    requires Inv(s) && Enabled(s, Consume)
    ensures Inv(Do(s, Consume))
  {
    ConsumeEffect(s);
    ConsumedKeeps(s, Do(s, Consume), FrontOf(s)[0]);
  }

  lemma ConsumedKeeps(s: State, s': State, head: Record)
    requires Inv(s) && s.cons.AtRest? && s.view > 0 && s.held > 0 && FrontOf(s) != [] && head == FrontOf(s)[0]
    requires s' == s.(c := s.c + |head|, view := s.view - |head|, held := s.held - 1,
                      delivered := s.delivered + [head], stamped := false,
                      tail := if s.p < s.c then s.tail[1..] else s.tail,
                      recent := if s.p < s.c then s.recent else s.recent[1..])
    ensures Inv(s')
  {
    ConsumeLayout(s, s');
    assert HistoryInv(s') by {
      PendingHead(s);
      DeliverHistory(s, s', head);
    }
    assert ProducerInv(s') by { ProducerUnmoved(s, s'); }
    assert ConsumerInv(s') by { ViewHoldsHead(s); }
  }

  lemma PeekRollKeeps(s: State)
    requires Inv(s) && Enabled(s, PeekRoll)
    ensures Inv(Do(s, PeekRoll))
  {
    LayoutRoll(s.st, s.p, s.c, s.e, s.tail, s.recent);
    assert Pending(Do(s, PeekRoll)) == Pending(s);
  }

  lemma StepInv(s: State, a: Action)
    requires Inv(s) && Enabled(s, a)
    ensures Inv(Do(s, a)) && |Do(s, a).st| == |s.st|
  {
    if Quiet(a) {
      QuietKeeps(s, a);
    } else if ConsumerAction(a) {
      ConsumerStepInv(s, a);
    } else {
      match a
      case Publish => PublishKeeps(s);
      case Wrap => WrapKeeps(s);
      case Fill(i, b) => FillKeeps(s, i, b);
    }
  }

  predicate ConsumerAction(a: Action) {
    || a.PeekStart? || a.PeekPlain? || a.PeekTail? || a.PeekRoll?
    || a.Stamp? || a.Consume? || a.CheckFlag? || a.CheckPositions?
  }

  lemma ConsumerStepInv(s: State, a: Action)
    requires Inv(s) && Enabled(s, a) && ConsumerAction(a) && !Quiet(a)
    ensures Inv(Do(s, a)) && |Do(s, a).st| == |s.st|
  {
    match a
    case Stamp(bs) => StampKeeps(s, bs);
    case Consume => ConsumeKeeps(s);
    case PeekRoll => PeekRollKeeps(s);
  }

  // ---- Runs ----

  ghost predicate Run(s: State, acts: seq<Action>, s': State)
    decreases |acts|
  {
    if acts == [] then s == s' else Enabled(s, acts[0]) && Run(Do(s, acts[0]), acts[1..], s')
  }

  ghost predicate Reached(s: State) {
    exists s0, acts :: Initial(s0) && Run(s0, acts, s)
  }

  lemma {:induction false} RunInv(s: State, acts: seq<Action>, s': State)
    requires Inv(s) && Run(s, acts, s')
    ensures Inv(s') && |s'.st| == |s.st|
    decreases |acts|
  {
    if acts == [] {
    } else {
      var mid := Do(s, acts[0]);
      assert Inv(mid) && |mid.st| == |s.st| by { StepInv(s, acts[0]); }
      RunInv(mid, acts[1..], s');
    }
  }

  lemma ReachedInv(s: State)
    requires Reached(s)
    ensures Inv(s)
  {
    var s0, acts :| Initial(s0) && Run(s0, acts, s);
    InitialInv(s0);
    RunInv(s0, acts, s);
  }

  lemma {:induction false} RunAppend(s: State, a: seq<Action>, mid: State, b: seq<Action>, s': State)
    requires Run(s, a, mid) && Run(mid, b, s')
    ensures Run(s, a + b, s')
    decreases |a|
  {
    if a == [] {
      assert a + b == b;
    } else {
      RunAppend(Do(s, a[0]), a[1..], mid, b, s');
      assert (a + b)[1..] == a[1..] + b;
    }
  }

  // ---- What holds in every reachable state ----

  /** The unread bytes, in the order in which the consumer will meet them. */
  function PendingBytes(s: State): seq<byte>
    requires s.p <= |s.st| && s.c <= |s.st| && (s.p < s.c ==> s.c <= s.e <= |s.st|)
  {
    if s.p < s.c then s.st[s.c..s.e] + s.st[..s.p] else s.st[s.c..s.p]
  }

  /** Geometry of the positions; equal positions are the empty queue and nothing else needs storing. */
  lemma Geometry(s: State)
    requires Reached(s)
    ensures s.p < |s.st| && s.c < |s.st|
    ensures s.p < s.c ==> s.c <= s.e < |s.st|
    ensures s.p == s.c ==> Pending(s) == []
    ensures s.prod.LoopHead? || s.prod.Idle? || s.prod.Reserved? ==> FreeBound(|s.st|, s.p, s.c, s.free)
  {
    ReachedInv(s);
    if s.p == s.c { LevelMeansEmpty(s.st, s.p, s.c, s.e, s.tail, s.recent); }
  }

  /** While the producer is wrapped, which ends only with the consumer's roll-over, the recorded end does not move. */
  lemma EndFrozen(s: State, a: Action)
    requires Reached(s) && Enabled(s, a) && s.p < s.c
    ensures Do(s, a).e == s.e
    ensures Do(s, a).p < Do(s, a).c || a.PeekRoll?
  {
    ReachedInv(s);
    if a.Publish? { assert FreeBound(|s.st|, s.p, s.c, s.free + s.prod.n); }
    if a.Consume? { ConsumeEffect(s); }
  }

  /** FIFO of whole records: delivered, then pending, is what was committed, timestamps aside. */
  lemma FifoOrder(s: State)
    requires Reached(s)
    ensures s.p < |s.st| && s.c < |s.st| && (s.p < s.c ==> s.c <= s.e < |s.st|)
    ensures SameBodies(s.delivered + Pending(s), s.committed)
    ensures PendingBytes(s) == Concat(Pending(s))
    ensures forall i | |s.delivered| < i < |s.committed| :: Pending(s)[i - |s.delivered|] == s.committed[i]
  {
    ReachedInv(s);
    ConcatAppend(s.tail, s.recent);
    forall i | |s.delivered| < i < |s.committed|
      ensures Pending(s)[i - |s.delivered|] == s.committed[i]
    {
      assert History(s)[i] == s.committed[i];
    }
  }

  /** What a step does to the queue of pending records. */
  lemma PendingStep(s: State, a: Action)
    requires Inv(s) && Enabled(s, a)
    ensures var pending, pending' := Pending(s), Pending(Do(s, a));
            match a
            case Publish => pending' == pending + [s.st[s.p..s.p + s.prod.n]]
            case Consume => pending != [] && pending' == pending[1..]
            case Stamp(bs) => pending != [] && |pending[0]| >= STAMP_SIZE && pending' == RestampFirst(pending, bs)
            case _ => pending' == pending
  {
    match a {
      case Consume =>
        ConsumeEffect(s);
        PendingHead(s);
      case Stamp(bs) =>
        ViewHoldsHead(s);
        StampPending(s, bs);
      case _ =>
    }
  }

  /**
    Every step commits one record behind all pending ones, delivers the oldest pending one, overwrites
    its timestamp, or leaves the queue alone.
   */
  lemma StepRefinesFifo(s: State, a: Action)
    requires Reached(s) && Enabled(s, a)
    ensures var s' := Do(s, a);
            match a
            case Publish =>
              && s'.delivered == s.delivered
              && s'.committed == s.committed + [s.st[s.p..s.p + s.prod.n]]
              && Pending(s') == Pending(s) + [s.st[s.p..s.p + s.prod.n]]
            case Consume =>
              && s'.committed == s.committed
              && Pending(s) != [] && s'.delivered == s.delivered + [Pending(s)[0]] && Pending(s') == Pending(s)[1..]
              && |s.delivered| < |s.committed|
              && SameBody(Pending(s)[0], s.committed[|s.delivered|])
              && (!s.stamped ==> Pending(s)[0] == s.committed[|s.delivered|])
            case Stamp(bs) =>
              && s'.delivered == s.delivered && s'.committed == s.committed
              && Pending(s) != [] && |Pending(s)[0]| >= STAMP_SIZE && Pending(s') == RestampFirst(Pending(s), bs)
            case _ => s'.delivered == s.delivered && s'.committed == s.committed && Pending(s') == Pending(s)
  {
    ReachedInv(s);
    PendingStep(s, a);
    if a.Consume? {
      ConsumeEffect(s);
      ViewHoldsHead(s);
      assert History(s)[|s.delivered|] == Pending(s)[0];
    }
  }

  /** From `s` to `s'` the producer's fields and the bytes of its reservation stay as they are. */
  predicate ConsumerFrame(s: State, s': State)
    requires s.prod.Reserved? && s.p + s.prod.n <= |s.st|
  {
    && s'.prod == s.prod && s'.p == s.p && s'.free == s.free && |s'.st| == |s.st|
    && s'.st[s.p..s.p + s.prod.n] == s.st[s.p..s.p + s.prod.n]
  }

  /** Of the consumer's steps only the stamp writes to the storage. */
  lemma ConsumerReads(s: State, a: Action)
    requires ConsumerAction(a) && Enabled(s, a) && !a.Stamp?
    ensures var s' := Do(s, a); s'.prod == s.prod && s'.p == s.p && s'.free == s.free && s'.st == s.st
  {
  }

  lemma ConsumerFraming(s: State, a: Action)
    requires Inv(s) && s.prod.Reserved? && ConsumerAction(a) && Enabled(s, a)
    ensures s.p + s.prod.n <= |s.st| && ConsumerFrame(s, Do(s, a))
  {
    assert s.p + s.prod.n <= |s.st|;
    if a.Stamp? {
      assert FrontOf(s) != [] by { ViewHoldsHead(s); }
      StampFrame(s, a.bs, s.prod.n, s.free);
    } else {
      ConsumerReads(s, a);
    }
  }

  /**
    A granted reservation is contiguous, inside the storage and apart from every unread byte. Both
    assertions of `finishReservation` hold, it is never as large as the storage, and no consumer step moves
    or overwrites it.
   */
  lemma ReservationSafety(s: State)
    requires Reached(s) && s.prod.Reserved?
    ensures s.prod.n < s.free && s.p + s.prod.n < |s.st| && s.prod.n < |s.st|
    ensures forall i: nat | s.p <= i < s.p + s.prod.n :: !Unread(s.p, s.c, s.e, i)
    ensures forall a | ConsumerAction(a) && Enabled(s, a) :: ConsumerFrame(s, Do(s, a))
  {
    ReachedInv(s);
    forall a | ConsumerAction(a) && Enabled(s, a)
      ensures ConsumerFrame(s, Do(s, a))
    {
      ConsumerFraming(s, a);
    }
  }

  /**
    A non-empty `peek` starts at the oldest unconsumed record and holds complete records only, so a
    record is never split by a wrap; the in-band size field of its first record never exceeds it.
   */
  lemma PeekWholeRecords(s: State)
    requires Reached(s) && s.view > 0
    ensures 0 < s.held <= |Pending(s)|
    ensures s.c + s.view <= |s.st| && s.st[s.c..s.c + s.view] == Concat(Pending(s)[..s.held])
    ensures s.c + 16 <= |s.st| && SizeField(s.st[s.c..]) == |Pending(s)[0]| <= s.view
    ensures s.cons.AtRest? ==> Enabled(s, Consume)
  {
    ReachedInv(s);
    ViewHoldsHead(s);
    ViewBytes(s);
    assert Pending(s)[..s.held] == FrontOf(s)[..s.held];
  }

  lemma ViewBytes(s: State)
    requires Inv(s)
    ensures s.c + s.view <= ContiguousEnd(s.p, s.c, s.e) <= |s.st|
    ensures s.held <= |FrontOf(s)| && s.st[s.c..s.c + s.view] == Concat(FrontOf(s)[..s.held])
  {
    var rs := FrontOf(s);
    var stop := ContiguousEnd(s.p, s.c, s.e);
    ConcatSplit(rs, s.held);
    assert Concat(rs) == s.st[s.c..stop];
    assert Concat(rs)[0..s.view] == Concat(rs[..s.held]);
    SliceOfSlice(s.st, s.c, stop, 0, s.view);
  }

  predicate TouchesView(a: Action) {
    a.Consume? || a.Stamp?
  }

  /** From `s` to `s'` the bytes offered in `s` are still offered, unchanged. */
  predicate KeepsView(s: State, s': State) {
    && s'.c == s.c && s'.view >= s.view
    && s.c + s.view <= |s.st| == |s'.st|
    && s'.st[s.c..s.c + s.view] == s.st[s.c..s.c + s.view]
  }

  lemma KeepsViewTransitive(s: State, mid: State, s': State)
    requires KeepsView(s, mid) && KeepsView(mid, s')
    ensures KeepsView(s, s')
  {
    SameShorter(s'.st, mid.st, s.c, mid.view, s.view);
  }

  lemma SameShorter(x: seq<byte>, y: seq<byte>, c: nat, m: nat, n: nat)
    requires n <= m && c + m <= |x| && c + m <= |y| && x[c..c + m] == y[c..c + m]
    ensures x[c..c + n] == y[c..c + n]
  {
    SliceOfSlice(x, c, c + m, 0, n);
    SliceOfSlice(y, c, c + m, 0, n);
  }

  lemma StepKeepsView(s: State, a: Action)
    requires Inv(s) && Enabled(s, a) && !TouchesView(a) && s.view > 0
    ensures KeepsView(s, Do(s, a))
  {
    ViewBytes(s);
    if a.PeekPlain? {
      ConcatSplit(FrontOf(s)[..s.cons.count], s.held);
      assert FrontOf(s)[..s.cons.count][..s.held] == FrontOf(s)[..s.held];
    }
  }

  /**
    Peek stability: until the consumer consumes, however many peeks and producer steps happen, the
    bytes once offered stay at the same place, unchanged, and no later peek offers fewer.
   */
  lemma {:induction false} PeekStability(s: State, acts: seq<Action>, s': State)
    requires Inv(s) && Run(s, acts, s') && s.view > 0
    requires forall a | a in acts :: !TouchesView(a)
    ensures KeepsView(s, s')
    decreases |acts|
  {
    ViewBytes(s);
    if acts == [] {
    } else {
      var mid := Do(s, acts[0]);
      assert KeepsView(s, mid) by { StepKeepsView(s, acts[0]); }
      assert Inv(mid) by { StepInv(s, acts[0]); }
      PeekStability(mid, acts[1..], s');
      KeepsViewTransitive(s, mid, s');
    }
  }

  /**
    Both assertions of `finishReservation` hold for every reservation, no subtraction of positions is
    negative, and so the range guards of the step relation never block a thread that is inside a call.
   */
  lemma GuardsHold(s: State)
    requires Reached(s)
    ensures s.prod.GotConsumer? ==> Enabled(s, Branch)
    ensures s.prod.Rolled? ==> Enabled(s, Rebound)
    ensures s.prod.Finishing? ==> Enabled(s, Publish)
    ensures s.prod.Reserved? ==>
              && s.prod.n < s.free && s.p + s.prod.n < |s.st|
              && (forall i: nat, b | i < s.prod.n :: Enabled(s, Fill(i, b)))
              && (WellFormed(s.st[s.p..s.p + s.prod.n]) ==> Enabled(s, Settle))
    ensures s.cons.SawProducer? ==> Enabled(s, PeekPlain) || Enabled(s, PeekTail)
  {
    ReachedInv(s);
  }

  /** A buffer is deleted only with its thread gone and everything delivered, and then it is inert. */
  lemma SafeDeletion(s: State)
    requires Reached(s) && s.cons.Deleted?
    ensures s.retired && Pending(s) == [] && SameBodies(s.delivered, s.committed)
    ensures forall a :: !Enabled(s, a)
  {
    ReachedInv(s);
    LevelMeansEmpty(s.st, s.p, s.c, s.e, s.tail, s.recent);
    assert History(s) == s.delivered;
  }

  /**
    A retired buffer with nothing pending can be deleted after at most one more `peek`: the only
    obstacle is an old lap that was used up but not rolled over yet.
   */
  lemma RetiredDeletable(s: State)
    requires Reached(s) && s.retired && s.cons.AtRest? && Pending(s) == []
    ensures s.c == s.p || Run(s, [PeekStart, PeekTail, PeekRoll], DoRoll(s))
    ensures s.c != s.p ==> DoRoll(s).c == DoRoll(s).p && DoRoll(s).view == 0
    ensures var s1 := if s.c == s.p then s else DoRoll(s);
            Run(s1, [CheckFlag, CheckPositions], s1.(cons := Deleted))
  {
    ReachedInv(s);
    if s.c != s.p {
      RollRun(s);
    }
    DeleteRun(if s.c == s.p then s else DoRoll(s));
  }

  lemma RollRun(s: State)
    requires Layout(s.st, s.p, s.c, s.e, s.tail, s.recent) && Pending(s) == []
    requires s.cons.AtRest? && s.c != s.p
    ensures Run(s, [PeekStart, PeekTail, PeekRoll], DoRoll(s))
    ensures s.p == 0 && DoRoll(s).view == 0
  {
    assert s.p < s.c && s.e == s.c && |Concat(s.recent)| == s.p;
    var s1 := Do(s, PeekStart);
    var s2 := Do(s1, PeekTail);
    assert [PeekStart, PeekTail, PeekRoll][1..] == [PeekTail, PeekRoll];
    assert [PeekTail, PeekRoll][1..] == [PeekRoll];
    assert Do(s2, PeekRoll) == DoRoll(s);
    assert Run(s2, [PeekRoll], DoRoll(s));
  }

  lemma DeleteRun(s: State)
    requires s.retired && s.cons.AtRest? && s.c == s.p
    ensures Run(s, [CheckFlag, CheckPositions], s.(cons := Deleted))
  {
    var s2 := Do(s, CheckFlag);
    assert [CheckFlag, CheckPositions][1..] == [CheckPositions];
    assert Do(s2, CheckPositions) == s.(cons := Deleted);
    assert Run(s2, [CheckPositions], s.(cons := Deleted));
  }

  /** The state after a whole `peek` that finds the old lap used up and nothing after it. */
  function DoRoll(s: State): State {
    s.(c := 0, view := s.p, held := |s.recent|, cons := AtRest)
  }
}
