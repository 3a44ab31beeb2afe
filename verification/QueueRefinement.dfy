/** The staging buffer of single reads and writes as the thread of the poller's protocol. */
module QueueRefinement {
  import opened Bytes
  import opened StagingLayout
  import opened StagingBuffers
  import Q = StagingProtocol
  import P = PollProtocol

  function EntryOf(r: Record): P.Entry {
    P.Entry(if |r| < STAMP_SIZE then 0 else StampOf(r), Body(r))
  }

  function EntriesOf(rs: seq<Record>): (r: seq<P.Entry>)
    ensures |r| == |rs| && forall i | 0 <= i < |r| :: r[i] == EntryOf(rs[i])
  {
    seq(|rs|, i requires 0 <= i < |rs| => EntryOf(rs[i]))
  }

  function BodiesOf(rs: seq<Record>): (r: seq<P.Content>)
    ensures |r| == |rs| && forall i | 0 <= i < |r| :: r[i] == Body(rs[i])
  {
    seq(|rs|, i requires 0 <= i < |rs| => Body(rs[i]))
  }

  /**
    Whether the buffer counts as level: its positions are equal, or the `peek` under way has read a
    producer position of the new lap and is going to make them equal, if nothing is published first.
   */
  predicate Level(s: Q.State) {
    && Q.Pending(s) == []
    && (s.p == s.c || s.cons.RollOver? || (s.cons.SawProducer? && s.cons.q < s.c))
  }

  /** A registered thread's buffer, reduced to what the poller's protocol keeps of it. */
  function ThreadOf(s: Q.State): P.Thread {
    P.Thread(BodiesOf(s.committed), EntriesOf(Q.Pending(s)), true, s.retired, Level(s))
  }

  /** A step that has nothing to do with records shows only in whether the buffer counts as level. */
  lemma SamePending(s: Q.State, s': Q.State)
    requires Q.Pending(s') == Q.Pending(s) && s'.committed == s.committed
    ensures ThreadOf(s') == ThreadOf(s).(retired := s'.retired, level := Level(s'))
  {
  }

  /** Publishing a record is `Commit`. */
  lemma PublishCommits(s: Q.State)
    requires Q.Reached(s) && Q.Enabled(s, Q.Publish)
    ensures var record := s.st[s.p..s.p + s.prod.n];
            var th := ThreadOf(s);
            && !s.retired
            && ThreadOf(Q.Do(s, Q.Publish)) ==
               th.(committed := th.committed + [Body(record)], pending := th.pending + [EntryOf(record)],
                   level := false)
  {
    Q.StepRefinesFifo(s, Q.Publish);
    Q.ReachedInv(s);
    var s', record := Q.Do(s, Q.Publish), s.st[s.p..s.p + s.prod.n];
    assert WellFormed(record);
    assert EntriesOf(Q.Pending(s')) == EntriesOf(Q.Pending(s)) + [EntryOf(record)];
    assert BodiesOf(s'.committed) == BodiesOf(s.committed) + [Body(record)];
  }

  /** Overwriting the timestamp is what `Format` does to a thread. */
  lemma StampFormats(s: Q.State, bs: seq<byte>)
    requires Q.Reached(s) && Q.Enabled(s, Q.Stamp(bs))
    ensures var th := ThreadOf(s);
            && th.pending != []
            && ThreadOf(Q.Do(s, Q.Stamp(bs))) ==
               th.(pending := [th.pending[0].(stamp := LeValue(bs))] + th.pending[1..])
  {
    Q.StepRefinesFifo(s, Q.Stamp(bs));
    EntriesRestamped(Q.Pending(s), bs);
    StampFields(s, bs);
  }

  lemma EntriesRestamped(rs: seq<Record>, bs: seq<byte>)
    requires rs != [] && |rs[0]| >= STAMP_SIZE && |bs| == STAMP_SIZE
    ensures var entries := EntriesOf(rs);
            EntriesOf(RestampFirst(rs, bs)) == [entries[0].(stamp := LeValue(bs))] + entries[1..]
  {
    assert Restamp(rs[0], bs)[..STAMP_SIZE] == bs;
  }

  lemma StampFields(s: Q.State, bs: seq<byte>)
    requires Q.Enabled(s, Q.Stamp(bs))
    ensures var s' := Q.Do(s, Q.Stamp(bs)); s'.retired == s.retired && s'.p == s.p && s'.c == s.c
  {
  }

  /** Consuming the head is `Consume`: the positions can only meet with the last record. */
  lemma ConsumeConsumes(s: Q.State)
    requires Q.Reached(s) && Q.Enabled(s, Q.Consume)
    ensures var s' := Q.Do(s, Q.Consume);
            var th := ThreadOf(s);
            && th.pending != []
            && ThreadOf(s') == th.(pending := th.pending[1..], level := s'.p == s'.c && |th.pending| == 1)
  {
    Q.StepRefinesFifo(s, Q.Consume);
    var s' := Q.Do(s, Q.Consume);
    LevelAfterConsume(s);
    ConsumeFields(s);
    assert EntriesOf(Q.Pending(s')) == ThreadOf(s).pending[1..];
  }

  lemma LevelAfterConsume(s: Q.State)
    requires Q.Reached(s) && Q.Enabled(s, Q.Consume)
    ensures var s' := Q.Do(s, Q.Consume); s'.p == s'.c ==> Q.Pending(s') == []
  {
    Q.ReachedInv(s);
    Q.StepInv(s, Q.Consume);
    var s' := Q.Do(s, Q.Consume);
    if s'.p == s'.c {
      LevelMeansEmpty(s'.st, s'.p, s'.c, s'.e, s'.tail, s'.recent);
    }
  }

  lemma ConsumeFields(s: Q.State)
    requires Q.Enabled(s, Q.Consume)
    ensures var s' := Q.Do(s, Q.Consume); s'.committed == s.committed && s'.retired == s.retired && s'.cons.AtRest?
  {
  }

  /** Where `peek` reads the producer position, it finds out whether anything is pending. */
  lemma StartPeeks(s: Q.State)
    requires Q.Reached(s) && Q.Enabled(s, Q.PeekStart)
    ensures var th := ThreadOf(s);
            ThreadOf(Q.Do(s, Q.PeekStart)) == if th.pending == [] then th.(level := true) else th
  {
    Q.StepRefinesFifo(s, Q.PeekStart);
    Q.ReachedInv(s);
    ConcatEmpty(s.recent);
    SamePending(s, Q.Do(s, Q.PeekStart));
  }

  /** The rest of `peek` only carries out what the read has decided. */
  lemma PeekStutters(s: Q.State, a: Q.Action)
    requires Q.Reached(s) && Q.Enabled(s, a) && (a.PeekPlain? || a.PeekTail? || a.PeekRoll?)
    ensures ThreadOf(Q.Do(s, a)) == ThreadOf(s)
  {
    Q.StepRefinesFifo(s, a);
    Q.ReachedInv(s);
    ConcatEmpty(s.recent);
    ConcatEmpty(s.tail);
    SamePending(s, Q.Do(s, a));
  }

  lemma RetireRetires(s: Q.State)
    requires Q.Reached(s) && Q.Enabled(s, Q.Retire)
    ensures ThreadOf(Q.Do(s, Q.Retire)) == ThreadOf(s).(retired := true)
  {
    Q.StepRefinesFifo(s, Q.Retire);
    SamePending(s, Q.Do(s, Q.Retire));
  }

  /** A wrap parts level positions. */
  lemma WrapUnlevels(s: Q.State)
    requires Q.Reached(s) && Q.Enabled(s, Q.Wrap)
    ensures !s.retired
    ensures ThreadOf(Q.Do(s, Q.Wrap)) == if s.prod.seen != 0 then ThreadOf(s).(level := false) else ThreadOf(s)
  {
    Q.StepRefinesFifo(s, Q.Wrap);
    Q.ReachedInv(s);
    SamePending(s, Q.Do(s, Q.Wrap));
  }

  /** All other steps leave the records and the positions alone. */
  lemma OthersStutter(s: Q.State, a: Q.Action)
    requires Q.Reached(s) && Q.Enabled(s, a)
    requires !a.Publish? && !a.Stamp? && !a.Consume? && !a.Retire? && !a.Wrap?
    requires !a.PeekStart? && !a.PeekPlain? && !a.PeekTail? && !a.PeekRoll?
    ensures ThreadOf(Q.Do(s, a)) == ThreadOf(s)
  {
    Q.StepRefinesFifo(s, a);
    SamePending(s, Q.Do(s, a));
  }

  /** The step of the poller's protocol that a step of the buffer of thread `t` stands for. */
  function ImageOf(s: Q.State, a: Q.Action, t: P.Tid): Option<P.Action>
    requires Q.Enabled(s, a)
  {
    match a
    case Publish => Some(P.Commit(t, EntryOf(s.st[s.p..s.p + s.prod.n])))
    case Wrap => if s.prod.seen != 0 then Some(P.Unlevel(t)) else None
    case Retire => Some(P.Retire(t))
    case PeekStart => Some(P.PeekAt)
    case Stamp(bs) => Some(P.Format(LeValue(bs)))
    case Consume => Some(P.Consume(Q.Do(s, a).p == Q.Do(s, a).c))
    case _ => None
  }

  /** A step of the poller's own is taken when the poller is at `t`. */
  predicate PollerAt(g: P.State, t: P.Tid, b: P.Action) {
    match b
    case PeekAt => g.pc.Looking? && g.pc.i < |g.registry| && g.registry[g.pc.i] == t
    case Format(_) => g.pc == P.Processing(t)
    case Consume(_) => g.pc == P.Written(t)
    case _ => true
  }

  ghost predicate Mirrors(g: P.State, t: P.Tid, b: P.Action, th': P.Thread) {
    P.Enabled(g, b) && t in P.Do(g, b).threads && P.Do(g, b).threads[t] == th'
  }

  lemma ThreadMirrors(g: P.State, t: P.Tid, b: P.Action, th': P.Thread)
    requires t in g.threads && g.threads[t].registered
    requires match b
             case Commit(u, entry) =>
               var th := g.threads[t];
               && u == t && !th.retired
               && th' == th.(committed := th.committed + [entry.content], pending := th.pending + [entry],
                             level := false)
             case Unlevel(u) => u == t && !g.threads[t].retired && th' == g.threads[t].(level := false)
             case Retire(u) => u == t && th' == g.threads[t].(retired := true)
             case _ => false
    ensures Mirrors(g, t, b, th')
  {
  }

  lemma PollerMirrors(g: P.State, t: P.Tid, b: P.Action, th': P.Thread)
    requires t in g.threads
    requires var th := g.threads[t];
             match b
             case PeekAt => th' == if th.pending == [] then th.(level := true) else th
             case Format(now) =>
               th.pending != [] && th' == th.(pending := [th.pending[0].(stamp := now)] + th.pending[1..])
             case Consume(meet) =>
               th.pending != [] && th' == th.(pending := th.pending[1..], level := meet && |th.pending| == 1)
             case _ => false
    ensures PollerAt(g, t, b) ==> Mirrors(g, t, b, th')
  {
  }

  /** A new buffer is a thread that has just registered. */
  lemma InitialThread(s: Q.State, g: P.State, t: P.Tid)
    requires Q.Initial(s) && P.Enabled(g, P.Spawn(t)) && P.MutexFree(g)
    ensures var g1 := P.Do(g, P.Spawn(t));
            P.Enabled(g1, P.Register(t)) && P.Do(g1, P.Register(t)).threads[t] == ThreadOf(s)
  {
    assert EntriesOf(Q.Pending(s)) == [] && BodiesOf(s.committed) == [];
  }

  /**
    Every small step of the buffer of thread `t` is a step of the poller's protocol on that thread, or
    none: publish is `Commit`, a wrap is `Unlevel`, the read of the producer position is what `PeekAt` does
    to the buffer it looks at, the rest of `peek` adds nothing, and stamping and consuming are those of the
    poller. A `peek` that finds a record, as the second one of a round does, changes nothing either.
   */
  lemma QueueSimulates(s: Q.State, a: Q.Action, g: P.State, t: P.Tid)
    requires Q.Reached(s) && Q.Enabled(s, a)
    requires t in g.threads && g.threads[t] == ThreadOf(s)
    ensures var b := ImageOf(s, a, t);
            if b.None? then ThreadOf(Q.Do(s, a)) == ThreadOf(s)
            else PollerAt(g, t, b.value) ==> Mirrors(g, t, b.value, ThreadOf(Q.Do(s, a)))
    ensures a.PeekStart? && Q.Pending(s) != [] ==> ThreadOf(Q.Do(s, a)) == ThreadOf(s)
  {
    if ImageOf(s, a, t).None? {
      ImagelessStutters(s, a, t);
    } else if a.Publish? || a.Wrap? || a.Retire? {
      ThreadSimulates(s, a, g, t);
    } else {
      PollerSimulates(s, a, g, t);
    }
  }

  lemma ImagelessStutters(s: Q.State, a: Q.Action, t: P.Tid)
    requires Q.Reached(s) && Q.Enabled(s, a) && ImageOf(s, a, t).None?
    ensures ThreadOf(Q.Do(s, a)) == ThreadOf(s)
  {
    if a.Wrap? {
      WrapUnlevels(s);
    } else if a.PeekPlain? || a.PeekTail? || a.PeekRoll? {
      PeekStutters(s, a);
    } else {
      OthersStutter(s, a);
    }
  }

  lemma ThreadSimulates(s: Q.State, a: Q.Action, g: P.State, t: P.Tid)
    requires Q.Reached(s) && Q.Enabled(s, a) && ImageOf(s, a, t).Some? && (a.Publish? || a.Wrap? || a.Retire?)
    requires t in g.threads && g.threads[t] == ThreadOf(s)
    ensures Mirrors(g, t, ImageOf(s, a, t).value, ThreadOf(Q.Do(s, a)))
  {
    match a {
      case Publish => PublishCommits(s);
      case Wrap => WrapUnlevels(s);
      case Retire => RetireRetires(s);
    }
    ThreadMirrors(g, t, ImageOf(s, a, t).value, ThreadOf(Q.Do(s, a)));
  }

  lemma PollerSimulates(s: Q.State, a: Q.Action, g: P.State, t: P.Tid)
    requires Q.Reached(s) && Q.Enabled(s, a) && (a.PeekStart? || a.Stamp? || a.Consume?)
    requires t in g.threads && g.threads[t] == ThreadOf(s)
    ensures PollerAt(g, t, ImageOf(s, a, t).value) ==> Mirrors(g, t, ImageOf(s, a, t).value, ThreadOf(Q.Do(s, a)))
    ensures a.PeekStart? && Q.Pending(s) != [] ==> ThreadOf(Q.Do(s, a)) == ThreadOf(s)
  {
    match a {
      case PeekStart => StartPeeks(s);
      case Stamp(bs) => StampFormats(s, bs);
      case Consume => ConsumeConsumes(s);
    }
    PollerMirrors(g, t, ImageOf(s, a, t).value, ThreadOf(Q.Do(s, a)));
  }

  // ---- What the poller is told ----

  /** What the `peek` under way, or the last one, is going to offer: something or nothing. */
  predicate Offers(s: Q.State) {
    match s.cons
    case SawProducer(q, _) => if q < s.c then s.c < s.e || q > 0 else q > s.c
    case RollOver(q, _) => q > 0
    case _ => s.view > 0
  }

  /** A step of the producer, or of the `peek` under way. */
  predicate WithinPeek(a: Q.Action) {
    !Q.ConsumerAction(a) || a.PeekPlain? || a.PeekTail? || a.PeekRoll?
  }

  lemma PeekOffers(s: Q.State, a: Q.Action)
    requires Q.ConsumerInv(s) && Q.Enabled(s, a) && (a.PeekPlain? || a.PeekTail? || a.PeekRoll?)
    ensures Offers(Q.Do(s, a)) == Offers(s)
  {
  }

  lemma ProducerOffers(s: Q.State, a: Q.Action)
    requires Q.Reached(s) && Q.Enabled(s, a) && !Q.ConsumerAction(a)
    ensures Offers(Q.Do(s, a)) == Offers(s)
  {
    Q.ReachedInv(s);
    if s.p < s.c {
      Q.EndFrozen(s, a);
    }
    ConsumerUntouched(s, a);
  }

  lemma ConsumerUntouched(s: Q.State, a: Q.Action)
    requires Q.Enabled(s, a) && !Q.ConsumerAction(a)
    ensures var s' := Q.Do(s, a); s'.cons == s.cons && s'.c == s.c && s'.view == s.view
  {
  }

  lemma OffersKept(s: Q.State, a: Q.Action)
    requires Q.Reached(s) && Q.Enabled(s, a) && WithinPeek(a)
    ensures Offers(Q.Do(s, a)) == Offers(s)
  {
    if Q.ConsumerAction(a) {
      Q.ReachedInv(s);
      PeekOffers(s, a);
    } else {
      ProducerOffers(s, a);
    }
  }

  lemma StartOffers(s: Q.State)
    requires Q.Reached(s) && Q.Enabled(s, Q.PeekStart)
    ensures Offers(Q.Do(s, Q.PeekStart)) <==> Q.Pending(s) != []
  {
    Q.ReachedInv(s);
    ConcatEmpty(s.tail);
    ConcatEmpty(s.recent);
  }

  lemma HeadKept(s: Q.State, a: Q.Action)
    requires Q.Reached(s) && Q.Enabled(s, a) && WithinPeek(a) && Q.Pending(s) != []
    ensures Q.Pending(Q.Do(s, a)) != [] && Q.Pending(Q.Do(s, a))[0] == Q.Pending(s)[0]
  {
    Q.StepRefinesFifo(s, a);
  }

  lemma {:induction false} PeekCarriesOn(s: Q.State, acts: seq<Q.Action>, s': Q.State)
    requires Q.Reached(s) && Q.Run(s, acts, s') && forall i | 0 <= i < |acts| :: WithinPeek(acts[i])
    ensures Offers(s') == Offers(s)
    ensures Q.Pending(s) != [] ==> Q.Pending(s') != [] && Q.Pending(s')[0] == Q.Pending(s)[0]
    decreases |acts|
  {
    if acts == [] {
    } else {
      OffersKept(s, acts[0]);
      if Q.Pending(s) != [] { HeadKept(s, acts[0]); }
      ReachedNext(s, acts[0]);
      PeekCarriesOn(Q.Do(s, acts[0]), acts[1..], s');
    }
  }

  lemma ReachedNext(s: Q.State, a: Q.Action)
    requires Q.Reached(s) && Q.Enabled(s, a)
    ensures Q.Reached(Q.Do(s, a))
  {
    var s0, before :| Q.Initial(s0) && Q.Run(s0, before, s);
    assert [a][1..] == [] && Q.Run(Q.Do(s, a), [], Q.Do(s, a));
    Q.RunAppend(s0, before, s, [a], Q.Do(s, a));
    assert Q.Run(s0, before + [a], Q.Do(s, a));
  }

  lemma PeekEnds(s: Q.State, acts: seq<Q.Action>, s': Q.State)
    requires Q.Reached(s) && Q.Enabled(s, Q.PeekStart) && Q.Run(Q.Do(s, Q.PeekStart), acts, s')
    requires s'.cons.AtRest? && forall i | 0 <= i < |acts| :: WithinPeek(acts[i])
    ensures s'.view > 0 <==> Q.Pending(s) != []
    ensures Q.Pending(s) != [] ==> Q.Pending(s') != [] && Q.Pending(s')[0] == Q.Pending(s)[0]
  {
    StartOffers(s);
    ReachedNext(s, Q.PeekStart);
    PeekCarriesOn(Q.Do(s, Q.PeekStart), acts, s');
  }

  /** What the poller's scan makes of a buffer whose `peek` offers `rs`. */
  function Scanned(pc: P.Pc, t: P.Tid, rs: seq<Record>): P.Pc
    requires pc.Looking?
  {
    if rs == [] then P.Scanning(pc.i + 1, pc.best, pc.seen)
    else P.Scanning(pc.i + 1, P.Better(pc.best, EntryOf(rs[0]).stamp, t), pc.seen + {t})
  }

  lemma ScanTakes(s: Q.State, g: P.State, t: P.Tid)
    requires t in g.threads && g.threads[t] == ThreadOf(s) && PollerAt(g, t, P.PeekAt)
    ensures P.Do(g, P.PeekAt).pc == Scanned(g.pc, t, Q.Pending(s))
  {
  }

  /**
    Whatever the producer publishes while `peek` is under way, its answer is that of the moment at which it
    read the producer position, and so what the scan of the poller's protocol goes on with: something if
    and only if something was pending then, and the timestamp of the record that is at the front now.
   */
  lemma PeekAnswers(s: Q.State, acts: seq<Q.Action>, s': Q.State, g: P.State, t: P.Tid)
    requires Q.Reached(s) && Q.Enabled(s, Q.PeekStart) && Q.Run(Q.Do(s, Q.PeekStart), acts, s')
    requires s'.cons.AtRest? && forall i | 0 <= i < |acts| :: WithinPeek(acts[i])
    requires t in g.threads && g.threads[t] == ThreadOf(s) && PollerAt(g, t, P.PeekAt)
    ensures s'.view > 0 <==> Q.Pending(s) != []
    ensures s'.view > 0 ==> Q.Pending(s') != []
    ensures P.Do(g, P.PeekAt).pc == Scanned(g.pc, t, if s'.view > 0 then Q.Pending(s') else [])
  {
    PeekEnds(s, acts, s');
    ScanTakes(s, g, t);
  }
}
