/** When a blocked reservation gets through. */
module StagingProgress {
  import opened Bytes
  import opened StagingLayout
  import opened StagingProtocol

  /**
    One whole turn of the slow-path loop, with no consumer step in between. It reads the consumer
    position once and ends either with the reservation granted or back at the loop test.
   */
  function Iterate(s: State): (s': State)
    requires s.prod.LoopHead? && s.p < |s.st| && s.c < |s.st|
    ensures s'.prod == LoopHead(s.prod.n) || s'.prod == Reserved(s.prod.n)
    ensures s'.st == s.st && s'.p < |s'.st| && s'.c == s.c && s'.cons == s.cons
  {
    var n := s.prod.n;
    if s.free > n then
      s.(prod := Reserved(n))
    else if s.c > s.p then
      s.(free := s.c - s.p, prod := if s.c - s.p > n then Reserved(n) else LoopHead(n))
    else if |s.st| - s.p > n then
      s.(free := |s.st| - s.p, prod := Reserved(n))
    else if s.c == 0 then
      s.(free := |s.st| - s.p, e := s.p)
    else
      s.(free := s.c, e := s.p, p := 0, tail := s.recent, recent := [],
         prod := if s.c > n then Reserved(n) else LoopHead(n))
  }

  predicate ProducerAction(a: Action) {
    !ConsumerAction(a)
  }

  /** `Iterate` is what the small steps of the producer do. */
  lemma IterateRuns(s: State) returns (acts: seq<Action>)
    requires s.prod.LoopHead? && s.p < |s.st| && s.c < |s.st|
    ensures Run(s, acts, Iterate(s))
    ensures forall a | a in acts :: ProducerAction(a) && a != GiveUp
    ensures s.free <= s.prod.n ==> ReadConsumer in acts
  {
    if s.free > s.prod.n {
      OneStep(s, LoopExit);
      acts := [LoopExit];
    } else {
      var s2;
      acts, s2 := TurnRuns(s);
      if s2.prod.LoopHead? && s2.free > s2.prod.n {
        Then(s, acts, s2, LoopExit);
        acts := acts + [LoopExit];
      }
    }
  }

  /** A turn of the loop up to its next test. */
  lemma TurnRuns(s: State) returns (acts: seq<Action>, s': State)
    requires s.prod.LoopHead? && s.p < |s.st| && s.c < |s.st| && s.free <= s.prod.n
    ensures Run(s, acts, s')
    ensures (forall a | a in acts :: ProducerAction(a) && a != GiveUp) && ReadConsumer in acts
    ensures Iterate(s) == if s'.prod.LoopHead? && s'.free > s'.prod.n then s'.(prod := Reserved(s'.prod.n)) else s'
    ensures s'.prod.LoopHead? || s'.prod.Reserved?
  {
    acts, s' := BranchRuns(s);
    if s'.prod.NoRoom? {
      var more, s3 := WrapRuns(s');
      RunAppend(s, acts, s', more, s3);
      acts, s' := acts + more, s3;
    }
  }

  lemma BranchRuns(s: State) returns (acts: seq<Action>, s': State)
    requires s.prod.LoopHead? && s.p < |s.st| && s.c < |s.st| && s.free <= s.prod.n
    ensures Run(s, acts, s')
    ensures (forall a | a in acts :: ProducerAction(a) && a != GiveUp) && ReadConsumer in acts
    ensures s' == if s.c > s.p then s.(free := s.c - s.p)
                  else if |s.st| - s.p > s.prod.n then s.(free := |s.st| - s.p, prod := Reserved(s.prod.n))
                  else s.(free := |s.st| - s.p, prod := NoRoom(s.prod.n, s.c))
  {
    OneStep(s, ReadConsumer);
    var s1 := Do(s, ReadConsumer);
    Then(s, [ReadConsumer], s1, Branch);
    s' := Do(s1, Branch);
    acts := [ReadConsumer] + [Branch];
  }

  lemma WrapRuns(s: State) returns (acts: seq<Action>, s': State)
    requires s.prod.NoRoom? && s.prod.seen == s.c
    ensures Run(s, acts, s')
    ensures forall a | a in acts :: ProducerAction(a) && a != GiveUp
    ensures s' == if s.c == 0 then s.(e := s.p, prod := LoopHead(s.prod.n))
                  else s.(e := s.p, p := 0, free := s.c, tail := s.recent, recent := [], prod := LoopHead(s.prod.n))
  {
    OneStep(s, MarkEnd);
    s' := Do(s, MarkEnd);
    acts := [MarkEnd];
    Then(s, acts, s', Wrap);
    s', acts := Do(s', Wrap), acts + [Wrap];
    if s'.prod.Rolled? {
      Then(s, acts, s', Rebound);
      s', acts := Do(s', Rebound), acts + [Rebound];
    }
  }

  lemma Then(s: State, acts: seq<Action>, mid: State, a: Action)
    requires Run(s, acts, mid) && Enabled(mid, a)
    ensures Run(s, acts + [a], Do(mid, a))
  {
    OneStep(mid, a);
    RunAppend(s, acts, mid, [a], Do(mid, a));
  }

  lemma OneStep(s: State, a: Action)
    requires Enabled(s, a)
    ensures Run(s, [a], Do(s, a))
  {
    assert [a][1..] == [];
    assert Run(Do(s, a), [], Do(s, a));
  }

  /** The state after the consumer has consumed everything and peeked once more. */
  function Drained(s: State): State {
    s.(c := s.p, view := 0, held := 0, tail := [], recent := [],
       delivered := s.delivered + Pending(s), stamped := s.stamped && Pending(s) == [])
  }

  /** One `peek` on a non-empty buffer. */
  lemma PeekRun(s: State) returns (acts: seq<Action>, s': State)
    requires Inv(s) && s.cons.AtRest? && s.view == 0 && Pending(s) != []
    ensures Run(s, acts, s') && (forall a | a in acts :: ConsumerAction(a))
    ensures s'.view > 0 && s'.cons.AtRest?
    ensures Pending(s') == Pending(s) && Drained(s') == Drained(s)
  {
    ConcatEmpty(s.tail);
    ConcatEmpty(s.recent);
    var c := if s.p < s.c && s.e == s.c then 0 else s.c;
    var view, held := if s.p < s.c && s.e > s.c then s.e - s.c else s.p - c,
                      if s.p < s.c && s.e > s.c then |s.tail| else |s.recent|;
    s' := s.(c := c, view := view, held := held);
    acts := PeekSteps(s, s');
  }

  /** The small steps of `peek`, on a producer position that does not change meanwhile. */
  lemma PeekSteps(s: State, s': State) returns (acts: seq<Action>)
    requires s.cons.AtRest? && (s.p < s.c ==> s.c <= s.e)
    requires if s.p >= s.c then s' == s.(view := s.p - s.c, held := |s.recent|)
             else if s.e > s.c then s' == s.(view := s.e - s.c, held := |s.tail|)
             else s' == s.(c := 0, view := s.p, held := |s.recent|)
    ensures Run(s, acts, s') && (forall a | a in acts :: ConsumerAction(a))
  {
    OneStep(s, PeekStart);
    var s1 := Do(s, PeekStart);
    if s.p >= s.c {
      Then(s, [PeekStart], s1, PeekPlain);
      acts := [PeekStart] + [PeekPlain];
    } else {
      Then(s, [PeekStart], s1, PeekTail);
      acts := [PeekStart] + [PeekTail];
      if s.e == s.c {
        Then(s, acts, Do(s1, PeekTail), PeekRoll);
        acts := acts + [PeekRoll];
      }
    }
  }

  /** Draining forgets which records were still pending and which were already delivered. */
  lemma DrainedSame(s: State, s': State)
    requires s'.delivered + Pending(s') == s.delivered + Pending(s) && s'.c <= |s'.st|
    requires s'.st == s.st && s'.p == s.p && s'.e == s.e && s'.free == s.free && s'.retired == s.retired
    requires s'.prod == s.prod && s'.cons == s.cons && s'.committed == s.committed
    requires !s'.stamped && Pending(s) != []
    ensures Drained(s') == Drained(s)
  {
  }

  lemma ConsumeTakesOne(s: State)
    requires Inv(s) && Enabled(s, Consume)
    ensures FrontOf(s) != []
    ensures var s' := Do(s, Consume);
            Pending(s) == [FrontOf(s)[0]] + Pending(s') && s'.delivered == s.delivered + [FrontOf(s)[0]]
  {
    ConsumeEffect(s);
    PendingHead(s);
  }

  lemma MoveOne(a: seq<Record>, x: Record, b: seq<Record>)
    ensures (a + [x]) + b == a + ([x] + b)
  {
  }

  lemma ConsumeConserves(s: State)
    requires Inv(s) && Enabled(s, Consume)
    ensures var s' := Do(s, Consume); s'.delivered + Pending(s') == s.delivered + Pending(s) && Pending(s) != []
  {
    ConsumeTakesOne(s);
    MoveOne(s.delivered, FrontOf(s)[0], Pending(Do(s, Consume)));
  }

  lemma ConsumeShrinks(s: State)
    requires Inv(s) && s.cons.AtRest? && s.view > 0
    ensures Enabled(s, Consume)
    ensures var s' := Do(s, Consume);
            s'.cons.AtRest? && |Pending(s')| < |Pending(s)| && Drained(s') == Drained(s)
  {
    assert Enabled(s, Consume) by { ViewHoldsHead(s); }
    assert |Pending(s)| == 1 + |Pending(Do(s, Consume))| by { ConsumeTakesOne(s); }
    ConsumeConserves(s);
    DrainedSame(s, Do(s, Consume));
  }

  /** The consumer can always empty the buffer on its own, whatever the producer is stuck on. */
  lemma {:induction false} DrainRuns(s: State) returns (acts: seq<Action>)
    requires Inv(s) && s.cons.AtRest?
    ensures Run(s, acts, Drained(s))
    ensures forall a | a in acts :: ConsumerAction(a)
    decreases |Pending(s)|
  {
    if Pending(s) == [] {
      acts := LastPeek(s);
    } else {
      var s1;
      acts, s1 := TakeOne(s);
      var more := DrainRuns(s1);
      RunAppend(s, acts, s1, more, Drained(s));
      acts := acts + more;
    }
  }

  lemma LastPeek(s: State) returns (acts: seq<Action>)
    requires Inv(s) && s.cons.AtRest? && Pending(s) == []
    ensures Run(s, acts, Drained(s))
    ensures forall a | a in acts :: ConsumerAction(a)
  {
    assert s.view == 0 && s.held == 0;
    assert s.delivered + Pending(s) == s.delivered;
    acts := [];
    if s.c != s.p {
      RollRun(s);
      acts := [PeekStart, PeekTail, PeekRoll];
    }
  }

  /** Peek if nothing is on offer, then consume one record. */
  lemma TakeOne(s: State) returns (acts: seq<Action>, s': State)
    requires Inv(s) && s.cons.AtRest? && Pending(s) != []
    ensures Run(s, acts, s') && Inv(s') && s'.cons.AtRest?
    ensures |Pending(s')| < |Pending(s)| && Drained(s') == Drained(s)
    ensures forall a | a in acts :: ConsumerAction(a)
  {
    var s1;
    acts, s1 := Offered(s);
    ConsumeShrinks(s1);
    s' := Do(s1, Consume);
    assert Inv(s') by { StepInv(s1, Consume); }
    Then(s, acts, s1, Consume);
    acts := acts + [Consume];
  }

  /** A state, reached by the consumer alone, in which the oldest record is on offer. */
  lemma Offered(s: State) returns (acts: seq<Action>, s1: State)
    requires Inv(s) && s.cons.AtRest? && Pending(s) != []
    ensures Run(s, acts, s1) && Inv(s1) && s1.cons.AtRest? && s1.view > 0
    ensures Pending(s1) == Pending(s) && Drained(s1) == Drained(s)
    ensures forall a | a in acts :: ConsumerAction(a)
  {
    if s.view == 0 {
      acts, s1 := PeekRun(s);
      RunInv(s, acts, s1);
    } else {
      acts, s1 := [], s;
    }
  }

  /**
    Alternating turns of the loop with full drains grants every reservation smaller than the storage
    within three turns, from any reachable state; no schedule ever grants a larger one.
   */
  lemma ThreeTurnsSuffice(s: State)
    requires Reached(s) && s.prod.LoopHead? && s.prod.n < |s.st|
    ensures s.p < |s.st| && s.c < |s.st|
    ensures TurnsToGrant(s) <= 3
  {
    ReachedInv(s);
    TurnsFromRange(s);
  }

  /** How many turns of the loop, a full drain between each two, until the grant; 4 stands for more. */
  function TurnsToGrant(s: State): nat
    requires s.prod.LoopHead? && s.p < |s.st| && s.c < |s.st|
  {
    var s1 := Iterate(s);
    if s1.prod.Reserved? then 1 else
    var s2 := Iterate(Drained(s1));
    if s2.prod.Reserved? then 2 else
    if Iterate(Drained(s2)).prod.Reserved? then 3 else 4
  }

  lemma TurnsFromRange(s: State)
    requires s.prod.LoopHead? && s.prod.n < |s.st| && s.p < |s.st| && s.c < |s.st|
    ensures TurnsToGrant(s) <= 3
  {
  }

  // ---- The call that does not wait ----

  /** `reserveProducerSpace` in the non-blocking mode: the call, at most one turn of the loop, and giving up. */
  function TryReserve(s: State, n: nat): State
    requires s.prod.Idle? && s.p < |s.st| && s.c < |s.st|
  {
    var called := Do(s, Call(n));
    if called.prod.Reserved? then called
    else
      var turned := Iterate(called);
      if turned.prod.Reserved? then turned else turned.(prod := Idle)
  }

  /** It is a run of the producer's small steps, which gives up only after having looked at the consumer. */
  lemma TryRuns(s: State, n: nat) returns (acts: seq<Action>)
    requires s.prod.Idle? && s.p < |s.st| && s.c < |s.st|
    ensures Run(s, acts, TryReserve(s, n))
    ensures forall a | a in acts :: ProducerAction(a)
    ensures TryReserve(s, n).prod == Reserved(n) || (TryReserve(s, n).prod == Idle && ReadConsumer in acts)
  {
    OneStep(s, Call(n));
    acts := [Call(n)];
    if Do(s, Call(n)).prod.LoopHead? {
      var turn := CalledRuns(Do(s, Call(n)));
      RunAppend(s, acts, Do(s, Call(n)), turn, TryReserve(s, n));
      acts := acts + turn;
    }
  }

  lemma CalledRuns(s: State) returns (acts: seq<Action>)
    requires s.prod.LoopHead? && s.free <= s.prod.n && s.p < |s.st| && s.c < |s.st|
    ensures var turned := Iterate(s); Run(s, acts, if turned.prod.Reserved? then turned else turned.(prod := Idle))
    ensures (forall a | a in acts :: ProducerAction(a)) && ReadConsumer in acts
  {
    acts := IterateRuns(s);
    if Iterate(s).prod.LoopHead? {
      Then(s, acts, Iterate(s), GiveUp);
      acts := acts + [GiveUp];
    }
  }

  /** Producer steps inside the call alone, without giving up, end with the grant. */
  ghost predicate Grants(s: State, n: nat)
    requires s.prod.Idle?
  {
    exists acts, s' ::
      && Run(Do(s, Call(n)), acts, s') && s'.prod == Reserved(n)
      && forall a | a in acts :: ProducerAction(a) && a != GiveUp
  }

  /** Inside a call for `n` bytes for which there is no room anywhere, with a fresh copy of the consumer position. */
  predicate Stuck(s: State, n: nat) {
    && (if s.p < s.c then s.c <= s.p + n else |s.st| <= s.p + n && s.c <= n)
    && match s.prod
       case LoopHead(m) => m == n && s.free <= n
       case GotConsumer(m, seen) => m == n && seen == s.c
       case NoRoom(m, seen) => m == n && seen == s.c <= s.p && s.free <= n
       case Marked(m, seen) => m == n && seen == s.c <= s.p && s.free <= n
       case Rolled(m, seen) => m == n && seen == s.c && s.p == 0
       case _ => false
  }

  lemma StuckStep(s: State, a: Action, n: nat)
    requires Stuck(s, n) && Enabled(s, a) && ProducerAction(a) && a != GiveUp
    ensures Stuck(Do(s, a), n)
  {
  }

  lemma {:induction false} StuckStays(s: State, acts: seq<Action>, s': State, n: nat)
    requires Stuck(s, n) && Run(s, acts, s')
    requires forall a | a in acts :: ProducerAction(a) && a != GiveUp
    ensures Stuck(s', n)
    decreases |acts|
  {
    if acts == [] {
    } else {
      assert acts[0] in acts;
      StuckStep(s, acts[0], n);
      StuckStays(Do(s, acts[0]), acts[1..], s', n);
    }
  }

  /**
    The call grants exactly what the producer could get on its own by trying for ever, and that is
    whatever can be placed at its position or at the front of the storage.
   */
  lemma TryReserveDecides(s: State, n: nat)
    requires s.prod.Idle? && Layout(s.st, s.p, s.c, s.e, s.tail, s.recent) && FreeBound(|s.st|, s.p, s.c, s.free)
    ensures TryReserve(s, n).prod == Reserved(n) <==> Grants(s, n)
    ensures TryReserve(s, n).prod == Reserved(n) <==>
            Placeable(|s.st|, s.p, s.c, s.e, s.p, n) || Placeable(|s.st|, s.p, s.c, s.e, 0, n)
  {
    PlaceableMeans(s, n);
    var called := Do(s, Call(n));
    if TryReserve(s, n).prod == Reserved(n) {
      if called.prod.Reserved? {
        assert Run(called, [], called);
      } else {
        var turn := IterateRuns(called);
      }
    } else {
      assert Stuck(called, n);
      forall acts, s' | Run(called, acts, s') && forall a | a in acts :: ProducerAction(a) && a != GiveUp
        ensures s'.prod != Reserved(n)
      {
        StuckStays(called, acts, s', n);
      }
    }
  }

  lemma PlaceableMeans(s: State, n: nat)
    requires s.p < |s.st| && s.c < |s.st| && (s.p < s.c ==> s.c <= s.e)
    ensures Placeable(|s.st|, s.p, s.c, s.e, s.p, n) || Placeable(|s.st|, s.p, s.c, s.e, 0, n) <==>
            if s.p < s.c then s.p + n < s.c else s.p + n < |s.st| || n < s.c
  {
    if n > 0 && s.p > 0 && (s.p < s.c || s.c == 0) {
      assert Unread(s.p, s.c, s.e, 0);
    }
  }

  /** Trying again after the consumer has taken everything succeeds at the third time at the latest. */
  lemma ThreeCallsSuffice(s: State, n: nat)
    requires s.prod.Idle? && s.p < |s.st| && s.c < |s.st| && n < |s.st|
    ensures var s1 := TryReserve(s, n);
            s1.prod == Reserved(n) ||
            var s2 := TryReserve(Drained(s1), n);
            s2.prod == Reserved(n) || TryReserve(Drained(s2), n).prod == Reserved(n)
  {
  }

  function Zeros(k: nat): (s: seq<byte>)
    ensures |s| == k
  {
    seq(k, _ => 0)
  }

  /** The whole storage of a small buffer taken by one entry of half its size. */
  function HalfFull(): State {
    var st := Zeros(8) + ([32] + Zeros(7)) + Zeros(48);
    State(st, 32, 0, 64, 32, false, LoopHead(32), AtRest, 0, 0, [], [st[..32]], [st[..32]], [], false)
  }

  /** Three turns are not an overestimate: here the first two fail. */
  lemma ThreeTurnsNeeded()
    ensures var s := HalfFull(); Reached(s) && s.prod.LoopHead? && s.prod.n < |s.st| && TurnsToGrant(s) == 3
  {
    HalfFullReached();
    var s1 := Iterate(HalfFull());
    assert s1.p == 32 && s1.prod == LoopHead(32);
    var s2 := Iterate(Drained(s1));
    assert s2.p == 0 && s2.c == 32 && s2.prod == LoopHead(32);
  }

  lemma HalfFullReached()
    ensures Reached(HalfFull())
  {
    var s0 := State(Zeros(64), 0, 0, 64, 64, false, Idle, AtRest, 0, 0, [], [], [], [], false);
    assert Initial(s0);
    var s2 := s0.(st := HalfFull().st, prod := Reserved(32));
    var acts := Filled(s0, s2);
    HalfFullEntry();
    assert s2.st[0..32] == HalfFull().st[..32];
    var more := HalfPublished(s2.st);
    RunAppend(s0, acts, s2, more, HalfFull());
    assert Run(s0, acts + more, HalfFull());
  }

  /** Reserve half of the storage and write the entry's size field. */
  lemma Filled(s0: State, s2: State) returns (acts: seq<Action>)
    requires s0.prod.Idle? && s0.p == 0 && s0.free == 64 && s0.st == Zeros(64)
    requires s2 == s0.(st := HalfFull().st, prod := Reserved(32))
    ensures Run(s0, acts, s2)
  {
    OneStep(s0, Call(32));
    var s1 := Do(s0, Call(32));
    Then(s0, [Call(32)], s1, Fill(8, 32));
    assert Zeros(64)[8 := 32] == Zeros(8) + ([32] + Zeros(7)) + Zeros(48);
    assert Do(s1, Fill(8, 32)) == s2;
    acts := [Call(32)] + [Fill(8, 32)];
  }

  /** Publish it and ask for the same again. */
  lemma HalfPublished(st: seq<byte>) returns (acts: seq<Action>)
    requires |st| == 64 && WellFormed(st[0..32])
    ensures Run(State(st, 0, 0, 64, 64, false, Reserved(32), AtRest, 0, 0, [], [], [], [], false), acts,
                State(st, 32, 0, 64, 32, false, LoopHead(32), AtRest, 0, 0, [], [st[0..32]], [st[0..32]], [], false))
  {
    var s2 := State(st, 0, 0, 64, 64, false, Reserved(32), AtRest, 0, 0, [], [], [], [], false);
    OneStep(s2, Settle);
    var s3 := Do(s2, Settle);
    Then(s2, [Settle], s3, Publish);
    var s4 := Do(s3, Publish);
    assert [] + [st[0..32]] == [st[0..32]];
    Then(s2, [Settle] + [Publish], s4, Call(32));
    acts := [Settle] + [Publish] + [Call(32)];
  }

  lemma Middle(a: seq<byte>, b: seq<byte>, c: seq<byte>, n: nat)
    requires |a| + |b| <= n <= |a| + |b| + |c|
    ensures (a + b + c)[..n][|a|..|a| + |b|] == b
  {
  }

  lemma HalfFullEntry()
    ensures WellFormed(HalfFull().st[..32])
  {
    var field: seq<byte> := [32] + Zeros(7);
    Middle(Zeros(8), field, Zeros(48), 32);
    ZeroValue(7);
    assert field[1..] == Zeros(7);
  }

  lemma {:induction false} ZeroValue(k: nat)
    ensures LeValue(Zeros(k)) == 0
  {
    if k == 0 {
    } else {
      ZeroValue(k - 1);
      assert Zeros(k)[1..] == Zeros(k - 1);
    }
  }

  ghost predicate CanReserve(s: State, n: nat) {
    exists acts, s' :: Run(s, acts, s') && s'.prod == Reserved(n) && GiveUp !in acts
  }

  /** Whatever the consumer is doing while the producer is blocked, it can finish. */
  lemma FinishCall(s: State) returns (acts: seq<Action>, s': State)
    requires Inv(s) && s.prod.LoopHead?
    ensures Run(s, acts, s') && s'.cons.AtRest? && s'.prod == s.prod && |s'.st| == |s.st| && GiveUp !in acts
  {
    acts, s' := [], s;
    if s'.cons.SawProducer? {
      var a := if s.cons.q >= s.c then PeekPlain else PeekTail;
      OneStep(s, a);
      acts, s' := [a], Do(s, a);
    }
    if s'.cons.RollOver? {
      Then(s, acts, s', PeekRoll);
      acts, s' := acts + [PeekRoll], Do(s', PeekRoll);
    }
  }

  /** A blocked call for `n` bytes has a way forward if and only if `n` is below the capacity. */
  lemma ReservableIffSmaller(s: State)
    requires Reached(s) && s.prod.LoopHead?
    ensures CanReserve(s, s.prod.n) <==> s.prod.n < |s.st|
  {
    ReachedInv(s);
    var n := s.prod.n;
    if n < |s.st| {
      var acts, s' := FinishCall(s);
      ReachedFurther(s, acts, s');
      var more, s2 := ThreeTurnsRun(s');
      RunAppend(s, acts, s', more, s2);
      assert Run(s, acts + more, s2);
    }
    forall acts, s' | Run(s, acts, s') && s'.prod == Reserved(n)
      ensures n < |s.st|
    {
      RunInv(s, acts, s');
    }
  }

  lemma ReachedFurther(s: State, acts: seq<Action>, s': State)
    requires Reached(s) && Run(s, acts, s')
    ensures Reached(s')
  {
    var s0, before :| Initial(s0) && Run(s0, before, s);
    RunAppend(s0, before, s, acts, s');
    assert Run(s0, before + acts, s');
  }

  lemma ThreeTurnsRun(s: State) returns (acts: seq<Action>, s': State)
    requires Reached(s) && s.prod.LoopHead? && s.cons.AtRest? && s.prod.n < |s.st|
    ensures Run(s, acts, s') && s'.prod == Reserved(s.prod.n) && GiveUp !in acts
  {
    ThreeTurnsSuffice(s);
    var n := s.prod.n;
    acts := IterateRuns(s);
    s' := Iterate(s);
    if s'.prod.LoopHead? {
      acts, s' := Retry(s, acts, s');
      if s'.prod.LoopHead? {
        acts, s' := Retry(s, acts, s');
      }
    }
  }

  lemma Retry(s0: State, before: seq<Action>, s: State) returns (acts: seq<Action>, s': State)
    requires Reached(s0) && Run(s0, before, s) && GiveUp !in before
    requires s.cons.AtRest? && s.prod.LoopHead?
    ensures s.p < |s.st| && s' == Iterate(Drained(s)) && Run(s0, acts, s') && GiveUp !in acts
  {
    assert Inv(s) by {
      ReachedInv(s0);
      RunInv(s0, before, s);
    }
    acts := DrainRuns(s);
    RunAppend(s0, before, s, acts, Drained(s));
    acts := before + acts;
    s' := Iterate(Drained(s));
    var turn := IterateRuns(Drained(s));
    RunAppend(s0, acts, Drained(s), turn, s');
    acts := acts + turn;
  }
}
