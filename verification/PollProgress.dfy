/** Which records the poller can still write, whatever the threads are doing. */
module PollProgress {
  import opened Merge
  import opened PollProtocol

  predicate WithoutRestart(acts: seq<Action>) {
    forall i | 0 <= i < |acts| :: !acts[i].Restart?
  }

  /** A run of the poller alone; starting it anew is not its own step. */
  predicate PollerOnly(acts: seq<Action>) {
    forall i | 0 <= i < |acts| :: !OutsideAction(acts[i])
  }

  /** A poller that has returned writes nothing more, whatever else happens, until another one is started. */
  lemma {:induction false} LeftStays(s: State, acts: seq<Action>, s': State)
    requires s.pc.Left? && Run(s, acts, s') && WithoutRestart(acts)
    ensures s'.pc.Left? && s'.output == s.output
    decreases |acts|
  {
    if acts == [] {
    } else {
      LeftStays(Do(s, acts[0]), acts[1..], s');
    }
  }

  /** The poller's next step when formatting succeeds and the clock shows 0. */
  function Next(s: State): Action {
    match s.pc
    case Top => TestLoop
    case CheckExit => TestExit
    case Unlocked => Relock
    case Scanning(i, _, _) => if i < |s.registry| then TestDelete else EndScan
    case Looking(_, _, _) => PeekAt
    case Chosen(_, _) => Decide
    case Processing(_) => Format(0)
    case Formatted(_) => Write
    case Written(_) => Consume(false)
    case Waiting => Wake
    case Left => Restart
  }

  lemma NextEnabled(s: State)
    requires RegistryInv(s) && PcInv(s)
    ensures Enabled(s, Next(s))
  {
    match s.pc {
      case Scanning(i, _, _) => if i < |s.registry| { assert s.registry[i] in s.registry; }
      case Looking(i, _, _) => assert s.registry[i] in s.registry;
      case _ =>
    }
  }

  lemma NextIsOwn(s: State)
    requires !s.pc.Left?
    ensures !OutsideAction(Next(s))
  {
  }

  lemma RunsJoin(s: State, a: seq<Action>, mid: State, b: seq<Action>, s': State)
    requires Run(s, a, mid) && PollerOnly(a) && Run(mid, b, s') && PollerOnly(b)
    ensures Run(s, a + b, s') && PollerOnly(a + b)
  {
    RunAppend(s, a, mid, b, s');
  }

  /** A weight of the registered buffers, added up. */
  function Total(weight: Thread -> nat, threads: map<Tid, Thread>, registry: seq<Tid>): nat {
    if registry == [] then 0
    else (if registry[0] in threads then weight(threads[registry[0]]) else 0) + Total(weight, threads, registry[1..])
  }

  function Backlog(th: Thread): nat {
    |th.pending|
  }

  /** The records pending in all registered buffers. */
  function Load(s: State): nat {
    Total(Backlog, s.threads, s.registry)
  }

  lemma {:induction false} TotalErase(weight: Thread -> nat, threads: map<Tid, Thread>, registry: seq<Tid>, i: nat)
    requires i < |registry| && registry[i] in threads
    ensures Total(weight, threads, registry) ==
            Total(weight, threads, registry[..i] + registry[i + 1..]) + weight(threads[registry[i]])
  {
    var rest := registry[..i] + registry[i + 1..];
    if i == 0 {
      assert rest == registry[1..];
    } else {
      TotalErase(weight, threads, registry[1..], i - 1);
      assert rest[0] == registry[0];
      assert rest[1..] == registry[1..][..i - 1] + registry[1..][i..];
    }
  }

  /** Nothing but the buffer of one thread changes, and its weight does not grow. */
  predicate OneShrinks(weight: Thread -> nat, threads: map<Tid, Thread>, threads': map<Tid, Thread>, t: Tid) {
    && t in threads && threads'.Keys == threads.Keys && weight(threads'[t]) <= weight(threads[t])
    && forall u | u in threads && u != t :: threads'[u] == threads[u]
  }

  lemma {:induction false} TotalShrinks(weight: Thread -> nat, threads: map<Tid, Thread>, threads': map<Tid, Thread>,
                                        registry: seq<Tid>, t: Tid)
    requires OneShrinks(weight, threads, threads', t)
    ensures Total(weight, threads', registry) <= Total(weight, threads, registry)
    ensures t in registry && weight(threads'[t]) < weight(threads[t]) ==>
              Total(weight, threads', registry) < Total(weight, threads, registry)
  {
    if registry == [] {
    } else {
      TotalShrinks(weight, threads, threads', registry[1..], t);
    }
  }

  /** The current round is going to write a record: it has found one, or `t` is still ahead of it. */
  predicate Fruitful(s: State, t: Tid) {
    match s.pc
    case Scanning(i, best, _) => best.Best? || (i <= |s.registry| && t in s.registry[i..])
    case Looking(i, best, _) => best.Best? || (i <= |s.registry| && t in s.registry[i..])
    case Chosen(best, _) => best.Best?
    case Waiting => false
    case _ => true
  }

  /** How far the poller is from the end of its round. */
  function Phase(s: State): nat {
    var n := |s.registry|;
    match s.pc
    case Top => 2 * n + 8
    case CheckExit => 2 * n + 7
    case Unlocked => 2 * n + 6
    case Scanning(i, _, _) => if i < n then 2 * (n - i) + 5 else 5
    case Looking(i, _, _) => if i < n then 2 * (n - i) + 4 else 4
    case Chosen(_, _) => 3
    case Processing(_) => 2
    case Formatted(_) => 1
    case _ => 0
  }

  predicate Nearer(s: State, s': State, t: Tid) {
    || Load(s') < Load(s)
    || (Load(s') == Load(s) && Fruitful(s', t) && !Fruitful(s, t))
    || (Load(s') == Load(s) && (Fruitful(s', t) <==> Fruitful(s, t)) && Phase(s') < Phase(s))
  }

  /** No timestamp of `t` is the one the scan takes for none. */
  predicate Early(s: State, t: Tid)
    requires t in s.threads
  {
    forall e | e in s.threads[t].pending :: e.stamp < NO_STAMP
  }

  /** The poller goes on, and towards the records of `t`. */
  predicate Steps(s: State, s': State, t: Tid)
    requires t in s.threads
  {
    && Nearer(s, s', t) && !s'.pc.Left? && !s'.exit
    && t in s'.threads && s'.threads[t].committed == s.threads[t].committed && Early(s', t)
    && (Holds(s', t) || Load(s') < Load(s))
  }

  lemma QuietSteps(s: State, t: Tid)
    requires Holds(s, t) && Early(s, t) && !s.exit && Enabled(s, Next(s))
    requires s.pc.Top? || s.pc.CheckExit? || s.pc.Unlocked? || s.pc.Chosen? || s.pc.Formatted? || s.pc.Waiting?
    ensures Steps(s, Do(s, Next(s)), t)
  {
    assert s.registry[0..] == s.registry;
  }

  lemma ScanSteps(s: State, t: Tid)
    requires Holds(s, t) && Early(s, t) && !s.exit && !s.threads[t].level && s.pc.Scanning? && Enabled(s, Next(s))
    ensures Steps(s, Do(s, Next(s)), t)
  {
    var i := s.pc.i;
    if i < |s.registry| {
      if CanDelete(s.threads[s.registry[i]]) {
        TotalErase(Backlog, s.threads, s.registry, i);
        StaysAhead(s.registry, i, t);
      }
    }
  }

  lemma NextIn(registry: seq<Tid>, i: nat, t: Tid)
    requires i < |registry|
    ensures t in registry[i..] <==> registry[i] == t || t in registry[i + 1..]
  {
    assert registry[i..] == [registry[i]] + registry[i + 1..];
  }

  lemma LookFound(s: State, t: Tid)
    requires Holds(s, t) && Early(s, t) && !s.exit && s.pc.Looking? && Enabled(s, PeekAt)
    requires s.threads[s.registry[s.pc.i]].pending != []
    ensures Steps(s, Do(s, PeekAt), t)
  {
    NextIn(s.registry, s.pc.i, t);
    assert Load(Do(s, PeekAt)) == Load(s);
  }

  lemma LookEmpty(s: State, t: Tid)
    requires Holds(s, t) && Early(s, t) && !s.exit && s.pc.Looking? && Enabled(s, PeekAt)
    requires s.threads[s.registry[s.pc.i]].pending == []
    ensures Steps(s, Do(s, PeekAt), t)
  {
    NextIn(s.registry, s.pc.i, t);
    TotalShrinks(Backlog, s.threads, Do(s, PeekAt).threads, s.registry, s.registry[s.pc.i]);
  }

  lemma WorkSteps(s: State, t: Tid)
    requires Holds(s, t) && Early(s, t) && !s.exit && (s.pc.Processing? || s.pc.Written?) && Holds(s, s.pc.tid)
    requires Enabled(s, Next(s))
    ensures Steps(s, Do(s, Next(s)), t)
  {
    TotalShrinks(Backlog, s.threads, Do(s, Next(s)).threads, s.registry, s.pc.tid);
  }

  /** Left to itself, a poller that has not returned writes everything a thread has published so far. */
  lemma {:induction false} Delivers(s: State, t: Tid) returns (acts: seq<Action>, s': State)
    requires Inv(s) && !s.pc.Left? && !s.exit && t in s.threads
    requires Early(s, t)
    ensures Run(s, acts, s') && PollerOnly(acts)
    ensures LinesOf(s'.output, t) == s.threads[t].committed
    decreases Load(s), !Fruitful(s, t), Phase(s)
  {
    assert ThreadInv(s, t);
    if Unwritten(s, t) == [] {
      assert LinesOf(s.output, t) + [] == LinesOf(s.output, t);
      acts, s' := [], s;
    } else {
      var a, mid := TowardsRecord(s, t);
      acts, s' := Delivers(mid, t);
      NextIsOwn(s);
      assert ([a] + acts)[1..] == acts;
      acts := [a] + acts;
    }
  }

  /** The poller's next step, with a record of `t` still in its buffer. */
  lemma TowardsRecord(s: State, t: Tid) returns (a: Action, mid: State)
    requires Inv(s) && !s.pc.Left? && !s.exit && Holds(s, t) && Early(s, t)
    ensures a == Next(s) && Enabled(s, a) && mid == Do(s, a) && Inv(mid) && Steps(s, mid, t)
  {
    NextEnabled(s);
    a := Next(s);
    mid := Do(s, a);
    StepInv(s, a);
    assert !s.threads[t].level by { assert ThreadInv(s, t); }
    match s.pc {
      case Scanning(_, _, _) => ScanSteps(s, t);
      case Looking(i, _, _) =>
        if s.threads[s.registry[i]].pending == [] { LookEmpty(s, t); } else { LookFound(s, t); }
      case Processing(_) => WorkSteps(s, t);
      case Written(_) => WorkSteps(s, t);
      case _ => QuietSteps(s, t);
    }
  }

  /** Some run in which the poller is not started anew ends with all records written that `t` has published in `s`. */
  ghost predicate CanBeWritten(s: State, t: Tid)
    requires t in s.threads
  {
    exists acts, s' :: Run(s, acts, s') && WithoutRestart(acts) && s.threads[t].committed <= LinesOf(s'.output, t)
  }

  /**
    What `setLogFile` leaves of its promise: outside a hand-off, the unwritten records of a thread can be
    written without another hand-off if and only if the poller has not returned. After the first hand-off
    it returns whenever it finds no buffer registered.
   */
  lemma PollsOnIff(s: State, t: Tid)
    requires Reached(s) && !s.exit && t in s.threads && Early(s, t) && Unwritten(s, t) != []
    ensures CanBeWritten(s, t) <==> !s.pc.Left?
  {
    ReachedInv(s);
    if s.pc.Left? {
      assert ThreadInv(s, t);
      forall acts, s' | Run(s, acts, s') && WithoutRestart(acts)
        ensures !(s.threads[t].committed <= LinesOf(s'.output, t))
      {
        LeftStays(s, acts, s');
      }
    } else {
      var acts, s' := Delivers(s, t);
      assert Run(s, acts, s') && s.threads[t].committed <= LinesOf(s'.output, t);
    }
  }
}
