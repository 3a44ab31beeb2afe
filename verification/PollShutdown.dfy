/** When the poller returns: at shutdown, and after a hand-off that leaves the stop flag set. */
module PollShutdown {
  import opened PollProtocol
  import opened PollProgress

  // ---- A live thread keeps the poller going ----

  /** The poller is running, no hand-off is under way, and `t` is a live thread with a registered buffer. */
  predicate KeptAlive(s: State, t: Tid) {
    !s.pc.Left? && !s.exit && t in s.registry && t in s.threads && !s.threads[t].retired
  }

  lemma LiveStep(s: State, a: Action, t: Tid)
    requires KeptAlive(s, t) && Enabled(s, a) && !a.RequestExit? && a != Retire(t)
    ensures KeptAlive(Do(s, a), t)
  {
    if a.TestDelete? && CanDelete(s.threads[s.registry[s.pc.i]]) {
      StaysAhead(s.registry, s.pc.i, t);
    }
  }

  /**
    As long as one thread with a registered buffer lives and no hand-off is requested, the poller does not
    return, whatever else happens and whatever the stop flag says.
   */
  lemma {:induction false} LiveKeepsPolling(s: State, acts: seq<Action>, s': State, t: Tid)
    requires KeptAlive(s, t) && Run(s, acts, s')
    requires forall i | 0 <= i < |acts| :: !acts[i].RequestExit? && acts[i] != Retire(t)
    ensures KeptAlive(s', t)
    decreases |acts|
  {
    if acts == [] {
    } else {
      LiveStep(s, acts[0], t);
      LiveKeepsPolling(Do(s, acts[0]), acts[1..], s', t);
    }
  }

  // ---- Without one it drains the buffers ----

  predicate AllExited(s: State) {
    forall t | t in s.registry :: t in s.threads && s.threads[t].retired
  }

  predicate AllEarly(s: State) {
    forall t | t in s.registry :: t in s.threads && Early(s, t)
  }

  /** The stop flag is set and every thread with a registered buffer has exited. */
  predicate Closing(s: State) {
    s.stop && !s.exit && AllExited(s) && AllEarly(s)
  }

  lemma NextKeepsClosing(s: State)
    requires Closing(s) && !s.pc.Left? && Enabled(s, Next(s))
    ensures Closing(Do(s, Next(s)))
  {
    if s.pc.Scanning? && s.pc.i < |s.registry| {
      var i := s.pc.i;
      assert forall t | t in s.registry[..i] + s.registry[i + 1..] :: t in s.registry;
    }
  }

  lemma {:induction false} SomeLoad(threads: map<Tid, Thread>, registry: seq<Tid>) returns (t: Tid)
    requires Total(Backlog, threads, registry) > 0
    ensures t in registry && t in threads && threads[t].pending != []
  {
    if registry[0] in threads && threads[registry[0]].pending != [] {
      t := registry[0];
    } else {
      t := SomeLoad(threads, registry[1..]);
    }
  }

  lemma {:induction false} NoLoad(threads: map<Tid, Thread>, registry: seq<Tid>, t: Tid)
    requires Total(Backlog, threads, registry) == 0 && t in registry && t in threads
    ensures threads[t].pending == []
  {
    if registry[0] == t {
    } else {
      NoLoad(threads, registry[1..], t);
    }
  }

  /** A run of the poller alone between two states of a closing logger. */
  ghost predicate ClosingRun(s: State, acts: seq<Action>, s': State) {
    Run(s, acts, s') && PollerOnly(acts) && Inv(s') && Closing(s')
  }

  lemma RunStep(s: State, acts: seq<Action>, s': State, a: Action)
    requires Enabled(s, a) && !OutsideAction(a) && ClosingRun(Do(s, a), acts, s')
    ensures ClosingRun(s, [a] + acts, s')
  {
    assert ([a] + acts)[1..] == acts;
  }

  lemma ClosingStep(s: State, t: Tid) returns (a: Action, mid: State)
    requires Inv(s) && Closing(s) && !s.pc.Left? && Holds(s, t)
    ensures Enabled(s, a) && !OutsideAction(a) && mid == Do(s, a)
    ensures ClosingRun(mid, [], mid) && Steps(s, mid, t)
  {
    assert Early(s, t);
    a, mid := TowardsRecord(s, t);
    assert Closing(mid) by { NextKeepsClosing(s); }
    NextIsOwn(s);
  }

  /** The poller writes one more record. */
  lemma {:induction false} Sheds(s: State, t: Tid) returns (acts: seq<Action>, s': State)
    requires Inv(s) && Closing(s) && !s.pc.Left? && Holds(s, t)
    ensures ClosingRun(s, acts, s') && !s'.pc.Left? && Load(s') < Load(s)
    decreases !Fruitful(s, t), Phase(s)
  {
    var a, mid := ClosingStep(s, t);
    acts, s' := [], mid;
    if Load(mid) == Load(s) {
      acts, s' := Sheds(mid, t);
    }
    RunStep(s, acts, s', a);
    acts := [a] + acts;
  }

  /** It writes them all. */
  lemma {:induction false} Drains(s: State) returns (acts: seq<Action>, s': State)
    requires Inv(s) && Closing(s) && !s.pc.Left?
    ensures ClosingRun(s, acts, s') && !s'.pc.Left? && Load(s') == 0
    decreases Load(s)
  {
    acts, s' := [], s;
    if Load(s) > 0 {
      var t := SomeLoad(s.threads, s.registry);
      var first, mid := Sheds(s, t);
      acts, s' := Drains(mid);
      RunsJoin(s, first, mid, acts, s');
      acts := first + acts;
    }
  }

  // ---- And then deletes them ----

  /** How many sweeps an empty buffer still needs. */
  function SweepsLeft(th: Thread): nat {
    if th.level then 1 else 2
  }

  function Sweeps(s: State): nat {
    Total(SweepsLeft, s.threads, s.registry)
  }

  /** The current round is going to delete or level a buffer, or to find the registry empty. */
  predicate Ready(s: State) {
    match s.pc
    case Top => true
    case CheckExit => s.registry != []
    case Unlocked => s.registry != []
    case Scanning(i, _, _) => i < |s.registry|
    case Looking(i, _, _) =>
      i < |s.registry| && s.registry[i] in s.threads && !s.threads[s.registry[i]].level
    case _ => false
  }

  predicate SweepsNearer(s: State, s': State) {
    || Sweeps(s') < Sweeps(s)
    || (Sweeps(s') == Sweeps(s) && Ready(s') && !Ready(s))
    || (Sweeps(s') == Sweeps(s) && (Ready(s') <==> Ready(s)) && Phase(s') < Phase(s))
  }

  /** With nothing pending the poller is in no hand-off of a record. */
  lemma NothingChosen(s: State)
    requires RegistryInv(s) && PcInv(s) && Load(s) == 0
    ensures !s.pc.Processing? && !s.pc.Formatted? && !s.pc.Written? && (s.pc.Chosen? ==> s.pc.best.NoBest?)
  {
    if s.pc.Processing? || s.pc.Formatted? || s.pc.Written? {
      NoLoad(s.threads, s.registry, s.pc.tid);
    } else if s.pc.Chosen? && s.pc.best.Best? {
      NoLoad(s.threads, s.registry, s.pc.best.tid);
    }
  }

  lemma ScanSweeps(s: State)
    requires Closing(s) && Load(s) == 0 && s.pc.Scanning? && Enabled(s, Next(s))
    ensures SweepsNearer(s, Do(s, Next(s))) && Load(Do(s, Next(s))) == 0
  {
    var i := s.pc.i;
    if i < |s.registry| {
      TotalErase(Backlog, s.threads, s.registry, i);
      TotalErase(SweepsLeft, s.threads, s.registry, i);
      assert s.registry[i] in s.registry;
    }
  }

  lemma LookSweeps(s: State)
    requires Closing(s) && Load(s) == 0 && s.pc.Looking? && Enabled(s, PeekAt)
    ensures SweepsNearer(s, Do(s, PeekAt)) && Load(Do(s, PeekAt)) == 0
  {
    var t, s' := s.registry[s.pc.i], Do(s, PeekAt);
    assert t in s.registry;
    NoLoad(s.threads, s.registry, t);
    TotalShrinks(Backlog, s.threads, s'.threads, s.registry, t);
    TotalShrinks(SweepsLeft, s.threads, s'.threads, s.registry, t);
    if s.threads[t].level {
      assert s'.threads == s.threads;
    }
  }

  lemma RestSweeps(s: State)
    requires Closing(s) && Load(s) == 0 && Enabled(s, Next(s))
    requires s.pc.Top? || s.pc.CheckExit? || s.pc.Unlocked? || s.pc.Waiting? || (s.pc.Chosen? && s.pc.best.NoBest?)
    ensures var s' := Do(s, Next(s)); (s'.pc.Left? && s'.registry == []) || (SweepsNearer(s, s') && !s'.pc.Left?)
    ensures Load(Do(s, Next(s))) == 0
  {
  }

  lemma TowardsReturn(s: State) returns (a: Action, mid: State)
    requires Inv(s) && Closing(s) && !s.pc.Left? && Load(s) == 0
    ensures a == Next(s) && Enabled(s, a) && mid == Do(s, a) && Inv(mid) && Closing(mid) && Load(mid) == 0
    ensures (mid.pc.Left? && mid.registry == []) || (SweepsNearer(s, mid) && !mid.pc.Left?)
  {
    a := Next(s);
    assert Enabled(s, a) by { NextEnabled(s); }
    mid := Do(s, a);
    assert Inv(mid) by { StepInv(s, a); }
    assert Closing(mid) by { NextKeepsClosing(s); }
    NextSweeps(s);
  }

  lemma NextSweeps(s: State)
    requires RegistryInv(s) && PcInv(s) && Closing(s) && !s.pc.Left? && Load(s) == 0 && Enabled(s, Next(s))
    ensures var s' := Do(s, Next(s)); (s'.pc.Left? && s'.registry == []) || (SweepsNearer(s, s') && !s'.pc.Left?)
    ensures Load(Do(s, Next(s))) == 0
  {
    NothingChosen(s);
    match s.pc {
      case Scanning(_, _, _) => ScanSweeps(s);
      case Looking(_, _, _) => LookSweeps(s);
      case _ => RestSweeps(s);
    }
  }

  lemma {:induction false} Empties(s: State) returns (acts: seq<Action>, s': State)
    requires Inv(s) && Closing(s) && !s.pc.Left? && Load(s) == 0
    ensures ClosingRun(s, acts, s') && s'.pc.Left? && s'.registry == []
    decreases Sweeps(s), !Ready(s), Phase(s)
  {
    var a, mid := TowardsReturn(s);
    acts, s' := [], mid;
    if !mid.pc.Left? {
      acts, s' := Empties(mid);
    }
    RunStep(s, acts, s', a);
    acts := [a] + acts;
  }

  /**
    Shutdown comes to its end in the concurrent machine too: once every thread with a registered buffer
    has exited, the poller on its own writes everything ever published, deletes every buffer, and returns.
   */
  lemma ShutdownCompletes(s: State) returns (acts: seq<Action>, s': State)
    requires Inv(s) && !s.pc.Left? && Closing(s)
    ensures Run(s, acts, s') && PollerOnly(acts) && s'.pc.Left? && s'.registry == []
    ensures forall t | t in s'.threads :: LinesOf(s'.output, t) == s'.threads[t].committed
  {
    var first, mid := Drains(s);
    acts, s' := Empties(mid);
    RunsJoin(s, first, mid, acts, s');
    acts := first + acts;
    forall t | t in s'.threads ensures LinesOf(s'.output, t) == s'.threads[t].committed {
      AllWritten(s', t);
    }
  }

  /** The destructor's request does it, if no thread with a registered buffer is left. */
  lemma DestructorCompletes(s: State) returns (acts: seq<Action>, s': State)
    requires Reached(s) && !s.exit && !s.pc.Left? && AllExited(s) && AllEarly(s)
    ensures Run(s, [RequestStop] + acts, s') && PollerOnly(acts) && s'.pc.Left?
    ensures forall t | t in s'.threads :: LinesOf(s'.output, t) == s'.threads[t].committed
  {
    ReachedInv(s);
    var asked := Do(s, RequestStop);
    StepInv(s, RequestStop);
    acts, s' := ShutdownCompletes(asked);
    Follows(s, RequestStop, acts, s');
  }

  lemma AllWritten(s: State, t: Tid)
    requires Inv(s) && s.registry == [] && s.pc.Left? && t in s.threads
    ensures LinesOf(s.output, t) == s.threads[t].committed
  {
    assert ThreadInv(s, t);
    assert LinesOf(s.output, t) + [] == LinesOf(s.output, t);
  }

  /** The poller can return by its own steps. */
  ghost predicate CanReturn(s: State) {
    exists acts, s' :: Run(s, acts, s') && PollerOnly(acts) && s'.pc.Left?
  }

  /**
    The caller's condition. After a hand-off, or at shutdown, the stop flag is set; then a running poller
    can return on its own, and leave what is logged later unwritten, if and only if every thread with a
    registered buffer has exited.
   */
  lemma ReturnsIffAllExited(s: State)
    requires Reached(s) && s.stop && !s.exit && !s.pc.Left? && AllEarly(s)
    ensures CanReturn(s) <==> AllExited(s)
  {
    ReachedInv(s);
    if AllExited(s) {
      var acts, s' := ShutdownCompletes(s);
      assert Run(s, acts, s') && PollerOnly(acts) && s'.pc.Left?;
    } else {
      var t :| t in s.registry && !(t in s.threads && s.threads[t].retired);
      forall acts, s' | Run(s, acts, s') && PollerOnly(acts) ensures !s'.pc.Left? {
        LiveKeepsPolling(s, acts, s', t);
      }
    }
  }
}
