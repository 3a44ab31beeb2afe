/** What becomes of an exit request: the two halves of `setLogFile`. */
module PollExit {
  import opened PollProtocol
  import opened PollProgress

  function Count(acts: seq<Action>, counted: Action -> bool): nat {
    if acts == [] then 0 else (if counted(acts[0]) then 1 else 0) + Count(acts[1..], counted)
  }

  const OwnStep := (a: Action) => !OutsideAction(a)
  const Registration := (a: Action) => a.Register?
  const NewScan := (a: Action) => a.Relock?

  /** At most how many steps the poller still takes with an exit requested. */
  function StepsLeft(s: State): nat {
    var n := |s.registry|;
    match s.pc
    case Left => 0
    case CheckExit => 1
    case Top => 2
    case Waiting => 5
    case Written(_) => 3
    case Formatted(_) => 4
    case Processing(_) => 5
    case Chosen(_, _) => 6
    case Scanning(i, _, _) => if i < n then 2 * (n - i) + 7 else 7
    case Looking(i, _, _) => if i < n then 2 * (n - i) + 6 else 6
    case Unlocked => 2 * n + 8
  }

  /** How many lines it may still write. */
  function LinesLeft(s: State): nat {
    if s.pc.Left? || s.pc.Top? || s.pc.CheckExit? || s.pc.Waiting? || s.pc.Written? then 0 else 1
  }

  function ScansLeft(s: State): nat {
    if s.pc.Unlocked? then 1 else 0
  }

  lemma OwnExitStep(s: State, a: Action)
    requires s.exit && Enabled(s, a) && !OutsideAction(a)
    ensures var s' := Do(s, a);
            && s'.exit && StepsLeft(s') < StepsLeft(s)
            && s.output <= s'.output && |s'.output| + LinesLeft(s') <= |s.output| + LinesLeft(s)
            && (if a.Relock? then 1 else 0) + ScansLeft(s') <= ScansLeft(s)
  {
  }

  lemma OutsideExitStep(s: State, a: Action)
    requires s.exit && Enabled(s, a) && OutsideAction(a) && !a.Restart?
    ensures var s' := Do(s, a);
            && s'.exit && StepsLeft(s') <= StepsLeft(s) + (if a.Register? then 2 else 0)
            && s'.output == s.output && s'.pc == s.pc
  {
  }

  lemma {:induction false} ExitSpends(s: State, acts: seq<Action>, s': State)
    requires s.exit && Run(s, acts, s') && WithoutRestart(acts)
    ensures Count(acts, OwnStep) + StepsLeft(s') <= StepsLeft(s) + 2 * Count(acts, Registration)
    ensures s.output <= s'.output && |s'.output| + LinesLeft(s') <= |s.output| + LinesLeft(s)
    ensures Count(acts, NewScan) + ScansLeft(s') <= ScansLeft(s)
    decreases |acts|
  {
    if acts == [] {
    } else {
      if OutsideAction(acts[0]) {
        OutsideExitStep(s, acts[0]);
      } else {
        OwnExitStep(s, acts[0]);
      }
      ExitSpends(Do(s, acts[0]), acts[1..], s');
    }
  }

  /**
    The poller obeys an exit request. Whatever threads and main program do meanwhile, it takes a bounded
    number of steps more, of which each new buffer registered while it waits for the mutex adds at most
    two; it starts at most the one scan it was about to start, and writes at most one line.
   */
  lemma ExitObeyed(s: State, acts: seq<Action>, s': State)
    requires s.exit && Run(s, acts, s') && WithoutRestart(acts)
    ensures Count(acts, OwnStep) <= 2 * |s.registry| + 8 + 2 * Count(acts, Registration)
    ensures s.output <= s'.output && |s'.output| <= |s.output| + 1
    ensures Count(acts, NewScan) <= 1 && (Count(acts, NewScan) == 1 ==> s.pc.Unlocked?)
  {
    ExitSpends(s, acts, s');
  }

  /** `t` has published the same as before, and still nothing with the timestamp that stands for none. */
  predicate Kept(s: State, s': State, t: Tid)
    requires t in s.threads
  {
    t in s'.threads && s'.threads[t].committed == s.threads[t].committed && Early(s', t)
  }

  lemma NextKeeps(s: State, t: Tid)
    requires !s.pc.Left? && Enabled(s, Next(s)) && t in s.threads && Early(s, t)
    ensures Kept(s, Do(s, Next(s)), t)
  {
  }

  /** On its own it gets there, and what the threads have published stays. */
  lemma {:induction false} ExitReturns(s: State) returns (acts: seq<Action>, s': State)
    requires Inv(s) && s.exit
    ensures Run(s, acts, s') && PollerOnly(acts) && s'.pc.Left? && Inv(s')
    ensures forall t | t in s.threads && Early(s, t) :: Kept(s, s', t)
    decreases StepsLeft(s)
  {
    acts, s' := [], s;
    if !s.pc.Left? {
      NextEnabled(s);
      NextIsOwn(s);
      var a := Next(s);
      OwnExitStep(s, a);
      StepInv(s, a);
      acts, s' := ExitReturns(Do(s, a));
      forall t | t in s.threads && Early(s, t) ensures Kept(s, s', t) {
        NextKeeps(s, t);
      }
      assert ([a] + acts)[1..] == acts;
      acts := [a] + acts;
    }
  }

  /**
    A whole hand-off: after the request the poller returns by its own steps, and once it is started again
    it writes, by its own steps, everything a thread has published. The stop flag stays behind.
   */
  lemma HandOffDelivers(s: State, t: Tid) returns (leave: seq<Action>, again: seq<Action>, s': State)
    requires Reached(s) && Enabled(s, RequestExit) && t in s.threads && Early(s, t)
    ensures PollerOnly(leave) && PollerOnly(again)
    ensures Run(s, [RequestExit] + leave + [Restart] + again, s')
    ensures LinesOf(s'.output, t) == s.threads[t].committed && s'.stop
  {
    ReachedInv(s);
    var left;
    leave, left := RequestReturns(s);
    assert Kept(s, left, t);
    var started := Do(left, Restart);
    assert Inv(started) by { StepInv(left, Restart); }
    assert started.threads == left.threads && !started.exit && started.pc.Top? && started.stop;
    again, s' := Delivers(started, t);
    StopStays(started, again, s');
    Follows(left, Restart, again, s');
    RunAppend(s, [RequestExit] + leave, left, [Restart] + again, s');
    FourParts([RequestExit], leave, [Restart], again);
  }

  lemma FourParts(a: seq<Action>, b: seq<Action>, c: seq<Action>, d: seq<Action>)
    ensures (a + b) + (c + d) == a + b + c + d
  {
  }

  lemma RequestReturns(s: State) returns (leave: seq<Action>, left: State)
    requires Inv(s) && Enabled(s, RequestExit)
    ensures PollerOnly(leave) && Run(s, [RequestExit] + leave, left) && left.pc.Left? && Inv(left)
    ensures left.stop
    ensures forall t | t in s.threads && Early(s, t) :: Kept(s, left, t)
  {
    var asked := Do(s, RequestExit);
    assert Inv(asked) by { StepInv(s, RequestExit); }
    leave, left := ExitReturns(asked);
    StopStays(asked, leave, left);
    Follows(s, RequestExit, leave, left);
    forall t | t in s.threads && Early(s, t) ensures Kept(s, left, t) {
      assert Early(asked, t);
    }
  }
}
