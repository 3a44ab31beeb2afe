/**
  The polling backend among running producers: any number of threads, registering, publishing and
  exiting at any time, and one poller that takes its decisions one buffer at a time.

  A staging buffer is here the FIFO of whole records that `StagingProtocol` shows it to be; `level`
  says whether its two positions are equal. `QueueRefinement` relates the steps of the two protocols.
 */
module PollProtocol {
  import opened Bytes
  import opened Merge

  type Tid = nat
  type Content = seq<byte>

  /** A pending record: the timestamp its header carries now, and everything else. */
  datatype Entry = Entry(stamp: nat, content: Content)

  datatype Thread = Thread(
    committed: seq<Content>, pending: seq<Entry>, registered: bool, retired: bool, level: bool)

  datatype Best = NoBest | Best(stamp: nat, tid: Tid)

  /**
    `seen` only helps the proof: the buffers in which the current scan found a record. The poller
    holds the registry mutex everywhere except in `Unlocked`, `Waiting` and `Left`.
   */
  datatype Pc =
    | Top                                             // at the loop test
    | CheckExit
    | Unlocked
    | Scanning(i: nat, best: Best, seen: set<Tid>)    // at the test of the for loop
    | Looking(i: nat, best: Best, seen: set<Tid>)     // deletion refused, about to peek
    | Chosen(best: Best, seen: set<Tid>)              // scan finished
    | Processing(tid: Tid)
    | Formatted(tid: Tid)
    | Written(tid: Tid)                               // line written, record not consumed yet
    | Waiting
    | Left                                            // the poller has returned

  datatype State = State(
    threads: map<Tid, Thread>, registry: seq<Tid>, pc: Pc,
    output: seq<(Tid, Content)>, stop: bool, exit: bool)

  datatype Action =
    // threads
    | Spawn(t: Tid)
    | Register(t: Tid)
    | Commit(t: Tid, entry: Entry)
    | Unlevel(t: Tid)            // a blocked producer wraps: the positions part without a record
    | Retire(t: Tid)
    // main program
    | RequestStop                // destructor
    | RequestExit                // first half of setLogFile
    | Restart                    // second half of setLogFile
    // poller
    | TestLoop
    | TestExit
    | Relock
    | TestDelete
    | PeekAt
    | EndScan
    | Decide
    | Format(now: nat)
    | Write
    | Fail                       // formatting failed or no file is open
    | Consume(meet: bool)
    | Wake

  predicate MutexFree(s: State) {
    s.pc.Unlocked? || s.pc.Waiting? || s.pc.Left?
  }

  predicate Initial(s: State) {
    s.threads == map[] && s.registry == [] && s.pc == Top && s.output == [] && !s.stop && !s.exit
  }

  predicate CanDelete(th: Thread) {
    th.retired && th.level
  }

  predicate Enabled(s: State, a: Action) {
    match a
    case Spawn(t) => t !in s.threads
    case Register(t) => t in s.threads && !s.threads[t].registered && !s.threads[t].retired && MutexFree(s)
    case Commit(t, entry) => t in s.threads && s.threads[t].registered && !s.threads[t].retired
    case Unlevel(t) => t in s.threads && s.threads[t].registered && !s.threads[t].retired
    case Retire(t) => t in s.threads
    case RequestStop => true
    case RequestExit => MutexFree(s)
    case Restart => s.pc.Left?
    case TestLoop => s.pc.Top?
    case TestExit => s.pc.CheckExit?
    case Relock => s.pc.Unlocked?
    case TestDelete => s.pc.Scanning? && s.pc.i < |s.registry| && s.registry[s.pc.i] in s.threads
    case PeekAt => s.pc.Looking? && s.pc.i < |s.registry| && s.registry[s.pc.i] in s.threads
    case EndScan => s.pc.Scanning? && s.pc.i >= |s.registry|
    case Decide => s.pc.Chosen?
    case Format(now) => s.pc.Processing? && s.pc.tid in s.threads
    case Write => s.pc.Formatted? && s.pc.tid in s.threads && s.threads[s.pc.tid].pending != []
    case Fail => s.pc.Formatted?
    case Consume(meet) => s.pc.Written? && s.pc.tid in s.threads && s.threads[s.pc.tid].pending != []
    case Wake => s.pc.Waiting?
  }

  function Put(s: State, t: Tid, th: Thread): State {
    s.(threads := s.threads[t := th])
  }

  function Do(s: State, a: Action): State
    requires Enabled(s, a)
  {
    match a
    case Spawn(t) => Put(s, t, Thread([], [], false, false, true))
    case Register(t) => Put(s, t, s.threads[t].(registered := true)).(registry := s.registry + [t])
    case Commit(t, entry) =>
      var th := s.threads[t];
      Put(s, t, th.(committed := th.committed + [entry.content], pending := th.pending + [entry], level := false))
    case Unlevel(t) => Put(s, t, s.threads[t].(level := false))
    case Retire(t) => Put(s, t, s.threads[t].(retired := true))
    case RequestStop => s.(stop := true)
    case RequestExit => s.(stop := true, exit := true)
    case Restart => s.(exit := false, pc := Top)
    case TestLoop => s.(pc := if s.stop && s.registry == [] then Left else CheckExit)
    case TestExit => s.(pc := if s.exit then Left else Unlocked)
    case Relock => s.(pc := Scanning(0, NoBest, {}))
    case TestDelete =>
      var i := s.pc.i;
      if CanDelete(s.threads[s.registry[i]]) then
        var rest := s.registry[..i] + s.registry[i + 1..];
        s.(registry := rest, pc := if rest == [] then Chosen(s.pc.best, s.pc.seen) else s.pc)
      else
        s.(pc := Looking(i, s.pc.best, s.pc.seen))
    case PeekAt =>
      var t := s.registry[s.pc.i];
      var th := s.threads[t];
      if th.pending == [] then
        Put(s, t, th.(level := true)).(pc := Scanning(s.pc.i + 1, s.pc.best, s.pc.seen))
      else
        s.(pc := Scanning(s.pc.i + 1, Better(s.pc.best, th.pending[0].stamp, t), s.pc.seen + {t}))
    case EndScan => s.(pc := Chosen(s.pc.best, s.pc.seen))
    case Decide => s.(pc := if s.pc.best.NoBest? then Waiting else Processing(s.pc.best.tid))
    case Format(now) =>
      var t := s.pc.tid;
      var th := s.threads[t];
      if th.pending == [] then Put(s, t, th.(level := true)).(pc := Top)
      else Put(s, t, th.(pending := [th.pending[0].(stamp := now)] + th.pending[1..])).(pc := Formatted(t))
    case Write =>
      s.(output := s.output + [(s.pc.tid, s.threads[s.pc.tid].pending[0].content)], pc := Written(s.pc.tid))
    case Fail => s.(pc := Top)
    case Consume(meet) =>
      var th := s.threads[s.pc.tid];
      Put(s, s.pc.tid, th.(pending := th.pending[1..], level := meet && |th.pending| == 1)).(pc := Top)
    case Wake => s.(pc := Top)
  }

  /** The comparison of the scan: strict, from the largest value down. */
  function Better(best: Best, stamp: nat, t: Tid): Best {
    if stamp < (if best.NoBest? then NO_STAMP else best.stamp) then Best(stamp, t) else best
  }

  // ---- The invariant ----

  function Contents(pending: seq<Entry>): (r: seq<Content>)
    ensures |r| == |pending|
    ensures forall i | 0 <= i < |r| :: r[i] == pending[i].content
  {
    seq(|pending|, i requires 0 <= i < |pending| => pending[i].content)
  }

  /** The lines of one thread, in output order. */
  function LinesOf(output: seq<(Tid, Content)>, t: Tid): seq<Content> {
    if output == [] then []
    else
      var n := |output| - 1;
      LinesOf(output[..n], t) + (if output[n].0 == t then [output[n].1] else [])
  }

  /** The records of `t` whose line is not written yet. */
  function Unwritten(s: State, t: Tid): seq<Content>
    requires t in s.threads
  {
    var contents := Contents(s.threads[t].pending);
    if s.pc == Written(t) && contents != [] then contents[1..] else contents
  }

  ghost predicate ThreadInv(s: State, t: Tid)
    requires t in s.threads
  {
    var th := s.threads[t];
    && LinesOf(s.output, t) + Unwritten(s, t) == th.committed
    && (th.level ==> th.pending == [])
    && (!th.registered ==> th.committed == [] && t !in s.registry)
    && (th.registered && t !in s.registry ==> th.retired && th.pending == [])
  }

  predicate Distinct(registry: seq<Tid>) {
    forall i, j | 0 <= i < j < |registry| :: registry[i] != registry[j]
  }

  ghost predicate RegistryInv(s: State) {
    && Distinct(s.registry)
    && (forall t | t in s.registry :: t in s.threads && s.threads[t].registered)
    && (forall line | line in s.output :: line.0 in s.threads)
  }

  /** `t` is registered and its buffer shows a record. */
  predicate Holds(s: State, t: Tid) {
    t in s.registry && t in s.threads && s.threads[t].pending != []
  }

  /** The scan's choice is one of the heads it saw, and none of those was earlier. */
  ghost predicate ScanInv(s: State, best: Best, seen: set<Tid>) {
    && (forall t | t in seen :: Holds(s, t))
    && (best.Best? ==>
          && best.tid in seen && Holds(s, best.tid) && best.stamp < NO_STAMP
          && s.threads[best.tid].pending[0].stamp == best.stamp)
    && (forall t | t in seen :: s.threads[t].pending[0].stamp >= if best.NoBest? then NO_STAMP else best.stamp)
  }

  ghost predicate PcInv(s: State) {
    match s.pc
    case Scanning(i, best, seen) => ScanInv(s, best, seen) && Ahead(s.registry, i, seen)
    case Looking(i, best, seen) =>
      ScanInv(s, best, seen) && i < |s.registry| && Ahead(s.registry, i, seen)
    case Chosen(best, seen) => ScanInv(s, best, seen)
    case Processing(t) => Holds(s, t)
    case Formatted(t) => Holds(s, t)
    case Written(t) => Holds(s, t)
    case _ => true
  }

  ghost predicate Inv(s: State) {
    && RegistryInv(s)
    && PcInv(s)
    && forall t | t in s.threads :: ThreadInv(s, t)
  }

  lemma InitialInv(s: State)
    requires Initial(s)
    ensures Inv(s)
  {
  }

  // ---- Each step keeps it ----

  lemma LinesOfAppend(output: seq<(Tid, Content)>, line: (Tid, Content), t: Tid)
    ensures LinesOf(output + [line], t) == LinesOf(output, t) + if line.0 == t then [line.1] else []
  {
    assert (output + [line])[..|output|] == output;
  }

  lemma {:induction false} NoLines(output: seq<(Tid, Content)>, t: Tid)
    requires forall line | line in output :: line.0 != t
    ensures LinesOf(output, t) == []
  {
    if output == [] {
    } else {
      var n := |output| - 1;
      assert output[n] in output;
      NoLines(output[..n], t);
    }
  }

  /** The steps of threads and of the main program. */
  predicate OutsideAction(a: Action) {
    a.Spawn? || a.Register? || a.Commit? || a.Unlevel? || a.Retire? || a.RequestStop? || a.RequestExit? || a.Restart?
  }

  lemma OutsideRegistry(s: State, a: Action)
    requires Inv(s) && Enabled(s, a) && OutsideAction(a)
    ensures RegistryInv(Do(s, a))
  {
    match a {
      case Register(t) => assert ThreadInv(s, t);
      case _ => assert Do(s, a).registry == s.registry;
    }
  }

  /** Every buffer that shows a record in `s` shows the same one in `s'`. */
  ghost predicate HeadsKept(s: State, s': State) {
    forall t | Holds(s, t) :: Holds(s', t) && s'.threads[t].pending[0] == s.threads[t].pending[0]
  }

  lemma ScanKept(s: State, s': State, best: Best, seen: set<Tid>)
    requires HeadsKept(s, s') && ScanInv(s, best, seen)
    ensures ScanInv(s', best, seen)
  {
  }

  lemma OutsideHeads(s: State, a: Action)
    requires RegistryInv(s) && Enabled(s, a) && OutsideAction(a)
    ensures HeadsKept(s, Do(s, a))
  {
  }

  /** Behind position `i` of the registry stands no buffer of `seen`. */
  predicate Ahead(registry: seq<Tid>, i: nat, seen: set<Tid>) {
    forall j | i <= j < |registry| :: registry[j] !in seen
  }

  lemma OutsidePc(s: State, a: Action)
    requires RegistryInv(s) && PcInv(s) && Enabled(s, a) && OutsideAction(a)
    ensures PcInv(Do(s, a))
  {
    var s' := Do(s, a);
    OutsideHeads(s, a);
    match s.pc {
      case Scanning(i, best, seen) => ScanKept(s, s', best, seen);
      case Looking(i, best, seen) => ScanKept(s, s', best, seen);
      case Chosen(best, seen) => ScanKept(s, s', best, seen);
      case _ =>
    }
  }

  /** What does not touch thread `t` keeps its invariant. */
  lemma Untouched(s: State, s': State, t: Tid)
    requires t in s.threads && t in s'.threads && ThreadInv(s, t)
    requires s'.threads[t] == s.threads[t] && (t in s'.registry <==> t in s.registry)
    requires LinesOf(s'.output, t) == LinesOf(s.output, t)
    requires s'.pc == Written(t) <==> s.pc == Written(t)
    ensures ThreadInv(s', t)
  {
  }

  lemma OutsideThread(s: State, a: Action, t: Tid)
    requires RegistryInv(s) && Enabled(s, a) && OutsideAction(a) && t in Do(s, a).threads
    requires t in s.threads ==> ThreadInv(s, t)
    requires s.pc == Written(t) ==> Holds(s, t)
    ensures ThreadInv(Do(s, a), t)
  {
    var s' := Do(s, a);
    if t in s.threads && s'.threads[t] == s.threads[t] {
      Untouched(s, s', t);
    } else {
      match a {
        case Spawn(_) => NoLines(s.output, t);
        case Commit(_, entry) => CommitThread(s, t, entry);
        case _ => assert Unwritten(s', t) == Unwritten(s, t);
      }
    }
  }

  lemma CommitThread(s: State, t: Tid, entry: Entry)
    requires Enabled(s, Commit(t, entry)) && ThreadInv(s, t)
    requires s.pc == Written(t) ==> s.threads[t].pending != []
    ensures ThreadInv(Do(s, Commit(t, entry)), t)
  {
    var s' := Do(s, Commit(t, entry));
    assert Contents(s'.threads[t].pending) == Contents(s.threads[t].pending) + [entry.content];
    assert Unwritten(s', t) == Unwritten(s, t) + [entry.content];
    assert LinesOf(s.output, t) + Unwritten(s', t) == (LinesOf(s.output, t) + Unwritten(s, t)) + [entry.content];
  }

  lemma OutsideKeeps(s: State, a: Action)
    requires Inv(s) && Enabled(s, a) && OutsideAction(a)
    ensures Inv(Do(s, a))
  {
    OutsideRegistry(s, a);
    OutsidePc(s, a);
    forall t | t in Do(s, a).threads ensures ThreadInv(Do(s, a), t) { OutsideThread(s, a, t); }
  }

  // The poller's own steps.

  lemma QuietThread(s: State, a: Action, t: Tid)
    requires RegistryInv(s) && PcInv(s) && Enabled(s, a) && t in s.threads && ThreadInv(s, t)
    requires a.TestLoop? || a.TestExit? || a.Relock? || a.EndScan? || a.Decide? || a.Fail? || a.Wake?
    ensures ThreadInv(Do(s, a), t)
  {
    Untouched(s, Do(s, a), t);
  }

  lemma QuietKeeps(s: State, a: Action)
    requires Inv(s) && Enabled(s, a)
    requires a.TestLoop? || a.TestExit? || a.Relock? || a.EndScan? || a.Decide? || a.Fail? || a.Wake?
    ensures Inv(Do(s, a))
  {
    forall t | t in s.threads ensures ThreadInv(Do(s, a), t) { QuietThread(s, a, t); }
  }

  lemma EraseMember(registry: seq<Tid>, i: nat)
    requires i < |registry| && Distinct(registry)
    ensures var rest := registry[..i] + registry[i + 1..];
            && Distinct(rest)
            && (forall t :: t in rest <==> t in registry && t != registry[i])
            && (forall j | i <= j < |rest| :: rest[j] == registry[j + 1])
  {
    var rest := registry[..i] + registry[i + 1..];
    forall t ensures t in rest <==> t in registry && t != registry[i] {
      if t in registry && t != registry[i] {
        var j :| 0 <= j < |registry| && registry[j] == t;
        assert rest[if j < i then j else j - 1] == t;
      }
      if t in rest {
        var j :| 0 <= j < |rest| && rest[j] == t;
        assert registry[if j < i then j else j + 1] == t;
      }
    }
  }

  lemma DeleteKeeps(s: State)
    requires Inv(s) && Enabled(s, TestDelete)
    ensures Inv(Do(s, TestDelete))
  {
    var s' := Do(s, TestDelete);
    var gone := s.registry[s.pc.i];
    assert ThreadInv(s, gone);
    forall t | t in s.threads ensures ThreadInv(s', t) {
      assert ThreadInv(s, t);
      DeleteThread(s, t);
    }
    assert RegistryInv(s') by { DeleteRegistry(s); }
    assert PcInv(s') by { DeletePc(s); }
  }

  lemma DeleteRegistry(s: State)
    requires RegistryInv(s) && Enabled(s, TestDelete)
    ensures RegistryInv(Do(s, TestDelete))
  {
    EraseMember(s.registry, s.pc.i);
  }

  lemma DeleteThread(s: State, t: Tid)
    requires RegistryInv(s) && Enabled(s, TestDelete) && t in s.threads && ThreadInv(s, t)
    ensures ThreadInv(Do(s, TestDelete), t)
  {
    EraseMember(s.registry, s.pc.i);
    if t != s.registry[s.pc.i] {
      Untouched(s, Do(s, TestDelete), t);
    }
  }

  lemma DeletePc(s: State)
    requires RegistryInv(s) && PcInv(s) && Enabled(s, TestDelete)
    requires ThreadInv(s, s.registry[s.pc.i])
    ensures PcInv(Do(s, TestDelete))
  {
    EraseMember(s.registry, s.pc.i);
    assert HeadsKept(s, Do(s, TestDelete)) by {
      assert forall t | Holds(s, t) && CanDelete(s.threads[s.registry[s.pc.i]]) :: t != s.registry[s.pc.i];
    }
    ScanKept(s, Do(s, TestDelete), s.pc.best, s.pc.seen);
  }

  lemma PeekThread(s: State, t: Tid)
    requires RegistryInv(s) && Enabled(s, PeekAt) && t in s.threads && ThreadInv(s, t)
    ensures ThreadInv(Do(s, PeekAt), t)
  {
    var s' := Do(s, PeekAt);
    if t == s.registry[s.pc.i] {
      assert Unwritten(s', t) == Unwritten(s, t);
    } else {
      Untouched(s, s', t);
    }
  }

  lemma PeekRegistry(s: State)
    requires RegistryInv(s) && Enabled(s, PeekAt)
    ensures RegistryInv(Do(s, PeekAt)) && forall t | t in Do(s, PeekAt).threads :: t in s.threads
  {
  }

  lemma PeekKeeps(s: State)
    requires Inv(s) && Enabled(s, PeekAt)
    ensures Inv(Do(s, PeekAt))
  {
    PeekRegistry(s);
    PeekPc(s);
    forall t | t in Do(s, PeekAt).threads ensures ThreadInv(Do(s, PeekAt), t) { PeekThread(s, t); }
  }

  lemma PeekPc(s: State)
    requires RegistryInv(s) && PcInv(s) && Enabled(s, PeekAt)
    ensures PcInv(Do(s, PeekAt))
  {
    var s' := Do(s, PeekAt);
    ScanKept(s, s', s.pc.best, s.pc.seen);
    var t := s.registry[s.pc.i];
    assert t in s.registry;
    if s.threads[t].pending != [] {
      BetterKeeps(s', s.pc.best, s.pc.seen, t);
    }
  }

  lemma BetterKeeps(s: State, best: Best, seen: set<Tid>, t: Tid)
    requires ScanInv(s, best, seen) && Holds(s, t)
    ensures ScanInv(s, Better(best, s.threads[t].pending[0].stamp, t), seen + {t})
  {
  }

  lemma FormatThread(s: State, now: nat)
    requires Enabled(s, Format(now)) && ThreadInv(s, s.pc.tid)
    ensures ThreadInv(Do(s, Format(now)), s.pc.tid)
  {
    var t, s' := s.pc.tid, Do(s, Format(now));
    assert Contents(s'.threads[t].pending) == Contents(s.threads[t].pending);
    assert Unwritten(s', t) == Unwritten(s, t);
  }

  lemma FormatKeeps(s: State, now: nat)
    requires Inv(s) && Enabled(s, Format(now))
    ensures Inv(Do(s, Format(now)))
  {
    var s' := Do(s, Format(now));
    assert ThreadInv(s', s.pc.tid) by { FormatThread(s, now); }
    forall t | t in s'.threads && t != s.pc.tid ensures ThreadInv(s', t) { Untouched(s, s', t); }
    assert RegistryInv(s') && PcInv(s');
  }

  lemma WriteOwn(s: State)
    requires Enabled(s, Write) && ThreadInv(s, s.pc.tid)
    ensures ThreadInv(Do(s, Write), s.pc.tid)
  {
    var t, s' := s.pc.tid, Do(s, Write);
    var content := s.threads[t].pending[0].content;
    LinesOfAppend(s.output, (t, content), t);
    assert Unwritten(s, t) == [content] + Unwritten(s', t);
    Regroup(LinesOf(s.output, t), content, Unwritten(s', t));
  }

  lemma Regroup(a: seq<Content>, x: Content, b: seq<Content>)
    ensures a + ([x] + b) == (a + [x]) + b
  {
  }

  lemma WriteOther(s: State, t: Tid)
    requires Enabled(s, Write) && t in s.threads && t != s.pc.tid && ThreadInv(s, t)
    ensures ThreadInv(Do(s, Write), t)
  {
    LinesOfAppend(s.output, (s.pc.tid, s.threads[s.pc.tid].pending[0].content), t);
    assert LinesOf(s.output, t) + [] == LinesOf(s.output, t);
    Untouched(s, Do(s, Write), t);
  }

  lemma WriteKeeps(s: State)
    requires Inv(s) && Enabled(s, Write)
    ensures Inv(Do(s, Write))
  {
    var s' := Do(s, Write);
    assert ThreadInv(s', s.pc.tid) by { WriteOwn(s); }
    forall t | t in s'.threads && t != s.pc.tid ensures ThreadInv(s', t) { WriteOther(s, t); }
    assert RegistryInv(s') && PcInv(s');
  }

  lemma ConsumeKeeps(s: State, meet: bool)
    requires Inv(s) && Enabled(s, Consume(meet))
    ensures Inv(Do(s, Consume(meet)))
  {
    var s' := Do(s, Consume(meet));
    var one := s.pc.tid;
    forall t | t in s'.threads ensures ThreadInv(s', t) {
      assert ThreadInv(s, t);
      if t == one { assert Unwritten(s', t) == Unwritten(s, t); } else { Untouched(s, s', t); }
    }
  }

  lemma StepInv(s: State, a: Action)
    requires Inv(s) && Enabled(s, a)
    ensures Inv(Do(s, a))
  {
    if OutsideAction(a) {
      OutsideKeeps(s, a);
    } else {
      match a
      case TestDelete => DeleteKeeps(s);
      case PeekAt => PeekKeeps(s);
      case Format(now) => FormatKeeps(s, now);
      case Write => WriteKeeps(s);
      case Consume(meet) => ConsumeKeeps(s, meet);
      case _ => QuietKeeps(s, a);
    }
  }

  // ---- Runs ----

  ghost predicate Run(s: State, acts: seq<Action>, s': State)
    decreases |acts|
  {
    if acts == [] then s == s' else Enabled(s, acts[0]) && Run(Do(s, acts[0]), acts[1..], s')
  }

  ghost predicate Reached(s: State) {
    exists s0, acts :: Initial(s0) && Run(s0, acts, s)
  }

  lemma {:induction false} RunInv(s: State, acts: seq<Action>, s': State)
    requires Inv(s) && Run(s, acts, s')
    ensures Inv(s')
    decreases |acts|
  {
    if acts == [] {
    } else {
      var mid := Do(s, acts[0]);
      assert Inv(mid) by { StepInv(s, acts[0]); }
      RunInv(mid, acts[1..], s');
    }
  }

  lemma {:induction false} RunAppend(s: State, a: seq<Action>, mid: State, b: seq<Action>, s': State)
    requires Run(s, a, mid) && Run(mid, b, s')
    ensures Run(s, a + b, s')
    decreases |a|
  {
    if a == [] {
      assert a + b == b;
    } else {
      RunAppend(Do(s, a[0]), a[1..], mid, b, s');
      assert (a + b)[1..] == a[1..] + b;
    }
  }

  lemma Follows(s: State, a: Action, acts: seq<Action>, s': State)
    requires Enabled(s, a) && Run(Do(s, a), acts, s')
    ensures Run(s, [a] + acts, s')
  {
    assert ([a] + acts)[1..] == acts;
  }

  lemma ReachedInv(s: State)
    requires Reached(s)
    ensures Inv(s)
  {
    var s0, acts :| Initial(s0) && Run(s0, acts, s);
    InitialInv(s0);
    RunInv(s0, acts, s);
  }

  /**
    Exactly once and in order: the lines written for a thread are always a prefix of what it
    published, and what is missing is exactly what its buffer still holds.
   */
  lemma ExactlyOnceInOrder(s: State, t: Tid)
    requires Reached(s) && t in s.threads
    ensures LinesOf(s.output, t) <= s.threads[t].committed
    ensures s.pc != Written(t) ==> s.threads[t].committed == LinesOf(s.output, t) + Contents(s.threads[t].pending)
  {
    ReachedInv(s);
    assert ThreadInv(s, t);
  }

  /** Deleting a buffer loses nothing: its thread is gone and every record it published is written. */
  lemma DeletedMeansWritten(s: State, t: Tid)
    requires Reached(s) && t in s.threads && s.threads[t].registered && t !in s.registry
    ensures s.threads[t].retired && LinesOf(s.output, t) == s.threads[t].committed
  {
    ReachedInv(s);
    assert ThreadInv(s, t);
    assert LinesOf(s.output, t) + [] == LinesOf(s.output, t);
  }

  /**
    The poller never returns in the middle of a record. Returning by the loop condition, it has
    written everything that was published by any thread registered so far.
   */
  lemma LeavesClean(s: State, a: Action)
    requires Reached(s) && Enabled(s, a) && !s.pc.Left? && Do(s, a).pc.Left?
    ensures forall t | t in s.threads ::
              s.threads[t].committed == LinesOf(s.output, t) + Contents(s.threads[t].pending)
    ensures a.TestExit? ==> s.exit
    ensures a.TestLoop? ==> s.stop && forall t | t in s.threads :: LinesOf(s.output, t) == s.threads[t].committed
    ensures a.TestExit? || a.TestLoop?
  {
    forall t | t in s.threads
      ensures s.threads[t].committed == LinesOf(s.output, t) + Contents(s.threads[t].pending)
      ensures a.TestLoop? ==> LinesOf(s.output, t) == s.threads[t].committed
    {
      ExactlyOnceInOrder(s, t);
      if a.TestLoop? {
        LeftMeansWritten(s, t);
      }
    }
  }

  lemma LeftMeansWritten(s: State, t: Tid)
    requires Reached(s) && t in s.threads && s.registry == []
    ensures LinesOf(s.output, t) == s.threads[t].committed
  {
    if s.threads[t].registered {
      DeletedMeansWritten(s, t);
    } else {
      ExactlyOnceInOrder(s, t);
      ReachedInv(s);
      assert ThreadInv(s, t);
    }
  }

  /** The choice of a scan still stands when it is processed: registered, and showing a record. */
  lemma ChoiceStands(s: State)
    requires Reached(s) && (s.pc.Processing? || s.pc.Formatted? || s.pc.Written?)
    ensures s.pc.tid in s.registry && s.pc.tid in s.threads && s.threads[s.pc.tid].pending != []
  {
    assert PcInv(s) by { ReachedInv(s); }
  }

  /** Among all buffers in which the scan found a record, none had an earlier head than the choice. */
  lemma ChoiceIsEarliest(s: State)
    requires Reached(s) && s.pc.Chosen?
    ensures forall t | t in s.pc.seen :: t in s.registry && t in s.threads && s.threads[t].pending != []
    ensures s.pc.best.Best? ==>
              && s.pc.best.tid in s.pc.seen
              && s.threads[s.pc.best.tid].pending[0].stamp == s.pc.best.stamp
              && forall t | t in s.pc.seen :: s.pc.best.stamp <= s.threads[t].pending[0].stamp
  {
    ReachedInv(s);
  }

  /** The scan under way has seen the record of `t`, or is still going to look at its buffer. */
  predicate Covered(s: State, t: Tid) {
    match s.pc
    case Scanning(i, _, seen) => t in seen || (i <= |s.registry| && t in s.registry[i..])
    case Looking(i, _, seen) => t in seen || (i <= |s.registry| && t in s.registry[i..])
    case Chosen(_, seen) => t in seen
    case _ => true
  }

  /** Erasing another buffer neither loses `t` nor moves it behind the scan. */
  lemma StaysAhead(registry: seq<Tid>, i: nat, t: Tid)
    requires i < |registry| && registry[i] != t && t in registry
    ensures var rest := registry[..i] + registry[i + 1..];
            t in rest && (t in registry[i..] <==> t in rest[i..])
  {
    var rest := registry[..i] + registry[i + 1..];
    assert registry[i..] == [registry[i]] + registry[i + 1..];
    assert rest[i..] == registry[i + 1..];
    var k :| 0 <= k < |registry| && registry[k] == t;
    assert rest[if k < i then k else k - 1] == t;
  }

  lemma DeleteCovers(s: State, t: Tid)
    requires Enabled(s, TestDelete) && Holds(s, t) && !s.threads[t].level && Covered(s, t)
    ensures Covered(Do(s, TestDelete), t) && Holds(Do(s, TestDelete), t)
  {
    if CanDelete(s.threads[s.registry[s.pc.i]]) {
      StaysAhead(s.registry, s.pc.i, t);
    }
  }

  lemma PeekCovers(s: State, t: Tid)
    requires Enabled(s, PeekAt) && Holds(s, t) && Covered(s, t)
    ensures Covered(Do(s, PeekAt), t)
  {
    var i := s.pc.i;
    assert s.registry[i..] == [s.registry[i]] + s.registry[i + 1..];
  }

  /** Within one scan. */
  lemma StepCovers(s: State, a: Action, t: Tid)
    requires Inv(s) && Enabled(s, a) && !a.Relock? && Holds(s, t) && Covered(s, t)
    ensures Covered(Do(s, a), t)
  {
    assert !s.threads[t].level by { assert ThreadInv(s, t); }
    if a.TestDelete? {
      DeleteCovers(s, t);
    } else if a.PeekAt? {
      PeekCovers(s, t);
    }
  }

  /** Where a scan, or what comes before its end, stands. */
  predicate InScan(s: State) {
    s.pc.Scanning? || s.pc.Looking? || s.pc.Chosen?
  }

  lemma ScanHolds(s: State, a: Action, t: Tid)
    requires Inv(s) && Enabled(s, a) && InScan(s) && Holds(s, t) && Covered(s, t)
    ensures Holds(Do(s, a), t) && Do(s, a).threads[t].pending[0] == s.threads[t].pending[0]
  {
    if OutsideAction(a) {
      OutsideHeads(s, a);
    } else if a.TestDelete? {
      assert !s.threads[t].level by { assert ThreadInv(s, t); }
      DeleteCovers(s, t);
    } else {
      OwnHolds(s, a, t);
    }
  }

  lemma OwnHolds(s: State, a: Action, t: Tid)
    requires Enabled(s, a) && Holds(s, t) && (a.PeekAt? || a.EndScan? || a.Decide?)
    ensures Holds(Do(s, a), t) && Do(s, a).threads[t].pending[0] == s.threads[t].pending[0]
  {
  }

  /** While the scan goes on, `t` shows `head`, and the scan has seen that or will come to it. */
  ghost predicate Awaits(s: State, t: Tid, head: Entry) {
    Inv(s) && (InScan(s) ==> Covered(s, t) && Holds(s, t) && s.threads[t].pending[0] == head)
  }

  lemma ScanGoesOn(s: State, a: Action, t: Tid, head: Entry)
    requires Awaits(s, t, head) && Enabled(s, a) && !a.Relock?
    ensures Awaits(Do(s, a), t, head)
  {
    StepInv(s, a);
    if InScan(s) {
      StepCovers(s, a, t);
      ScanHolds(s, a, t);
    } else {
      NoOtherScan(s, a);
    }
  }

  /** A poller that has left its scan comes into one only through another start. */
  lemma NoOtherScan(s: State, a: Action)
    requires Enabled(s, a) && !InScan(s) && !a.Relock?
    ensures !InScan(Do(s, a))
  {
  }

  lemma {:induction false} ScanCovers(s: State, acts: seq<Action>, s': State, t: Tid, head: Entry)
    requires Awaits(s, t, head) && Run(s, acts, s')
    requires forall i | 0 <= i < |acts| :: !acts[i].Relock?
    ensures Awaits(s', t, head)
    decreases |acts|
  {
    if acts == [] {
    } else {
      ScanGoesOn(s, acts[0], t, head);
      ScanCovers(Do(s, acts[0]), acts[1..], s', t, head);
    }
  }

  /**
    A scan misses nothing: every buffer that holds a record when it starts is among those it has seen when
    it is finished, with that same record, and then it has a choice that is no later than that record.
   */
  lemma ScanSeesAll(s: State, acts: seq<Action>, s': State, t: Tid)
    requires Reached(s) && Enabled(s, Relock) && Holds(s, t)
    requires Run(Do(s, Relock), acts, s') && s'.pc.Chosen? && forall i | 0 <= i < |acts| :: !acts[i].Relock?
    ensures t in s'.pc.seen && Holds(s', t) && s'.threads[t].pending[0] == s.threads[t].pending[0]
    ensures s.threads[t].pending[0].stamp < NO_STAMP ==>
              s'.pc.best.Best? && s'.pc.best.stamp <= s.threads[t].pending[0].stamp
  {
    ReachedInv(s);
    StepInv(s, Relock);
    assert s.registry[0..] == s.registry;
    ScanCovers(Do(s, Relock), acts, s', t, s.threads[t].pending[0]);
    assert ScanInv(s', s'.pc.best, s'.pc.seen);
  }

  /** A deleted buffer is out of everyone's reach: nothing changes for its thread any more. */
  lemma {:induction false} DeletedForever(s: State, acts: seq<Action>, s': State, t: Tid)
    requires Inv(s) && Run(s, acts, s')
    requires t in s.threads && s.threads[t].registered && t !in s.registry
    ensures t in s'.threads && s'.threads[t].committed == s.threads[t].committed
    ensures t !in s'.registry && LinesOf(s'.output, t) == LinesOf(s.output, t)
    decreases |acts|
  {
    if acts == [] {
    } else {
      var mid := Do(s, acts[0]);
      DeletedStep(s, acts[0], t);
      assert Inv(mid) by { StepInv(s, acts[0]); }
      DeletedForever(mid, acts[1..], s', t);
    }
  }

  /** From `s` to `s'` the deleted buffer of thread `t` and its lines stay as they are. */
  ghost predicate StaysDeleted(s: State, s': State, t: Tid)
    requires t in s.threads
  {
    && t in s'.threads && s'.threads[t].registered && t !in s'.registry
    && s'.threads[t].committed == s.threads[t].committed
    && LinesOf(s'.output, t) == LinesOf(s.output, t)
  }

  lemma DeletedStep(s: State, a: Action, t: Tid)
    requires Inv(s) && Enabled(s, a)
    requires t in s.threads && s.threads[t].registered && t !in s.registry
    ensures StaysDeleted(s, Do(s, a), t)
  {
    assert s.threads[t].retired by { assert ThreadInv(s, t); }
    if a.Write? {
      assert Holds(s, s.pc.tid);
      DeletedWrite(s, t);
    } else {
      DeletedOther(s, a, t);
    }
  }

  lemma DeletedWrite(s: State, t: Tid)
    requires Enabled(s, Write) && t in s.threads && s.threads[t].registered && t !in s.registry && t != s.pc.tid
    ensures StaysDeleted(s, Do(s, Write), t)
  {
    LinesOfAppend(s.output, (s.pc.tid, s.threads[s.pc.tid].pending[0].content), t);
    assert LinesOf(s.output, t) + [] == LinesOf(s.output, t);
  }

  lemma DeletedOther(s: State, a: Action, t: Tid)
    requires Enabled(s, a) && !a.Write?
    requires t in s.threads && s.threads[t].registered && s.threads[t].retired && t !in s.registry
    ensures StaysDeleted(s, Do(s, a), t)
  {
  }

  /**
    `setLogFile` never clears the stop flag, so after the hand-off the poller returns at the first
    loop test that finds the registry empty. Here it has returned while a thread goes on publishing; see
    `PollProgress` for what that means for its records.
   */
  lemma StoppedAfterHandOff()
    ensures var s := AfterHandOff();
            && Reached(s) && s.pc.Left? && !s.exit
            && s.threads[0].registered && !s.threads[0].retired
            && |s.threads[0].committed| == 1 && LinesOf(s.output, 0) == []
            && forall a | Enabled(s, a) :: OutsideAction(a)
  {
    var s0 := State(map[], [], Top, [], false, false);
    var acts, s1 := IdleRound(s0);
    acts := HandOff(s0, acts, s1);
    acts := LateThread(s0, acts, s0.(pc := Left, stop := true));
  }

  function AfterHandOff(): State {
    State(map[0 := Thread([[]], [Entry(1, [])], true, false, false)], [0], Left, [], true, false)
  }

  /** No step clears the stop flag. */
  lemma {:induction false} StopStays(s: State, acts: seq<Action>, s': State)
    requires Run(s, acts, s') && s.stop
    ensures s'.stop
    decreases |acts|
  {
    if acts == [] {
    } else {
      StopStays(Do(s, acts[0]), acts[1..], s');
    }
  }

  lemma IdleRound(s0: State) returns (acts: seq<Action>, s: State)
    requires s0 == State(map[], [], Top, [], false, false)
    ensures Run(s0, acts, s) && s == s0.(pc := Waiting)
  {
    acts, s := Then(s0, [], s0, TestLoop);
    acts, s := Then(s0, acts, s, TestExit);
    acts, s := Then(s0, acts, s, Relock);
    acts, s := Then(s0, acts, s, EndScan);
    acts, s := Then(s0, acts, s, Decide);
  }

  lemma HandOff(s0: State, before: seq<Action>, s: State) returns (acts: seq<Action>)
    requires Run(s0, before, s) && s == State(map[], [], Waiting, [], false, false)
    ensures Run(s0, acts, s.(pc := Left, stop := true))
  {
    var s';
    acts, s' := Then(s0, before, s, RequestExit);
    acts, s' := Then(s0, acts, s', Wake);
    acts, s' := Then(s0, acts, s', TestLoop);
    acts, s' := Then(s0, acts, s', Restart);
    acts, s' := Then(s0, acts, s', TestLoop);
  }

  lemma LateThread(s0: State, before: seq<Action>, s: State) returns (acts: seq<Action>)
    requires Run(s0, before, s) && s == State(map[], [], Left, [], true, false)
    ensures Run(s0, acts, AfterHandOff())
  {
    var s';
    acts, s' := Then(s0, before, s, Spawn(0));
    acts, s' := Then(s0, acts, s', Register(0));
    acts, s' := Then(s0, acts, s', Commit(0, Entry(1, [])));
    var th := AfterHandOff().threads[0];
    assert s'.threads[0].committed == th.committed && s'.threads[0].pending == th.pending;
    assert s'.threads == map[0 := th] && s'.registry == [0];
  }

  lemma {:induction false} Then(s0: State, acts: seq<Action>, s: State, a: Action)
    returns (more: seq<Action>, s': State)
    requires Run(s0, acts, s) && Enabled(s, a)
    ensures s' == Do(s, a) && more == acts + [a] && Run(s0, more, s')
    decreases |acts|
  {
    s', more := Do(s, a), acts + [a];
    if acts == [] {
      assert more[1..] == [];
      assert Run(s', [], s');
    } else {
      var rest, _ := Then(Do(s0, acts[0]), acts[1..], s, a);
      assert more[1..] == rest;
    }
  }
}
