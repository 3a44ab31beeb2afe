/** The scan's choice among equal timestamps: the thread that registered first. */
module PollOrder {
  import opened PollProtocol

  /** Not both: seen by the scan, and showing a timestamp as early as the choice. */
  predicate Later(s: State, best: Best, seen: set<Tid>, t: Tid) {
    best.Best? && t in seen && Holds(s, t) ==> s.threads[t].pending[0].stamp > best.stamp
  }

  /** That is so for every buffer registered before the choice. */
  predicate FirstOfTies(s: State, best: Best, seen: set<Tid>) {
    forall j, k | 0 <= j < k < |s.registry| && best.Best? && s.registry[k] == best.tid ::
      Later(s, best, seen, s.registry[j])
  }

  predicate TieInv(s: State) {
    match s.pc
    case Scanning(_, best, seen) => FirstOfTies(s, best, seen)
    case Looking(_, best, seen) => FirstOfTies(s, best, seen)
    case Chosen(best, seen) => FirstOfTies(s, best, seen)
    case _ => true
  }

  /** What neither changes a head nor turns the registry's order round keeps this. */
  lemma TiesKept(s: State, s': State, best: Best, seen: set<Tid>, skip: nat)
    requires FirstOfTies(s, best, seen)
    requires forall t | t in seen && Holds(s', t) ::
               Holds(s, t) && s'.threads[t].pending[0] == s.threads[t].pending[0]
    requires |s'.registry| <= |s.registry| <= |s'.registry| + 1
    requires forall j | 0 <= j < |s'.registry| ::
               Origin(j, skip) < |s.registry| && s'.registry[j] == s.registry[Origin(j, skip)]
    ensures FirstOfTies(s', best, seen)
  {
    forall j, k | 0 <= j < k < |s'.registry| && best.Best? && s'.registry[k] == best.tid
      ensures Later(s', best, seen, s'.registry[j])
    {
      assert Later(s, best, seen, s.registry[Origin(j, skip)]) by {
        assert s.registry[Origin(k, skip)] == best.tid && Origin(j, skip) < Origin(k, skip);
      }
    }
  }

  /** Where position `j` of a registry was before position `skip` was erased. */
  function Origin(j: nat, skip: nat): nat {
    if j < skip then j else j + 1
  }

  lemma OutsideTies(s: State, a: Action)
    requires Inv(s) && TieInv(s) && Enabled(s, a) && OutsideAction(a)
    ensures TieInv(Do(s, a))
  {
    var s' := Do(s, a);
    if s.pc.Scanning? || s.pc.Looking? || s.pc.Chosen? {
      OutsideHeads(s, a);
      assert forall t | t in s.pc.seen :: Holds(s, t);
      assert s'.registry == s.registry && s'.pc == s.pc;
      TiesKept(s, s', s.pc.best, s.pc.seen, |s.registry|);
    }
  }

  lemma DeleteTies(s: State)
    requires RegistryInv(s) && TieInv(s) && Enabled(s, TestDelete)
    ensures TieInv(Do(s, TestDelete))
  {
    var s' := Do(s, TestDelete);
    EraseMember(s.registry, s.pc.i);
    TiesKept(s, s', s.pc.best, s.pc.seen, if s'.registry == s.registry then |s.registry| else s.pc.i);
  }

  /** A strict comparison keeps the first of the smallest. */
  lemma PeekTies(s: State)
    requires RegistryInv(s) && PcInv(s) && TieInv(s) && Enabled(s, PeekAt)
    ensures TieInv(Do(s, PeekAt))
  {
    var s', i := Do(s, PeekAt), s.pc.i;
    forall j, k | 0 <= j < k < |s.registry| && s'.pc.best.Best? && s.registry[k] == s'.pc.best.tid
      ensures Later(s', s'.pc.best, s'.pc.seen, s.registry[j])
    {
      PeekLater(s, j, k);
    }
  }

  lemma PeekLater(s: State, j: nat, k: nat)
    requires RegistryInv(s) && PcInv(s) && TieInv(s) && Enabled(s, PeekAt) && j < k < |s.registry|
    requires var best := Do(s, PeekAt).pc.best; best.Best? && s.registry[k] == best.tid
    ensures Later(Do(s, PeekAt), Do(s, PeekAt).pc.best, Do(s, PeekAt).pc.seen, s.registry[j])
  {
    var best, best' := s.pc.best, Do(s, PeekAt).pc.best;
    if best' == best {
      assert Later(s, best, s.pc.seen, s.registry[j]);
      assert s.registry[k] in s.pc.seen;
      assert k < s.pc.i;
    } else {
      assert k == s.pc.i;
    }
  }

  lemma TieStep(s: State, a: Action)
    requires Inv(s) && TieInv(s) && Enabled(s, a)
    ensures TieInv(Do(s, a))
  {
    if OutsideAction(a) {
      OutsideTies(s, a);
    } else if a.TestDelete? {
      DeleteTies(s);
    } else if a.PeekAt? {
      PeekTies(s);
    }
  }

  lemma {:induction false} RunTies(s: State, acts: seq<Action>, s': State)
    requires Inv(s) && TieInv(s) && Run(s, acts, s')
    ensures TieInv(s')
    decreases |acts|
  {
    if acts == [] {
    } else {
      TieStep(s, acts[0]);
      StepInv(s, acts[0]);
      RunTies(Do(s, acts[0]), acts[1..], s');
    }
  }

  /**
    The finished scan has chosen, among all buffers in which it found a record, the one with the earliest
    timestamp, and among equal ones the buffer that was registered first.
   */
  lemma ChoiceIsFirst(s: State, j: nat, k: nat)
    requires Reached(s) && s.pc.Chosen? && s.pc.best.Best?
    requires j < |s.registry| && k < |s.registry| && s.registry[k] == s.pc.best.tid && s.registry[j] in s.pc.seen
    ensures Holds(s, s.registry[j]) && Holds(s, s.registry[k])
    ensures var x, y := s.threads[s.registry[k]].pending[0].stamp, s.threads[s.registry[j]].pending[0].stamp;
            x < y || (x == y && k <= j)
  {
    ReachedInv(s);
    var s0, acts :| Initial(s0) && Run(s0, acts, s);
    InitialInv(s0);
    RunTies(s0, acts, s);
    if j < k {
      assert Later(s, s.pc.best, s.pc.seen, s.registry[j]);
    }
  }
}
