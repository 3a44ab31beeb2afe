/** The polling backend: the registry of staging buffers and the rounds that empty it. */
module Backend {
  import opened Merge

  /** The modulus of the loop index type. */
  const WORD: nat := 0x1_0000_0000_0000_0000

  /**
    What the backend can observe of one staging buffer: its pending records, whether its thread has
    exited, and whether the two positions are level. Level positions mean an empty buffer; an empty
    buffer is not level while its consumer position still stands at the end of the old lap.
   */
  datatype BufferState = BufferState(id: nat, items: Queue, retired: bool, level: bool)

  predicate Coherent(b: BufferState) {
    b.level ==> b.items == []
  }

  predicate CanDelete(b: BufferState) {
    b.retired && b.level
  }

  /** A `peek` rolls an empty buffer over and leaves any other as it is. */
  function Peeked(b: BufferState): BufferState {
    if b.items == [] then b.(level := true) else b
  }

  /** The registry after a sweep: deletable buffers gone, the others peeked at, order kept. */
  function Survivors(reg: seq<BufferState>): (r: seq<BufferState>)
    ensures |r| <= |reg|
  {
    if reg == [] then []
    else if CanDelete(reg[0]) then Survivors(reg[1..])
    else [Peeked(reg[0])] + Survivors(reg[1..])
  }

  function Queues(reg: seq<BufferState>): (qs: seq<Queue>)
    ensures |qs| == |reg|
    ensures forall i | 0 <= i < |reg| :: qs[i] == reg[i].items
  {
    seq(|reg|, i requires 0 <= i < |reg| => reg[i].items)
  }

  predicate AllCoherent(reg: seq<BufferState>) {
    forall b | b in reg :: Coherent(b)
  }

  /** A sweep takes only empty queues out of the registry. */
  lemma {:induction false} SweepDropsEmpty(reg: seq<BufferState>)
    requires AllCoherent(reg)
    ensures DropsEmpty(Queues(reg), Queues(Survivors(reg)))
    ensures AllCoherent(Survivors(reg))
  {
    if reg == [] {
    } else {
      assert Coherent(reg[0]);
      SweepDropsEmpty(reg[1..]);
      assert Queues(reg)[1..] == Queues(reg[1..]);
      if !CanDelete(reg[0]) {
        assert Queues(Survivors(reg))[1..] == Queues(Survivors(reg[1..]));
      }
    }
  }

  /** A buffer leaves the registry only with nothing pending and its thread gone. */
  lemma {:induction false} SweepLosesNothing(reg: seq<BufferState>, b: BufferState)
    requires AllCoherent(reg) && b in reg
    ensures Peeked(b) in Survivors(reg) || (b.retired && b.items == [])
  {
    if b == reg[0] {
      assert Coherent(b);
    } else {
      assert b in reg[1..];
      SweepLosesNothing(reg[1..], b);
    }
  }

  /** One buffer moves from the rest to the kept ones, or is erased. */
  lemma SurvivorsStep(kept: seq<BufferState>, rest: seq<BufferState>)
    requires rest != []
    ensures (kept + rest)[|kept|] == rest[0]
    ensures (kept + rest)[|kept| := Peeked(rest[0])] == (kept + [Peeked(rest[0])]) + rest[1..]
    ensures (kept + rest)[..|kept|] + (kept + rest)[|kept| + 1..] == kept + rest[1..]
    ensures kept + Survivors(rest) ==
            (if CanDelete(rest[0]) then kept else kept + [Peeked(rest[0])]) + Survivors(rest[1..])
  {
  }

  class StaticLogBackend {
    var threadBuffers: seq<BufferState>
    var nextBufferId: nat
    var isStop: bool
    var isExit: bool
    var output: seq<Item>

    ghost predicate Valid()
      reads this
    {
      |threadBuffers| < WORD && AllCoherent(threadBuffers)
    }

    constructor ()
      ensures Valid() && threadBuffers == [] && output == [] && !isStop && !isExit
    {
      threadBuffers, nextBufferId, isStop, isExit, output := [], 0, false, false, [];
    }

    /** Registers a new thread's buffer behind all others. */
    method EnsureStagingBufferAllocated() returns (id: nat)
      requires Valid() && |threadBuffers| + 1 < WORD
      modifies this`threadBuffers, this`nextBufferId
      ensures Valid()
      ensures threadBuffers == old(threadBuffers) + [BufferState(id, [], false, true)]
      ensures id == old(nextBufferId) && nextBufferId == id + 1
    {
      id := nextBufferId;
      nextBufferId := nextBufferId + 1;
      threadBuffers := threadBuffers + [BufferState(id, [], false, true)];
    }

    /**
      The scan of one poll round: deletes, in place, the buffers that may go, and finds the first
      buffer with the smallest head timestamp among the others. The choice is a position in the
      swept registry; deletions after it do not move it.
     */
    method Sweep() returns (earliest: int)
      requires Valid()
      modifies this`threadBuffers
      ensures Valid()
      ensures threadBuffers == Survivors(old(threadBuffers))
      ensures if earliest < 0 then NothingToTake(Queues(threadBuffers)) else IsEarliest(Queues(threadBuffers), earliest)
    {
      ghost var before := threadBuffers;
      ghost var kept, rest: seq<BufferState> := [], before;
      var earliestStamp := NO_STAMP;
      earliest := -1;
      var i: nat := 0;
      while i < |threadBuffers|
        invariant threadBuffers == kept + rest && i == |kept| && |threadBuffers| <= |before|
        invariant Survivors(before) == kept + Survivors(rest)
        invariant Scanned(Queues(kept), earliest, earliestStamp)
        decreases |rest|
      {
        SurvivorsStep(kept, rest);
        var threadBuffer := threadBuffers[i];
        if !CanDelete(threadBuffer) {
          ScanOneMore(Queues(kept), earliest, earliestStamp, threadBuffer.items);
          kept := kept + [Peeked(threadBuffer)];
          assert Queues(kept) == Queues(kept[..i]) + [threadBuffer.items];
          threadBuffers := threadBuffers[i := Peeked(threadBuffer)];
          if threadBuffer.items != [] && threadBuffer.items[0].stamp < earliestStamp {
            earliestStamp := threadBuffer.items[0].stamp;
            earliest := i;
          }
          rest := rest[1..];
        } else {
          threadBuffers := threadBuffers[..i] + threadBuffers[i + 1..];
          rest := rest[1..];
          if threadBuffers == [] {
            break;
          }
          i := if i == 0 then WORD - 1 else i - 1;
        }
        i := if i == WORD - 1 then 0 else i + 1;
      }
      assert threadBuffers == kept;
      SweepDropsEmpty(before);
    }

    /**
      Writes the line of the oldest record of buffer `i` and consumes it; when formatting or the file
      fails, only the record's timestamp changes.
     */
    method ProcessLogBuffer(i: nat, now: nat, ok: bool)
      requires Valid() && i < |threadBuffers|
      modifies this`threadBuffers, this`output
      ensures Valid()
      ensures |threadBuffers| == |old(threadBuffers)|
      ensures forall j | 0 <= j < |threadBuffers| && j != i :: threadBuffers[j] == old(threadBuffers[j])
      ensures threadBuffers[i].id == old(threadBuffers[i].id)
      ensures threadBuffers[i].retired == old(threadBuffers[i].retired)
      ensures var before := old(threadBuffers[i].items);
              if before == [] then threadBuffers[i] == old(Peeked(threadBuffers[i])) && output == old(output)
              else if ok then threadBuffers[i].items == before[1..] && output == old(output) + [before[0]]
              else threadBuffers[i].items == [before[0].(stamp := now)] + before[1..] && output == old(output)
    {
      assert AllCoherent(threadBuffers);
      var b := Peeked(threadBuffers[i]);
      if b.items != [] {
        var entry := b.items[0];
        b := b.(items := [entry.(stamp := now)] + b.items[1..]);
        if ok {
          output := output + [entry];
          // Whether consuming the last record makes the positions meet depends on the lap.
          var meet: bool := *;
          b := b.(items := b.items[1..], level := meet && |b.items| == 1);
          assert b.items == threadBuffers[i].items[1..];
        }
      }
      assert Coherent(threadBuffers[i]) && Coherent(b);
      threadBuffers := threadBuffers[i := b];
      assert forall j | 0 <= j < |threadBuffers| :: Coherent(threadBuffers[j]);
    }

    /** One poll round in which processing succeeds. */
    method PollRound(now: nat) returns (earliest: int, ghost emitted: seq<Item>)
      requires Valid() && RegistryOk(Queues(threadBuffers))
      modifies this`threadBuffers, this`output
      ensures Valid() && RegistryOk(Queues(threadBuffers))
      ensures output == old(output) + emitted && (earliest < 0 <==> emitted == [])
      ensures Polled(old(threadBuffers), emitted, threadBuffers)
    {
      ghost var before := threadBuffers;
      earliest := Sweep();
      ghost var swept := threadBuffers;
      SweptRegistry(before);
      emitted := [];
      if earliest >= 0 {
        emitted := [threadBuffers[earliest].items[0]];
        ProcessLogBuffer(earliest, now, true);
        TakenRound(before, swept, earliest, threadBuffers);
      } else {
        NothingMeansEmpty(Queues(swept));
      }
    }

    /** A poll round at shutdown brings the end nearer: a record less, or a sweep less. */
    method ShutdownRound(ghost start: seq<Queue>, ghost out: seq<Item>, now: nat) returns (ghost emitted: seq<Item>)
      requires Valid() && AllRetired(threadBuffers) && threadBuffers != []
      requires Merged(start, out, Queues(threadBuffers))
      modifies this`threadBuffers, this`output
      ensures Valid() && AllRetired(threadBuffers)
      ensures output == old(output) + emitted
      ensures Merged(start, out + emitted, Queues(threadBuffers))
      ensures NearerTheEnd(old(threadBuffers), threadBuffers)
    {
      ghost var before := threadBuffers;
      var earliest;
      earliest, emitted := PollRound(now);
      if earliest >= 0 {
        assert emitted == [emitted[0]];
        RoundEmitted(start, out, before, emitted[0], threadBuffers);
      } else {
        assert out + emitted == out;
        RoundIdle(start, out, before);
      }
    }

    /**
      Shutdown: with every thread gone and every record processed successfully, the loop empties the
      registry, and it has written every pending record exactly once, in merge order. A pending exit
      request makes it return at once instead, between two rounds.
     */
    method IoPoll()
      requires Valid() && RegistryOk(Queues(threadBuffers))
      requires isStop && AllRetired(threadBuffers)
      modifies this`threadBuffers, this`output
      ensures Valid()
      ensures isExit ==> threadBuffers == old(threadBuffers) && output == old(output)
      ensures !isExit ==>
                && threadBuffers == []
                && |output| >= |old(output)| && output[..|old(output)|] == old(output)
                && Merged(Queues(old(threadBuffers)), output[|old(output)|..], [])
    {
      ghost var start := Queues(threadBuffers);
      ghost var out: seq<Item> := [];
      assert Merged(start, out, start);
      while !isStop || threadBuffers != []
        invariant Valid() && AllRetired(threadBuffers)
        invariant output == old(output) + out
        invariant Merged(start, out, Queues(threadBuffers))
        invariant isExit ==> threadBuffers == old(threadBuffers) && out == []
        decreases |All(Queues(threadBuffers))|, SweepsLeft(threadBuffers)
      {
        if isExit {
          return;
        }
        var now: nat := *;  // the clock reading with which a record is stamped
        ghost var emitted := ShutdownRound(start, out, now);
        Associate(old(output), out, emitted);
        out := out + emitted;
      }
      assert output[|old(output)|..] == out && Queues(threadBuffers) == [];
    }
  }

  /** One round from `before` to `after`: either nothing was pending, or one record was taken. */
  ghost predicate Polled(before: seq<BufferState>, emitted: seq<Item>, after: seq<BufferState>) {
    if emitted == [] then All(Queues(before)) == multiset{} && after == Survivors(before)
    else
      && |emitted| == 1 && Round(Queues(before), emitted[0], Queues(after))
      && SameFlags(Survivors(before), after)
  }

  ghost predicate NearerTheEnd(before: seq<BufferState>, after: seq<BufferState>) {
    || |All(Queues(after))| < |All(Queues(before))|
    || (|All(Queues(after))| == |All(Queues(before))| && SweepsLeft(after) < SweepsLeft(before))
  }

  lemma Associate(a: seq<Item>, b: seq<Item>, c: seq<Item>)
    ensures (a + b) + c == a + (b + c)
  {
  }

  lemma RoundEmitted(start: seq<Queue>, out: seq<Item>, before: seq<BufferState>, item: Item, after: seq<BufferState>)
    requires AllRetired(before) && Merged(start, out, Queues(before))
    requires Round(Queues(before), item, Queues(after)) && SameFlags(Survivors(before), after)
    ensures AllRetired(after) && Merged(start, out + [item], Queues(after))
    ensures NearerTheEnd(before, after)
  {
    MergeOneMore(start, out, Queues(before), item, Queues(after));
    RoundKeeps(Queues(before), item, Queues(after));
    SurvivorsRetired(before);
    FlagsRetired(Survivors(before), after);
  }

  lemma RoundIdle(start: seq<Queue>, out: seq<Item>, before: seq<BufferState>)
    requires AllRetired(before) && AllCoherent(before) && Merged(start, out, Queues(before))
    requires All(Queues(before)) == multiset{} && before != []
    ensures AllRetired(Survivors(before)) && Merged(start, out, Queues(Survivors(before)))
    ensures NearerTheEnd(before, Survivors(before))
  {
    NothingPending(before);
    SweepsGoDown(before);
    SurvivorsRetired(before);
    SweptRegistry(before);
  }

  predicate AllRetired(reg: seq<BufferState>) {
    forall b | b in reg :: b.retired
  }

  /** How many sweeps the buffers still need once they are empty: an unlevel one needs two. */
  function SweepsLeft(reg: seq<BufferState>): nat {
    if reg == [] then 0 else (if reg[0].level then 1 else 2) + SweepsLeft(reg[1..])
  }

  lemma {:induction false} SweepsGoDown(reg: seq<BufferState>)
    requires AllRetired(reg) && forall b | b in reg :: b.items == []
    ensures SweepsLeft(Survivors(reg)) <= SweepsLeft(reg)
    ensures reg != [] ==> SweepsLeft(Survivors(reg)) < SweepsLeft(reg)
  {
    if reg == [] {
    } else {
      SweepsGoDown(reg[1..]);
      if !CanDelete(reg[0]) {
        assert Survivors(reg)[1..] == Survivors(reg[1..]);
      }
    }
  }

  lemma NothingPending(reg: seq<BufferState>)
    requires All(Queues(reg)) == multiset{}
    ensures forall b | b in reg :: b.items == []
  {
    forall i | 0 <= i < |reg| ensures reg[i].items == [] {
      if reg[i].items != [] {
        assert reg[i].items[0] in Queues(reg)[i];
        AllMember(Queues(reg), reg[i].items[0]);
      }
    }
  }

  lemma FlagsRetired(a: seq<BufferState>, b: seq<BufferState>)
    requires SameFlags(a, b) && AllRetired(a)
    ensures AllRetired(b)
  {
    forall i | 0 <= i < |b| ensures b[i].retired { assert a[i] in a; }
  }

  predicate SameFlags(a: seq<BufferState>, b: seq<BufferState>) {
    |a| == |b| && forall i | 0 <= i < |a| :: a[i].id == b[i].id && a[i].retired == b[i].retired
  }

  lemma SweptRegistry(reg: seq<BufferState>)
    requires AllCoherent(reg) && RegistryOk(Queues(reg))
    ensures DropsEmpty(Queues(reg), Queues(Survivors(reg)))
    ensures RegistryOk(Queues(Survivors(reg))) && All(Queues(reg)) == All(Queues(Survivors(reg)))
  {
    SweepDropsEmpty(reg);
    DropsEmptyRegistry(Queues(reg), Queues(Survivors(reg)));
    DropsEmptyOk(Queues(reg), Queues(Survivors(reg)));
  }

  lemma RoundOf(reg: seq<Queue>, swept: seq<Queue>, i: nat)
    requires DropsEmpty(reg, swept) && RegistryOk(swept) && IsEarliest(swept, i)
    ensures RegistryOk(Take(swept, i)) && Round(reg, swept[i][0], Take(swept, i))
  {
    TakeRegistry(swept, i);
  }

  /** A sweep followed by processing the chosen buffer is one round of the merge. */
  lemma TakenRound(before: seq<BufferState>, swept: seq<BufferState>, i: nat, after: seq<BufferState>)
    requires DropsEmpty(Queues(before), Queues(swept)) && RegistryOk(Queues(swept)) && IsEarliest(Queues(swept), i)
    requires |after| == |swept| && after[i].id == swept[i].id && after[i].retired == swept[i].retired
    requires after[i].items == swept[i].items[1..]
    requires forall j | 0 <= j < |swept| && j != i :: after[j] == swept[j]
    ensures RegistryOk(Queues(after)) && SameFlags(swept, after)
    ensures Round(Queues(before), swept[i].items[0], Queues(after))
  {
    assert Queues(after) == Take(Queues(swept), i);
    RoundOf(Queues(before), Queues(swept), i);
  }

  lemma NothingMeansEmpty(qs: seq<Queue>)
    requires RegistryOk(qs) && NothingToTake(qs)
    ensures All(qs) == multiset{}
  {
    if All(qs) != multiset{} {
      var i := EarliestOf(qs);
    }
  }

  lemma {:induction false} SurvivorsRetired(reg: seq<BufferState>)
    ensures AllRetired(reg) ==> AllRetired(Survivors(reg))
  {
    if reg == [] {
    } else {
      SurvivorsRetired(reg[1..]);
    }
  }
}
