/** The order in which repeated poll rounds take records from several queues. */
module Merge {
  import opened Bytes

  /** `UINT64_MAX`: the scan starts from it, so a record carrying it is never chosen. */
  const NO_STAMP: nat := 0xFFFF_FFFF_FFFF_FFFF

  /** No eight-byte timestamp is later, and only the one of all ones is as late. */
  lemma NoStampIsLast(stamp: seq<byte>)
    requires |stamp| == 8
    ensures LeValue(stamp) <= NO_STAMP
    ensures LeValue(stamp) == NO_STAMP <==> forall i | 0 <= i < 8 :: stamp[i] == 0xFF
  {
    LittleEndian(stamp);
    LittleEndian(stamp[..4]);
    LittleEndian(stamp[4..]);
  }

  /**
    A pending record: its timestamp, its queue's place in the registry, its place among all records
    of its thread, and its contents.
   */
  datatype Item = Item(stamp: nat, rank: nat, index: nat, body: seq<byte>)

  type Queue = seq<Item>

  /** By timestamp; ties by registry order, then by queue order. */
  predicate Less(a: Item, b: Item) {
    || a.stamp < b.stamp
    || (a.stamp == b.stamp && a.rank < b.rank)
    || (a.stamp == b.stamp && a.rank == b.rank && a.index < b.index)
  }

  predicate Ascending(items: seq<Item>) {
    forall i, j | 0 <= i < j < |items| :: Less(items[i], items[j])
  }

  /** One thread's pending records: one rank, publishing order, nondecreasing timestamps. */
  predicate QueueOk(q: Queue) {
    && (forall i | 0 <= i < |q| :: q[i].rank == q[0].rank && q[i].stamp < NO_STAMP)
    && Ascending(q)
  }

  predicate Before(q: Queue, r: Queue) {
    forall x, y | x in q && y in r :: x.rank < y.rank
  }

  predicate RegistryOk(reg: seq<Queue>) {
    && (forall i | 0 <= i < |reg| :: QueueOk(reg[i]))
    && (forall i, j | 0 <= i < j < |reg| :: Before(reg[i], reg[j]))
  }

  function All(reg: seq<Queue>): multiset<Item> {
    if reg == [] then multiset{} else multiset(reg[0]) + All(reg[1..])
  }

  /** What the scan of one poll round chooses: the first of the smallest head timestamps. */
  predicate IsEarliest(reg: seq<Queue>, i: nat) {
    && i < |reg| && reg[i] != [] && reg[i][0].stamp < NO_STAMP
    && (forall j | 0 <= j < |reg| && reg[j] != [] :: reg[i][0].stamp <= reg[j][0].stamp)
    && (forall j | 0 <= j < i && reg[j] != [] :: reg[i][0].stamp < reg[j][0].stamp)
  }

  predicate NothingToTake(reg: seq<Queue>) {
    forall j | 0 <= j < |reg| && reg[j] != [] :: reg[j][0].stamp >= NO_STAMP
  }

  /** What the scan holds after the queues `qs`: the index of its choice, or nothing yet. */
  predicate Scanned(qs: seq<Queue>, choice: int, stamp: nat) {
    if choice < 0 then stamp == NO_STAMP && NothingToTake(qs)
    else IsEarliest(qs, choice) && qs[choice][0].stamp == stamp
  }

  /** Looking at one more queue with a strict comparison keeps the first of the smallest. */
  lemma ScanOneMore(qs: seq<Queue>, choice: int, stamp: nat, q: Queue)
    requires Scanned(qs, choice, stamp)
    ensures if q != [] && q[0].stamp < stamp then Scanned(qs + [q], |qs|, q[0].stamp)
            else Scanned(qs + [q], choice, stamp)
  {
    var more := qs + [q];
    assert forall j | 0 <= j < |qs| :: more[j] == qs[j];
  }

  /** `b` is `a` without some of its empty queues. */
  predicate DropsEmpty(a: seq<Queue>, b: seq<Queue>) {
    if a == [] then b == []
    else (b != [] && a[0] == b[0] && DropsEmpty(a[1..], b[1..])) || (a[0] == [] && DropsEmpty(a[1..], b))
  }

  function Take(reg: seq<Queue>, i: nat): seq<Queue>
    requires i < |reg| && reg[i] != []
  {
    reg[i := reg[i][1..]]
  }

  /** One poll round: sweep, choose, take `item`. */
  ghost predicate Round(reg: seq<Queue>, item: Item, reg': seq<Queue>) {
    exists swept, i: nat ::
      DropsEmpty(reg, swept) && IsEarliest(swept, i) && item == swept[i][0] && reg' == Take(swept, i)
  }

  /** Poll rounds, one after the other, turn the registry `start` into `now`, taking `out`. */
  ghost predicate Rounds(start: seq<Queue>, out: seq<Item>, now: seq<Queue>)
    decreases |out|
  {
    if out == [] then start == now
    else exists mid :: Rounds(start, Init(out), mid) && Round(mid, Last(out), now)
  }

  function Init(out: seq<Item>): seq<Item>
    requires out != []
  {
    out[..|out| - 1]
  }

  function Last(out: seq<Item>): Item
    requires out != []
  {
    out[|out| - 1]
  }

  lemma {:induction false} AllMember(reg: seq<Queue>, x: Item)
    ensures x in All(reg) <==> exists j | 0 <= j < |reg| :: x in reg[j]
  {
    if reg == [] {
    } else {
      AllMember(reg[1..], x);
      if j :| 0 <= j < |reg| && x in reg[j] {
        if j > 0 { assert reg[1..][j - 1] == reg[j]; }
      }
      if x in All(reg) && x !in reg[0] {
        var j :| 0 <= j < |reg[1..]| && x in reg[1..][j];
        assert x in reg[j + 1];
      }
    }
  }

  lemma {:induction false} DropsEmptyOk(a: seq<Queue>, b: seq<Queue>)
    requires DropsEmpty(a, b)
    ensures All(a) == All(b)
    ensures forall j | 0 <= j < |b| :: exists i | 0 <= i < |a| :: a[i] == b[j]
  {
    if a == [] {
    } else if b != [] && a[0] == b[0] && DropsEmpty(a[1..], b[1..]) {
      DropsEmptyOk(a[1..], b[1..]);
      forall j | 0 <= j < |b| ensures exists i | 0 <= i < |a| :: a[i] == b[j] {
        if j == 0 { assert a[0] == b[0]; }
        else {
          var i :| 0 <= i < |a[1..]| && a[1..][i] == b[1..][j - 1];
          assert a[i + 1] == b[j];
        }
      }
    } else {
      DropsEmptyOk(a[1..], b);
      forall j | 0 <= j < |b| ensures exists i | 0 <= i < |a| :: a[i] == b[j] {
        var i :| 0 <= i < |a[1..]| && a[1..][i] == b[j];
        assert a[i + 1] == b[j];
      }
    }
  }

  lemma {:induction false} DropsEmptyRegistry(a: seq<Queue>, b: seq<Queue>)
    requires DropsEmpty(a, b) && RegistryOk(a)
    ensures RegistryOk(b)
  {
    if a == [] {
    } else {
      assert RegistryOk(a[1..]);
      if b != [] && a[0] == b[0] && DropsEmpty(a[1..], b[1..]) {
        DropsEmptyRegistry(a[1..], b[1..]);
        DropsEmptyOk(a[1..], b[1..]);
        ConsRegistry(a, b);
      } else {
        DropsEmptyRegistry(a[1..], b);
      }
    }
  }

  lemma ConsRegistry(a: seq<Queue>, b: seq<Queue>)
    requires a != [] && b != [] && a[0] == b[0] && RegistryOk(a) && RegistryOk(b[1..])
    requires forall j | 0 <= j < |b[1..]| :: exists i | 0 <= i < |a[1..]| :: a[1..][i] == b[1..][j]
    ensures RegistryOk(b)
  {
    forall i | 0 <= i < |b| ensures QueueOk(b[i]) {
      if i > 0 { assert b[i] == b[1..][i - 1]; }
    }
    forall i, j | 0 <= i < j < |b| ensures Before(b[i], b[j]) {
      if i > 0 {
        assert Before(b[1..][i - 1], b[1..][j - 1]);
      } else {
        var k :| 0 <= k < |a[1..]| && a[1..][k] == b[1..][j - 1];
        assert Before(a[0], a[k + 1]);
      }
    }
  }

  lemma {:induction false} TakeAll(reg: seq<Queue>, i: nat)
    requires i < |reg| && reg[i] != []
    ensures All(reg) == All(Take(reg, i)) + multiset{reg[i][0]}
  {
    if i == 0 {
      assert reg[0] == [reg[0][0]] + reg[0][1..];
      assert Take(reg, 0)[1..] == reg[1..];
    } else {
      TakeAll(reg[1..], i - 1);
      assert Take(reg, i)[1..] == Take(reg[1..], i - 1);
    }
  }

  lemma TakeRegistry(reg: seq<Queue>, i: nat)
    requires RegistryOk(reg) && i < |reg| && reg[i] != []
    ensures RegistryOk(Take(reg, i))
  {
    assert QueueOk(reg[i]);
    var reg' := Take(reg, i);
    forall j | 0 <= j < |reg'| ensures QueueOk(reg'[j]) {
      if j == i {
        forall k | 0 <= k < |reg'[i]|
          ensures reg'[i][k].rank == reg'[i][0].rank && reg'[i][k].stamp < NO_STAMP
        {
          assert reg'[i][k] == reg[i][k + 1] && reg'[i][0] == reg[i][1];
        }
      }
    }
    forall j, k | 0 <= j < k < |reg'| ensures Before(reg'[j], reg'[k]) {
      assert Before(reg[j], reg[k]);
    }
  }

  /** The head chosen by the scan precedes every record left pending. */
  lemma EarliestIsLeast(reg: seq<Queue>, i: nat, x: Item)
    requires RegistryOk(reg) && IsEarliest(reg, i)
    requires x in All(Take(reg, i))
    ensures Less(reg[i][0], x)
  {
    AllMember(Take(reg, i), x);
    var j :| 0 <= j < |reg| && x in Take(reg, i)[j];
    if j == i {
      HeadIsLeast(reg[i], x);
    } else {
      OtherIsLater(reg, i, j, x);
    }
  }

  lemma HeadIsLeast(q: Queue, x: Item)
    requires QueueOk(q) && q != [] && x in q[1..]
    ensures Less(q[0], x)
  {
    var k :| 0 <= k < |q[1..]| && q[1..][k] == x;
    assert q[k + 1] == x;
  }

  lemma OtherIsLater(reg: seq<Queue>, i: nat, j: nat, x: Item)
    requires RegistryOk(reg) && IsEarliest(reg, i) && j < |reg| && j != i && x in reg[j]
    ensures Less(reg[i][0], x)
  {
    assert QueueOk(reg[j]);
    var k :| 0 <= k < |reg[j]| && reg[j][k] == x;
    assert k > 0 ==> Less(reg[j][0], reg[j][k]);
    if i < j { assert Before(reg[i], reg[j]); }
  }

  lemma RoundKeeps(reg: seq<Queue>, item: Item, reg': seq<Queue>)
    requires RegistryOk(reg) && Round(reg, item, reg')
    ensures RegistryOk(reg')
    ensures All(reg) == All(reg') + multiset{item}
    ensures Precedes(item, All(reg'))
  {
    var swept, i: nat :|
      DropsEmpty(reg, swept) && IsEarliest(swept, i) && item == swept[i][0] && reg' == Take(swept, i);
    DropsEmptyOk(reg, swept);
    DropsEmptyRegistry(reg, swept);
    TakeAll(swept, i);
    TakeRegistry(swept, i);
    forall x | x in All(reg') ensures Less(item, x) { EarliestIsLeast(swept, i, x); }
  }

  /** `out` was taken, in order, from the registry `start`, and `now` is left. */
  ghost predicate Merged(start: seq<Queue>, out: seq<Item>, now: seq<Queue>) {
    && Ascending(out)
    && multiset(out) + All(now) == All(start)
    && (forall x | x in out :: Precedes(x, All(now)))
    && RegistryOk(now)
  }

  ghost predicate Precedes(x: Item, rest: multiset<Item>) {
    forall y | y in rest :: Less(x, y)
  }

  lemma MergeOneMore(start: seq<Queue>, out: seq<Item>, reg: seq<Queue>, item: Item, reg': seq<Queue>)
    requires Merged(start, out, reg) && Round(reg, item, reg')
    ensures Merged(start, out + [item], reg')
  {
    RoundKeeps(reg, item, reg');
    assert item in All(reg);
    AscendingAppend(out, item, All(reg));
    forall x | x in out + [item] ensures Precedes(x, All(reg')) {
      if x in out {
        assert Precedes(x, All(reg));
      }
    }
    assert multiset(out + [item]) == multiset(out) + multiset{item};
  }

  lemma AscendingAppend(out: seq<Item>, item: Item, rest: multiset<Item>)
    requires Ascending(out) && item in rest && forall x | x in out :: Precedes(x, rest)
    ensures Ascending(out + [item])
  {
    forall i, j | 0 <= i < j < |out + [item]| ensures Less((out + [item])[i], (out + [item])[j]) {
      if j == |out| {
        assert out[i] in out;
      }
    }
  }

  lemma MergeLast(start: seq<Queue>, out: seq<Item>, mid: seq<Queue>, now: seq<Queue>)
    requires out != [] && Merged(start, Init(out), mid) && Round(mid, Last(out), now)
    ensures Merged(start, out, now)
  {
    MergeOneMore(start, Init(out), mid, Last(out), now);
    assert out == Init(out) + [Last(out)];
  }

  /**
    The k-way merge: whatever poll rounds have taken is in ascending order, precedes everything
    still pending, and together with it is exactly what was pending at the start.
   */
  lemma {:induction false} RoundsMerge(start: seq<Queue>, out: seq<Item>, now: seq<Queue>)
    requires Rounds(start, out, now) && RegistryOk(start)
    ensures Merged(start, out, now)
    ensures multiset(out) + All(now) == All(start)
    ensures forall i, j | 0 <= i < j < |out| ::
              out[i].stamp < out[j].stamp || (out[i].stamp == out[j].stamp && out[i].rank <= out[j].rank)
    decreases |out|
  {
    if out == [] {
    } else {
      var mid :| Rounds(start, Init(out), mid) && Round(mid, Last(out), now);
      RoundsMerge(start, Init(out), mid);
      MergeLast(start, out, mid, now);
    }
  }

  lemma {:induction false} EarliestOf(reg: seq<Queue>) returns (i: nat)
    requires RegistryOk(reg) && All(reg) != multiset{}
    ensures IsEarliest(reg, i)
  {
    var rest := reg[1..];
    assert RegistryOk(rest);
    if All(rest) == multiset{} {
      assert forall j | 0 < j < |reg| :: reg[j] == rest[j - 1];
      forall j | 0 <= j < |rest| ensures rest[j] == [] {
        if rest[j] != [] { AllMember(rest, rest[j][0]); }
      }
      assert QueueOk(reg[0]);
      i := 0;
    } else {
      i := EarliestOf(rest);
      i := EarliestCons(reg, i);
    }
  }

  lemma EarliestCons(reg: seq<Queue>, k: nat) returns (i: nat)
    requires reg != [] && IsEarliest(reg[1..], k) && QueueOk(reg[0])
    ensures IsEarliest(reg, i)
  {
    assert forall j | 0 < j < |reg| :: reg[j] == reg[1..][j - 1];
    i := if reg[0] != [] && reg[0][0].stamp <= reg[k + 1][0].stamp then 0 else k + 1;
  }

  /** With everything taken, the output is the one ascending arrangement of what was pending. */
  lemma DrainedOutputIsTheSort(start: seq<Queue>, out: seq<Item>, now: seq<Queue>, sorted: seq<Item>)
    requires Rounds(start, out, now) && RegistryOk(start) && All(now) == multiset{}
    requires Ascending(sorted) && multiset(sorted) == All(start)
    ensures out == sorted
  {
    RoundsMerge(start, out, now);
    AscendingUnique(out, sorted);
  }

  lemma SameFirst(a: seq<Item>, b: seq<Item>)
    requires Ascending(a) && Ascending(b) && multiset(a) == multiset(b) && a != []
    ensures b != [] && a[0] == b[0]
  {
    assert a[0] in multiset(b);
    assert b[0] in multiset(a);
  }

  lemma SameRest(a: seq<Item>, b: seq<Item>)
    requires a != [] && b != [] && a[0] == b[0] && multiset(a) == multiset(b)
    ensures multiset(a[1..]) == multiset(b[1..])
  {
    assert a == [a[0]] + a[1..] && b == [b[0]] + b[1..];
    assert multiset(a[1..]) == multiset(a) - multiset{a[0]};
    assert multiset(b[1..]) == multiset(b) - multiset{b[0]};
  }

  lemma {:induction false} AscendingUnique(a: seq<Item>, b: seq<Item>)
    requires Ascending(a) && Ascending(b) && multiset(a) == multiset(b)
    ensures a == b
  {
    if a == [] {
      assert |multiset(b)| == 0;
    } else {
      SameFirst(a, b);
      SameRest(a, b);
      AscendingUnique(a[1..], b[1..]);
      assert a == [a[0]] + a[1..] && b == [b[0]] + b[1..];
    }
  }
}
