/** The byte-level buffer seen as the backend's `BufferState`, and the backend's byte-level steps. */
module StagingView {
  import opened Bytes
  import opened StagingLayout
  import opened StagingBuffers
  import opened Merge
  import opened Backend

  function ItemOf(r: Record, rank: nat, index: nat): Item {
    Item(if |r| < STAMP_SIZE then 0 else StampOf(r), rank, index, Body(r))
  }

  function ItemsOf(rs: seq<Record>, rank: nat, first: nat): (q: Queue)
    ensures |q| == |rs|
    ensures forall i | 0 <= i < |q| :: q[i] == ItemOf(rs[i], rank, first + i)
  {
    seq(|rs|, i requires 0 <= i < |rs| => ItemOf(rs[i], rank, first + i))
  }

  /** What the backend sees of `b` when it is the `rank`-th registered buffer. */
  ghost function ViewOf(b: StagingBuffer, rank: nat): BufferState
    reads b
  {
    BufferState(b.id, ItemsOf(b.tail + b.recent, rank, |b.consumed|), b.shouldDeallocate,
                b.consumerPos == b.producerPos)
  }

  /** Level positions mean an empty queue. */
  lemma ViewCoherent(b: StagingBuffer, rank: nat)
    requires b.Valid()
    ensures Coherent(ViewOf(b, rank))
  {
    if b.consumerPos == b.producerPos {
      LevelMeansEmpty(b.storage[..], b.producerPos, b.consumerPos, b.endOfRecordedSpace, b.tail, b.recent);
    }
  }

  /** The deletion test on positions is the deletion test on the view. */
  method CheckCanDelete(b: StagingBuffer, ghost rank: nat) returns (ok: bool)
    requires b.Valid()
    ensures ok == CanDelete(ViewOf(b, rank))
  {
    ok := b.CheckCanDelete();
  }

  /** A `peek` on the bytes rolls the view over if it is empty and shows whether it is. */
  method Peek(b: StagingBuffer, ghost rank: nat) returns (bytesAvailable: nat)
    requires b.Valid()
    modifies b`consumerPos
    ensures b.Valid()
    ensures ViewOf(b, rank) == Peeked(old(ViewOf(b, rank)))
    ensures if bytesAvailable == 0 then ViewOf(b, rank).items == []
            else b.Contiguous() != [] && ViewOf(b, rank).items != []
  {
    ViewCoherent(b, rank);
    var head;
    head, bytesAvailable := b.Peek();
    if bytesAvailable > 0 {
      ViewCoherent(b, rank);
    }
  }

  /** The look a sweep takes at the timestamp of the record that `peek` shows. */
  method PeekStamp(b: StagingBuffer, ghost rank: nat) returns (stamp: Option<nat>)
    requires b.Valid()
    modifies b`consumerPos
    ensures b.Valid()
    ensures ViewOf(b, rank) == Peeked(old(ViewOf(b, rank)))
    ensures var items := ViewOf(b, rank).items; stamp == if items == [] then None else Some(items[0].stamp)
  {
    var bytesAvailable := Peek(b, rank);
    if bytesAvailable == 0 {
      return None;
    }
    var r, size := ReadHead(b);
    return Some(LeValue(r[..STAMP_SIZE]));
  }

  /** The oldest record, cut out of the storage by its own size field. */
  method ReadHead(b: StagingBuffer) returns (r: Record, size: nat)
    requires b.Valid() && b.Contiguous() != []
    ensures r == b.Contiguous()[0] == b.Pending()[0] && |r| >= HEADER_SIZE && size == |r|
  {
    LayoutHead(b.storage[..], b.producerPos, b.consumerPos, b.endOfRecordedSpace, b.tail, b.recent);
    var head := b.consumerPos;
    assert b.storage[..][head..][8..16] == b.storage[head + 8..head + 16];
    size := LeValue(b.storage[head + 8..head + 16]);
    r := b.storage[head..head + size];
  }

  lemma RestampItems(rs: seq<Record>, now: nat, rank: nat, first: nat)
    requires rs != [] && |rs[0]| >= STAMP_SIZE && now < Pow256(8)
    ensures var items := ItemsOf(rs, rank, first);
            ItemsOf(RestampFirst(rs, LeBytes(now, 8)), rank, first) == [items[0].(stamp := now)] + items[1..]
  {
    var stamp := LeBytes(now, 8);
    LeRoundTrip(now, 8);
    var r := Restamp(rs[0], stamp);
    assert r[..STAMP_SIZE] == stamp;
    assert Body(r) == Body(rs[0]);
  }

  lemma TailItems(rs: seq<Record>, rank: nat, first: nat)
    requires rs != []
    ensures ItemsOf(rs[1..], rank, first + 1) == ItemsOf(rs, rank, first)[1..]
  {
  }

  /** The queue `items` with a new timestamp on its oldest record. */
  function Restamped(items: Queue, now: nat): (r: Queue)
    requires items != []
    ensures r != [] && r[0].body == items[0].body && r[1..] == items[1..]
  {
    [items[0].(stamp := now)] + items[1..]
  }

  method StampHead(b: StagingBuffer, ghost rank: nat, now: nat)
    requires b.Valid() && b.Contiguous() != [] && now < Pow256(8)
    modifies b`tail, b`recent, b.storage
    ensures b.Valid() && b.Contiguous() != []
    ensures old(ViewOf(b, rank)).items != []
    ensures ViewOf(b, rank).items == Restamped(old(ViewOf(b, rank)).items, now)
  {
    ghost var records, first := b.Pending(), |b.consumed|;
    b.RestampHead(LeBytes(now, 8));
    RestampItems(records, now, rank, first);
  }

  method EmitHead(b: StagingBuffer, ghost rank: nat) returns (body: seq<byte>)
    requires b.Valid() && b.Contiguous() != []
    modifies b`consumerPos, b`tail, b`recent, b`consumed
    ensures b.Valid()
    ensures old(ViewOf(b, rank)).items != []
    ensures body == old(ViewOf(b, rank)).items[0].body && ViewOf(b, rank).items == old(ViewOf(b, rank)).items[1..]
  {
    var r, size := ReadHead(b);
    body := r[STAMP_SIZE..];
    TailItems(b.Pending(), rank, |b.consumed|);
    ghost var rest := b.Pending()[1..];
    b.Consume(size);
    assert b.Pending() == rest;
  }

  /** What `processLogBuffer` does to a non-empty view. */
  ghost predicate Processed(before: BufferState, ok: bool, now: nat, after: BufferState)
    requires before.items != []
  {
    && after.id == before.id && after.retired == before.retired
    && after.items == if ok then before.items[1..] else Restamped(before.items, now)
  }

  /**
    `processLogBuffer` on the bytes: peek, overwrite the timestamp, and, if the line was formatted and
    written, consume as many bytes as the entry's own size field says.
   */
  method ProcessLogBuffer(b: StagingBuffer, ghost rank: nat, now: nat, ok: bool) returns (line: Option<seq<byte>>)
    requires b.Valid() && now < Pow256(8)
    modifies b`consumerPos, b`tail, b`recent, b`consumed, b.storage
    ensures b.Valid()
    ensures old(ViewOf(b, rank)).items == [] ==> line == None && ViewOf(b, rank) == Peeked(old(ViewOf(b, rank)))
    ensures old(ViewOf(b, rank)).items != [] ==>
              && Processed(old(ViewOf(b, rank)), ok, now, ViewOf(b, rank))
              && line == if ok then Some(old(ViewOf(b, rank)).items[0].body) else None
  {
    var bytesAvailable := Peek(b, rank);
    line := None;
    if bytesAvailable > 0 {
      StampHead(b, rank, now);
      if ok {
        var body := EmitHead(b, rank);
        line := Some(body);
      }
    }
  }
}
