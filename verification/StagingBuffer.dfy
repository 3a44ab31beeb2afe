/** The staging buffer itself: a fixed byte array and positions into it, used one call at a time. */
module StagingBuffers {
  import opened Bytes
  import opened StagingLayout
  import Q = StagingProtocol
  import StagingProgress

  datatype Option<T> = None | Some(value: T)

  /** What one turn of the loop comes to, field by field. */
  lemma TurnResult(s: Q.State)
    requires s.prod.LoopHead? && s.free <= s.prod.n && s.p < |s.st| && s.c < |s.st|
    ensures var (n, t) := (s.prod.n, StagingProgress.Iterate(s));
            && t == s.(p := t.p, e := t.e, free := t.free, prod := t.prod, tail := t.tail, recent := t.recent)
            && t.prod == (if t.free > n then Q.Reserved(n) else Q.LoopHead(n))
            && (if s.c > s.p then t.p == s.p && t.e == s.e && t.free == s.c - s.p
                else if |s.st| - s.p > n then t.p == s.p && t.e == s.e && t.free == |s.st| - s.p
                else if s.c == 0 then t.p == s.p && t.e == s.p && t.free == |s.st| - s.p
                else t.p == 0 && t.e == s.p && t.free == s.c)
            && (if t.p == s.p then t.tail == s.tail && t.recent == s.recent
                else t.tail == s.recent && t.recent == [])
  {
  }

  class StagingBuffer {
    const storage: array<byte>
    const id: nat
    var producerPos: nat
    var endOfRecordedSpace: nat
    var minFreeSpace: nat
    var consumerPos: nat
    var shouldDeallocate: bool

    /** Unread records of the old lap and of the current one; see `Layout`. */
    ghost var tail: seq<Record>
    ghost var recent: seq<Record>
    ghost var consumed: seq<Record>

    ghost predicate Valid()
      reads this, storage
    {
      && Layout(storage[..], producerPos, consumerPos, endOfRecordedSpace, tail, recent)
      && FreeBound(storage.Length, producerPos, consumerPos, minFreeSpace)
    }

    /** The records published and not consumed yet, oldest first. */
    ghost function Pending(): seq<Record>
      reads this
    {
      tail + recent
    }

    /** The records that one `peek` can show: those before the wrap point, if there is one. */
    ghost function Contiguous(): seq<Record>
      reads this
    {
      Front(producerPos, consumerPos, tail, recent)
    }

    /** This buffer as a state of the protocol, with no `peek` under way or on offer. */
    ghost function AsProtocol(prod: Q.Producer): Q.State
      reads this, storage
    {
      Q.State(storage[..], producerPos, consumerPos, endOfRecordedSpace, minFreeSpace, shouldDeallocate, prod,
              Q.AtRest, 0, 0, tail, recent, consumed + Pending(), consumed, false)
    }

    /** The producer's side of this buffer is that of the protocol state `s`. */
    ghost predicate Stands(s: Q.State)
      reads this
    {
      && producerPos == s.p && endOfRecordedSpace == s.e && minFreeSpace == s.free
      && tail == s.tail && recent == s.recent
    }

    /** `nbytes` can be placed where the producer stands or at the front. */
    ghost predicate HasRoom(nbytes: nat)
      reads this
    {
      || Placeable(storage.Length, producerPos, consumerPos, endOfRecordedSpace, producerPos, nbytes)
      || Placeable(storage.Length, producerPos, consumerPos, endOfRecordedSpace, 0, nbytes)
    }

    constructor (capacity: nat, bufferId: nat)
      requires capacity > 0
      ensures Valid() && fresh(storage) && storage.Length == capacity && id == bufferId
      ensures Pending() == [] && consumed == [] && !shouldDeallocate
      ensures producerPos == consumerPos == 0 && endOfRecordedSpace == minFreeSpace == capacity
    {
      storage := new byte[capacity](_ => 0);
      id := bufferId;
      producerPos, consumerPos := 0, 0;
      endOfRecordedSpace, minFreeSpace := capacity, capacity;
      shouldDeallocate := false;
      tail, recent, consumed := [], [], [];
    }

    /**
      Reserves `nbytes` contiguous bytes, giving up where the blocking mode would wait for the consumer. It
      does what the protocol's producer does, and succeeds exactly when there is a place, however stale
      `minFreeSpace` is.
     */
    method ReserveProducerSpace(nbytes: nat) returns (pos: Option<nat>)
      requires Valid()
      modifies this`producerPos, this`endOfRecordedSpace, this`minFreeSpace, this`tail, this`recent
      ensures Valid()
      ensures AsProtocol(if pos.Some? then Q.Reserved(nbytes) else Q.Idle) ==
              StagingProgress.TryReserve(old(AsProtocol(Q.Idle)), nbytes)
      ensures pos.Some? <==> old(HasRoom(nbytes))
      ensures pos.Some? ==>
                && pos.value == producerPos && nbytes < minFreeSpace
                && producerPos + nbytes < storage.Length
                && forall i: nat | producerPos <= i < producerPos + nbytes ::
                     !Unread(producerPos, consumerPos, endOfRecordedSpace, i)
      ensures Pending() == old(Pending())
    {
      StagingProgress.TryReserveDecides(AsProtocol(Q.Idle), nbytes);
      if nbytes < minFreeSpace {
        return Some(producerPos);
      }
      pos := ReserveSpaceInternal(nbytes);
    }

    /** The slow path in its non-blocking mode: one turn of the protocol's loop. */
    method ReserveSpaceInternal(nbytes: nat) returns (pos: Option<nat>)
      requires Valid()
      modifies this`producerPos, this`endOfRecordedSpace, this`minFreeSpace, this`tail, this`recent
      ensures Valid()
      ensures var turned := StagingProgress.Iterate(old(AsProtocol(Q.LoopHead(nbytes))));
              Stands(turned) && turned.prod == if pos.Some? then Q.Reserved(nbytes) else Q.LoopHead(nbytes)
      ensures pos.Some? ==> pos.value == producerPos && nbytes < minFreeSpace
      ensures Pending() == old(Pending())
    {
      ghost var start, pending := AsProtocol(Q.LoopHead(nbytes)), Pending();
      while minFreeSpace <= nbytes
        invariant Valid() && Pending() == pending
        invariant if minFreeSpace > nbytes then
                    var turned := StagingProgress.Iterate(start);
                    Stands(turned) && turned.prod == Q.Reserved(nbytes)
                  else AsProtocol(Q.LoopHead(nbytes)) == start
        decreases nbytes + 1 - minFreeSpace
      {
        Turn(nbytes);
        if minFreeSpace <= nbytes {
          return None;
        }
      }
      return Some(producerPos);
    }

    /** The body of the loop: looks at the consumer position once, and wraps if there is no room behind. */
    method Turn(nbytes: nat)
      requires Valid() && minFreeSpace <= nbytes
      modifies this`producerPos, this`endOfRecordedSpace, this`minFreeSpace, this`tail, this`recent
      ensures Valid() && Pending() == old(Pending())
      ensures var turned := StagingProgress.Iterate(old(AsProtocol(Q.LoopHead(nbytes))));
              && Stands(turned)
              && turned.prod == if minFreeSpace > nbytes then Q.Reserved(nbytes) else Q.LoopHead(nbytes)
    {
      TurnResult(AsProtocol(Q.LoopHead(nbytes)));
      var cachedConsumerPos := consumerPos;
      if cachedConsumerPos <= producerPos {
        minFreeSpace := storage.Length - producerPos;
        if minFreeSpace > nbytes {
          return;
        }
        endOfRecordedSpace := producerPos;
        if cachedConsumerPos != 0 {
          LayoutWrap(storage[..], producerPos, consumerPos, endOfRecordedSpace, tail, recent);
          producerPos := 0;
          tail, recent := recent, [];
          minFreeSpace := cachedConsumerPos - producerPos;
        }
      } else {
        minFreeSpace := cachedConsumerPos - producerPos;
      }
    }

    /** Makes the reserved bytes visible as one record. The caller has filled in a complete entry. */
    method FinishReservation(nbytes: nat)
      requires Valid() && nbytes < minFreeSpace
      requires producerPos + nbytes <= storage.Length && WellFormed(storage[producerPos..producerPos + nbytes])
      modifies this`producerPos, this`minFreeSpace, this`recent
      ensures Valid()
      ensures Pending() == old(Pending() + [storage[producerPos..producerPos + nbytes]])
      ensures minFreeSpace == old(minFreeSpace) - nbytes > 0
    {
      assert producerPos + nbytes < storage.Length;
      LayoutPublish(storage[..], producerPos, consumerPos, endOfRecordedSpace, tail, recent, nbytes);
      recent := recent + [storage[..][producerPos..producerPos + nbytes]];
      minFreeSpace := minFreeSpace - nbytes;
      producerPos := producerPos + nbytes;
    }

    /** Shows the contiguous unread bytes; it may roll the consumer over, but it consumes nothing. */
    method Peek() returns (head: nat, bytesAvailable: nat)
      requires Valid()
      modifies this`consumerPos
      ensures Valid()
      ensures head == consumerPos
      ensures bytesAvailable == 0 <==> Pending() == []
      ensures head + bytesAvailable <= storage.Length
      ensures storage[head..head + bytesAvailable] == Concat(Contiguous())
      ensures bytesAvailable > 0 ==> Contiguous() != [] && Contiguous() <= Pending()
      ensures bytesAvailable == 0 ==> consumerPos == producerPos
      ensures old(Contiguous()) != [] ==> consumerPos == old(consumerPos)
    {
      var cachedProducerPos := producerPos;
      if cachedProducerPos < consumerPos {
        bytesAvailable := endOfRecordedSpace - consumerPos;
        ConcatEmpty(tail);
        if bytesAvailable > 0 {
          return consumerPos, bytesAvailable;
        }
        LayoutRoll(storage[..], producerPos, consumerPos, endOfRecordedSpace, tail, recent);
        consumerPos := 0;
      }
      bytesAvailable := cachedProducerPos - consumerPos;
      ConcatEmpty(recent);
      head := consumerPos;
    }

    /** Hands the oldest record's bytes back to the producer. */
    method Consume(nbytes: nat)
      requires Valid() && Contiguous() != [] && nbytes == |Contiguous()[0]|
      modifies this`consumerPos, this`tail, this`recent, this`consumed
      ensures Valid()
      ensures old(Pending()) == [old(Contiguous()[0])] + Pending()
      ensures consumed == old(consumed) + [old(Contiguous()[0])]
    {
      LayoutConsume(storage[..], producerPos, consumerPos, endOfRecordedSpace, tail, recent);
      LayoutHead(storage[..], producerPos, consumerPos, endOfRecordedSpace, tail, recent);
      consumed := consumed + [Contiguous()[0]];
      if producerPos < consumerPos {
        tail := tail[1..];
      } else {
        recent := recent[1..];
      }
      consumerPos := consumerPos + nbytes;
    }

    /** Overwrites the timestamp of the oldest record with the time at which it is processed. */
    method RestampHead(stamp: seq<byte>)
      requires Valid() && Contiguous() != [] && |stamp| == STAMP_SIZE
      modifies storage, this`tail, this`recent
      ensures Valid()
      ensures |old(Contiguous()[0])| >= STAMP_SIZE
      ensures Pending() == RestampFirst(old(Pending()), stamp)
      ensures Contiguous() != [] && Contiguous() == RestampFirst(old(Contiguous()), stamp)
    {
      LayoutRestamp(storage[..], producerPos, consumerPos, endOfRecordedSpace, tail, recent, stamp);
      ghost var before := storage[..];
      ghost var rs := RestampFirst(Contiguous(), stamp);
      assert Pending() == [Contiguous()[0]] + Pending()[1..];
      forall i | 0 <= i < STAMP_SIZE {
        storage[consumerPos + i] := stamp[i];
      }
      assert storage[..] == Overwrite(before, consumerPos, stamp);
      if producerPos < consumerPos {
        tail := rs;
      } else {
        recent := rs;
      }
      assert Pending() == rs[..1] + old(Pending())[1..];
    }

    /** Deletion is allowed only for a retired buffer, and then nothing is pending. */
    method CheckCanDelete() returns (ok: bool)
      requires Valid()
      ensures ok <==> shouldDeallocate && consumerPos == producerPos
      ensures ok ==> Pending() == []
    {
      ok := shouldDeallocate && consumerPos == producerPos;
      if ok {
        LevelMeansEmpty(storage[..], producerPos, consumerPos, endOfRecordedSpace, tail, recent);
      }
    }

    method Retire()
      requires Valid()
      modifies this`shouldDeallocate
      ensures Valid() && shouldDeallocate
    {
      shouldDeallocate := true;
    }
  }
}
