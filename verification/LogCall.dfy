/** One logging statement, from its arguments to the published record, and the way back to text. */
module LogCall {
  import opened Bytes
  import opened Format
  import opened Arguments
  import opened StagingLayout
  import opened StagingBuffers
  import opened LogBuffers
  import opened Decoder
  import opened RoundTrip

  /** The fields of an entry: timestamp, entry size, the call site's static data, its size array, arguments. */
  function Entry(stamp: nat, info: nat, sizesAt: nat, payload: seq<byte>): (r: Record)
    ensures |r| == HEADER_SIZE + |payload|
  {
    LeBytes(stamp, 8) + (LeBytes(HEADER_SIZE + |payload|, 8) + ((LeBytes(info, 8) + LeBytes(sizesAt, 8)) + payload))
  }

  /** Where the fields of an entry lie. */
  lemma EntryWellFormed(stamp: nat, info: nat, sizesAt: nat, payload: seq<byte>)
    requires 32 + |payload| < WORD64
    ensures var r := Entry(stamp, info, sizesAt, payload);
            && WellFormed(r) && |r| == 32 + |payload|
            && r[..8] == LeBytes(stamp, 8) && r[8..16] == LeBytes(|r|, 8)
            && r[16..24] == LeBytes(info, 8) && r[24..32] == LeBytes(sizesAt, 8) && r[32..] == payload
  {
    var r := Entry(stamp, info, sizesAt, payload);
    FiveFields(LeBytes(stamp, 8), LeBytes(|r|, 8), LeBytes(info, 8), LeBytes(sizesAt, 8), payload);
    assert LeValue(LeBytes(|r|, 8)) == |r| by {
      Pow256Values();
      LeRoundTrip(|r|, 8);
    }
  }

  lemma FiveFields(a: seq<byte>, b: seq<byte>, c: seq<byte>, d: seq<byte>, rest: seq<byte>)
    requires |a| == |b| == |c| == |d| == 8
    ensures var r := a + (b + ((c + d) + rest));
            r[..8] == a && r[8..16] == b && r[16..24] == c && r[24..32] == d && r[32..] == rest
  {
  }

  /** Four writes, the last in front, make one. */
  lemma WroteEntry(s0: seq<byte>, s1: seq<byte>, s2: seq<byte>, s3: seq<byte>, s4: seq<byte>, pos: nat,
                   stamp: seq<byte>, size: seq<byte>, pointers: seq<byte>, payload: seq<byte>)
    requires |stamp| == |size| == 8 && |pointers| == 16
    requires Wrote(s0, s1, pos + 16, pointers) && Wrote(s1, s2, pos + 32, payload)
    requires Wrote(s2, s3, pos + 8, size) && Wrote(s3, s4, pos, stamp)
    ensures Wrote(s0, s4, pos, stamp + (size + (pointers + payload)))
  {
    WroteTwice(s0, s1, s2, pos + 16, pointers, payload);
    WroteBefore(s0, s2, s3, pos + 8, size, pointers + payload);
    WroteBefore(s0, s3, s4, pos, stamp, size + (pointers + payload));
  }

  lemma WroteBefore(s0: seq<byte>, s1: seq<byte>, s2: seq<byte>, pos: nat, a: seq<byte>, b: seq<byte>)
    requires Wrote(s0, s1, pos + |a|, b) && Wrote(s1, s2, pos, a)
    ensures Wrote(s0, s2, pos, a + b)
  {
    var mid, end := pos + |a|, pos + |a| + |b|;
    assert s2[mid..end] == s1[mid..end];
    assert s2[pos..end] == s2[pos..mid] + s2[mid..end];
  }

  /** Fills in a reserved entry: the pointers, the arguments, the size, and last the timestamp. */
  method FillEntry(storage: array<byte>, pos: nat, total: nat, info: nat, sizesAt: nat, types: seq<ParamType>,
                   slots: seq<nat>, args: seq<Arg>, stamp: nat)
    requires Within(types, args, slots) && NoneTooLong(types, args, slots, 0)
    requires total == HEADER_SIZE + |Packed(types, args, slots, 0)| && pos + total <= storage.Length
    modifies storage
    ensures Wrote(old(storage[..]), storage[..], pos, Entry(stamp, info, sizesAt, Packed(types, args, slots, 0)))
  {
    ghost var s0 := storage[..];
    CopyBytes(storage, pos + 16, LeBytes(info, 8) + LeBytes(sizesAt, 8));
    ghost var s1 := storage[..];
    var ok, next := StoreArguments(types, slots, storage, pos + HEADER_SIZE, args, 0,
                                   Packed(types, args, slots, 0));
    ghost var s2 := storage[..];
    CopyBytes(storage, pos + 8, LeBytes(total, 8));
    ghost var s3 := storage[..];
    CopyBytes(storage, pos, LeBytes(stamp, 8));
    WroteEntry(s0, s1, s2, s3, storage[..], pos, LeBytes(stamp, 8), LeBytes(total, 8),
               LeBytes(info, 8) + LeBytes(sizesAt, 8), Packed(types, args, slots, 0));
  }

  /** What is stored for one string is less than what is stored in all. */
  lemma {:induction false} SlotsBelowTotal(types: seq<ParamType>, args: seq<Arg>, before: seq<nat>, slots: seq<nat>,
                                           i: nat)
    requires i <= |args| <= |types| && SizedFrom(types, args, before, slots, 0) && PackedSize(types, args, i) < WORD32
    ensures NoneTooLong(types, args, slots, i)
    decreases |args| - i
  {
    if i == |args| {
    } else {
      SlotsBelowTotal(types, args, before, slots, i + 1);
    }
  }

  /** Writes in a reserved range leave the published records alone. */
  lemma ReservedFrame(buffer: StagingBuffer, before: seq<byte>, bytes: seq<byte>)
    requires Layout(before, buffer.producerPos, buffer.consumerPos, buffer.endOfRecordedSpace, buffer.tail,
                    buffer.recent)
    requires FreeBound(|before|, buffer.producerPos, buffer.consumerPos, buffer.minFreeSpace)
    requires Wrote(before, buffer.storage[..], buffer.producerPos, bytes)
    requires forall i: nat | buffer.producerPos <= i < buffer.producerPos + |bytes| ::
               !Unread(buffer.producerPos, buffer.consumerPos, buffer.endOfRecordedSpace, i)
    ensures buffer.Valid()
  {
    LayoutFrame(before, buffer.storage[..], buffer.producerPos, buffer.consumerPos, buffer.endOfRecordedSpace,
                buffer.tail, buffer.recent);
  }

  /** From a granted reservation to a visible record. */
  method FillAndPublish(buffer: StagingBuffer, total: nat, info: nat, sizesAt: nat, types: seq<ParamType>,
                        slots: seq<nat>, args: seq<Arg>, stamp: nat)
    requires buffer.Valid() && Within(types, args, slots) && NoneTooLong(types, args, slots, 0)
    requires total == HEADER_SIZE + |Packed(types, args, slots, 0)| < WORD64
    requires total < buffer.minFreeSpace && buffer.producerPos + total < buffer.storage.Length
    requires forall i: nat | buffer.producerPos <= i < buffer.producerPos + total ::
               !Unread(buffer.producerPos, buffer.consumerPos, buffer.endOfRecordedSpace, i)
    modifies buffer.storage, buffer`producerPos, buffer`minFreeSpace, buffer`recent
    ensures buffer.Valid()
    ensures buffer.Pending() == old(buffer.Pending()) + [Entry(stamp, info, sizesAt, Packed(types, args, slots, 0))]
  {
    ghost var before := buffer.storage[..];
    ghost var entry := Entry(stamp, info, sizesAt, Packed(types, args, slots, 0));
    FillEntry(buffer.storage, buffer.producerPos, total, info, sizesAt, types, slots, args, stamp);
    ReservedFrame(buffer, before, entry);
    assert WellFormed(entry) && |entry| == total by {
      EntryWellFormed(stamp, info, sizesAt, Packed(types, args, slots, 0));
    }
    assert buffer.storage[buffer.producerPos..buffer.producerPos + total] == entry;
    buffer.FinishReservation(total);
  }

  method ReserveAndPublish(buffer: StagingBuffer, total: nat, info: nat, sizesAt: nat, types: seq<ParamType>,
                           slots: seq<nat>, args: seq<Arg>, stamp: nat)
    returns (published: bool)
    requires buffer.Valid() && buffer.storage.Length <= WORD32 && Within(types, args, slots)
    requires total == 32 + |Packed(types, args, slots, 0)|
    requires total < WORD32 ==> NoneTooLong(types, args, slots, 0)
    modifies buffer.storage
    modifies buffer`producerPos, buffer`endOfRecordedSpace, buffer`minFreeSpace, buffer`tail, buffer`recent
    ensures buffer.Valid()
    ensures published <==> old(buffer.HasRoom(total))
    ensures buffer.Pending() == old(buffer.Pending()) +
              if published then [Entry(stamp, info, sizesAt, Packed(types, args, slots, 0))] else []
  {
    var pos := buffer.ReserveProducerSpace(total);
    if pos.Some? {
      FillAndPublish(buffer, total, info, sizesAt, types, slots, args, stamp);
    }
    published := pos.Some?;
  }

  /**
    The logging statement: size, reserve, fill in, publish. It either publishes one complete record
    behind all pending ones, or finds no room, where the blocking mode waits, and changes nothing that the
    consumer can see. No string is ever too long for its header, because the entry would not fit.
   */
  method StaticLog(buffer: StagingBuffer, types: seq<ParamType>, sizes: array<nat>, info: nat, sizesAt: nat,
                   args: seq<Arg>, stamp: nat)
    returns (published: bool)
    requires buffer.Valid() && buffer.storage.Length <= WORD32
    requires |args| == |types| <= sizes.Length && ArgsOk(args)
    modifies sizes, buffer.storage
    modifies buffer`producerPos, buffer`endOfRecordedSpace, buffer`minFreeSpace, buffer`tail, buffer`recent
    ensures buffer.Valid()
    ensures SizedFrom(types, args, old(sizes[..]), sizes[..], 0) && Within(types, args, sizes[..])
    ensures published <==> old(buffer.HasRoom(32 + PackedSize(types, args, 0)))
    ensures buffer.Pending() == old(buffer.Pending()) +
              if published then [Entry(stamp, info, sizesAt, Packed(types, args, sizes[..], 0))] else []
  {
    var total := GetArgSizes(types, WORD64 - 1, sizes, args, 0);
    total := total + HEADER_SIZE;
    ghost var before := old(sizes[..]);
    var slots := sizes[..];
    SizedWithin(types, args, before, slots);
    assert total == 32 + |Packed(types, args, slots, 0)| by { SizeConservation(types, args, before, slots, 0); }
    if total < WORD32 {
      SlotsBelowTotal(types, args, before, slots, 0);
    }
    published := ReserveAndPublish(buffer, total, info, sizesAt, types, slots, args, stamp);
  }

  /** Everything behind the timestamp of a delivered record is as it was stored. */
  lemma FieldsOfBody(r: Record, stamp: nat, info: nat, sizesAt: nat, payload: seq<byte>)
    requires |r| >= STAMP_SIZE && Body(r) == Body(Entry(stamp, info, sizesAt, payload))
    requires info < WORD64 && sizesAt < WORD64
    ensures |r| == HEADER_SIZE + |payload| && r[HEADER_SIZE..] == payload
    ensures LeValue(r[16..24]) == info && LeValue(r[24..32]) == sizesAt
  {
    var e := Entry(stamp, info, sizesAt, payload);
    FiveFields(LeBytes(stamp, 8), LeBytes(|e|, 8), LeBytes(info, 8), LeBytes(sizesAt, 8), payload);
    assert |r[STAMP_SIZE..]| == |e[STAMP_SIZE..]|;
    SameBehindStamp(r, e, 16, 24);
    SameBehindStamp(r, e, 24, 32);
    SameBehindStamp(r, e, 32, |r|);
    assert r[32..] == r[32..|r|] && e[32..] == e[32..|e|] == payload;
    Pow256Values();
    LeRoundTrip(info, 8);
    LeRoundTrip(sizesAt, 8);
  }

  lemma SameBehindStamp(r: Record, e: Record, a: nat, b: nat)
    requires STAMP_SIZE <= a <= b <= |r| == |e| && r[STAMP_SIZE..] == e[STAMP_SIZE..]
    ensures r[a..b] == e[a..b]
  {
    assert r[STAMP_SIZE..][a - STAMP_SIZE..b - STAMP_SIZE] == r[a..b];
    assert e[STAMP_SIZE..][a - STAMP_SIZE..b - STAMP_SIZE] == e[a..b];
  }

  /** The static data of a call site, as far as the decoder uses it. */
  datatype CallSite = CallSite(format: string, types: seq<ParamType>)

  /** A call site with a star-free format and short specifications, and arguments that match it. */
  predicate Sound(site: CallSite, args: seq<Arg>, slots: seq<nat>, sizes: seq<nat>) {
    var ps := Parse(site.format, 0);
    && Grammatical(ps) && StarCount(ps) == 0 && ShortSpecs(ps) && site.types == Params(ps)
    && Matches(site.types, args) && Within(site.types, args, slots) && NoneTooLong(site.types, args, slots, 0)
    && KnowsScalars(args, sizes)
  }

  /**
    Formatting a delivered record, whatever timestamp it carries by now. The record's own bytes say
    where its call site's static data and size array are; with those the decoder reports no failure,
    the end it returns accounts for the whole line, and a line that fits is in the buffer, every
    specification rendered on its own argument.
   */
  method FormatEntry(log: LogBuffer, render: Renderer, sites: map<nat, CallSite>, sizeArrays: map<nat, seq<nat>>,
                     r: Record, startPos: nat, ghost args: seq<Arg>, ghost slots: seq<nat>, ghost stamp: nat,
                     ghost info: nat, ghost sizesAt: nat)
    returns (out: Outcome)
    requires log.Valid() && startPos <= log.len
    requires info < WORD64 && sizesAt < WORD64 && info in sites && sizesAt in sizeArrays
    requires Sound(sites[info], args, slots, sizeArrays[sizesAt])
    requires |r| >= STAMP_SIZE
    requires Body(r) == Body(Entry(stamp, info, sizesAt, Packed(sites[info].types, args, slots, 0)))
    modifies log, log.data
    ensures !out.Failed?
    ensures var line := Expected(render, Parse(sites[info].format, 0), args, slots, 0);
            && (out.Done? ==>
                  && log.Valid() && out.end == startPos + |line| <= log.len
                  && log.data[..startPos] == old(log.data[..startPos])
                  && Shows(log.data[..], startPos, line, old(log.len) - 1))
            && (startPos + |line| < old(log.len) ==>
                  out.Done? && log.data == old(log.data) && log.data[startPos..out.end] == line)
  {
    FieldsOfBody(r, stamp, info, sizesAt, Packed(sites[info].types, args, slots, 0));
    var site, sizes := sites[LeValue(r[16..24])], sizeArrays[LeValue(r[24..32])];
    ghost var ps := Parse(site.format, 0);
    DecodeEncode(render, ps, site.types, args, slots, sizes, r[HEADER_SIZE..]);
    GrammaticalComplete(ps);
    out := ProcessFmt(log, render, site.format, site.types, sizes, r[HEADER_SIZE..], startPos);
  }
}
