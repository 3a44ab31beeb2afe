/** Where the unread records of a staging buffer lie inside its storage. */
module StagingLayout {
  import opened Bytes

  /**
    `p`, `c` and `e` are the producer position, the consumer position and the end of recorded
    space. When `p < c` the producer has wrapped: the older records (`tail`) fill `[c, e)` and the
    newer ones (`recent`) fill `[0, p)`. Otherwise every unread record is in `[c, p)`.
   */
  ghost predicate Layout(st: seq<byte>, p: nat, c: nat, e: nat, tail: seq<Record>, recent: seq<Record>) {
    && p < |st|
    && c < |st|
    && AllWellFormed(tail)
    && AllWellFormed(recent)
    && (if p < c then c <= e < |st| && Concat(tail) == st[c..e] && Concat(recent) == st[..p]
        else tail == [] && Concat(recent) == st[c..p])
  }

  /** `free` is a sound lower bound on the contiguous room after `p`. */
  predicate FreeBound(capacity: nat, p: nat, c: nat, free: nat) {
    if p < c then free <= c - p else free <= capacity - p
  }

  /** Index `i` of the storage holds a byte that was published and not consumed yet. */
  predicate Unread(p: nat, c: nat, e: nat, i: nat) {
    if p < c then c <= i < e || i < p else c <= i < p
  }

  /**
    `n` bytes can be reserved at `at`: they end before the end of storage, none of them is unread, and
    writing them does not carry the producer up to the consumer or past it.
   */
  predicate Placeable(capacity: nat, p: nat, c: nat, e: nat, at: nat, n: nat) {
    && at + n < capacity
    && (forall i: nat | at <= i < at + n :: !Unread(p, c, e, i))
    && !(at < c <= at + n)
  }

  /** The records the consumer can reach without rolling over. */
  function Front(p: nat, c: nat, tail: seq<Record>, recent: seq<Record>): seq<Record> {
    if p < c then tail else recent
  }

  function ContiguousEnd(p: nat, c: nat, e: nat): nat {
    if p < c then e else p
  }

  /** Writes that leave every unread byte alone keep the layout. */
  lemma LayoutFrame(st: seq<byte>, st': seq<byte>, p: nat, c: nat, e: nat, tail: seq<Record>, recent: seq<Record>)
    requires Layout(st, p, c, e, tail, recent)
    requires |st'| == |st|
    requires forall i: nat | i < |st| && Unread(p, c, e, i) :: st'[i] == st[i]
    ensures Layout(st', p, c, e, tail, recent)
  {
    if p < c {
      assert st'[c..e] == st[c..e];
      assert st'[..p] == st[..p];
    } else {
      assert st'[c..p] == st[c..p];
    }
  }

  /** Publishing the `n` bytes at `p` appends them as one record. */
  lemma LayoutPublish(st: seq<byte>, p: nat, c: nat, e: nat, tail: seq<Record>, recent: seq<Record>, n: nat)
    requires Layout(st, p, c, e, tail, recent)
    requires p + n < |st| && (p < c ==> p + n < c)
    requires WellFormed(st[p..p + n])
    ensures Layout(st, p + n, c, e, tail, recent + [st[p..p + n]])
  {
    ConcatAppend(recent, [st[p..p + n]]);
    ConcatSingle(st[p..p + n]);
    if p < c {
      assert st[..p + n] == st[..p] + st[p..p + n];
    } else {
      assert st[c..p + n] == st[c..p] + st[p..p + n];
    }
  }

  /** Wrapping the producer moves all unread records to the old lap. */
  lemma LayoutWrap(st: seq<byte>, p: nat, c: nat, e: nat, tail: seq<Record>, recent: seq<Record>)
    requires Layout(st, p, c, e, tail, recent)
    requires 0 < c <= p
    ensures Layout(st, 0, c, p, recent, [])
  {
  }

  /** Rolling the consumer over is right exactly when the old lap is used up. */
  lemma LayoutRoll(st: seq<byte>, p: nat, c: nat, e: nat, tail: seq<Record>, recent: seq<Record>)
    requires Layout(st, p, c, e, tail, recent)
    requires p < c && e == c
    ensures tail == []
    ensures Layout(st, p, 0, e, [], recent)
  {
    ConcatEmpty(tail);
    assert st[..p] == st[0..p];
  }

  lemma SliceOfSlice(s: seq<byte>, lo: nat, hi: nat, a: nat, b: nat)
    requires lo <= hi <= |s| && a <= b <= hi - lo
    ensures s[lo..hi][a..b] == s[lo + a..lo + b]
  {
    assert forall i | 0 <= i < b - a :: s[lo..hi][a..b][i] == s[lo + a..lo + b][i];
  }

  /** The oldest record starts at `c`, is contiguous, and its own header says where it ends. */
  lemma LayoutHead(st: seq<byte>, p: nat, c: nat, e: nat, tail: seq<Record>, recent: seq<Record>)
    requires Layout(st, p, c, e, tail, recent)
    requires Front(p, c, tail, recent) != []
    ensures var head := Front(p, c, tail, recent)[0];
            && c + HEADER_SIZE <= c + |head| <= ContiguousEnd(p, c, e) <= |st|
            && st[c..c + |head|] == head
            && SizeField(st[c..]) == |head|
  {
    var rs := Front(p, c, tail, recent);
    HeadRecord(rs);
    var stop := ContiguousEnd(p, c, e);
    assert Concat(rs) == st[c..stop];
    assert stop - c == |Concat(rs)|;
    SliceOfSlice(st, c, stop, 0, |rs[0]|);
    SameSizeField(st, c, stop);
  }

  lemma SameSizeField(st: seq<byte>, c: nat, stop: nat)
    requires c + 16 <= stop <= |st|
    ensures SizeField(st[c..]) == SizeField(st[c..stop])
  {
    assert st[c..] == st[c..|st|];
    SliceOfSlice(st, c, stop, 8, 16);
    SliceOfSlice(st, c, |st|, 8, 16);
  }

  /** Consuming the oldest record leaves the others where they were. */
  lemma LayoutConsume(st: seq<byte>, p: nat, c: nat, e: nat, tail: seq<Record>, recent: seq<Record>)
    requires Layout(st, p, c, e, tail, recent)
    requires Front(p, c, tail, recent) != []
    ensures var n := |Front(p, c, tail, recent)[0]|;
            if p < c then Layout(st, p, c + n, e, tail[1..], recent) else Layout(st, p, c + n, e, [], recent[1..])
  {
    LayoutHead(st, p, c, e, tail, recent);
    var rs := Front(p, c, tail, recent);
    HeadRecord(rs);
    var stop := ContiguousEnd(p, c, e);
    assert st[c + |rs[0]|..stop] == st[c..stop][|rs[0]|..];
  }

  /** The record `r` with its timestamp field replaced. */
  function Restamp(r: Record, stamp: seq<byte>): (r': Record)
    requires |r| >= STAMP_SIZE && |stamp| == STAMP_SIZE
    ensures |r'| == |r| && Body(r') == Body(r)
  {
    stamp + r[STAMP_SIZE..]
  }

  /** The records `rs` with the timestamp of the first one replaced. */
  function RestampFirst(rs: seq<Record>, stamp: seq<byte>): seq<Record>
    requires rs != [] && |rs[0]| >= STAMP_SIZE && |stamp| == STAMP_SIZE
  {
    [Restamp(rs[0], stamp)] + rs[1..]
  }

  lemma RestampFirstBytes(rs: seq<Record>, stamp: seq<byte>)
    requires rs != [] && AllWellFormed(rs) && |stamp| == STAMP_SIZE
    ensures |rs[0]| >= HEADER_SIZE && |Concat(rs)| >= HEADER_SIZE
    ensures AllWellFormed(RestampFirst(rs, stamp))
    ensures Concat(RestampFirst(rs, stamp)) == stamp + Concat(rs)[STAMP_SIZE..]
  {
    HeadRecord(rs);
    RestampWellFormed(rs[0], stamp);
    RestampConcat(rs[0], rs[1..], stamp);
    assert rs == [rs[0]] + rs[1..];
  }

  lemma RestampConcat(r: Record, rest: seq<Record>, stamp: seq<byte>)
    requires |r| >= STAMP_SIZE && |stamp| == STAMP_SIZE
    ensures |Concat([r] + rest)| >= STAMP_SIZE
    ensures Concat([Restamp(r, stamp)] + rest) == stamp + Concat([r] + rest)[STAMP_SIZE..]
  {
    var bytes, r' := Concat(rest), Restamp(r, stamp);
    assert ([r] + rest)[1..] == rest && ([r'] + rest)[1..] == rest;
    assert Concat([r] + rest) == r + bytes && Concat([r'] + rest) == r' + bytes;
    assert (r + bytes)[STAMP_SIZE..] == r[STAMP_SIZE..] + bytes;
    assert (stamp + r[STAMP_SIZE..]) + bytes == stamp + (r[STAMP_SIZE..] + bytes);
  }

  lemma RestampWellFormed(r: Record, stamp: seq<byte>)
    requires WellFormed(r) && |stamp| == STAMP_SIZE
    ensures WellFormed(Restamp(r, stamp)) && Restamp(r, stamp) == stamp + r[STAMP_SIZE..]
  {
    assert Restamp(r, stamp)[8..16] == r[8..16];
  }

  lemma OverwriteSlice(st: seq<byte>, at: nat, bs: seq<byte>, stop: nat)
    requires at + |bs| <= stop <= |st|
    ensures Overwrite(st, at, bs)[at..stop] == bs + st[at..stop][|bs|..]
    ensures Overwrite(st, at, bs)[..at] == st[..at]
  {
  }

  /** Overwriting the timestamp of the oldest record touches nothing else. */
  lemma LayoutRestamp(st: seq<byte>, p: nat, c: nat, e: nat, tail: seq<Record>, recent: seq<Record>, stamp: seq<byte>)
    requires Layout(st, p, c, e, tail, recent)
    requires Front(p, c, tail, recent) != [] && |stamp| == STAMP_SIZE
    ensures c + HEADER_SIZE <= |st| && |Front(p, c, tail, recent)[0]| >= HEADER_SIZE
    ensures var rs := RestampFirst(Front(p, c, tail, recent), stamp);
            var st' := Overwrite(st, c, stamp);
            if p < c then Layout(st', p, c, e, rs, recent) else Layout(st', p, c, e, [], rs)
  {
    var stop := ContiguousEnd(p, c, e);
    RestampFirstBytes(Front(p, c, tail, recent), stamp);
    OverwriteSlice(st, c, stamp, stop);
    if p < c {
      assert Overwrite(st, c, stamp)[..p] == Overwrite(st, c, stamp)[..c][..p];
    }
  }

  /** Equal positions mean that nothing is pending. */
  lemma LevelMeansEmpty(st: seq<byte>, p: nat, c: nat, e: nat, tail: seq<Record>, recent: seq<Record>)
    requires Layout(st, p, c, e, tail, recent)
    requires p == c
    ensures tail == [] && recent == []
  {
    ConcatEmpty(recent);
  }
}
