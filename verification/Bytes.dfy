/** Bytes, little-endian fields, and runs of records laid end to end. */
module Bytes {
  type byte = x: int | 0 <= x < 256

  function Pow256(k: nat): (r: nat)
    ensures r >= 1
  {
    if k == 0 then 1 else 256 * Pow256(k - 1)
  }

  /** The low `k` bytes of `v`, least significant first. */
  function LeBytes(v: nat, k: nat): (s: seq<byte>)
    ensures |s| == k
  {
    if k == 0 then [] else [v % 256] + LeBytes(v / 256, k - 1)
  }

  function LeValue(s: seq<byte>): nat {
    if s == [] then 0 else s[0] + 256 * LeValue(s[1..])
  }

  lemma {:induction false} LeRoundTrip(v: nat, k: nat)
    requires v < Pow256(k)
    ensures LeValue(LeBytes(v, k)) == v
  {
    if k == 0 {
    } else {
      LeRoundTrip(v / 256, k - 1);
      assert LeBytes(v, k)[1..] == LeBytes(v / 256, k - 1);
    }
  }

  /** Every byte sequence is the little-endian form of its value, which its length bounds. */
  lemma {:induction false} LeBytesOf(s: seq<byte>)
    ensures LeValue(s) < Pow256(|s|) && LeBytes(LeValue(s), |s|) == s
  {
    if s == [] {
    } else {
      LeBytesOf(s[1..]);
      assert LeValue(s) % 256 == s[0] && LeValue(s) / 256 == LeValue(s[1..]);
      assert s == [s[0]] + s[1..];
    }
  }

  /** Least significant first: the value of a four-byte and of an eight-byte field. */
  lemma LittleEndian(s: seq<byte>)
    ensures |s| == 4 ==>
              LeValue(s) == s[0] as int + 0x100 * s[1] as int + 0x1_0000 * s[2] as int + 0x100_0000 * s[3] as int
    ensures |s| == 8 ==> LeValue(s) == LeValue(s[..4]) + 0x1_0000_0000 * LeValue(s[4..])
  {
    if |s| >= 4 {
      FirstFour(s);
      FirstFour(s[..4]);
    }
  }

  lemma FirstFour(s: seq<byte>)
    requires |s| >= 4
    ensures LeValue(s) ==
            s[0] + 0x100 * s[1] + 0x1_0000 * s[2] + 0x100_0000 * s[3] + 0x1_0000_0000 * LeValue(s[4..])
  {
    assert LeValue(s) == s[0] + 0x100 * LeValue(s[1..]);
    assert s[1..][1..] == s[2..] && s[2..][1..] == s[3..] && s[3..][1..] == s[4..];
    assert LeValue(s[1..]) == s[1] + 0x100 * LeValue(s[2..]);
    assert LeValue(s[2..]) == s[2] + 0x100 * LeValue(s[3..]);
    assert LeValue(s[3..]) == s[3] + 0x100 * LeValue(s[4..]);
  }

  lemma Pow256Values()
    ensures Pow256(0) == 1 && Pow256(1) == 0x100 && Pow256(2) == 0x1_0000
    ensures Pow256(4) == 0x1_0000_0000 && Pow256(8) == 0x1_0000_0000_0000_0000
  {
    assert Pow256(3) == 0x100_0000;
    assert Pow256(5) == 0x100_0000_0000;
    assert Pow256(6) == 0x1_0000_0000_0000;
    assert Pow256(7) == 0x100_0000_0000_0000;
  }

  /** `s` with `xs` stored at index `at`. */
  function Overwrite<T>(s: seq<T>, at: nat, xs: seq<T>): (r: seq<T>)
    requires at + |xs| <= |s|
    ensures |r| == |s|
  {
    s[..at] + xs + s[at + |xs|..]
  }

  // ---- Records ----

  /** A published log record: the fixed header followed by the packed arguments. */
  type Record = seq<byte>

  /** `sizeof(LogEntry)`: timestamp, entry size and two pointers, eight bytes each. */
  const HEADER_SIZE: nat := 32

  const STAMP_SIZE: nat := 8

  function StampOf(r: Record): nat
    requires |r| >= STAMP_SIZE
  {
    LeValue(r[..STAMP_SIZE])
  }

  function SizeField(r: seq<byte>): nat
    requires |r| >= 16
  {
    LeValue(r[8..16])
  }

  /** The header is complete and its size field tells the record's own length. */
  predicate WellFormed(r: Record) {
    |r| >= HEADER_SIZE && SizeField(r) == |r|
  }

  predicate AllWellFormed(rs: seq<Record>) {
    forall r | r in rs :: WellFormed(r)
  }

  /** Everything in a record except the timestamp, which the consumer may overwrite. */
  function Body(r: Record): seq<byte> {
    if |r| < STAMP_SIZE then [] else r[STAMP_SIZE..]
  }

  function Concat(rs: seq<Record>): seq<byte> {
    if rs == [] then [] else rs[0] + Concat(rs[1..])
  }

  lemma {:induction false} ConcatAppend(a: seq<Record>, b: seq<Record>)
    ensures Concat(a + b) == Concat(a) + Concat(b)
  {
    if a == [] {
      assert a + b == b;
    } else {
      assert (a + b)[0] == a[0] && (a + b)[1..] == a[1..] + b;
      calc {
        Concat(a + b);
        a[0] + Concat(a[1..] + b);
        { ConcatAppend(a[1..], b); }
        a[0] + (Concat(a[1..]) + Concat(b));
        (a[0] + Concat(a[1..])) + Concat(b);
      }
    }
  }

  lemma ConcatSingle(r: Record)
    ensures Concat([r]) == r
  {
    assert Concat([r]) == r + Concat([]);
  }

  lemma ConcatSplit(rs: seq<Record>, k: nat)
    requires k <= |rs|
    ensures Concat(rs) == Concat(rs[..k]) + Concat(rs[k..])
  {
    assert rs == rs[..k] + rs[k..];
    assert Concat(rs[..k] + rs[k..]) == Concat(rs[..k]) + Concat(rs[k..]) by { ConcatAppend(rs[..k], rs[k..]); }
  }

  /** Well-formed records are never empty, so an empty run of bytes holds no record. */
  lemma ConcatEmpty(rs: seq<Record>)
    requires AllWellFormed(rs)
    ensures Concat(rs) == [] <==> rs == []
  {
    if rs != [] {
      assert WellFormed(rs[0]);
    }
  }

  /** The size field at the front of a run of records delimits exactly the first of them. */
  lemma HeadRecord(rs: seq<Record>)
    requires rs != [] && AllWellFormed(rs)
    ensures |Concat(rs)| >= |rs[0]| >= HEADER_SIZE
    ensures SizeField(Concat(rs)) == |rs[0]|
    ensures Concat(rs)[..|rs[0]|] == rs[0]
    ensures Concat(rs)[|rs[0]|..] == Concat(rs[1..])
  {
    var r := rs[0];
    assert WellFormed(r);
    assert Concat(rs)[8..16] == r[8..16];
  }
}
