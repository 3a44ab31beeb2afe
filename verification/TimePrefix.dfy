/** The time stamp in front of every line: fixed width, readable back, and ordered like the times it shows. */
module TimePrefix {
  import opened Bytes

  const PREFIX_LENGTH: nat := 31

  /** Broken-down local time as `localtime` gives it: the year in full, the month from 0. */
  datatype Tm = Tm(year: nat, mon: nat, mday: nat, hour: nat, min: nat, sec: nat)

  /** What `localtime` returns for a nanosecond count of 64 bits: such years have four digits. */
  predicate Calendar(t: Tm) {
    && 1000 <= t.year <= 9999 && t.mon <= 11 && 1 <= t.mday <= 31
    && t.hour <= 23 && t.min <= 59 && t.sec <= 60
  }

  function Digit(d: nat): (c: char)
    requires d < 10
    ensures c as int == '0' as int + d
  {
    ('0' as int + d) as char
  }

  /** `std::to_string`. */
  function ToDecimal(n: nat): (s: string)
    ensures s != ""
  {
    if n < 10 then [Digit(n)] else ToDecimal(n / 10) + [Digit(n % 10)]
  }

  /** The `k` low decimal digits of `n`. */
  function Digits(n: nat, k: nat): (s: string)
    ensures |s| == k
  {
    if k == 0 then "" else Digits(n / 10, k - 1) + [Digit(n % 10)]
  }

  function Pow10(k: nat): (r: nat)
    ensures r >= 1
  {
    if k == 0 then 1 else 10 * Pow10(k - 1)
  }

  function Zeros(k: nat): (s: string)
    ensures |s| == k
  {
    seq(k, _ => '0')
  }

  /** A number padded with zeros to `k` places is its `k` digits. */
  lemma {:induction false} Padded(n: nat, k: nat)
    requires k > 0 && n < Pow10(k)
    ensures |ToDecimal(n)| <= k && Zeros(k - |ToDecimal(n)|) + ToDecimal(n) == Digits(n, k)
    decreases k
  {
    if n < 10 {
      ZeroDigits(k - 1);
    } else {
      Padded(n / 10, k - 1);
      var front := ToDecimal(n / 10);
      assert Zeros(k - 1 - |front|) + (front + [Digit(n % 10)]) == (Zeros(k - 1 - |front|) + front) + [Digit(n % 10)];
    }
  }

  lemma {:induction false} ZeroDigits(k: nat)
    ensures Digits(0, k) == Zeros(k)
  {
    if k == 0 {
    } else {
      ZeroDigits(k - 1);
      assert Zeros(k) == Zeros(k - 1) + ['0'];
    }
  }

  /** The `k` digits of a number with exactly `k` of them need no padding. */
  lemma {:induction false} FullWidth(n: nat, k: nat)
    requires k > 0 && n < Pow10(k) && (k > 1 ==> n >= Pow10(k - 1))
    ensures ToDecimal(n) == Digits(n, k)
    decreases k
  {
    if k == 1 {
      assert Digits(n / 10, 0) == "";
    } else {
      FullWidth(n / 10, k - 1);
    }
  }

  /** The prefix that stands for a time: date, time of day, nanoseconds. */
  function Prefix(t: Tm, nano: nat): (s: string)
    ensures |s| == PREFIX_LENGTH
  {
    TimePart(t) + "." + Digits(nano, 9) + "]"
  }

  function DatePart(t: Tm): (s: string)
    ensures |s| == 12
  {
    "[" + Digits(t.year, 4) + "-" + Digits(t.mon + 1, 2) + "-" + Digits(t.mday, 2) + "-"
  }

  function TimePart(t: Tm): (s: string)
    ensures |s| == 20
  {
    DatePart(t) + Digits(t.hour, 2) + ":" + Digits(t.min, 2) + ":" + Digits(t.sec, 2)
  }

  lemma PutTwice(s: string, pos: nat, a: string, b: string)
    requires pos + |a| + |b| <= |s|
    ensures Overwrite(Overwrite(s, pos, a), pos + |a|, b) == Overwrite(s, pos, a + b)
  {
  }

  /** `memcpy` of characters. */
  method CopyChars(raw: array<char>, pos: nat, text: string)
    requires pos + |text| <= raw.Length
    modifies raw
    ensures raw[..] == Overwrite(old(raw[..]), pos, text)
  {
    forall i | 0 <= i < |text| {
      raw[pos + i] := text[i];
    }
  }

  lemma PowersOfTen()
    ensures Pow10(2) == 100 && Pow10(3) == 1000 && Pow10(4) == 10_000 && Pow10(9) == 1_000_000_000
  {
    assert Pow10(4) == 10_000;
    assert Pow10(7) == 10_000_000;
  }

  lemma TwoPlaces(ts: nat)
    requires ts < 100
    ensures if ts < 10 then Digits(ts, 2) == ['0', ToDecimal(ts)[0]] else ToDecimal(ts)[..2] == Digits(ts, 2)
  {
    assert Digits(ts, 2) == Digits(ts / 10, 1) + [Digit(ts % 10)];
    assert Digits(ts / 10, 1) == Digits(ts / 100, 0) + [Digit(ts / 10)];
    if ts >= 10 {
      assert ToDecimal(ts) == ToDecimal(ts / 10) + [Digit(ts % 10)];
    }
  }

  /** Two places for a month, day, hour, minute or second. */
  method ConvertInt2Str(ts: nat, raw: array<char>, pos: nat) returns (next: nat)
    requires ts < 100 && pos + 2 <= raw.Length
    modifies raw
    ensures next == pos + 2 && raw[..] == Overwrite(old(raw[..]), pos, Digits(ts, 2))
  {
    TwoPlaces(ts);
    ghost var s := raw[..];
    next := pos;
    if ts < 10 {
      raw[next] := '0';
      next := next + 1;
      raw[next] := ToDecimal(ts)[0];
      next := next + 1;
      assert raw[..] == Overwrite(s, pos, ['0', ToDecimal(ts)[0]]);
    } else {
      CopyChars(raw, next, ToDecimal(ts)[..2]);
      next := next + 2;
    }
  }

  lemma OneMoreZero(s: string, pos: nat, i: nat)
    requires pos + i < |s|
    ensures Overwrite(s, pos, Zeros(i))[pos + i := '0'] == Overwrite(s, pos, Zeros(i + 1))
  {
  }

  lemma NinePlaces(nano: nat)
    requires nano < 1_000_000_000
    ensures |ToDecimal(nano)| <= 9 && Zeros(9 - |ToDecimal(nano)|) + ToDecimal(nano) == Digits(nano, 9)
  {
    PowersOfTen();
    Padded(nano, 9);
  }

  /** Nine places: the digits are copied to the right end, then zeros are put in front of them. */
  method PutNano(nano: nat, raw: array<char>, pos: nat) returns (next: nat)
    requires nano < 1_000_000_000 && pos + 9 <= raw.Length
    modifies raw
    ensures next == pos + 9 && raw[..] == Overwrite(old(raw[..]), pos, Digits(nano, 9))
  {
    ghost var s := raw[..];
    var digits := ToDecimal(nano);
    var nanoLength := |digits|;
    assert nanoLength <= 9 by { NinePlaces(nano); }
    CopyChars(raw, pos + 9 - nanoLength, digits);
    var bits := 9 - nanoLength;
    next := PutZeros(raw, pos, bits);
    next := next + nanoLength;
    assert raw[..] == Overwrite(s, pos, Zeros(bits) + digits) by { PutBoth(s, pos, Zeros(bits), digits); }
    assert Zeros(bits) + digits == Digits(nano, 9) by { NinePlaces(nano); }
  }

  method PutZeros(raw: array<char>, pos: nat, bits: nat) returns (next: nat)
    requires pos + bits <= raw.Length
    modifies raw
    ensures next == pos + bits && raw[..] == Overwrite(old(raw[..]), pos, Zeros(bits))
  {
    ghost var s := raw[..];
    assert Overwrite(s, pos, Zeros(0)) == s;
    next := pos;
    for i := 0 to bits
      invariant next == pos + i && raw[..] == Overwrite(s, pos, Zeros(i))
    {
      OneMoreZero(s, pos, i);
      raw[next] := '0';
      next := next + 1;
    }
  }

  lemma PutBoth(s: string, pos: nat, a: string, b: string)
    requires pos + |a| + |b| <= |s|
    ensures Overwrite(Overwrite(s, pos + |a|, b), pos, a) == Overwrite(s, pos, a + b)
  {
  }

  /** Appends one character to a prefix in progress. */
  method PutChar(raw: array<char>, pos: nat, c: char, ghost s: string, ghost done: string) returns (next: nat)
    requires pos == |done| < raw.Length == |s| && raw[..] == Overwrite(s, 0, done)
    modifies raw
    ensures next == pos + 1 && raw[..] == Overwrite(s, 0, done + [c])
  {
    PutTwice(s, 0, done, [c]);
    raw[pos] := c;
    next := pos + 1;
  }

  method PutTwo(raw: array<char>, pos: nat, ts: nat, ghost s: string, ghost done: string) returns (next: nat)
    requires ts < 100 && pos == |done| && pos + 2 <= raw.Length == |s| && raw[..] == Overwrite(s, 0, done)
    modifies raw
    ensures next == pos + 2 && raw[..] == Overwrite(s, 0, done + Digits(ts, 2))
  {
    PutTwice(s, 0, done, Digits(ts, 2));
    next := ConvertInt2Str(ts, raw, pos);
  }

  method PutYear(year: nat, raw: array<char>) returns (pos: nat)
    requires 1000 <= year <= 9999 && raw.Length >= PREFIX_LENGTH
    modifies raw
    ensures pos == 5 && raw[..] == Overwrite(old(raw[..]), 0, "[" + Digits(year, 4))
  {
    ghost var s := raw[..];
    pos := PutChar(raw, 0, '[', s, "");
    PowersOfTen();
    FullWidth(year, 4);
    CopyChars(raw, pos, ToDecimal(year)[..4]);
    PutTwice(s, 0, "[", Digits(year, 4));
    pos := pos + 4;
  }

  method PutDate(t: Tm, raw: array<char>) returns (pos: nat)
    requires Calendar(t) && raw.Length >= PREFIX_LENGTH
    modifies raw
    ensures pos == 12 && raw[..] == Overwrite(old(raw[..]), 0, DatePart(t))
  {
    ghost var s := raw[..];
    pos := PutYear(t.year, raw);
    ghost var done := "[" + Digits(t.year, 4);
    pos := PutChar(raw, pos, '-', s, done);
    pos := PutTwo(raw, pos, t.mon + 1, s, done + "-");
    done := done + "-" + Digits(t.mon + 1, 2);
    pos := PutChar(raw, pos, '-', s, done);
    pos := PutTwo(raw, pos, t.mday, s, done + "-");
    pos := PutChar(raw, pos, '-', s, done + "-" + Digits(t.mday, 2));
  }

  /** The prefix of a line, and its length. The rest of the buffer is not touched. */
  method GenerateTimePrefix(timestamp: nat, t: Tm, raw: array<char>) returns (prefixLength: nat)
    requires Calendar(t) && raw.Length >= PREFIX_LENGTH
    modifies raw
    ensures prefixLength == PREFIX_LENGTH
    ensures raw[..] == Overwrite(old(raw[..]), 0, Prefix(t, timestamp % 1_000_000_000))
  {
    ghost var s := raw[..];
    var nano := timestamp % 1_000_000_000;
    var pos := PutDate(t, raw);
    ghost var done := DatePart(t);
    pos := PutTwo(raw, pos, t.hour, s, done);
    pos := PutChar(raw, pos, ':', s, done + Digits(t.hour, 2));
    done := done + Digits(t.hour, 2) + ":";
    pos := PutTwo(raw, pos, t.min, s, done);
    pos := PutChar(raw, pos, ':', s, done + Digits(t.min, 2));
    pos := PutTwo(raw, pos, t.sec, s, done + Digits(t.min, 2) + ":");
    pos := PutChar(raw, pos, '.', s, TimePart(t));
    PutTwice(s, 0, TimePart(t) + ".", Digits(nano, 9));
    pos := PutNano(nano, raw, pos);
    prefixLength := PutChar(raw, pos, ']', s, TimePart(t) + "." + Digits(nano, 9));
  }

  // ---- Reading the prefix back ----

  function Value(s: string): int {
    if s == "" then 0 else 10 * Value(s[..|s| - 1]) + (s[|s| - 1] as int - '0' as int)
  }

  lemma LastDigit(s: string, d: nat)
    requires d < 10
    ensures Value(s + [Digit(d)]) == 10 * Value(s) + d
  {
    assert (s + [Digit(d)])[..|s|] == s;
  }

  lemma {:induction false} DigitsRoundTrip(n: nat, k: nat)
    requires n < Pow10(k)
    ensures Value(Digits(n, k)) == n
  {
    if k == 0 {
    } else {
      DigitsRoundTrip(n / 10, k - 1);
      LastDigit(Digits(n / 10, k - 1), n % 10);
    }
  }

  /** The fields can be read back from their places, and the rest is the separators. */
  lemma PrefixReadsBack(t: Tm, nano: nat)
    requires Calendar(t) && nano < 1_000_000_000
    ensures var p := Prefix(t, nano);
            && Value(p[1..5]) == t.year && Value(p[6..8]) == t.mon + 1 && Value(p[9..11]) == t.mday
            && Value(p[12..14]) == t.hour && Value(p[15..17]) == t.min && Value(p[18..20]) == t.sec
            && Value(p[21..30]) == nano
    ensures var p := Prefix(t, nano);
            && |p| == 31 && p[0] == '[' && p[5] == p[8] == p[11] == '-' && p[14] == p[17] == ':' && p[20] == '.'
            && p[30] == ']'
  {
    DigitsReadBack(t, nano);
    Places(Digits(t.year, 4), Digits(t.mon + 1, 2), Digits(t.mday, 2), Digits(t.hour, 2), Digits(t.min, 2),
           Digits(t.sec, 2), Digits(nano, 9));
  }

  lemma DigitsReadBack(t: Tm, nano: nat)
    requires Calendar(t) && nano < 1_000_000_000
    ensures Value(Digits(t.year, 4)) == t.year && Value(Digits(t.mon + 1, 2)) == t.mon + 1
    ensures Value(Digits(t.mday, 2)) == t.mday && Value(Digits(t.hour, 2)) == t.hour
    ensures Value(Digits(t.min, 2)) == t.min && Value(Digits(t.sec, 2)) == t.sec && Value(Digits(nano, 9)) == nano
  {
    PowersOfTen();
    DigitsRoundTrip(t.year, 4);
    DigitsRoundTrip(t.mon + 1, 2);
    DigitsRoundTrip(t.mday, 2);
    DigitsRoundTrip(t.hour, 2);
    DigitsRoundTrip(t.min, 2);
    DigitsRoundTrip(t.sec, 2);
    DigitsRoundTrip(nano, 9);
  }

  /** Seven texts of these lengths with their separators, taken apart. */
  lemma Places(year: string, mon: string, day: string, hour: string, min: string, sec: string, nano: string)
    requires |year| == 4 && |mon| == |day| == |hour| == |min| == |sec| == 2 && |nano| == 9
    ensures var date := "[" + year + "-" + mon + "-" + day + "-";
            var p := date + hour + ":" + min + ":" + sec + "." + nano + "]";
            && |p| == 31 && p[0] == '[' && p[5] == p[8] == p[11] == '-' && p[14] == p[17] == ':' && p[20] == '.'
            && p[30] == ']' && p[1..5] == year && p[6..8] == mon && p[9..11] == day
            && p[12..14] == hour && p[15..17] == min && p[18..20] == sec && p[21..30] == nano
  {
    var date := "[" + year + "-" + mon + "-" + day + "-";
    var p := date + hour + ":" + min + ":" + sec + "." + nano + "]";
    At(p, 1, year);
    At(p, 6, mon);
    At(p, 9, day);
    At(p, 12, hour);
    At(p, 15, min);
    At(p, 18, sec);
    At(p, 21, nano);
  }

  lemma At(p: string, at: nat, s: string)
    requires at + |s| <= |p| && forall k | 0 <= k < |s| :: p[at + k] == s[k]
    ensures p[at..at + |s|] == s
  {
  }

  // ---- The order of prefixes is the order of times ----

  /** Lexicographic order of strings of the same length. */
  predicate Before(s: string, t: string)
    requires |s| == |t|
  {
    s != "" && (s[0] < t[0] || (s[0] == t[0] && Before(s[1..], t[1..])))
  }

  lemma {:induction false} BeforeSplits(a: string, x: string, b: string, y: string)
    requires |a| == |b| && |x| == |y|
    ensures Before(a + x, b + y) <==> Before(a, b) || (a == b && Before(x, y))
  {
    if a == "" {
      assert a + x == x && b + y == y;
    } else {
      assert (a + x)[1..] == a[1..] + x && (b + y)[1..] == b[1..] + y;
      BeforeSplits(a[1..], x, b[1..], y);
      assert a == [a[0]] + a[1..] && b == [b[0]] + b[1..];
    }
  }

  lemma {:induction false} DigitsOrder(m: nat, n: nat, k: nat)
    requires m < Pow10(k) && n < Pow10(k)
    ensures Before(Digits(m, k), Digits(n, k)) <==> m < n
    ensures Digits(m, k) == Digits(n, k) <==> m == n
  {
    DigitsRoundTrip(m, k);
    DigitsRoundTrip(n, k);
    if k == 0 {
    } else {
      DigitsOrder(m / 10, n / 10, k - 1);
      var x, y := [Digit(m % 10)], [Digit(n % 10)];
      BeforeSplits(Digits(m / 10, k - 1), x, Digits(n / 10, k - 1), y);
      assert Before(x, y) <==> m % 10 < n % 10;
    }
  }

  /** One more field and its separator behind two texts of the same length. */
  lemma NextField(p: string, q: string, m: nat, n: nat, k: nat, separator: string)
    requires |p| == |q| && m < Pow10(k) && n < Pow10(k)
    ensures var p', q' := p + Digits(m, k) + separator, q + Digits(n, k) + separator;
            && (Before(p', q') <==> Before(p, q) || (p == q && m < n))
            && (p' == q' <==> p == q && m == n)
  {
    var x, y := p + Digits(m, k), q + Digits(n, k);
    DigitsOrder(m, n, k);
    BeforeSplits(p, Digits(m, k), q, Digits(n, k));
    BeforeSplits(x, separator, y, separator);
    BeforeIrreflexive(separator);
    assert x[..|p|] == p && y[..|p|] == q && x[|p|..] == Digits(m, k) && y[|p|..] == Digits(n, k);
    assert (x + separator)[..|x|] == x && (y + separator)[..|x|] == y;
  }

  lemma {:induction false} BeforeIrreflexive(s: string)
    ensures !Before(s, s)
  {
    if s == "" {
    } else {
      BeforeIrreflexive(s[1..]);
    }
  }

  function Fields(t: Tm, nano: nat): seq<nat> {
    [t.year, t.mon, t.mday, t.hour, t.min, t.sec, nano]
  }

  /** The order of dates and times: the first field in which they differ decides. */
  predicate Earlier(a: seq<nat>, b: seq<nat>)
    requires |a| == |b|
  {
    exists k :: 0 <= k < |a| && a[..k] == b[..k] && a[k] < b[k]
  }

  lemma EarlierStep(a: seq<nat>, b: seq<nat>, m: nat, n: nat)
    requires |a| == |b|
    ensures Earlier(a + [m], b + [n]) <==> Earlier(a, b) || (a == b && m < n)
    ensures a + [m] == b + [n] <==> a == b && m == n
  {
    var x, y := a + [m], b + [n];
    assert x[..|a|] == a && y[..|a|] == b && x[|a|] == m && y[|a|] == n;
    assert forall k | 0 <= k < |a| :: x[..k] == a[..k] && y[..k] == b[..k];
    if Earlier(a, b) {
      var k :| 0 <= k < |a| && a[..k] == b[..k] && a[k] < b[k];
      assert x[..k] == y[..k] && x[k] < y[k];
    }
    if a == b && m < n {
      assert x[..|a|] == y[..|a|] && x[|a|] < y[|a|];
    }
  }

  /** Texts and field lists of two times, compared so far with the same result. */
  predicate SameOrder(p: string, q: string, a: seq<nat>, b: seq<nat>) {
    && |p| == |q| && |a| == |b|
    && (Before(p, q) <==> Earlier(a, b)) && (p == q <==> a == b)
  }

  lemma FieldStep(p: string, q: string, a: seq<nat>, b: seq<nat>, m: nat, n: nat, shift: nat, k: nat, separator: string)
    requires SameOrder(p, q, a, b) && m + shift < Pow10(k) && n + shift < Pow10(k)
    ensures SameOrder(p + Digits(m + shift, k) + separator, q + Digits(n + shift, k) + separator, a + [m], b + [n])
  {
    NextField(p, q, m + shift, n + shift, k, separator);
    EarlierStep(a, b, m, n);
  }

  function Field(t: Tm, nano: nat, i: nat): nat
    requires i < 7
  {
    match i
    case 0 => t.year
    case 1 => t.mon
    case 2 => t.mday
    case 3 => t.hour
    case 4 => t.min
    case 5 => t.sec
    case _ => nano
  }

  function Width(i: nat): nat {
    if i == 0 then 4 else if i < 6 then 2 else 9
  }

  function Separator(i: nat): string {
    if i < 3 then "-" else if i < 5 then ":" else if i == 5 then "." else "]"
  }

  /** Months are shown from 1. */
  function Shift(i: nat): nat {
    if i == 1 then 1 else 0
  }

  /** The prefix after its first `i` fields. */
  function Front(t: Tm, nano: nat, i: nat): string
    requires i <= 7
  {
    if i == 0 then "["
    else Front(t, nano, i - 1) + Digits(Field(t, nano, i - 1) + Shift(i - 1), Width(i - 1)) + Separator(i - 1)
  }

  function FirstFields(t: Tm, nano: nat, i: nat): seq<nat>
    requires i <= 7
  {
    if i == 0 then [] else FirstFields(t, nano, i - 1) + [Field(t, nano, i - 1)]
  }

  lemma FrontIsPrefix(t: Tm, nano: nat)
    ensures Front(t, nano, 7) == Prefix(t, nano) && FirstFields(t, nano, 7) == Fields(t, nano)
  {
    assert Front(t, nano, 1) == "[" + Digits(t.year, 4) + "-";
    assert Front(t, nano, 2) == "[" + Digits(t.year, 4) + "-" + Digits(t.mon + 1, 2) + "-";
    assert Front(t, nano, 3) == DatePart(t);
    assert Front(t, nano, 4) == DatePart(t) + Digits(t.hour, 2) + ":";
    assert Front(t, nano, 5) == DatePart(t) + Digits(t.hour, 2) + ":" + Digits(t.min, 2) + ":";
    assert Front(t, nano, 6) == TimePart(t) + ".";
    assert FirstFields(t, nano, 1) == [t.year];
    assert FirstFields(t, nano, 3) == [t.year, t.mon, t.mday];
    assert FirstFields(t, nano, 5) == [t.year, t.mon, t.mday, t.hour, t.min];
  }

  lemma {:induction false} FrontOrder(t: Tm, nano: nat, u: Tm, nano': nat, i: nat)
    requires Calendar(t) && Calendar(u) && nano < 1_000_000_000 && nano' < 1_000_000_000 && i <= 7
    ensures SameOrder(Front(t, nano, i), Front(u, nano', i), FirstFields(t, nano, i), FirstFields(u, nano', i))
  {
    if i == 0 {
      BeforeIrreflexive("[");
    } else {
      FrontOrder(t, nano, u, nano', i - 1);
      OrderStep(t, nano, u, nano', i - 1);
    }
  }

  lemma OrderStep(t: Tm, nano: nat, u: Tm, nano': nat, i: nat)
    requires Calendar(t) && Calendar(u) && nano < 1_000_000_000 && nano' < 1_000_000_000 && i < 7
    requires SameOrder(Front(t, nano, i), Front(u, nano', i), FirstFields(t, nano, i), FirstFields(u, nano', i))
    ensures SameOrder(Front(t, nano, i + 1), Front(u, nano', i + 1),
                      FirstFields(t, nano, i + 1), FirstFields(u, nano', i + 1))
  {
    FieldFits(t, nano, i);
    FieldFits(u, nano', i);
    FieldStep(Front(t, nano, i), Front(u, nano', i), FirstFields(t, nano, i), FirstFields(u, nano', i),
              Field(t, nano, i), Field(u, nano', i), Shift(i), Width(i), Separator(i));
  }

  lemma FieldFits(t: Tm, nano: nat, i: nat)
    requires Calendar(t) && nano < 1_000_000_000 && i < 7
    ensures Field(t, nano, i) + Shift(i) < Pow10(Width(i))
  {
    PowersOfTen();
  }

  /** Sorting lines by their prefixes is sorting them by time, and different times have different prefixes. */
  lemma PrefixOrder(t: Tm, nano: nat, u: Tm, nano': nat)
    requires Calendar(t) && Calendar(u) && nano < 1_000_000_000 && nano' < 1_000_000_000
    ensures Before(Prefix(t, nano), Prefix(u, nano')) <==> Earlier(Fields(t, nano), Fields(u, nano'))
    ensures Prefix(t, nano) == Prefix(u, nano') <==> Fields(t, nano) == Fields(u, nano')
  {
    FrontOrder(t, nano, u, nano', 7);
    FrontIsPrefix(t, nano);
    FrontIsPrefix(u, nano');
  }
}
