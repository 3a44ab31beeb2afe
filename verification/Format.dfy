/** printf format strings: their grammar, a one-pass parser and the printer it inverts. */
module Format {
  /** The largest precision the analyser can hold; a longer one is not a constant expression. */
  const INT_MAX: nat := 0x7FFF_FFFF

  datatype CharClass = FlagChar | DigitChar | LengthChar

  predicate IsFlag(c: char) {
    c == '-' || c == '+' || c == ' ' || c == '#' || c == '0'
  }

  predicate IsDigit(c: char) {
    '0' <= c <= '9'
  }

  predicate IsLength(c: char) {
    c == 'h' || c == 'l' || c == 'j' || c == 'z' || c == 't' || c == 'L'
  }

  predicate IsTerminal(c: char) {
    || c == 'd' || c == 'i' || c == 'u' || c == 'o' || c == 'x' || c == 'X'
    || c == 'f' || c == 'F' || c == 'e' || c == 'E' || c == 'g' || c == 'G'
    || c == 'a' || c == 'A' || c == 'c' || c == 'p' || c == '%' || c == 's' || c == 'n'
  }

  predicate InClass(c: char, cls: CharClass) {
    match cls
    case FlagChar => IsFlag(c)
    case DigitChar => IsDigit(c)
    case LengthChar => IsLength(c)
  }

  predicate AllIn(s: string, cls: CharClass) {
    forall i | 0 <= i < |s| :: InClass(s[i], cls)
  }

  datatype ParamType =
    | Invalid
    | DynamicWidth
    | DynamicPrecision
    | NonString
    | StringWithDynamicPrecision
    | StringWithNoPrecision
    | StringWithPrecision(n: nat)

  /** The enumeration values; every comparison of parameter types goes through them. */
  function Code(t: ParamType): int {
    match t
    case Invalid => -6
    case DynamicWidth => -5
    case DynamicPrecision => -4
    case NonString => -3
    case StringWithDynamicPrecision => -2
    case StringWithNoPrecision => -1
    case StringWithPrecision(n) => n
  }

  // ---- The grammar ----

  datatype Width = FixedWidth(digits: string) | StarWidth

  datatype Precision = NoPrecision | FixedPrecision(digits: string) | StarPrecision

  /** One conversion specification: `%`, flags, width, precision, length, conversion character. */
  datatype Conv = Conv(flags: string, width: Width, precision: Precision, length: string, terminal: char)

  datatype Piece = Literal(c: char) | Percent | Spec(conv: Conv)

  /**
    A format cut into pieces. A malformed specification ends it, with the types of the stars met
    before the malformation.
   */
  datatype Pieces = End | Cons(piece: Piece, rest: Pieces) | Broken(stars: seq<ParamType>)

  function DigitsValue(digits: string): (v: nat)
    requires AllIn(digits, DigitChar)
  {
    if digits == [] then 0
    else 10 * DigitsValue(digits[..|digits| - 1]) + (digits[|digits| - 1] as int - '0' as int)
  }

  predicate ConvOk(conv: Conv) {
    && AllIn(conv.flags, FlagChar)
    && (conv.width.FixedWidth? ==>
          && AllIn(conv.width.digits, DigitChar)
          && (conv.width.digits != [] ==> conv.width.digits[0] != '0'))
    && (conv.precision.FixedPrecision? ==>
          AllIn(conv.precision.digits, DigitChar) && DigitsValue(conv.precision.digits) <= INT_MAX)
    && AllIn(conv.length, LengthChar)
    && IsTerminal(conv.terminal) && conv.terminal != 'n'
    && !(conv.terminal == '%' && PrintConv(conv) == "%%")
  }

  predicate PieceOk(piece: Piece) {
    match piece
    case Literal(c) => c != '%'
    case Percent => true
    case Spec(conv) => ConvOk(conv)
  }

  /** A format of the grammar, in the one way in which a longest-match scan reads it. */
  predicate Grammatical(ps: Pieces) {
    match ps
    case End => true
    case Cons(piece, rest) => PieceOk(piece) && Grammatical(rest)
    case Broken(_) => false
  }

  predicate Complete(ps: Pieces) {
    match ps
    case End => true
    case Cons(_, rest) => Complete(rest)
    case Broken(_) => false
  }

  function PrintWidth(width: Width): string {
    if width.StarWidth? then "*" else width.digits
  }

  function PrintPrecision(precision: Precision): string {
    match precision
    case NoPrecision => ""
    case FixedPrecision(digits) => "." + digits
    case StarPrecision => ".*"
  }

  function PrintConv(conv: Conv): string {
    "%" + (conv.flags + (PrintWidth(conv.width) + (PrintPrecision(conv.precision) + (conv.length + [conv.terminal]))))
  }

  function PrintPiece(piece: Piece): string {
    match piece
    case Literal(c) => [c]
    case Percent => "%%"
    case Spec(conv) => PrintConv(conv)
  }

  function Print(ps: Pieces): string {
    match ps
    case Cons(piece, rest) => PrintPiece(piece) + Print(rest)
    case _ => ""
  }

  // ---- The parameters a format asks for ----

  function OwnType(conv: Conv): ParamType {
    if conv.terminal != 's' then NonString
    else match conv.precision
      case StarPrecision => StringWithDynamicPrecision
      case NoPrecision => StringWithNoPrecision
      case FixedPrecision(digits) =>
        if AllIn(digits, DigitChar) then StringWithPrecision(DigitsValue(digits)) else Invalid
  }

  function StarTypes(width: Width, precision: Precision): seq<ParamType> {
    (if width.StarWidth? then [DynamicWidth] else []) + (if precision.StarPrecision? then [DynamicPrecision] else [])
  }

  function PieceParams(piece: Piece): seq<ParamType> {
    match piece
    case Spec(conv) => StarTypes(conv.width, conv.precision) + [OwnType(conv)]
    case _ => []
  }

  /** One type per parameter, in the order in which the arguments are passed. */
  function Params(ps: Pieces): seq<ParamType> {
    match ps
    case End => []
    case Cons(piece, rest) => PieceParams(piece) + Params(rest)
    case Broken(stars) => stars
  }

  function SpecCount(ps: Pieces): nat {
    match ps
    case Cons(piece, rest) => (if piece.Spec? then 1 else 0) + SpecCount(rest)
    case _ => 0
  }

  function StarCount(ps: Pieces): nat {
    match ps
    case Cons(piece, rest) =>
      (if piece.Spec? then |StarTypes(piece.conv.width, piece.conv.precision)| else 0) + StarCount(rest)
    case _ => 0
  }

  /** A format asks for one parameter per specification and one per star. */
  lemma {:induction false} ParamsCount(ps: Pieces)
    requires Complete(ps)
    ensures |Params(ps)| == SpecCount(ps) + StarCount(ps)
  {
    match ps {
      case End =>
      case Cons(piece, rest) => ParamsCount(rest);
    }
  }

  // ---- The one-pass parser ----

  /** The character at `i`; a format is followed by a NUL. */
  function At(f: string, i: nat): char
    requires i <= |f|
  {
    if i < |f| then f[i] else '\0'
  }

  function Span(f: string, i: nat, cls: CharClass): (j: nat)
    requires i <= |f|
    ensures i <= j <= |f|
    ensures AllIn(f[i..j], cls) && !InClass(At(f, j), cls)
    decreases |f| - i
  {
    if InClass(At(f, i), cls) then
      var j := Span(f, i + 1, cls);
      assert f[i..j] == [f[i]] + f[i + 1..j];
      j
    else i
  }

  datatype ConvResult = Good(conv: Conv, end: nat) | Bad(stars: seq<ParamType>)

  function ParseWidth(f: string, i: nat): (r: (Width, nat))
    requires i <= |f|
    ensures i <= r.1 <= |f|
  {
    if At(f, i) == '*' then (StarWidth, i + 1)
    else var j := Span(f, i, DigitChar); (FixedWidth(f[i..j]), j)
  }

  function ParsePrecision(f: string, i: nat): (r: (Precision, nat))
    requires i <= |f|
    ensures i <= r.1 <= |f|
    ensures r.0.FixedPrecision? ==> AllIn(r.0.digits, DigitChar)
  {
    if At(f, i) != '.' then (NoPrecision, i)
    else if At(f, i + 1) == '*' then (StarPrecision, i + 2)
    else var j := Span(f, i + 1, DigitChar); (FixedPrecision(f[i + 1..j]), j)
  }

  /** The specification whose `%` stands just before `i`. */
  function ParseConv(f: string, i: nat): (r: ConvResult)
    requires i <= |f|
    ensures r.Good? ==> i < r.end <= |f|
  {
    var a := Span(f, i, FlagChar);
    var (width, b) := ParseWidth(f, a);
    var (precision, c) := ParsePrecision(f, b);
    var d := Span(f, c, LengthChar);
    var terminal := At(f, d);
    if precision.FixedPrecision? && DigitsValue(precision.digits) > INT_MAX then Bad(StarTypes(width, precision))
    else if !IsTerminal(terminal) || terminal == 'n' then Bad(StarTypes(width, precision))
    else Good(Conv(f[i..a], width, precision, f[c..d], terminal), d + 1)
  }

  function Parse(f: string, i: nat): Pieces
    requires i <= |f|
    decreases |f| - i
  {
    if i == |f| then End
    else if f[i] != '%' then Cons(Literal(f[i]), Parse(f, i + 1))
    else if At(f, i + 1) == '%' then Cons(Percent, Parse(f, i + 2))
    else match ParseConv(f, i + 1)
      case Bad(stars) => Broken(stars)
      case Good(conv, end) => Cons(Spec(conv), Parse(f, end))
  }

  // ---- Printing inverts parsing ----

  lemma ConvText(f: string, i: nat)
    requires 0 < i <= |f| && f[i - 1] == '%' && ParseConv(f, i).Good?
    ensures var r := ParseConv(f, i); PrintConv(r.conv) == f[i - 1..r.end]
  {
    var a := Span(f, i, FlagChar);
    var (width, b) := ParseWidth(f, a);
    var (precision, c) := ParsePrecision(f, b);
    var d := Span(f, c, LengthChar);
    assert PrintWidth(width) == f[a..b];
    assert PrintPrecision(precision) == f[b..c];
    FiveParts(f, i, a, b, c, d);
  }

  lemma FiveParts(f: string, i: nat, a: nat, b: nat, c: nat, d: nat)
    requires 0 < i <= a <= b <= c <= d < |f| && f[i - 1] == '%'
    ensures f[i - 1..d + 1] == "%" + (f[i..a] + (f[a..b] + (f[b..c] + (f[c..d] + [f[d]]))))
  {
    assert f[c..d + 1] == f[c..d] + [f[d]];
    Slices(f, b, c, d + 1);
    Slices(f, a, b, d + 1);
    Slices(f, i, a, d + 1);
    Slices(f, i - 1, i, d + 1);
    assert f[i - 1..i] == "%";
  }

  lemma Slices(f: string, i: nat, j: nat, k: nat)
    requires i <= j <= k <= |f|
    ensures f[i..k] == f[i..j] + f[j..k]
  {
  }

  lemma ConvPrinted(f: string, i: nat)
    requires 0 < i <= |f| && f[i - 1] == '%' && At(f, i) != '%'
    requires ParseConv(f, i).Good?
    ensures var r := ParseConv(f, i); ConvOk(r.conv) && PrintConv(r.conv) == f[i - 1..r.end]
  {
    ConvText(f, i);
    var r := ParseConv(f, i);
    assert f[i - 1..r.end][1] == f[i];
    var a := Span(f, i, FlagChar);
    if r.conv.width.FixedWidth? && r.conv.width.digits != [] {
      assert r.conv.width.digits[0] == f[a];
    }
  }

  /** `piece` is read at `i` and ends at `j`. */
  predicate HeadIs(f: string, i: nat, piece: Piece, j: nat) {
    && i < j <= |f|
    && match piece
       case Literal(c) => f[i] == c != '%' && j == i + 1
       case Percent => f[i] == '%' && At(f, i + 1) == '%' && j == i + 2
       case Spec(conv) => f[i] == '%' && At(f, i + 1) != '%' && ParseConv(f, i + 1) == Good(conv, j)
  }

  lemma HeadParsed(f: string, i: nat, piece: Piece, j: nat, rest: Pieces)
    requires HeadIs(f, i, piece, j) && Parse(f, j) == rest
    ensures Parse(f, i) == Cons(piece, rest)
  {
  }

  lemma PrintStep(f: string, i: nat, piece: Piece, end: nat, rest: Pieces)
    requires i < end <= |f| && PieceOk(piece) && PrintPiece(piece) == f[i..end]
    requires Grammatical(rest) && Print(rest) == f[end..]
    ensures Grammatical(Cons(piece, rest)) && Print(Cons(piece, rest)) == f[i..]
  {
    assert f[i..] == f[i..end] + f[end..];
  }

  /** An unbroken parse starts with some piece. */
  lemma SomeHead(f: string, i: nat) returns (piece: Piece, j: nat)
    requires i < |f| && !Parse(f, i).Broken?
    ensures HeadIs(f, i, piece, j)
  {
    if f[i] != '%' {
      return Literal(f[i]), i + 1;
    } else if At(f, i + 1) == '%' {
      return Percent, i + 2;
    } else {
      var r := ParseConv(f, i + 1);
      return Spec(r.conv), r.end;
    }
  }

  lemma HeadText(f: string, i: nat, piece: Piece, j: nat)
    requires HeadIs(f, i, piece, j)
    ensures PieceOk(piece) && PrintPiece(piece) == f[i..j]
  {
    if piece.Spec? {
      ConvPrinted(f, i + 1);
    }
  }

  /** Every format that parses is the print of its pieces, and these are in the grammar. */
  lemma {:induction false} PrintParse(f: string, i: nat)
    requires i <= |f| && Complete(Parse(f, i))
    ensures Grammatical(Parse(f, i)) && Print(Parse(f, i)) == f[i..]
    decreases |f| - i
  {
    if i == |f| {
    } else {
      var piece, j := SomeHead(f, i);
      HeadText(f, i, piece, j);
      HeadParsed(f, i, piece, j, Parse(f, j));
      PrintParse(f, j);
      PrintStep(f, i, piece, j, Parse(f, j));
    }
  }

  lemma SpanTail(f: string, i: nat, s: string, rest: string)
    requires i <= |f| && f[i..] == s + rest && s != []
    ensures i < |f| && f[i] == s[0] && f[i + 1..] == s[1..] + rest
  {
    assert |f| - i == |s| + |rest|;
    assert f[i] == f[i..][0];
    assert f[i + 1..] == f[i..][1..];
    assert (s + rest)[1..] == s[1..] + rest;
  }

  /** A scan over a class stops exactly where the run of its characters ends. */
  lemma {:induction false} SpanIs(f: string, i: nat, cls: CharClass, s: string, rest: string)
    requires i <= |f| && f[i..] == s + rest
    requires AllIn(s, cls) && (rest != [] ==> !InClass(rest[0], cls))
    ensures Span(f, i, cls) == i + |s|
    ensures f[i..i + |s|] == s && f[i + |s|..] == rest
    decreases |s|
  {
    assert |f| - i == |s| + |rest|;
    if s == [] {
      assert At(f, i) == if rest != [] then rest[0] else '\0';
    } else {
      SpanTail(f, i, s, rest);
      SpanIs(f, i + 1, cls, s[1..], rest);
      assert Span(f, i, cls) == Span(f, i + 1, cls) by { assert InClass(s[0], cls); }
      assert f[i..i + |s|] == s by {
        Slices(f, i, i + 1, i + |s|);
        assert f[i..i + 1] == [s[0]];
        assert s == [s[0]] + s[1..];
      }
    }
  }

  /** `f` continues at `i` with `s` and then `rest`. */
  predicate Continues(f: string, i: nat, s: string, rest: string) {
    i <= |f| && f[i..] == s + rest
  }

  lemma Advance(f: string, i: nat, s: string, rest: string)
    requires Continues(f, i, s, rest)
    ensures i + |s| <= |f| && f[i + |s|..] == rest && f[i..i + |s|] == s
  {
    assert f[i..][|s|..] == f[i + |s|..];
    assert f[i..][..|s|] == f[i..i + |s|];
  }

  lemma WidthIs(f: string, i: nat, width: Width, rest: string)
    requires Continues(f, i, PrintWidth(width), rest)
    requires width.FixedWidth? ==> AllIn(width.digits, DigitChar) && rest != [] && !IsDigit(rest[0]) && rest[0] != '*'
    ensures ParseWidth(f, i) == (width, i + |PrintWidth(width)|)
  {
    Advance(f, i, PrintWidth(width), rest);
    if width.StarWidth? {
      assert f[i..][0] == '*';
    } else {
      SpanIs(f, i, DigitChar, width.digits, rest);
      assert f[i] == f[i..][0];
    }
  }

  lemma PrecisionIs(f: string, i: nat, precision: Precision, rest: string)
    requires Continues(f, i, PrintPrecision(precision), rest) && rest != []
    requires !IsDigit(rest[0]) && rest[0] != '*' && rest[0] != '.'
    requires precision.FixedPrecision? ==> AllIn(precision.digits, DigitChar)
    ensures ParsePrecision(f, i) == (precision, i + |PrintPrecision(precision)|)
  {
    Advance(f, i, PrintPrecision(precision), rest);
    assert f[i] == f[i..][0];
    match precision {
      case NoPrecision =>
      case StarPrecision => assert f[i + 1] == f[i..][1];
      case FixedPrecision(digits) =>
        assert f[i..] == "." + (digits + rest);
        Advance(f, i, ".", digits + rest);
        SpanIs(f, i + 1, DigitChar, digits, rest);
        assert f[i + 1] == f[i + 1..][0];
    }
  }

  /** The text of a specification after its flags, after its width, and after its precision. */
  function AfterPrecision(conv: Conv): string {
    conv.length + [conv.terminal]
  }

  function AfterWidth(conv: Conv): string {
    PrintPrecision(conv.precision) + AfterPrecision(conv)
  }

  function AfterFlags(conv: Conv): string {
    PrintWidth(conv.width) + AfterWidth(conv)
  }

  lemma Heads(conv: Conv)
    requires ConvOk(conv)
    ensures var c := AfterPrecision(conv)[0]; !IsDigit(c) && !IsFlag(c) && c != '*' && c != '.'
    ensures var c := AfterWidth(conv)[0]; !IsDigit(c) && !IsFlag(c) && c != '*'
    ensures var c := AfterFlags(conv)[0]; !IsFlag(c)
  {
    if conv.length != [] { assert InClass(conv.length[0], LengthChar); }
    if conv.width.FixedWidth? && conv.width.digits != [] { assert InClass(conv.width.digits[0], DigitChar); }
  }

  lemma Glue(a: string, b: string, c: string)
    ensures (a + b) + c == a + (b + c)
  {
  }

  lemma FlagsStage(f: string, i: nat, conv: Conv, rest: string)
    requires ConvOk(conv) && Continues(f, i, conv.flags + AfterFlags(conv), rest)
    ensures var a := i + |conv.flags|;
            Span(f, i, FlagChar) == a && a <= |f| && f[i..a] == conv.flags && Continues(f, a, AfterFlags(conv), rest)
  {
    Heads(conv);
    Glue(conv.flags, AfterFlags(conv), rest);
    SpanIs(f, i, FlagChar, conv.flags, AfterFlags(conv) + rest);
  }

  lemma WidthStage(f: string, a: nat, conv: Conv, rest: string)
    requires ConvOk(conv) && Continues(f, a, AfterFlags(conv), rest)
    ensures var b := a + |PrintWidth(conv.width)|;
            ParseWidth(f, a) == (conv.width, b) && Continues(f, b, AfterWidth(conv), rest)
  {
    Heads(conv);
    Glue(PrintWidth(conv.width), AfterWidth(conv), rest);
    WidthIs(f, a, conv.width, AfterWidth(conv) + rest);
    Advance(f, a, PrintWidth(conv.width), AfterWidth(conv) + rest);
  }

  lemma PrecisionStage(f: string, b: nat, conv: Conv, rest: string)
    requires ConvOk(conv) && Continues(f, b, AfterWidth(conv), rest)
    ensures var c := b + |PrintPrecision(conv.precision)|;
            ParsePrecision(f, b) == (conv.precision, c) && Continues(f, c, AfterPrecision(conv), rest)
  {
    Heads(conv);
    Glue(PrintPrecision(conv.precision), AfterPrecision(conv), rest);
    PrecisionIs(f, b, conv.precision, AfterPrecision(conv) + rest);
    Advance(f, b, PrintPrecision(conv.precision), AfterPrecision(conv) + rest);
  }

  lemma LengthStage(f: string, c: nat, conv: Conv, rest: string)
    requires ConvOk(conv) && Continues(f, c, AfterPrecision(conv), rest)
    ensures var d := c + |conv.length|;
            Span(f, c, LengthChar) == d && d < |f| && f[c..d] == conv.length && f[d] == conv.terminal
  {
    Glue(conv.length, [conv.terminal], rest);
    SpanIs(f, c, LengthChar, conv.length, [conv.terminal] + rest);
    assert f[c + |conv.length|] == f[c + |conv.length|..][0];
  }

  /** The four scans of a specification stop where its parts end. */
  predicate ScannedAs(f: string, i: nat, conv: Conv, a: nat, b: nat, c: nat, d: nat) {
    && i <= a <= b <= c <= d < |f|
    && Span(f, i, FlagChar) == a && f[i..a] == conv.flags
    && ParseWidth(f, a) == (conv.width, b) && ParsePrecision(f, b) == (conv.precision, c)
    && Span(f, c, LengthChar) == d && f[c..d] == conv.length && f[d] == conv.terminal
  }

  lemma Assembled(f: string, i: nat, conv: Conv, a: nat, b: nat, c: nat, d: nat)
    requires ConvOk(conv) && ScannedAs(f, i, conv, a, b, c, d)
    ensures ParseConv(f, i) == Good(conv, d + 1)
  {
  }

  lemma FrontHalf(f: string, i: nat, conv: Conv, rest: string, a: nat, b: nat)
    requires ConvOk(conv) && Continues(f, i, conv.flags + AfterFlags(conv), rest)
    requires a == i + |conv.flags| && b == a + |PrintWidth(conv.width)|
    ensures Span(f, i, FlagChar) == a <= b <= |f| && f[i..a] == conv.flags
    ensures ParseWidth(f, a) == (conv.width, b) && Continues(f, b, AfterWidth(conv), rest)
  {
    FlagsStage(f, i, conv, rest);
    WidthStage(f, a, conv, rest);
  }

  lemma BackHalf(f: string, b: nat, conv: Conv, rest: string, c: nat, d: nat)
    requires ConvOk(conv) && Continues(f, b, AfterWidth(conv), rest)
    requires c == b + |PrintPrecision(conv.precision)| && d == c + |conv.length|
    ensures ParsePrecision(f, b) == (conv.precision, c) && c <= d < |f|
    ensures Span(f, c, LengthChar) == d && f[c..d] == conv.length && f[d] == conv.terminal
  {
    assert ParsePrecision(f, b) == (conv.precision, c) && Continues(f, c, AfterPrecision(conv), rest) by {
      PrecisionStage(f, b, conv, rest);
    }
    LengthStage(f, c, conv, rest);
  }

  lemma ConvParsed(f: string, i: nat, conv: Conv, rest: string)
    requires ConvOk(conv) && Continues(f, i, conv.flags + AfterFlags(conv), rest)
    ensures ParseConv(f, i) == Good(conv, i + |conv.flags + AfterFlags(conv)|)
  {
    var a := i + |conv.flags|;
    var b := a + |PrintWidth(conv.width)|;
    var c := b + |PrintPrecision(conv.precision)|;
    var d := c + |conv.length|;
    FrontHalf(f, i, conv, rest, a, b);
    BackHalf(f, b, conv, rest, c, d);
    Assembled(f, i, conv, a, b, c, d);
    Lengths(conv);
  }

  lemma Lengths(conv: Conv)
    ensures |conv.flags + AfterFlags(conv)| ==
            |conv.flags| + |PrintWidth(conv.width)| + |PrintPrecision(conv.precision)| + |conv.length| + 1
  {
  }

  /** Parsing a printed format gives back its pieces. */
  lemma {:induction false} ParsePrint(f: string, i: nat, ps: Pieces)
    requires Grammatical(ps) && i <= |f| && f[i..] == Print(ps)
    ensures Parse(f, i) == ps
    decreases ps
  {
    if ps.Cons? {
      var piece, rest := ps.piece, ps.rest;
      var j := i + |PrintPiece(piece)|;
      Advance(f, i, PrintPiece(piece), Print(rest));
      ParsePrint(f, j, rest);
      ConsParsed(f, i, piece, Print(rest), j, rest);
    } else {
      NothingLeft(f, i);
    }
  }

  lemma NothingLeft(f: string, i: nat)
    requires i <= |f| && f[i..] == ""
    ensures Parse(f, i) == End
  {
    assert |f[i..]| == |f| - i;
  }

  lemma ConsParsed(f: string, i: nat, piece: Piece, text: string, j: nat, rest: Pieces)
    requires PieceOk(piece) && Continues(f, i, PrintPiece(piece), text)
    requires j == i + |PrintPiece(piece)| <= |f| && Parse(f, j) == rest
    ensures Parse(f, i) == Cons(piece, rest)
  {
    assert HeadIs(f, i, piece, j) by { PieceParsed(f, i, piece, text); }
    HeadParsed(f, i, piece, j, rest);
  }

  lemma PieceParsed(f: string, i: nat, piece: Piece, text: string)
    requires PieceOk(piece) && Continues(f, i, PrintPiece(piece), text)
    requires i + |PrintPiece(piece)| <= |f|
    ensures HeadIs(f, i, piece, i + |PrintPiece(piece)|)
  {
    match piece {
      case Literal(c) => assert f[i] == f[i..][0];
      case Percent => assert f[i] == f[i..][0] && f[i + 1] == f[i..][1];
      case Spec(conv) => SpecParsed(f, i, conv, text);
    }
  }

  lemma SpecParsed(f: string, i: nat, conv: Conv, rest: string)
    requires ConvOk(conv) && Continues(f, i, PrintConv(conv), rest)
    requires i + |PrintConv(conv)| <= |f|
    ensures i < |f| && f[i] == '%' && At(f, i + 1) != '%'
    ensures ParseConv(f, i + 1) == Good(conv, i + |PrintConv(conv)|)
  {
    var text := conv.flags + AfterFlags(conv);
    Glue("%", text, rest);
    Advance(f, i, "%", text + rest);
    assert f[i] == f[i..][0];
    ConvParsed(f, i + 1, conv, rest);
    NotEscaped(conv);
    assert f[i + 1] == f[i + 1..][0] == text[0];
  }

  lemma NotEscaped(conv: Conv)
    requires ConvOk(conv)
    ensures (conv.flags + AfterFlags(conv))[0] != '%'
  {
    if conv.flags == [] && PrintWidth(conv.width) == [] && PrintPrecision(conv.precision) == [] && conv.length == [] {
      assert PrintConv(conv) == ['%', conv.terminal];
    } else {
      if conv.flags != [] { assert InClass(conv.flags[0], FlagChar); }
      if conv.length != [] { assert InClass(conv.length[0], LengthChar); }
      if conv.width.FixedWidth? && conv.width.digits != [] { assert InClass(conv.width.digits[0], DigitChar); }
    }
  }

  /** The parser accepts exactly the strings of the grammar. */
  lemma AcceptsExactlyGrammar(f: string)
    ensures Complete(Parse(f, 0)) <==> exists ps :: Grammatical(ps) && Print(ps) == f
  {
    assert f[0..] == f;
    if Complete(Parse(f, 0)) {
      PrintParse(f, 0);
    }
    if ps :| Grammatical(ps) && Print(ps) == f {
      ParsePrint(f, 0, ps);
      GrammaticalComplete(ps);
    }
  }

  lemma {:induction false} GrammaticalComplete(ps: Pieces)
    requires Grammatical(ps)
    ensures Complete(ps)
  {
    match ps {
      case End =>
      case Cons(_, rest) => GrammaticalComplete(rest);
    }
  }
}
