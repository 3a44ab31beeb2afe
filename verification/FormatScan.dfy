/** The analyser that rescans the format once per parameter, and what ties it to the one-pass parser. */
module FormatScan {
  import opened Format

  /** The outcome of an analysis; a rejected format does not compile. */
  datatype Scan = Type(t: ParamType) | Rejected

  /** The one-pass answer: the `k`-th parameter type, and what lies beyond the last one. */
  function Info(ps: Pieces, k: nat): Scan {
    if k < |Params(ps)| then Type(Params(ps)[k])
    else if Complete(ps) then Type(Invalid)
    else Rejected
  }

  lemma InfoFound(ps: Pieces, k: nat)
    requires k < |Params(ps)|
    ensures Info(ps, k) == Type(Params(ps)[k])
  {
  }

  lemma InfoStep(piece: Piece, rest: Pieces, k: nat)
    ensures Info(Cons(piece, rest), k) ==
            var own := PieceParams(piece);
            if k < |own| then Type(own[k]) else Info(rest, k - |own|)
  {
    var own, later := PieceParams(piece), Params(rest);
    assert Params(Cons(piece, rest)) == own + later && |own + later| == |own| + |later|;
    if k < |own| {
      assert (own + later)[k] == own[k];
    } else if k < |own| + |later| {
      assert (own + later)[k] == later[k - |own|];
    }
  }

  /** Consumes a run of flags, digits or length modifiers. */
  method Skip(fmt: string, start: nat, cls: CharClass) returns (pos: nat)
    requires start <= |fmt|
    ensures pos == Span(fmt, start, cls)
  {
    pos := start;
    while InClass(At(fmt, pos), cls)
      invariant start <= pos <= |fmt| && Span(fmt, start, cls) == Span(fmt, pos, cls)
      decreases |fmt| - pos
    {
      pos := pos + 1;
    }
  }

  lemma {:induction false} DigitsGrow(s: string, k: nat)
    requires AllIn(s, DigitChar) && k <= |s|
    ensures DigitsValue(s[..k]) <= DigitsValue(s)
    decreases |s|
  {
    if k == |s| {
      assert s[..k] == s;
    } else {
      var n := |s| - 1;
      DigitsGrow(s[..n], k);
      assert s[..n][..k] == s[..k];
    }
  }

  /** Reads the digits of a precision; `None` stands for an arithmetic overflow. */
  method ReadPrecision(fmt: string, start: nat) returns (ok: bool, precision: nat, pos: nat)
    requires start <= |fmt|
    ensures var digits := fmt[start..Span(fmt, start, DigitChar)];
            && ok == (DigitsValue(digits) <= INT_MAX)
            && (ok ==> precision == DigitsValue(digits) && pos == Span(fmt, start, DigitChar))
  {
    ghost var stop := Span(fmt, start, DigitChar);
    precision, pos := 0, start;
    while IsDigit(At(fmt, pos))
      invariant start <= pos <= stop <= |fmt| && stop == Span(fmt, pos, DigitChar)
      invariant AllIn(fmt[start..pos], DigitChar) && precision == DigitsValue(fmt[start..pos]) <= INT_MAX
      decreases |fmt| - pos
    {
      DigitsGrow(fmt[start..stop], pos + 1 - start);
      assert fmt[start..stop][..pos + 1 - start] == fmt[start..pos + 1];
      assert fmt[start..pos + 1][..pos - start] == fmt[start..pos];
      var digit := fmt[pos] as int - '0' as int;
      if 10 * precision + digit > INT_MAX {
        return false, precision, pos;
      }
      precision := 10 * precision + digit;
      pos := pos + 1;
    }
    ok := true;
  }

  /** What a scan of one specification leaves: an answer, or the position and the count to go on with. */
  datatype Progress = Answer(r: Scan) | GoOn(pos: nat, paramNum: nat)

  /** Width and flags: a star is a parameter of its own. */
  method ScanWidth(fmt: string, start: nat, paramNum: nat) returns (p: Progress)
    requires start <= |fmt|
    ensures var (width, b) := ParseWidth(fmt, Span(fmt, start, FlagChar));
            p == if width.FixedWidth? then GoOn(b, paramNum)
                 else if paramNum == 0 then Answer(Type(DynamicWidth)) else GoOn(b, paramNum - 1)
  {
    var pos := Skip(fmt, start, FlagChar);
    if At(fmt, pos) == '*' {
      if paramNum == 0 {
        return Answer(Type(DynamicWidth));
      }
      return GoOn(pos + 1, paramNum - 1);
    }
    pos := Skip(fmt, pos, DigitChar);
    return GoOn(pos, paramNum);
  }

  /** `precision` is -1 without a precision or with a dynamic one. */
  method ScanPrecision(fmt: string, start: nat, paramNum: nat)
    returns (p: Progress, hasDynamicPrecision: bool, precision: int)
    requires start <= |fmt|
    ensures var (prec, c) := ParsePrecision(fmt, start);
            && (prec.NoPrecision? ==> p == GoOn(c, paramNum) && !hasDynamicPrecision && precision == -1)
            && (prec.StarPrecision? ==>
                  if paramNum == 0 then p == Answer(Type(DynamicPrecision))
                  else p == GoOn(c, paramNum - 1) && hasDynamicPrecision && precision == -1)
            && (prec.FixedPrecision? ==>
                  if DigitsValue(prec.digits) > INT_MAX then p == Answer(Rejected)
                  else p == GoOn(c, paramNum) && !hasDynamicPrecision && precision == DigitsValue(prec.digits))
  {
    hasDynamicPrecision, precision := false, -1;
    var pos := start;
    if At(fmt, pos) == '.' {
      pos := pos + 1;
      if At(fmt, pos) == '*' {
        if paramNum == 0 {
          return Answer(Type(DynamicPrecision)), false, -1;
        }
        hasDynamicPrecision := true;
        return GoOn(pos + 1, paramNum - 1), true, -1;
      }
      var ok;
      ok, precision, pos := ReadPrecision(fmt, pos);
      if !ok {
        return Answer(Rejected), false, -1;
      }
    }
    p := GoOn(pos, paramNum);
  }

  /** How the one-pass parser's reading of a specification decides the scan. */
  function SpecProgress(fmt: string, start: nat, paramNum: nat): Progress
    requires start <= |fmt|
  {
    match ParseConv(fmt, start)
    case Bad(stars) => Answer(if paramNum < |stars| then Type(stars[paramNum]) else Rejected)
    case Good(conv, end) =>
      var own := PieceParams(Spec(conv));
      if paramNum < |own| then Answer(Type(own[paramNum])) else GoOn(end, paramNum - |own|)
  }

  /** What is left to ask once a specification has been read. */
  function Resume(fmt: string, p: Progress): Scan
    requires p.GoOn? ==> p.pos <= |fmt|
  {
    match p
    case Answer(r) => r
    case GoOn(end, n) => Info(Parse(fmt, end), n)
  }

  lemma ParseSpec(fmt: string, pos: nat)
    requires pos < |fmt| && fmt[pos] == '%' && At(fmt, pos + 1) != '%'
    ensures Parse(fmt, pos) == match ParseConv(fmt, pos + 1)
                               case Bad(stars) => Broken(stars)
                               case Good(conv, end) => Cons(Spec(conv), Parse(fmt, end))
  {
  }

  lemma BrokenInfo(stars: seq<ParamType>, num: nat)
    ensures Info(Broken(stars), num) == if num < |stars| then Type(stars[num]) else Rejected
  {
  }

  lemma SpecInfo(fmt: string, pos: nat, num: nat)
    requires pos < |fmt| && fmt[pos] == '%' && At(fmt, pos + 1) != '%'
    ensures var p := SpecProgress(fmt, pos + 1, num);
            && (p.GoOn? ==> pos < p.pos <= |fmt|)
            && Info(Parse(fmt, pos), num) == Resume(fmt, p)
  {
    match ParseConv(fmt, pos + 1) {
      case Good(conv, end) =>
        var rest := Parse(fmt, end);
        assert Parse(fmt, pos) == Cons(Spec(conv), rest) by { ParseSpec(fmt, pos); }
        InfoStep(Spec(conv), rest, num);
      case Bad(stars) =>
        assert Parse(fmt, pos) == Broken(stars) by { ParseSpec(fmt, pos); }
        BrokenInfo(stars, num);
    }
  }

  /** Plain text and escaped percent signs ask for nothing. */
  lemma TextInfo(fmt: string, pos: nat, num: nat)
    requires pos < |fmt|
    ensures fmt[pos] != '%' ==> Info(Parse(fmt, pos), num) == Info(Parse(fmt, pos + 1), num)
    ensures fmt[pos] == '%' && At(fmt, pos + 1) == '%' ==>
              pos + 2 <= |fmt| && Info(Parse(fmt, pos), num) == Info(Parse(fmt, pos + 2), num)
  {
    if fmt[pos] != '%' {
      var rest := Parse(fmt, pos + 1);
      assert Parse(fmt, pos) == Cons(Literal(fmt[pos]), rest);
      InfoStep(Literal(fmt[pos]), rest, num);
    } else if At(fmt, pos + 1) == '%' {
      var rest := Parse(fmt, pos + 2);
      assert Parse(fmt, pos) == Cons(Percent, rest);
      InfoStep(Percent, rest, num);
    }
  }

  /** One specification, from just after its `%`. */
  method ScanSpec(fmt: string, start: nat, paramNum: nat) returns (p: Progress)
    requires start <= |fmt|
    ensures p == SpecProgress(fmt, start, paramNum)
  {
    p := ScanWidth(fmt, start, paramNum);
    if p.Answer? {
      return;
    }
    var hasDynamicPrecision, precision;
    p, hasDynamicPrecision, precision := ScanPrecision(fmt, p.pos, p.paramNum);
    if p.Answer? {
      return;
    }
    var pos := Skip(fmt, p.pos, LengthChar);
    var num := p.paramNum;
    if !IsTerminal(At(fmt, pos)) {
      return Answer(Rejected);
    }
    if At(fmt, pos) == 'n' {
      return Answer(Rejected);
    }
    if num != 0 {
      return GoOn(pos + 1, num - 1);
    }
    if At(fmt, pos) != 's' {
      return Answer(Type(NonString));
    }
    if hasDynamicPrecision {
      return Answer(Type(StringWithDynamicPrecision));
    }
    return Answer(Type(if precision == -1 then StringWithNoPrecision else StringWithPrecision(precision)));
  }

  /**
    The type of the `paramNum`-th parameter, found by scanning from the front: for every parameter
    number the answer of one single pass. No position beyond the terminating NUL is looked at.
   */
  method GetParamInfo(fmt: string, paramNum: nat) returns (r: Scan)
    ensures r == Info(Parse(fmt, 0), paramNum)
  {
    ghost var answer := Info(Parse(fmt, 0), paramNum);
    var pos: nat, num := 0, paramNum;
    while pos < |fmt|
      invariant pos <= |fmt|
      invariant answer == Info(Parse(fmt, pos), num)
      decreases |fmt| - pos
    {
      TextInfo(fmt, pos, num);
      if fmt[pos] != '%' {
        pos := pos + 1;
      } else if At(fmt, pos + 1) == '%' {
        pos := pos + 2;
      } else {
        SpecInfo(fmt, pos, num);
        var p := ScanSpec(fmt, pos + 1, num);
        if p.Answer? {
          return p.r;
        }
        pos, num := p.pos, p.paramNum;
      }
    }
    return Type(Invalid);
  }

  datatype Count = Accepted(n: nat) | NotAccepted

  /**
    Counts the parameters by asking for one more until there is none. The loop ends, accepts exactly
    the formats of the grammar, and counts specifications plus stars.
   */
  method CountFmtParams(fmt: string) returns (r: Count)
    ensures r.Accepted? <==> Complete(Parse(fmt, 0))
    ensures r.Accepted? ==> r.n == |Params(Parse(fmt, 0))| == SpecCount(Parse(fmt, 0)) + StarCount(Parse(fmt, 0))
  {
    ghost var params := Params(Parse(fmt, 0));
    NoneInvalid(fmt, 0);
    var count: nat := 0;
    var info := GetParamInfo(fmt, count);
    while info != Type(Invalid)
      invariant count <= |params| && info == Info(Parse(fmt, 0), count)
      decreases |params| - count
    {
      if info.Rejected? {
        return NotAccepted;
      }
      count := count + 1;
      info := GetParamInfo(fmt, count);
    }
    ParamsCount(Parse(fmt, 0));
    return Accepted(count);
  }

  /** No parameter of a parsed format has the type that means "no such parameter". */
  lemma {:induction false} NoneInvalid(fmt: string, i: nat)
    requires i <= |fmt|
    ensures Invalid !in Params(Parse(fmt, i))
    decreases |fmt| - i
  {
    if i == |fmt| {
    } else if fmt[i] != '%' {
      NoneInvalid(fmt, i + 1);
    } else if At(fmt, i + 1) == '%' {
      NoneInvalid(fmt, i + 2);
    } else {
      match ParseConv(fmt, i + 1)
      case Bad(_) =>
      case Good(_, end) => NoneInvalid(fmt, end);
    }
  }

  /** The array of parameter types that the logging statement keeps. */
  method AnalyzeFormatString(fmt: string, nParams: nat) returns (types: seq<ParamType>)
    requires Complete(Parse(fmt, 0)) && nParams == |Params(Parse(fmt, 0))|
    ensures types == Params(Parse(fmt, 0))
  {
    ghost var params := Params(Parse(fmt, 0));
    types := [];
    for i := 0 to nParams
      invariant |types| == i && forall k | 0 <= k < i :: types[k] == params[k]
    {
      var info := GetParamInfo(fmt, i);
      assert info == Type(params[i]) by { InfoFound(Parse(fmt, 0), i); }
      types := types + [info.t];
    }
  }

  /** Rescanning is one-pass reading: for a printed grammatical format, parameter by parameter. */
  lemma InfoOfPrinted(ps: Pieces, k: nat)
    requires Grammatical(ps)
    ensures Info(Parse(Print(ps), 0), k) == Type(if k < |Params(ps)| then Params(ps)[k] else Invalid)
  {
    assert Print(ps)[0..] == Print(ps);
    ParsePrint(Print(ps), 0, ps);
    GrammaticalComplete(ps);
  }

  // ---- The decoder's scanner ----

  /** Where a scan for the first conversion character stops. */
  function TerminalFrom(fmt: string, i: nat): (j: nat)
    requires i <= |fmt|
    ensures i <= j <= |fmt|
    decreases |fmt| - i
  {
    if i < |fmt| && !IsTerminal(fmt[i]) then TerminalFrom(fmt, i + 1) else i
  }

  lemma {:induction false} NoTerminalBefore(fmt: string, i: nat, j: nat)
    requires i <= j < |fmt| && IsTerminal(fmt[j])
    requires forall k | i <= k < j :: !IsTerminal(fmt[k])
    ensures TerminalFrom(fmt, i) == j
    decreases j - i
  {
    if i == j {
    } else {
      NoTerminalBefore(fmt, i + 1, j);
    }
  }

  /** No character that a specification holds before its conversion character is one itself. */
  lemma NoInnerTerminal(fmt: string, i: nat, j: nat, cls: CharClass)
    requires i <= j <= |fmt| && AllIn(fmt[i..j], cls)
    ensures forall k | i <= k < j :: !IsTerminal(fmt[k])
  {
    forall k | i <= k < j ensures !IsTerminal(fmt[k]) {
      assert fmt[i..j][k - i] == fmt[k];
    }
  }

  /** Both scanners end a specification at the same character. */
  lemma ScannersAgree(fmt: string, i: nat)
    requires i <= |fmt| && ParseConv(fmt, i).Good?
    ensures TerminalFrom(fmt, i) + 1 == ParseConv(fmt, i).end
    ensures fmt[TerminalFrom(fmt, i)] == ParseConv(fmt, i).conv.terminal
  {
    var a := Span(fmt, i, FlagChar);
    var (width, b) := ParseWidth(fmt, a);
    var (precision, c) := ParsePrecision(fmt, b);
    var d := Span(fmt, c, LengthChar);
    NoInnerTerminal(fmt, i, a, FlagChar);
    if width.FixedWidth? { NoInnerTerminal(fmt, a, b, DigitChar); }
    if precision.FixedPrecision? { NoInnerTerminal(fmt, b + 1, c, DigitChar); }
    NoInnerTerminal(fmt, c, d, LengthChar);
    NoTerminalBefore(fmt, i, d);
  }
}
