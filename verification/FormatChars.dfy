/** Which characters make up a specification, told by what the parser accepts. */
module FormatChars {
  import opened Format

  /** What the four scans behind the `%` find, and whether it makes a specification. */
  predicate Scans(f: string, a: nat, width: Width, b: nat, precision: Precision, c: nat, d: nat, good: bool) {
    && |f| > 1 && f[0] == '%' && f[1] != '%' && a <= |f| && b <= |f| && c <= |f| && d <= |f|
    && Span(f, 1, FlagChar) == a && ParseWidth(f, a) == (width, b)
    && ParsePrecision(f, b) == (precision, c) && Span(f, c, LengthChar) == d
    && (good <==>
          && (precision.FixedPrecision? ==> DigitsValue(precision.digits) <= 2147483647)
          && At(f, d) in "diuoxXfFeEgGaAcps%")
  }

  lemma FourScans(f: string, a: nat, width: Width, b: nat, precision: Precision, c: nat, d: nat, good: bool)
    requires Scans(f, a, width, b, precision, c, d, good)
    ensures ParseConv(f, 1).Good? <==> good
    ensures good ==> d < |f| && ParseConv(f, 1).end == d + 1
  {
  }

  lemma WholeFormat(f: string, d: nat, good: bool)
    requires |f| > 1 && f[0] == '%' && f[1] != '%'
    requires (ParseConv(f, 1).Good? <==> good) && (good ==> d < |f| && ParseConv(f, 1).end == d + 1)
    ensures Complete(Parse(f, 0)) <==> good && Complete(Parse(f, d + 1))
  {
  }

  lemma Stages(f: string, a: nat, width: Width, b: nat, precision: Precision, c: nat, d: nat, good: bool)
    requires Scans(f, a, width, b, precision, c, d, good)
    ensures good ==> d < |f|
    ensures Complete(Parse(f, 0)) <==> good && Complete(Parse(f, d + 1))
  {
    FourScans(f, a, width, b, precision, c, d, good);
    WholeFormat(f, d, good);
  }

  /** The conversion characters: all of `printf` except `%n`. */
  lemma ConversionCharacters(c: char)
    ensures Complete(Parse(['%', c], 0)) <==> c in "diuoxXfFeEgGaAcps%"
    ensures c in "diuoxXfFeEgGaAcps" ==>
              Params(Parse(['%', c], 0)) == [if c == 's' then StringWithNoPrecision else NonString]
  {
    var f := ['%', c];
    if c in "diuoxXfFeEgGaAcps" {
      var conv := Conv("", FixedWidth(""), NoPrecision, "", c);
      assert ParseConv(f, 1) == Good(conv, 2);
      assert Parse(f, 0) == Cons(Spec(conv), End);
    } else if c != '%' {
      assert ParseConv(f, 1).Bad?;
    }
  }

  lemma RunOfOne(f: string, i: nat, cls: CharClass)
    requires i < |f| && InClass(f[i], cls) && !InClass(At(f, i + 1), cls)
    ensures Span(f, i, cls) == i + 1
  {
  }

  /** What may stand before a conversion character: flags, width, precision and length. */
  lemma ModifierCharacters(c: char)
    requires c !in "diuoxXfFeEgGaAcps%"
    ensures Complete(Parse(['%', c, 'u'], 0)) <==> c in "-+ #0123456789.*hljztL"
  {
    var f := ['%', c, 'u'];
    assert Parse(f, 3) == End;
    if c in "-+ #0" {
      RunOfOne(f, 1, FlagChar);
      Stages(f, 2, FixedWidth(f[2..2]), 2, NoPrecision, 2, 2, true);
    } else if c == '*' {
      Stages(f, 1, StarWidth, 2, NoPrecision, 2, 2, true);
    } else if c in "123456789" {
      RunOfOne(f, 1, DigitChar);
      Stages(f, 1, FixedWidth(f[1..2]), 2, NoPrecision, 2, 2, true);
    } else {
      PlainModifier(c);
    }
  }

  lemma PlainModifier(c: char)
    requires c !in "diuoxXfFeEgGaAcps%" && c !in "-+ #0123456789*"
    ensures Complete(Parse(['%', c, 'u'], 0)) <==> c in ".hljztL"
  {
    var f := ['%', c, 'u'];
    assert Parse(f, 3) == End;
    if c == '.' {
      Stages(f, 1, FixedWidth(f[1..1]), 1, FixedPrecision(f[2..2]), 2, 2, true);
    } else if c in "hljztL" {
      RunOfOne(f, 1, LengthChar);
      Stages(f, 1, FixedWidth(f[1..1]), 1, NoPrecision, 1, 2, true);
    } else {
      Stages(f, 1, FixedWidth(f[1..1]), 1, NoPrecision, 1, 1, false);
    }
  }

  /** A precision of two digits is the decimal number they make. */
  lemma PrecisionValue(a: char, b: char)
    requires '0' <= a <= '9' && '0' <= b <= '9'
    ensures Params(Parse("%." + [a, b] + "s", 0)) ==
            [StringWithPrecision(10 * (a as int - '0' as int) + (b as int - '0' as int))]
  {
    var f := "%." + [a, b] + "s";
    var conv := Conv("", FixedWidth(""), FixedPrecision([a, b]), "", 's');
    TwoDigits(a, b);
    assert Parse(f, 0) == Cons(Spec(conv), End) by {
      assert PrintConv(conv) == f;
      assert Print(Cons(Spec(conv), End)) == PrintConv(conv) + "" == f;
      assert f[0..] == f;
      ParsePrint(f, 0, Cons(Spec(conv), End));
    }
    assert Params(Cons(Spec(conv), End)) == [OwnType(conv)] + [];
  }

  lemma TwoDigits(a: char, b: char)
    requires '0' <= a <= '9' && '0' <= b <= '9'
    ensures AllIn([a, b], DigitChar)
    ensures DigitsValue([a, b]) == 10 * (a as int - '0' as int) + (b as int - '0' as int)
  {
    var one: string := [a];
    assert [a, b][..1] == one;
    assert one[..0] == "";
    assert DigitsValue(one) == a as int - '0' as int;
  }

  /** A precision above `INT_MAX` is rejected, and no other. */
  lemma PrecisionLimit(digits: string)
    requires forall c | c in digits :: c in "0123456789"
    ensures AllIn(digits, DigitChar)
    ensures Complete(Parse("%." + digits + "s", 0)) <==> DigitsValue(digits) <= 2147483647
  {
    var f := "%." + digits + "s";
    var d := 2 + |digits|;
    assert AllIn(digits, DigitChar) by {
      assert forall i | 0 <= i < |digits| :: digits[i] in "0123456789";
    }
    assert f[2..] == digits + "s";
    SpanIs(f, 2, DigitChar, digits, "s");
    Stages(f, 1, FixedWidth(f[1..1]), 1, FixedPrecision(digits), d, d, DigitsValue(digits) <= 2147483647);
  }
}
