/** Formats and texts for which the decoder does not do what the format says, and their working neighbours. */
module FailingInputs {
  import opened Bytes
  import opened Format
  import opened Arguments
  import opened LogBuffers
  import opened Decoder
  import opened RoundTrip

  function Plain(precision: Precision, terminal: char): Conv {
    Conv("", FixedWidth(""), precision, "", terminal)
  }

  function Alone(conv: Conv): Pieces {
    Cons(Spec(conv), End)
  }

  const STARRED_WIDTH := Conv("", StarWidth, NoPrecision, "", 'd')

  lemma ParsesTo(fmt: string, ps: Pieces)
    requires Grammatical(ps) && Print(ps) == fmt
    ensures Parse(fmt, 0) == ps
  {
    assert fmt[0..] == fmt;
    ParsePrint(fmt, 0, ps);
  }

  lemma ParsesAlone(fmt: string, conv: Conv)
    requires ConvOk(conv) && PrintConv(conv) == fmt
    ensures Parse(fmt, 0) == Alone(conv)
    ensures Params(Alone(conv)) == StarTypes(conv.width, conv.precision) + [OwnType(conv)]
  {
    assert Print(Alone(conv)) == fmt;
    ParsesTo(fmt, Alone(conv));
  }

  // ---- Something after a text that made the buffer grow ----

  lemma StringFormats()
    ensures Parse("%s", 0) == Alone(Plain(NoPrecision, 's'))
    ensures Parse("%s!", 0) == Cons(Spec(Plain(NoPrecision, 's')), Cons(Literal('!'), End))
    ensures PrintConv(Plain(NoPrecision, 's')) == "%s"
  {
    var conv := Plain(NoPrecision, 's');
    assert PrintConv(conv) == "%s";
    ParsesAlone("%s", conv);
    assert Parse("%s!", 0) == Cons(Spec(conv), Cons(Literal('!'), End)) by {
      assert Print(Cons(Literal('!'), End)) == "!";
      assert Print(Cons(Spec(conv), Cons(Literal('!'), End))) == "%s!";
      ParsesTo("%s!", Cons(Spec(conv), Cons(Literal('!'), End)));
    }
  }

  lemma StringDecoded(render: Renderer, text: seq<byte>, size: nat)
    requires |text| < WORD32
    ensures var params := LeBytes(|text|, LENGTH_SIZE) + text;
            && Fetch(StringWithNoPrecision, size, params, 0) == Fetched(text, |params|)
            && DecodeOne(render, "%s", StringWithNoPrecision, size, params, 0) ==
               Decoded(render("%s", TextOp(text)), |params|)
  {
    var header := LeBytes(|text|, LENGTH_SIZE);
    var params := header + text;
    HeaderValue(|text|);
    assert params[0..] == params + [];
    FetchString(StringWithNoPrecision, size, header, text, [], params, 0);
  }

  /**
    With `%s` formatting always ends, grown buffer or not. With one character behind it, it ends only if
    that character has a place in the old buffer; else it is written through a dangling position.
   */
  lemma GrowthThenLiteral(render: Renderer, text: seq<byte>, size: nat, at: nat, capacity: nat)
    requires |text| < WORD32 && at <= capacity
    ensures var types, params := [StringWithNoPrecision], LeBytes(|text|, 4) + text;
            && FateOf(render, Parse("%s", 0), types, [size], params, 0, 0, at, capacity) == Ends
            && FateOf(render, Parse("%s!", 0), types, [size], params, 0, 0, at, capacity) ==
               (if at + |render("%s", TextOp(text))| < capacity then Ends else Breaks)
            && Walk(render, Parse("%s!", 0), types, [size], params, 0, 0) ==
               Line(render("%s", TextOp(text)) + "!", |params|)
  {
    StringFormats();
    var conv, params := Plain(NoPrecision, 's'), LeBytes(|text|, LENGTH_SIZE) + text;
    StringDecoded(render, text, size);
    StringFates(render, conv, End, size, params, text, at, capacity);
    StringFates(render, conv, Cons(Literal('!'), End), size, params, text, at, capacity);
  }

  /** One `%s`, and what comes behind it. */
  lemma StringFates(render: Renderer, conv: Conv, rest: Pieces, size: nat, params: seq<byte>, text: seq<byte>, at: nat,
                    capacity: nat)
    requires at <= capacity && PrintConv(conv) == "%s" && (rest == End || rest == Cons(Literal('!'), End))
    requires Fetch(StringWithNoPrecision, size, params, 0) == Fetched(text, |params|)
    requires DecodeOne(render, "%s", StringWithNoPrecision, size, params, 0) ==
             Decoded(render("%s", TextOp(text)), |params|)
    ensures var types, r := [StringWithNoPrecision], render("%s", TextOp(text));
            && FateOf(render, Cons(Spec(conv), rest), types, [size], params, 0, 0, at, capacity) ==
               (if rest == End || at + |r| < capacity then Ends else Breaks)
            && Walk(render, Cons(Spec(conv), rest), types, [size], params, 0, 0) ==
               Line(if rest == End then r else r + "!", |params|)
  {
    var types, r := [StringWithNoPrecision], render("%s", TextOp(text));
    assert r + "" == r && "!" + "" == "!";
    assert Walk(render, rest, types, [size], params, 1, |params|) == Line(if rest == End then "" else "!", |params|);
    if at + |r| <= capacity {
      assert FateOf(render, rest, types, [size], params, 1, |params|, at + |r|, capacity) ==
             if rest == End || at + |r| < capacity then Ends else Breaks;
    }
  }

  // ---- Stars ----

  /** The width is an argument of its own in the entry, and `snprintf` misses one: there is no line at all. */
  lemma StarWidthMisreads(render: Renderer, width: seq<byte>, value: seq<byte>)
    requires |width| == 4 && |value| == 4
    ensures var ps := Parse("%*d", 0);
            && Params(ps) == [DynamicWidth, NonString]
            && Walk(render, ps, Params(ps), [4, 4], width + value, 0, 0) == Misread
  {
    assert PrintConv(STARRED_WIDTH) == "%*d";
    ParsesAlone("%*d", STARRED_WIDTH);
    assert (width + value)[0..4] == width;
    assert "%*d"[1] == '*';
  }

  /** The precision is taken for the string: a line, but an empty one that leaves the string unread. */
  lemma StarPrecisionLosesText(render: Renderer, precision: seq<byte>, stored: seq<byte>, size: nat)
    requires |precision| == 4
    ensures var ps := Parse("%.*s", 0);
            && Params(ps) == [DynamicPrecision, StringWithDynamicPrecision]
            && Walk(render, ps, Params(ps), [4, size], precision + stored, 0, 0) == Line("", 4)
  {
    var conv := Plain(StarPrecision, 's');
    assert PrintConv(conv) == "%.*s";
    ParsesAlone("%.*s", conv);
    PrecisionDecoded(render, precision, stored);
    UnreadString(render, conv, precision + stored, size);
  }

  lemma PrecisionDecoded(render: Renderer, precision: seq<byte>, stored: seq<byte>)
    requires |precision| == 4
    ensures DecodeOne(render, "%.*s", DynamicPrecision, 4, precision + stored, 0) == Decoded("", 4)
  {
    assert (precision + stored)[0..4] == precision;
  }

  lemma UnreadString(render: Renderer, conv: Conv, params: seq<byte>, size: nat)
    requires PrintConv(conv) == "%.*s"
    requires DecodeOne(render, "%.*s", DynamicPrecision, 4, params, 0) == Decoded("", 4)
    ensures Walk(render, Alone(conv), [DynamicPrecision, StringWithDynamicPrecision], [4, size], params, 0, 0) ==
            Line("", 4)
  {
    var types := [DynamicPrecision, StringWithDynamicPrecision];
    assert Walk(render, End, types, [4, size], params, 1, 4) == Line("", 4);
    assert "" + "" == "";
  }

  // ---- Precisions and addresses ----

  /** `%.3s` stores all six bytes of a text of six. */
  lemma StaticPrecisionCutsNothing(text: seq<byte>)
    requires |text| == 6
    ensures Params(Parse("%.3s", 0)) == [StringWithPrecision(3)]
    ensures KeptLength(StringWithPrecision(3), WORD64 - 1, text) == 6
  {
    var conv := Plain(FixedPrecision("3"), 's');
    assert DigitsValue("3") == 3 by { assert "3"[..0] == ""; }
    assert PrintConv(conv) == "%.3s";
    ParsesAlone("%.3s", conv);
  }

  /** A `char*` for `%p` in front of an integer: the decoder reads the integer from the address. */
  lemma AddressShiftsNext(address: seq<byte>, value: seq<byte>)
    requires |address| == 8 && |value| == 4
    ensures var types, sizes, params := [NonString, NonString], [0, 4], address + value;
            Fetch(types[1], sizes[1], params, Cursor(types, sizes, params, 1)) == Fetched(address[..4], 4)
  {
    assert (address + value)[0..4] == address[..4];
  }

  // ---- Texts that do not fit ----

  const WIDE := Conv("", FixedWidth("2000000"), NoPrecision, "", 'd')

  /**
    An integer wider than the room left behind a prefix: there is a line for it, but it is printed with
    the whole buffer's length as the bound, and so over the end.
   */
  lemma WideIntegerOverruns(render: Renderer, value: seq<byte>, at: nat, capacity: nat)
    requires |value| == 4 && 0 < at <= capacity
    requires |render("%2000000d", IntOp(true, value))| >= capacity - at
    ensures var ps := Parse("%2000000d", 0);
            && Params(ps) == [NonString]
            && Walk(render, ps, [NonString], [4], value, 0, 0) == Line(render("%2000000d", IntOp(true, value)), 4)
            && FateOf(render, ps, [NonString], [4], value, 0, 0, at, capacity) == Breaks
  {
    assert PrintConv(WIDE) == "%2000000d";
    assert AllIn("2000000", DigitChar);
    ParsesAlone("%2000000d", WIDE);
    WideFate(render, WIDE, value, at, capacity);
  }

  lemma WideFate(render: Renderer, conv: Conv, value: seq<byte>, at: nat, capacity: nat)
    requires |value| == 4 && 0 < at <= capacity && PrintConv(conv) == "%2000000d"
    requires |render("%2000000d", IntOp(true, value))| >= capacity - at
    ensures Walk(render, Alone(conv), [NonString], [4], value, 0, 0) ==
            Line(render("%2000000d", IntOp(true, value)), 4)
    ensures FateOf(render, Alone(conv), [NonString], [4], value, 0, 0, at, capacity) == Breaks
  {
    var text := render("%2000000d", IntOp(true, value));
    assert value[0..4] == value;
    assert DecodeOne(render, "%2000000d", NonString, 4, value, 0) == Decoded(text, 4);
    assert text + "" == text;
    assert Walk(render, End, [NonString], [4], value, 1, 4) == Line("", 4);
  }

  // ---- Two threads at one call site ----

  /**
    A thread that has measured its text stores it with the size `n` of another thread's longer text: it
    reads past its own text, and writes more bytes than it has reserved.
   */
  lemma SharedSizeRunsOver(address: seq<byte>, text: seq<byte>, n: nat)
    requires |text| < n
    ensures var types, args := [StringWithNoPrecision], [Str(address, text)];
            && !Within(types, args, [n])
            && PackedSize(types, args, 0) == 4 + |text| < 4 + n
            && !StoresRight(types, args, [|text|], [n])
  {
    var types, args := [StringWithNoPrecision], [Str(address, text)];
    assert PackedSize(types, args, 1) == 0;
    assert args[0].Str? && IsString(types[0]) && [n][0] > |args[0].text|;
  }
}
