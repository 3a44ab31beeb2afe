/** Encoding the arguments of a call and decoding them later on another thread. */
module RoundTrip {
  import opened Bytes
  import opened Format
  import opened Arguments
  import opened StagingBuffers
  import opened LogBuffers
  import opened Decoder

  /** The line a call stands for: every specification rendered on its own argument as it was stored. */
  function Expected(render: Renderer, ps: Pieces, args: seq<Arg>, slots: seq<nat>, j: nat): string
    requires |args| <= |slots|
  {
    match ps
    case Cons(Literal(c), rest) => [c] + Expected(render, rest, args, slots, j)
    case Cons(Percent, rest) => "%" + Expected(render, rest, args, slots, j)
    case Cons(Spec(conv), rest) =>
      if j >= |args| then "" else ArgText(render, conv, args[j], slots[j]) + Expected(render, rest, args, slots, j + 1)
    case _ => ""
  }

  /** A string argument of a string conversion as text, a scalar under its C type, anything else as nothing. */
  function ArgText(render: Renderer, conv: Conv, a: Arg, slot: nat): string {
    match a
    case Str(_, text) =>
      if conv.terminal == 's' && slot <= |text| then render(PrintConv(conv), TextOp(text[..slot])) else ""
    case Scalar(_, bytes) =>
      var op := Select(conv.terminal, bytes);
      if op.Some? then render(PrintConv(conv), op.value) else ""
  }

  /** Strings are passed exactly where the format has string conversions. */
  predicate Matches(types: seq<ParamType>, args: seq<Arg>) {
    |types| == |args| && forall k | 0 <= k < |args| :: IsString(types[k]) <==> args[k].Str?
  }

  /** The size array tells the size of every scalar; what it says about strings is not looked at. */
  predicate KnowsScalars(args: seq<Arg>, sizes: seq<nat>) {
    |args| <= |sizes| && forall k | 0 <= k < |args| && args[k].Scalar? :: sizes[k] == |args[k].bytes|
  }

  /** Every specification fits the decoder's specification buffer, with a NUL behind it. */
  predicate ShortSpecs(ps: Pieces) {
    match ps
    case Cons(piece, rest) => (piece.Spec? ==> |PrintConv(piece.conv)| < 100) && ShortSpecs(rest)
    case _ => true
  }

  /** What is stored for argument `i` and after it starts at `cur`. */
  predicate StoredAt(types: seq<ParamType>, args: seq<Arg>, slots: seq<nat>, params: seq<byte>, i: nat, cur: nat)
    requires Within(types, args, slots) && i <= |args|
  {
    cur <= |params| && params[cur..] == Packed(types, args, slots, i)
  }

  lemma FetchString(t: ParamType, size: nat, header: seq<byte>, text: seq<byte>, rest: seq<byte>, params: seq<byte>,
                    cur: nat)
    requires IsString(t) && |header| == LENGTH_SIZE && LeValue(header) == |text|
    requires cur <= |params| && params[cur..] == (header + text) + rest
    ensures Fetch(t, size, params, cur) == Fetched(text, cur + |header + text|)
  {
    assert (header + text) + rest == header + (text + rest);
    Cut(params, cur, header, text + rest);
    Cut(params, cur + LENGTH_SIZE, text, rest);
  }

  lemma FetchScalar(t: ParamType, bytes: seq<byte>, rest: seq<byte>, params: seq<byte>, cur: nat)
    requires !IsString(t) && cur <= |params| && params[cur..] == bytes + rest
    ensures Fetch(t, |bytes|, params, cur) == Fetched(bytes, cur + |bytes|)
  {
    Cut(params, cur, bytes, rest);
  }

  /** The decoder fetches the very bytes the encoder stored, and arrives at the next argument. */
  lemma FetchStored(types: seq<ParamType>, args: seq<Arg>, slots: seq<nat>, sizes: seq<nat>, params: seq<byte>,
                    i: nat, cur: nat)
    requires Within(types, args, slots) && i < |args| && StoredAt(types, args, slots, params, i, cur)
    requires IsString(types[i]) <==> args[i].Str?
    requires KnowsScalars(args, sizes) && !TooLong(types[i], slots[i], args[i])
    ensures var next := cur + |PackedArg(types[i], slots[i], args[i])|;
            && Fetch(types[i], sizes[i], params, cur) == Fetched(Field(types[i], slots[i], args[i]), next)
            && StoredAt(types, args, slots, params, i + 1, next)
  {
    var t, slot, a, rest := types[i], slots[i], args[i], Packed(types, args, slots, i + 1);
    PackedStep(types, args, slots, i);
    Cut(params, cur, PackedArg(t, slot, a), rest);
    if a.Str? {
      HeaderValue(slot);
      FetchString(t, sizes[i], LeBytes(slot, LENGTH_SIZE), Field(t, slot, a), rest, params, cur);
    } else {
      assert PackedArg(t, slot, a) == a.bytes;
      FetchScalar(t, a.bytes, rest, params, cur);
    }
  }

  lemma HeaderValue(slot: nat)
    requires slot < WORD32
    ensures LeValue(LeBytes(slot, LENGTH_SIZE)) == slot
  {
    Pow256Values();
    LeRoundTrip(slot, LENGTH_SIZE);
  }

  lemma Cut(s: seq<byte>, cur: nat, a: seq<byte>, b: seq<byte>)
    requires cur <= |s| && s[cur..] == a + b
    ensures cur + |a| <= |s| && s[cur..cur + |a|] == a && s[cur + |a|..] == b
  {
    assert s[cur..][..|a|] == s[cur..cur + |a|];
    assert s[cur..][|a|..] == s[cur + |a|..];
  }

  /** A specification without stars has no star in its text. */
  lemma NoStar(conv: Conv)
    requires ConvOk(conv) && StarTypes(conv.width, conv.precision) == []
    ensures '*' !in PrintConv(conv)
  {
    NotIn(conv.flags, FlagChar);
    NotIn(conv.length, LengthChar);
    NotIn(conv.width.digits, DigitChar);
    if conv.precision.FixedPrecision? {
      NotIn(conv.precision.digits, DigitChar);
    }
  }

  lemma NotIn(s: string, cls: CharClass)
    requires AllIn(s, cls)
    ensures '*' !in s
  {
  }

  // ---- Addresses ----

  /** Where the decoder looks for argument `k`. */
  function Cursor(types: seq<ParamType>, sizes: seq<nat>, params: seq<byte>, k: nat): nat
    requires k <= |types| <= |sizes|
  {
    if k == 0 then 0
    else
      var cur := Cursor(types, sizes, params, k - 1);
      if !IsString(types[k - 1]) then cur + sizes[k - 1]
      else if cur + LENGTH_SIZE > |params| then cur
      else cur + LENGTH_SIZE + LeValue(params[cur..cur + LENGTH_SIZE])
  }

  predicate Address(t: ParamType, a: Arg) {
    a.Str? && !IsString(t)
  }

  lemma {:induction false} NoneTooLongAt(types: seq<ParamType>, args: seq<Arg>, slots: seq<nat>, i: nat, k: nat)
    requires |args| <= |types| && |args| <= |slots| && i <= k < |args| && NoneTooLong(types, args, slots, i)
    ensures !TooLong(types[k], slots[k], args[k])
    decreases k - i
  {
    if i == k {
    } else {
      NoneTooLongAt(types, args, slots, i + 1, k);
    }
  }

  /** Argument `k` is fetched where the cursor stands after those before it, and as it was stored. */
  predicate FetchedAt(types: seq<ParamType>, args: seq<Arg>, slots: seq<nat>, sizes: seq<nat>, params: seq<byte>,
                      k: nat)
    requires Within(types, args, slots) && |types| <= |sizes| && k < |args|
  {
    Fetch(types[k], sizes[k], params, Cursor(types, sizes, params, k)) ==
    Fetched(Field(types[k], slots[k], args[k]), Cursor(types, sizes, params, k + 1))
  }

  lemma CursorFetches(types: seq<ParamType>, sizes: seq<nat>, params: seq<byte>, k: nat, bytes: seq<byte>, next: nat)
    requires k < |types| <= |sizes|
    requires Fetch(types[k], sizes[k], params, Cursor(types, sizes, params, k)) == Fetched(bytes, next)
    ensures Cursor(types, sizes, params, k + 1) == next
  {
  }

  lemma FetchesOne(types: seq<ParamType>, args: seq<Arg>, slots: seq<nat>, sizes: seq<nat>, params: seq<byte>, k: nat)
    requires Within(types, args, slots) && NoneTooLong(types, args, slots, 0) && KnowsScalars(args, sizes)
    requires k < |args| == |types| <= |sizes| && (IsString(types[k]) <==> args[k].Str?)
    requires StoredAt(types, args, slots, params, k, Cursor(types, sizes, params, k))
    ensures FetchedAt(types, args, slots, sizes, params, k)
    ensures StoredAt(types, args, slots, params, k + 1, Cursor(types, sizes, params, k + 1))
  {
    var cur := Cursor(types, sizes, params, k);
    NoneTooLongAt(types, args, slots, 0, k);
    FetchStored(types, args, slots, sizes, params, k, cur);
    CursorFetches(types, sizes, params, k, Field(types[k], slots[k], args[k]),
                  cur + |PackedArg(types[k], slots[k], args[k])|);
  }

  /** Past an address, whose size the decoder takes for zero, everything is looked for eight bytes too early. */
  lemma AfterAddress(types: seq<ParamType>, args: seq<Arg>, slots: seq<nat>, params: seq<byte>, i: nat, cur: nat)
    requires Within(types, args, slots) && ArgsOk(args) && i < |args| && Address(types[i], args[i])
    requires StoredAt(types, args, slots, params, i, cur)
    ensures !StoredAt(types, args, slots, params, i + 1, cur)
  {
    PackedStep(types, args, slots, i);
    assert ArgOk(args[i]);
    assert |params[cur..]| == |params| - cur;
  }

  lemma AddressMisaligns(types: seq<ParamType>, args: seq<Arg>, slots: seq<nat>, sizes: seq<nat>, params: seq<byte>,
                         i: nat, cur: nat)
    requires |types| == |args| && ArgsOk(args) && Within(types, args, slots) && NoneTooLong(types, args, slots, 0)
    requires KnowsScalars(args, sizes)
    requires i < |args| && (IsString(types[i]) ==> args[i].Str?)
    requires Address(types[i], args[i]) ==> sizes[i] == 0
    requires StoredAt(types, args, slots, params, i, cur) && cur == Cursor(types, sizes, params, i)
    ensures StoredAt(types, args, slots, params, i + 1, Cursor(types, sizes, params, i + 1)) <==>
            !Address(types[i], args[i])
  {
    if Address(types[i], args[i]) {
      AfterAddress(types, args, slots, params, i, cur);
    } else {
      FetchesOne(types, args, slots, sizes, params, i);
    }
  }

  /** Up to argument `k` the decoder looks where the encoder stored. */
  predicate Aligned(types: seq<ParamType>, args: seq<Arg>, slots: seq<nat>, sizes: seq<nat>, params: seq<byte>, k: nat)
    requires Within(types, args, slots) && k <= |args| <= |types| <= |sizes|
  {
    forall i: nat | i <= k :: StoredAt(types, args, slots, params, i, Cursor(types, sizes, params, i))
  }

  predicate NoAddressBefore(types: seq<ParamType>, args: seq<Arg>, k: nat)
    requires k <= |args| <= |types|
  {
    forall i | 0 <= i < k :: !Address(types[i], args[i])
  }

  lemma AlignedStep(types: seq<ParamType>, args: seq<Arg>, slots: seq<nat>, sizes: seq<nat>, params: seq<byte>, k: nat)
    requires Within(types, args, slots) && k < |args| <= |types| <= |sizes|
    ensures Aligned(types, args, slots, sizes, params, k + 1) <==>
            && Aligned(types, args, slots, sizes, params, k)
            && StoredAt(types, args, slots, params, k + 1, Cursor(types, sizes, params, k + 1))
    ensures NoAddressBefore(types, args, k + 1) <==>
            NoAddressBefore(types, args, k) && !Address(types[k], args[k])
  {
  }

  lemma AlignedOnce(types: seq<ParamType>, args: seq<Arg>, slots: seq<nat>, sizes: seq<nat>, params: seq<byte>, k: nat)
    requires |types| == |args| && ArgsOk(args) && Within(types, args, slots) && NoneTooLong(types, args, slots, 0)
    requires KnowsScalars(args, sizes)
    requires k < |args| && (IsString(types[k]) ==> args[k].Str?)
    requires Address(types[k], args[k]) ==> sizes[k] == 0
    requires Aligned(types, args, slots, sizes, params, k) <==> NoAddressBefore(types, args, k)
    ensures Aligned(types, args, slots, sizes, params, k + 1) <==> NoAddressBefore(types, args, k + 1)
  {
    AlignedStep(types, args, slots, sizes, params, k);
    if NoAddressBefore(types, args, k) {
      var cur := Cursor(types, sizes, params, k);
      assert StoredAt(types, args, slots, params, k, cur);
      AddressMisaligns(types, args, slots, sizes, params, k, cur);
    }
  }

  /**
    A `char*` under a conversion that is not a string is stored as an address, but nothing ever writes
    its entry of the zero-initialised size array. The decoder looks for every argument where the encoder
    put it exactly if there is no such argument.
   */
  lemma {:induction false} AlignedWithoutAddresses(types: seq<ParamType>, args: seq<Arg>, slots: seq<nat>,
                                                   sizes: seq<nat>, k: nat)
    requires |types| == |args| && ArgsOk(args) && Within(types, args, slots) && NoneTooLong(types, args, slots, 0)
    requires KnowsScalars(args, sizes)
    requires forall i | 0 <= i < |args| :: IsString(types[i]) ==> args[i].Str?
    requires forall i | 0 <= i < |args| && Address(types[i], args[i]) :: sizes[i] == 0
    requires k <= |args|
    ensures Aligned(types, args, slots, sizes, Packed(types, args, slots, 0), k) <==> NoAddressBefore(types, args, k)
  {
    var params := Packed(types, args, slots, 0);
    if k == 0 {
      assert params[0..] == params;
    } else {
      AlignedWithoutAddresses(types, args, slots, sizes, k - 1);
      AlignedOnce(types, args, slots, sizes, params, k - 1);
    }
  }

  /**
    So it is for an entry decoded with the size array as its own, first call left it: sizing sets the
    entries of scalars and strings, and leaves that of an address zero.
   */
  lemma FirstCallAligned(types: seq<ParamType>, args: seq<Arg>, before: seq<nat>, slots: seq<nat>)
    requires |types| == |args| && ArgsOk(args) && SizedFrom(types, args, before, slots, 0)
    requires (forall i | 0 <= i < |before| :: before[i] == 0) && NoneTooLong(types, args, slots, 0)
    requires forall i | 0 <= i < |args| :: IsString(types[i]) ==> args[i].Str?
    ensures Within(types, args, slots) && |types| <= |slots|
    ensures Aligned(types, args, slots, slots, Packed(types, args, slots, 0), |args|) <==>
            forall i | 0 <= i < |args| :: !(args[i].Str? && !IsString(types[i]))
  {
    SizedWithin(types, args, before, slots);
    AlignedWithoutAddresses(types, args, slots, slots, |args|);
  }

  // ---- Decoding what was encoded ----

  lemma ArgRendered(render: Renderer, conv: Conv, t: ParamType, a: Arg, slot: nat)
    requires t == OwnType(conv) && ConvOk(conv) && '*' !in PrintConv(conv)
    requires (IsString(t) <==> a.Str?) && (a.Str? ==> slot <= |a.text|)
    ensures RenderArg(render, PrintConv(conv), t, Field(t, slot, a)) == Some(ArgText(render, conv, a, slot))
  {
    var spec := PrintConv(conv);
    assert spec[|spec| - 1] == conv.terminal;
  }

  lemma DecodedAs(render: Renderer, spec: string, t: ParamType, size: nat, params: seq<byte>, cur: nat,
                  bytes: seq<byte>, next: nat, text: string)
    requires 0 < |spec| < SPEC_CACHE && Fetch(t, size, params, cur) == Fetched(bytes, next)
    requires RenderArg(render, spec, t, bytes) == Some(text)
    ensures DecodeOne(render, spec, t, size, params, cur) == Decoded(text, next)
  {
  }

  /** In a format without stars the `j`-th specification has the `j`-th parameter. */
  lemma OwnParameter(types: seq<ParamType>, j: nat, conv: Conv, rest: Pieces)
    requires j <= |types| && types[j..] == Params(Cons(Spec(conv), rest))
    requires StarTypes(conv.width, conv.precision) == []
    ensures j < |types| && types[j] == OwnType(conv) && types[j + 1..] == Params(rest)
  {
    assert types[j..] == [OwnType(conv)] + Params(rest);
    assert types[j..][0] == types[j];
    assert types[j + 1..] == types[j..][1..];
  }

  /** Every argument is fetched as it was stored. */
  predicate AllFetched(types: seq<ParamType>, args: seq<Arg>, slots: seq<nat>, sizes: seq<nat>, params: seq<byte>)
    requires Within(types, args, slots) && |types| <= |sizes|
  {
    forall k | 0 <= k < |args| :: FetchedAt(types, args, slots, sizes, params, k)
  }

  /** With strings exactly for string conversions the decoder looks for every argument where it was stored. */
  lemma {:induction false} StoredAtCursor(types: seq<ParamType>, args: seq<Arg>, slots: seq<nat>, sizes: seq<nat>,
                                          params: seq<byte>, k: nat)
    requires Matches(types, args) && Within(types, args, slots) && NoneTooLong(types, args, slots, 0)
    requires KnowsScalars(args, sizes) && params == Packed(types, args, slots, 0) && k <= |args|
    ensures StoredAt(types, args, slots, params, k, Cursor(types, sizes, params, k))
  {
    if k == 0 {
      assert params[0..] == params;
    } else {
      StoredAtCursor(types, args, slots, sizes, params, k - 1);
      FetchesOne(types, args, slots, sizes, params, k - 1);
    }
  }

  lemma FetchesAll(types: seq<ParamType>, args: seq<Arg>, slots: seq<nat>, sizes: seq<nat>, params: seq<byte>)
    requires Matches(types, args) && Within(types, args, slots) && NoneTooLong(types, args, slots, 0)
    requires KnowsScalars(args, sizes) && params == Packed(types, args, slots, 0)
    ensures AllFetched(types, args, slots, sizes, params) && Cursor(types, sizes, params, |args|) == |params|
  {
    forall k | 0 <= k < |args| ensures FetchedAt(types, args, slots, sizes, params, k) {
      StoredAtCursor(types, args, slots, sizes, params, k);
      FetchesOne(types, args, slots, sizes, params, k);
    }
    var end := Cursor(types, sizes, params, |args|);
    StoredAtCursor(types, args, slots, sizes, params, |args|);
    assert |params[end..]| == |params| - end;
  }

  lemma StepDecoded(render: Renderer, conv: Conv, rest: Pieces, types: seq<ParamType>, args: seq<Arg>,
                    slots: seq<nat>, sizes: seq<nat>, params: seq<byte>, j: nat, cur: nat, next: nat, end: nat)
    requires j < |args| <= |types| <= |sizes| && |args| <= |slots|
    requires DecodeOne(render, PrintConv(conv), types[j], sizes[j], params, cur) ==
             Decoded(ArgText(render, conv, args[j], slots[j]), next)
    requires Walk(render, rest, types, sizes, params, j + 1, next) ==
             Line(Expected(render, rest, args, slots, j + 1), end)
    ensures Walk(render, Cons(Spec(conv), rest), types, sizes, params, j, cur) ==
            Line(Expected(render, Cons(Spec(conv), rest), args, slots, j), end)
  {
  }

  /** An argument that is fetched as it was stored looks as the call wants it. */
  lemma DecodeFetched(render: Renderer, conv: Conv, t: ParamType, size: nat, a: Arg, slot: nat, params: seq<byte>,
                      cur: nat, next: nat)
    requires ConvOk(conv) && StarTypes(conv.width, conv.precision) == [] && |PrintConv(conv)| < SPEC_CACHE
    requires t == OwnType(conv) && (IsString(t) <==> a.Str?) && (a.Str? ==> slot <= |a.text|)
    requires Fetch(t, size, params, cur) == Fetched(Field(t, slot, a), next)
    ensures DecodeOne(render, PrintConv(conv), t, size, params, cur) == Decoded(ArgText(render, conv, a, slot), next)
  {
    assert RenderArg(render, PrintConv(conv), t, Field(t, slot, a)) == Some(ArgText(render, conv, a, slot)) by {
      NoStar(conv);
      ArgRendered(render, conv, t, a, slot);
    }
    DecodedAs(render, PrintConv(conv), t, size, params, cur, Field(t, slot, a), next, ArgText(render, conv, a, slot));
  }

  /** Piece by piece, from any point of the format on. */
  lemma {:induction false} WalkFetched(render: Renderer, ps: Pieces, types: seq<ParamType>, args: seq<Arg>,
                                       slots: seq<nat>, sizes: seq<nat>, params: seq<byte>, j: nat)
    requires Grammatical(ps) && StarCount(ps) == 0 && ShortSpecs(ps)
    requires Matches(types, args) && Within(types, args, slots) && |types| <= |sizes|
    requires AllFetched(types, args, slots, sizes, params) && j <= |args| && types[j..] == Params(ps)
    ensures Walk(render, ps, types, sizes, params, j, Cursor(types, sizes, params, j)) ==
            Line(Expected(render, ps, args, slots, j), Cursor(types, sizes, params, |args|))
  {
    match ps {
      case End =>
        assert |types[j..]| == 0;
      case Cons(Spec(conv), rest) =>
        OwnParameter(types, j, conv, rest);
        assert FetchedAt(types, args, slots, sizes, params, j);
        WalkFetched(render, rest, types, args, slots, sizes, params, j + 1);
        DecodeFetched(render, conv, types[j], sizes[j], args[j], slots[j], params,
                      Cursor(types, sizes, params, j), Cursor(types, sizes, params, j + 1));
        StepDecoded(render, conv, rest, types, args, slots, sizes, params, j, Cursor(types, sizes, params, j),
                    Cursor(types, sizes, params, j + 1), Cursor(types, sizes, params, |args|));
      case Cons(_, rest) =>
        WalkFetched(render, rest, types, args, slots, sizes, params, j);
    }
  }

  /**
    For a format without stars whose strings and scalars match the arguments, decoding the stored bytes
    gives every specification its own argument, in order, and ends at the end of the entry. Of the size
    array only the entries of scalars matter, whoever wrote it last.
   */
  lemma DecodeEncode(render: Renderer, ps: Pieces, types: seq<ParamType>, args: seq<Arg>, slots: seq<nat>,
                     sizes: seq<nat>, params: seq<byte>)
    requires Grammatical(ps) && StarCount(ps) == 0 && ShortSpecs(ps) && types == Params(ps)
    requires Matches(types, args) && Within(types, args, slots) && NoneTooLong(types, args, slots, 0)
    requires KnowsScalars(args, sizes) && params == Packed(types, args, slots, 0)
    ensures Walk(render, ps, types, sizes, params, 0, 0) == Line(Expected(render, ps, args, slots, 0), |params|)
  {
    FetchesAll(types, args, slots, sizes, params);
    assert types[0..] == types;
    WalkFetched(render, ps, types, args, slots, sizes, params, 0);
  }

  // ---- One call site, many queued entries ----

  /** Arguments of the same C++ types: the types are fixed per call site. */
  predicate SameShape(a: seq<Arg>, b: seq<Arg>) {
    && |a| == |b|
    && forall k | 0 <= k < |a| :: a[k].Scalar? == b[k].Scalar? && (a[k].Scalar? ==> |a[k].bytes| == |b[k].bytes|)
  }

  /** `sizes[i + 1]` is what the shared size array holds after the `i`-th call from this place in the program. */
  predicate Calls(types: seq<ParamType>, calls: seq<seq<Arg>>, sizes: seq<seq<nat>>) {
    && |sizes| == |calls| + 1
    && forall i | 0 <= i < |calls| ::
         Matches(types, calls[i]) && SameShape(calls[i], calls[0]) &&
         SizedFrom(types, calls[i], sizes[i], sizes[i + 1], 0)
  }

  /** Whatever other call overwrote the size array last, the scalars' sizes in it are right. */
  lemma LastCallKnowsScalars(types: seq<ParamType>, calls: seq<seq<Arg>>, sizes: seq<seq<nat>>, i: nat, last: nat)
    requires Calls(types, calls, sizes) && i < |calls| && last < |calls|
    ensures KnowsScalars(calls[i], sizes[last + 1])
  {
    assert SameShape(calls[i], calls[0]) && SameShape(calls[last], calls[0]);
    var args := calls[i];
    forall k | 0 <= k < |args| && args[k].Scalar? ensures sizes[last + 1][k] == |args[k].bytes| {
      assert calls[last][k].Scalar? && |calls[last][k].bytes| == |calls[0][k].bytes|;
    }
  }

  /** Call `i` stores its arguments: no string of it is too long for its header. */
  predicate Stores(types: seq<ParamType>, calls: seq<seq<Arg>>, sizes: seq<seq<nat>>, i: nat) {
    && i < |calls| && i + 1 < |sizes| && |calls[i]| <= |types| && |calls[i]| <= |sizes[i + 1]|
    && NoneTooLong(types, calls[i], sizes[i + 1], 0)
  }

  /**
    Any number of entries from one call site can wait in a queue: each decodes to its own arguments with
    the size array as any later call left it.
   */
  lemma DeferredDecoding(render: Renderer, ps: Pieces, types: seq<ParamType>, calls: seq<seq<Arg>>,
                         sizes: seq<seq<nat>>, i: nat, last: nat)
    requires Calls(types, calls, sizes) && Stores(types, calls, sizes, i) && i <= last < |calls|
    requires Grammatical(ps) && StarCount(ps) == 0 && ShortSpecs(ps) && types == Params(ps)
    ensures Within(types, calls[i], sizes[i + 1]) && |types| <= |sizes[last + 1]|
    ensures var params := Packed(types, calls[i], sizes[i + 1], 0);
            Walk(render, ps, types, sizes[last + 1], params, 0, 0) ==
            Line(Expected(render, ps, calls[i], sizes[i + 1], 0), |params|)
  {
    SizedWithin(types, calls[i], sizes[i], sizes[i + 1]);
    LastCallKnowsScalars(types, calls, sizes, i, last);
    var params := Packed(types, calls[i], sizes[i + 1], 0);
    assert Matches(types, calls[i]);
    DecodeEncode(render, ps, types, calls[i], sizes[i + 1], sizes[last + 1], params);
  }

  // ---- Where the decoder's cursor goes ----

  /** With one parameter type per parameter of the format the decoder never runs out of them. */
  lemma {:induction false} EnoughParams(render: Renderer, ps: Pieces, types: seq<ParamType>, sizes: seq<nat>,
                                        params: seq<byte>, j: nat, cur: nat)
    requires |types| <= |sizes| && j + SpecCount(ps) <= |types|
    ensures !Walk(render, ps, types, sizes, params, j, cur).OutOfParams?
  {
    match ps {
      case Cons(Spec(conv), rest) =>
        match DecodeOne(render, PrintConv(conv), types[j], sizes[j], params, cur) {
          case Decoded(_, next) => EnoughParams(render, rest, types, sizes, params, j + 1, next);
          case Undecodable =>
        }
      case Cons(_, rest) => EnoughParams(render, rest, types, sizes, params, j, cur);
      case _ =>
    }
  }

  /** The failure branch of the decoder is dead for every format the analyser accepts. */
  lemma NeverOutOfParams(render: Renderer, fmt: string, sizes: seq<nat>, params: seq<byte>)
    requires Complete(Parse(fmt, 0)) && |Params(Parse(fmt, 0))| <= |sizes|
    ensures !Walk(render, Parse(fmt, 0), Params(Parse(fmt, 0)), sizes, params, 0, 0).OutOfParams?
  {
    ParamsCount(Parse(fmt, 0));
    EnoughParams(render, Parse(fmt, 0), Params(Parse(fmt, 0)), sizes, params, 0, 0);
  }

  // ---- Stars ----

  lemma CursorDecodes(render: Renderer, spec: string, types: seq<ParamType>, sizes: seq<nat>, params: seq<byte>,
                      j: nat, d: Decoded)
    requires j < |types| <= |sizes| && |spec| > 0 && d.Decoded?
    requires d == DecodeOne(render, spec, types[j], sizes[j], params, Cursor(types, sizes, params, j))
    ensures d.next == Cursor(types, sizes, params, j + 1)
  {
  }

  lemma SpecCursor(render: Renderer, conv: Conv, rest: Pieces, types: seq<ParamType>, sizes: seq<nat>,
                   params: seq<byte>, j: nat)
    requires j < |types| <= |sizes|
    requires Walk(render, Cons(Spec(conv), rest), types, sizes, params, j, Cursor(types, sizes, params, j)).Line?
    ensures var later := Walk(render, rest, types, sizes, params, j + 1, Cursor(types, sizes, params, j + 1));
            && later.Line?
            && Walk(render, Cons(Spec(conv), rest), types, sizes, params, j, Cursor(types, sizes, params, j)).cursor ==
               later.cursor
  {
    var cur := Cursor(types, sizes, params, j);
    var d := DecodeOne(render, PrintConv(conv), types[j], sizes[j], params, cur);
    CursorDecodes(render, PrintConv(conv), types, sizes, params, j, d);
    WalkStep(render, conv, rest, types, sizes, params, j, cur, d.text, d.next);
  }

  /** Specifications take parameters one by one, stars or not: a walk's cursor is that of as many arguments. */
  lemma {:induction false} WalkCursor(render: Renderer, ps: Pieces, types: seq<ParamType>, sizes: seq<nat>,
                                      params: seq<byte>, j: nat)
    requires j + SpecCount(ps) <= |types| <= |sizes|
    requires Walk(render, ps, types, sizes, params, j, Cursor(types, sizes, params, j)).Line?
    ensures Walk(render, ps, types, sizes, params, j, Cursor(types, sizes, params, j)).cursor ==
            Cursor(types, sizes, params, j + SpecCount(ps))
  {
    match ps {
      case Cons(Spec(conv), rest) =>
        SpecCursor(render, conv, rest, types, sizes, params, j);
        WalkCursor(render, rest, types, sizes, params, j + 1);
      case Cons(_, rest) => WalkCursor(render, rest, types, sizes, params, j);
      case _ =>
    }
  }

  lemma LineCursor(render: Renderer, ps: Pieces, types: seq<ParamType>, sizes: seq<nat>, params: seq<byte>, w: Walked)
    requires Complete(ps) && types == Params(ps) && |types| <= |sizes|
    requires w == Walk(render, ps, types, sizes, params, 0, 0) && w.Line?
    ensures |types| == SpecCount(ps) + StarCount(ps) && w.cursor == Cursor(types, sizes, params, SpecCount(ps))
  {
    ParamsCount(ps);
    WalkCursor(render, ps, types, sizes, params, 0);
  }

  /** No argument is stored in zero bytes. */
  predicate NoneEmpty(args: seq<Arg>) {
    forall a | a in args :: a.Scalar? ==> a.bytes != []
  }

  lemma NothingIsEmpty(types: seq<ParamType>, args: seq<Arg>, slots: seq<nat>, i: nat)
    requires Matches(types, args) && Within(types, args, slots) && i < |args| && NoneEmpty(args)
    ensures |Packed(types, args, slots, i)| > 0
  {
    PackedStep(types, args, slots, i);
    assert args[i] in args;
  }

  lemma CursorAtEnd(types: seq<ParamType>, args: seq<Arg>, slots: seq<nat>, sizes: seq<nat>, params: seq<byte>, k: nat)
    requires Matches(types, args) && Within(types, args, slots) && NoneTooLong(types, args, slots, 0)
    requires KnowsScalars(args, sizes) && params == Packed(types, args, slots, 0) && NoneEmpty(args) && k <= |args|
    ensures Cursor(types, sizes, params, k) == |params| <==> k == |args|
  {
    var cursor := Cursor(types, sizes, params, k);
    StoredAtCursor(types, args, slots, sizes, params, k);
    assert |Packed(types, args, slots, k)| == |params| - cursor;
    if k < |args| {
      NothingIsEmpty(types, args, slots, k);
    }
  }

  /** A walk that gets through a format with stars stops short of the entry's end. */
  lemma LineEnds(render: Renderer, ps: Pieces, types: seq<ParamType>, args: seq<Arg>, slots: seq<nat>,
                 sizes: seq<nat>, params: seq<byte>, w: Walked)
    requires Complete(ps) && types == Params(ps) && Matches(types, args) && NoneEmpty(args)
    requires Within(types, args, slots) && NoneTooLong(types, args, slots, 0) && KnowsScalars(args, sizes)
    requires params == Packed(types, args, slots, 0)
    requires w == Walk(render, ps, types, sizes, params, 0, 0) && w.Line?
    ensures w.cursor == |params| <==> StarCount(ps) == 0
  {
    LineCursor(render, ps, types, sizes, params, w);
    CursorAtEnd(types, args, slots, sizes, params, SpecCount(ps));
  }

  /** A specification too long for the decoder's buffer stops every walk that comes to it. */
  lemma {:induction false} LineMeansShort(render: Renderer, ps: Pieces, types: seq<ParamType>, sizes: seq<nat>,
                                          params: seq<byte>, j: nat, cur: nat)
    requires |types| <= |sizes| && Walk(render, ps, types, sizes, params, j, cur).Line?
    ensures ShortSpecs(ps)
  {
    match ps {
      case Cons(Spec(conv), rest) =>
        var d := DecodeOne(render, PrintConv(conv), types[j], sizes[j], params, cur);
        LineMeansShort(render, rest, types, sizes, params, j + 1, d.next);
      case Cons(_, rest) => LineMeansShort(render, rest, types, sizes, params, j, cur);
      case _ =>
    }
  }

  /**
    Decoding gives back what was encoded, up to the end of the entry, exactly for the formats without
    stars and with short specifications: a star has an argument in the entry, but no specification of its
    own, so that the decoder either gets lost or stops short.
   */
  lemma EndsWithEntry(render: Renderer, ps: Pieces, types: seq<ParamType>, args: seq<Arg>, slots: seq<nat>,
                      sizes: seq<nat>, params: seq<byte>)
    requires Grammatical(ps) && types == Params(ps) && Matches(types, args) && NoneEmpty(args)
    requires Within(types, args, slots) && NoneTooLong(types, args, slots, 0) && KnowsScalars(args, sizes)
    requires params == Packed(types, args, slots, 0)
    ensures Walk(render, ps, types, sizes, params, 0, 0) == Line(Expected(render, ps, args, slots, 0), |params|) <==>
            StarCount(ps) == 0 && ShortSpecs(ps)
  {
    GrammaticalComplete(ps);
    if StarCount(ps) == 0 && ShortSpecs(ps) {
      DecodeEncode(render, ps, types, args, slots, sizes, params);
    } else if Walk(render, ps, types, sizes, params, 0, 0).Line? {
      LineMeansShort(render, ps, types, sizes, params, 0, 0);
      LineEnds(render, ps, types, args, slots, sizes, params, Walk(render, ps, types, sizes, params, 0, 0));
    }
  }
}
