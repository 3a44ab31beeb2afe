/** The deferred decoder: a second scan of the format that walks the packed bytes of one entry. */
module Decoder {
  import opened Bytes
  import opened Format
  import opened FormatScan
  import opened Arguments
  import opened StagingBuffers
  import opened LogBuffers

  /** A specification is copied to a zeroed array of this size; one that does not leave a NUL has no end. */
  const SPEC_CACHE: nat := 100

  datatype Fetched = Fetched(bytes: seq<byte>, next: nat) | OutOfEntry

  /** The bytes of the argument at `cur`, and where the next one starts. Strings bring their length along. */
  function Fetch(t: ParamType, size: nat, params: seq<byte>, cur: nat): Fetched {
    if IsString(t) then
      if cur + LENGTH_SIZE > |params| then OutOfEntry
      else
        var length := LeValue(params[cur..cur + LENGTH_SIZE]);
        var start := cur + LENGTH_SIZE;
        if start + length > |params| then OutOfEntry else Fetched(params[start..start + length], start + length)
    else if cur + size > |params| then OutOfEntry
    else Fetched(params[cur..cur + size], cur + size)
  }

  /** What is passed to `snprintf`, if it is called at all. */
  function OperandOf(spec: string, t: ParamType, bytes: seq<byte>): Option<Operand>
    requires |spec| > 0
  {
    if IsString(t) then Some(TextOp(bytes)) else Select(spec[|spec| - 1], bytes)
  }

  /** What an argument looks like in the line; a star would make `snprintf` look for an argument of its own. */
  function RenderArg(render: Renderer, spec: string, t: ParamType, bytes: seq<byte>): Option<string>
    requires |spec| > 0
  {
    match OperandOf(spec, t, bytes)
    case None => Some("")
    case Some(op) => if '*' in spec then None else Some(render(spec, op))
  }

  datatype Decoded = Decoded(text: string, next: nat) | Undecodable

  function DecodeOne(render: Renderer, spec: string, t: ParamType, size: nat, params: seq<byte>, cur: nat): Decoded
    requires |spec| > 0
  {
    match Fetch(t, size, params, cur)
    case OutOfEntry => Undecodable
    case Fetched(bytes, next) =>
      match RenderArg(render, spec, t, bytes)
      case None => Undecodable
      case Some(text) => if |spec| >= SPEC_CACHE then Undecodable else Decoded(text, next)
  }

  /** How the text of one specification fits where it is to be printed. */
  function FitOfSpec(spec: string, t: ParamType, size: nat, params: seq<byte>, cur: nat, n: nat, room: nat, at: nat)
    : Fit
    requires |spec| > 0 && Fetch(t, size, params, cur).Fetched?
  {
    FitOf(OperandOf(spec, t, Fetch(t, size, params, cur).bytes), n, room, at)
  }

  datatype Walked = Line(text: string, cursor: nat) | OutOfParams | Misread

  function Prepend(text: string, w: Walked): Walked {
    if w.Line? then w.(text := text + w.text) else w
  }

  /** The line a format and an entry's bytes stand for: piece by piece, one parameter per specification. */
  function Walk(render: Renderer, ps: Pieces, types: seq<ParamType>, sizes: seq<nat>, params: seq<byte>, j: nat,
                cur: nat): Walked
    requires |types| <= |sizes|
  {
    match ps
    case End => Line("", cur)
    case Broken(_) => Misread
    case Cons(Literal(c), rest) => Prepend([c], Walk(render, rest, types, sizes, params, j, cur))
    case Cons(Percent, rest) => Prepend("%", Walk(render, rest, types, sizes, params, j, cur))
    case Cons(Spec(conv), rest) =>
      if j >= |types| then OutOfParams
      else match DecodeOne(render, PrintConv(conv), types[j], sizes[j], params, cur)
        case Undecodable => Misread
        case Decoded(text, next) => Prepend(text, Walk(render, rest, types, sizes, params, j + 1, next))
  }

  lemma WalkStep(render: Renderer, conv: Conv, rest: Pieces, types: seq<ParamType>, sizes: seq<nat>,
                 params: seq<byte>, j: nat, cur: nat, text: string, next: nat)
    requires j < |types| <= |sizes|
    requires DecodeOne(render, PrintConv(conv), types[j], sizes[j], params, cur) == Decoded(text, next)
    ensures Walk(render, Cons(Spec(conv), rest), types, sizes, params, j, cur) ==
            Prepend(text, Walk(render, rest, types, sizes, params, j + 1, next))
  {
  }

  /**
    Anywhere in a format a parameter that is not a string takes as many bytes as the size array says, and
    they are shown under the C type of that size and conversion; a size or a conversion not listed here
    shows nothing.
   */
  lemma ScalarShown(render: Renderer, conv: Conv, rest: Pieces, types: seq<ParamType>, sizes: seq<nat>,
                    params: seq<byte>, j: nat, cur: nat)
    requires j < |types| <= |sizes| && cur + sizes[j] <= |params|
    requires types[j] == NonString || types[j] == DynamicWidth || types[j] == DynamicPrecision
    requires '*' !in PrintConv(conv) && |PrintConv(conv)| < 100
    ensures var (next, k, c) := (cur + sizes[j], sizes[j], conv.terminal);
            var (spec, bytes) := (PrintConv(conv), params[cur..next]);
            Walk(render, Cons(Spec(conv), rest), types, sizes, params, j, cur) ==
            Prepend(if c in "di" && k in {1, 2, 4, 8} then render(spec, IntOp(true, bytes))
                    else if c in "uoxX" && k in {1, 2, 4, 8} then render(spec, IntOp(false, bytes))
                    else if c in "fFeEgGaA" && k in {4, 8} then render(spec, FloatOp(bytes))
                    else if c == 'c' && k == 1 then render(spec, CharOp(bytes))
                    else "",
                    Walk(render, rest, types, sizes, params, j + 1, next))
  {
    var (next, spec) := (cur + sizes[j], PrintConv(conv));
    var op := Select(conv.terminal, params[cur..next]);
    var text := if op.None? then "" else render(spec, op.value);
    assert DecodeOne(render, spec, types[j], sizes[j], params, cur) == Decoded(text, next) by {
      assert spec[|spec| - 1] == conv.terminal;
    }
    WalkStep(render, conv, rest, types, sizes, params, j, cur, text, next);
    Selected(conv.terminal, params[cur..next]);
  }

  lemma Selected(c: char, bytes: seq<byte>)
    ensures Select(c, bytes) ==
            if c in "di" && |bytes| in {1, 2, 4, 8} then Some(IntOp(true, bytes))
            else if c in "uoxX" && |bytes| in {1, 2, 4, 8} then Some(IntOp(false, bytes))
            else if c in "fFeEgGaA" && |bytes| in {4, 8} then Some(FloatOp(bytes))
            else if c == 'c' && |bytes| == 1 then Some(CharOp(bytes))
            else None
  {
  }

  /** A string parameter brings its length along, in four bytes, and its bytes are shown as text. */
  lemma StringShown(render: Renderer, conv: Conv, rest: Pieces, types: seq<ParamType>, sizes: seq<nat>,
                    params: seq<byte>, j: nat, cur: nat)
    requires j < |types| <= |sizes| && cur + 4 <= |params|
    requires types[j].StringWithNoPrecision? || types[j].StringWithPrecision? || types[j].StringWithDynamicPrecision?
    requires cur + 4 + LeValue(params[cur..cur + 4]) <= |params|
    requires '*' !in PrintConv(conv) && |PrintConv(conv)| < 100
    ensures var next := cur + 4 + LeValue(params[cur..cur + 4]);
            Walk(render, Cons(Spec(conv), rest), types, sizes, params, j, cur) ==
            Prepend(render(PrintConv(conv), TextOp(params[cur + 4..next])),
                    Walk(render, rest, types, sizes, params, j + 1, next))
  {
    var next := cur + 4 + LeValue(params[cur..cur + 4]);
    WalkStep(render, conv, rest, types, sizes, params, j, cur, render(PrintConv(conv), TextOp(params[cur + 4..next])),
             next);
  }

  /** A character that starts no specification stands for itself, and two percent signs stand for one. */
  lemma CharacterShown(render: Renderer, fmt: string, i: nat, types: seq<ParamType>, sizes: seq<nat>,
                       params: seq<byte>, j: nat, cur: nat)
    requires |types| <= |sizes| && i < |fmt|
    ensures fmt[i] != '%' ==>
              Walk(render, Parse(fmt, i), types, sizes, params, j, cur) ==
              Prepend([fmt[i]], Walk(render, Parse(fmt, i + 1), types, sizes, params, j, cur))
    ensures fmt[i] == '%' && At(fmt, i + 1) == '%' ==>
              Walk(render, Parse(fmt, i), types, sizes, params, j, cur) ==
              Prepend("%", Walk(render, Parse(fmt, i + 2), types, sizes, params, j, cur))
  {
  }

  /** How formatting one entry ends. */
  datatype Fate =
    | Ends    // normally
    | RunsOut // a specification is left without a parameter
    | Breaks  // without a defined behaviour
    | Spins   // never

  /** After a growth the position points into the old buffer: nothing more can be written. */
  function Stale(rest: Pieces, j: nat, n: nat): Fate {
    match rest
    case End => Ends
    case Cons(Spec(_), _) => if j >= n then RunsOut else Breaks
    case _ => Breaks
  }

  /**
    The fate of the pieces to come at position `at` of a buffer of `capacity` characters: a character of
    the format needs a free place, and an argument must fit, or come last and make the buffer grow.
   */
  function FateOf(render: Renderer, ps: Pieces, types: seq<ParamType>, sizes: seq<nat>, params: seq<byte>, j: nat,
                  cur: nat, at: nat, capacity: nat): Fate
    requires |types| <= |sizes| && at <= capacity
  {
    match ps
    case End => Ends
    case Broken(_) => Breaks
    case Cons(Spec(conv), rest) =>
      if j >= |types| then RunsOut
      else
        var d := DecodeOne(render, PrintConv(conv), types[j], sizes[j], params, cur);
        if d.Undecodable? then Breaks
        else
          var fit := FitOfSpec(PrintConv(conv), types[j], sizes[j], params, cur, |d.text|, capacity - at, at);
          if fit.InPlace? then FateOf(render, rest, types, sizes, params, j + 1, d.next, at + |d.text|, capacity)
          else if fit.Grows? then Stale(rest, j + 1, |types|)
          else if fit.Overruns? then Breaks
          else Spins
    case Cons(_, rest) =>
      if at < capacity then FateOf(render, rest, types, sizes, params, j, cur, at + 1, capacity) else Breaks
  }

  lemma PrependTwice(a: string, b: string, w: Walked)
    ensures Prepend(a, Prepend(b, w)) == Prepend(a + b, w)
  {
    if w.Line? {
      assert a + (b + w.text) == (a + b) + w.text;
    }
  }

  lemma ShowsMore(before: seq<char>, after: seq<char>, at: nat, a: string, b: string, except: int)
    requires Shows(before, at, a, except) && at + |a| <= |after| && after[..at + |a|] == before[..at + |a|]
    requires Shows(after, at + |a|, b, except)
    ensures Shows(after, at, a + b, except)
    ensures after[..at] == before[..at]
  {
    assert after[..at] == after[..at + |a|][..at] == before[..at + |a|][..at] == before[..at];
    forall k | 0 <= k < |a + b| && at + k != except ensures after[at + k] == (a + b)[k] {
      if k < |a| {
        assert after[..at + |a|][at + k] == before[..at + |a|][at + k];
      } else {
        assert after[at + |a| + (k - |a|)] == b[k - |a|];
      }
    }
  }

  /** A text no longer than the room is printed but for the last character of the buffer. */
  lemma PrintShows(s: seq<char>, at: nat, size: nat, text: string)
    requires at + size == |s| && |text| <= size
    ensures var r := AfterPrint(s, at, size, text); r[..at] == s[..at] && Shows(r, at, text, |s| - 1)
  {
  }

  lemma SliceShows(s: seq<char>, at: nat, text: string, except: int)
    requires at + |text| <= |s| && s[at..at + |text|] == text
    ensures Shows(s, at, text, except)
  {
    forall k | 0 <= k < |text| ensures s[at + k] == text[k] {
      assert s[at..at + |text|][k] == s[at + k];
    }
  }

  /** What formatting one entry comes to; see `Fate`. */
  datatype Outcome = Done(end: nat) | Failed | Undefined | Stuck

  predicate Meets(r: Outcome, fate: Fate) {
    match fate
    case Ends => r.Done?
    case RunsOut => r.Failed?
    case Breaks => r.Undefined?
    case Spins => r.Stuck?
  }

  /** The decoder's search for the conversion character. */
  method ScanToTerminal(fmt: string, start: nat) returns (pos: nat)
    requires start <= |fmt| && TerminalFrom(fmt, start) < |fmt|
    ensures pos == TerminalFrom(fmt, start)
  {
    pos := start;
    while !IsTerminal(At(fmt, pos))
      invariant start <= pos <= TerminalFrom(fmt, start) == TerminalFrom(fmt, pos)
      decreases |fmt| - pos
    {
      pos := pos + 1;
    }
  }

  /** `text` is in the buffer at `start`, what was in front of it still is, and `room` is counted from `start`. */
  ghost predicate Displayed(before: seq<char>, after: seq<char>, text: string, start: nat, n: nat, room: nat) {
    && n == |text| <= room && start + room == |after| && start <= |before|
    && after[..start] == before[..start] && Shows(after, start, text, |before| - 1)
  }

  /** What the outcome of rendering, and whether the buffer is still the same one, say about the fit. */
  predicate FitShown(fit: Fit, r: Rendering, same: bool) {
    match fit
    case InPlace => r.Length? && same
    case Grows => r.Length? && !same
    case Overruns => r.Overrun?
    case Loops => r.Endless?
  }

  method ShowString(log: LogBuffer, render: Renderer, spec: string, bytes: seq<byte>, start: nat, reserved: nat)
    returns (n: nat, room: nat)
    requires log.Valid() && start + reserved == log.len
    modifies log, log.data
    ensures log.Valid() && (log.data == old(log.data) || fresh(log.data))
    ensures var text := render(spec, TextOp(bytes));
            && Displayed(old(log.data[..]), log.data[..], text, start, n, room)
            && (log.data == old(log.data) <==> |text| <= reserved)
  {
    ghost var before := log.data[..];
    ghost var text := render(spec, TextOp(bytes));
    n, room := log.DecodeString(render, reserved, start, spec, bytes);
    if n <= reserved {
      PrintShows(before, start, reserved, text);
    } else {
      SliceShows(log.data[..], start, text, |before| - 1);
    }
  }

  method ShowScalar(log: LogBuffer, render: Renderer, spec: string, bytes: seq<byte>, start: nat, reserved: nat)
    returns (r: Rendering, room: nat)
    requires log.Valid() && start + reserved == log.len && |spec| > 0
    modifies log, log.data
    ensures log.Valid() && (r.Length? ==> log.data == old(log.data) || fresh(log.data))
    ensures var op := Select(spec[|spec| - 1], bytes);
            var text := if op.None? then "" else render(spec, op.value);
            var fit := FitOf(op, |text|, reserved, start);
            && FitShown(fit, r, log.data == old(log.data))
            && (r.Length? ==> Displayed(old(log.data[..]), log.data[..], text, start, r.n, room))
  {
    ghost var before := log.data[..];
    r, room := log.DecodeNonString(render, reserved, start, spec, bytes);
    if r.Length? && Select(spec[|spec| - 1], bytes).Some? {
      ghost var text := render(spec, Select(spec[|spec| - 1], bytes).value);
      if |text| < reserved {
        PrintFits(before, start, reserved, text);
        PrintShows(before, start, reserved, text);
      } else {
        SliceShows(log.data[..], start, text, |before| - 1);
      }
    }
  }

  /**
    One specification: fetch, move the cursor, render at `start`. What is in front of `start` stays; the
    text `d.text` appears, or not, as its `fit` says.
   */
  method DecodeSpec(log: LogBuffer, render: Renderer, spec: string, t: ParamType, size: nat, params: seq<byte>,
                    cur: nat, start: nat, reserved: nat, ghost d: Decoded, ghost fit: Fit)
    returns (r: Rendering, room: nat, next: nat)
    requires log.Valid() && start + reserved == log.len && |spec| > 0
    requires d == DecodeOne(render, spec, t, size, params, cur) && d.Decoded?
    requires fit == FitOfSpec(spec, t, size, params, cur, |d.text|, reserved, start)
    modifies log, log.data
    ensures log.Valid() && (r.Length? ==> log.data == old(log.data) || fresh(log.data))
    ensures next == d.next && FitShown(fit, r, log.data == old(log.data))
    ensures r.Length? ==> Displayed(old(log.data[..]), log.data[..], d.text, start, r.n, room)
  {
    if IsString(t) {
      var length := LeValue(params[cur..cur + LENGTH_SIZE]);
      next := cur + LENGTH_SIZE + length;
      var n;
      n, room := ShowString(log, render, spec, params[cur + LENGTH_SIZE..next], start, reserved);
      r := Length(n);
    } else {
      next := cur + size;
      r, room := ShowScalar(log, render, spec, params[cur..next], start, reserved);
    }
  }

  /** What the loop of `ProcessFmt` has done once `out` is written and `rest` is still to come. */
  ghost predicate Progressed(before: seq<char>, now: seq<char>, grown: bool, startPos: nat, out: string) {
    && startPos <= |before| && startPos <= |now| && now[..startPos] == before[..startPos]
    && Shows(now, startPos, out, |before| - 1)
    && (if grown then startPos + |out| >= |before| else |now| == |before|)
  }

  lemma CharProgress(before: seq<char>, now: seq<char>, startPos: nat, out: string, c: char)
    requires Progressed(before, now, false, startPos, out) && startPos + |out| < |now|
    ensures Progressed(before, now[startPos + |out| := c], false, startPos, out + [c])
  {
  }

  lemma SpecProgressed(before: seq<char>, now: seq<char>, after: seq<char>, grown: bool, startPos: nat, out: string,
                       text: string)
    requires Progressed(before, now, false, startPos, out)
    requires startPos + |out| <= |after| && after[..startPos + |out|] == now[..startPos + |out|]
    requires Shows(after, startPos + |out|, text, |before| - 1)
    requires if grown then startPos + |out| + |text| >= |before| else |after| == |before|
    ensures Progressed(before, after, grown, startPos, out + text)
  {
    ShowsMore(now, after, startPos, out, text, |before| - 1);
  }

  lemma Fitted(before: seq<char>, now: seq<char>, grown: bool, startPos: nat, out: string)
    requires Progressed(before, now, grown, startPos, out) && startPos + |out| < |before|
    ensures !grown && now[startPos..startPos + |out|] == out
  {
    assert forall k | 0 <= k < |out| :: now[startPos..startPos + |out|][k] == now[startPos + k] == out[k];
  }

  lemma PrependNothing(w: Walked)
    ensures Prepend("", w) == w
  {
    if w.Line? {
      assert "" + w.text == w.text;
    }
  }

  lemma WalkChar(render: Renderer, ps: Pieces, c: char, types: seq<ParamType>, sizes: seq<nat>, params: seq<byte>,
                 j: nat, cur: nat, out: string)
    requires |types| <= |sizes| && ps.Cons? && (ps.piece == Literal(c) || (ps.piece == Percent && c == '%'))
    ensures Prepend(out, Walk(render, ps, types, sizes, params, j, cur)) ==
            Prepend(out + [c], Walk(render, ps.rest, types, sizes, params, j, cur))
  {
    PrependTwice(out, [c], Walk(render, ps.rest, types, sizes, params, j, cur));
  }

  lemma WalkSpec(render: Renderer, ps: Pieces, spec: string, types: seq<ParamType>, sizes: seq<nat>, params: seq<byte>,
                 j: nat, cur: nat, out: string)
    requires |types| <= |sizes| && ps.Cons? && ps.piece.Spec? && spec == PrintConv(ps.piece.conv)
    ensures Prepend(out, Walk(render, ps, types, sizes, params, j, cur)) ==
            if j >= |types| then OutOfParams
            else match DecodeOne(render, spec, types[j], sizes[j], params, cur)
              case Undecodable => Misread
              case Decoded(text, next) =>
                Prepend(out + text, Walk(render, ps.rest, types, sizes, params, j + 1, next))
  {
    if j < |types| {
      var d := DecodeOne(render, spec, types[j], sizes[j], params, cur);
      if d.Decoded? {
        PrependTwice(out, d.text, Walk(render, ps.rest, types, sizes, params, j + 1, d.next));
      }
    }
  }

  /** Cuts out the specification at `pos`: the very one the analyser read. */
  method CutSpec(fmt: string, pos: nat, ghost ps: Pieces) returns (spec: string, end: nat)
    requires pos < |fmt| && fmt[pos] == '%' && At(fmt, pos + 1) != '%'
    requires ps == Parse(fmt, pos) && Complete(ps)
    ensures ps.Cons? && ps.piece.Spec? && spec == PrintConv(ps.piece.conv)
    ensures pos < end <= |fmt| && ps.rest == Parse(fmt, end)
  {
    ParseSpec(fmt, pos);
    ScannersAgree(fmt, pos + 1);
    ConvPrinted(fmt, pos + 1);
    var terminal := ScanToTerminal(fmt, pos + 1);
    end := terminal + 1;
    spec := fmt[pos..end];
  }

  /** The fate of what is still to come, in a buffer that may have grown. */
  function FateLeft(render: Renderer, ps: Pieces, types: seq<ParamType>, sizes: seq<nat>, params: seq<byte>, j: nat,
                    cur: nat, at: nat, capacity: nat, grown: bool): Fate
    requires |types| <= |sizes| && (grown || at <= capacity)
  {
    if grown then Stale(ps, j, |types|) else FateOf(render, ps, types, sizes, params, j, cur, at, capacity)
  }

  /**
    `out` has been written of the line `w`, the walk of `ps` gives what is still to come, and its fate is
    that of the whole entry.
   */
  ghost predicate OnTrack(render: Renderer, ps: Pieces, types: seq<ParamType>, sizes: seq<nat>, params: seq<byte>,
                          j: nat, cur: nat, w: Walked, fate: Fate, before: seq<char>, now: seq<char>, grown: bool,
                          startPos: nat, out: string) {
    && |types| <= |sizes| && Complete(ps)
    && w == Prepend(out, Walk(render, ps, types, sizes, params, j, cur))
    && Progressed(before, now, grown, startPos, out)
    && fate == FateLeft(render, ps, types, sizes, params, j, cur, startPos + |out|, |before|, grown)
  }

  /** Appends a character, if the position still points into the buffer. */
  method PutChar(log: LogBuffer, base: array<char>, logPos: nat, c: char, ghost render: Renderer, ghost ps: Pieces,
                 ghost types: seq<ParamType>, ghost sizes: seq<nat>, ghost params: seq<byte>, ghost j: nat,
                 ghost cur: nat, ghost w: Walked, ghost fate: Fate, ghost before: seq<char>, ghost startPos: nat,
                 ghost out: string)
    returns (ok: bool)
    requires log.Valid() && logPos == startPos + |out| <= log.len
    requires ps.Cons? && (ps.piece == Literal(c) || (ps.piece == Percent && c == '%'))
    requires OnTrack(render, ps, types, sizes, params, j, cur, w, fate, before, log.data[..], log.data != base,
                     startPos, out)
    modifies log.data
    ensures if ok then
              && log.data == base && logPos < log.len
              && OnTrack(render, ps.rest, types, sizes, params, j, cur, w, fate, before, log.data[..], false, startPos,
                         out + [c])
            else fate == Breaks
  {
    WalkChar(render, ps, c, types, sizes, params, j, cur, out);
    if log.data != base || logPos == log.len {
      return false;
    }
    CharProgress(before, log.data[..], startPos, out, c);
    log.data[logPos] := c;
    ok := true;
  }

  /** Fetches and renders one argument, if there is one and its bytes and the position can be trusted. */
  method PutSpec(log: LogBuffer, base: array<char>, render: Renderer, spec: string, types: seq<ParamType>,
                 sizes: seq<nat>, params: seq<byte>, j: nat, cur: nat, logPos: nat, ghost ps: Pieces, ghost w: Walked,
                 ghost fate: Fate, ghost before: seq<char>, ghost startPos: nat, ghost out: string)
    returns (r: Outcome, next: nat, ghost out': string)
    requires log.Valid() && logPos == startPos + |out| <= log.len
    requires ps.Cons? && ps.piece.Spec? && spec == PrintConv(ps.piece.conv)
    requires OnTrack(render, ps, types, sizes, params, j, cur, w, fate, before, log.data[..], log.data != base,
                     startPos, out)
    modifies log, log.data
    ensures if r.Done? then
              && log.Valid() && (log.data == base || fresh(log.data)) && r.end == startPos + |out'| <= log.len
              && OnTrack(render, ps.rest, types, sizes, params, j + 1, next, w, fate, before, log.data[..],
                         log.data != base, startPos, out')
            else Meets(r, fate) && (r.Failed? ==> w.OutOfParams?)
  {
    next, out' := cur, out;
    WalkSpec(render, ps, spec, types, sizes, params, j, cur, out);
    if j >= |types| {
      return Failed, cur, out;
    }
    if log.data != base || DecodeOne(render, spec, types[j], sizes[j], params, cur).Undecodable? {
      return Undefined, cur, out;
    }
    r, next, out' := PutDecoded(log, render, spec, types, sizes, params, j, cur, logPos, ps, w, fate, before, startPos,
                                out);
  }

  /** A text printed in place stays inside the buffer; one that makes it grow reaches its end. */
  lemma FitRoom(render: Renderer, spec: string, t: ParamType, size: nat, params: seq<byte>, cur: nat, room: nat,
                at: nat)
    requires |spec| > 0 && DecodeOne(render, spec, t, size, params, cur).Decoded?
    ensures var n := |DecodeOne(render, spec, t, size, params, cur).text|;
            var fit := FitOfSpec(spec, t, size, params, cur, n, room, at);
            (fit.InPlace? ==> n <= room) && (fit.Grows? ==> n >= room)
  {
  }

  /** How the fate of what is still to come depends on the fit of the next specification. */
  lemma FateSpec(render: Renderer, ps: Pieces, spec: string, types: seq<ParamType>, sizes: seq<nat>, params: seq<byte>,
                 j: nat, cur: nat, at: nat, capacity: nat, d: Decoded, fit: Fit, at': nat)
    requires |types| <= |sizes| && at <= capacity && j < |types|
    requires ps.Cons? && ps.piece.Spec? && spec == PrintConv(ps.piece.conv)
    requires d == DecodeOne(render, spec, types[j], sizes[j], params, cur) && d.Decoded?
    requires fit == FitOfSpec(spec, types[j], sizes[j], params, cur, |d.text|, capacity - at, at)
    requires at' == at + |d.text| && (fit.InPlace? ==> at' <= capacity)
    ensures FateOf(render, ps, types, sizes, params, j, cur, at, capacity) ==
            if fit.InPlace? then FateOf(render, ps.rest, types, sizes, params, j + 1, d.next, at', capacity)
            else if fit.Grows? then Stale(ps.rest, j + 1, |types|)
            else if fit.Overruns? then Breaks
            else Spins
  {
    assert ps == Cons(Spec(ps.piece.conv), ps.rest);
  }

  lemma FateGoesOn(render: Renderer, ps: Pieces, spec: string, types: seq<ParamType>, sizes: seq<nat>,
                   params: seq<byte>, j: nat, cur: nat, at: nat, capacity: nat, d: Decoded, fate: Fate, grown: bool,
                   at': nat)
    requires |types| <= |sizes| && at <= capacity && j < |types| && |spec| > 0
    requires ps.Cons? && ps.piece.Spec? && spec == PrintConv(ps.piece.conv)
    requires d == DecodeOne(render, spec, types[j], sizes[j], params, cur) && d.Decoded? && at' == at + |d.text|
    requires var fit := FitOfSpec(spec, types[j], sizes[j], params, cur, |d.text|, capacity - at, at);
             if grown then fit.Grows? else fit.InPlace?
    requires fate == FateLeft(render, ps, types, sizes, params, j, cur, at, capacity, false)
    ensures grown || at' <= capacity
    ensures fate == FateLeft(render, ps.rest, types, sizes, params, j + 1, d.next, at', capacity, grown)
  {
    assert fate == FateOf(render, ps, types, sizes, params, j, cur, at, capacity);
    var fit := FitOfSpec(spec, types[j], sizes[j], params, cur, |d.text|, capacity - at, at);
    assert fit.InPlace? ==> at' <= capacity by {
      FitRoom(render, spec, types[j], sizes[j], params, cur, capacity - at, at);
    }
    FateSpec(render, ps, spec, types, sizes, params, j, cur, at, capacity, d, fit, at');
    if grown {
      assert fate == Stale(ps.rest, j + 1, |types|);
    } else {
      assert fit.InPlace?;
      assert fate == FateOf(render, ps.rest, types, sizes, params, j + 1, d.next, at', capacity);
    }
  }

  lemma TrackSpec(render: Renderer, ps: Pieces, spec: string, types: seq<ParamType>, sizes: seq<nat>, params: seq<byte>,
                  j: nat, cur: nat, w: Walked, fate: Fate, before: seq<char>, now: seq<char>, after: seq<char>,
                  grown: bool, startPos: nat, out: string, d: Decoded, fit: Fit, n: nat, room: nat)
    requires ps.Cons? && ps.piece.Spec? && spec == PrintConv(ps.piece.conv)
    requires OnTrack(render, ps, types, sizes, params, j, cur, w, fate, before, now, false, startPos, out)
    requires j < |types| && d == DecodeOne(render, spec, types[j], sizes[j], params, cur) && d.Decoded?
    requires var at := startPos + |out|;
             && fit == FitOfSpec(spec, types[j], sizes[j], params, cur, |d.text|, |before| - at, at)
             && Displayed(now, after, d.text, at, n, room)
    requires if grown then fit.Grows? else fit.InPlace? && |after| == |before|
    ensures OnTrack(render, ps.rest, types, sizes, params, j + 1, d.next, w, fate, before, after, grown, startPos,
                    out + d.text)
  {
    var at := startPos + |out|;
    var at' := startPos + |out + d.text|;
    assert fate == FateLeft(render, ps.rest, types, sizes, params, j + 1, d.next, at', |before|, grown) by {
      FateGoesOn(render, ps, spec, types, sizes, params, j, cur, at, |before|, d, fate, grown, at');
    }
    assert grown ==> at + |d.text| >= |before| by {
      FitRoom(render, spec, types[j], sizes[j], params, cur, |before| - at, at);
    }
    assert Progressed(before, after, grown, startPos, out + d.text) by {
      SpecProgressed(before, now, after, grown, startPos, out, d.text);
    }
    assert w == Prepend(out + d.text, Walk(render, ps.rest, types, sizes, params, j + 1, d.next)) by {
      WalkSpec(render, ps, spec, types, sizes, params, j, cur, out);
    }
  }

  /** The last part of it, with nothing left to check. */
  method PutDecoded(log: LogBuffer, render: Renderer, spec: string, types: seq<ParamType>, sizes: seq<nat>,
                    params: seq<byte>, j: nat, cur: nat, logPos: nat, ghost ps: Pieces, ghost w: Walked,
                    ghost fate: Fate, ghost before: seq<char>, ghost startPos: nat, ghost out: string)
    returns (r: Outcome, next: nat, ghost out': string)
    requires log.Valid() && logPos == startPos + |out| <= log.len
    requires ps.Cons? && ps.piece.Spec? && spec == PrintConv(ps.piece.conv)
    requires OnTrack(render, ps, types, sizes, params, j, cur, w, fate, before, log.data[..], false, startPos, out)
    requires j < |types| && DecodeOne(render, spec, types[j], sizes[j], params, cur).Decoded?
    modifies log, log.data
    ensures !r.Failed?
    ensures if r.Done? then
              && log.Valid() && (log.data == old(log.data) || fresh(log.data)) && r.end == startPos + |out'| <= log.len
              && OnTrack(render, ps.rest, types, sizes, params, j + 1, next, w, fate, before, log.data[..],
                         log.data != old(log.data), startPos, out')
            else Meets(r, fate)
  {
    out' := out;
    ghost var d, now := DecodeOne(render, spec, types[j], sizes[j], params, cur), log.data[..];
    ghost var fit := FitOfSpec(spec, types[j], sizes[j], params, cur, |d.text|, |before| - logPos, logPos);
    assert (fit.Overruns? ==> fate == Breaks) && (fit.Loops? ==> fate == Spins) by {
      FitRoom(render, spec, types[j], sizes[j], params, cur, |before| - logPos, logPos);
      FateSpec(render, ps, spec, types, sizes, params, j, cur, logPos, |before|, d, fit, logPos + |d.text|);
    }
    ghost var at := startPos + |out|;
    assert fit == FitOfSpec(spec, types[j], sizes[j], params, cur, |d.text|, |before| - at, at);
    var rendered, room;
    rendered, room, next := DecodeSpec(log, render, spec, types[j], sizes[j], params, cur, logPos, log.len - logPos,
                                       d, fit);
    match rendered
    case Overrun => r := Undefined;
    case Endless => r := Stuck;
    case Length(n) =>
      r, out' := Done(logPos + n), out + d.text;
      ghost var grown := log.data != old(log.data);
      assert OnTrack(render, ps.rest, types, sizes, params, j + 1, d.next, w, fate, before, log.data[..], grown,
                     startPos, out + d.text) by {
        TrackSpec(render, ps, spec, types, sizes, params, j, cur, w, fate, before, now, log.data[..], grown, startPos,
                  out, d, fit, n, room);
      }
  }

  lemma RoomyFits(spec: string, t: ParamType, size: nat, params: seq<byte>, cur: nat, n: nat, room: nat, at: nat)
    requires |spec| > 0 && Fetch(t, size, params, cur).Fetched? && n < room
    ensures FitOfSpec(spec, t, size, params, cur, n, room, at) == InPlace
  {
  }

  /** A line that leaves a place free in the buffer ends. */
  lemma {:induction false} RoomyEnds(render: Renderer, ps: Pieces, types: seq<ParamType>, sizes: seq<nat>,
                                     params: seq<byte>, j: nat, cur: nat, at: nat, capacity: nat)
    requires |types| <= |sizes| && at <= capacity
    requires var w := Walk(render, ps, types, sizes, params, j, cur); w.Line? && at + |w.text| < capacity
    ensures FateOf(render, ps, types, sizes, params, j, cur, at, capacity) == Ends
  {
    match ps {
      case End =>
      case Cons(Spec(conv), rest) =>
        var d := DecodeOne(render, PrintConv(conv), types[j], sizes[j], params, cur);
        RoomyFits(PrintConv(conv), types[j], sizes[j], params, cur, |d.text|, capacity - at, at);
        RoomyEnds(render, rest, types, sizes, params, j + 1, d.next, at + |d.text|, capacity);
      case Cons(_, rest) =>
        RoomyEnds(render, rest, types, sizes, params, j, cur, at + 1, capacity);
    }
  }

  lemma FitNeverLoops(render: Renderer, spec: string, t: ParamType, size: nat, params: seq<byte>, cur: nat, room: nat,
                      at: nat)
    requires |spec| > 0 && DecodeOne(render, spec, t, size, params, cur).Decoded? && at > 0
    requires forall spec, bytes :: |render(spec, CharOp(bytes))| >= 1
    ensures var n := |DecodeOne(render, spec, t, size, params, cur).text|;
            FitOfSpec(spec, t, size, params, cur, n, room, at) != Loops
  {
  }

  /**
    Behind the prefix of a line, and with a `%c` that prints at least one character, no retry repeats
    itself for ever.
   */
  lemma {:induction false} NeverSpins(render: Renderer, ps: Pieces, types: seq<ParamType>, sizes: seq<nat>,
                                      params: seq<byte>, j: nat, cur: nat, at: nat, capacity: nat)
    requires |types| <= |sizes| && 0 < at <= capacity
    requires forall spec, bytes :: |render(spec, CharOp(bytes))| >= 1
    ensures FateOf(render, ps, types, sizes, params, j, cur, at, capacity) != Spins
  {
    match ps {
      case Cons(Spec(conv), rest) =>
        if j < |types| {
          var d := DecodeOne(render, PrintConv(conv), types[j], sizes[j], params, cur);
          if d.Decoded? {
            FitNeverLoops(render, PrintConv(conv), types[j], sizes[j], params, cur, capacity - at, at);
          }
          if d.Decoded? && at + |d.text| <= capacity {
            NeverSpins(render, rest, types, sizes, params, j + 1, d.next, at + |d.text|, capacity);
          }
        }
      case Cons(_, rest) =>
        if at < capacity {
          NeverSpins(render, rest, types, sizes, params, j, cur, at + 1, capacity);
        }
      case _ =>
    }
  }

  /** One character of the format, plain or escaped. */
  method PutNextChar(log: LogBuffer, base: array<char>, fmt: string, pos: nat, logPos: nat, ghost render: Renderer,
                     ghost ps: Pieces, ghost types: seq<ParamType>, ghost sizes: seq<nat>, ghost params: seq<byte>,
                     ghost j: nat, ghost cur: nat, ghost w: Walked, ghost fate: Fate, ghost before: seq<char>,
                     ghost startPos: nat, ghost out: string)
    returns (ok: bool, end: nat)
    requires log.Valid() && logPos == startPos + |out| <= log.len
    requires pos < |fmt| && (fmt[pos] != '%' || At(fmt, pos + 1) == '%') && ps == Parse(fmt, pos)
    requires OnTrack(render, ps, types, sizes, params, j, cur, w, fate, before, log.data[..], log.data != base,
                     startPos, out)
    modifies log.data
    ensures pos < end <= |fmt| && ps.Cons? && ps.rest == Parse(fmt, end)
    ensures if ok then
              && log.data == base && logPos < log.len
              && OnTrack(render, ps.rest, types, sizes, params, j, cur, w, fate, before, log.data[..], false, startPos,
                         out + [fmt[pos]])
            else fate == Breaks
  {
    end := if fmt[pos] == '%' then pos + 2 else pos + 1;
    ghost var piece := if fmt[pos] == '%' then Percent else Literal(fmt[pos]);
    HeadParsed(fmt, pos, piece, end, Parse(fmt, end));
    ok := PutChar(log, base, logPos, fmt[pos], render, ps, types, sizes, params, j, cur, w, fate, before, startPos,
                  out);
  }

  /** One specification of the format. */
  method PutNextSpec(log: LogBuffer, base: array<char>, render: Renderer, fmt: string, types: seq<ParamType>,
                     sizes: seq<nat>, params: seq<byte>, pos: nat, j: nat, cur: nat, logPos: nat, ghost ps: Pieces,
                     ghost w: Walked, ghost fate: Fate, ghost before: seq<char>, ghost startPos: nat, ghost out: string)
    returns (r: Outcome, next: nat, end: nat, ghost out': string)
    requires log.Valid() && logPos == startPos + |out| <= log.len
    requires pos < |fmt| && fmt[pos] == '%' && At(fmt, pos + 1) != '%' && ps == Parse(fmt, pos)
    requires OnTrack(render, ps, types, sizes, params, j, cur, w, fate, before, log.data[..], log.data != base,
                     startPos, out)
    modifies log, log.data
    ensures pos < end <= |fmt| && ps.Cons? && ps.rest == Parse(fmt, end)
    ensures if r.Done? then
              && log.Valid() && (log.data == base || fresh(log.data)) && r.end == startPos + |out'| <= log.len
              && OnTrack(render, ps.rest, types, sizes, params, j + 1, next, w, fate, before, log.data[..],
                         log.data != base, startPos, out')
            else Meets(r, fate) && (r.Failed? ==> w.OutOfParams?)
  {
    var spec;
    spec, end := CutSpec(fmt, pos, ps);
    r, next, out' := PutSpec(log, base, render, spec, types, sizes, params, j, cur, logPos, ps, w, fate, before,
                             startPos, out);
  }

  lemma AtEnd(render: Renderer, types: seq<ParamType>, sizes: seq<nat>, params: seq<byte>, j: nat, cur: nat, w: Walked,
              fate: Fate, before: seq<char>, now: seq<char>, grown: bool, startPos: nat, out: string)
    requires OnTrack(render, End, types, sizes, params, j, cur, w, fate, before, now, grown, startPos, out)
    ensures w == Line(out, cur) && fate == Ends
  {
    assert out + "" == out;
  }

  /** The loop of `ProcessFmt`, for a known line and a known fate. */
  method FormatPieces(log: LogBuffer, render: Renderer, fmt: string, types: seq<ParamType>, sizes: seq<nat>,
                      params: seq<byte>, startPos: nat, ghost whole: Pieces, ghost w: Walked, ghost fate: Fate)
    returns (r: Outcome)
    requires log.Valid() && startPos <= log.len && whole == Parse(fmt, 0)
    requires OnTrack(render, whole, types, sizes, params, 0, 0, w, fate, log.data[..], log.data[..], false, startPos,
                     "")
    modifies log, log.data
    ensures Meets(r, fate) && (r.Failed? ==> w.OutOfParams?)
    ensures r.Done? ==>
              && log.Valid() && w.Line? && r.end == startPos + |w.text| <= log.len
              && Progressed(old(log.data[..]), log.data[..], log.data != old(log.data), startPos, w.text)
  {
    ghost var ps, before, out := whole, log.data[..], "";
    var base := log.data;
    var reserved: nat := log.len - startPos;
    var logPos: nat, pos: nat, paramIdx: nat, cur: nat := startPos, 0, 0, 0;
    while pos < |fmt|
      invariant pos <= |fmt| && ps == Parse(fmt, pos)
      invariant log.Valid() && logPos == startPos + |out| && logPos + reserved == log.len
      invariant log.data == base || fresh(log.data)
      invariant OnTrack(render, ps, types, sizes, params, paramIdx, cur, w, fate, before, log.data[..],
                        log.data != base, startPos, out)
      decreases |fmt| - pos
    {
      var end;
      if fmt[pos] != '%' || At(fmt, pos + 1) == '%' {
        var ok;
        ok, end := PutNextChar(log, base, fmt, pos, logPos, render, ps, types, sizes, params, paramIdx, cur, w, fate,
                               before, startPos, out);
        if !ok {
          return Undefined;
        }
        out := out + [fmt[pos]];
        logPos, reserved := logPos + 1, reserved - 1;
      } else {
        r, cur, end, out := PutNextSpec(log, base, render, fmt, types, sizes, params, pos, paramIdx, cur, logPos, ps, w,
                                        fate, before, startPos, out);
        if !r.Done? {
          return;
        }
        paramIdx := paramIdx + 1;
        logPos, reserved := r.end, log.len - r.end;
      }
      pos, ps := end, ps.rest;
    }
    NothingLeft(fmt, pos);
    AtEnd(render, types, sizes, params, paramIdx, cur, w, fate, before, log.data[..], log.data != base, startPos, out);
    return Done(log.len - reserved);
  }

  /** `ProcessFmt` for a format whose pieces are known. */
  method FormatParsed(log: LogBuffer, render: Renderer, fmt: string, types: seq<ParamType>, sizes: seq<nat>,
                      params: seq<byte>, startPos: nat, ghost ps: Pieces)
    returns (r: Outcome)
    requires log.Valid() && startPos <= log.len
    requires ps == Parse(fmt, 0) && Complete(ps) && |types| <= |sizes|
    modifies log, log.data
    ensures r.Done? ==>
              var w := Walk(render, ps, types, sizes, params, 0, 0);
              && w.Line? && r.end == startPos + |w.text| <= log.len && log.Valid()
              && log.data[..startPos] == old(log.data[..startPos])
              && Shows(log.data[..], startPos, w.text, old(log.len) - 1)
    ensures var w := Walk(render, ps, types, sizes, params, 0, 0);
            w.Line? && startPos + |w.text| < old(log.len) ==>
              r.Done? && log.data == old(log.data) && log.data[startPos..r.end] == w.text
    ensures Meets(r, FateOf(render, ps, types, sizes, params, 0, 0, startPos, old(log.len)))
    ensures r.Failed? ==> Walk(render, ps, types, sizes, params, 0, 0).OutOfParams?
  {
    ghost var before := log.data[..];
    ghost var w := Walk(render, ps, types, sizes, params, 0, 0);
    ghost var fate := FateOf(render, ps, types, sizes, params, 0, 0, startPos, log.len);
    if w.Line? && startPos + |w.text| < log.len {
      RoomyEnds(render, ps, types, sizes, params, 0, 0, startPos, log.len);
    }
    PrependNothing(w);
    var base := log.data;
    r := FormatPieces(log, render, fmt, types, sizes, params, startPos, ps, w, fate);
    if r.Done? && startPos + |w.text| < |before| {
      Fitted(before, log.data[..], log.data != base, startPos, w.text);
    }
  }

  /**
    Renders an entry behind the first `startPos` characters. If the line that the walk prescribes fits
    strictly, it is what the buffer holds, in place. Whenever the method comes to an end at all, the end
    position accounts for every character of the line, and at most the character in the buffer's last
    place can be wrong. `FateOf` says exactly when it comes to an end, and what happens otherwise: a
    buffer that has grown is never written to again, because the position still points into the old one.
   */
  method ProcessFmt(log: LogBuffer, render: Renderer, fmt: string, types: seq<ParamType>, sizes: seq<nat>,
                    params: seq<byte>, startPos: nat)
    returns (r: Outcome)
    requires log.Valid() && startPos <= log.len
    requires Complete(Parse(fmt, 0)) && |types| <= |sizes|
    modifies log, log.data
    ensures r.Done? ==>
              var w := Walk(render, Parse(fmt, 0), types, sizes, params, 0, 0);
              && w.Line? && r.end == startPos + |w.text| <= log.len && log.Valid()
              && log.data[..startPos] == old(log.data[..startPos])
              && Shows(log.data[..], startPos, w.text, old(log.len) - 1)
    ensures var w := Walk(render, Parse(fmt, 0), types, sizes, params, 0, 0);
            w.Line? && startPos + |w.text| < old(log.len) ==>
              r.Done? && log.data == old(log.data) && log.data[startPos..r.end] == w.text
    ensures Meets(r, FateOf(render, Parse(fmt, 0), types, sizes, params, 0, 0, startPos, old(log.len)))
    ensures r.Failed? ==> Walk(render, Parse(fmt, 0), types, sizes, params, 0, 0).OutOfParams?
  {
    r := FormatParsed(log, render, fmt, types, sizes, params, startPos, Parse(fmt, 0));
  }
}
