/** The buffer in which a line is built, and the two decoders that render one argument into it. */
module LogBuffers {
  import opened Bytes
  import opened StagingBuffers

  /** What is passed to `snprintf` for one specification. */
  datatype Operand =
    | CharOp(bytes: seq<byte>)
    | IntOp(signed: bool, bytes: seq<byte>)
    | FloatOp(bytes: seq<byte>)
    | TextOp(bytes: seq<byte>)

  /** The text `snprintf` makes of a specification and an operand, whatever room it is given. */
  type Renderer = (string, Operand) -> string

  predicate IsFloatTerminal(c: char) {
    c == 'f' || c == 'F' || c == 'e' || c == 'E' || c == 'g' || c == 'G' || c == 'a' || c == 'A'
  }

  /** The C type a scalar is read back with; none for a size or a conversion the decoder does not know. */
  function Select(terminal: char, bytes: seq<byte>): Option<Operand> {
    if |bytes| !in {1, 2, 4, 8} then None
    else if terminal == 'c' && |bytes| == 1 then Some(CharOp(bytes))
    else if terminal == 'd' || terminal == 'i' then Some(IntOp(true, bytes))
    else if terminal == 'u' || terminal == 'o' || terminal == 'x' || terminal == 'X' then Some(IntOp(false, bytes))
    else if IsFloatTerminal(terminal) && |bytes| >= 4 then Some(FloatOp(bytes))
    else None
  }

  function Min(a: nat, b: nat): nat {
    if a < b then a else b
  }

  /** The contents after `snprintf` to `at` with a bound of `size` characters. */
  function AfterPrint(s: seq<char>, at: nat, size: nat, text: string): (r: seq<char>)
    requires at + Min(|text| + 1, size) <= |s|
    ensures |r| == |s|
  {
    if size == 0 then s
    else
      var n := Min(|text|, size - 1);
      s[..at] + text[..n] + ['\0'] + s[at + n + 1..]
  }

  /** A text shorter than the bound is printed whole, and every such bound gives the same contents. */
  lemma PrintFits(s: seq<char>, at: nat, size: nat, text: string)
    requires |text| < size && at + |text| + 1 <= |s|
    ensures var r := AfterPrint(s, at, size, text);
            && r == AfterPrint(s, at, |text| + 1, text)
            && r[..at] == s[..at] && r[at..at + |text|] == text
  {
  }

  method Snprintf(buffer: array<char>, at: nat, size: nat, text: string)
    requires at + Min(|text| + 1, size) <= buffer.Length
    modifies buffer
    ensures buffer[..] == AfterPrint(old(buffer[..]), at, size, text)
  {
    if size == 0 {
      return;
    }
    var n := Min(|text|, size - 1);
    forall i | 0 <= i < n {
      buffer[at + i] := text[i];
    }
    buffer[at + n] := '\0';
  }

  /** `text` stands at `at`, except perhaps for the one character at position `except`. */
  predicate Shows(data: seq<char>, at: nat, text: string, except: int) {
    && at + |text| <= |data|
    && forall k | 0 <= k < |text| && at + k != except :: data[at + k] == text[k]
  }

  /** What becomes of a text that is printed where `room` characters are left. */
  datatype Fit = InPlace | Grows | Overruns | Loops

  /**
    A string may take all the room there is and grows the buffer when it is longer. A scalar must leave
    one character free. Otherwise `%c`, or a text at the very front, grows the buffer to twice its length,
    which for the empty text is no growth at all; everywhere else the bound lets it run over the end.
   */
  function FitOf(op: Option<Operand>, n: nat, room: nat, at: nat): Fit {
    match op
    case None => InPlace
    case Some(TextOp(_)) => if n <= room then InPlace else Grows
    case Some(other) =>
      if n < room then InPlace
      else if !other.CharOp? && at > 0 then Overruns
      else if n > 0 then Grows
      else Loops
  }

  /** How rendering one argument ends. */
  datatype Rendering =
    | Length(n: nat)
    | Overrun // a write beyond the end of the buffer
    | Endless // the retry loop repeats the same state for ever

  class LogBuffer {
    var data: array<char>
    var len: nat

    predicate Valid()
      reads this
    {
      data.Length == len
    }

    constructor (capacity: nat)
      ensures Valid() && fresh(data) && len == capacity
    {
      data := new char[capacity](_ => '\0');
      len := capacity;
    }

    /** A larger buffer with the old contents in front. */
    method Resize(newSize: nat)
      requires Valid() && newSize >= len
      modifies this
      ensures Valid() && fresh(data) && len == newSize
      ensures data[..old(len)] == old(data[..])
    {
      var buffer := new char[newSize];
      forall i | 0 <= i < len {
        buffer[i] := data[i];
      }
      data := buffer;
      len := newSize;
    }

    /**
      A scalar. All but `%c` are printed with the whole buffer's length as the bound, so that a text
      that does not fit behind `startPos` overruns the buffer. Growth happens at most once, because the
      new room is twice the text.
     */
    method DecodeNonString(render: Renderer, reserved: nat, startPos: nat, spec: string, param: seq<byte>)
      returns (r: Rendering, room: nat)
      requires Valid() && startPos + reserved == len && |spec| > 0
      modifies this, data
      ensures Valid()
      ensures var op := Select(spec[|spec| - 1], param);
              var text := if op.None? then "" else render(spec, op.value);
              match FitOf(op, |text|, reserved, startPos)
              case InPlace =>
                && r == Length(|text|) && room == reserved && data == old(data) && len == old(len)
                && (op.None? ==> data[..] == old(data[..]))
                && (op.Some? ==>
                      && startPos + |text| + 1 <= len
                      && data[..] == AfterPrint(old(data[..]), startPos, |text| + 1, text))
              case Grows =>
                && r == Length(|text|) && room == 2 * |text| && fresh(data) && len == startPos + room
                && data[..startPos] == old(data[..startPos]) && data[startPos..startPos + |text|] == text
              case Overruns => r == Overrun
              case Loops => r == Endless
      ensures r.Overrun? <==>
                var op := Select(spec[|spec| - 1], param);
                op.Some? && !op.value.CharOp? && startPos > 0 && |render(spec, op.value)| >= reserved
      ensures r.Endless? <==>
                var op := Select(spec[|spec| - 1], param);
                op.Some? && render(spec, op.value) == "" && reserved == 0 && (op.value.CharOp? || startPos == 0)
    {
      var selected := Select(spec[|spec| - 1], param);
      if selected.None? {
        return Length(0), reserved;
      }
      var text := render(spec, selected.value);
      room := reserved;
      var grown := false;
      while true
        invariant Valid() && startPos + room == len
        invariant if grown then
                    && 0 < |text| && reserved <= |text| && room == 2 * |text| && fresh(data)
                    && (selected.value.CharOp? || startPos == 0)
                    && data[..startPos] == old(data[..startPos])
                  else room == reserved && data == old(data) && len == old(len) && data[..] == old(data[..])
        decreases !grown
      {
        var bound := if selected.value.CharOp? then room else len;
        if startPos + Min(|text| + 1, bound) > len {
          return Overrun, room;
        }
        ghost var before := data[..];
        Snprintf(data, startPos, bound, text);
        if |text| < room {
          PrintFits(before, startPos, bound, text);
          return Length(|text|), room;
        }
        if |text| == 0 {
          return Endless, room;
        }
        Resize(2 * |text| + len - room);
        room := len - startPos;
        grown := true;
      }
    }

    /**
      A string. The buffer grows only when the text is longer than the room; when it is exactly as long,
      its last character gives way to the terminating NUL.
     */
    method DecodeString(render: Renderer, reserved: nat, startPos: nat, spec: string, param: seq<byte>)
      returns (n: nat, room: nat)
      requires Valid() && startPos + reserved == len
      modifies this, data
      ensures Valid()
      ensures var text := render(spec, TextOp(param));
              && n == |text|
              && if |text| > reserved then
                   && fresh(data) && room == |text| + 1 && len == startPos + room
                   && data[..startPos] == old(data[..startPos])
                   && data[startPos..startPos + |text|] == text
                 else
                   && data == old(data) && len == old(len) && room == reserved
                   && data[..] == AfterPrint(old(data[..]), startPos, reserved, text)
    {
      var text := render(spec, TextOp(param));
      n, room := |text|, reserved;
      Snprintf(data, startPos, reserved, text);
      if n > reserved {
        var newLen := n + 1 + len - reserved;
        var tmp := new char[newLen];
        forall i | 0 <= i < startPos {
          tmp[i] := data[i];
        }
        ghost var copied := tmp[..];
        room := newLen - len + reserved;
        len := newLen;
        Snprintf(tmp, startPos, n + 1, text);
        PrintFits(copied, startPos, n + 1, text);
        assert copied[..startPos] == old(data[..startPos]);
        data := tmp;
      }
    }
  }
}
