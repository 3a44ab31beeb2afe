/** Measuring the arguments of a logging statement and packing them behind the entry header. */
module Arguments {
  import opened Bytes
  import opened Format

  const WORD32: nat := 0x1_0000_0000
  const WORD64: nat := 0x1_0000_0000_0000_0000

  const ADDRESS_SIZE: nat := 8
  const LENGTH_SIZE: nat := 4

  datatype Kind = Signed | Unsigned | Floating | Opaque

  /** An argument: a scalar by its object representation, or a `char*` by its value and what it points to. */
  datatype Arg = Scalar(kind: Kind, bytes: seq<byte>) | Str(address: seq<byte>, text: seq<byte>)

  /** A pointer is eight bytes; a string ends before its first NUL and fits in the address space. */
  predicate ArgOk(a: Arg) {
    a.Str? ==> |a.address| == ADDRESS_SIZE && 0 !in a.text && 2 * |a.text| < WORD64
  }

  predicate ArgsOk(args: seq<Arg>) {
    forall a | a in args :: ArgOk(a)
  }

  /** Whether the format makes this parameter a string; `char*` arguments of other types are addresses. */
  predicate IsString(t: ParamType) {
    Code(t) > Code(NonString)
  }

  /** Two's complement. */
  function SignedValue(bytes: seq<byte>): int {
    var v := LeValue(bytes);
    if 2 * v < Pow256(|bytes|) then v else v - Pow256(|bytes|)
  }

  /** Conversion of an argument to `uint64_t`; what does not convert counts as 0. */
  function AsUint64(a: Arg): (v: nat)
    ensures v < WORD64
  {
    match a
    case Scalar(Signed, bytes) => SignedValue(bytes) % WORD64
    case Scalar(Unsigned, bytes) => LeValue(bytes) % WORD64
    case _ => 0
  }

  // ---- Sizes ----

  /** The precision in force for argument `i`: the last dynamic one before it, or none (all ones). */
  function PrecisionBefore(types: seq<ParamType>, args: seq<Arg>, i: nat): nat
    requires i <= |args| <= |types|
  {
    if i == 0 then WORD64 - 1
    else if types[i - 1] == DynamicPrecision && args[i - 1].Scalar? then AsUint64(args[i - 1])
    else PrecisionBefore(types, args, i - 1)
  }

  /** How many bytes of a string are kept. A static precision is compared with nothing but the text's own length. */
  function KeptLength(t: ParamType, precision: nat, text: seq<byte>): nat {
    if Code(t) >= 0 && |text| > |text| % WORD32 then |text| % WORD32
    else if t == StringWithDynamicPrecision && |text| > precision then precision
    else |text|
  }

  /** The entry of the size array for one argument; that of an address keeps its old value. */
  function SlotOf(t: ParamType, precision: nat, a: Arg, old_: nat): nat {
    match a
    case Scalar(_, bytes) => |bytes|
    case Str(_, text) => if IsString(t) then KeptLength(t, precision, text) else old_
  }

  function SizeOf(t: ParamType, precision: nat, a: Arg): nat {
    match a
    case Scalar(_, bytes) => |bytes|
    case Str(_, text) => if IsString(t) then KeptLength(t, precision, text) + LENGTH_SIZE else ADDRESS_SIZE
  }

  function PackedSize(types: seq<ParamType>, args: seq<Arg>, i: nat): nat
    requires i <= |args| <= |types|
    decreases |args| - i
  {
    if i == |args| then 0
    else SizeOf(types[i], PrecisionBefore(types, args, i), args[i]) + PackedSize(types, args, i + 1)
  }

  /** The slots from `i` on are those that sizing these arguments leaves behind. */
  predicate SizedFrom(types: seq<ParamType>, args: seq<Arg>, before: seq<nat>, slots: seq<nat>, i: nat)
    requires |args| <= |types|
  {
    && |args| <= |slots| == |before|
    && forall k | i <= k < |args| ::
         slots[k] == SlotOf(types[k], PrecisionBefore(types, args, k), args[k], before[k])
  }

  /** One argument; the call site's static size array is written through. */
  method GetArgSize(t: ParamType, previousPrecision: nat, sizes: array<nat>, i: nat, a: Arg)
    returns (size: nat, precision: nat)
    requires i < sizes.Length
    modifies sizes
    ensures size == SizeOf(t, previousPrecision, a)
    ensures precision == if t == DynamicPrecision && a.Scalar? then AsUint64(a) else previousPrecision
    ensures sizes[..] == old(sizes[..])[i := SlotOf(t, previousPrecision, a, old(sizes[i]))]
  {
    precision := previousPrecision;
    match a
    case Scalar(_, bytes) =>
      if t == DynamicPrecision {
        precision := AsUint64(a);
      }
      sizes[i] := |bytes|;
      size := |bytes|;
    case Str(_, text) =>
      if Code(t) <= Code(NonString) {
        return ADDRESS_SIZE, precision;
      }
      sizes[i] := |text|;
      var fmtLength := |text| % WORD32;
      if Code(t) >= 0 && sizes[i] > fmtLength {
        sizes[i] := fmtLength;
      } else if t == StringWithDynamicPrecision && sizes[i] > previousPrecision {
        sizes[i] := previousPrecision;
      }
      size := sizes[i] + LENGTH_SIZE;
  }

  method GetArgSizes(types: seq<ParamType>, previousPrecision: nat, sizes: array<nat>, args: seq<Arg>, argNum: nat)
    returns (total: nat)
    requires argNum <= |args| <= |types| && |args| <= sizes.Length
    requires previousPrecision == PrecisionBefore(types, args, argNum)
    modifies sizes
    ensures total == PackedSize(types, args, argNum)
    ensures SizedFrom(types, args, old(sizes[..]), sizes[..], argNum)
    ensures forall k | 0 <= k < sizes.Length && !(argNum <= k < |args|) :: sizes[k] == old(sizes[k])
    decreases |args| - argNum
  {
    if argNum == |args| {
      return 0;
    }
    var size, precision := GetArgSize(types[argNum], previousPrecision, sizes, argNum, args[argNum]);
    ghost var mid := sizes[..];
    assert forall k | argNum < k < sizes.Length :: mid[k] == old(sizes[k]);
    var rest := GetArgSizes(types, precision, sizes, args, argNum + 1);
    assert sizes[argNum] == mid[argNum];
    total := size + rest;
  }

  // ---- Bytes ----

  /** The bytes that stand for an argument in the entry, without the length in front of a string. */
  function Field(t: ParamType, slot: nat, a: Arg): seq<byte>
    requires a.Str? && IsString(t) ==> slot <= |a.text|
  {
    match a
    case Scalar(_, bytes) => bytes
    case Str(address, text) => if IsString(t) then text[..slot] else address
  }

  function PackedArg(t: ParamType, slot: nat, a: Arg): seq<byte>
    requires a.Str? && IsString(t) ==> slot <= |a.text|
  {
    (if a.Str? && IsString(t) then LeBytes(slot, LENGTH_SIZE) else []) + Field(t, slot, a)
  }

  /** No slot claims more of a string than there is. */
  predicate Within(types: seq<ParamType>, args: seq<Arg>, slots: seq<nat>) {
    && |args| <= |types| && |args| <= |slots|
    && forall k | 0 <= k < |args| :: args[k].Str? && IsString(types[k]) ==> slots[k] <= |args[k].text|
  }

  function Packed(types: seq<ParamType>, args: seq<Arg>, slots: seq<nat>, i: nat): seq<byte>
    requires Within(types, args, slots) && i <= |args|
    decreases |args| - i
  {
    if i == |args| then [] else PackedArg(types[i], slots[i], args[i]) + Packed(types, args, slots, i + 1)
  }

  lemma PackedStep(types: seq<ParamType>, args: seq<Arg>, slots: seq<nat>, i: nat)
    requires Within(types, args, slots) && i < |args|
    ensures Packed(types, args, slots, i) ==
            PackedArg(types[i], slots[i], args[i]) + Packed(types, args, slots, i + 1)
    ensures |Packed(types, args, slots, i)| ==
            |PackedArg(types[i], slots[i], args[i])| + |Packed(types, args, slots, i + 1)|
  {
  }

  /** A string is refused when its length does not fit its four-byte header. */
  predicate TooLong(t: ParamType, slot: nat, a: Arg) {
    a.Str? && IsString(t) && slot > WORD32 - 1
  }

  predicate NoneTooLong(types: seq<ParamType>, args: seq<Arg>, slots: seq<nat>, i: nat)
    requires i <= |args| <= |types| && |args| <= |slots|
    decreases |args| - i
  {
    i == |args| || (!TooLong(types[i], slots[i], args[i]) && NoneTooLong(types, args, slots, i + 1))
  }

  /** Nothing changed outside `[lo, hi)`. */
  predicate Framed(before: seq<byte>, after: seq<byte>, lo: nat, hi: nat) {
    |after| == |before| && forall i | 0 <= i < |before| && !(lo <= i < hi) :: after[i] == before[i]
  }

  /** `bytes` was written at `pos`, and nothing else. */
  predicate Wrote(before: seq<byte>, after: seq<byte>, pos: nat, bytes: seq<byte>) {
    && pos + |bytes| <= |after|
    && Framed(before, after, pos, pos + |bytes|) && after[pos..pos + |bytes|] == bytes
  }

  lemma WroteTwice(s0: seq<byte>, s1: seq<byte>, s2: seq<byte>, pos: nat, a: seq<byte>, b: seq<byte>)
    requires Wrote(s0, s1, pos, a) && Wrote(s1, s2, pos + |a|, b)
    ensures Wrote(s0, s2, pos, a + b)
  {
    assert s2[pos..pos + |a|] == s1[pos..pos + |a|];
    assert s2[pos..pos + |a + b|] == s2[pos..pos + |a|] + s2[pos + |a|..pos + |a| + |b|];
  }

  lemma WroteInTurn(s0: seq<byte>, s1: seq<byte>, s2: seq<byte>, pos: nat, a: seq<byte>, b: seq<byte>, ok: bool)
    requires Wrote(s0, s1, pos, a)
    requires if ok then Wrote(s1, s2, pos + |a|, b) else Framed(s1, s2, pos + |a|, pos + |a| + |b|)
    ensures if ok then Wrote(s0, s2, pos, a + b) else Framed(s0, s2, pos, pos + |a + b|)
  {
    if ok {
      WroteTwice(s0, s1, s2, pos, a, b);
    }
  }

  /** `memcpy` into the entry under construction. */
  method CopyBytes(storage: array<byte>, pos: nat, bytes: seq<byte>)
    requires pos + |bytes| <= storage.Length
    modifies storage
    ensures Wrote(old(storage[..]), storage[..], pos, bytes)
  {
    forall i | 0 <= i < |bytes| {
      storage[pos + i] := bytes[i];
    }
  }

  method StoreArgument(storage: array<byte>, pos: nat, a: Arg, t: ParamType, slot: nat) returns (ok: bool, next: nat)
    requires a.Str? && IsString(t) ==> slot <= |a.text|
    requires pos + |PackedArg(t, slot, a)| <= storage.Length
    modifies storage
    ensures ok <==> !(a.Str? && IsString(t) && slot >= 0x1_0000_0000)
    ensures next == if ok then pos + |PackedArg(t, slot, a)| else pos
    ensures if ok then Wrote(old(storage[..]), storage[..], pos, PackedArg(t, slot, a))
            else storage[..] == old(storage[..])
  {
    match a
    case Scalar(_, bytes) =>
      CopyBytes(storage, pos, bytes);
      return true, pos + |bytes|;
    case Str(address, text) =>
      if Code(t) <= Code(NonString) {
        CopyBytes(storage, pos, address);
        return true, pos + |address|;
      }
      if slot > WORD32 - 1 {
        return false, pos;
      }
      StoreString(storage, pos, text[..slot]);
      return true, pos + LENGTH_SIZE + slot;
  }

  /** The length header and the bytes of a string. */
  method StoreString(storage: array<byte>, pos: nat, text: seq<byte>)
    requires pos + LENGTH_SIZE + |text| <= storage.Length
    modifies storage
    ensures Wrote(old(storage[..]), storage[..], pos, LeBytes(|text|, LENGTH_SIZE) + text)
  {
    ghost var before := storage[..];
    CopyBytes(storage, pos, LeBytes(|text|, LENGTH_SIZE));
    ghost var mid := storage[..];
    CopyBytes(storage, pos + LENGTH_SIZE, text);
    WroteTwice(before, mid, storage[..], pos, LeBytes(|text|, LENGTH_SIZE), text);
  }

  /** Stores every argument, in all the bytes `packed`, or stops at the first string that is too long. */
  method StoreArguments(types: seq<ParamType>, slots: seq<nat>, storage: array<byte>, pos: nat, args: seq<Arg>,
                        argNum: nat, ghost packed: seq<byte>)
    returns (ok: bool, next: nat)
    requires Within(types, args, slots) && argNum <= |args|
    requires packed == Packed(types, args, slots, argNum) && pos + |packed| <= storage.Length
    modifies storage
    ensures ok <==> NoneTooLong(types, args, slots, argNum)
    ensures next <= pos + |packed|
    ensures if ok then next == pos + |packed| && Wrote(old(storage[..]), storage[..], pos, packed)
            else Framed(old(storage[..]), storage[..], pos, pos + |packed|)
    decreases |args| - argNum
  {
    if argNum == |args| {
      return true, pos;
    }
    ghost var a := PackedArg(types[argNum], slots[argNum], args[argNum]);
    ghost var b := Packed(types, args, slots, argNum + 1);
    ghost var before := storage[..];
    assert packed == a + b by { PackedStep(types, args, slots, argNum); }
    ok, next := StoreArgument(storage, pos, args[argNum], types[argNum], slots[argNum]);
    assert ok <==> !TooLong(types[argNum], slots[argNum], args[argNum]);
    if !ok {
      return;
    }
    ghost var mid := storage[..];
    assert next == pos + |a|;
    ok, next := StoreArguments(types, slots, storage, next, args, argNum + 1, b);
    WroteInTurn(before, mid, storage[..], pos, a, b, ok);
  }

  // ---- What the two passes agree on ----

  lemma SizedWithin(types: seq<ParamType>, args: seq<Arg>, before: seq<nat>, slots: seq<nat>)
    requires |args| <= |types| && SizedFrom(types, args, before, slots, 0)
    ensures Within(types, args, slots)
  {
  }

  lemma PackedArgSize(t: ParamType, precision: nat, a: Arg, before: nat)
    requires ArgOk(a)
    ensures var slot := SlotOf(t, precision, a, before);
            && (a.Str? && IsString(t) ==> slot <= |a.text|)
            && |PackedArg(t, slot, a)| == SizeOf(t, precision, a)
  {
  }

  /** Storing advances by exactly what sizing returned, for every argument list. */
  lemma {:induction false} SizeConservation(
      types: seq<ParamType>, args: seq<Arg>, before: seq<nat>, slots: seq<nat>, i: nat)
    requires i <= |args| <= |types| && SizedFrom(types, args, before, slots, 0) && Within(types, args, slots)
    requires ArgsOk(args)
    ensures |Packed(types, args, slots, i)| == PackedSize(types, args, i)
    decreases |args| - i
  {
    if i == |args| {
    } else {
      SizeConservation(types, args, before, slots, i + 1);
      PackedStep(types, args, slots, i);
      assert slots[i] == SlotOf(types[i], PrecisionBefore(types, args, i), args[i], before[i]);
      PackedArgSize(types[i], PrecisionBefore(types, args, i), args[i], before[i]);
    }
  }

  /** In a format a string with dynamic precision comes right after the star that gives it. */
  lemma {:induction false} StarPrecedesString(ps: Pieces, i: nat)
    requires Complete(ps) && i < |Params(ps)| && Params(ps)[i] == StringWithDynamicPrecision
    ensures i > 0 && Params(ps)[i - 1] == DynamicPrecision
  {
    var own, later := PieceParams(ps.piece), Params(ps.rest);
    assert Params(ps) == own + later;
    if i >= |own| {
      StarPrecedesString(ps.rest, i - |own|);
    }
  }

  /**
    The text stored for `%.*s` is cut at the integer `v` passed right before it. A negative one is no cut
    at all, and what does not convert to an integer cuts to nothing.
   */
  lemma DynamicPrecisionCuts(ps: Pieces, args: seq<Arg>, before: seq<nat>, slots: seq<nat>, i: nat, v: nat, k: nat)
    requires Complete(ps) && |args| == |Params(ps)| && ArgsOk(args)
    requires SizedFrom(Params(ps), args, before, slots, 0)
    requires i < |args| && Params(ps)[i] == StringWithDynamicPrecision && args[i].Str?
    requires v < Pow256(k) && k <= 8 && (0 < i ==> args[i - 1].Scalar? && args[i - 1].bytes == LeBytes(v, k))
    ensures i > 0
    ensures var length := |args[i].text|;
            slots[i] == match args[i - 1].kind
                        case Signed => if 2 * v < Pow256(k) && v < length then v else length
                        case Unsigned => if v < length then v else length
                        case Floating => 0
                        case Opaque => 0
  {
    StarPrecedesString(ps, i);
    assert ArgOk(args[i]);
    Converted(args[i - 1], v, k);
  }

  /** An integer of at most eight bytes keeps its value, and a negative one lands in the upper half of `uint64_t`. */
  lemma Converted(a: Arg, v: nat, k: nat)
    requires a.Scalar? && v < Pow256(k) && k <= 8 && a.bytes == LeBytes(v, k)
    ensures match a.kind
            case Signed => if 2 * v < Pow256(k) then AsUint64(a) == v else 2 * AsUint64(a) >= WORD64
            case Unsigned => AsUint64(a) == v
            case _ => AsUint64(a) == 0
  {
    assert Pow256(k) <= WORD64 by { PowersUpTo8(k); }
    assert LeValue(a.bytes) == v by { LeRoundTrip(v, k); }
    match a.kind {
      case Signed =>
        if 2 * v < Pow256(k) {
          Wraps(v, 0);
        } else {
          Wraps(v - Pow256(k), 1);
        }
      case Unsigned => Wraps(v, 0);
      case _ =>
    }
  }

  lemma Wraps(s: int, turns: nat)
    requires 0 <= s + turns * WORD64 < WORD64 && turns <= 1
    ensures s % WORD64 == s + turns * WORD64
  {
  }

  lemma {:induction false} PowersUpTo8(k: nat)
    requires k <= 8
    ensures Pow256(k) <= WORD64
    decreases 8 - k
  {
    if k < 8 {
      PowersUpTo8(k + 1);
    } else {
      Pow256Values();
    }
  }

  /**
    A static precision `n` does not cut the stored text. What is stored is the length modulo 2^32: the
    whole text, for every text whose length fits four bytes, and then the cut at `n` exactly when the text
    is no longer than `n`; a longer text comes out right only if `n` happens to be that remainder.
   */
  lemma StaticPrecisionKeepsAll(types: seq<ParamType>, args: seq<Arg>, before: seq<nat>, slots: seq<nat>, i: nat)
    requires |args| <= |types| && SizedFrom(types, args, before, slots, 0)
    requires i < |args| && types[i].StringWithPrecision? && args[i].Str?
    ensures slots[i] == |args[i].text| % 0x1_0000_0000
    ensures |args[i].text| < 0x1_0000_0000 ==> slots[i] == |args[i].text|
    ensures var n, length := types[i].n, |args[i].text|;
            slots[i] == (if length < n then length else n) <==>
            if length < 0x1_0000_0000 then length <= n else n < length && n == length % 0x1_0000_0000
  {
  }

  /** Both size arrays have the same entries for the strings from argument `i` on. */
  predicate SameStringSizes(types: seq<ParamType>, args: seq<Arg>, s: seq<nat>, s': seq<nat>, i: nat)
    requires |args| <= |types| && |args| <= |s| && |args| <= |s'|
  {
    forall k | i <= k < |args| && args[k].Str? && IsString(types[k]) :: s[k] == s'[k]
  }

  lemma SameStringSizesStep(types: seq<ParamType>, args: seq<Arg>, s: seq<nat>, s': seq<nat>, i: nat)
    requires |args| <= |types| && |args| <= |s| && |args| <= |s'| && i < |args|
    ensures SameStringSizes(types, args, s, s', i) <==>
            (args[i].Str? && IsString(types[i]) ==> s[i] == s'[i]) && SameStringSizes(types, args, s, s', i + 1)
  {
  }

  lemma SameTail(a: seq<byte>, b: seq<byte>, b': seq<byte>)
    ensures a + b == a + b' <==> b == b'
  {
    assert (a + b)[|a|..] == b && (a + b')[|a|..] == b';
  }

  /** The header of a string shows which slot it was stored with. */
  lemma HeadDecides(t: ParamType, a: Arg, u: nat, v: nat, rest: seq<byte>, rest': seq<byte>)
    requires a.Str? && IsString(t) ==> u <= |a.text| && v <= |a.text|
    requires !TooLong(t, u, a) && !TooLong(t, v, a)
    ensures PackedArg(t, u, a) + rest == PackedArg(t, v, a) + rest' <==>
            (a.Str? && IsString(t) ==> u == v) && rest == rest'
  {
    var head, head' := PackedArg(t, u, a), PackedArg(t, v, a);
    if a.Str? && IsString(t) && head + rest == head' + rest' {
      assert (head + rest)[..LENGTH_SIZE] == LeBytes(u, LENGTH_SIZE);
      assert (head' + rest')[..LENGTH_SIZE] == LeBytes(v, LENGTH_SIZE);
      Pow256Values();
      LeRoundTrip(u, LENGTH_SIZE);
      LeRoundTrip(v, LENGTH_SIZE);
    }
    if head == head' {
      SameTail(head, rest, rest');
    }
  }

  /** For sizes that stay within the texts and fit the headers, from argument `i` on. */
  lemma {:induction false} SameBytes(types: seq<ParamType>, args: seq<Arg>, s: seq<nat>, s': seq<nat>, i: nat)
    requires Within(types, args, s) && Within(types, args, s') && i <= |args|
    requires NoneTooLong(types, args, s, i) && NoneTooLong(types, args, s', i)
    ensures Packed(types, args, s, i) == Packed(types, args, s', i) <==> SameStringSizes(types, args, s, s', i)
    decreases |args| - i
  {
    if i == |args| {
    } else {
      SameBytes(types, args, s, s', i + 1);
      PackedStep(types, args, s, i);
      PackedStep(types, args, s', i);
      HeadDecides(types[i], args[i], s[i], s'[i],
        Packed(types, args, s, i + 1), Packed(types, args, s', i + 1));
      SameStringSizesStep(types, args, s, s', i);
    }
  }

  lemma {:induction false} SameSizesFit(types: seq<ParamType>, args: seq<Arg>, s: seq<nat>, s': seq<nat>, i: nat)
    requires |args| <= |types| && |args| <= |s| && |args| <= |s'| && i <= |args|
    requires SameStringSizes(types, args, s, s', i) && NoneTooLong(types, args, s, i)
    ensures NoneTooLong(types, args, s', i)
    decreases |args| - i
  {
    if i == |args| {
    } else {
      SameStringSizesStep(types, args, s, s', i);
      SameSizesFit(types, args, s, s', i + 1);
    }
  }

  /** With the sizes `s'` storing stays inside every text, is not refused, and gives the bytes it should give. */
  predicate StoresRight(types: seq<ParamType>, args: seq<Arg>, s: seq<nat>, s': seq<nat>)
    requires Within(types, args, s) && |args| <= |s'|
  {
    && Within(types, args, s') && NoneTooLong(types, args, s', 0)
    && Packed(types, args, s', 0) == Packed(types, args, s, 0)
  }

  /**
    The size array is shared by all threads at a call site. With whatever sizes another call left there,
    shorter or longer, storing goes right exactly when the two calls agree on every string's size.
   */
  lemma SharedSizes(types: seq<ParamType>, args: seq<Arg>, s: seq<nat>, s': seq<nat>)
    requires Within(types, args, s) && NoneTooLong(types, args, s, 0) && |args| <= |s'|
    ensures StoresRight(types, args, s, s') <==> SameStringSizes(types, args, s, s', 0)
  {
    if SameStringSizes(types, args, s, s', 0) {
      SameSizesFit(types, args, s, s', 0);
      SameBytes(types, args, s, s', 0);
    } else if Within(types, args, s') && NoneTooLong(types, args, s', 0) {
      SameBytes(types, args, s, s', 0);
    }
  }
}
