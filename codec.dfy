/** How one variable's value travels in register bytes: `bytes_to_value`
    (read the raw word or double word, then scale, decode or keep it),
    `value_to_bytes` (find the raw word for a value, then pack it) and the
    brute-force inverse of a decoder. A 32-bit variable keeps its low word
    first and its high word second, each word big-endian. */
module Codec {
  import opened Wrappers
  import opened Bytes
  import opened Values
  import opened Variables
  import opened Errors
  import Registry

  /** Bytes a variable occupies in a frame. */
  function Size(v: Variable): nat
  {
    if v.is32Bit then 4 else 2
  }

  /** The raw integers the variable's layout can carry: a signed or unsigned
      16-bit word, or a signed or unsigned 32-bit double word. */
  predicate InRange(v: Variable, raw: int)
  {
    if v.is32Bit && v.isSigned then -0x8000_0000 <= raw < 0x8000_0000
    else if v.is32Bit then 0 <= raw < 0x1_0000_0000
    else if v.isSigned then -0x8000 <= raw < 0x8000
    else 0 <= raw < 0x10000
  }

  // ---------------------------------------------------------------- reading

  /** The raw integer at `offset`, as `struct.unpack_from` reads it: the low word,
      then for a 32-bit variable the high word shifted up by 16 (signed when the
      variable is). A buffer too short for the read raises. */
  function ReadRaw(v: Variable, buf: seq<byte>, offset: nat): (r: Result<int, Error>)
    ensures r.Ok? <==> offset + Size(v) <= |buf|
    ensures r.Err? ==> r.error == Truncated
    ensures r.Ok? ==> InRange(v, r.value)
    ensures r.Ok? ==> r.value % 0x10000 == U16At(buf, offset)
    ensures r.Ok? && v.is32Bit ==> (r.value / 0x10000) % 0x10000 == U16At(buf, offset + 2)
  {
    if offset + Size(v) > |buf| then Err(Truncated)
    else if v.is32Bit && v.isSigned then Ok(U16At(buf, offset) + I16At(buf, offset + 2) * 0x10000)
    else if v.is32Bit then Ok(U16At(buf, offset) + U16At(buf, offset + 2) * 0x10000)
    else if v.isSigned then Ok(I16At(buf, offset))
    else Ok(U16At(buf, offset))
  }

  /** What `bytes_to_value` makes of a raw integer: divided by a non-zero
      multiplier, else passed through the decoder (whose IndexError becomes an
      "unexpected value" error), else kept as it is. */
  function Decode(v: Variable, raw: int): (r: Result<Value, Error>)
    ensures r.Err? <==> v.multiplier == 0.0 && v.decoder.Some? && Apply(v.decoder.value, raw).None?
    ensures r.Err? ==> r.error == UnexpectedValue
    ensures v.multiplier != 0.0 ==> r.Ok? && r.value.Real? && r.value.r * v.multiplier == raw as real
    ensures v.multiplier == 0.0 && v.decoder.Some? && r.Ok? ==> Some(r.value) == Apply(v.decoder.value, raw)
    ensures v.multiplier == 0.0 && v.decoder.None? ==> r == Ok(Int(raw))
  {
    if v.multiplier != 0.0 then Ok(Real(raw as real / v.multiplier))
    else if v.decoder.Some? then
      match Apply(v.decoder.value, raw)
      case None => Err(UnexpectedValue)
      case Some(x) => Ok(x)
    else Ok(Int(raw))
  }

  /** `bytes_to_value(variable, buffer, offset)`. */
  function BytesToValue(v: Variable, buf: seq<byte>, offset: nat): (r: Result<Value, Error>)
    ensures r == Err(Truncated) <==> offset + Size(v) > |buf|
    ensures r.Err? ==> r.error in {Truncated, UnexpectedValue}
  {
    match ReadRaw(v, buf, offset)
    case Err(e) => Err(e)
    case Ok(raw) => Decode(v, raw)
  }

  // ----------------------------------------------------- brute-force search

  /** `variable.func(i) == value` holds, without the call raising. */
  predicate Hits(d: Decoder, value: Value, i: int)
  {
    var r := Apply(d, i);
    r.Some? && PyEq(r.value, value)
  }

  /** The test the brute-force loops apply to each candidate raw value. */
  function HitTest(d: Decoder, value: Value): int -> bool
  {
    i => Hits(d, value, i)
  }

  /** The first `i` in `lo, lo + 1, ..., hi` that passes `hit`, if any. */
  function SearchUp(hit: int -> bool, lo: int, hi: int): (r: Option<int>)
    ensures r.Some? ==> lo <= r.value <= hi && hit(r.value)
    decreases hi - lo
  {
    if lo > hi then None
    else if hit(lo) then Some(lo)
    else SearchUp(hit, lo + 1, hi)
  }

  /** The upward search yields the least hit in `lo .. hi`, and nothing only when
      nothing there hits. */
  lemma {:induction false} SearchUpSpec(hit: int -> bool, lo: int, hi: int)
    ensures var r := SearchUp(hit, lo, hi);
      && (r.Some? ==> hit(r.value) && forall j | lo <= j < r.value :: !hit(j))
      && (r.None? ==> forall j | lo <= j <= hi :: !hit(j))
    decreases hi - lo
  {
    if lo <= hi && !hit(lo) {
      SearchUpSpec(hit, lo + 1, hi);
    }
  }

  /** The first `i` in `hi, hi - 1, ..., lo` that passes `hit`, if any. */
  function SearchDown(hit: int -> bool, hi: int, lo: int): (r: Option<int>)
    ensures r.Some? ==> lo <= r.value <= hi && hit(r.value)
    decreases hi - lo
  {
    if lo > hi then None
    else if hit(hi) then Some(hi)
    else SearchDown(hit, hi - 1, lo)
  }

  /** The downward search yields the hit in `lo .. hi` nearest `hi`, and nothing
      only when nothing there hits. */
  lemma {:induction false} SearchDownSpec(hit: int -> bool, hi: int, lo: int)
    ensures var r := SearchDown(hit, hi, lo);
      && (r.Some? ==> hit(r.value) && forall j | r.value < j <= hi :: !hit(j))
      && (r.None? ==> forall j | lo <= j <= hi :: !hit(j))
    decreases hi - lo
  {
    if lo <= hi && !hit(hi) {
      SearchDownSpec(hit, hi - 1, lo);
    }
  }

  /** `2 ** n_bits`: one past the largest unsigned raw value of the variable. */
  function Span(v: Variable): int
  {
    if v.is32Bit then 0x1_0000_0000 else 0x10000
  }

  /** `_find_raw_value_by_brute_force`, with `hit` the test `variable.func(i) == value`:
      an unsigned variable tries 0 up to `2 ** n_bits` inclusive; a signed one tries
      0 up to `2 ** (n_bits - 1)` inclusive, then 0 down to `-2 ** (n_bits - 1) - 1`
      inclusive. */
  function BruteForce(v: Variable, hit: int -> bool): (r: Option<int>)
    ensures r.Some? ==> hit(r.value)
    ensures r.Some? && !v.isSigned ==> 0 <= r.value <= Span(v)
    ensures r.Some? && v.isSigned ==> -(Span(v) / 2) - 1 <= r.value <= Span(v) / 2
  {
    if v.isSigned then
      match SearchUp(hit, 0, Span(v) / 2)
      case Some(i) => Some(i)
      case None => SearchDown(hit, 0, -(Span(v) / 2) - 1)
    else SearchUp(hit, 0, Span(v))
  }

  /** An unsigned variable's search yields the least raw value in `0 .. 2 ** n_bits`
      that hits, and nothing only when none of them hits. */
  lemma BruteForceUnsigned(v: Variable, hit: int -> bool)
    requires !v.isSigned
    ensures var r := BruteForce(v, hit);
      && (r.Some? ==> 0 <= r.value <= Span(v) && hit(r.value) && forall j | 0 <= j < r.value :: !hit(j))
      && (r.None? ==> forall j | 0 <= j <= Span(v) :: !hit(j))
  {
    SearchUpSpec(hit, 0, Span(v));
  }

  /** A signed variable's search, when it yields a non-negative raw value, yields the
      least one in `0 .. 2 ** (n_bits - 1)` that hits. */
  lemma BruteForceSignedAbove(v: Variable, hit: int -> bool)
    requires v.isSigned
    ensures var r := BruteForce(v, hit);
      r.Some? && r.value >= 0 ==>
        r.value <= Span(v) / 2 && hit(r.value) && forall j | 0 <= j < r.value :: !hit(j)
  {
    SearchUpSpec(hit, 0, Span(v) / 2);
  }

  /** A signed variable's search falls back on the negatives only when no raw value in
      `0 .. 2 ** (n_bits - 1)` hits, and then yields the hit nearest 0 down to
      `-2 ** (n_bits - 1) - 1`; nothing means no raw value in the whole range hits. */
  lemma BruteForceSignedBelow(v: Variable, hit: int -> bool)
    requires v.isSigned
    ensures var r := BruteForce(v, hit);
      && (r.Some? && r.value < 0 ==>
            && -(Span(v) / 2) - 1 <= r.value && hit(r.value)
            && (forall j | 0 <= j <= Span(v) / 2 :: !hit(j))
            && (forall j | r.value < j < 0 :: !hit(j)))
      && (r.None? ==> forall j | -(Span(v) / 2) - 1 <= j <= Span(v) / 2 :: !hit(j))
  {
    SearchUpSpec(hit, 0, Span(v) / 2);
    SearchDownSpec(hit, 0, -(Span(v) / 2) - 1);
  }

  /** An unsigned 16-bit variable whose decoder stays within its word never gets
      the out-of-range raw value 0x10000 from the search: 0 decodes the same and
      is tried first. */
  lemma BruteForceStaysInWord(v: Variable, d: Decoder, value: Value)
    requires !v.is32Bit && !v.isSigned && Registry.WithinWord(d)
    ensures var r := BruteForce(v, HitTest(d, value)); r.Some? ==> 0 <= r.value < 0x10000
  {
    var hit := HitTest(d, value);
    BruteForceUnsigned(v, hit);
    var r := BruteForce(v, hit);
    if r.Some? && r.value == 0x10000 {
      assert hit(0x10000) && !hit(0);
      Registry.TopValueAgrees(d);
      assert false;
    }
  }

  // ---------------------------------------------------------------- writing

  /** `round(float(value) * multiplier)`: within half a unit of the exact product. */
  function Scaled(v: Variable, value: Value): (n: int)
    requires !value.Str?
    ensures -0.5 <= n as real - AsReal(value).value * v.multiplier <= 0.5
  {
    RoundHalfEven(AsReal(value).value * v.multiplier)
  }

  /** The raw integer `value_to_bytes` computes for `value`: `round(float(value) *
      multiplier)` for a scaled variable, the brute-force inverse of the decoder
      for a decoded one, `int(value)` otherwise. */
  function RawValue(v: Variable, value: Value): (r: Result<int, Error>)
    ensures r.Err? ==> r.error in {NotANumber, InvalidValue}
    ensures r.Err? && r.error == NotANumber <==> value.Str? && (v.multiplier != 0.0 || v.decoder.None?)
    ensures v.multiplier != 0.0 && r.Ok? ==> -0.5 <= r.value as real - AsReal(value).value * v.multiplier <= 0.5
    ensures v.multiplier == 0.0 && v.decoder.Some? ==> (r.Ok? <==> BruteForce(v, HitTest(v.decoder.value, value)).Some?)
    ensures v.multiplier == 0.0 && v.decoder.Some? && r.Ok? ==> Hits(v.decoder.value, value, r.value)
    ensures v.multiplier == 0.0 && v.decoder.None? && value.Int? ==> r == Ok(value.i)
  {
    if v.multiplier != 0.0 then
      if value.Str? then Err(NotANumber) else Ok(Scaled(v, value))
    else if v.decoder.Some? then
      match BruteForce(v, HitTest(v.decoder.value, value))
      case None => Err(InvalidValue)
      case Some(i) => Ok(i)
    else
      match value
      case Int(i) => Ok(i)
      case Real(x) => Ok(Trunc(x))
      case Bool(b) => Ok(if b then 1 else 0)
      case Str(_) => Err(NotANumber)
  }

  /** `struct.pack_into(">H" or ">h", buf, offset, w)`: the buffer must hold two
      bytes from `offset` (checked first), then the word must fit the format. */
  function PackWord(buf: seq<byte>, offset: nat, w: int, signed: bool): (r: Result<seq<byte>, Error>)
    ensures r.Err? <==> offset + 2 > |buf| || !(if signed then -0x8000 <= w < 0x8000 else 0 <= w < 0x10000)
    ensures r.Err? ==> (r.error == PackOutOfBuffer <==> offset + 2 > |buf|)
    ensures r.Err? ==> r.error in {PackOutOfBuffer, PackOutOfRange}
    ensures r.Ok? ==> |r.value| == |buf| && U16At(r.value, offset) == w % 0x10000
    ensures r.Ok? ==> forall i | 0 <= i < |buf| && i != offset && i != offset + 1 :: r.value[i] == buf[i]
  {
    if offset + 2 > |buf| then Err(PackOutOfBuffer)
    else if !(if signed then -0x8000 <= w < 0x8000 else 0 <= w < 0x10000) then Err(PackOutOfRange)
    else
      var r := Put(buf, offset, WordBytes(w % 0x10000));
      assert r[offset..offset + 2] == WordBytes(w % 0x10000);
      Ok(r)
  }

  /** The buffer after a pack attempt, and its outcome: the offset after the
      variable, or the error raised. A raise can leave a partial write behind. */
  datatype Packed = Packed(buf: seq<byte>, outcome: Result<nat, Error>)

  /** Packing a raw integer at `offset`: a 32-bit variable writes `raw & 0xFFFF`
      as ">H", then `raw >> 16` as ">H" or ">h"; a 16-bit variable writes `raw`
      as ">H" or ">h". */
  function Store(v: Variable, buf: seq<byte>, offset: nat, raw: int): (p: Packed)
    ensures |p.buf| == |buf|
    ensures p.outcome.Ok? <==> offset + Size(v) <= |buf| && InRange(v, raw)
    ensures p.outcome.Ok? ==> p.outcome.value == offset + Size(v)
    ensures p.outcome.Err? ==> p.outcome.error in {PackOutOfBuffer, PackOutOfRange}
    ensures p.outcome.Err? ==> (p.outcome.error == PackOutOfBuffer <==> offset + Size(v) > |buf|)
    ensures forall i | 0 <= i < |buf| && !(offset <= i < offset + Size(v)) :: p.buf[i] == buf[i]
  {
    if v.is32Bit then
      match PackWord(buf, offset, raw % 0x10000, false)
      case Err(e) => Packed(buf, Err(e))
      case Ok(low) =>
        match PackWord(low, offset + 2, raw / 0x10000, v.isSigned)
        case Err(e) => Packed(low, Err(e))
        case Ok(both) => Packed(both, Ok(offset + 4))
    else
      match PackWord(buf, offset, raw, v.isSigned)
      case Err(e) => Packed(buf, Err(e))
      case Ok(b) => Packed(b, Ok(offset + 2))
  }

  /** `value_to_bytes(variable, buffer, offset, value)`: the new buffer and the
      returned offset, or the error raised. Writing moves the offset past the
      variable (two bytes, four for 32 bits) and touches no byte outside them; it
      fails exactly when the raw value has none, the buffer is too short, or the
      raw value does not fit. */
  function Encode(v: Variable, buf: seq<byte>, offset: nat, value: Value): (p: Packed)
    ensures |p.buf| == |buf|
    ensures p.outcome.Ok? <==> RawValue(v, value).Ok? && offset + Size(v) <= |buf| && InRange(v, RawValue(v, value).value)
    ensures p.outcome.Ok? ==> p.outcome.value == offset + Size(v)
    ensures forall i | 0 <= i < |buf| && !(offset <= i < offset + Size(v)) :: p.buf[i] == buf[i]
  {
    match RawValue(v, value)
    case Err(e) => Packed(buf, Err(e))
    case Ok(raw) => Store(v, buf, offset, raw)
  }

  /** Reading back what was packed gives the raw integer again. */
  lemma StoreThenRead(v: Variable, buf: seq<byte>, offset: nat, raw: int)
    requires offset + Size(v) <= |buf| && InRange(v, raw)
    ensures Store(v, buf, offset, raw).outcome.Ok?
    ensures ReadRaw(v, Store(v, buf, offset, raw).buf, offset) == Ok(raw)
  {
    if v.is32Bit {
      StoreThenRead32(v, buf, offset, raw);
    } else {
      var r := ReadRaw(v, Store(v, buf, offset, raw).buf, offset);
      assert r.value % 0x10000 == raw % 0x10000;
    }
  }

  lemma StoreThenRead32(v: Variable, buf: seq<byte>, offset: nat, raw: int)
    requires v.is32Bit && offset + 4 <= |buf| && InRange(v, raw)
    ensures ReadRaw(v, Store(v, buf, offset, raw).buf, offset) == Ok(raw)
  {
    var low := PackWord(buf, offset, raw % 0x10000, false).value;
    var both := PackWord(low, offset + 2, raw / 0x10000, v.isSigned).value;
    assert Store(v, buf, offset, raw).buf == both;
    assert both[offset] == low[offset] && both[offset + 1] == low[offset + 1];
    assert U16At(both, offset) == raw % 0x10000;
    assert U16At(both, offset + 2) == (raw / 0x10000) % 0x10000;
    var r := ReadRaw(v, both, offset).value;
    WordsDetermine(r, raw, v.isSigned);
  }

  /** The raw integer read depends only on the variable's own bytes. */
  lemma ReadRawLocal(v: Variable, a: seq<byte>, i: nat, b: seq<byte>, j: nat)
    requires i + Size(v) <= |a| && j + Size(v) <= |b|
    requires forall k | i <= k < i + Size(v) :: a[k] == b[k - i + j]
    ensures ReadRaw(v, a, i) == ReadRaw(v, b, j)
  {
    assert a[i] == b[j] && a[i + 1] == b[j + 1];
    if v.is32Bit {
      assert a[i + 2] == b[j + 2] && a[i + 3] == b[j + 3];
    }
  }

  /** Bytes before and after a word do not change what it reads as. */
  lemma ReadRawShift(v: Variable, a: seq<byte>, b: seq<byte>, c: seq<byte>, off: nat)
    requires off + Size(v) <= |b|
    ensures ReadRaw(v, a + b + c, |a| + off) == ReadRaw(v, b, off)
  {
    var whole := a + b + c;
    assert forall j | off <= j < off + Size(v) :: b[j] == whole[j - off + |a| + off];
    ReadRawLocal(v, b, off, whole, |a| + off);
  }

  /** Two double words in the same 32-bit range with the same two words are equal. */
  lemma WordsDetermine(a: int, b: int, signed: bool)
    requires if signed then -0x8000_0000 <= a < 0x8000_0000 && -0x8000_0000 <= b < 0x8000_0000
             else 0 <= a < 0x1_0000_0000 && 0 <= b < 0x1_0000_0000
    requires a % 0x10000 == b % 0x10000 && (a / 0x10000) % 0x10000 == (b / 0x10000) % 0x10000
    ensures a == b
  {
    assert a == (a / 0x10000) * 0x10000 + a % 0x10000;
    assert b == (b / 0x10000) * 0x10000 + b % 0x10000;
  }

  /** Round trip for a plain variable: an integer that fits its layout comes back
      unchanged. */
  lemma PlainRoundTrip(v: Variable, buf: seq<byte>, offset: nat, i: int)
    requires v.multiplier == 0.0 && v.decoder.None?
    requires InRange(v, i) && offset + Size(v) <= |buf|
    ensures Encode(v, buf, offset, Int(i)).outcome == Ok(offset + Size(v))
    ensures BytesToValue(v, Encode(v, buf, offset, Int(i)).buf, offset) == Ok(Int(i))
  {
    StoreThenRead(v, buf, offset, i);
  }

  /** Round trip for a scaled variable: a number comes back within half a step
      (`0.5 / multiplier`) of itself, when its scaled rounding fits the layout. */
  lemma ScaledRoundTrip(v: Variable, buf: seq<byte>, offset: nat, value: Value)
    requires v.multiplier > 0.0 && !value.Str?
    requires offset + Size(v) <= |buf| && InRange(v, RawValue(v, value).value)
    ensures Encode(v, buf, offset, value).outcome == Ok(offset + Size(v))
    ensures var back := BytesToValue(v, Encode(v, buf, offset, value).buf, offset);
      && back.Ok? && back.value.Real?
      && -0.5 / v.multiplier <= back.value.r - AsReal(value).value <= 0.5 / v.multiplier
  {
    ScaledReadBack(v, buf, offset, value);
    ScaledRawError(v, value);
  }

  /** The scaled raw value, packed and read back, is the raw value over the multiplier. */
  lemma ScaledReadBack(v: Variable, buf: seq<byte>, offset: nat, value: Value)
    requires v.multiplier > 0.0 && !value.Str?
    requires offset + Size(v) <= |buf| && InRange(v, RawValue(v, value).value)
    ensures Encode(v, buf, offset, value).outcome == Ok(offset + Size(v))
    ensures BytesToValue(v, Encode(v, buf, offset, value).buf, offset)
         == Ok(Real(RawValue(v, value).value as real / v.multiplier))
  {
    var raw := RawValue(v, value).value;
    assert Encode(v, buf, offset, value) == Store(v, buf, offset, raw);
    StoreThenRead(v, buf, offset, raw);
  }

  /** The scaled raw value over the multiplier is within half a step of the number. */
  lemma ScaledRawError(v: Variable, value: Value)
    requires v.multiplier > 0.0 && !value.Str?
    ensures -0.5 / v.multiplier <= RawValue(v, value).value as real / v.multiplier - AsReal(value).value <= 0.5 / v.multiplier
  {
    var raw := Scaled(v, value);
    assert RawValue(v, value) == Ok(raw);
    RoundScaledError(raw, AsReal(value).value, v.multiplier);
  }

  /** Round trip for a decoded variable: whatever raw word the search finds
      decodes to a value Python calls equal to the one written. */
  lemma DecodedRoundTrip(v: Variable, buf: seq<byte>, offset: nat, value: Value)
    requires v.multiplier == 0.0 && v.decoder.Some?
    requires Encode(v, buf, offset, value).outcome.Ok?
    ensures var back := BytesToValue(v, Encode(v, buf, offset, value).buf, offset);
      back.Ok? && PyEq(back.value, value)
  {
    var raw := RawValue(v, value).value;
    assert Encode(v, buf, offset, value) == Store(v, buf, offset, raw);
    StoreThenRead(v, buf, offset, raw);
  }

  /** A registry variable with a decoder, written where its word fits, fails only
      when no raw word decodes to the value: the search never yields a raw value
      the word cannot hold. */
  lemma DecodedWriteFails(v: Variable, buf: seq<byte>, offset: nat, value: Value)
    requires Registry.WellFormed(v) && v.multiplier == 0.0 && v.decoder.Some? && !v.isSigned
    requires offset + Size(v) <= |buf|
    ensures Encode(v, buf, offset, value).outcome.Err? <==> BruteForce(v, HitTest(v.decoder.value, value)).None?
    ensures Encode(v, buf, offset, value).outcome.Err? ==> Encode(v, buf, offset, value).outcome.error == InvalidValue
  {
    BruteForceStaysInWord(v, v.decoder.value, value);
  }

  /** The scaled example of the test suite: the solar panel rated voltage (0x3000,
      multiplier 100) holding 0x1770 reads as 60.0. */
  lemma RatedVoltageExample()
    ensures BytesToValue(FactorySettings[0], [0x01, 0x04, 0x02, 0x17, 0x70, 0xB7, 0x24], 3) == Ok(Real(60.0))
  {
    var v := FactorySettings[0];
    assert v.multiplier == 100.0 && !v.is32Bit && !v.isSigned;
    assert ReadRaw(v, [0x01, 0x04, 0x02, 0x17, 0x70, 0xB7, 0x24], 3) == Ok(6000);
  }
}
