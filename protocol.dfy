/** The client object: the device id it remembers from the last answer, and the
    operations that work step by step — the brute-force search, packing a value
    into a buffer in place, building a write request (sorting the list in place),
    and parsing an answer. Each is proved to compute what the specification
    functions of `Codec`, `Writes` and `Frames` say. */
module Protocol {
  import opened Wrappers
  import opened Bytes
  import opened Values
  import opened Variables
  import opened Errors
  import opened Crc
  import opened Codec
  import opened Frames
  import opened Writes

  /** `results` found so far, followed by what the rest of the work yields. */
  function Then(done: seq<Reading>, rest: Result<seq<Reading>, Error>): (r: Result<seq<Reading>, Error>)
    ensures rest.Err? ==> r == rest
    ensures rest.Ok? ==> r == Ok(done + rest.value)
  {
    match rest
    case Err(e) => Err(e)
    case Ok(more) => Ok(done + more)
  }

  lemma ThenThen(a: seq<Reading>, b: seq<Reading>, rest: Result<seq<Reading>, Error>)
    ensures Then(a, Then(b, rest)) == Then(a + b, rest)
  {
    if rest.Ok? {
      assert a + (b + rest.value) == (a + b) + rest.value;
    }
  }

  lemma ThenNothing(rest: Result<seq<Reading>, Error>)
    ensures Then([], rest) == rest
  {
    if rest.Ok? {
      assert [] + rest.value == rest.value;
    }
  }

  /** One word of the walk: its readings, then the rest of the walk. */
  lemma WalkStep(table: seq<Variable>, code: FunctionCode, buf: seq<byte>, address: int, cursor: nat, end: nat)
    requires cursor < end
    ensures var word := ReadWord(Matching(table, code, address), buf, cursor);
      && (word.Err? ==> Walk(table, code, buf, address, cursor, end) == Err(word.error))
      && (word.Ok? ==> Walk(table, code, buf, address, cursor, end) == Then(word.value, Walk(table, code, buf, address + 1, cursor + 2, end)))
  {
  }

  /** The loop's invariant after one more word: a failed word is the walk's
      failure, a read word joins the readings found so far. */
  lemma WalkAdvance(table: seq<Variable>, code: FunctionCode, buf: seq<byte>, start: int, end: nat,
                    results: seq<Reading>, address: int, cursor: nat)
    requires cursor < end
    requires Walk(table, code, buf, start, 3, end) == Then(results, Walk(table, code, buf, address, cursor, end))
    ensures var word := ReadWord(Matching(table, code, address), buf, cursor);
      && (word.Err? ==> Walk(table, code, buf, start, 3, end) == Err(word.error))
      && (word.Ok? ==> Walk(table, code, buf, start, 3, end)
                       == Then(results + word.value, Walk(table, code, buf, address + 1, cursor + 2, end)))
  {
    var word := ReadWord(Matching(table, code, address), buf, cursor);
    WalkStep(table, code, buf, address, cursor, end);
    if word.Ok? {
      ThenThen(results, word.value, Walk(table, code, buf, address + 1, cursor + 2, end));
    }
  }

  /** One raw value of the upward search: a hit ends it, a miss moves on. */
  lemma SearchUpStep(d: Decoder, value: Value, i: int, hi: int)
    requires i <= hi
    ensures SearchUp(HitTest(d, value), i, hi)
         == if Hits(d, value, i) then Some(i) else SearchUp(HitTest(d, value), i + 1, hi)
  {
    assert HitTest(d, value)(i) == Hits(d, value, i);
  }

  /** One raw value of the downward search: a hit ends it, a miss moves on. */
  lemma SearchDownStep(d: Decoder, value: Value, i: int, lo: int)
    requires lo <= i
    ensures SearchDown(HitTest(d, value), i, lo)
         == if Hits(d, value, i) then Some(i) else SearchDown(HitTest(d, value), i - 1, lo)
  {
    assert HitTest(d, value)(i) == Hits(d, value, i);
  }

  /** `list.sort(key=lambda x: x[0].address)` on the write list: an insertion sort
      in place, stable like Python's. */
  method SortInPlace(a: array<WriteItem>)
    modifies a
    ensures a[..] == SortByAddress(old(a[..]))
  {
    ghost var original := a[..];
    var i := 0;
    while i < a.Length
      invariant 0 <= i <= a.Length
      invariant a[..i] == SortByAddress(original[..i])
      invariant a[i..] == original[i..]
    {
      assert original[..i + 1][..i] == original[..i];
      assert original[..i + 1][i] == original[i] == a[i];
      InsertInPlace(a, i);
      i := i + 1;
    }
    assert a[..] == a[..a.Length] && original == original[..a.Length];
  }

  /** Moves `a[i]` left past every element before it whose address is larger. */
  method InsertInPlace(a: array<WriteItem>, i: nat)
    requires i < a.Length
    modifies a
    ensures a[..i + 1] == Insert(old(a[..i]), old(a[i]))
    ensures a[i + 1..] == old(a[i + 1..])
  {
    ghost var s := a[..];
    var x := a[i];
    var j := MakeRoom(a, i);
    FillSlot(s, i, j, x);
    a[j] := x;
    assert s[..i][..j] == s[..j] && s[..i][j..] == s[j..i];
  }

  /** Writing `x` into the free slot leaves `x` between the two halves. */
  lemma FillSlot<T>(orig: seq<T>, i: nat, j: nat, x: T)
    requires j <= i < |orig|
    ensures var filled := (orig[..j + 1] + orig[j..i] + orig[i + 1..])[j := x];
      filled[..i + 1] == orig[..j] + [x] + orig[j..i] && filled[i + 1..] == orig[i + 1..]
  {
    var filled := (orig[..j + 1] + orig[j..i] + orig[i + 1..])[j := x];
    assert filled[..i + 1] == orig[..j] + [x] + orig[j..i];
    assert filled[i + 1..] == orig[i + 1..];
  }

  /** Shifts every element of `a[..i]` whose address exceeds that of `a[i]` one
      place right, and returns the slot left free for `a[i]`; that slot keeps its
      old element, which now also sits one place to its right. */
  method MakeRoom(a: array<WriteItem>, i: nat) returns (j: nat)
    requires i < a.Length
    modifies a
    ensures j <= i
    ensures a[..] == old(a[..j + 1]) + old(a[j..i]) + old(a[i + 1..])
    ensures Insert(old(a[..i]), old(a[i])) == old(a[..j]) + [old(a[i])] + old(a[j..i])
  {
    ghost var orig := a[..];
    ghost var s := a[..i];
    var x := a[i];
    j := i;
    assert s[..j] == s && s[j..] == [];
    assert orig == orig[..j + 1] + orig[j..i] + orig[i + 1..];
    while j > 0 && a[j - 1].variable.address > x.variable.address
      invariant 0 <= j <= i
      invariant a[..] == orig[..j + 1] + orig[j..i] + orig[i + 1..]
      invariant Insert(s, x) == Insert(s[..j], x) + s[j..]
    {
      InsertPast(s, j, x);
      assert a[j - 1] == orig[j - 1];
      ShiftOne(orig, i, j);
      a[j] := a[j - 1];
      j := j - 1;
    }
    InsertStops(s, j, x);
    assert s[..j] == orig[..j] && s[j..] == orig[j..i];
  }

  /** Copying the element before the free slot into it moves the slot one place left. */
  lemma ShiftOne<T>(orig: seq<T>, i: nat, j: nat)
    requires 0 < j <= i < |orig|
    ensures (orig[..j + 1] + orig[j..i] + orig[i + 1..])[j := orig[j - 1]]
         == orig[..j] + orig[j - 1..i] + orig[i + 1..]
  {
    var before := orig[..j + 1] + orig[j..i] + orig[i + 1..];
    var after := orig[..j] + orig[j - 1..i] + orig[i + 1..];
    assert |before[j := orig[j - 1]]| == |after|;
    forall k | 0 <= k < |after|
      ensures before[j := orig[j - 1]][k] == after[k]
    {
      if k < j {
      } else if k == j {
      } else if k <= i {
        assert after[k] == orig[k - 1];
      } else {
      }
    }
  }

  class LumiaxClient {
    /** The device id of the last answer parsed; 0xFE before any. */
    var deviceId: int

    constructor ()
      ensures deviceId == 0xFE
    {
      deviceId := 0xFE;
    }

    /** `_find_raw_value_by_brute_force`: tries the raw values in the source's
        order and returns the first whose decoding equals `value`, a decoder that
        raises counting as no match. */
    method FindRawValueByBruteForce(v: Variable, value: Value) returns (r: Option<int>)
      requires v.decoder.Some?
      ensures r == BruteForce(v, HitTest(v.decoder.value, value))
    {
      var d := v.decoder.value;
      if v.isSigned {
        r := ScanUp(d, value, 0, Span(v) / 2);
        if r.None? {
          r := ScanDown(d, value, 0, -(Span(v) / 2) - 1);
        }
      } else {
        r := ScanUp(d, value, 0, Span(v));
      }
    }

    /** `for i in range(lo, hi + 1)` with the `try`: the first hit going up. */
    method ScanUp(d: Decoder, value: Value, lo: int, hi: int) returns (r: Option<int>)
      ensures r == SearchUp(HitTest(d, value), lo, hi)
    {
      var i := lo;
      while i < hi + 1
        invariant lo <= i || hi < lo
        invariant SearchUp(HitTest(d, value), lo, hi) == SearchUp(HitTest(d, value), i, hi)
        decreases hi + 1 - i
      {
        var hit := TryValue(d, value, i);
        SearchUpStep(d, value, i, hi);
        if hit {
          return Some(i);
        }
        i := i + 1;
      }
      return None;
    }

    /** `for i in range(hi, lo - 1, -1)` with the `try`: the first hit going down. */
    method ScanDown(d: Decoder, value: Value, hi: int, lo: int) returns (r: Option<int>)
      ensures r == SearchDown(HitTest(d, value), hi, lo)
    {
      var i := hi;
      while i > lo - 1
        invariant i <= hi || hi < lo
        invariant SearchDown(HitTest(d, value), hi, lo) == SearchDown(HitTest(d, value), i, lo)
        decreases i - lo + 1
      {
        var hit := TryValue(d, value, i);
        SearchDownStep(d, value, i, lo);
        if hit {
          return Some(i);
        }
        i := i - 1;
      }
      return None;
    }

    /** The `try` block: `variable.func(i) == value`, a raised `IndexError` counting
        as no match. */
    method TryValue(d: Decoder, value: Value, i: int) returns (hit: bool)
      ensures hit <==> Hits(d, value, i)
    {
      var out := Apply(d, i);
      hit := out.Some? && PyEq(out.value, value);
    }

    /** `struct.pack_into(">H" or ">h", buffer, offset, w)`. */
    method PackInto(buffer: array<byte>, offset: nat, w: int, signed: bool) returns (e: Option<Error>)
      modifies buffer
      ensures PackWord(old(buffer[..]), offset, w, signed).Err? ==>
        e == Some(PackWord(old(buffer[..]), offset, w, signed).error) && buffer[..] == old(buffer[..])
      ensures PackWord(old(buffer[..]), offset, w, signed).Ok? ==>
        e == None && buffer[..] == PackWord(old(buffer[..]), offset, w, signed).value
    {
      if offset + 2 > buffer.Length {
        return Some(PackOutOfBuffer);
      }
      if !(if signed then -0x8000 <= w < 0x8000 else 0 <= w < 0x10000) {
        return Some(PackOutOfRange);
      }
      var u := w % 0x10000;
      buffer[offset] := u / 0x100;
      buffer[offset + 1] := u % 0x100;
      assert buffer[..] == Put(old(buffer[..]), offset, WordBytes(u));
      return None;
    }

    /** `value_to_bytes`: packs the raw integer of `value` into `buffer` at
        `offset` and returns the offset after it. A raise can leave the first word
        of a 32-bit variable written. */
    method ValueToBytes(v: Variable, buffer: array<byte>, offset: nat, value: Value) returns (r: Result<nat, Error>)
      modifies buffer
      ensures buffer[..] == Encode(v, old(buffer[..]), offset, value).buf
      ensures r == Encode(v, old(buffer[..]), offset, value).outcome
    {
      var raw := RawValueOf(v, value);
      if raw.Err? {
        return Err(raw.error);
      }
      r := PackRaw(v, buffer, offset, raw.value);
    }

    /** The first half of `value_to_bytes`: the raw integer to pack. */
    method RawValueOf(v: Variable, value: Value) returns (r: Result<int, Error>)
      ensures r == RawValue(v, value)
    {
      if v.multiplier != 0.0 {
        if value.Str? {
          return Err(NotANumber);
        }
        return Ok(Scaled(v, value));
      } else if v.decoder.Some? {
        var found := FindRawValueByBruteForce(v, value);
        if found.None? {
          return Err(InvalidValue);
        }
        return Ok(found.value);
      } else {
        match value {
          case Int(i) => return Ok(i);
          case Real(x) => return Ok(Trunc(x));
          case Bool(b) => return Ok(if b then 1 else 0);
          case Str(_) => return Err(NotANumber);
        }
      }
    }

    /** The second half of `value_to_bytes`: the `struct.pack_into` calls. */
    method PackRaw(v: Variable, buffer: array<byte>, offset: nat, raw: int) returns (r: Result<nat, Error>)
      modifies buffer
      ensures buffer[..] == Store(v, old(buffer[..]), offset, raw).buf
      ensures r == Store(v, old(buffer[..]), offset, raw).outcome
    {
      if v.is32Bit {
        var e := PackInto(buffer, offset, raw % 0x10000, false);
        if e.Some? {
          return Err(e.value);
        }
        e := PackInto(buffer, offset + 2, raw / 0x10000, v.isSigned);
        if e.Some? {
          return Err(e.value);
        }
      } else {
        var e := PackInto(buffer, offset, raw, v.isSigned);
        if e.Some? {
          return Err(e.value);
        }
      }
      return Ok(offset + Size(v));
    }

    /** `get_write_command`: sorts `values` in place, then builds the request. */
    method GetWriteCommand(deviceId: byte, values: array<WriteItem>) returns (r: Result<seq<byte>, Error>)
      requires Addressable(values[..])
      modifies values
      ensures values[..] == SortByAddress(old(values[..]))
      ensures r == WriteCommand(deviceId, old(values[..]))
    {
      if values.Length == 0 {
        return Err(EmptyValues);
      }
      SortKeepsPairs(values[..]);
      SortInPlace(values);
      r := BuildSorted(deviceId, values);
    }

    /** `get_write_command` after the sort: the continuity loop and the count. */
    method BuildSorted(deviceId: byte, values: array<WriteItem>) returns (r: Result<seq<byte>, Error>)
      requires values.Length > 0 && SortedByAddress(values[..]) && Addressable(values[..])
      ensures r == Build(deviceId, values[..])
    {
      ghost var items := values[..];
      var problem := CheckContinuous(values);
      if problem.Some? {
        return Err(problem.value);
      }
      var endVariable := values[values.Length - 1].variable;
      var startAddress := values[0].variable.address;
      var endAddress := endVariable.address + (if endVariable.is32Bit then 1 else 0);
      var count := endAddress - startAddress + 1;
      assert count == Count(items);
      if count * 2 > 255 {
        return Err(RangeTooLarge);
      }
      r := AssembleRequest(deviceId, values, count);
    }

    /** The rest of `get_write_command`: the code and header, the support check,
        the payload and the checksum. */
    method AssembleRequest(deviceId: byte, values: array<WriteItem>, count: int) returns (r: Result<seq<byte>, Error>)
      requires values.Length > 0 && SortedByAddress(values[..]) && Addressable(values[..])
      requires FirstProblem(values[..], values[0].variable.address).None? && count == Count(values[..]) && count * 2 <= 255
      ensures r == Assemble(deviceId, values[..])
    {
      ghost var items := values[..];
      var startAddress := values[0].variable.address;
      var byteCount := count * 2;
      assert items[0] in items && items[|items| - 1] in items;
      FirstProblemSpec(items, startAddress);
      var code, header := RequestHeader(deviceId, values[0].variable, count);
      var supported := AllSupport(values, code);
      if !supported {
        return Err(UnsupportedFunctionCode);
      }
      var data := new byte[byteCount](_ => 0);
      assert data[..] == Zeros(byteCount);
      var failed := FillPayload(values, data, startAddress);
      if failed.Some? {
        return Err(failed.value);
      }
      var result := header + data[..];
      var crc := Crc16(result);
      return Ok(result + crc);
    }

    /** The code `get_write_command` picks for `count` registers from `first`, and
        the header it writes: device, code, start address and, for 0x10, the
        register count and byte count. */
    method RequestHeader(deviceId: byte, first: Variable, count: int) returns (code: FunctionCode, header: seq<byte>)
      requires 0 <= first.address < 0x10000 && 0 <= count < 0x80
      ensures code == WriteCode(count, first) && header == Header(deviceId, code, first.address, count)
    {
      var startAddress := first.address;
      if count > 1 {
        code := WriteMemoryRange;
        header := [deviceId, code.Code(), startAddress / 0x100, startAddress % 0x100, count / 0x100, count % 0x100, count * 2];
      } else {
        if WriteStatusRegister in first.functionCodes {
          code := WriteStatusRegister;
        } else {
          code := WriteMemorySingle;
        }
        header := [deviceId, code.Code(), startAddress / 0x100, startAddress % 0x100];
      }
    }

    /** The packing loop of `get_write_command`: each value into `data` at its
        variable's offset, stopping at the first raise. */
    method FillPayload(values: array<WriteItem>, data: array<byte>, start: int) returns (failed: Option<Error>)
      requires FromStart(values[..], start)
      modifies data
      ensures Fill(old(data[..]), values[..], start).Err? ==> failed == Some(Fill(old(data[..]), values[..], start).error)
      ensures Fill(old(data[..]), values[..], start).Ok? ==> failed == None && data[..] == Fill(old(data[..]), values[..], start).value
    {
      ghost var items := values[..];
      var i := 0;
      while i < values.Length
        invariant 0 <= i <= values.Length
        invariant FromStart(items[i..], start)
        invariant Fill(old(data[..]), items, start) == Fill(data[..], items[i..], start)
      {
        var variable := values[i].variable;
        var offset := (variable.address - start) * 2;
        assert items[i..][0] == items[i] && items[i..][1..] == items[i + 1..];
        var done := ValueToBytes(variable, data, offset, values[i].value.value);
        if done.Err? {
          return Some(done.error);
        }
        i := i + 1;
      }
      assert items[values.Length..] == [];
      return None;
    }

    /** The continuity loop of `get_write_command` over the sorted list: the first
        missing value or gap. */
    method CheckContinuous(values: array<WriteItem>) returns (problem: Option<Error>)
      requires values.Length > 0
      ensures problem == FirstProblem(values[..], values[0].variable.address)
    {
      var address := values[0].variable.address;
      var i := 0;
      while i < values.Length
        invariant 0 <= i <= values.Length
        invariant FirstProblem(values[..], values[0].variable.address) == FirstProblem(values[i..], address)
      {
        assert values[i..][0] == values[i] && values[i..][1..] == values[i + 1..];
        var variable := values[i].variable;
        if values[i].value.None? {
          return Some(EmptyValue);
        }
        if address < variable.address {
          return Some(NotContinuous);
        }
        address := variable.address + (if variable.is32Bit then 2 else 1);
        i := i + 1;
      }
      return None;
    }

    /** `all(function_code.value in x[0].function_codes for x in values)`. */
    method AllSupport(values: array<WriteItem>, code: FunctionCode) returns (ok: bool)
      ensures ok <==> forall x | x in values[..] :: code in x.variable.functionCodes
    {
      var i := 0;
      while i < values.Length
        invariant 0 <= i <= values.Length
        invariant forall j | 0 <= j < i :: code in values[j].variable.functionCodes
      {
        if code !in values[i].variable.functionCodes {
          assert values[i] in values[..];
          return false;
        }
        i := i + 1;
      }
      return true;
    }

    /** The `while` loop of `parse`: word by word from offset 3 up to `end`, the
        readings of every registry entry at the word's address that accepts the
        code. */
    method WalkAnswer(table: seq<Variable>, code: FunctionCode, buffer: seq<byte>, start: int, end: nat) returns (r: Result<seq<Reading>, Error>)
      ensures r == Walk(table, code, buffer, start, 3, end)
    {
      var results: seq<Reading> := [];
      var address := start;
      var cursor := 3;
      ThenNothing(Walk(table, code, buffer, start, 3, end));
      while cursor < end
        invariant 3 <= cursor
        invariant Walk(table, code, buffer, start, 3, end) == Then(results, Walk(table, code, buffer, address, cursor, end))
        decreases end - cursor
      {
        var items := Matching(table, code, address);
        var here := ReadWordAt(items, buffer, cursor);
        WalkAdvance(table, code, buffer, start, end, results, address, cursor);
        if here.Err? {
          return Err(here.error);
        }
        results := results + here.value;
        cursor := cursor + 2;
        address := address + 1;
      }
      assert results + [] == results;
      return Ok(results);
    }

    /** The inner `for` loop of `parse`: one reading per entry, in order. */
    method ReadWordAt(items: seq<Variable>, buffer: seq<byte>, cursor: nat) returns (r: Result<seq<Reading>, Error>)
      ensures r == ReadWord(items, buffer, cursor)
    {
      var results: seq<Reading> := [];
      var k := 0;
      assert items[k..] == items;
      ThenNothing(ReadWord(items, buffer, cursor));
      while k < |items|
        invariant 0 <= k <= |items|
        invariant ReadWord(items, buffer, cursor) == Then(results, ReadWord(items[k..], buffer, cursor))
      {
        assert items[k..][0] == items[k] && items[k..][1..] == items[k + 1..];
        var value := BytesToValue(items[k], buffer, cursor);
        if value.Err? {
          return Err(value.error);
        }
        ThenThen(results, [Reading(items[k], value.value)], ReadWord(items[k + 1..], buffer, cursor));
        results := results + [Reading(items[k], value.value)];
        k := k + 1;
      }
      assert items[|items|..] == [];
      assert results + [] == results;
      return Ok(results);
    }

    /** `parse(start_address, buffer)`: remembers the answer's device id, then
        checks and walks the answer as `ParseFrame` over the registry does. */
    method Parse(start: int, buffer: seq<byte>) returns (r: Result<seq<Reading>, Error>)
      modifies this
      ensures |buffer| > 0 ==> deviceId == buffer[0] as int
      ensures |buffer| == 0 ==> deviceId == old(deviceId)
      ensures r == ParseFrame(Table, start, buffer)
    {
      if |buffer| == 0 {
        return Err(Truncated);
      }
      deviceId := buffer[0] as int;
      r := ParseAnswer(Table, start, buffer);
    }

    /** The body of `parse` after the device id, over the entries of `table`. */
    method ParseAnswer(table: seq<Variable>, start: int, buffer: seq<byte>) returns (r: Result<seq<Reading>, Error>)
      ensures r == ParseFrame(table, start, buffer)
    {
      if |buffer| < 2 {
        return Err(Truncated);
      }
      var functionCode := FunctionCodeOf(buffer[1]);
      if functionCode.None? {
        return Err(UnknownFunctionCode);
      }
      var code := functionCode.value;
      if code.IsRead() {
        if |buffer| < 3 {
          return Err(Truncated);
        }
        var dataLength := buffer[2] as int;
        var receivedCrc := Slice(buffer, 3 + dataLength, 3 + dataLength + 2);
        var calculatedCrc := Crc16(Slice(buffer, 0, 3 + dataLength));
        if receivedCrc != calculatedCrc {
          return Err(CrcMismatch);
        }
        r := WalkAnswer(table, code, buffer, start, dataLength + 3);
      } else {
        if |buffer| < 4 {
          return Err(Truncated);
        }
        var address := U16At(buffer, 2);
        if address != start {
          return Err(AddressMismatch);
        }
        var receivedCrc := Slice(buffer, 6, 8);
        var calculatedCrc := Crc16(Slice(buffer, 0, 6));
        if receivedCrc != calculatedCrc {
          return Err(CrcMismatch);
        }
        return Ok([]);
      }
    }
  }
}
