/** The write request `get_write_command` builds, as a value: the pairs sorted
    by address, checked for missing values and gaps, a code chosen from the
    number of registers (0x10, write multiple registers, section 6.12 of the
    Modbus Application Protocol V1.1b3; else 0x05 or 0x06, sections 6.5 and 6.6),
    a header, the payload each value is packed into at its own register, and the
    checksum. */
module Writes {
  import opened Wrappers
  import opened Bytes
  import opened Values
  import opened Variables
  import opened Errors
  import opened Crc
  import opened Codec
  import Frames

  /** One pair of the list handed to `get_write_command`: a variable and the value
      to write, `None` standing for Python's `None`. */
  datatype WriteItem = WriteItem(variable: Variable, value: Option<Value>)

  // ---------------------------------------------------------------- sorting

  predicate SortedByAddress(s: seq<WriteItem>)
  {
    forall i, j | 0 <= i < j < |s| :: s[i].variable.address <= s[j].variable.address
  }

  /** `x` placed after every element of `sorted` whose address is not larger, as one
      step of a stable insertion sort. */
  function Insert(sorted: seq<WriteItem>, x: WriteItem): seq<WriteItem>
  {
    if |sorted| == 0 || sorted[|sorted| - 1].variable.address <= x.variable.address then sorted + [x]
    else Insert(sorted[..|sorted| - 1], x) + [sorted[|sorted| - 1]]
  }

  /** `list.sort(key=lambda x: x[0].address)`: a stable sort by address. */
  function SortByAddress(s: seq<WriteItem>): seq<WriteItem>
  {
    if |s| == 0 then [] else Insert(SortByAddress(s[..|s| - 1]), s[|s| - 1])
  }

  /** No address in `s` exceeds `bound`. */
  predicate AtMost(s: seq<WriteItem>, bound: int)
  {
    forall k | 0 <= k < |s| :: s[k].variable.address <= bound
  }

  lemma {:induction false} InsertAtMost(sorted: seq<WriteItem>, x: WriteItem, bound: int)
    requires AtMost(sorted, bound) && x.variable.address <= bound
    ensures AtMost(Insert(sorted, x), bound)
    decreases |sorted|
  {
    if |sorted| > 0 && sorted[|sorted| - 1].variable.address > x.variable.address {
      InsertAtMost(sorted[..|sorted| - 1], x, bound);
    }
  }

  lemma {:induction false} InsertSpec(sorted: seq<WriteItem>, x: WriteItem)
    requires SortedByAddress(sorted)
    ensures SortedByAddress(Insert(sorted, x))
    ensures multiset(Insert(sorted, x)) == multiset(sorted) + multiset{x}
    ensures |Insert(sorted, x)| == |sorted| + 1
    decreases |sorted|
  {
    if |sorted| > 0 && sorted[|sorted| - 1].variable.address > x.variable.address {
      var init := sorted[..|sorted| - 1];
      var top := sorted[|sorted| - 1];
      var rest := Insert(init, x);
      assert Insert(sorted, x) == rest + [top];
      assert sorted == init + [top];
      InsertSpec(init, x);
      AtMostLast(sorted, top.variable.address);
      InsertAtMost(init, x, top.variable.address);
      SortedSnoc(rest, top);
    } else {
      if |sorted| > 0 {
        AtMostLast(sorted, x.variable.address);
      }
      SortedSnoc(sorted, x);
    }
  }

  /** In an address-ordered list whose last address is at most `bound`, every
      address, and every one before the last, is at most `bound`. */
  lemma AtMostLast(s: seq<WriteItem>, bound: int)
    requires |s| > 0 && SortedByAddress(s) && s[|s| - 1].variable.address <= bound
    ensures AtMost(s, bound) && AtMost(s[..|s| - 1], bound)
  {
  }

  /** An element no lower than every address of an ordered list extends it in order. */
  lemma SortedSnoc(s: seq<WriteItem>, y: WriteItem)
    requires SortedByAddress(s) && AtMost(s, y.variable.address)
    ensures SortedByAddress(s + [y])
  {
  }

  /** One step of the in-place insertion: `x` moves past `s[j - 1]`. */
  lemma InsertPast(s: seq<WriteItem>, j: nat, x: WriteItem)
    requires 0 < j <= |s| && s[j - 1].variable.address > x.variable.address
    ensures Insert(s[..j], x) + s[j..] == Insert(s[..j - 1], x) + s[j - 1..]
  {
    assert s[..j][..j - 1] == s[..j - 1];
    assert s[j - 1..] == [s[j - 1]] + s[j..];
  }

  /** Where the in-place insertion stops, `x` goes right after `s[..j]`. */
  lemma InsertStops(s: seq<WriteItem>, j: nat, x: WriteItem)
    requires j <= |s| && (j == 0 || s[j - 1].variable.address <= x.variable.address)
    ensures Insert(s[..j], x) == s[..j] + [x]
  {
  }

  /** The sort orders by address and keeps every pair, as many times as it came. */
  lemma {:induction false} SortSpec(s: seq<WriteItem>)
    ensures SortedByAddress(SortByAddress(s))
    ensures multiset(SortByAddress(s)) == multiset(s)
    ensures |SortByAddress(s)| == |s|
  {
    if |s| > 0 {
      SortSpec(s[..|s| - 1]);
      InsertSpec(SortByAddress(s[..|s| - 1]), s[|s| - 1]);
      assert s == s[..|s| - 1] + [s[|s| - 1]];
    }
  }

  /** A list already in address order is left as it is. */
  lemma {:induction false} SortKeepsSorted(s: seq<WriteItem>)
    requires SortedByAddress(s)
    ensures SortByAddress(s) == s
  {
    if |s| > 0 {
      var init, last := s[..|s| - 1], s[|s| - 1];
      assert SortedByAddress(init);
      SortKeepsSorted(init);
      assert SortByAddress(s) == Insert(init, last);
      if |init| > 0 {
        assert init[|init| - 1].variable.address <= last.variable.address;
      }
      assert Insert(init, last) == init + [last];
      assert init + [last] == s;
    }
  }

  // ------------------------------------------------------------ continuity

  /** The `for` loop over the sorted pairs: the first missing value or gap, if any.
      `address` is the first register not yet covered. */
  function FirstProblem(items: seq<WriteItem>, address: int): (r: Option<Error>)
    ensures r.Some? ==> r.value in {EmptyValue, NotContinuous}
    ensures r.None? ==> forall k | 0 <= k < |items| :: items[k].value.Some?
  {
    if |items| == 0 then None
    else if items[0].value.None? then Some(EmptyValue)
    else if address < items[0].variable.address then Some(NotContinuous)
    else FirstProblem(items[1..], items[0].variable.address + Registers(items[0].variable))
  }

  /** Each variable starts no later than the register after the one before it. */
  predicate Continuous(items: seq<WriteItem>)
  {
    forall i | 0 <= i < |items| - 1 :: items[i + 1].variable.address <= items[i].variable.address + Registers(items[i].variable)
  }

  /** No pair carries `None`. */
  predicate AllGiven(items: seq<WriteItem>)
  {
    forall x | x in items :: x.value.Some?
  }

  /** The loop passes exactly when every value is given, the first variable starts
      no later than `address` and the list leaves no gap; otherwise it reports a
      missing value or a gap. */
  lemma {:induction false} FirstProblemSpec(items: seq<WriteItem>, address: int)
    ensures FirstProblem(items, address).None? <==>
      AllGiven(items) && (|items| > 0 ==> items[0].variable.address <= address) && Continuous(items)
    decreases |items|
  {
    if |items| > 0 && items[0].value.Some? && items[0].variable.address <= address {
      var next := items[0].variable.address + Registers(items[0].variable);
      FirstProblemSpec(items[1..], next);
      assert items == [items[0]] + items[1..];
      assert AllGiven(items) <==> AllGiven(items[1..]);
      assert Continuous(items) <==> (|items| > 1 ==> items[1].variable.address <= next) && Continuous(items[1..]) by {
        if (|items| > 1 ==> items[1].variable.address <= next) && Continuous(items[1..]) {
          forall i | 0 <= i < |items| - 1
            ensures items[i + 1].variable.address <= items[i].variable.address + Registers(items[i].variable)
          {
            if i > 0 { assert items[i] == items[1..][i - 1] && items[i + 1] == items[1..][i]; }
          }
        }
      }
    }
  }

  // ------------------------------------------------------------- the frame

  /** The write code: several registers need 0x10; one register uses 0x05 when the
      first variable accepts it and 0x06 otherwise. */
  function WriteCode(count: int, first: Variable): (code: FunctionCode)
    ensures !code.IsRead()
    ensures code == WriteMemoryRange <==> count > 1
    ensures code == WriteStatusRegister <==> count <= 1 && WriteStatusRegister in first.functionCodes
  {
    if count > 1 then WriteMemoryRange
    else if WriteStatusRegister in first.functionCodes then WriteStatusRegister
    else WriteMemorySingle
  }

  /** The header: device, code and start address, then for 0x10 the register count
      and the byte count. */
  function Header(deviceId: byte, code: FunctionCode, start: int, count: int): seq<byte>
    requires 0 <= start < 0x10000 && 0 <= count < 0x80
  {
    if code == WriteMemoryRange then [deviceId, code.Code(), start / 0x100, start % 0x100, count / 0x100, count % 0x100, count * 2]
    else [deviceId, code.Code(), start / 0x100, start % 0x100]
  }

  function Zeros(n: nat): (r: seq<byte>)
    ensures |r| == n
  {
    seq(n, _ => 0)
  }

  /** The payload offset of a variable: two bytes per register after `start`. */
  function Offset(v: Variable, start: int): nat
    requires v.address >= start
  {
    (v.address - start) * 2
  }

  predicate FromStart(items: seq<WriteItem>, start: int)
  {
    forall i | 0 <= i < |items| :: items[i].value.Some? && items[i].variable.address >= start
  }

  /** The `for` loop that packs every value into the payload at its variable's
      offset, in list order; the first failure aborts. */
  function Fill(data: seq<byte>, items: seq<WriteItem>, start: int): (r: Result<seq<byte>, Error>)
    requires FromStart(items, start)
    ensures r.Ok? ==> |r.value| == |data|
    decreases |items|
  {
    if |items| == 0 then Ok(data)
    else
      var p := Encode(items[0].variable, data, Offset(items[0].variable, start), items[0].value.value);
      if p.outcome.Err? then Err(p.outcome.error)
      else Fill(p.buf, items[1..], start)
  }

  /** The registers from the first variable's address to the end of the last one. */
  function Count(items: seq<WriteItem>): int
    requires |items| > 0
  {
    items[|items| - 1].variable.address + Registers(items[|items| - 1].variable) - items[0].variable.address
  }

  /** Every address fits the two header bytes `bytes([...])` puts it in. */
  predicate Addressable(values: seq<WriteItem>)
  {
    forall x | x in values :: 0 <= x.variable.address < 0x10000
  }

  lemma SortKeepsPairs(values: seq<WriteItem>)
    ensures |SortByAddress(values)| == |values|
    ensures SortedByAddress(SortByAddress(values))
    ensures forall x :: x in SortByAddress(values) <==> x in values
    ensures AllGiven(SortByAddress(values)) <==> AllGiven(values)
    ensures Addressable(SortByAddress(values)) <==> Addressable(values)
  {
    SortSpec(values);
    var items := SortByAddress(values);
    assert forall x :: x in items <==> x in multiset(values);
  }

  /** `get_write_command` from the sort on: the loop, then the count. */
  function Build(deviceId: byte, items: seq<WriteItem>): (r: Result<seq<byte>, Error>)
    requires |items| > 0 && SortedByAddress(items) && Addressable(items)
    ensures r.Err? ==> r.error in {EmptyValue, NotContinuous, RangeTooLarge,
                                   UnsupportedFunctionCode, InvalidValue, NotANumber, PackOutOfRange, PackOutOfBuffer}
    ensures r.Ok? ==> AllGiven(items) && Continuous(items) && Frames.CrcValid(r.value) && r.value[0] == deviceId
  {
    FirstProblemSpec(items, items[0].variable.address);
    match FirstProblem(items, items[0].variable.address)
    case Some(e) => Err(e)
    case None =>
      if Count(items) * 2 > 255 then Err(RangeTooLarge)
      else Assemble(deviceId, items)
  }

  /** The rest of `get_write_command` once the list passed the loop and the count
      fits: the code and its check, the payload and the checksum. */
  function Assemble(deviceId: byte, items: seq<WriteItem>): (r: Result<seq<byte>, Error>)
    requires |items| > 0 && SortedByAddress(items) && Addressable(items)
    requires FirstProblem(items, items[0].variable.address).None? && Count(items) * 2 <= 255
    ensures r.Err? ==> r.error in {UnsupportedFunctionCode, InvalidValue, NotANumber, PackOutOfRange, PackOutOfBuffer}
    ensures r.Ok? ==> && Frames.CrcValid(r.value) && r.value[0] == deviceId
                      && |r.value| == HeaderSize(Count(items)) + 2 * Count(items) + 2
  {
    var start := items[0].variable.address;
    assert items[0] in items && items[|items| - 1] in items;
    var count := Count(items);
    var code := WriteCode(count, items[0].variable);
    if !(forall x | x in items :: code in x.variable.functionCodes) then Err(UnsupportedFunctionCode)
    else
      FirstProblemSpec(items, start);
      FillErrors(Zeros(count * 2), items, start);
      match Fill(Zeros(count * 2), items, start)
      case Err(e) => Err(e)
      case Ok(data) => FrameLayout(deviceId, items, data); Ok(Frame(deviceId, items, data))
  }

  /** `get_write_command(device_id, values)`. */
  function WriteCommand(deviceId: byte, values: seq<WriteItem>): (r: Result<seq<byte>, Error>)
    requires Addressable(values)
    ensures r == Err(EmptyValues) <==> |values| == 0
    ensures r.Ok? ==> Frames.CrcValid(r.value) && r.value[0] == deviceId
  {
    if |values| == 0 then Err(EmptyValues)
    else
      SortKeepsPairs(values);
      Build(deviceId, SortByAddress(values))
  }

  // -------------------------------------------------------------- properties

  /** Header bytes before the payload: 7 for a 0x10 request, 4 otherwise. */
  function HeaderSize(count: int): nat
  {
    if count > 1 then 7 else 4
  }

  /** Each variable's registers end before any later variable's begin. */
  predicate Apart(items: seq<WriteItem>)
  {
    forall i, j | 0 <= i < j < |items| :: items[i].variable.address + Registers(items[i].variable) <= items[j].variable.address
  }

  /** Packing the items leaves every byte below `bound` alone when all of them
      start at or after it. */
  lemma {:induction false} FillKeeps(data: seq<byte>, items: seq<WriteItem>, start: int, bound: nat)
    requires FromStart(items, start) && Fill(data, items, start).Ok?
    requires forall j | 0 <= j < |items| :: Offset(items[j].variable, start) >= bound
    ensures forall i | 0 <= i < bound && i < |data| :: Fill(data, items, start).value[i] == data[i]
    decreases |items|
  {
    if |items| > 0 {
      var v := items[0].variable;
      var p := Encode(v, data, Offset(v, start), items[0].value.value);
      assert FromStart(items[1..], start);
      FillKeeps(p.buf, items[1..], start, bound);
    }
  }

  /** When no two items overlap, the payload holds at each item's offset the raw
      integer its value was packed as. */
  lemma {:induction false} FillReads(data: seq<byte>, items: seq<WriteItem>, start: int, x: WriteItem)
    requires FromStart(items, start) && Apart(items) && Fill(data, items, start).Ok? && x in items
    ensures x.value.Some? && x.variable.address >= start
    ensures RawValue(x.variable, x.value.value).Ok?
    ensures ReadRaw(x.variable, Fill(data, items, start).value, Offset(x.variable, start))
      == Ok(RawValue(x.variable, x.value.value).value)
    decreases |items|
  {
    var v := items[0].variable;
    var off := Offset(v, start);
    var p := Encode(v, data, off, items[0].value.value);
    var out := Fill(data, items, start).value;
    assert out == Fill(p.buf, items[1..], start).value;
    if x == items[0] {
      var raw := RawValue(v, items[0].value.value).value;
      assert p == Store(v, data, off, raw);
      StoreThenRead(v, data, off, raw);
      forall j | 0 <= j < |items[1..]|
        ensures Offset(items[1..][j].variable, start) >= off + Size(v)
      {
        assert items[1..][j] == items[j + 1];
      }
      FillKeeps(p.buf, items[1..], start, off + Size(v));
      ReadRawLocal(v, p.buf, off, out, off);
    } else {
      assert Apart(items[1..]) by {
        forall i, j | 0 <= i < j < |items[1..]|
          ensures items[1..][i].variable.address + Registers(items[1..][i].variable) <= items[1..][j].variable.address
        {
          assert items[1..][i] == items[i + 1] && items[1..][j] == items[j + 1];
        }
      }
      assert x in items[1..];
      FillReads(p.buf, items[1..], start, x);
    }
  }

  /** The request built from a payload: the header, the payload, and the
      checksum of both. */
  function Frame(deviceId: byte, items: seq<WriteItem>, data: seq<byte>): seq<byte>
    requires |items| > 0 && 0 <= items[0].variable.address < 0x10000 && 1 <= Count(items) < 0x80
  {
    var head := Header(deviceId, WriteCode(Count(items), items[0].variable), items[0].variable.address, Count(items));
    head + data + Checksum(head + data)
  }

  /** What a successful `Build` went through: the loop passed, the registers fit
      the byte count and every variable accepts the code. */
  lemma BuildChecks(deviceId: byte, items: seq<WriteItem>)
    requires |items| > 0 && SortedByAddress(items) && Addressable(items)
    requires Build(deviceId, items).Ok?
    ensures AllGiven(items) && Continuous(items)
    ensures 0 <= items[0].variable.address < 0x10000
    ensures FromStart(items, items[0].variable.address)
    ensures 1 <= Count(items) < 0x80
    ensures forall x | x in items :: WriteCode(Count(items), items[0].variable) in x.variable.functionCodes
  {
    var start := items[0].variable.address;
    assert items[0] in items && items[|items| - 1] in items;
    FirstProblemSpec(items, start);
    assert FirstProblem(items, start).None? && Count(items) * 2 <= 255;
    assert Assemble(deviceId, items).Ok?;
  }

  /** A successful `Build` is the frame of the packed payload. */
  lemma BuildUnfold(deviceId: byte, items: seq<WriteItem>)
    requires |items| > 0 && SortedByAddress(items) && Addressable(items)
    requires Build(deviceId, items).Ok?
    ensures 0 <= items[0].variable.address < 0x10000 && 1 <= Count(items) < 0x80
    ensures FromStart(items, items[0].variable.address)
    ensures Fill(Zeros(Count(items) * 2), items, items[0].variable.address).Ok?
    ensures Build(deviceId, items) == Ok(Frame(deviceId, items, Fill(Zeros(Count(items) * 2), items, items[0].variable.address).value))
  {
    BuildChecks(deviceId, items);
    assert Build(deviceId, items) == Assemble(deviceId, items);
  }

  /** The layout of a request: its checksum, device, code, start address, counts
      and length. */
  lemma FrameLayout(deviceId: byte, items: seq<WriteItem>, data: seq<byte>)
    requires |items| > 0 && 0 <= items[0].variable.address < 0x10000 && 1 <= Count(items) < 0x80
    ensures var frame := Frame(deviceId, items, data);
      var count := Count(items);
      && Frames.CrcValid(frame)
      && frame[0] == deviceId
      && FunctionCodeOf(frame[1]) == Some(WriteCode(count, items[0].variable))
      && |frame| == HeaderSize(count) + |data| + 2
      && U16At(frame, 2) == items[0].variable.address
      && (count > 1 ==> U16At(frame, 4) == count && frame[6] == 2 * count)
  {
    var count := Count(items);
    var code := WriteCode(count, items[0].variable);
    var head := Header(deviceId, code, items[0].variable.address, count);
    var r := Frame(deviceId, items, data);
    assert r[..|r| - 2] == head + data;
    Frames.CodeRoundTrip(code);
    assert r[..|head|] == head;
  }

  /** A word of the payload reads the same after the header. */
  lemma FrameReadAt(deviceId: byte, items: seq<WriteItem>, data: seq<byte>, v: Variable, off: nat)
    requires |items| > 0 && 0 <= items[0].variable.address < 0x10000 && 1 <= Count(items) < 0x80
    requires off + Size(v) <= |data|
    ensures ReadRaw(v, Frame(deviceId, items, data), HeaderSize(Count(items)) + off) == ReadRaw(v, data, off)
  {
    var head := Header(deviceId, WriteCode(Count(items), items[0].variable), items[0].variable.address, Count(items));
    ReadRawShift(v, head, data, Checksum(head + data), off);
  }

  /** With no two variables of the list overlapping, each value's raw integer
      sits at its register's offset after the header of the request built from
      the filled data. */
  lemma FrameReadBack(deviceId: byte, items: seq<WriteItem>, x: WriteItem, data: seq<byte>, frame: seq<byte>)
    requires |items| > 0 && 0 <= items[0].variable.address < 0x10000 && 1 <= Count(items) < 0x80
    requires FromStart(items, items[0].variable.address) && Apart(items) && x in items
    requires Fill(Zeros(Count(items) * 2), items, items[0].variable.address) == Ok(data)
    requires frame == Frame(deviceId, items, data)
    ensures && x.value.Some? && x.variable.address >= items[0].variable.address
      && RawValue(x.variable, x.value.value).Ok?
      && ReadRaw(x.variable, frame, HeaderSize(Count(items)) + Offset(x.variable, items[0].variable.address))
         == Ok(RawValue(x.variable, x.value.value).value)
  {
    var start := items[0].variable.address;
    FilledWord(items, x, data);
    FrameReadAt(deviceId, items, data, x.variable, Offset(x.variable, start));
  }

  /** A filled payload holds each value's raw integer at its register's offset. */
  lemma FilledWord(items: seq<WriteItem>, x: WriteItem, data: seq<byte>)
    requires |items| > 0 && FromStart(items, items[0].variable.address) && Apart(items) && x in items
    requires Fill(Zeros(Count(items) * 2), items, items[0].variable.address) == Ok(data)
    ensures && x.value.Some? && x.variable.address >= items[0].variable.address
      && RawValue(x.variable, x.value.value).Ok?
      && Offset(x.variable, items[0].variable.address) + Size(x.variable) <= |data|
      && ReadRaw(x.variable, data, Offset(x.variable, items[0].variable.address)) == Ok(RawValue(x.variable, x.value.value).value)
  {
    var start := items[0].variable.address;
    FillReads(Zeros(Count(items) * 2), items, start, x);
    assert ReadRaw(x.variable, data, Offset(x.variable, start)).Ok?;
  }

  /** A sorted list is rejected on a missing value or gap exactly when it is not
      all given and continuous, then on too many registers exactly when its count
      needs more than 255 bytes; the other failures are the code check and the
      packing. */
  lemma BuildErrors(deviceId: byte, items: seq<WriteItem>)
    requires |items| > 0 && SortedByAddress(items) && Addressable(items)
    ensures var r := Build(deviceId, items);
      && (r.Err? ==> r.error in {EmptyValue, NotContinuous, RangeTooLarge,
                                 UnsupportedFunctionCode, InvalidValue, NotANumber, PackOutOfRange, PackOutOfBuffer})
      && ((r == Err(EmptyValue) || r == Err(NotContinuous)) <==> !(AllGiven(items) && Continuous(items)))
      && (AllGiven(items) && Continuous(items) ==> (r == Err(RangeTooLarge) <==> Count(items) * 2 > 255))
  {
    var start := items[0].variable.address;
    assert items[0] in items && items[|items| - 1] in items;
    FirstProblemSpec(items, start);
    if FirstProblem(items, start).None? && Count(items) * 2 <= 255 {
      var code := WriteCode(Count(items), items[0].variable);
      if forall x | x in items :: code in x.variable.functionCodes {
        FillErrors(Zeros(Count(items) * 2), items, start);
      }
    }
  }

  lemma {:induction false} FillErrors(data: seq<byte>, items: seq<WriteItem>, start: int)
    requires FromStart(items, start)
    ensures var r := Fill(data, items, start);
      r.Err? ==> r.error in {InvalidValue, NotANumber, PackOutOfRange, PackOutOfBuffer}
    decreases |items|
  {
    if |items| > 0 {
      var v := items[0].variable;
      var p := Encode(v, data, Offset(v, start), items[0].value.value);
      if p.outcome.Err? {
        assert RawValue(v, items[0].value.value).Err? || Store(v, data, Offset(v, start), RawValue(v, items[0].value.value).value).outcome.Err?;
      } else {
        assert FromStart(items[1..], start);
        FillErrors(p.buf, items[1..], start);
      }
    }
  }
}
