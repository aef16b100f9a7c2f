/** What the source promises of `get_write_command` as a whole: the errors it
    raises and their order, the layout of the request, each value at its
    register, and the acknowledgement the controller answers with. */
module WriteCommands {
  import opened Wrappers
  import opened Bytes
  import opened Variables
  import opened Errors
  import opened Crc
  import opened Codec
  import opened Writes
  import Frames

  /** The request is rejected as the source rejects it: an empty list, then a
      missing value or gap in the sorted list, then too many registers; a request
      that passes those can still fail on the code, or on a value that does not
      pack. */
  lemma WriteCommandErrors(deviceId: byte, values: seq<WriteItem>)
    requires Addressable(values)
    ensures var r := WriteCommand(deviceId, values);
      && (r == Err(EmptyValues) <==> |values| == 0)
      && (r.Err? ==> r.error in {EmptyValues, EmptyValue, NotContinuous, RangeTooLarge,
                                 UnsupportedFunctionCode, InvalidValue, NotANumber, PackOutOfRange, PackOutOfBuffer})
      && (|values| > 0 ==>
            ((r == Err(EmptyValue) || r == Err(NotContinuous)) <==> !(AllGiven(values) && Continuous(SortByAddress(values)))))
      && (|values| > 0 && AllGiven(values) && Continuous(SortByAddress(values)) ==>
            (r == Err(RangeTooLarge) <==> Count(SortByAddress(values)) * 2 > 255))
  {
    if |values| > 0 {
      SortKeepsPairs(values);
      BuildErrors(deviceId, SortByAddress(values));
      assert WriteCommand(deviceId, values) == Build(deviceId, SortByAddress(values));
    }
  }

  /** A successful write request ends in its own checksum, names the device, a
      write code every variable accepts (0x10 exactly when more than one register
      is written), the lowest address written, and for 0x10 the register and
      byte counts; its length is header, two bytes per register, and checksum. */
  lemma WriteCommandFrame(deviceId: byte, values: seq<WriteItem>)
    requires Addressable(values) && WriteCommand(deviceId, values).Ok?
    ensures var frame := WriteCommand(deviceId, values).value;
      var items := SortByAddress(values);
      var count := Count(items);
      var code := WriteCode(count, items[0].variable);
      && Frames.CrcValid(frame)
      && frame[0] == deviceId
      && FunctionCodeOf(frame[1]) == Some(code)
      && (forall x | x in values :: code in x.variable.functionCodes)
      && (forall x | x in values :: items[0].variable.address <= x.variable.address)
      && 1 <= count < 0x80
      && |frame| == HeaderSize(count) + 2 * count + 2
      && U16At(frame, 2) == items[0].variable.address
      && (count > 1 ==> U16At(frame, 4) == count && frame[6] == 2 * count)
  {
    SortKeepsPairs(values);
    var items := SortByAddress(values);
    assert WriteCommand(deviceId, values) == Build(deviceId, items);
    BuildChecks(deviceId, items);
    BuildUnfold(deviceId, items);
    FrameLayout(deviceId, items, Fill(Zeros(Count(items) * 2), items, items[0].variable.address).value);
    forall x | x in values
      ensures items[0].variable.address <= x.variable.address
    {
      var i := Position(items, x);
      if i > 0 {
        assert items[0].variable.address <= items[i].variable.address;
      }
    }
  }

  lemma Position(items: seq<WriteItem>, x: WriteItem) returns (k: nat)
    requires x in items
    ensures k < |items| && items[k] == x
  {
    k :| 0 <= k < |items| && items[k] == x;
  }

  /** Every pair of the list was given, and when no two variables overlap each
      value's raw integer sits at its register's offset after the header. */
  lemma WriteCommandReadBack(deviceId: byte, values: seq<WriteItem>, x: WriteItem, items: seq<WriteItem>, frame: seq<byte>)
    requires Addressable(values) && WriteCommand(deviceId, values) == Ok(frame) && x in values
    requires items == SortByAddress(values) && Apart(items)
    ensures |items| > 0 && x.value.Some? && x.variable.address >= items[0].variable.address
    ensures RawValue(x.variable, x.value.value).Ok?
    ensures ReadRaw(x.variable, frame, HeaderSize(Count(items)) + Offset(x.variable, items[0].variable.address))
         == Ok(RawValue(x.variable, x.value.value).value)
  {
    WriteCommandIsBuild(deviceId, values);
    assert x in items by {
      SortKeepsPairs(values);
    }
    BuildUnfold(deviceId, items);
    FrameReadBack(deviceId, items, x, Fill(Zeros(Count(items) * 2), items, items[0].variable.address).value, frame);
  }

  /** A non-empty list is sorted, then built. */
  lemma WriteCommandIsBuild(deviceId: byte, values: seq<WriteItem>)
    requires Addressable(values) && |values| > 0
    ensures var items := SortByAddress(values);
      && |items| > 0 && SortedByAddress(items) && Addressable(items)
      && WriteCommand(deviceId, values) == Build(deviceId, items)
  {
    SortKeepsPairs(values);
  }

  /** The controller's acknowledgement (the request's first six bytes and their
      checksum; for a single register, the request itself) is accepted by
      `ParseFrame` with no readings. */
  lemma WriteCommandAck(table: seq<Variable>, deviceId: byte, values: seq<WriteItem>, items: seq<WriteItem>, frame: seq<byte>)
    requires Addressable(values) && WriteCommand(deviceId, values) == Ok(frame)
    requires items == SortByAddress(values)
    ensures |frame| >= 8 && |items| > 0
    ensures var ack := frame[..6] + Checksum(frame[..6]);
      && (Count(items) <= 1 ==> ack == frame)
      && Frames.ParseFrame(table, items[0].variable.address, ack) == Ok([])
  {
    WriteCommandFrame(deviceId, values);
    AckAccepted(table, frame, items[0].variable.address);
  }

  /** A write request's first six bytes and their checksum parse as an
      acknowledgement of the request's start address; an eight-byte request is
      its own acknowledgement. */
  lemma AckAccepted(table: seq<Variable>, frame: seq<byte>, start: int)
    requires |frame| >= 8 && Frames.CrcValid(frame) && U16At(frame, 2) == start
    requires FunctionCodeOf(frame[1]).Some? && !FunctionCodeOf(frame[1]).value.IsRead()
    ensures var ack := frame[..6] + Checksum(frame[..6]);
      && (|frame| == 8 ==> ack == frame)
      && Frames.ParseFrame(table, start, ack) == Ok([])
  {
    var ack := frame[..6] + Checksum(frame[..6]);
    assert ack[..8] == ack && ack[..6] == frame[..6] && ack[6..] == Checksum(ack[..6]);
    assert U16At(ack, 2) == U16At(frame, 2);
    Frames.ParseAck(table, start, ack);
    if |frame| == 8 {
      assert frame == frame[..6] + frame[6..];
    }
  }
}
