/** The frames the client exchanges with the controller, as values: the read
    request, the completeness test on received bytes, and the parse of a read
    answer or a write acknowledgement. Every frame ends with the CRC-16/MODBUS
    of the bytes before it, low byte first (section 2.5.1.2 of the Modbus over
    Serial Line Specification V1.02). */
module Frames {
  import opened Wrappers
  import opened Bytes
  import opened Values
  import opened Variables
  import opened Errors
  import opened Crc
  import opened Codec

  /** A frame whose last two bytes are the checksum of the bytes before them. */
  predicate CrcValid(frame: seq<byte>)
  {
    |frame| >= 2 && frame[|frame| - 2..] == Checksum(frame[..|frame| - 2])
  }

  /** `Result`: a registry variable together with the value read for it. */
  datatype Reading = Reading(variable: Variable, value: Value)

  // ------------------------------------------------------------ read request

  /** The registry entries whose address lies in `start .. start + count - 1`, in
      registry order. */
  function InWindow(table: seq<Variable>, start: int, count: int): (r: seq<Variable>)
    ensures forall v :: v in r <==> v in table && start <= v.address < start + count
  {
    if |table| == 0 then []
    else (if start <= table[0].address < start + count then [table[0]] else []) + InWindow(table[1..], start, count)
  }

  /** The six header values of a read request are bytes: the device id fits a
      byte, and the start and the count fit two bytes each (`x >> 8` is a byte
      exactly for `0 <= x < 0x10000`; `x & 0xFF` always is). */
  predicate HeaderFits(deviceId: int, start: int, count: int)
  {
    0 <= deviceId < 0x100 && 0 <= start < 0x10000 && 0 <= count < 0x10000
  }

  /** `get_read_command(device_id, start_address, count)`: the six bytes device,
      code, start (big-endian) and count (big-endian), then their checksum. The
      code is the first one of the first entry in the window, and every entry of
      the window must accept it. Only then are the six values packed, and a value
      that is not a byte fails. */
  function ReadCommand(table: seq<Variable>, deviceId: int, start: int, count: int): (r: Result<seq<byte>, Error>)
    requires forall v | v in table :: |v.functionCodes| > 0
    ensures r.Err? ==> r.error in {NoVariablesInRange, MultipleFunctionCodes, ByteOutOfRange}
    ensures r == Err(ByteOutOfRange) ==> !HeaderFits(deviceId, start, count)
    ensures r.Ok? ==> && HeaderFits(deviceId, start, count)
                      && |r.value| == 8 && CrcValid(r.value) && r.value[0] == deviceId
                      && U16At(r.value, 2) == start && U16At(r.value, 4) == count
  {
    var items := InWindow(table, start, count);
    if |items| == 0 then Err(NoVariablesInRange)
    else
      var code := items[0].functionCodes[0];
      if !(forall v | v in items :: code in v.functionCodes) then Err(MultipleFunctionCodes)
      else if !HeaderFits(deviceId, start, count) then Err(ByteOutOfRange)
      else
        var head := [deviceId, code.Code(), start / 0x100, start % 0x100, count / 0x100, count % 0x100];
        assert (head + Checksum(head))[..6] == head;
        Ok(head + Checksum(head))
  }

  /** The read request fails for an empty window exactly when no entry lies in it,
      then for mixed codes, then exactly when a header value is not a byte; when
      it succeeds it is an eight-byte frame with a valid checksum, from which the
      device, a code every entry of the window accepts, the start and the count
      read back. */
  lemma ReadCommandSpec(table: seq<Variable>, deviceId: int, start: int, count: int)
    requires forall v | v in table :: |v.functionCodes| > 0
    ensures var r := ReadCommand(table, deviceId, start, count);
      && (r == Err(NoVariablesInRange) <==> forall v | v in table :: !(start <= v.address < start + count))
      && (r.Err? ==> r.error in {NoVariablesInRange, MultipleFunctionCodes, ByteOutOfRange})
      && var w := InWindow(table, start, count);
      && (r == Err(MultipleFunctionCodes) <==>
            |w| > 0 && exists v | v in w :: w[0].functionCodes[0] !in v.functionCodes)
      && (r == Err(ByteOutOfRange) <==>
            && |w| > 0 && (forall v | v in w :: w[0].functionCodes[0] in v.functionCodes)
            && !HeaderFits(deviceId, start, count))
      && (r.Ok? ==>
            && |r.value| == 8 && CrcValid(r.value)
            && r.value[0] == deviceId && U16At(r.value, 2) == start && U16At(r.value, 4) == count
            && FunctionCodeOf(r.value[1]).Some?
            && FunctionCodeOf(r.value[1]).value == InWindow(table, start, count)[0].functionCodes[0]
            && forall v | v in table && start <= v.address < start + count :: FunctionCodeOf(r.value[1]).value in v.functionCodes)
  {
    var items := InWindow(table, start, count);
    if |items| == 0 {
      assert forall v | v in table :: !(start <= v.address < start + count);
    } else {
      assert items[0] in items;
      var r := ReadCommand(table, deviceId, start, count);
      if r.Ok? {
        var code := items[0].functionCodes[0];
        var head := [deviceId, code.Code(), start / 0x100, start % 0x100, count / 0x100, count % 0x100];
        assert r.value == head + Checksum(head);
        assert r.value[..6] == head;
        CodeRoundTrip(code);
      }
    }
  }

  /** Against a table of 16-bit addresses, a window of no registers, or one lying
      wholly below 0 or above 0xFFFF, holds no entry: the request then fails with
      the empty-window error before any header value is packed, whatever the
      device id. */
  lemma EmptyWindowFirst(table: seq<Variable>, deviceId: int, start: int, count: int)
    requires forall v | v in table :: |v.functionCodes| > 0 && 0 <= v.address < 0x10000
    requires count <= 0 || start + count <= 0 || start >= 0x10000
    ensures ReadCommand(table, deviceId, start, count) == Err(NoVariablesInRange)
  {
  }

  /** A code's wire byte names the code again. */
  lemma CodeRoundTrip(code: FunctionCode)
    ensures FunctionCodeOf(code.Code()) == Some(code)
  {
  }

  /** The header and checksum of the first reference request. */
  lemma FirstRequestBytes(deviceId: int, start: int, count: int)
    requires deviceId == 0x01 && start == 0x3011 && count == 0x1C
    ensures var head := [deviceId, ReadMemory.Code(), start / 0x100, start % 0x100, count / 0x100, count % 0x100];
      head + Checksum(head) == [0x01, 0x04, 0x30, 0x11, 0x00, 0x1C, 0xAE, 0xC6]
  {
    var head := [deviceId, ReadMemory.Code(), start / 0x100, start % 0x100, count / 0x100, count % 0x100];
    assert head == [0x01, 0x04, 0x30, 0x11, 0x00, 0x1C];
    Vector1();
    assert Checksum(head) == [0xAE, 0xC6];
  }

  /** When every entry of a non-empty window accepts the first entry's first code,
      the request is the six header bytes followed by their checksum. */
  lemma ReadCommandAccepted(table: seq<Variable>, deviceId: int, start: int, count: int, code: FunctionCode)
    requires HeaderFits(deviceId, start, count)
    requires forall v | v in table :: |v.functionCodes| > 0
    requires |InWindow(table, start, count)| > 0 && InWindow(table, start, count)[0].functionCodes[0] == code
    requires forall v | v in table && start <= v.address < start + count :: code in v.functionCodes
    ensures var head := [deviceId, code.Code(), start / 0x100, start % 0x100, count / 0x100, count % 0x100];
      ReadCommand(table, deviceId, start, count) == Ok(head + Checksum(head))
  {
    var items := InWindow(table, start, count);
    assert forall v | v in items :: code in v.functionCodes;
  }

  // ------------------------------------------------------------ completeness

  /** `is_complete(buffer)`: a read answer is whole once it holds its byte count
      plus five bytes, any other frame once it holds eight bytes; fewer than four
      bytes are never whole. An unknown code raises. */
  function IsComplete(buf: seq<byte>): (r: Result<bool, Error>)
    ensures |buf| < 4 ==> r == Ok(false)
    ensures r.Err? <==> |buf| >= 4 && FunctionCodeOf(buf[1]).None?
    ensures r.Err? ==> r.error == UnknownFunctionCode
    ensures |buf| >= 4 && FunctionCodeOf(buf[1]).Some? && FunctionCodeOf(buf[1]).value.IsRead() ==>
      r == Ok(|buf| >= buf[2] as int + 5)
    ensures |buf| >= 4 && FunctionCodeOf(buf[1]).Some? && !FunctionCodeOf(buf[1]).value.IsRead() ==>
      r == Ok(|buf| >= 8)
  {
    if |buf| < 4 then Ok(false)
    else match FunctionCodeOf(buf[1])
      case None => Err(UnknownFunctionCode)
      case Some(code) => Ok(if code.IsRead() then |buf| >= buf[2] as int + 5 else |buf| >= 8)
  }

  /** Receiving more bytes never makes a whole frame incomplete again. */
  lemma IsCompleteGrows(buf: seq<byte>, more: seq<byte>)
    requires IsComplete(buf) == Ok(true)
    ensures IsComplete(buf + more) == Ok(true)
  {
    assert (buf + more)[1] == buf[1] && (buf + more)[2] == buf[2];
  }

  /** Along a growing read answer, the first complete prefix is the one of length
      byte count plus five: shorter prefixes (of four bytes or more) are incomplete. */
  lemma IsCompleteFirstAt(buf: seq<byte>, k: nat)
    requires 4 <= k <= |buf| && FunctionCodeOf(buf[1]).Some? && FunctionCodeOf(buf[1]).value.IsRead()
    ensures IsComplete(buf[..k]) == Ok(k >= buf[2] as int + 5)
  {
    assert buf[..k][1] == buf[1] && buf[..k][2] == buf[2];
  }

  // ------------------------------------------------------------------- parse

  /** The registry entries at `address` that accept `code`, in registry order. */
  function Matching(table: seq<Variable>, code: FunctionCode, address: int): (r: seq<Variable>)
    ensures forall v :: v in r <==> v in table && v.address == address && code in v.functionCodes
  {
    if |table| == 0 then []
    else
      (if table[0].address == address && code in table[0].functionCodes then [table[0]] else [])
      + Matching(table[1..], code, address)
  }

  /** Selecting from two parts of a registry selects from each, in order. */
  lemma {:induction false} MatchingAppend(a: seq<Variable>, b: seq<Variable>, code: FunctionCode, address: int)
    ensures Matching(a + b, code, address) == Matching(a, code, address) + Matching(b, code, address)
  {
    if |a| == 0 {
      assert a + b == b;
    } else {
      assert (a + b)[1..] == a[1..] + b;
      MatchingAppend(a[1..], b, code, address);
    }
  }

  /** The readings of one payload word at `cursor`: one per entry of `items`, in
      order; the first decoding error aborts. */
  function ReadWord(items: seq<Variable>, buf: seq<byte>, cursor: nat): (r: Result<seq<Reading>, Error>)
    ensures r.Ok? <==> forall k | 0 <= k < |items| :: BytesToValue(items[k], buf, cursor).Ok?
    ensures r.Err? ==> r.error in {Truncated, UnexpectedValue}
    ensures r.Ok? ==> |r.value| == |items|
    ensures r.Ok? ==> forall k | 0 <= k < |items| ::
      r.value[k] == Reading(items[k], BytesToValue(items[k], buf, cursor).value)
  {
    if |items| == 0 then Ok([])
    else match BytesToValue(items[0], buf, cursor)
      case Err(e) => Err(e)
      case Ok(x) =>
        match ReadWord(items[1..], buf, cursor)
        case Err(e) => Err(e)
        case Ok(rest) =>
          assert forall k | 1 <= k < |items| :: items[k] == items[1..][k - 1];
          Ok([Reading(items[0], x)] + rest)
  }

  /** The `while` loop of `parse`: word by word from `cursor` up to `end`, the
      address going up by one per word, the readings of each word in turn. */
  function Walk(table: seq<Variable>, code: FunctionCode, buf: seq<byte>, address: int, cursor: nat, end: nat): (r: Result<seq<Reading>, Error>)
    ensures r.Err? ==> r.error in {Truncated, UnexpectedValue}
    decreases end - cursor
  {
    if cursor >= end then Ok([])
    else match ReadWord(Matching(table, code, address), buf, cursor)
      case Err(e) => Err(e)
      case Ok(here) =>
        match Walk(table, code, buf, address + 1, cursor + 2, end)
        case Err(e) => Err(e)
        case Ok(rest) => Ok(here + rest)
  }

  /** The number of payload words the loop visits between `cursor` and `end`. */
  function Words(cursor: nat, end: nat): nat
  {
    if cursor >= end then 0 else (end - cursor + 1) / 2
  }

  /** Each visited word leaves one word fewer to visit. */
  lemma WordsStep(cursor: nat, end: nat)
    requires cursor < end
    ensures Words(cursor, end) >= 1 && Words(cursor + 2, end) == Words(cursor, end) - 1
  {
  }

  /** Every reading is of an entry accepting the code, at the address of a visited
      word, and holds the value decoded at that word. */
  predicate WalkSound(table: seq<Variable>, code: FunctionCode, buf: seq<byte>, address: int, cursor: nat, words: nat, rs: seq<Reading>)
  {
    forall k | 0 <= k < |rs| ::
      && rs[k].variable in table && code in rs[k].variable.functionCodes
      && address <= rs[k].variable.address < address + words
      && Ok(rs[k].value) == BytesToValue(rs[k].variable, buf, cursor + 2 * (rs[k].variable.address - address))
  }

  /** Every entry accepting the code at the address of a visited word has a reading. */
  predicate WalkComplete(table: seq<Variable>, code: FunctionCode, address: int, words: nat, rs: seq<Reading>)
  {
    forall v | v in table && code in v.functionCodes && address <= v.address < address + words ::
      exists k | 0 <= k < |rs| :: rs[k].variable == v
  }

  /** The readings' addresses never go down. */
  predicate Ordered(rs: seq<Reading>)
  {
    forall i, j | 0 <= i < j < |rs| :: rs[i].variable.address <= rs[j].variable.address
  }

  /** The variables of a run of readings, in order. */
  function VariablesOf(rs: seq<Reading>): (r: seq<Variable>)
    ensures |r| == |rs| && forall k | 0 <= k < |rs| :: r[k] == rs[k].variable
  {
    seq(|rs|, k requires 0 <= k < |rs| => rs[k].variable)
  }

  /** The entries the loop reads over `words` words from `address`: for each word
      in turn, every entry at its address accepting the code, in registry order. */
  function WalkVariables(table: seq<Variable>, code: FunctionCode, address: int, words: nat): seq<Variable>
    decreases words
  {
    if words == 0 then [] else Matching(table, code, address) + WalkVariables(table, code, address + 1, words - 1)
  }

  /** What the loop yields from `cursor` to `end`, when it yields. */
  predicate WalkResult(table: seq<Variable>, code: FunctionCode, buf: seq<byte>, address: int, cursor: nat, words: nat, rs: seq<Reading>)
  {
    && WalkSound(table, code, buf, address, cursor, words, rs)
    && WalkComplete(table, code, address, words, rs)
    && Ordered(rs)
    && VariablesOf(rs) == WalkVariables(table, code, address, words)
  }

  lemma WalkSpec(table: seq<Variable>, code: FunctionCode, buf: seq<byte>, address: int, cursor: nat, end: nat)
    ensures var r := Walk(table, code, buf, address, cursor, end);
      r.Ok? ==> WalkResult(table, code, buf, address, cursor, Words(cursor, end), r.value)
  {
    var r := Walk(table, code, buf, address, cursor, end);
    if r.Ok? {
      WalkSoundSpec(table, code, buf, address, cursor, end, r.value);
      WalkVariablesSpec(table, code, buf, address, cursor, end, r.value);
    }
    WalkCompleteSpec(table, code, buf, address, cursor, end);
    WalkOrderedSpec(table, code, buf, address, cursor, end);
  }

  lemma {:induction false} WalkSoundSpec(table: seq<Variable>, code: FunctionCode, buf: seq<byte>, address: int, cursor: nat, end: nat,
                                         rs: seq<Reading>)
    requires Walk(table, code, buf, address, cursor, end) == Ok(rs)
    ensures WalkSound(table, code, buf, address, cursor, Words(cursor, end), rs)
    decreases end - cursor
  {
    if cursor < end {
      var here, rest := WalkUnfold(table, code, buf, address, cursor, end, rs);
      WalkSoundSpec(table, code, buf, address + 1, cursor + 2, end, rest);
      WordsStep(cursor, end);
      SoundStep(table, code, buf, address, cursor, Words(cursor, end), here, rest, rs);
    }
  }

  /** The readings of a successful walk are exactly one per entry the loop visits,
      word by word and in registry order within a word. */
  lemma {:induction false} WalkVariablesSpec(table: seq<Variable>, code: FunctionCode, buf: seq<byte>, address: int, cursor: nat, end: nat,
                                             rs: seq<Reading>)
    requires Walk(table, code, buf, address, cursor, end) == Ok(rs)
    ensures VariablesOf(rs) == WalkVariables(table, code, address, Words(cursor, end))
    decreases end - cursor
  {
    if cursor < end {
      var here, rest := WalkUnfold(table, code, buf, address, cursor, end, rs);
      WalkVariablesSpec(table, code, buf, address + 1, cursor + 2, end, rest);
      WordsStep(cursor, end);
      VariablesStep(table, code, buf, address, cursor, Words(cursor, end), here, rest);
    }
  }

  /** One word of the loop puts its entries ahead of those of the later words. */
  lemma VariablesStep(table: seq<Variable>, code: FunctionCode, buf: seq<byte>, address: int, cursor: nat, words: nat,
                      here: seq<Reading>, rest: seq<Reading>)
    requires words >= 1
    requires ReadWord(Matching(table, code, address), buf, cursor) == Ok(here)
    requires VariablesOf(rest) == WalkVariables(table, code, address + 1, words - 1)
    ensures VariablesOf(here + rest) == WalkVariables(table, code, address, words)
  {
    var items := Matching(table, code, address);
    assert VariablesOf(here) == items;
    VariablesOfAppend(here, rest);
    assert WalkVariables(table, code, address, words) == items + WalkVariables(table, code, address + 1, words - 1);
  }

  lemma VariablesOfAppend(a: seq<Reading>, b: seq<Reading>)
    ensures VariablesOf(a + b) == VariablesOf(a) + VariablesOf(b)
  {
    assert forall k | 0 <= k < |a| + |b| :: (a + b)[k] == if k < |a| then a[k] else b[k - |a|];
  }

  /** A successful walk over at least one word is the first word's readings
      followed by the walk over the rest. */
  lemma WalkUnfold(table: seq<Variable>, code: FunctionCode, buf: seq<byte>, address: int, cursor: nat, end: nat,
                   rs: seq<Reading>) returns (here: seq<Reading>, rest: seq<Reading>)
    requires cursor < end && Walk(table, code, buf, address, cursor, end) == Ok(rs)
    ensures ReadWord(Matching(table, code, address), buf, cursor) == Ok(here)
    ensures Walk(table, code, buf, address + 1, cursor + 2, end) == Ok(rest)
    ensures rs == here + rest
  {
    here := ReadWord(Matching(table, code, address), buf, cursor).value;
    rest := Walk(table, code, buf, address + 1, cursor + 2, end).value;
  }

  /** One word of the loop keeps its readings sound. */
  lemma SoundStep(table: seq<Variable>, code: FunctionCode, buf: seq<byte>, address: int, cursor: nat, words: nat,
                  here: seq<Reading>, rest: seq<Reading>, rs: seq<Reading>)
    requires words >= 1 && rs == here + rest
    requires ReadWord(Matching(table, code, address), buf, cursor) == Ok(here)
    requires WalkSound(table, code, buf, address + 1, cursor + 2, words - 1, rest)
    ensures WalkSound(table, code, buf, address, cursor, words, rs)
  {
    WordReadings(table, code, buf, address, cursor, here);
    SoundCombine(table, code, buf, address, cursor, words, here, rest);
  }

  lemma {:induction false} WalkCompleteSpec(table: seq<Variable>, code: FunctionCode, buf: seq<byte>, address: int, cursor: nat, end: nat)
    ensures var r := Walk(table, code, buf, address, cursor, end);
      r.Ok? ==> WalkComplete(table, code, address, Words(cursor, end), r.value)
    decreases end - cursor
  {
    var r := Walk(table, code, buf, address, cursor, end);
    if cursor < end && r.Ok? {
      var here := ReadWord(Matching(table, code, address), buf, cursor).value;
      var rest := Walk(table, code, buf, address + 1, cursor + 2, end).value;
      WalkCompleteSpec(table, code, buf, address + 1, cursor + 2, end);
      assert r.value == here + rest;
      assert Words(cursor + 2, end) == Words(cursor, end) - 1;
      WordReadings(table, code, buf, address, cursor, here);
      CompleteCombine(table, code, address, Words(cursor, end), here, rest);
    }
  }

  lemma {:induction false} WalkOrderedSpec(table: seq<Variable>, code: FunctionCode, buf: seq<byte>, address: int, cursor: nat, end: nat)
    ensures var r := Walk(table, code, buf, address, cursor, end);
      r.Ok? ==> Ordered(r.value)
    decreases end - cursor
  {
    var r := Walk(table, code, buf, address, cursor, end);
    if cursor < end && r.Ok? {
      var here := ReadWord(Matching(table, code, address), buf, cursor).value;
      var rest := Walk(table, code, buf, address + 1, cursor + 2, end).value;
      WalkOrderedSpec(table, code, buf, address + 1, cursor + 2, end);
      WalkSoundSpec(table, code, buf, address + 1, cursor + 2, end, rest);
      assert r.value == here + rest;
      WordReadings(table, code, buf, address, cursor, here);
      assert forall k | 0 <= k < |rest| :: address < rest[k].variable.address;
      OrderedCombine(address, here, rest);
    }
  }

  /** The readings of one word: entries accepting the code at that word's address,
      each decoded there, all such entries present. */
  lemma WordReadings(table: seq<Variable>, code: FunctionCode, buf: seq<byte>, address: int, cursor: nat, here: seq<Reading>)
    requires ReadWord(Matching(table, code, address), buf, cursor) == Ok(here)
    ensures forall k | 0 <= k < |here| ::
      && here[k].variable in table && code in here[k].variable.functionCodes && here[k].variable.address == address
      && Ok(here[k].value) == BytesToValue(here[k].variable, buf, cursor)
    ensures forall v | v in table && code in v.functionCodes && v.address == address ::
      exists k | 0 <= k < |here| :: here[k].variable == v
  {
    var items := Matching(table, code, address);
    forall k | 0 <= k < |here|
      ensures && here[k].variable in table && code in here[k].variable.functionCodes && here[k].variable.address == address
              && Ok(here[k].value) == BytesToValue(here[k].variable, buf, cursor)
    {
      assert here[k].variable == items[k] && items[k] in items;
    }
    forall v | v in table && code in v.functionCodes && v.address == address
      ensures exists k | 0 <= k < |here| :: here[k].variable == v
    {
      assert v in items;
      var i :| 0 <= i < |items| && items[i] == v;
      assert here[i].variable == v;
    }
  }

  lemma SoundCombine(table: seq<Variable>, code: FunctionCode, buf: seq<byte>, address: int, cursor: nat, words: nat,
                     here: seq<Reading>, rest: seq<Reading>)
    requires words >= 1
    requires forall k | 0 <= k < |here| ::
      && here[k].variable in table && code in here[k].variable.functionCodes && here[k].variable.address == address
      && Ok(here[k].value) == BytesToValue(here[k].variable, buf, cursor)
    requires WalkSound(table, code, buf, address + 1, cursor + 2, words - 1, rest)
    ensures WalkSound(table, code, buf, address, cursor, words, here + rest)
  {
    var rs := here + rest;
    forall k | 0 <= k < |rs|
      ensures && rs[k].variable in table && code in rs[k].variable.functionCodes
              && address <= rs[k].variable.address < address + words
              && Ok(rs[k].value) == BytesToValue(rs[k].variable, buf, cursor + 2 * (rs[k].variable.address - address))
    {
      if k < |here| {
        assert rs[k] == here[k];
      } else {
        var x := rest[k - |here|];
        assert rs[k] == x;
        assert cursor + 2 + 2 * (x.variable.address - (address + 1)) == cursor + 2 * (x.variable.address - address);
      }
    }
  }

  lemma CompleteCombine(table: seq<Variable>, code: FunctionCode, address: int, words: nat,
                        here: seq<Reading>, rest: seq<Reading>)
    requires words >= 1
    requires forall v | v in table && code in v.functionCodes && v.address == address ::
      exists k | 0 <= k < |here| :: here[k].variable == v
    requires WalkComplete(table, code, address + 1, words - 1, rest)
    ensures WalkComplete(table, code, address, words, here + rest)
  {
    var rs := here + rest;
    forall v | v in table && code in v.functionCodes && address <= v.address < address + words
      ensures exists k | 0 <= k < |rs| :: rs[k].variable == v
    {
      if v.address == address {
        var i :| 0 <= i < |here| && here[i].variable == v;
        assert rs[i].variable == v;
      } else {
        var j :| 0 <= j < |rest| && rest[j].variable == v;
        assert rs[|here| + j].variable == v;
      }
    }
  }

  lemma OrderedCombine(address: int, here: seq<Reading>, rest: seq<Reading>)
    requires forall k | 0 <= k < |here| :: here[k].variable.address == address
    requires forall k | 0 <= k < |rest| :: address < rest[k].variable.address
    requires Ordered(rest)
    ensures Ordered(here + rest)
  {
    var rs := here + rest;
    forall i, j | 0 <= i < j < |rs|
      ensures rs[i].variable.address <= rs[j].variable.address
    {
      if j < |here| {
        assert rs[i] == here[i] && rs[j] == here[j];
      } else if i < |here| {
        assert rs[i] == here[i] && rs[j] == rest[j - |here|];
      } else {
        assert rs[i] == rest[i - |here|] && rs[j] == rest[j - |here|];
      }
    }
  }

  /** `parse(start_address, buffer)` apart from the device field it sets: a read
      answer is checked against the checksum of its first `3 + byte count` bytes,
      then walked word by word from offset 3; a write acknowledgement must echo
      `start` and carry the checksum of its first six bytes, and yields nothing.
      Indexing past the end raises. */
  function ParseFrame(table: seq<Variable>, start: int, buf: seq<byte>): (r: Result<seq<Reading>, Error>)
    ensures r.Err? ==> r.error in {Truncated, UnknownFunctionCode, CrcMismatch, AddressMismatch, UnexpectedValue}
    ensures r.Ok? ==> |buf| >= 4 && FunctionCodeOf(buf[1]).Some?
    ensures r.Ok? && FunctionCodeOf(buf[1]).value.IsRead() ==> |buf| >= buf[2] as int + 5
    ensures r.Ok? && !FunctionCodeOf(buf[1]).value.IsRead() ==> |buf| >= 8
    ensures r.Ok? && !FunctionCodeOf(buf[1]).value.IsRead() ==> r.value == [] && U16At(buf, 2) == start
  {
    if |buf| < 2 then Err(Truncated)
    else match FunctionCodeOf(buf[1])
      case None => Err(UnknownFunctionCode)
      case Some(code) =>
        if code.IsRead() then
          if |buf| < 3 then Err(Truncated)
          else
            var length := buf[2] as int;
            if Slice(buf, 3 + length, 3 + length + 2) != Checksum(Slice(buf, 0, 3 + length)) then Err(CrcMismatch)
            else Walk(table, code, buf, start, 3, length + 3)
        else if |buf| < 4 then Err(Truncated)
        else if U16At(buf, 2) != start then Err(AddressMismatch)
        else if Slice(buf, 6, 8) != Checksum(Slice(buf, 0, 6)) then Err(CrcMismatch)
        else Ok([])
  }

  /** A read answer that parses carries a valid checksum right after its payload
      and is complete, and its readings are exactly one per entry accepting the
      code at each payload word's address, word by word and in registry order
      within a word, each decoded from the word at `3 + 2 * (address - start)`. */
  lemma ParseRead(table: seq<Variable>, start: int, buf: seq<byte>)
    requires |buf| >= 3 && FunctionCodeOf(buf[1]).Some? && FunctionCodeOf(buf[1]).value.IsRead()
    requires ParseFrame(table, start, buf).Ok?
    ensures |buf| >= buf[2] as int + 5 && CrcValid(buf[..buf[2] as int + 5])
    ensures IsComplete(buf) == Ok(true)
    ensures WalkResult(table, FunctionCodeOf(buf[1]).value, buf, start, 3, Words(3, buf[2] as int + 3), ParseFrame(table, start, buf).value)
  {
    var length := buf[2] as int;
    assert |Slice(buf, 3 + length, 3 + length + 2)| == 2;
    var f := buf[..length + 5];
    assert f[..length + 3] == buf[..length + 3] == Slice(buf, 0, 3 + length);
    assert f[length + 3..] == buf[length + 3..length + 5] == Slice(buf, 3 + length, 3 + length + 2);
    WalkSpec(table, FunctionCodeOf(buf[1]).value, buf, start, 3, length + 3);
  }

  /** A read answer whose checksum does not match raises before any word is read. */
  lemma ParseReadCrc(table: seq<Variable>, start: int, buf: seq<byte>)
    requires |buf| >= 3 && FunctionCodeOf(buf[1]).Some? && FunctionCodeOf(buf[1]).value.IsRead()
    requires !(|buf| >= buf[2] as int + 5 && CrcValid(buf[..buf[2] as int + 5]))
    ensures ParseFrame(table, start, buf) == Err(CrcMismatch)
  {
    AnswerCrc(buf);
  }

  /** The checksum test of `parse` on a read answer: the two bytes after the
      payload match the checksum of the bytes before them exactly when the answer
      holds them and its first `byte count + 5` bytes are a valid frame. */
  lemma AnswerCrc(buf: seq<byte>)
    requires |buf| >= 3
    ensures var length := buf[2] as int;
      (Slice(buf, 3 + length, 3 + length + 2) == Checksum(Slice(buf, 0, 3 + length)))
      <==> (|buf| >= length + 5 && CrcValid(buf[..length + 5]))
  {
    var length := buf[2] as int;
    if |buf| >= length + 5 {
      var f := buf[..length + 5];
      assert |f| - 2 == length + 3;
      assert f[..length + 3] == Slice(buf, 0, 3 + length);
      assert f[length + 3..] == Slice(buf, 3 + length, 3 + length + 2);
      assert CrcValid(f) <==> f[length + 3..] == Checksum(f[..length + 3]);
    } else {
      assert |Slice(buf, 3 + length, 3 + length + 2)| < 2 == |Checksum(Slice(buf, 0, 3 + length))|;
    }
  }

  /** A write acknowledgement parses, to no readings, exactly when it echoes the
      start address and its first eight bytes end in a valid checksum; then it is
      complete. */
  lemma ParseAck(table: seq<Variable>, start: int, buf: seq<byte>)
    requires |buf| >= 4 && FunctionCodeOf(buf[1]).Some? && !FunctionCodeOf(buf[1]).value.IsRead()
    ensures ParseFrame(table, start, buf).Ok? <==> U16At(buf, 2) == start && |buf| >= 8 && CrcValid(buf[..8])
    ensures ParseFrame(table, start, buf).Ok? ==> ParseFrame(table, start, buf).value == [] && IsComplete(buf) == Ok(true)
  {
    if |buf| >= 8 {
      var f := buf[..8];
      assert f[..6] == Slice(buf, 0, 6);
      assert f[6..] == Slice(buf, 6, 8);
    } else {
      assert |Slice(buf, 6, 8)| < 2;
    }
  }

  /** A read answer of one word whose address holds exactly one entry accepting
      the code parses to that entry's reading. */
  lemma ParseOneWord(table: seq<Variable>, start: int, buf: seq<byte>, v: Variable, x: Value)
    requires |buf| == 7 && buf[2] == 2 && FunctionCodeOf(buf[1]).Some? && FunctionCodeOf(buf[1]).value.IsRead()
    requires buf[5..] == Checksum(buf[..5])
    requires Matching(table, FunctionCodeOf(buf[1]).value, start) == [v] && BytesToValue(v, buf, 3) == Ok(x)
    ensures ParseFrame(table, start, buf) == Ok([Reading(v, x)])
  {
    var code := FunctionCodeOf(buf[1]).value;
    assert Slice(buf, 0, 5) == buf[..5] && Slice(buf, 5, 7) == buf[5..];
    assert ParseFrame(table, start, buf) == Walk(table, code, buf, start, 3, 5);
    WalkOneWord(table, code, buf, start, v, x);
  }

  lemma WalkOneWord(table: seq<Variable>, code: FunctionCode, buf: seq<byte>, start: int, v: Variable, x: Value)
    requires Matching(table, code, start) == [v] && BytesToValue(v, buf, 3) == Ok(x)
    ensures Walk(table, code, buf, start, 3, 5) == Ok([Reading(v, x)])
  {
    assert [v][1..] == [];
    assert ReadWord([v], buf, 3) == Ok([Reading(v, x)] + []);
    assert Walk(table, code, buf, start + 1, 5, 5) == Ok([]);
    assert [Reading(v, x)] + [] == [Reading(v, x)];
  }

  /** The reference acknowledgement of a ten-register write at 0x9021 parses to no
      readings. */
  lemma ParseAckVector(table: seq<Variable>, buf: seq<byte>)
    requires buf == [0x01, 0x10, 0x90, 0x21, 0x00, 0x0A, 0x3D, 0x04]
    ensures ParseFrame(table, 0x9021, buf) == Ok([])
  {
    AckVectorFields(buf);
    ParseAck(table, 0x9021, buf);
  }

  /** The reference acknowledgement carries code 0x10, echoes 0x9021 and ends in
      the checksum of its first six bytes. */
  lemma AckVectorFields(buf: seq<byte>)
    requires buf == [0x01, 0x10, 0x90, 0x21, 0x00, 0x0A, 0x3D, 0x04]
    ensures |buf| >= 8 && FunctionCodeOf(buf[1]) == Some(WriteMemoryRange) && U16At(buf, 2) == 0x9021
    ensures CrcValid(buf[..8])
  {
    Vector5();
    assert buf[..8][..6] == [0x01, 0x10, 0x90, 0x21, 0x00, 0x0A] && buf[..8][6..] == [0x3D, 0x04];
  }
}
