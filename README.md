# Lumiax protocol engine in Dafny

A model of the protocol engine of the Solarlife/Lumiax solar charge-controller
client. The client talks a Modbus-RTU-style register protocol. The model covers:

- **CRC-16/MODBUS** (`Crc`). The bit-serial checksum of section 6.2.2 of the
  Modbus over Serial Line Specification V1.02: register 0xFFFF, reflected
  polynomial 0xA001, low byte first. The loop is an imperative method proved
  equal to a fold, and five reference frames are checked byte by byte.
- **The variable registry** (`Variables`, `Registry`).
  - The function codes and the `Variable` record.
  - The decoders, as a tagged datatype: bit flags, partial label lookups,
    password digits and timing periods.
  - The two group helpers and the full constant table.
  - Lemmas state what the test suite asserts of the table, and where the
    groups place their entries.
- **The value codec** (`Codec`).
  - `bytes_to_value` and `value_to_bytes`: big-endian 16- and 32-bit words,
    signed and unsigned, scaled or decoded.
  - The brute-force inverse of a decoder.
- **The frames** (`Frames`, `Writes`, `WriteCommands`).
  - The read request and `is_complete`.
  - `parse`: a read answer walked word by word, or a write acknowledgement.
  - The write request: sort, continuity check, code choice, header, payload
    and checksum.
- **The client object** (`Protocol.LumiaxClient`). It has the `device_id`
  field that `parse` sets. Its methods follow the Python's loops (the in-place
  sort, the continuity loop, the payload fill, the parse loop and the
  brute-force search). Each is proved equal to the functions above.

Python values (`str | int | float | bool`) are the datatype `Values.Value`.
Floats are exact reals: the multipliers 0.1 and 1/30 are exact, and
`round()` is round-half-to-even on reals. Python's `==` between a bool and an
int is modelled by `Values.PyEq`. Every exception the source raises is an
`Err` of `Errors.Error`. This covers empty ranges, mixed codes, missing
values, gaps, oversized ranges, unsupported codes, values no raw word decodes
to, `struct` range and buffer errors, `IndexError` in a decoder, unknown
function codes, checksum and address mismatches, and reads past the end of a
buffer.

The password and timing decoders use `max` where `min` looks intended. They
are modelled as written: `str(max(nibble, 9))` and `hi * 60 + max(lo, 59)`.

## Model

| member | source | states |
|---|---|---|
| Crc.Crc16 | src/crc.py:1-11 | the nested byte/bit loop returns exactly `Checksum(data)`: the register folded from 0xFFFF over the bytes, as two bytes |
| Crc.UpdateByte | src/crc.py:4-10 | the XOR and eight shift/conditional-0xA001 steps give `ByteStep(crc, b)` |
| Crc.ByteStepUnrolled | src/crc.py:4-10 | one byte step is the XOR followed by eight shift-right steps, each XORing 0xA001 when the low bit was set |
| Crc.Checksum | src/crc.py:11 | the output is exactly two bytes, low byte first: `r[0] + 256 * r[1]` is the final register |
| Crc.EmptyChecksum | src/crc.py:2-11 | the checksum of no bytes is `FF FF` |
| Crc.FoldSnoc | src/crc.py:3-10 | fold law: folding `data + [b]` from any register is one byte step after folding `data` |
| Crc.RegisterSnoc | src/crc.py:3-10 | fold law from 0xFFFF: the register of `data + [b]` is `ByteStep(Register(data), b)` |
| Crc.ChecksumOfRegister | src/crc.py:11 | a register value is emitted as `[reg % 256, reg / 256]` |
| Crc.Vector1 | tests/transaction_test.py:21 | `01 04 30 11 00 1C` has checksum `AE C6` |
| Crc.Vector2 | tests/transaction_test.py:66 | `01 04 30 00 00 01` has checksum `3E CA` |
| Crc.Vector3 | tests/transaction_test.py:89 | `01 03 8F F0 00 1D` has checksum `AF 24` |
| Crc.Vector4 | tests/transaction_test.py:69 | the answer `01 04 02 17 70` has checksum `B7 24` |
| Crc.Vector5 | tests/transaction_test.py:138 | the acknowledgement `01 10 90 21 00 0A` has checksum `3D 04` |
| Values.RoundHalfEven | src/protocol.py:41 | `round()`: the result is within one half of the real, and an exact half goes to the even neighbour |
| Values.Trunc | src/protocol.py:47 | `int()` of a real truncates toward zero: the largest integer not above a non-negative real, the smallest not below a negative one |
| Values.AsReal | src/protocol.py:41 | `float(value)` is defined for ints, bools and reals, and undefined exactly for strings |
| Values.NatToStringValue | src/variables.py:268-271 | `str(n)` of a natural reads back as `n` |
| Variables.FunctionCodeOf | src/variables.py:6-14 | `FunctionCodes(b)` gives the code whose value is `b`, and fails only when no code has that value |
| Variables.PyIndex | src/variables.py:138 | Python list indexing: defined exactly for `-len <= i < len`, so negative indices count from the end |
| Variables.Apply | src/variables.py:29-134 | a flag decoder is total and boolean; a label lookup is defined exactly when its index (whole word or bit field) is in range and yields one of the labels; passwords are 4 to 8 characters; a timing period is at least 59 |
| Registry.Named | tests/compatibility_test.py:68 | `[v for v in variables if v.name == n]` keeps exactly the entries named `n` |
| Registry.FunctionalStatusLayout | src/variables.py:29-95 | the functional status group has 4 entries at `offset`, 16 at `offset + 1` and 8 at `offset + 2`; each uses the supplied codes and is a 16-bit decoded word within its word |
| Registry.StatusLayout | src/variables.py:97-134 | the status group has 2 entries at `offset`, 6 at `offset + 1` and 7 at `offset + 2`, all read with 0x04; the two `solar_panel_charge_state` entries share an address and are kept as distinct entries |
| Registry.TableWellFormed | src/variables.py:136-357 | every entry has a code and a 16-bit address range; no scaled entry and no 32-bit entry has a decoder; decoders stay within their word |
| Registry.TableNoneRetired | tests/compatibility_test.py:38-48 | no entry carries one of the six retired names |
| Registry.TableCommonLengths | tests/variable_test.py:19-23 | consecutive entries sharing an address agree on `is_32_bit`, across the whole table |
| Registry.RatedNamesPresent | tests/compatibility_test.py:10-37 | `equipment_id` and `run_days` are present |
| Registry.ChargeNamesPresent | tests/compatibility_test.py:10-37 | `solar_panel_is_charging`, `solar_panel_is_night` and `solar_panel_charge_state` are present |
| Registry.LoadNamesPresent | tests/compatibility_test.py:10-37 | `load_is_enabled` and `load_state` are present |
| Registry.CounterNamesPresent | tests/compatibility_test.py:10-37 | `battery_empty_times` and `battery_full_times` are present |
| Registry.UnitsOfFirstEntries | tests/compatibility_test.py:50-70 | each of the fourteen listed names is present, and its first entry carries the listed unit |
| Registry.FirstUnit | tests/compatibility_test.py:67-70 | the first entry named after a listed unit's name is the matching real-time reading |
| Registry.MaximumVoltageLevelPartial | src/variables.py:32-33 | `maximum_system_voltage_level` fails exactly when the top nibble is 5 or more (0x4000 is "48V", 0x5000 raises) |
| Registry.RatedVoltageLevelPartial | src/variables.py:280-281 | `system_rated_voltage_level` fails exactly for words of 10 or more (9 is "240V") |
| Registry.LoadModePartial | src/variables.py:286-289 | `mt_series_load_mode` has exactly 13 labels, the generated "Night light on time k hours" among them; 13 raises |
| Registry.PasswordUsesMax | src/variables.py:267-271 | `device_password` uses the password decoder, whose digits are `str(max(nibble, 9))`: every word whose four nibbles are all at most 9 shows "9999" |
| Registry.PasswordOfABCD | src/variables.py:267-271 | a nibble above 9 shows as its own decimal value: 0xABCD shows "10111213" |
| Registry.TimingPeriodUsesMax | src/variables.py:292-295 | a timing period is `hi * 60 + max(lo, 59)`, hence always at least 59 minutes past its hour |
| Registry.TopValueAgrees | src/protocol.py:195-201 | a decoder within its word decodes 0x10000 like 0 or fails on it, so the inclusive search bound is never the first hit |
| Codec.ReadRaw | src/protocol.py:18-26 | reading succeeds exactly when the 2 or 4 bytes fit the buffer; the raw value is in the layout's range, its low word is the word at `offset` and, for 32 bits, its high word is the word at `offset + 2` |
| Codec.Decode | src/protocol.py:28-36 | scaled entries give `raw / multiplier`; a decoder's result is passed through, and `IndexError` becomes an error; plain entries give the raw integer |
| Codec.BytesToValue | src/protocol.py:18-37 | a read fails for truncation exactly when the variable does not fit the buffer, and otherwise only on a decoder error |
| Codec.SearchUp | src/protocol.py:196-201 | a value found going up lies in `lo .. hi` and passes the test |
| Codec.SearchDown | src/protocol.py:189-194 | a value found going down lies in `lo .. hi` and passes the test |
| Codec.BruteForce | src/protocol.py:180-202 | whatever raw value the search yields passes the test, and lies in `0 .. 2^n` for unsigned variables and in `-2^(n-1) - 1 .. 2^(n-1)` for signed ones |
| Codec.SearchUpSpec | src/protocol.py:196-201 | for any test, the upward search yields the least passing value in the range, and nothing only when nothing in the range passes |
| Codec.SearchDownSpec | src/protocol.py:189-194 | for any test, the downward search yields the passing value nearest the top, and nothing only when nothing in the range passes |
| Codec.BruteForceUnsigned | src/protocol.py:195-202 | unsigned: the least raw value in `0 .. 2^n` inclusive that passes the test (`variable.func(i) == value`), and `None` only when none does |
| Codec.BruteForceSignedAbove | src/protocol.py:182-188 | signed, non-negative result: the least hit in `0 .. 2^(n-1)` inclusive |
| Codec.BruteForceSignedBelow | src/protocol.py:189-194 | signed, negative result: nothing in `0 .. 2^(n-1)` hits and it is the hit nearest 0 down to `-2^(n-1) - 1`; `None` only when nothing in the whole range hits |
| Codec.BruteForceStaysInWord | src/protocol.py:195-202 | for an unsigned 16-bit variable whose decoder stays within its word, a hit is always below 0x10000 |
| Codec.Scaled | src/protocol.py:41 | `round(float(value) * multiplier)` is within one half of the exact product |
| Codec.RawValue | src/protocol.py:40-47 | the raw value: for scaled entries the rounded product; for decoded entries it exists exactly when the search finds a hit, and is a hit; for plain ints the int itself; a string where a number is needed is an error |
| Codec.PackWord | src/protocol.py:50-58 | `struct.pack_into` of one word fails exactly on a short buffer or an out-of-range word, distinguishing the two, and otherwise writes the word big-endian and changes no other byte |
| Codec.Store | src/protocol.py:49-61 | packing succeeds exactly when the bytes fit and the raw value is in range; it returns `offset + 2` or `offset + 4` and changes no byte outside them |
| Codec.Encode | src/protocol.py:39-61 | `value_to_bytes` keeps the buffer length, fails exactly when there is no raw value, it does not fit, or it is out of range, returns the offset past the variable, and leaves every other byte unchanged |
| Codec.StoreThenRead | src/protocol.py:18-26 | packing an in-range raw value and reading it back gives the raw value, for all four layouts |
| Codec.WordsDetermine | src/protocol.py:20-22 | two 32-bit raw values of one signedness with the same low and high words are equal |
| Codec.PlainRoundTrip | src/protocol.py:18-61 | a plain variable's in-range int is written and read back unchanged |
| Codec.ScaledRoundTrip | src/protocol.py:18-61 | a scaled value is written, and reads back within half a step (`0.5 / multiplier`) of itself |
| Codec.ScaledReadBack | src/protocol.py:28-29 | the scaled value reads back as its raw value over the multiplier |
| Codec.ScaledRawError | src/protocol.py:41 | the raw value over the multiplier is within half a step of the number |
| Codec.DecodedRoundTrip | src/protocol.py:30-45 | a decoded value that was written reads back as a value Python calls equal |
| Codec.DecodedWriteFails | src/protocol.py:42-45 | for a well-formed unsigned decoded entry, writing fails exactly when no raw word decodes to the value, and the error is the invalid value |
| Codec.RatedVoltageExample | tests/transaction_test.py:69-78 | word 0x1770 at 0x3000 with multiplier 100 reads as 60.0 |
| Frames.InWindow | src/protocol.py:64 | keeps exactly the entries with `start <= address < start + count` |
| Frames.ReadCommand | src/protocol.py:63-80 | `get_read_command` fails only for an empty window, mixed codes or a header value that is not a byte (the `ValueError` of `bytes([...])`, only after both window checks); a request has header values that fit, is 8 bytes with a valid checksum and carries the device, the start and the count |
| Frames.ReadCommandSpec | src/protocol.py:63-80 | the request fails for an empty window exactly when no entry lies in it; for mixed codes exactly when the window is non-empty and some entry lacks the first code; for a header value that is not a byte exactly when the window is non-empty and uniform and the device, start or count does not fit; a request is 8 bytes with a valid checksum, carries the device, start and count, and uses the first entry's first code, which every entry in the window accepts |
| Frames.EmptyWindowFirst | src/protocol.py:63-66 | with 16-bit registry addresses, a non-positive count or a window wholly below 0 or above 0xFFFF fails with the empty-window error whatever the device id, before any header value is packed |
| Frames.ReadCommandAccepted | src/protocol.py:72-80 | when the header values fit and the window's entries all accept the first code, the request is the six header bytes and their checksum |
| Frames.CodeRoundTrip | src/variables.py:6-14 | a code's byte maps back to the code |
| Frames.IsComplete | src/protocol.py:137-146 | fewer than 4 bytes are never complete; an unknown code is an error exactly when there are at least 4 bytes; a read answer is complete exactly when it holds its byte count plus 5 bytes, any other frame exactly when it holds 8 |
| Frames.IsCompleteFirstAt | src/protocol.py:142-144 | a read answer's prefix of length k is complete exactly when `k >= byte count + 5` |
| Frames.IsCompleteGrows | src/protocol.py:137-146 | a complete buffer stays complete as bytes arrive |
| Frames.Matching | src/protocol.py:162 | keeps exactly the entries at the address that accept the code |
| Frames.MatchingAppend | src/protocol.py:162 | filtering a concatenation filters each part, in order |
| Frames.ReadWord | src/protocol.py:163-165 | a word's readings exist exactly when every matching entry decodes; one reading per entry, in order, each with the value decoded at the cursor |
| Frames.Walk | src/protocol.py:158-169 | the loop fails only on a truncated word or a decoder error |
| Frames.WalkSpec | src/protocol.py:158-169 | the loop's readings are sound (a matching entry decoded at offset `cursor + 2 * (address - start)`), complete (every matching entry of every visited word), in non-decreasing address order, and their entries are exactly the matching entries of each visited word in turn, in registry order |
| Frames.WalkSoundSpec | src/protocol.py:158-169 | every reading is of an entry accepting the code, at a visited address, holding the value decoded at its word |
| Frames.WalkCompleteSpec | src/protocol.py:158-169 | every entry accepting the code at a visited address has a reading |
| Frames.WalkOrderedSpec | src/protocol.py:158-169 | the readings' addresses never go down |
| Frames.WalkVariablesSpec | src/protocol.py:158-167 | the readings' entries are exactly one per matching entry of each visited word, word by word and in registry order within a word |
| Frames.ParseFrame | src/protocol.py:148-178 | `parse` fails only on truncation, an unknown code, a checksum or address mismatch, or a decoder error; an answer that parses holds at least 4 bytes with a known code and its byte count plus 5 bytes (read) or 8 bytes (acknowledgement); an acknowledgement echoes the start address and yields no readings |
| Frames.ParseRead | src/protocol.py:151-169 | a read answer that parses has a valid checksum after its payload, is complete, and its readings are the sound, complete, ordered walk of its words: one per matching entry of each word, in registry order |
| Frames.AnswerCrc | src/protocol.py:152-156 | the checksum test passes exactly when the answer holds its byte count plus 5 bytes and they end in the checksum of the bytes before them |
| Frames.ParseReadCrc | src/protocol.py:151-156 | a read answer whose checksum is missing or wrong is rejected with no readings |
| Frames.ParseAck | src/protocol.py:170-178 | a write acknowledgement parses exactly when it echoes the start address and its first eight bytes end in the checksum of the first six, and it yields no readings |
| Frames.ParseOneWord | src/protocol.py:151-169 | a one-word answer with a valid checksum yields one reading for the single matching entry |
| Frames.ParseAckVector | tests/transaction_test.py:138-141 | `01 10 90 21 00 0A 3D 04` is accepted as the acknowledgement of 0x9021 with no readings |
| TableFrames.TableWindow | src/protocol.py:64 | the registry's window 0x3011 .. 0x302C is the functional status group at 0x3011 followed by the first 24 rated-setting entries |
| TableFrames.TableAt3000 | src/protocol.py:162 | the only registry entry at 0x3000 accepting 0x04 is the solar panel rated voltage |
| TableFrames.TableHasCodes | src/variables.py:136-357 | every registry entry names at least one code, so `function_codes[0]` exists |
| TableFrames.TableWindowReadsMemory | src/protocol.py:68-69 | the window 0x3011 .. 0x302C starts with an entry listing 0x04 first, and every entry in it accepts 0x04 |
| TableFrames.ReadCommandVector | tests/transaction_test.py:21-22 | against the registry, registers 0x3011 .. 0x302C of device 1 give `01 04 30 11 00 1C AE C6` |
| TableFrames.ParseRatedVoltage | tests/transaction_test.py:69-78 | against the registry, `01 04 02 17 70 B7 24` from 0x3000 parses to the one rated voltage reading 60.0 |
| Writes.InsertSpec | src/protocol.py:85 | inserting into a sorted list keeps it sorted and adds exactly the one element |
| Writes.SortSpec | src/protocol.py:85 | sorting by address gives a sorted permutation of the list |
| Writes.SortKeepsSorted | src/protocol.py:85 | a list already sorted by address is left unchanged |
| Writes.SortKeepsPairs | src/protocol.py:85 | sorting keeps exactly the same pairs, so every value given and every address in range are unaffected |
| Writes.FirstProblemSpec | src/protocol.py:86-92 | the loop finds no problem exactly when every value is given and each variable starts no later than the end of the one before it |
| Writes.FirstProblem | src/protocol.py:86-92 | the loop fails only on a missing value or a gap, and passes only when every value is given |
| Writes.WriteCode | src/protocol.py:103-118 | the write code is 0x10 exactly when more than one register is written, otherwise 0x05 exactly when the first variable lists it, else 0x06 |
| Writes.Fill | src/protocol.py:129-132 | a successful payload fill keeps the payload length |
| Writes.FillKeeps | src/protocol.py:129-132 | packing the values leaves every byte before all their offsets unchanged |
| Writes.FillReads | src/protocol.py:129-132 | with no two variables overlapping, the payload holds each value's raw integer at `2 * (address - start)` |
| Writes.FillErrors | src/protocol.py:129-132 | the fill fails only with the packing errors |
| Writes.FilledWord | src/protocol.py:129-132 | in a filled payload each value's raw integer fits at its register's offset and reads back there |
| Writes.BuildChecks | src/protocol.py:86-127 | a request that builds had every value given, no gap, a register count between 1 and 127, and a code every variable accepts |
| Writes.BuildUnfold | src/protocol.py:94-135 | a request that builds is the header, the filled payload and their checksum |
| Writes.FrameLayout | src/protocol.py:103-135 | the request ends in its own checksum and holds the device, the code, the start address and, for 0x10, the register and byte counts; its length is header + payload + 2 |
| Writes.FrameReadAt | src/protocol.py:134 | a payload word reads the same after the header |
| Writes.FrameReadBack | src/protocol.py:129-135 | with no overlap, each value's raw integer sits after the header at its register's offset |
| Writes.BuildErrors | src/protocol.py:86-127 | a sorted list fails on a missing value or gap exactly when not all given and continuous, then on size exactly when the byte count exceeds 255; the other failures are the code check and packing |
| Writes.Assemble | src/protocol.py:103-135 | after the loop and size check, the request fails only on the code check or packing; a request ends in its own checksum, starts with the device and is header + 2 bytes per register + 2 long |
| Writes.Build | src/protocol.py:86-135 | a sorted list fails only on a missing value, a gap, the size, the code check or packing; a request it builds comes from a list all given and continuous, ends in its own checksum and starts with the device |
| Writes.WriteCommand | src/protocol.py:82-135 | `get_write_command` fails for an empty list exactly when the list is empty; a request ends in its own checksum and starts with the device |
| WriteCommands.WriteCommandErrors | src/protocol.py:82-127 | an empty list is rejected exactly when empty, then missing values or gaps exactly when the sorted list is not all given and continuous, then size exactly when the byte count exceeds 255; other failures are the code check and packing |
| WriteCommands.WriteCommandFrame | src/protocol.py:94-135 | a request has a valid checksum and holds the device, a write code every variable accepts (0x10 exactly for more than one register) and the lowest address; for 0x10 it also holds the counts; it is header + 2 bytes per register + 2 long |
| WriteCommands.WriteCommandReadBack | src/protocol.py:129-135 | every value was given, and with no two variables overlapping each value's raw integer sits at its register's offset after the header |
| WriteCommands.WriteCommandIsBuild | src/protocol.py:83-86 | a non-empty list is sorted, then built |
| WriteCommands.WriteCommandAck | src/protocol.py:170-178 | the controller's acknowledgement of a request (its first six bytes and their checksum) parses with no readings; a one-register request is its own acknowledgement |
| WriteCommands.AckAccepted | src/protocol.py:170-178 | any write frame's first six bytes and their checksum parse as an acknowledgement of its start address |
| Protocol.SortInPlace | src/protocol.py:85 | the array is sorted in place into `SortByAddress` of its old contents |
| Protocol.InsertInPlace | src/protocol.py:85 | one insertion step turns the prefix into `Insert` of the old prefix and element and leaves the rest alone |
| Protocol.MakeRoom | src/protocol.py:85 | shifting larger elements right opens the slot where `Insert` places the element |
| Protocol.LumiaxClient.constructor | src/protocol.py:15-16 | a new client has device id 0xFE |
| Protocol.LumiaxClient.FindRawValueByBruteForce | src/protocol.py:180-202 | the search loops return exactly `BruteForce`: the first hit in the source's search order, or none |
| Protocol.LumiaxClient.ScanUp | src/protocol.py:196-201 | the upward loop returns `SearchUp` |
| Protocol.LumiaxClient.ScanDown | src/protocol.py:189-194 | the downward loop returns `SearchDown` |
| Protocol.LumiaxClient.TryValue | src/protocol.py:197-201 | the `try` block reports a match exactly when the decoder does not raise and its result equals the value (`Hits`) |
| Protocol.LumiaxClient.PackInto | src/protocol.py:50-58 | packing a word in place fails as `PackWord` does, leaving the buffer alone, or writes exactly `PackWord`'s bytes |
| Protocol.LumiaxClient.ValueToBytes | src/protocol.py:39-61 | the buffer becomes `Encode`'s buffer and the result is `Encode`'s outcome |
| Protocol.LumiaxClient.RawValueOf | src/protocol.py:40-47 | the raw value is `RawValue` |
| Protocol.LumiaxClient.PackRaw | src/protocol.py:49-61 | the buffer and the returned offset are `Store`'s |
| Protocol.LumiaxClient.GetWriteCommand | src/protocol.py:82-135 | the caller's list is left sorted by address, and the result is `WriteCommand` of the list as given |
| Protocol.LumiaxClient.BuildSorted | src/protocol.py:86-101 | for a sorted list the result is `Build` |
| Protocol.LumiaxClient.AssembleRequest | src/protocol.py:103-135 | once the loop and the size check pass, the result is `Assemble` |
| Protocol.LumiaxClient.RequestHeader | src/protocol.py:103-124 | the branch picks `WriteCode` and writes `Header`: device, code, start and, for 0x10, the register and byte counts |
| Protocol.LumiaxClient.FillPayload | src/protocol.py:129-132 | the fill loop reports `Fill`'s error, or leaves `Fill`'s payload in the array |
| Protocol.LumiaxClient.CheckContinuous | src/protocol.py:86-92 | the loop with its running address returns `FirstProblem` |
| Protocol.LumiaxClient.AllSupport | src/protocol.py:126 | true exactly when every variable of the list accepts the code |
| Protocol.LumiaxClient.WalkAnswer | src/protocol.py:158-169 | the `while` loop's readings are `Walk` from offset 3 |
| Protocol.WalkAdvance | src/protocol.py:161-167 | after one more word the loop's invariant holds again: a failed word is the walk's failure, a read word joins the readings so far |
| Protocol.LumiaxClient.ReadWordAt | src/protocol.py:162-165 | the readings of one word are `ReadWord` |
| Protocol.LumiaxClient.Parse | src/protocol.py:148-178 | `device_id` becomes the frame's first byte, and the result is `ParseFrame` over the registry |
| Protocol.LumiaxClient.ParseAnswer | src/protocol.py:150-178 | the read and acknowledgement branches give `ParseFrame` |

## Left out

- Transport (src/bleclient.py, bleclient.py), main.py and src/homeassistant.py. These are BLE, asyncio queues, timeouts, the CLI and MQTT, all I/O.
- Floating point: multipliers, division and `round()` are exact reals, so the model has no float rounding error.
- The display name (`friendly_name`) and the `func` callables as Python objects. Decoders are the datatype `Decoder`, which captures their integer behaviour.
- Name lookup and slicing of the registry (`variables['battery_percentage']`, `client.variables`). The plain list has no such API.
- Values.AsReal: a string is never a number. Python's `float("14.4")` and `int("12")` would parse a numeric string, so the model rejects some strings that the source accepts.
- Codec.RawValue: `int(value)` of a real truncates. Python's `int()` of `nan` or `inf` raises, but exact reals have neither.
- Writes.WriteCommand: the device id is typed `byte`, so an id outside 0 .. 255 cannot be passed. In the source, `bytes([device_id, ...])` would raise `ValueError` for such an id after the empty, missing-value, continuity and size checks and before the code check. Every caller passes the client's own id, which is a byte (0xFE, or the first byte of a received frame). The same holds for Writes.Build, Writes.Assemble and Writes.Header.
- Protocol.LumiaxClient.FindRawValueByBruteForce: requires a decoder. The source calls `variable.func`, and with no decoder it would raise `TypeError`; it is only ever called for decoded entries.
- Writes.Addressable: a write list is required to have 16-bit addresses. Only the start address goes into `bytes([...])`, where a larger one raises `ValueError`; a later entry at 0x10000 or above would be accepted by the source. Every registry address is 16-bit (Registry.TableWellFormed), so no registry entry is excluded.
- WriteCommands.WriteCommandReadBack: states the read-back only when no two variables overlap. Overlapping or repeated addresses are accepted by the source, and later values then overwrite earlier bytes.
- Writes.SortSpec: states a sorted permutation. Stability (equal addresses keep their list order, as `list.sort` does) follows from the definition of `Insert` but is not a separate lemma.
- Crc.Checksum: the frame-level residue property (the checksum of a frame followed by its checksum is zero) is not stated. Every checksum fact used is about `Checksum` of the leading bytes.
- The written reference frame `01 10 90 21 00 0A 14 ... CC E7` is not reproduced byte by byte. Its ten entries are ordinary registry entries at 0x9021 .. 0x902A, but its checksum covers 25 bytes, and proving it by evaluating 200 bit steps (with the scaled and label encodings of the ten values) is too costly for the verifier. WriteCommands.WriteCommandFrame and WriteCommands.WriteCommandReadBack state the layout and payload of any written frame, and the acknowledgement `01 10 90 21 00 0A 3D 04` is covered (Frames.ParseAckVector).
- The reference answers of 56 and 58 bytes from the test suite are not replayed word by word. `Frames.ParseRead` states what any accepted answer yields.
- Protocol.LumiaxClient.Parse: `self.device_id = buffer[0]` on an empty buffer raises `IndexError`. The model keeps the old id and returns the truncation error.
- Python's `FunctionCodes(buffer[1])` `ValueError` is the error `UnknownFunctionCode` rather than a precondition.
- A 32-bit variable in the last payload word reads into the checksum bytes, as in the source. A read past the end of the buffer is the error `Truncated`.
