/** The reference frames of the protocol, worked out against the registry itself:
    the request for registers 0x3011 .. 0x302C and the one-word answer at 0x3000.
    The registry groups occupy disjoint address ranges, so a window or an address
    picks its entries out of one or two groups. */
module TableFrames {
  import opened Wrappers
  import opened Bytes
  import opened Values
  import opened Variables
  import opened Crc
  import opened Codec
  import opened Frames
  import Registry

  /** Every entry of `s` lies at an address in `lo .. hi - 1`. */
  predicate Within(s: seq<Variable>, lo: int, hi: int)
  {
    forall i | 0 <= i < |s| :: lo <= s[i].address < hi
  }

  /** Windowing two parts of a registry windows each, in order. */
  lemma {:induction false} InWindowAppend(a: seq<Variable>, b: seq<Variable>, start: int, count: int)
    ensures InWindow(a + b, start, count) == InWindow(a, start, count) + InWindow(b, start, count)
  {
    if |a| == 0 {
      assert a + b == b;
    } else {
      assert (a + b)[1..] == a[1..] + b;
      InWindowAppend(a[1..], b, start, count);
    }
  }

  /** A part lying wholly outside the window contributes nothing to it. */
  lemma {:induction false} InWindowOutside(s: seq<Variable>, start: int, count: int, lo: int, hi: int)
    requires Within(s, lo, hi) && (hi <= start || start + count <= lo)
    ensures InWindow(s, start, count) == []
  {
    if |s| > 0 {
      assert Within(s[1..], lo, hi);
      InWindowOutside(s[1..], start, count, lo, hi);
    }
  }

  /** A part lying wholly inside the window is taken whole. */
  lemma {:induction false} InWindowInside(s: seq<Variable>, start: int, count: int, lo: int, hi: int)
    requires Within(s, lo, hi) && start <= lo && hi <= start + count
    ensures InWindow(s, start, count) == s
  {
    if |s| > 0 {
      assert Within(s[1..], lo, hi);
      InWindowInside(s[1..], start, count, lo, hi);
      assert s == [s[0]] + s[1..];
    }
  }

  /** A part lying wholly away from `address` has no entry there. */
  lemma {:induction false} MatchingOutside(s: seq<Variable>, code: FunctionCode, address: int, lo: int, hi: int)
    requires Within(s, lo, hi) && !(lo <= address < hi)
    ensures Matching(s, code, address) == []
  {
    if |s| > 0 {
      assert Within(s[1..], lo, hi);
      MatchingOutside(s[1..], code, address, lo, hi);
    }
  }

  // ------------------------------------------------------ group address ranges

  lemma FunctionalStatusWithin(codes: seq<FunctionCode>, offset: int)
    ensures Within(FunctionalStatusRegisters(codes, offset), offset, offset + 3)
  {
    Registry.FunctionalStatusLayout(codes, offset);
  }

  lemma StatusWithin(offset: int)
    ensures Within(StatusRegisters(offset), offset, offset + 3)
  {
    Registry.StatusLayout(offset);
  }

  lemma StatusInputsWithin()
    ensures Within(StatusInputs, 0x2000, 0x200D)
  {
    var s := StatusInputs;
    assert |s| == 2;
    forall i | 0 <= i < 2
      ensures 0x2000 <= s[i].address < 0x200D
    {
    }
  }

  /** The rated setting ranges: 24 entries at 0x3015 .. 0x302C, then three at
      0x3030 .. 0x3032, all read with code 0x04. */
  lemma RatedSettingRangesWithin()
    ensures |RatedSettingRanges| == 27
    ensures Within(RatedSettingRanges[..24], 0x3015, 0x302D) && Within(RatedSettingRanges[24..], 0x3030, 0x3033)
    ensures Within(RatedSettingRanges, 0x3015, 0x3033)
    ensures forall i | 0 <= i < 24 :: RatedSettingRanges[..24][i].functionCodes == [ReadMemory]
  {
    var s := RatedSettingRanges;
    forall i | 0 <= i < 27
      ensures s[i].functionCodes == [ReadMemory] && (i < 24 ==> s[..24][i] == s[i])
      ensures 0x3015 <= s[i].address < 0x302D || 0x3030 <= s[i].address < 0x3033
      ensures i < 24 ==> s[i].address < 0x302D
    {
    }
  }

  lemma RealTimeDataWithin()
    ensures Within(RealTimeData, 0x3036, 0x30A3)
  {
    var s := RealTimeData;
    assert |s| == 30;
    forall i | 0 <= i < 30
      ensures 0x3036 <= s[i].address < 0x30A3
    {
    }
  }

  lemma HistoricalDataWithin()
    ensures Within(HistoricalData, 0x30A6, 0x316D)
  {
    var s := HistoricalData;
    assert |s| == 10;
    forall i | 0 <= i < 10
      ensures 0x30A6 <= s[i].address < 0x316D
    {
    }
  }

  /** The factory settings: the solar panel rated voltage alone at 0x3000, the rest
      at 0x3001 .. 0x300A. */
  lemma FactorySettingsWithin()
    ensures |FactorySettings| > 0 && FactorySettings[0].address == 0x3000 && ReadMemory in FactorySettings[0].functionCodes
    ensures Within(FactorySettings[1..], 0x3001, 0x300B) && Within(FactorySettings, 0x3000, 0x300B)
  {
    var s := FactorySettings;
    assert |s| == 9;
    forall i | 0 <= i < 9
      ensures 0x3000 <= s[i].address < 0x300B
      ensures 1 <= i ==> 0x3001 <= s[i].address
    {
    }
  }

  lemma ParameterRangesWithin()
    ensures Within(ParameterRanges, 0x8FF4, 0x900D)
  {
    var s := ParameterRanges;
    assert |s| == 25;
    forall i | 0 <= i < 25
      ensures 0x8FF4 <= s[i].address < 0x900D
    {
    }
  }

  lemma BatterySettingsWithin()
    ensures Within(BatterySettings, 0x9017, 0x902B)
  {
    var s := BatterySettings;
    assert |s| == 20;
    forall i | 0 <= i < 20
      ensures 0x9017 <= s[i].address < 0x902B
    {
    }
  }

  lemma LoadTimerSettingsWithin()
    ensures Within(LoadTimerSettings, 0x902B, 0x903C)
  {
    var s := LoadTimerSettings;
    assert |s| == 17;
    forall i | 0 <= i < 17
      ensures 0x902B <= s[i].address < 0x903C
    {
    }
  }

  lemma LightingSettingsWithin()
    ensures Within(LightingSettings, 0x903C, 0x906B)
  {
    var s := LightingSettings;
    assert |s| == 25;
    forall i | 0 <= i < 25
      ensures 0x903C <= s[i].address < 0x906B
    {
    }
  }

  lemma SwitchesWithin()
    ensures Within(Switches, 0x0000, 0x000A)
  {
    var s := Switches;
    assert |s| == 10;
    forall i | 0 <= i < 10
      ensures 0x0000 <= s[i].address < 0x000A
    {
    }
  }

  // ------------------------------------------------------- the registry's frames

  /** Appending a part that lies wholly outside the window leaves the window as it
      was. */
  lemma InWindowSkip(a: seq<Variable>, b: seq<Variable>, start: int, count: int, lo: int, hi: int)
    requires Within(b, lo, hi) && (hi <= start || start + count <= lo)
    ensures InWindow(a + b, start, count) == InWindow(a, start, count)
  {
    InWindowAppend(a, b, start, count);
    InWindowOutside(b, start, count, lo, hi);
  }

  /** Appending a part that lies wholly away from `address` adds no entry there. */
  lemma MatchingSkip(a: seq<Variable>, b: seq<Variable>, code: FunctionCode, address: int, lo: int, hi: int)
    requires Within(b, lo, hi) && !(lo <= address < hi)
    ensures Matching(a + b, code, address) == Matching(a, code, address)
  {
    MatchingAppend(a, b, code, address);
    MatchingOutside(b, code, address, lo, hi);
  }

  /** The groups from the status registers at 0x3033 to the switches lie above
      0x302C or below 0x3011, so they leave the window 0x3011 .. 0x302C alone. */
  lemma WindowSkipsTail(
      a: seq<Variable>, p3: seq<Variable>, p4: seq<Variable>, p5: seq<Variable>, p6: seq<Variable>, p7: seq<Variable>, p8: seq<Variable>, p9: seq<Variable>, p10: seq<Variable>, p11: seq<Variable>, p12: seq<Variable>, p13: seq<Variable>)
    requires Within(p3, 0x3033, 0x3036) && Within(p4, 0x3036, 0x30A3) && Within(p5, 0x30A3, 0x30A6) && Within(p6, 0x30A6, 0x316D)
    requires Within(p7, 0x3000, 0x300B) && Within(p8, 0x8FF0, 0x8FF3) && Within(p9, 0x8FF4, 0x900D) && Within(p10, 0x9017, 0x902B)
    requires Within(p11, 0x902B, 0x903C) && Within(p12, 0x903C, 0x906B) && Within(p13, 0x0000, 0x000A)
    ensures InWindow(a + p3 + p4 + p5 + p6 + p7 + p8 + p9 + p10 + p11 + p12 + p13, 0x3011, 0x1C) == InWindow(a, 0x3011, 0x1C)
  {
    var start, count := 0x3011, 0x1C;
    InWindowSkip(a + p3 + p4 + p5 + p6 + p7 + p8 + p9 + p10 + p11 + p12, p13, start, count, 0x0000, 0x000A);
    InWindowSkip(a + p3 + p4 + p5 + p6 + p7 + p8 + p9 + p10 + p11, p12, start, count, 0x903C, 0x906B);
    InWindowSkip(a + p3 + p4 + p5 + p6 + p7 + p8 + p9 + p10, p11, start, count, 0x902B, 0x903C);
    InWindowSkip(a + p3 + p4 + p5 + p6 + p7 + p8 + p9, p10, start, count, 0x9017, 0x902B);
    InWindowSkip(a + p3 + p4 + p5 + p6 + p7 + p8, p9, start, count, 0x8FF4, 0x900D);
    InWindowSkip(a + p3 + p4 + p5 + p6 + p7, p8, start, count, 0x8FF0, 0x8FF3);
    InWindowSkip(a + p3 + p4 + p5 + p6, p7, start, count, 0x3000, 0x300B);
    InWindowSkip(a + p3 + p4 + p5, p6, start, count, 0x30A6, 0x316D);
    InWindowSkip(a + p3 + p4, p5, start, count, 0x30A3, 0x30A6);
    InWindowSkip(a + p3, p4, start, count, 0x3036, 0x30A3);
    InWindowSkip(a, p3, start, count, 0x3033, 0x3036);
  }

  /** The window 0x3011 .. 0x302C over the status inputs, the first functional
      status block and the rated setting ranges is the block and the first 24
      ranges. */
  lemma WindowOfHead(p0: seq<Variable>, p1: seq<Variable>, p2: seq<Variable>)
    requires Within(p0, 0x2000, 0x200D) && Within(p1, 0x3011, 0x3014)
    requires |p2| >= 24 && Within(p2[..24], 0x3015, 0x302D) && Within(p2[24..], 0x3030, 0x3033)
    ensures InWindow(p0 + p1 + p2, 0x3011, 0x1C) == p1 + p2[..24]
  {
    InWindowAppend(p0 + p1, p2, 0x3011, 0x1C);
    WindowOfStatus(p0, p1);
    WindowOfRanges(p2);
  }

  lemma WindowOfStatus(p0: seq<Variable>, p1: seq<Variable>)
    requires Within(p0, 0x2000, 0x200D) && Within(p1, 0x3011, 0x3014)
    ensures InWindow(p0 + p1, 0x3011, 0x1C) == p1
  {
    InWindowAppend(p0, p1, 0x3011, 0x1C);
    InWindowOutside(p0, 0x3011, 0x1C, 0x2000, 0x200D);
    InWindowInside(p1, 0x3011, 0x1C, 0x3011, 0x3014);
  }

  lemma WindowOfRanges(p2: seq<Variable>)
    requires |p2| >= 24 && Within(p2[..24], 0x3015, 0x302D) && Within(p2[24..], 0x3030, 0x3033)
    ensures InWindow(p2, 0x3011, 0x1C) == p2[..24]
  {
    assert p2 == p2[..24] + p2[24..];
    InWindowSkip(p2[..24], p2[24..], 0x3011, 0x1C, 0x3030, 0x3033);
    InWindowInside(p2[..24], 0x3011, 0x1C, 0x3015, 0x302D);
  }

  /** The groups before the factory settings lie away from 0x3000. */
  lemma NothingAt3000Before(
      p0: seq<Variable>, p1: seq<Variable>, p2: seq<Variable>, p3: seq<Variable>, p4: seq<Variable>, p5: seq<Variable>, p6: seq<Variable>, code: FunctionCode)
    requires Within(p0, 0x2000, 0x200D) && Within(p1, 0x3011, 0x3014) && Within(p2, 0x3015, 0x3033)
    requires Within(p3, 0x3033, 0x3036) && Within(p4, 0x3036, 0x30A3) && Within(p5, 0x30A3, 0x30A6) && Within(p6, 0x30A6, 0x316D)
    ensures Matching(p0 + p1 + p2 + p3 + p4 + p5 + p6, code, 0x3000) == []
  {
    var address := 0x3000;
    MatchingSkip(p0 + p1 + p2 + p3 + p4 + p5, p6, code, address, 0x30A6, 0x316D);
    MatchingSkip(p0 + p1 + p2 + p3 + p4, p5, code, address, 0x30A3, 0x30A6);
    MatchingSkip(p0 + p1 + p2 + p3, p4, code, address, 0x3036, 0x30A3);
    MatchingSkip(p0 + p1 + p2, p3, code, address, 0x3033, 0x3036);
    MatchingSkip(p0 + p1, p2, code, address, 0x3015, 0x3033);
    MatchingSkip(p0, p1, code, address, 0x3011, 0x3014);
    MatchingOutside(p0, code, address, 0x2000, 0x200D);
  }

  /** The groups after the factory settings lie away from 0x3000. */
  lemma NothingAt3000After(
      a: seq<Variable>, p8: seq<Variable>, p9: seq<Variable>, p10: seq<Variable>, p11: seq<Variable>, p12: seq<Variable>, p13: seq<Variable>, code: FunctionCode)
    requires Within(p8, 0x8FF0, 0x8FF3) && Within(p9, 0x8FF4, 0x900D) && Within(p10, 0x9017, 0x902B)
    requires Within(p11, 0x902B, 0x903C) && Within(p12, 0x903C, 0x906B) && Within(p13, 0x0000, 0x000A)
    ensures Matching(a + p8 + p9 + p10 + p11 + p12 + p13, code, 0x3000) == Matching(a, code, 0x3000)
  {
    var address := 0x3000;
    MatchingSkip(a + p8 + p9 + p10 + p11 + p12, p13, code, address, 0x0000, 0x000A);
    MatchingSkip(a + p8 + p9 + p10 + p11, p12, code, address, 0x903C, 0x906B);
    MatchingSkip(a + p8 + p9 + p10, p11, code, address, 0x902B, 0x903C);
    MatchingSkip(a + p8 + p9, p10, code, address, 0x9017, 0x902B);
    MatchingSkip(a + p8, p9, code, address, 0x8FF4, 0x900D);
    MatchingSkip(a, p8, code, address, 0x8FF0, 0x8FF3);
  }

  /** In the factory settings, only the first entry lies at 0x3000. */
  lemma FactoryAt3000(a: seq<Variable>, p7: seq<Variable>, code: FunctionCode)
    requires Matching(a, code, 0x3000) == []
    requires |p7| > 0 && p7[0].address == 0x3000 && code in p7[0].functionCodes && Within(p7[1..], 0x3001, 0x300B)
    ensures Matching(a + p7, code, 0x3000) == [p7[0]]
  {
    MatchingAppend(a, p7, code, 0x3000);
    assert p7 == [p7[0]] + p7[1..];
    MatchingSkip([p7[0]], p7[1..], code, 0x3000, 0x3001, 0x300B);
    assert [p7[0]][1..] == [];
  }

  /** The registry's groups lie at the address ranges above. */
  lemma GroupsWithin()
    ensures Within(StatusInputs, 0x2000, 0x200D) && Within(FunctionalStatusRegisters([ReadMemory], 0x3011), 0x3011, 0x3014)
    ensures |RatedSettingRanges| >= 24 && Within(RatedSettingRanges[..24], 0x3015, 0x302D) && Within(RatedSettingRanges[24..], 0x3030, 0x3033)
    ensures Within(RatedSettingRanges, 0x3015, 0x3033) && Within(FactorySettings, 0x3000, 0x300B)
    ensures Within(StatusRegisters(0x3033), 0x3033, 0x3036) && Within(RealTimeData, 0x3036, 0x30A3)
    ensures Within(StatusRegisters(0x30A3), 0x30A3, 0x30A6) && Within(HistoricalData, 0x30A6, 0x316D)
    ensures |FactorySettings| > 0 && FactorySettings[0].address == 0x3000 && ReadMemory in FactorySettings[0].functionCodes
    ensures Within(FactorySettings[1..], 0x3001, 0x300B)
    ensures Within(FunctionalStatusRegisters([ReadParameter], 0x8FF0), 0x8FF0, 0x8FF3) && Within(ParameterRanges, 0x8FF4, 0x900D)
    ensures Within(BatterySettings, 0x9017, 0x902B) && Within(LoadTimerSettings, 0x902B, 0x903C)
    ensures Within(LightingSettings, 0x903C, 0x906B) && Within(Switches, 0x0000, 0x000A)
  {
    StatusInputsWithin();
    FunctionalStatusWithin([ReadMemory], 0x3011);
    RatedSettingRangesWithin();
    StatusWithin(0x3033);
    RealTimeDataWithin();
    StatusWithin(0x30A3);
    HistoricalDataWithin();
    FactorySettingsWithin();
    FunctionalStatusWithin([ReadParameter], 0x8FF0);
    ParameterRangesWithin();
    BatterySettingsWithin();
    LoadTimerSettingsWithin();
    LightingSettingsWithin();
    SwitchesWithin();
  }

  /** Registers 0x3011 .. 0x302C hold the first functional status block and the
      first 24 rated setting ranges, and nothing else. */
  lemma TableWindow()
    ensures InWindow(Table, 0x3011, 0x1C) == FunctionalStatusRegisters([ReadMemory], 0x3011) + RatedSettingRanges[..24]
  {
    GroupsWithin();
    var head := StatusInputs + FunctionalStatusRegisters([ReadMemory], 0x3011) + RatedSettingRanges;
    WindowSkipsTail(head, StatusRegisters(0x3033), RealTimeData, StatusRegisters(0x30A3), HistoricalData, FactorySettings, FunctionalStatusRegisters([ReadParameter], 0x8FF0), ParameterRanges, BatterySettings, LoadTimerSettings, LightingSettings, Switches);
    WindowOfHead(StatusInputs, FunctionalStatusRegisters([ReadMemory], 0x3011), RatedSettingRanges);
  }

  /** Address 0x3000 holds one entry read with code 0x04: the solar panel rated
      voltage. */
  lemma TableAt3000()
    ensures Matching(Table, ReadMemory, 0x3000) == [FactorySettings[0]]
  {
    GroupsWithin();
    var before := StatusInputs + FunctionalStatusRegisters([ReadMemory], 0x3011) + RatedSettingRanges + StatusRegisters(0x3033) + RealTimeData + StatusRegisters(0x30A3) + HistoricalData;
    NothingAt3000Before(StatusInputs, FunctionalStatusRegisters([ReadMemory], 0x3011), RatedSettingRanges, StatusRegisters(0x3033), RealTimeData, StatusRegisters(0x30A3), HistoricalData, ReadMemory);
    FactoryAt3000(before, FactorySettings, ReadMemory);
    NothingAt3000After(before + FactorySettings, FunctionalStatusRegisters([ReadParameter], 0x8FF0), ParameterRanges, BatterySettings, LoadTimerSettings, LightingSettings, Switches, ReadMemory);
  }

  /** Every registry entry names at least one code. */
  lemma TableHasCodes()
    ensures forall v | v in Table :: |v.functionCodes| > 0
  {
    Registry.TableWellFormed();
    assert forall v | v in Table :: Registry.WellFormed(v);
  }

  /** A window made of parts read only with `code` is read with `code`
      throughout. */
  lemma WindowReadWith(table: seq<Variable>, start: int, count: int, code: FunctionCode, a: seq<Variable>, b: seq<Variable>)
    requires InWindow(table, start, count) == a + b
    requires |a| > 0
    requires forall i | 0 <= i < |a| :: a[i].functionCodes == [code]
    requires forall i | 0 <= i < |b| :: b[i].functionCodes == [code]
    ensures |InWindow(table, start, count)| > 0 && |InWindow(table, start, count)[0].functionCodes| > 0
         && InWindow(table, start, count)[0].functionCodes[0] == code
    ensures forall v | v in table && start <= v.address < start + count :: code in v.functionCodes
  {
    var items := InWindow(table, start, count);
    assert items[0] == a[0];
    forall v | v in table && start <= v.address < start + count
      ensures code in v.functionCodes
    {
      assert v in items;
      var i :| 0 <= i < |items| && items[i] == v;
      if i < |a| {
        assert items[i] == a[i];
      } else {
        assert items[i] == b[i - |a|];
      }
    }
  }

  /** Every entry at registers 0x3011 .. 0x302C is read with code 0x04, the first
      one's first code. */
  lemma TableWindowReadsMemory()
    ensures |InWindow(Table, 0x3011, 0x1C)| > 0 && |InWindow(Table, 0x3011, 0x1C)[0].functionCodes| > 0
         && InWindow(Table, 0x3011, 0x1C)[0].functionCodes[0] == ReadMemory
    ensures forall v | v in Table && 0x3011 <= v.address < 0x3011 + 0x1C :: ReadMemory in v.functionCodes
  {
    TableWindow();
    Registry.FunctionalStatusLayout([ReadMemory], 0x3011);
    RatedSettingRangesWithin();
    WindowReadWith(Table, 0x3011, 0x1C, ReadMemory, FunctionalStatusRegisters([ReadMemory], 0x3011), RatedSettingRanges[..24]);
  }

  /** The first reference request against the registry: registers 0x3011 ..
      0x302C of device 1 are read with code 0x04, in the frame
      `01 04 30 11 00 1C AE C6`. */
  lemma ReadCommandVector()
    ensures forall v | v in Table :: |v.functionCodes| > 0
    ensures ReadCommand(Table, 0x01, 0x3011, 0x1C) == Ok([0x01, 0x04, 0x30, 0x11, 0x00, 0x1C, 0xAE, 0xC6])
  {
    TableHasCodes();
    TableWindowReadsMemory();
    FirstRequestIn(Table);
  }

  /** A registry whose window 0x3011 .. 0x302C starts with an entry listing 0x04
      first, all of whose entries accept 0x04, yields the first reference request. */
  lemma FirstRequestIn(table: seq<Variable>)
    requires forall v | v in table :: |v.functionCodes| > 0
    requires |InWindow(table, 0x3011, 0x1C)| > 0 && InWindow(table, 0x3011, 0x1C)[0].functionCodes[0] == ReadMemory
    requires forall v | v in table && 0x3011 <= v.address < 0x3011 + 0x1C :: ReadMemory in v.functionCodes
    ensures ReadCommand(table, 0x01, 0x3011, 0x1C) == Ok([0x01, 0x04, 0x30, 0x11, 0x00, 0x1C, 0xAE, 0xC6])
  {
    ReadCommandAccepted(table, 0x01, 0x3011, 0x1C, ReadMemory);
    FirstRequestBytes(0x01, 0x3011, 0x1C);
  }

  /** The one-word reference answer against the registry: the word 0x1770 read at
      0x3000 with code 0x04 is the solar panel rated voltage, 60.0. */
  lemma ParseRatedVoltage()
    ensures ParseFrame(Table, 0x3000, [0x01, 0x04, 0x02, 0x17, 0x70, 0xB7, 0x24])
         == Ok([Reading(FactorySettings[0], Real(60.0))])
  {
    TableAt3000();
    RatedVoltageExample();
    ParseWordAt3000(Table, FactorySettings[0]);
  }

  /** The one-word answer parses to the one entry at 0x3000 accepting code 0x04. */
  lemma ParseWordAt3000(table: seq<Variable>, v: Variable)
    requires Matching(table, ReadMemory, 0x3000) == [v]
    requires BytesToValue(v, [0x01, 0x04, 0x02, 0x17, 0x70, 0xB7, 0x24], 3) == Ok(Real(60.0))
    ensures ParseFrame(table, 0x3000, [0x01, 0x04, 0x02, 0x17, 0x70, 0xB7, 0x24]) == Ok([Reading(v, Real(60.0))])
  {
    var buf: seq<byte> := [0x01, 0x04, 0x02, 0x17, 0x70, 0xB7, 0x24];
    Vector4();
    assert buf[..5] == [0x01, 0x04, 0x02, 0x17, 0x70] && buf[5..] == [0xB7, 0x24];
    assert FunctionCodeOf(buf[1]) == Some(ReadMemory);
    ParseOneWord(table, 0x3000, buf, v, Real(60.0));
  }
}
