/** Facts about the variable registry: what every entry satisfies, how the
    group helpers lay their entries out, which decoders are partial, and the
    names and units the rest of the client relies on. */
module Registry {
  import opened Wrappers
  import opened Bytes
  import opened Values
  import opened Variables

  /** A decoder looks only at the bits of one 16-bit word, and a whole-word table
      has no more labels than a word has values. */
  predicate WithinWord(d: Decoder)
  {
    match d
    case Flag(bit) => bit < 16
    case Lookup(labels, index) =>
      if index.Whole? then |labels| <= 0x10000 else index.shift + index.width <= 16
    case Password => true
    case TimingPeriod => true
  }

  /** What every registry entry satisfies: it supports at least one code, its
      registers are 16-bit addresses, a scaled entry has no decoder, a 32-bit entry
      has no decoder, and a decoder stays within its word. */
  predicate WellFormed(v: Variable)
  {
    && |v.functionCodes| > 0
    && 0 <= v.address
    && v.address + Registers(v) <= 0x10000
    && 0.0 <= v.multiplier
    && (v.multiplier != 0.0 ==> v.decoder.None?)
    && (v.is32Bit ==> v.decoder.None?)
    && (v.decoder.Some? ==> WithinWord(v.decoder.value))
  }

  /** Names that earlier versions of the registry used and that must no longer appear. */
  const Retired: seq<string> :=
    ["battery_full_level", "battery_state_1", "battery_state_2", "solar_panel_state", "temperature_1", "temperature_2"]

  /** Names whose first entry must carry a given unit, with that unit. */
  const Units: seq<(string, string)> := [
    ("battery_percentage", "%"), ("battery_voltage", "V"), ("battery_current", "A"),
    ("battery_power", "W"), ("load_voltage", "V"), ("load_current", "A"), ("load_power", "W"),
    ("solar_panel_voltage", "V"), ("solar_panel_current", "A"), ("solar_panel_power", "W"),
    ("solar_panel_daily_energy", "kWh"), ("solar_panel_total_energy", "kWh"),
    ("load_daily_energy", "kWh"), ("load_total_energy", "kWh")]

  predicate AllWellFormed(s: seq<Variable>)
  {
    forall i | 0 <= i < |s| :: WellFormed(s[i])
  }

  predicate NoneRetired(s: seq<Variable>)
  {
    forall i | 0 <= i < |s| :: s[i].name !in Retired
  }

  /** Entries that share an address and follow each other agree on their width
      (grouping the list by consecutive address gives groups of one width). */
  predicate CommonLengths(s: seq<Variable>)
  {
    forall i | 0 <= i < |s| - 1 :: s[i].address == s[i + 1].address ==> s[i].is32Bit == s[i + 1].is32Bit
  }

  /** `[v for v in s if v.name == n]`. */
  function Named(s: seq<Variable>, n: string): (r: seq<Variable>)
    ensures forall v :: v in r <==> v in s && v.name == n
    ensures |r| <= |s|
  {
    if |s| == 0 then [] else (if s[0].name == n then [s[0]] else []) + Named(s[1..], n)
  }

  lemma {:induction false} NamedAppend(a: seq<Variable>, b: seq<Variable>, n: string)
    ensures Named(a + b, n) == Named(a, n) + Named(b, n)
  {
    if |a| > 0 {
      assert (a + b)[0] == a[0];
      assert (a + b)[1..] == a[1..] + b;
      NamedAppend(a[1..], b, n);
      var head := if a[0].name == n then [a[0]] else [];
      assert Named(a + b, n) == head + Named((a + b)[1..], n);
      assert Named(a, n) == head + Named(a[1..], n);
      assert head + (Named(a[1..], n) + Named(b, n)) == (head + Named(a[1..], n)) + Named(b, n);
    } else {
      assert a + b == b;
    }
  }

  /** The first entry named `n` is the one at the first index carrying that name. */
  lemma {:induction false} NamedFirst(s: seq<Variable>, n: string, k: nat)
    requires k < |s| && s[k].name == n
    requires forall j | 0 <= j < k :: s[j].name != n
    ensures |Named(s, n)| > 0 && Named(s, n)[0] == s[k]
  {
    if k > 0 {
      NamedFirst(s[1..], n, k - 1);
    }
  }

  lemma AllWellFormedAppend(a: seq<Variable>, b: seq<Variable>)
    requires AllWellFormed(a) && AllWellFormed(b)
    ensures AllWellFormed(a + b)
  {
    forall i | |a| <= i < |a + b|
      ensures WellFormed((a + b)[i])
    {
      assert (a + b)[i] == b[i - |a|];
    }
  }

  lemma NoneRetiredAppend(a: seq<Variable>, b: seq<Variable>)
    requires NoneRetired(a) && NoneRetired(b)
    ensures NoneRetired(a + b)
  {
    forall i | |a| <= i < |a + b|
      ensures (a + b)[i].name !in Retired
    {
      assert (a + b)[i] == b[i - |a|];
    }
  }

  lemma CommonLengthsAppend(a: seq<Variable>, b: seq<Variable>)
    requires CommonLengths(a) && CommonLengths(b)
    requires |a| > 0 && |b| > 0 ==>
      (a[|a| - 1].address == b[0].address ==> a[|a| - 1].is32Bit == b[0].is32Bit)
    ensures CommonLengths(a + b)
  {
    forall i | 0 <= i < |a + b| - 1
      ensures (a + b)[i].address == (a + b)[i + 1].address ==> (a + b)[i].is32Bit == (a + b)[i + 1].is32Bit
    {
      if i >= |a| {
        assert (a + b)[i] == b[i - |a|] && (a + b)[i + 1] == b[i + 1 - |a|];
      } else if i == |a| - 1 {
        assert (a + b)[i + 1] == b[0];
      }
    }
  }

  /** Every entry of `s` is a 16-bit decoded word at `address`, readable with `codes`. */
  predicate OneWord(s: seq<Variable>, codes: seq<FunctionCode>, address: int)
  {
    forall i | 0 <= i < |s| ::
      && s[i].address == address && s[i].functionCodes == codes
      && !s[i].is32Bit && s[i].multiplier == 0.0
      && s[i].decoder.Some? && WithinWord(s[i].decoder.value)
  }

  lemma FunctionalStatus1Word(codes: seq<FunctionCode>, address: int)
    ensures |FunctionalStatus1(codes, address)| == 4
    ensures OneWord(FunctionalStatus1(codes, address), codes, address)
  {
  }

  lemma FunctionalStatus2Word(codes: seq<FunctionCode>, address: int)
    ensures |FunctionalStatus2(codes, address)| == 16
    ensures OneWord(FunctionalStatus2(codes, address), codes, address)
  {
    var b := FunctionalStatus2(codes, address);
    assert forall i | 0 <= i < |b| :: b[i].address == address && b[i].functionCodes == codes;
    assert forall i | 0 <= i < |b| :: !b[i].is32Bit && b[i].multiplier == 0.0;
    assert forall i | 0 <= i < |b| :: b[i].decoder.Some? && WithinWord(b[i].decoder.value);
  }

  lemma FunctionalStatus3Word(codes: seq<FunctionCode>, address: int)
    ensures |FunctionalStatus3(codes, address)| == 8
    ensures OneWord(FunctionalStatus3(codes, address), codes, address)
  {
  }

  /** `_get_functional_status_registers(codes, offset)`: 4 entries at `offset`, 16 at
      `offset + 1` and 8 at `offset + 2`, every one a 16-bit decoded word readable with
      `codes`. */
  lemma FunctionalStatusLayout(codes: seq<FunctionCode>, offset: int)
    ensures var g := FunctionalStatusRegisters(codes, offset);
      && |g| == 28
      && (forall i | 0 <= i < 4 :: g[i].address == offset)
      && (forall i | 4 <= i < 20 :: g[i].address == offset + 1)
      && (forall i | 20 <= i < 28 :: g[i].address == offset + 2)
      && (forall i | 0 <= i < 28 ::
            g[i].functionCodes == codes && !g[i].is32Bit && g[i].multiplier == 0.0
            && g[i].decoder.Some? && WithinWord(g[i].decoder.value))
  {
    var a, b, c := FunctionalStatus1(codes, offset), FunctionalStatus2(codes, offset + 1), FunctionalStatus3(codes, offset + 2);
    FunctionalStatus1Word(codes, offset);
    FunctionalStatus2Word(codes, offset + 1);
    FunctionalStatus3Word(codes, offset + 2);
    var g := a + b + c;
    assert forall i | 0 <= i < 4 :: g[i] == a[i];
    assert forall i | 4 <= i < 20 :: g[i] == b[i - 4];
    assert forall i | 20 <= i < 28 :: g[i] == c[i - 20];
  }

  /** `_get_status_registers(offset)`: 2 entries at `offset`, 6 at `offset + 1` and 7 at
      `offset + 2`, all read with code 0x04; the two `solar_panel_charge_state` entries
      at `offset + 1` are kept side by side as distinct entries. */
  lemma StatusLayout(offset: int)
    ensures var g := StatusRegisters(offset);
      && |g| == 15
      && (forall i | 0 <= i < |g| ::
            && g[i].address == offset + (if i < 2 then 0 else if i < 8 then 1 else 2)
            && g[i].functionCodes == [ReadMemory]
            && !g[i].is32Bit && g[i].multiplier == 0.0 && g[i].decoder.Some?)
      && g[5].name == g[6].name == "solar_panel_charge_state"
      && g[5].address == g[6].address && g[5] != g[6]
  {
    var a, b, c := BatteryStatus(offset), ChargeStatus(offset + 1), DischargeStatus(offset + 2);
    var g := a + b + c;
    assert forall i | 0 <= i < 2 :: g[i] == a[i];
    assert forall i | 2 <= i < 8 :: g[i] == b[i - 2];
    assert forall i | 8 <= i < 15 :: g[i] == c[i - 8];
  }

  lemma FunctionalStatusWellFormed(codes: seq<FunctionCode>, offset: int)
    requires |codes| > 0 && 0 <= offset && offset + 3 <= 0x10000
    ensures AllWellFormed(FunctionalStatusRegisters(codes, offset))
  {
    FunctionalStatusLayout(codes, offset);
  }

  lemma FunctionalStatusNoneRetired(codes: seq<FunctionCode>, offset: int)
    ensures NoneRetired(FunctionalStatusRegisters(codes, offset))
  {
    var a, b, c := FunctionalStatus1(codes, offset), FunctionalStatus2(codes, offset + 1), FunctionalStatus3(codes, offset + 2);
    assert NoneRetired(a);
    assert NoneRetired(b);
    assert NoneRetired(c);
    NoneRetiredAppend(a, b);
    NoneRetiredAppend(a + b, c);
  }

  lemma FunctionalStatusLengths(codes: seq<FunctionCode>, offset: int)
    ensures CommonLengths(FunctionalStatusRegisters(codes, offset))
  {
    FunctionalStatusLayout(codes, offset);
  }

  lemma StatusWellFormed(offset: int)
    requires 0 <= offset && offset + 3 <= 0x10000
    ensures AllWellFormed(StatusRegisters(offset))
  {
    var a, b, c := BatteryStatus(offset), ChargeStatus(offset + 1), DischargeStatus(offset + 2);
    assert AllWellFormed(a);
    assert AllWellFormed(b);
    assert AllWellFormed(c);
    AllWellFormedAppend(a, b);
    AllWellFormedAppend(a + b, c);
  }

  lemma StatusNoneRetired(offset: int)
    ensures NoneRetired(StatusRegisters(offset))
  {
    var a, b, c := BatteryStatus(offset), ChargeStatus(offset + 1), DischargeStatus(offset + 2);
    assert NoneRetired(a);
    assert NoneRetired(b);
    assert NoneRetired(c);
    NoneRetiredAppend(a, b);
    NoneRetiredAppend(a + b, c);
  }

  lemma StatusLengths(offset: int)
    ensures CommonLengths(StatusRegisters(offset))
  {
    var a, b, c := BatteryStatus(offset), ChargeStatus(offset + 1), DischargeStatus(offset + 2);
    assert CommonLengths(a);
    assert CommonLengths(b);
    assert CommonLengths(c);
    CommonLengthsAppend(a, b);
    CommonLengthsAppend(a + b, c);
  }

  lemma StatusInputsWellFormed()
    ensures AllWellFormed(StatusInputs)
  {
    var s := StatusInputs;
    assert |s| == 2;
    forall i | 0 <= i < 2
      ensures WellFormed(s[i])
    {
    }
  }

  lemma StatusInputsNoneRetired()
    ensures NoneRetired(StatusInputs)
  {
    var s := StatusInputs;
    assert |s| == 2;
    forall i | 0 <= i < 2
      ensures s[i].name !in Retired
    {
    }
  }

  lemma StatusInputsLengths()
    ensures CommonLengths(StatusInputs)
  {
    var s := StatusInputs;
    assert |s| == 2;
    forall i | 0 <= i < 1
      ensures s[i].address == s[i + 1].address ==> s[i].is32Bit == s[i + 1].is32Bit
    {
    }
  }

  lemma RatedSettingRangesWellFormed()
    ensures AllWellFormed(RatedSettingRanges)
  {
    var s := RatedSettingRanges;
    assert |s| == 27;
    forall i | 0 <= i < 27
      ensures WellFormed(s[i])
    {
    }
  }

  lemma RatedSettingRangesNoneRetired()
    ensures NoneRetired(RatedSettingRanges)
  {
    var s := RatedSettingRanges;
    assert |s| == 27;
    forall i | 0 <= i < 27
      ensures s[i].name !in Retired
    {
    }
  }

  lemma RatedSettingRangesLengths()
    ensures CommonLengths(RatedSettingRanges)
  {
    var s := RatedSettingRanges;
    assert |s| == 27;
    forall i | 0 <= i < 26
      ensures s[i].address == s[i + 1].address ==> s[i].is32Bit == s[i + 1].is32Bit
    {
    }
  }

  lemma RealTimeDataWellFormed()
    ensures AllWellFormed(RealTimeData)
  {
    var s := RealTimeData;
    assert |s| == 30;
    forall i | 0 <= i < 30
      ensures WellFormed(s[i])
    {
    }
  }

  lemma RealTimeDataNoneRetired()
    ensures NoneRetired(RealTimeData)
  {
    var s := RealTimeData;
    assert |s| == 30;
    forall i | 0 <= i < 30
      ensures s[i].name !in Retired
    {
    }
  }

  lemma RealTimeDataLengths()
    ensures CommonLengths(RealTimeData)
  {
    var s := RealTimeData;
    assert |s| == 30;
    forall i | 0 <= i < 29
      ensures s[i].address == s[i + 1].address ==> s[i].is32Bit == s[i + 1].is32Bit
    {
    }
  }

  lemma HistoricalDataWellFormed()
    ensures AllWellFormed(HistoricalData)
  {
    var s := HistoricalData;
    assert |s| == 10;
    forall i | 0 <= i < 10
      ensures WellFormed(s[i])
    {
    }
  }

  lemma HistoricalDataNoneRetired()
    ensures NoneRetired(HistoricalData)
  {
    var s := HistoricalData;
    assert |s| == 10;
    forall i | 0 <= i < 10
      ensures s[i].name !in Retired
    {
    }
  }

  lemma HistoricalDataLengths()
    ensures CommonLengths(HistoricalData)
  {
    var s := HistoricalData;
    assert |s| == 10;
    forall i | 0 <= i < 9
      ensures s[i].address == s[i + 1].address ==> s[i].is32Bit == s[i + 1].is32Bit
    {
    }
  }

  lemma FactorySettingsWellFormed()
    ensures AllWellFormed(FactorySettings)
  {
    var s := FactorySettings;
    assert |s| == 9;
    forall i | 0 <= i < 9
      ensures WellFormed(s[i])
    {
    }
  }

  lemma FactorySettingsNoneRetired()
    ensures NoneRetired(FactorySettings)
  {
    var s := FactorySettings;
    assert |s| == 9;
    forall i | 0 <= i < 9
      ensures s[i].name !in Retired
    {
    }
  }

  lemma FactorySettingsLengths()
    ensures CommonLengths(FactorySettings)
  {
    var s := FactorySettings;
    assert |s| == 9;
    forall i | 0 <= i < 8
      ensures s[i].address == s[i + 1].address ==> s[i].is32Bit == s[i + 1].is32Bit
    {
    }
  }

  lemma ParameterRangesWellFormed()
    ensures AllWellFormed(ParameterRanges)
  {
    var s := ParameterRanges;
    assert |s| == 25;
    forall i | 0 <= i < 25
      ensures WellFormed(s[i])
    {
    }
  }

  lemma ParameterRangesNoneRetired()
    ensures NoneRetired(ParameterRanges)
  {
    var s := ParameterRanges;
    assert |s| == 25;
    forall i | 0 <= i < 25
      ensures s[i].name !in Retired
    {
    }
  }

  lemma ParameterRangesLengths()
    ensures CommonLengths(ParameterRanges)
  {
    var s := ParameterRanges;
    assert |s| == 25;
    forall i | 0 <= i < 24
      ensures s[i].address == s[i + 1].address ==> s[i].is32Bit == s[i + 1].is32Bit
    {
    }
  }

  lemma BatterySettingsWellFormed()
    ensures AllWellFormed(BatterySettings)
  {
    var s := BatterySettings;
    assert |s| == 20;
    forall i | 0 <= i < 20
      ensures WellFormed(s[i])
    {
    }
  }

  lemma BatterySettingsNoneRetired()
    ensures NoneRetired(BatterySettings)
  {
    var s := BatterySettings;
    assert |s| == 20;
    forall i | 0 <= i < 20
      ensures s[i].name !in Retired
    {
    }
  }

  lemma BatterySettingsLengths()
    ensures CommonLengths(BatterySettings)
  {
    var s := BatterySettings;
    assert |s| == 20;
    forall i | 0 <= i < 19
      ensures s[i].address == s[i + 1].address ==> s[i].is32Bit == s[i + 1].is32Bit
    {
    }
  }

  lemma LoadTimerSettingsWellFormed()
    ensures AllWellFormed(LoadTimerSettings)
  {
    var s := LoadTimerSettings;
    assert |s| == 17;
    forall i | 0 <= i < 17
      ensures WellFormed(s[i])
    {
    }
  }

  lemma LoadTimerSettingsNoneRetired()
    ensures NoneRetired(LoadTimerSettings)
  {
    var s := LoadTimerSettings;
    assert |s| == 17;
    forall i | 0 <= i < 17
      ensures s[i].name !in Retired
    {
    }
  }

  lemma LoadTimerSettingsLengths()
    ensures CommonLengths(LoadTimerSettings)
  {
    var s := LoadTimerSettings;
    assert |s| == 17;
    forall i | 0 <= i < 16
      ensures s[i].address == s[i + 1].address ==> s[i].is32Bit == s[i + 1].is32Bit
    {
    }
  }

  lemma LightingSettingsWellFormed()
    ensures AllWellFormed(LightingSettings)
  {
    var s := LightingSettings;
    assert |s| == 25;
    forall i | 0 <= i < 25
      ensures WellFormed(s[i])
    {
    }
  }

  lemma LightingSettingsNoneRetired()
    ensures NoneRetired(LightingSettings)
  {
    var s := LightingSettings;
    assert |s| == 25;
    forall i | 0 <= i < 25
      ensures s[i].name !in Retired
    {
    }
  }

  lemma LightingSettingsLengths()
    ensures CommonLengths(LightingSettings)
  {
    var s := LightingSettings;
    assert |s| == 25;
    forall i | 0 <= i < 24
      ensures s[i].address == s[i + 1].address ==> s[i].is32Bit == s[i + 1].is32Bit
    {
    }
  }

  lemma SwitchesWellFormed()
    ensures AllWellFormed(Switches)
  {
    var s := Switches;
    assert |s| == 10;
    forall i | 0 <= i < 10
      ensures WellFormed(s[i])
    {
    }
  }

  lemma SwitchesNoneRetired()
    ensures NoneRetired(Switches)
  {
    var s := Switches;
    assert |s| == 10;
    forall i | 0 <= i < 10
      ensures s[i].name !in Retired
    {
    }
  }

  lemma SwitchesLengths()
    ensures CommonLengths(Switches)
  {
    var s := Switches;
    assert |s| == 10;
    forall i | 0 <= i < 9
      ensures s[i].address == s[i + 1].address ==> s[i].is32Bit == s[i + 1].is32Bit
    {
    }
  }

  /** Fourteen well-formed pieces make a well-formed whole. */
  lemma AllWellFormedConcat(
      p0: seq<Variable>, p1: seq<Variable>, p2: seq<Variable>, p3: seq<Variable>, p4: seq<Variable>, p5: seq<Variable>, p6: seq<Variable>, p7: seq<Variable>, p8: seq<Variable>, p9: seq<Variable>, p10: seq<Variable>, p11: seq<Variable>, p12: seq<Variable>, p13: seq<Variable>)
    requires AllWellFormed(p0)
    requires AllWellFormed(p1)
    requires AllWellFormed(p2)
    requires AllWellFormed(p3)
    requires AllWellFormed(p4)
    requires AllWellFormed(p5)
    requires AllWellFormed(p6)
    requires AllWellFormed(p7)
    requires AllWellFormed(p8)
    requires AllWellFormed(p9)
    requires AllWellFormed(p10)
    requires AllWellFormed(p11)
    requires AllWellFormed(p12)
    requires AllWellFormed(p13)
    ensures AllWellFormed(p0 + p1 + p2 + p3 + p4 + p5 + p6 + p7 + p8 + p9 + p10 + p11 + p12 + p13)
  {
    AllWellFormedAppend(p0, p1);
    AllWellFormedAppend(p0 + p1, p2);
    AllWellFormedAppend(p0 + p1 + p2, p3);
    AllWellFormedAppend(p0 + p1 + p2 + p3, p4);
    AllWellFormedAppend(p0 + p1 + p2 + p3 + p4, p5);
    AllWellFormedAppend(p0 + p1 + p2 + p3 + p4 + p5, p6);
    AllWellFormedAppend(p0 + p1 + p2 + p3 + p4 + p5 + p6, p7);
    AllWellFormedAppend(p0 + p1 + p2 + p3 + p4 + p5 + p6 + p7, p8);
    AllWellFormedAppend(p0 + p1 + p2 + p3 + p4 + p5 + p6 + p7 + p8, p9);
    AllWellFormedAppend(p0 + p1 + p2 + p3 + p4 + p5 + p6 + p7 + p8 + p9, p10);
    AllWellFormedAppend(p0 + p1 + p2 + p3 + p4 + p5 + p6 + p7 + p8 + p9 + p10, p11);
    AllWellFormedAppend(p0 + p1 + p2 + p3 + p4 + p5 + p6 + p7 + p8 + p9 + p10 + p11, p12);
    AllWellFormedAppend(p0 + p1 + p2 + p3 + p4 + p5 + p6 + p7 + p8 + p9 + p10 + p11 + p12, p13);
  }

  /** Fourteen pieces free of retired names make a whole free of them. */
  lemma NoneRetiredConcat(
      p0: seq<Variable>, p1: seq<Variable>, p2: seq<Variable>, p3: seq<Variable>, p4: seq<Variable>, p5: seq<Variable>, p6: seq<Variable>, p7: seq<Variable>, p8: seq<Variable>, p9: seq<Variable>, p10: seq<Variable>, p11: seq<Variable>, p12: seq<Variable>, p13: seq<Variable>)
    requires NoneRetired(p0)
    requires NoneRetired(p1)
    requires NoneRetired(p2)
    requires NoneRetired(p3)
    requires NoneRetired(p4)
    requires NoneRetired(p5)
    requires NoneRetired(p6)
    requires NoneRetired(p7)
    requires NoneRetired(p8)
    requires NoneRetired(p9)
    requires NoneRetired(p10)
    requires NoneRetired(p11)
    requires NoneRetired(p12)
    requires NoneRetired(p13)
    ensures NoneRetired(p0 + p1 + p2 + p3 + p4 + p5 + p6 + p7 + p8 + p9 + p10 + p11 + p12 + p13)
  {
    NoneRetiredAppend(p0, p1);
    NoneRetiredAppend(p0 + p1, p2);
    NoneRetiredAppend(p0 + p1 + p2, p3);
    NoneRetiredAppend(p0 + p1 + p2 + p3, p4);
    NoneRetiredAppend(p0 + p1 + p2 + p3 + p4, p5);
    NoneRetiredAppend(p0 + p1 + p2 + p3 + p4 + p5, p6);
    NoneRetiredAppend(p0 + p1 + p2 + p3 + p4 + p5 + p6, p7);
    NoneRetiredAppend(p0 + p1 + p2 + p3 + p4 + p5 + p6 + p7, p8);
    NoneRetiredAppend(p0 + p1 + p2 + p3 + p4 + p5 + p6 + p7 + p8, p9);
    NoneRetiredAppend(p0 + p1 + p2 + p3 + p4 + p5 + p6 + p7 + p8 + p9, p10);
    NoneRetiredAppend(p0 + p1 + p2 + p3 + p4 + p5 + p6 + p7 + p8 + p9 + p10, p11);
    NoneRetiredAppend(p0 + p1 + p2 + p3 + p4 + p5 + p6 + p7 + p8 + p9 + p10 + p11, p12);
    NoneRetiredAppend(p0 + p1 + p2 + p3 + p4 + p5 + p6 + p7 + p8 + p9 + p10 + p11 + p12, p13);
  }

  /** Two non-empty pieces meet without a width change at a shared address. */
  predicate Joins(a: seq<Variable>, b: seq<Variable>)
  {
    && |a| > 0 && |b| > 0
    && (a[|a| - 1].address == b[0].address ==> a[|a| - 1].is32Bit == b[0].is32Bit)
  }

  lemma JoinsAfter(a: seq<Variable>, b: seq<Variable>, c: seq<Variable>)
    requires Joins(b, c)
    ensures Joins(a + b, c)
  {
    assert (a + b)[|a + b| - 1] == b[|b| - 1];
  }

  /** Fourteen pieces, each keeping widths common at shared addresses and
      meeting the next without a width change, make a whole that does too. */
  lemma CommonLengthsConcat(
      p0: seq<Variable>, p1: seq<Variable>, p2: seq<Variable>, p3: seq<Variable>, p4: seq<Variable>, p5: seq<Variable>, p6: seq<Variable>, p7: seq<Variable>, p8: seq<Variable>, p9: seq<Variable>, p10: seq<Variable>, p11: seq<Variable>, p12: seq<Variable>, p13: seq<Variable>)
    requires CommonLengths(p0)
    requires CommonLengths(p1)
    requires CommonLengths(p2)
    requires CommonLengths(p3)
    requires CommonLengths(p4)
    requires CommonLengths(p5)
    requires CommonLengths(p6)
    requires CommonLengths(p7)
    requires CommonLengths(p8)
    requires CommonLengths(p9)
    requires CommonLengths(p10)
    requires CommonLengths(p11)
    requires CommonLengths(p12)
    requires CommonLengths(p13)
    requires Joins(p0, p1)
    requires Joins(p1, p2)
    requires Joins(p2, p3)
    requires Joins(p3, p4)
    requires Joins(p4, p5)
    requires Joins(p5, p6)
    requires Joins(p6, p7)
    requires Joins(p7, p8)
    requires Joins(p8, p9)
    requires Joins(p9, p10)
    requires Joins(p10, p11)
    requires Joins(p11, p12)
    requires Joins(p12, p13)
    ensures CommonLengths(p0 + p1 + p2 + p3 + p4 + p5 + p6 + p7 + p8 + p9 + p10 + p11 + p12 + p13)
  {
    CommonLengthsAppend(p0, p1);
    JoinsAfter(p0, p1, p2);
    CommonLengthsAppend(p0 + p1, p2);
    JoinsAfter(p0 + p1, p2, p3);
    CommonLengthsAppend(p0 + p1 + p2, p3);
    JoinsAfter(p0 + p1 + p2, p3, p4);
    CommonLengthsAppend(p0 + p1 + p2 + p3, p4);
    JoinsAfter(p0 + p1 + p2 + p3, p4, p5);
    CommonLengthsAppend(p0 + p1 + p2 + p3 + p4, p5);
    JoinsAfter(p0 + p1 + p2 + p3 + p4, p5, p6);
    CommonLengthsAppend(p0 + p1 + p2 + p3 + p4 + p5, p6);
    JoinsAfter(p0 + p1 + p2 + p3 + p4 + p5, p6, p7);
    CommonLengthsAppend(p0 + p1 + p2 + p3 + p4 + p5 + p6, p7);
    JoinsAfter(p0 + p1 + p2 + p3 + p4 + p5 + p6, p7, p8);
    CommonLengthsAppend(p0 + p1 + p2 + p3 + p4 + p5 + p6 + p7, p8);
    JoinsAfter(p0 + p1 + p2 + p3 + p4 + p5 + p6 + p7, p8, p9);
    CommonLengthsAppend(p0 + p1 + p2 + p3 + p4 + p5 + p6 + p7 + p8, p9);
    JoinsAfter(p0 + p1 + p2 + p3 + p4 + p5 + p6 + p7 + p8, p9, p10);
    CommonLengthsAppend(p0 + p1 + p2 + p3 + p4 + p5 + p6 + p7 + p8 + p9, p10);
    JoinsAfter(p0 + p1 + p2 + p3 + p4 + p5 + p6 + p7 + p8 + p9, p10, p11);
    CommonLengthsAppend(p0 + p1 + p2 + p3 + p4 + p5 + p6 + p7 + p8 + p9 + p10, p11);
    JoinsAfter(p0 + p1 + p2 + p3 + p4 + p5 + p6 + p7 + p8 + p9 + p10, p11, p12);
    CommonLengthsAppend(p0 + p1 + p2 + p3 + p4 + p5 + p6 + p7 + p8 + p9 + p10 + p11, p12);
    JoinsAfter(p0 + p1 + p2 + p3 + p4 + p5 + p6 + p7 + p8 + p9 + p10 + p11, p12, p13);
    CommonLengthsAppend(p0 + p1 + p2 + p3 + p4 + p5 + p6 + p7 + p8 + p9 + p10 + p11 + p12, p13);
  }

  /** Every entry of the registry is well formed. */
  lemma TableWellFormed()
    ensures AllWellFormed(Table)
  {
    StatusInputsWellFormed();
    FunctionalStatusWellFormed([ReadMemory], 0x3011);
    RatedSettingRangesWellFormed();
    StatusWellFormed(0x3033);
    RealTimeDataWellFormed();
    StatusWellFormed(0x30A3);
    HistoricalDataWellFormed();
    FactorySettingsWellFormed();
    FunctionalStatusWellFormed([ReadParameter], 0x8FF0);
    ParameterRangesWellFormed();
    BatterySettingsWellFormed();
    LoadTimerSettingsWellFormed();
    LightingSettingsWellFormed();
    SwitchesWellFormed();
    AllWellFormedConcat(StatusInputs, FunctionalStatusRegisters([ReadMemory], 0x3011), RatedSettingRanges, StatusRegisters(0x3033), RealTimeData, StatusRegisters(0x30A3), HistoricalData, FactorySettings, FunctionalStatusRegisters([ReadParameter], 0x8FF0), ParameterRanges, BatterySettings, LoadTimerSettings, LightingSettings, Switches);
  }

  /** No entry of the registry carries a retired name. */
  lemma TableNoneRetired()
    ensures NoneRetired(Table)
  {
    StatusInputsNoneRetired();
    FunctionalStatusNoneRetired([ReadMemory], 0x3011);
    RatedSettingRangesNoneRetired();
    StatusNoneRetired(0x3033);
    RealTimeDataNoneRetired();
    StatusNoneRetired(0x30A3);
    HistoricalDataNoneRetired();
    FactorySettingsNoneRetired();
    FunctionalStatusNoneRetired([ReadParameter], 0x8FF0);
    ParameterRangesNoneRetired();
    BatterySettingsNoneRetired();
    LoadTimerSettingsNoneRetired();
    LightingSettingsNoneRetired();
    SwitchesNoneRetired();
    NoneRetiredConcat(StatusInputs, FunctionalStatusRegisters([ReadMemory], 0x3011), RatedSettingRanges, StatusRegisters(0x3033), RealTimeData, StatusRegisters(0x30A3), HistoricalData, FactorySettings, FunctionalStatusRegisters([ReadParameter], 0x8FF0), ParameterRanges, BatterySettings, LoadTimerSettings, LightingSettings, Switches);
  }

  /** Entries that follow each other at the same address agree on their width,
      across the whole registry. */
  /** Every group of the registry keeps entries of one address at one width. */
  lemma GroupsCommonLengths()
    ensures CommonLengths(StatusInputs)
    ensures CommonLengths(FunctionalStatusRegisters([ReadMemory], 0x3011))
    ensures CommonLengths(RatedSettingRanges)
    ensures CommonLengths(StatusRegisters(0x3033))
    ensures CommonLengths(RealTimeData)
    ensures CommonLengths(StatusRegisters(0x30A3))
    ensures CommonLengths(HistoricalData)
    ensures CommonLengths(FactorySettings)
    ensures CommonLengths(FunctionalStatusRegisters([ReadParameter], 0x8FF0))
    ensures CommonLengths(ParameterRanges)
    ensures CommonLengths(BatterySettings)
    ensures CommonLengths(LoadTimerSettings)
    ensures CommonLengths(LightingSettings)
    ensures CommonLengths(Switches)
  {
    StatusInputsLengths();
    FunctionalStatusLengths([ReadMemory], 0x3011);
    RatedSettingRangesLengths();
    StatusLengths(0x3033);
    RealTimeDataLengths();
    StatusLengths(0x30A3);
    HistoricalDataLengths();
    FactorySettingsLengths();
    FunctionalStatusLengths([ReadParameter], 0x8FF0);
    ParameterRangesLengths();
    BatterySettingsLengths();
    LoadTimerSettingsLengths();
    LightingSettingsLengths();
    SwitchesLengths();
  }

  /** Where one group ends and the next begins, a shared address keeps its width. */
  lemma GroupsJoin()
    ensures Joins(StatusInputs, FunctionalStatusRegisters([ReadMemory], 0x3011))
    ensures Joins(FunctionalStatusRegisters([ReadMemory], 0x3011), RatedSettingRanges)
    ensures Joins(RatedSettingRanges, StatusRegisters(0x3033))
    ensures Joins(StatusRegisters(0x3033), RealTimeData)
    ensures Joins(RealTimeData, StatusRegisters(0x30A3))
    ensures Joins(StatusRegisters(0x30A3), HistoricalData)
    ensures Joins(HistoricalData, FactorySettings)
    ensures Joins(FactorySettings, FunctionalStatusRegisters([ReadParameter], 0x8FF0))
    ensures Joins(FunctionalStatusRegisters([ReadParameter], 0x8FF0), ParameterRanges)
    ensures Joins(ParameterRanges, BatterySettings)
    ensures Joins(BatterySettings, LoadTimerSettings)
    ensures Joins(LoadTimerSettings, LightingSettings)
    ensures Joins(LightingSettings, Switches)
  {
  }

  lemma TableCommonLengths()
    ensures CommonLengths(Table)
  {
    GroupsCommonLengths();
    GroupsJoin();
    CommonLengthsConcat(StatusInputs, FunctionalStatusRegisters([ReadMemory], 0x3011), RatedSettingRanges, StatusRegisters(0x3033), RealTimeData, StatusRegisters(0x30A3), HistoricalData, FactorySettings, FunctionalStatusRegisters([ReadParameter], 0x8FF0), ParameterRanges, BatterySettings, LoadTimerSettings, LightingSettings, Switches);
  }

  /** Filtering a concatenation of fourteen pieces by name filters each piece in turn. */
  lemma NamedConcat(
      p0: seq<Variable>, p1: seq<Variable>, p2: seq<Variable>, p3: seq<Variable>, p4: seq<Variable>, p5: seq<Variable>, p6: seq<Variable>, p7: seq<Variable>, p8: seq<Variable>, p9: seq<Variable>, p10: seq<Variable>, p11: seq<Variable>, p12: seq<Variable>, p13: seq<Variable>,
      n: string)
    ensures Named(p0 + p1 + p2 + p3 + p4 + p5 + p6 + p7 + p8 + p9 + p10 + p11 + p12 + p13, n) ==
      Named(p0, n) + Named(p1, n) + Named(p2, n) + Named(p3, n) + Named(p4, n) + Named(p5, n) + Named(p6, n) + Named(p7, n) + Named(p8, n) + Named(p9, n) + Named(p10, n) + Named(p11, n) + Named(p12, n) + Named(p13, n)
  {
    NamedAppend(p0, p1, n);
    NamedAppend(p0 + p1, p2, n);
    NamedAppend(p0 + p1 + p2, p3, n);
    NamedAppend(p0 + p1 + p2 + p3, p4, n);
    NamedAppend(p0 + p1 + p2 + p3 + p4, p5, n);
    NamedAppend(p0 + p1 + p2 + p3 + p4 + p5, p6, n);
    NamedAppend(p0 + p1 + p2 + p3 + p4 + p5 + p6, p7, n);
    NamedAppend(p0 + p1 + p2 + p3 + p4 + p5 + p6 + p7, p8, n);
    NamedAppend(p0 + p1 + p2 + p3 + p4 + p5 + p6 + p7 + p8, p9, n);
    NamedAppend(p0 + p1 + p2 + p3 + p4 + p5 + p6 + p7 + p8 + p9, p10, n);
    NamedAppend(p0 + p1 + p2 + p3 + p4 + p5 + p6 + p7 + p8 + p9 + p10, p11, n);
    NamedAppend(p0 + p1 + p2 + p3 + p4 + p5 + p6 + p7 + p8 + p9 + p10 + p11, p12, n);
    NamedAppend(p0 + p1 + p2 + p3 + p4 + p5 + p6 + p7 + p8 + p9 + p10 + p11 + p12, p13, n);
  }

  /** Filtering the registry by name filters each of its pieces in turn. */
  lemma NamedTable(n: string)
    ensures Named(Table, n) ==
      Named(StatusInputs, n)
      + Named(FunctionalStatusRegisters([ReadMemory], 0x3011), n)
      + Named(RatedSettingRanges, n)
      + Named(StatusRegisters(0x3033), n)
      + Named(RealTimeData, n)
      + Named(StatusRegisters(0x30A3), n)
      + Named(HistoricalData, n)
      + Named(FactorySettings, n)
      + Named(FunctionalStatusRegisters([ReadParameter], 0x8FF0), n)
      + Named(ParameterRanges, n)
      + Named(BatterySettings, n)
      + Named(LoadTimerSettings, n)
      + Named(LightingSettings, n)
      + Named(Switches, n)
  {
    NamedConcat(
      StatusInputs,
      FunctionalStatusRegisters([ReadMemory], 0x3011),
      RatedSettingRanges,
      StatusRegisters(0x3033),
      RealTimeData,
      StatusRegisters(0x30A3),
      HistoricalData,
      FactorySettings,
      FunctionalStatusRegisters([ReadParameter], 0x8FF0),
      ParameterRanges,
      BatterySettings,
      LoadTimerSettings,
      LightingSettings,
      Switches, n);
  }

  /** No entry in front of the real-time data carries one of the names with a unit. */
  predicate NoUnitNames(s: seq<Variable>)
  {
    forall i, j | 0 <= i < |s| && 0 <= j < |Units| :: s[i].name != Units[j].0
  }

  lemma NoUnitNamesAppend(a: seq<Variable>, b: seq<Variable>)
    requires NoUnitNames(a) && NoUnitNames(b)
    ensures NoUnitNames(a + b)
  {
    forall i, j | |a| <= i < |a + b| && 0 <= j < |Units|
      ensures (a + b)[i].name != Units[j].0
    {
      assert (a + b)[i] == b[i - |a|];
    }
  }

  lemma NamedNone(s: seq<Variable>, n: string)
    requires forall i | 0 <= i < |s| :: s[i].name != n
    ensures Named(s, n) == []
  {
    if Named(s, n) != [] {
      assert Named(s, n)[0] in Named(s, n);
    }
  }

  lemma StatusInputsHaveNoUnitNames()
    ensures NoUnitNames(StatusInputs)
  {
  }

  lemma FunctionalStatus1HasNoUnitNames(codes: seq<FunctionCode>, address: int)
    ensures NoUnitNames(FunctionalStatus1(codes, address))
  {
  }

  lemma FunctionalStatus2HasNoUnitNamesFrom0(codes: seq<FunctionCode>, address: int)
    ensures var b := FunctionalStatus2(codes, address);
      forall i, j | 0 <= i < 4 && 0 <= j < |Units| :: b[i].name != Units[j].0
  {
  }

  lemma FunctionalStatus2HasNoUnitNamesFrom4(codes: seq<FunctionCode>, address: int)
    ensures var b := FunctionalStatus2(codes, address);
      forall i, j | 4 <= i < 8 && 0 <= j < |Units| :: b[i].name != Units[j].0
  {
  }

  lemma FunctionalStatus2HasNoUnitNamesFrom8(codes: seq<FunctionCode>, address: int)
    ensures var b := FunctionalStatus2(codes, address);
      forall i, j | 8 <= i < 12 && 0 <= j < |Units| :: b[i].name != Units[j].0
  {
  }

  lemma FunctionalStatus2HasNoUnitNamesFrom12(codes: seq<FunctionCode>, address: int)
    ensures var b := FunctionalStatus2(codes, address);
      forall i, j | 12 <= i < 16 && 0 <= j < |Units| :: b[i].name != Units[j].0
  {
  }

  lemma FunctionalStatus2HasNoUnitNames(codes: seq<FunctionCode>, address: int)
    ensures NoUnitNames(FunctionalStatus2(codes, address))
  {
    FunctionalStatus2Word(codes, address);
    FunctionalStatus2HasNoUnitNamesFrom0(codes, address);
    FunctionalStatus2HasNoUnitNamesFrom4(codes, address);
    FunctionalStatus2HasNoUnitNamesFrom8(codes, address);
    FunctionalStatus2HasNoUnitNamesFrom12(codes, address);
  }

  lemma FunctionalStatus3HasNoUnitNames(codes: seq<FunctionCode>, address: int)
    ensures NoUnitNames(FunctionalStatus3(codes, address))
  {
  }

  lemma FunctionalStatusHasNoUnitNames(codes: seq<FunctionCode>, offset: int)
    ensures NoUnitNames(FunctionalStatusRegisters(codes, offset))
  {
    var a, b, c := FunctionalStatus1(codes, offset), FunctionalStatus2(codes, offset + 1), FunctionalStatus3(codes, offset + 2);
    FunctionalStatus1HasNoUnitNames(codes, offset);
    FunctionalStatus2HasNoUnitNames(codes, offset + 1);
    FunctionalStatus3HasNoUnitNames(codes, offset + 2);
    NoUnitNamesAppend(a, b);
    NoUnitNamesAppend(a + b, c);
  }

  lemma StatusHasNoUnitNames()
    ensures NoUnitNames(StatusRegisters(0x3033))
  {
    var a, b, c := BatteryStatus(0x3033), ChargeStatus(0x3034), DischargeStatus(0x3035);
    assert NoUnitNames(a);
    assert NoUnitNames(b);
    assert NoUnitNames(c);
    NoUnitNamesAppend(a, b);
    NoUnitNamesAppend(a + b, c);
  }

  lemma RatedSettingRangesHaveNoUnitNames()
    ensures NoUnitNames(RatedSettingRanges)
  {
  }

  /** When the first four pieces lack name `n` and the fifth first carries it at `k`,
      that entry is the first of the whole concatenation with name `n`. */
  lemma FirstInFifth(
      p0: seq<Variable>, p1: seq<Variable>, p2: seq<Variable>, p3: seq<Variable>, p4: seq<Variable>, p5: seq<Variable>, p6: seq<Variable>, p7: seq<Variable>, p8: seq<Variable>, p9: seq<Variable>, p10: seq<Variable>, p11: seq<Variable>, p12: seq<Variable>, p13: seq<Variable>,
      n: string, k: nat)
    requires forall i | 0 <= i < |p0| :: p0[i].name != n
    requires forall i | 0 <= i < |p1| :: p1[i].name != n
    requires forall i | 0 <= i < |p2| :: p2[i].name != n
    requires forall i | 0 <= i < |p3| :: p3[i].name != n
    requires k < |p4| && p4[k].name == n
    requires forall i | 0 <= i < k :: p4[i].name != n
    ensures |Named(p0 + p1 + p2 + p3 + p4 + p5 + p6 + p7 + p8 + p9 + p10 + p11 + p12 + p13, n)| > 0
    ensures Named(p0 + p1 + p2 + p3 + p4 + p5 + p6 + p7 + p8 + p9 + p10 + p11 + p12 + p13, n)[0] == p4[k]
  {
    NamedNone(p0, n);
    NamedNone(p1, n);
    NamedNone(p2, n);
    NamedNone(p3, n);
    NamedConcat(p0, p1, p2, p3, p4, p5, p6, p7, p8, p9, p10, p11, p12, p13, n);
    NamedFirst(p4, n, k);
  }

  /** The real-time block starts with eleven entries that carry none of the names with
      a unit, and then carries them in the order of `Units`. */
  lemma RealTimeUnits()
    ensures forall i, j | 0 <= i < 11 && 0 <= j < |Units| :: RealTimeData[i].name != Units[j].0
    ensures forall j | 0 <= j < |Units| :: RealTimeData[j + 11].name == Units[j].0 && RealTimeData[j + 11].unit == Units[j].1
  {
    RealTimeHead();
    RealTimeTail();
  }

  lemma RealTimeHead()
    ensures forall i, j | 0 <= i < 11 && 0 <= j < |Units| :: RealTimeData[i].name != Units[j].0
  {
    var s := RealTimeData;
    assert |s| == 30 && |Units| == 14;
    forall i, j | 0 <= i < 11 && 0 <= j < 14
      ensures s[i].name != Units[j].0
    {
    }
  }

  lemma RealTimeTail()
    ensures forall j | 0 <= j < |Units| :: RealTimeData[j + 11].name == Units[j].0 && RealTimeData[j + 11].unit == Units[j].1
  {
    var s := RealTimeData;
    assert |s| == 30 && |Units| == 14;
    forall j | 0 <= j < 14
      ensures s[j + 11].name == Units[j].0 && s[j + 11].unit == Units[j].1
    {
    }
  }

  /** The names in `Units` are distinct. */
  lemma UnitNamesDistinct()
    ensures forall i, j | 0 <= i < j < |Units| :: Units[i].0 != Units[j].0
  {
  }

  /** In the real-time block, `Units[j].0` first appears at index `j + 11`. */
  lemma RealTimeFirstUnit(j: nat)
    requires j < |Units|
    ensures RealTimeData[j + 11].name == Units[j].0
    ensures forall i | 0 <= i < j + 11 :: RealTimeData[i].name != Units[j].0
  {
    RealTimeUnits();
    UnitNamesDistinct();
    forall i | 11 <= i < j + 11
      ensures RealTimeData[i].name != Units[j].0
    {
      assert RealTimeData[i].name == Units[i - 11].0;
    }
  }

  /** The first entry named `Units[j].0` is the real-time reading at index `j + 11`. */
  lemma FirstUnit(j: nat)
    requires j < |Units|
    ensures |Named(Table, Units[j].0)| > 0 && Named(Table, Units[j].0)[0] == RealTimeData[j + 11]
  {
    StatusInputsHaveNoUnitNames();
    FunctionalStatusHasNoUnitNames([ReadMemory], 0x3011);
    RatedSettingRangesHaveNoUnitNames();
    StatusHasNoUnitNames();
    RealTimeFirstUnit(j);
    FirstInFifth(
      StatusInputs,
      FunctionalStatusRegisters([ReadMemory], 0x3011),
      RatedSettingRanges,
      StatusRegisters(0x3033),
      RealTimeData,
      StatusRegisters(0x30A3),
      HistoricalData,
      FactorySettings,
      FunctionalStatusRegisters([ReadParameter], 0x8FF0),
      ParameterRanges,
      BatterySettings,
      LoadTimerSettings,
      LightingSettings,
      Switches,
      Units[j].0, j + 11);
  }

  /** `[v for v in variables if v.name == name][0].unit` is the expected unit for
      every name in `Units`. */
  lemma UnitsOfFirstEntries()
    ensures forall j | 0 <= j < |Units| :: |Named(Table, Units[j].0)| > 0 && Named(Table, Units[j].0)[0].unit == Units[j].1
  {
    forall j | 0 <= j < |Units|
      ensures |Named(Table, Units[j].0)| > 0 && Named(Table, Units[j].0)[0].unit == Units[j].1
    {
      FirstUnit(j);
      RealTimeUnits();
    }
  }

  /** An entry of the third, fourth or fifth piece is an entry of the concatenation. */
  lemma InConcat(
      p0: seq<Variable>, p1: seq<Variable>, p2: seq<Variable>, p3: seq<Variable>, p4: seq<Variable>, p5: seq<Variable>, p6: seq<Variable>, p7: seq<Variable>, p8: seq<Variable>, p9: seq<Variable>, p10: seq<Variable>, p11: seq<Variable>, p12: seq<Variable>, p13: seq<Variable>,
      v: Variable)
    requires v in p2 || v in p3 || v in p4
    ensures v in p0 + p1 + p2 + p3 + p4 + p5 + p6 + p7 + p8 + p9 + p10 + p11 + p12 + p13
  {
  }

  /** Some entry of `s` carries name `n`. */
  predicate Present(s: seq<Variable>, n: string)
  {
    exists i | 0 <= i < |s| :: s[i].name == n
  }

  lemma PresentInRated(k: nat, n: string)
    requires k < |RatedSettingRanges| && RatedSettingRanges[k].name == n
    ensures Present(Table, n)
  {
    var v := RatedSettingRanges[k];
    InConcat(
      StatusInputs,
      FunctionalStatusRegisters([ReadMemory], 0x3011),
      RatedSettingRanges,
      StatusRegisters(0x3033),
      RealTimeData,
      StatusRegisters(0x30A3),
      HistoricalData,
      FactorySettings,
      FunctionalStatusRegisters([ReadParameter], 0x8FF0),
      ParameterRanges,
      BatterySettings,
      LoadTimerSettings,
      LightingSettings,
      Switches,
      v);
  }

  lemma PresentInCharge(k: nat, n: string)
    requires k < |ChargeStatus(0x3034)| && ChargeStatus(0x3034)[k].name == n
    ensures Present(Table, n)
  {
    var v := ChargeStatus(0x3034)[k];
    assert v in StatusRegisters(0x3033);
    InConcat(
      StatusInputs,
      FunctionalStatusRegisters([ReadMemory], 0x3011),
      RatedSettingRanges,
      StatusRegisters(0x3033),
      RealTimeData,
      StatusRegisters(0x30A3),
      HistoricalData,
      FactorySettings,
      FunctionalStatusRegisters([ReadParameter], 0x8FF0),
      ParameterRanges,
      BatterySettings,
      LoadTimerSettings,
      LightingSettings,
      Switches,
      v);
  }


  lemma PresentInDischarge(k: nat, n: string)
    requires k < |DischargeStatus(0x3035)| && DischargeStatus(0x3035)[k].name == n
    ensures Present(Table, n)
  {
    var v := DischargeStatus(0x3035)[k];
    assert v in StatusRegisters(0x3033);
    InConcat(
      StatusInputs,
      FunctionalStatusRegisters([ReadMemory], 0x3011),
      RatedSettingRanges,
      StatusRegisters(0x3033),
      RealTimeData,
      StatusRegisters(0x30A3),
      HistoricalData,
      FactorySettings,
      FunctionalStatusRegisters([ReadParameter], 0x8FF0),
      ParameterRanges,
      BatterySettings,
      LoadTimerSettings,
      LightingSettings,
      Switches,
      v);
  }

  lemma PresentInRealTime(k: nat, n: string)
    requires k < |RealTimeData| && RealTimeData[k].name == n
    ensures Present(Table, n)
  {
    var v := RealTimeData[k];
    InConcat(
      StatusInputs,
      FunctionalStatusRegisters([ReadMemory], 0x3011),
      RatedSettingRanges,
      StatusRegisters(0x3033),
      RealTimeData,
      StatusRegisters(0x30A3),
      HistoricalData,
      FactorySettings,
      FunctionalStatusRegisters([ReadParameter], 0x8FF0),
      ParameterRanges,
      BatterySettings,
      LoadTimerSettings,
      LightingSettings,
      Switches,
      v);
  }

  lemma RatedNames()
    ensures |RatedSettingRanges| > 25
    ensures RatedSettingRanges[24].name == "equipment_id" && RatedSettingRanges[25].name == "run_days"
  {
  }

  lemma StatusNames()
    ensures |ChargeStatus(0x3034)| > 5 && |DischargeStatus(0x3035)| > 6
    ensures ChargeStatus(0x3034)[1].name == "solar_panel_is_night"
    ensures ChargeStatus(0x3034)[3].name == "solar_panel_charge_state"
    ensures ChargeStatus(0x3034)[5].name == "solar_panel_is_charging"
    ensures DischargeStatus(0x3035)[0].name == "load_state"
    ensures DischargeStatus(0x3035)[6].name == "load_is_enabled"
  {
  }

  lemma CounterNames()
    ensures |RealTimeData| > 3
    ensures RealTimeData[2].name == "battery_empty_times" && RealTimeData[3].name == "battery_full_times"
  {
  }

  /** The required names among the rated setting ranges. */
  lemma RatedNamesPresent()
    ensures Present(Table, "equipment_id")
    ensures Present(Table, "run_days")
  {
    RatedNames();
    PresentInRated(24, "equipment_id");
    PresentInRated(25, "run_days");
  }

  /** The required charge-side names among the status words at 0x3033. */
  lemma ChargeNamesPresent()
    ensures Present(Table, "solar_panel_is_charging")
    ensures Present(Table, "solar_panel_is_night")
    ensures Present(Table, "solar_panel_charge_state")
  {
    StatusNames();
    PresentInCharge(1, "solar_panel_is_night");
    PresentInCharge(3, "solar_panel_charge_state");
    PresentInCharge(5, "solar_panel_is_charging");
  }

  /** The required load-side names among the status words at 0x3033. */
  lemma LoadNamesPresent()
    ensures Present(Table, "load_is_enabled")
    ensures Present(Table, "load_state")
  {
    StatusNames();
    PresentInDischarge(0, "load_state");
    PresentInDischarge(6, "load_is_enabled");
  }

  /** The required counters among the real-time data. */
  lemma CounterNamesPresent()
    ensures Present(Table, "battery_empty_times")
    ensures Present(Table, "battery_full_times")
  {
    CounterNames();
    PresentInRealTime(2, "battery_empty_times");
    PresentInRealTime(3, "battery_full_times");
  }

  /** A decoder that stays within its word cannot tell the raw value 0x10000, one past
      the largest 16-bit word, apart from 0, or rejects it. */
  lemma TopValueAgrees(d: Decoder)
    requires WithinWord(d)
    ensures Apply(d, 0x10000).None? || Apply(d, 0x10000) == Apply(d, 0)
  {
    match d
    case Flag(bit) =>
      FieldAgrees(bit, 1);
    case Lookup(labels, index) =>
      if index.Field? {
        FieldAgrees(index.shift, index.width);
      }
    case Password =>
      FieldAgrees(12, 4);
      FieldAgrees(8, 4);
      FieldAgrees(4, 4);
      FieldAgrees(0, 4);
    case TimingPeriod =>
      FieldAgrees(8, 8);
      FieldAgrees(0, 8);
  }

  /** A field within the low 16 bits reads the same from 0x10000 as from 0. */
  lemma FieldAgrees(shift: nat, width: nat)
    requires shift + width <= 16
    ensures Bits(0x10000, shift, width) == Bits(0, shift, width) == 0
  {
    BitsOfWordSize(shift, width);
    BitsOfZero(shift, width);
  }

  /** `maximum_system_voltage_level` indexes five labels with the top nibble, so a
      nibble of 5 or more raises IndexError. */
  lemma MaximumVoltageLevelPartial(codes: seq<FunctionCode>, address: int)
    ensures var v := FunctionalStatus1(codes, address)[0];
      && v.name == "maximum_system_voltage_level"
      && v.decoder.Some?
      && (forall x :: Apply(v.decoder.value, x).None? <==> Bits(x, 12, 4) >= 5)
      && Apply(v.decoder.value, 0x4000) == Some(Str("48V"))
      && Apply(v.decoder.value, 0x5000).None?
  {
    var d := FunctionalStatus1(codes, address)[0].decoder.value;
    assert d == Lookup([Str(""), Str("12V"), Str("24V"), Str("36V"), Str("48V")], Field(12, 4));
    Pow2Values();
    assert Bits(0x4000, 12, 4) == 4 && Bits(0x5000, 12, 4) == 5;
  }

  /** `system_rated_voltage_level` indexes ten labels with the whole word. */
  lemma RatedVoltageLevelPartial()
    ensures var v := BatterySettings[16];
      && v.name == "system_rated_voltage_level"
      && v.decoder.Some?
      && (forall x | 0 <= x :: Apply(v.decoder.value, x).None? <==> x >= 10)
      && Apply(v.decoder.value, 9) == Some(Str("240V"))
  {
  }

  /** `mt_series_load_mode` has exactly 13 labels, the eight generated ones among them. */
  lemma LoadModePartial()
    ensures var v := LoadTimerSettings[0];
      && v.name == "mt_series_load_mode"
      && v.decoder == Some(Lookup(LoadModeLabels, Whole))
      && |LoadModeLabels| == 13
      && Apply(v.decoder.value, 2) == Some(Str("Night light on time 2 hours"))
      && Apply(v.decoder.value, 12) == Some(Str("Timing switch"))
      && Apply(v.decoder.value, 13).None?
  {
    assert LoadModeLabels[2] == Str("Night light on time " + NatToString(2) + " hours");
    assert NatToString(2) == "2";
    assert "Night light on time " + "2" + " hours" == "Night light on time 2 hours";
  }

  /** The password decoder shows each nibble as `str(max(nibble, 9))`: every nibble of
      at most 9 shows as "9", so all such passwords decode alike. */
  lemma PasswordUsesMax()
    ensures BatterySettings[8].name == "device_password" && BatterySettings[8].decoder == Some(Password)
    ensures forall x | Bits(x, 12, 4) <= 9 && Bits(x, 8, 4) <= 9 && Bits(x, 4, 4) <= 9 && Bits(x, 0, 4) <= 9 ::
      Apply(Password, x) == Some(Str("9999"))
  {
    assert NatToString(9) == "9";
    assert "9" + "9" + "9" + "9" == "9999";
  }

  /** A nibble above 9 shows as its own decimal value: 0xABCD reads as "10111213". */
  lemma PasswordOfABCD()
    ensures Apply(Password, 0xABCD) == Some(Str("10111213"))
  {
    NibblesOfABCD();
    assert NatToString(10) == "10" && NatToString(11) == "11" && NatToString(12) == "12" && NatToString(13) == "13";
    assert "10" + "11" + "12" + "13" == "10111213";
  }

  /** The timing decoder adds `max(minutes, 59)`, so every period reads as at least
      59 minutes past its hour. */
  lemma TimingPeriodUsesMax()
    ensures LoadTimerSettings[2].decoder == Some(TimingPeriod) && LoadTimerSettings[3].decoder == Some(TimingPeriod)
    ensures forall x :: (Apply(TimingPeriod, x).Some? && Apply(TimingPeriod, x).value.Int? &&
      Apply(TimingPeriod, x).value.i >= Bits(x, 8, 8) * 60 + 59)
    ensures Apply(TimingPeriod, 0x0100) == Some(Int(119))
  {
    Pow2Values();
    ShiftRightNibble(0x100);
    ShiftRightNibble(0x10);
    ShiftRightAdd(0x100, 4, 4);
    LowBitsOfZero(7);
    assert LowBits(1, 8) == 1 + 2 * LowBits(0, 7);
    LowBitsOfPow2(8, 8);
  }
}
