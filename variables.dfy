/** The variable registry: every register the client knows, with how to read
    and write it. The table is built, as in the original, by concatenating
    literal lists and the results of two group helpers. */
module Variables {
  import opened Wrappers
  import opened Bytes
  import opened Values

  /** The function codes of the Modbus Application Protocol V1.1b3 that the
      device uses (sections 6.2, 6.3, 6.4, 6.5, 6.6 and 6.12). */
  datatype FunctionCode =
    | ReadStatusRegister
    | ReadParameter
    | ReadMemory
    | WriteStatusRegister
    | WriteMemorySingle
    | WriteMemoryRange
  {
    /** The code's byte on the wire. */
    function Code(): byte
    {
      match this
      case ReadStatusRegister => 0x02
      case ReadParameter => 0x03
      case ReadMemory => 0x04
      case WriteStatusRegister => 0x05
      case WriteMemorySingle => 0x06
      case WriteMemoryRange => 0x10
    }

    /** The three read codes, whose responses carry a byte count at offset 2. */
    predicate IsRead()
    {
      this == ReadStatusRegister || this == ReadParameter || this == ReadMemory
    }
  }

  /** `FunctionCodes(b)`: the code whose wire byte is `b`, if there is one. */
  function FunctionCodeOf(b: int): (r: Option<FunctionCode>)
    ensures r.Some? ==> r.value.Code() == b
    ensures r.None? ==> forall f: FunctionCode :: f.Code() != b
  {
    if b == 0x02 then Some(ReadStatusRegister)
    else if b == 0x03 then Some(ReadParameter)
    else if b == 0x04 then Some(ReadMemory)
    else if b == 0x05 then Some(WriteStatusRegister)
    else if b == 0x06 then Some(WriteMemorySingle)
    else if b == 0x10 then Some(WriteMemoryRange)
    else None
  }

  /** Which bits of the raw word index a lookup table: all of it, or `width` bits from `shift` up. */
  datatype Index = Whole | Field(shift: nat, width: nat)

  /** The decoders the registry attaches to variables, one constructor per kind of lambda. */
  datatype Decoder =
    | Flag(bit: nat)                              // (x >> bit) & 1 == 1
    | Lookup(labels: seq<Value>, index: Index)    // [labels...][x] or [labels...][(x >> s) & mask]
    | Password                                    // four nibbles, each shown as str(max(nibble, 9))
    | TimingPeriod                                // ((x >> 8) & 0xFF) * 60 + max(x & 0xFF, 59)

  /** One register entry: address, width and signedness, the codes that reach it,
      unit, multiplier (0.0 for none), name and decoder. The display name kept
      for the home-automation front end is not part of this model. */
  datatype Variable = Variable(
    address: int,
    is32Bit: bool,
    isSigned: bool,
    functionCodes: seq<FunctionCode>,
    unit: string,
    multiplier: real,
    name: string,
    decoder: Option<Decoder>)

  /** The number of 16-bit registers a variable occupies. */
  function Registers(v: Variable): nat
  {
    if v.is32Bit then 2 else 1
  }

  /** Python's `labels[i]`: a negative index counts from the end; outside both ranges it raises IndexError (None). */
  function PyIndex<T>(labels: seq<T>, i: int): (r: Option<T>)
    ensures r.Some? <==> -|labels| <= i < |labels|
  {
    if 0 <= i < |labels| then Some(labels[i])
    else if -|labels| <= i < 0 then Some(labels[|labels| + i])
    else None
  }

  function Max(a: int, b: int): int
  {
    if a < b then b else a
  }

  /** The text of one password nibble: `str(max(nibble, 9))`. */
  function PasswordDigit(nibble: nat): string
  {
    NatToString(Max(nibble, 9))
  }

  /** What a decoder makes of a raw value; None where the lambda raises IndexError.
      Flags and the composite formulas are total; a table is defined exactly on the
      indices Python's list indexing accepts. */
  function Apply(d: Decoder, x: int): (r: Option<Value>)
    ensures d.Flag? ==> r.Some? && r.value.Bool?
    ensures d.Lookup? && d.index.Whole? ==> (r.Some? <==> -|d.labels| <= x < |d.labels|)
    ensures d.Lookup? && d.index.Field? ==> (r.Some? <==> Bits(x, d.index.shift, d.index.width) < |d.labels|)
    ensures d.Lookup? && r.Some? ==> r.value in d.labels
    ensures d.Password? ==> r.Some? && r.value.Str? && 4 <= |r.value.s| <= 8
    ensures d.TimingPeriod? ==> r.Some? && r.value.Int? && r.value.i >= 59
  {
    match d
    case Flag(bit) => Some(Bool(Bits(x, bit, 1) == 1))
    case Lookup(labels, Whole) => PyIndex(labels, x)
    case Lookup(labels, Field(shift, width)) => PyIndex(labels, Bits(x, shift, width))
    case Password =>
      Some(Str(PasswordDigit(Bits(x, 12, 4)) + PasswordDigit(Bits(x, 8, 4))
             + PasswordDigit(Bits(x, 4, 4)) + PasswordDigit(Bits(x, 0, 4))))
    case TimingPeriod => Some(Int(Bits(x, 8, 8) * 60 + Max(Bits(x, 0, 8), 59)))
  }

  /** The codes of the settable parameters: read, write one, write a range. */
  const ParameterCodes: seq<FunctionCode> := [ReadParameter, WriteMemorySingle, WriteMemoryRange]

  /** The labels of the MT series load mode: two fixed ones, eight "Night light on time n hours" for n in 2..9, three more. */
  const LoadModeLabels: seq<Value> :=
    [Str("Always on"), Str("Dusk to dawn")]
    + seq(8, k requires 0 <= k < 8 => Str("Night light on time " + NatToString(k + 2) + " hours"))
    + [Str("Manual"), Str("T0T"), Str("Timing switch")]

  /** Controller functional status 1 at `address`: voltage levels, series and battery
      type, one nibble each. */
  function FunctionalStatus1(codes: seq<FunctionCode>, address: int): seq<Variable>
  {
    [
      Variable(address, false, false, codes, "", 0.0, "maximum_system_voltage_level", Some(Lookup([Str(""), Str("12V"), Str("24V"), Str("36V"), Str("48V")], Field(12, 4)))),
      Variable(address, false, false, codes, "", 0.0, "minimum_system_voltage_level", Some(Lookup([Str(""), Str("12V"), Str("24V"), Str("36V"), Str("48V")], Field(8, 4)))),
      Variable(address, false, false, codes, "", 0.0, "controller_series", Some(Lookup([Str("MT series"), Str("DC series"), Str("SMR series")], Field(4, 4)))),
      Variable(address, false, false, codes, "", 0.0, "battery_type", Some(Lookup([Str("Lithium battery"), Str("Non Lithium battery")], Field(0, 4))))
    ]
  }

  /** Controller functional status 2 at `address`: which settings are available, one
      bit each. */
  function FunctionalStatus2(codes: seq<FunctionCode>, address: int): seq<Variable>
  {
    [
      Variable(address, false, false, codes, "", 0.0, "infrared_function_available", Some(Flag(15))),
      Variable(address, false, false, codes, "", 0.0, "automatic_power_reduction_available", Some(Flag(14))),
      Variable(address, false, false, codes, "", 0.0, "charging_at_zero_celsius_available", Some(Flag(13))),
      Variable(address, false, false, codes, "", 0.0, "grade_of_rated_voltage_available", Some(Flag(12))),
      Variable(address, false, false, codes, "", 0.0, "overcharge_recovery_voltage_available", Some(Flag(11))),
      Variable(address, false, false, codes, "", 0.0, "overcharge_protection_available", Some(Flag(10))),
      Variable(address, false, false, codes, "", 0.0, "floating_charge_voltage_available", Some(Flag(9))),
      Variable(address, false, false, codes, "", 0.0, "equilibrium_charge_voltage_available", Some(Flag(8))),
      Variable(address, false, false, codes, "", 0.0, "strong_charging_voltage_available", Some(Flag(7))),
      Variable(address, false, false, codes, "", 0.0, "low_voltage_recovery_voltage_available", Some(Flag(6))),
      Variable(address, false, false, codes, "", 0.0, "low_voltage_protection_voltage_available", Some(Flag(5))),
      Variable(address, false, false, codes, "", 0.0, "battery_type_available", Some(Flag(4))),
      Variable(address, false, false, codes, "", 0.0, "backlight_time_available", Some(Flag(3))),
      Variable(address, false, false, codes, "", 0.0, "device_time_available", Some(Flag(2))),
      Variable(address, false, false, codes, "", 0.0, "device_id_available", Some(Flag(1))),
      Variable(address, false, false, codes, "", 0.0, "device_password_available", Some(Flag(0)))
    ]
  }

  /** Controller functional status 3 at `address`: which lighting modes are available,
      one bit each. */
  function FunctionalStatus3(codes: seq<FunctionCode>, address: int): seq<Variable>
  {
    [
      Variable(address, false, false, codes, "", 0.0, "six_time_frame_mode_available", Some(Flag(7))),
      Variable(address, false, false, codes, "", 0.0, "five_time_frame_mode_available", Some(Flag(6))),
      Variable(address, false, false, codes, "", 0.0, "timing_control_mode_available", Some(Flag(5))),
      Variable(address, false, false, codes, "", 0.0, "t0t_mode_available", Some(Flag(4))),
      Variable(address, false, false, codes, "", 0.0, "fixed_duration_mode_available", Some(Flag(3))),
      Variable(address, false, false, codes, "", 0.0, "d2d_mode_available", Some(Flag(2))),
      Variable(address, false, false, codes, "", 0.0, "24h_mode_available", Some(Flag(1))),
      Variable(address, false, false, codes, "", 0.0, "manual_operation_mode_available", Some(Flag(0)))
    ]
  }

  /** The controller's functional status words at `offset`, `offset + 1` and `offset + 2`,
      readable with `codes`. */
  function FunctionalStatusRegisters(codes: seq<FunctionCode>, offset: int): seq<Variable>
  {
    // Controller functional status 4 is reserved and has no entries.
    FunctionalStatus1(codes, offset) + FunctionalStatus2(codes, offset + 1) + FunctionalStatus3(codes, offset + 2)
  }

  /** Battery, charge and discharge status words at `offset`, `offset + 1` and `offset + 2`,
      always read with code 0x04. */
  function StatusRegisters(offset: int): seq<Variable>
  {
    BatteryStatus(offset) + ChargeStatus(offset + 1) + DischargeStatus(offset + 2)
  }

  /** The battery status word at `address`: temperature and voltage protection. */
  function BatteryStatus(address: int): seq<Variable>
  {
    [
      Variable(address, false, false, [ReadMemory], "", 0.0, "battery_temperature_protection_status", Some(Lookup([Str("Normal"), Str("High temperature protection")], Field(4, 1)))),
      Variable(address, false, false, [ReadMemory], "", 0.0, "battery_voltage_protection_status", Some(Lookup([Str("Normal"), Str("Over voltage protection"), Str("Voltage is low"), Str("Low voltage protection")], Field(0, 4))))
    ]
  }

  /** The charge status word at `address`: one flag or field per condition of the
      solar input. */
  function ChargeStatus(address: int): seq<Variable>
  {
    [
      Variable(address, false, false, [ReadMemory], "", 0.0, "solar_panel_charge_disabled", Some(Flag(6))),
      Variable(address, false, false, [ReadMemory], "", 0.0, "solar_panel_is_night", Some(Flag(5))),
      Variable(address, false, false, [ReadMemory], "", 0.0, "solar_panel_charge_over_temperature", Some(Flag(4))),
      Variable(address, false, false, [ReadMemory], "", 0.0, "solar_panel_charge_state", Some(Lookup([Str("Not charging"), Str("Float charge"), Str("Boost charge"), Str("Equal charge")], Field(2, 2)))),
      Variable(address, false, false, [ReadMemory], "", 0.0, "solar_panel_charge_state", Some(Flag(1))),
      Variable(address, false, false, [ReadMemory], "", 0.0, "solar_panel_is_charging", Some(Flag(0)))
    ]
  }

  /** The discharge status word at `address`: one flag or field per condition of
      the load output. */
  function DischargeStatus(address: int): seq<Variable>
  {
    [
      Variable(address, false, false, [ReadMemory], "", 0.0, "load_state", Some(Lookup([Str("Light load"), Str("Moderate load"), Str("Rated load"), Str("Overload")], Field(12, 2)))),
      Variable(address, false, false, [ReadMemory], "", 0.0, "output_short_circuit", Some(Flag(11))),
      Variable(address, false, false, [ReadMemory], "", 0.0, "output_hardware_protection", Some(Flag(4))),
      Variable(address, false, false, [ReadMemory], "", 0.0, "output_open_circuit_protection", Some(Flag(3))),
      Variable(address, false, false, [ReadMemory], "", 0.0, "output_over_temperature", Some(Flag(2))),
      Variable(address, false, false, [ReadMemory], "", 0.0, "output_fault", Some(Flag(1))),
      Variable(address, false, false, [ReadMemory], "", 0.0, "load_is_enabled", Some(Flag(0)))
    ]
  }

  /** Status inputs read with code 0x02. */
  const StatusInputs: seq<Variable> := [
    Variable(0x2000, false, false, [ReadStatusRegister], "", 0.0, "equipment_internal_over_temperature", Some(Lookup([Str("Normal"), Str("Over temperature")], Whole))),
    Variable(0x200C, false, false, [ReadStatusRegister], "", 0.0, "day_or_night", Some(Lookup([Str("Day"), Str("Night")], Whole)))
  ]

  /** Setting ranges and counters read with code 0x04, 0x3015..0x3032. */
  const RatedSettingRanges: seq<Variable> := [
    Variable(0x3015, false, false, [ReadMemory], "V", 100.0, "lvd_min_setting_value", None),
    Variable(0x3016, false, false, [ReadMemory], "V", 100.0, "lvd_max_setting_value", None),
    Variable(0x3017, false, false, [ReadMemory], "V", 100.0, "lvd_default_setting_value", None),
    Variable(0x3018, false, false, [ReadMemory], "V", 100.0, "lvr_min_setting_value", None),
    Variable(0x3019, false, false, [ReadMemory], "V", 100.0, "lvr_max_setting_value", None),
    Variable(0x301A, false, false, [ReadMemory], "V", 100.0, "lvr_default_setting_value", None),
    Variable(0x301B, false, false, [ReadMemory], "V", 100.0, "cvt_min_setting_value", None),
    Variable(0x301C, false, false, [ReadMemory], "V", 100.0, "cvt_max_setting_value", None),
    Variable(0x301D, false, false, [ReadMemory], "V", 100.0, "cvt_default_setting_value", None),
    Variable(0x301E, false, false, [ReadMemory], "V", 100.0, "cvr_min_setting_value", None),
    Variable(0x301F, false, false, [ReadMemory], "V", 100.0, "cvr_max_setting_value", None),
    Variable(0x3020, false, false, [ReadMemory], "V", 100.0, "cvr_default_setting_value", None),
    Variable(0x3021, false, false, [ReadMemory], "V", 100.0, "day_night_threshold_voltage_min", None),
    Variable(0x3022, false, false, [ReadMemory], "V", 100.0, "day_night_threshold_voltage_max", None),
    Variable(0x3023, false, false, [ReadMemory], "V", 100.0, "day_night_threshold_voltage_default", None),
    Variable(0x3024, false, false, [ReadMemory], "V", 100.0, "dimming_voltage_min", None),
    Variable(0x3025, false, false, [ReadMemory], "V", 100.0, "dimming_voltage_max", None),
    Variable(0x3026, false, false, [ReadMemory], "V", 100.0, "dimming_voltage_default", None),
    Variable(0x3027, false, false, [ReadMemory], "A", 100.0, "load_current_min", None),
    Variable(0x3028, false, false, [ReadMemory], "A", 100.0, "load_current_max", None),
    Variable(0x3029, false, false, [ReadMemory], "V", 100.0, "cvt_cvr_max_dropout_voltage", None),
    Variable(0x302A, false, false, [ReadMemory], "V", 100.0, "cvt_cvr_min_dropout_voltage", None),
    Variable(0x302B, false, false, [ReadMemory], "V", 100.0, "lvd_lvr_min_dropout_voltage", None),
    Variable(0x302C, false, false, [ReadMemory], "V", 100.0, "min_allow_dropout_voltage", None),
    Variable(0x3030, false, false, [ReadMemory], "", 0.0, "equipment_id", None),
    Variable(0x3031, false, false, [ReadMemory], "", 0.0, "run_days", None),
    Variable(0x3032, false, false, [ReadMemory], "V", 100.0, "battery_voltage_level", None)
  ]

  /** Real-time readings read with code 0x04, 0x3036..0x30A2. */
  const RealTimeData: seq<Variable> := [
    Variable(0x3036, false, false, [ReadMemory], "\U{2103}", 100.0, "environment_temperature", None),
    Variable(0x3037, false, false, [ReadMemory], "\U{2103}", 100.0, "device_built_in_temperature", None),
    Variable(0x3038, false, false, [ReadMemory], "", 0.0, "battery_empty_times", None),
    Variable(0x3039, false, false, [ReadMemory], "", 0.0, "battery_full_times", None),
    Variable(0x303A, false, false, [ReadMemory], "", 0.0, "over_voltage_protection_times", None),
    Variable(0x303B, false, false, [ReadMemory], "", 0.0, "over_current_protection_times", None),
    Variable(0x303C, false, false, [ReadMemory], "", 0.0, "short_circuit_protection_times", None),
    Variable(0x303D, false, false, [ReadMemory], "", 0.0, "open_circuit_protection_times", None),
    Variable(0x303E, false, false, [ReadMemory], "", 0.0, "hardware_protection_times", None),
    Variable(0x303F, false, false, [ReadMemory], "", 0.0, "charge_over_temperature_protection_times", None),
    Variable(0x3040, false, false, [ReadMemory], "", 0.0, "discharge_over_temperature_protection_times", None),
    Variable(0x3045, false, false, [ReadMemory], "%", 1.0, "battery_percentage", None),
    Variable(0x3046, false, false, [ReadMemory], "V", 100.0, "battery_voltage", None),
    Variable(0x3047, false, true, [ReadMemory], "A", 100.0, "battery_current", None),
    Variable(0x3048, true, true, [ReadMemory], "W", 100.0, "battery_power", None),
    Variable(0x304A, false, false, [ReadMemory], "V", 100.0, "load_voltage", None),
    Variable(0x304B, false, false, [ReadMemory], "A", 100.0, "load_current", None),
    Variable(0x304C, true, false, [ReadMemory], "W", 100.0, "load_power", None),
    Variable(0x304E, false, false, [ReadMemory], "V", 100.0, "solar_panel_voltage", None),
    Variable(0x304F, false, false, [ReadMemory], "A", 100.0, "solar_panel_current", None),
    Variable(0x3050, true, false, [ReadMemory], "W", 100.0, "solar_panel_power", None),
    Variable(0x3052, false, false, [ReadMemory], "kWh", 100.0, "solar_panel_daily_energy", None),
    Variable(0x3053, true, false, [ReadMemory], "kWh", 100.0, "solar_panel_total_energy", None),
    Variable(0x3055, true, false, [ReadMemory], "kWh", 100.0, "load_daily_energy", None),
    Variable(0x3056, true, false, [ReadMemory], "kWh", 100.0, "load_total_energy", None),
    Variable(0x3058, false, false, [ReadMemory], "Min", 0.0, "total_light_time_during_the_day", None),
    Variable(0x309D, false, false, [ReadMemory], "", 0.0, "run_days", None),
    Variable(0x30A0, false, false, [ReadMemory], "V", 100.0, "battery_voltage", None),
    Variable(0x30A1, false, true, [ReadMemory], "A", 100.0, "battery_current", None),
    Variable(0x30A2, false, false, [ReadMemory], "\U{2103}", 100.0, "environment_temperature", None)
  ]

  /** Historical readings read with code 0x04, 0x30A6..0x316C. */
  const HistoricalData: seq<Variable> := [
    Variable(0x30A6, false, false, [ReadMemory], "", 0.0, "battery_empty_times", None),
    Variable(0x30A7, false, false, [ReadMemory], "", 0.0, "battery_full_times", None),
    Variable(0x30A8, false, false, [ReadMemory], "V", 100.0, "battery_daily_voltage_maximum", None),
    Variable(0x30A9, false, false, [ReadMemory], "V", 100.0, "battery_daily_voltage_minimum", None),
    Variable(0x3125, false, false, [ReadMemory], "V", 100.0, "load_voltage", None),
    Variable(0x3126, false, false, [ReadMemory], "A", 100.0, "load_current", None),
    Variable(0x3127, true, false, [ReadMemory], "W", 100.0, "load_power", None),
    Variable(0x3129, false, false, [ReadMemory], "kWh", 100.0, "load_daily_energy", None),
    Variable(0x312E, true, false, [ReadMemory], "kWh", 100.0, "load_total_energy", None),
    Variable(0x316C, false, false, [ReadMemory], "", 0.0, "run_days", None)
  ]

  /** Factory (rated) settings read with code 0x04, 0x3000..0x300A. */
  const FactorySettings: seq<Variable> := [
    Variable(0x3000, false, false, [ReadMemory], "V", 100.0, "solar_panel_rated_voltage", None),
    Variable(0x3001, false, false, [ReadMemory], "A", 100.0, "solar_panel_rated_current", None),
    Variable(0x3002, true, false, [ReadMemory], "W", 100.0, "solar_panel_rated_power", None),
    Variable(0x3004, false, false, [ReadMemory], "V", 100.0, "battery_rated_voltage", None),
    Variable(0x3005, false, false, [ReadMemory], "A", 100.0, "battery_rated_current", None),
    Variable(0x3006, true, false, [ReadMemory], "W", 100.0, "battery_rated_power", None),
    Variable(0x3008, false, false, [ReadMemory], "V", 100.0, "load_rated_voltage", None),
    Variable(0x3009, false, false, [ReadMemory], "A", 100.0, "load_rated_current", None),
    Variable(0x300A, true, false, [ReadMemory], "W", 100.0, "load_rated_power", None)
  ]

  /** Setting ranges read with code 0x03, 0x8FF4..0x900C. */
  const ParameterRanges: seq<Variable> := [
    Variable(0x8FF4, false, false, [ReadParameter], "V", 100.0, "lvd_min_setting_value", None),
    Variable(0x8FF5, false, false, [ReadParameter], "V", 100.0, "lvd_max_setting_value", None),
    Variable(0x8FF6, false, false, [ReadParameter], "V", 100.0, "lvd_default_setting_value", None),
    Variable(0x8FF7, false, false, [ReadParameter], "V", 100.0, "lvr_min_setting_value", None),
    Variable(0x8FF8, false, false, [ReadParameter], "V", 100.0, "lvr_max_setting_value", None),
    Variable(0x8FF9, false, false, [ReadParameter], "V", 100.0, "lvr_default_setting_value", None),
    Variable(0x8FFA, false, false, [ReadParameter], "V", 100.0, "cvt_min_setting_value", None),
    Variable(0x8FFB, false, false, [ReadParameter], "V", 100.0, "cvt_max_setting_value", None),
    Variable(0x8FFC, false, false, [ReadParameter], "V", 100.0, "cvt_default_setting_value", None),
    Variable(0x8FFD, false, false, [ReadParameter], "V", 100.0, "cvr_min_setting_value", None),
    Variable(0x8FFE, false, false, [ReadParameter], "V", 100.0, "cvr_max_setting_value", None),
    Variable(0x8FFF, false, false, [ReadParameter], "V", 100.0, "cvr_default_setting_value", None),
    Variable(0x9000, false, false, [ReadParameter], "V", 100.0, "day_night_threshold_voltage_min", None),
    Variable(0x9001, false, false, [ReadParameter], "V", 100.0, "day_night_threshold_voltage_max", None),
    Variable(0x9002, false, false, [ReadParameter], "V", 100.0, "day_night_threshold_voltage_default", None),
    Variable(0x9003, false, false, [ReadParameter], "V", 100.0, "dimming_voltage_min", None),
    Variable(0x9004, false, false, [ReadParameter], "V", 100.0, "dimming_voltage_max", None),
    Variable(0x9005, false, false, [ReadParameter], "V", 100.0, "dimming_voltage_default", None),
    Variable(0x9006, false, false, [ReadParameter], "A", 100.0, "load_current_min", None),
    Variable(0x9007, false, false, [ReadParameter], "A", 100.0, "load_current_max", None),
    Variable(0x9008, false, false, [ReadParameter], "V", 100.0, "battery_voltage_level", None),
    Variable(0x9009, false, false, [ReadParameter], "V", 100.0, "cvt_cvr_max_dropout_voltage", None),
    Variable(0x900A, false, false, [ReadParameter], "V", 100.0, "cvt_cvr_min_dropout_voltage", None),
    Variable(0x900B, false, false, [ReadParameter], "V", 100.0, "lvd_lvr_min_dropout_voltage", None),
    Variable(0x900C, false, false, [ReadParameter], "V", 100.0, "min_allow_dropout_voltage", None)
  ]

  /** Settable parameters, codes 0x03, 0x06 and 0x10: clock, communication and
      battery settings, 0x9017..0x902A. */
  const BatterySettings: seq<Variable> := [
    Variable(0x9017, false, false, ParameterCodes, "ss", 0.0, "real_time_clock_second", None),
    Variable(0x9018, false, false, ParameterCodes, "mm", 0.0, "real_time_clock_minute", None),
    Variable(0x9019, false, false, ParameterCodes, "hh", 0.0, "real_time_clock_hour", None),
    Variable(0x901A, false, false, ParameterCodes, "dd", 0.0, "real_time_clock_day", None),
    Variable(0x901B, false, false, ParameterCodes, "MM", 0.0, "real_time_clock_month", None),
    Variable(0x901C, false, false, ParameterCodes, "yy", 0.0, "real_time_clock_year", None),
    Variable(0x901D, false, false, ParameterCodes, "", 0.0, "baud_rate", Some(Lookup([Int(4800), Int(9600), Int(19200), Int(57600), Int(115200)], Field(0, 4)))),
    Variable(0x901E, false, false, ParameterCodes, "s", 0.0, "backlight_time", None),
    Variable(0x901F, false, false, ParameterCodes, "", 0.0, "device_password", Some(Password)),
    Variable(0x9020, false, false, ParameterCodes, "", 0.0, "slave_id", None),
    Variable(0x9021, false, false, ParameterCodes, "", 0.0, "battery_type", Some(Lookup([Str("Lithium"), Str("Liquid"), Str("GEL"), Str("AGM")], Field(0, 4)))),
    Variable(0x9022, false, false, ParameterCodes, "V", 100.0, "low_voltage_protection_voltage", None),
    Variable(0x9023, false, false, ParameterCodes, "V", 100.0, "low_voltage_recovery_voltage", None),
    Variable(0x9024, false, false, ParameterCodes, "V", 100.0, "boost_voltage", None),
    Variable(0x9025, false, false, ParameterCodes, "V", 100.0, "equalizing_voltage", None),
    Variable(0x9026, false, false, ParameterCodes, "V", 100.0, "float_voltage", None),
    Variable(0x9027, false, false, ParameterCodes, "", 0.0, "system_rated_voltage_level", Some(Lookup([Str("Auto"), Str("12V"), Str("24V"), Str("36V"), Str("48V"), Str("60V"), Str("110V"), Str("120V"), Str("220V"), Str("240V")], Whole))),
    Variable(0x9028, false, false, ParameterCodes, "V", 100.0, "charge_target_voltage_for_lithium", None),
    Variable(0x9029, false, false, ParameterCodes, "V", 100.0, "charge_recovery_voltage_for_lithium", None),
    Variable(0x902A, false, false, ParameterCodes, "", 0.0, "charging_at_zero_celsius", Some(Lookup([Str("Normal charging"), Str("No charging"), Str("Slow charging")], Field(0, 4))))
  ]

  /** Settable parameters: load mode and timer settings, 0x902B..0x903B. */
  const LoadTimerSettings: seq<Variable> := [
    Variable(0x902B, false, false, ParameterCodes, "", 0.0, "mt_series_load_mode", Some(Lookup(LoadModeLabels, Whole))),
    Variable(0x902C, false, false, ParameterCodes, "", 0.0, "mt_series_manual_control_default", Some(Lookup([Str("On"), Str("Off")], Whole))),
    Variable(0x902D, false, false, ParameterCodes, "Min", 0.0, "mt_series_timing_period_1", Some(TimingPeriod)),
    Variable(0x902E, false, false, ParameterCodes, "", 0.0, "mt_series_timing_period_2", Some(TimingPeriod)),
    Variable(0x902F, false, false, ParameterCodes, "sec", 0.0, "timed_start_time_1_seconds", None),
    Variable(0x9030, false, false, ParameterCodes, "Min", 0.0, "timed_start_time_1_minutes", None),
    Variable(0x9031, false, false, ParameterCodes, "hour", 0.0, "timed_start_time_1_hours", None),
    Variable(0x9032, false, false, ParameterCodes, "sec", 0.0, "timed_off_time_1_seconds", None),
    Variable(0x9033, false, false, ParameterCodes, "Min", 0.0, "timed_off_time_1_minutes", None),
    Variable(0x9034, false, false, ParameterCodes, "hour", 0.0, "timed_off_time_1_hours", None),
    Variable(0x9035, false, false, ParameterCodes, "sec", 0.0, "timed_start_time_2_seconds", None),
    Variable(0x9036, false, false, ParameterCodes, "Min", 0.0, "timed_start_time_2_minutes", None),
    Variable(0x9037, false, false, ParameterCodes, "hour", 0.0, "timed_start_time_2_hours", None),
    Variable(0x9038, false, false, ParameterCodes, "sec", 0.0, "timed_off_time_2_seconds", None),
    Variable(0x9039, false, false, ParameterCodes, "Min", 0.0, "timed_off_time_2_minutes", None),
    Variable(0x903A, false, false, ParameterCodes, "hour", 0.0, "timed_off_time_2_hours", None),
    Variable(0x903B, false, false, ParameterCodes, "", 0.0, "time_control_period_selection", Some(Lookup([Str("1 period"), Str("2 periods")], Whole)))
  ]

  /** Settable parameters: lighting and dimming settings, 0x903C..0x906A. */
  const LightingSettings: seq<Variable> := [
    Variable(0x903C, false, false, ParameterCodes, "V", 100.0, "light_controlled_dark_voltage", None),
    Variable(0x903D, false, false, ParameterCodes, "Min", 0.0, "day_night_delay_time", None),
    Variable(0x903E, false, false, ParameterCodes, "%", 0.1, "dc_series_timing_control_time_1_dimming", None),
    Variable(0x903F, false, false, ParameterCodes, "%", 0.1, "dc_series_timing_control_time_2_dimming", None),
    Variable(0x9040, false, false, ParameterCodes, "Min", 1.0 / 30.0, "dc_series_time_1", None),
    Variable(0x9041, false, false, ParameterCodes, "%", 0.1, "dc_series_time_1_dimming", None),
    Variable(0x9042, false, false, ParameterCodes, "Min", 1.0 / 30.0, "dc_series_time_2", None),
    Variable(0x9043, false, false, ParameterCodes, "%", 0.1, "dc_series_time_2_dimming", None),
    Variable(0x9044, false, false, ParameterCodes, "Sec", 1.0 / 30.0, "dc_series_time_3", None),
    Variable(0x9045, false, false, ParameterCodes, "%", 0.1, "dc_series_time_3_dimming", None),
    Variable(0x9046, false, false, ParameterCodes, "Sec", 1.0 / 30.0, "dc_series_time_4", None),
    Variable(0x9047, false, false, ParameterCodes, "%", 0.1, "dc_series_time_4_dimming", None),
    Variable(0x9048, false, false, ParameterCodes, "Sec", 1.0 / 30.0, "dc_series_time_5", None),
    Variable(0x9049, false, false, ParameterCodes, "%", 0.1, "dc_series_time_5_dimming", None),
    Variable(0x904A, false, false, ParameterCodes, "A", 100.0, "dc_series_load_current_limit", None),
    Variable(0x904B, false, false, ParameterCodes, "", 0.0, "dc_series_auto_dimming", Some(Lookup([Str("Auto dimming"), Str("365 mode"), Str("No dimming"), Str("No dimming")], Field(0, 4)))),
    Variable(0x904C, false, false, ParameterCodes, "V", 100.0, "dc_series_dimming_voltage", None),
    Variable(0x904D, false, false, ParameterCodes, "%", 0.0, "dc_series_dimming_percentage", None),
    Variable(0x904E, false, false, ParameterCodes, "Sec", 0.1, "sensing_delay_off_time", None),
    Variable(0x904F, false, false, ParameterCodes, "%", 0.1, "infrared_dimming_when_no_people", None),
    Variable(0x9052, false, false, ParameterCodes, "", 0.0, "light_controlled_switch", Some(Lookup([Str("Off"), Str("On")], Whole))),
    Variable(0x9053, false, false, ParameterCodes, "V", 100.0, "light_controlled_daybreak_voltage", None),
    Variable(0x9054, false, false, ParameterCodes, "%", 0.0, "dimming_percentage", None),
    Variable(0x9069, false, false, ParameterCodes, "A", 100.0, "maximum_charging_current_setting", None),
    Variable(0x906A, false, false, ParameterCodes, "\U{2103}", 100.0, "over_temperature_protection", None)
  ]

  /** Switches written with code 0x05, 0x0000..0x0009. */
  const Switches: seq<Variable> := [
    Variable(0x0000, false, false, [WriteStatusRegister], "", 0.0, "manual_control_switch", Some(Lookup([Str("Off"), Str("On")], Whole))),
    Variable(0x0001, false, false, [WriteStatusRegister], "", 0.0, "test_key_trigger", Some(Lookup([Str("Off"), Str("On")], Whole))),
    Variable(0x0002, false, false, [WriteStatusRegister], "", 0.0, "dc_series_timing_control_mode_switch", Some(Lookup([Str("Off"), Str("On")], Whole))),
    Variable(0x0003, false, false, [WriteStatusRegister], "", 0.0, "manual_control_charging_switch", Some(Lookup([Str("Off"), Str("On")], Whole))),
    Variable(0x0004, false, false, [WriteStatusRegister], "", 0.0, "manual_control_switch", Some(Lookup([Str("Off"), Str("On")], Whole))),
    Variable(0x0005, false, false, [WriteStatusRegister], "", 0.0, "restore_system_default_values", Some(Lookup([Str("No"), Str("Yes")], Whole))),
    Variable(0x0006, false, false, [WriteStatusRegister], "", 0.0, "clear_device_statistics", Some(Lookup([Str(""), Str("Clear")], Whole))),
    Variable(0x0007, false, false, [WriteStatusRegister], "", 0.0, "clear_counters", Some(Lookup([Str(""), Str("Clear")], Whole))),
    Variable(0x0008, false, false, [WriteStatusRegister], "", 0.0, "Clear_charge_discharge_ah", Some(Lookup([Str(""), Str("Clear")], Whole))),
    Variable(0x0009, false, false, [WriteStatusRegister], "", 0.0, "clear_all", Some(Lookup([Str(""), Str("Clear")], Whole)))
  ]

  /** The whole registry, in the original's order. */
  const Table: seq<Variable> :=
    StatusInputs
    + FunctionalStatusRegisters([ReadMemory], 0x3011)
    + RatedSettingRanges
    + StatusRegisters(0x3033)
    + RealTimeData
    + StatusRegisters(0x30A3)
    + HistoricalData
    + FactorySettings
    + FunctionalStatusRegisters([ReadParameter], 0x8FF0)
    + ParameterRanges
    + BatterySettings
    + LoadTimerSettings
    + LightingSettings
    + Switches
}
