/**
 * The driver record `qc_lc29_driver_s`, its defaults from
 * `lc29_driver_init`, and every setter and getter. Each exchange is the
 * shared command stage (and, for a getter, the query stage) of module
 * Exchange; the fields change only once the module has acknowledged the
 * command, and then only the fields the C function writes.
 */
module Driver {
  import opened CLib
  import opened Protocol
  import opened Sentence
  import opened Parse
  import opened Transport
  import opened Exchange

  // ---------------------------------------------------------------
  // Settings held by the driver
  // ---------------------------------------------------------------

  /** One entry of `qc_lc29x_nmea_output_rate_s`; the rate is a `uint8_t`. */
  datatype NmeaRate = NmeaRate(nmeaId: int, outputRate: uint8)

  /** `qc_lc29x_gnss_search_mode_s`. */
  datatype SearchMode = SearchMode(gpsEnabled: bool, glonassEnabled: bool, galileoEnabled: bool,
                                   beidouEnabled: bool, qzssEnabled: bool, reserved: bool)

  /** `qc_lc29x_pqtm_output_rate_t`. */
  datatype PqtmRate = PqtmRate(messageId: int, enabled: bool, fixRate: int32)

  /** `qc_lc29x_pqtm_output_rate_settings_t`. */
  datatype PqtmRates = PqtmRates(ins: PqtmRate, imu: PqtmRate, gps: PqtmRate)

  /** One entry of `qc_lc29x_pqtm_custom_message_settings_t`. */
  datatype CustomMessage = CustomMessage(messageId: int, enabled: bool)

  /**
   * The value of every field of the driver record. The six NMEA rates are
   * indexed by sentence id (GGA, GLL, GSA, GSV, RMC, VTG) and the five
   * custom messages by message id (vehicle info, sensor output, DR
   * calibration, IMU type, vehicle motion), the order of the C structs.
   */
  datatype DriverState = DriverState(
    fixRate: int32,
    minSnr: uint16,
    nmeaOutputRate: seq<NmeaRate>,
    gnssSearchMode: SearchMode,
    staticSearchMode: uint16,
    satElevationMask: int16,
    aitEnabled: bool,
    navMode: int32,
    decimalAccuracy: int32,
    nmeaOutputMode: int32,
    dualBandEnable: bool,
    staticSpdThrshld: uint8,
    gnssJammingDetectEnable: bool,
    dgpsMode: int32,
    sbasEnable: bool,
    easyEnable: bool,
    easyStatus: int32,
    lowPwrRtcClk: uint32,
    sleepMode: int32,
    ppsPinSetting: int32,
    baudRate: uint16,
    drRtkOutputRate: PqtmRates,
    drRtkCustomMessageSettings: seq<CustomMessage>)

  const NmeaSentenceCount: nat := 6
  const CustomMessageCount: nat := 5

  /**
   * The id of each sub-record matches its place. (The C width of every
   * field is its type.)
   */
  predicate WellTyped(st: DriverState) {
    && NmeaRatesWellTyped(st.nmeaOutputRate)
    && PqtmRatesWellTyped(st.drRtkOutputRate)
    && CustomMessagesWellTyped(st.drRtkCustomMessageSettings)
  }

  /** The INS, IMU and GPS settings carry their own message ids. */
  predicate PqtmRatesWellTyped(p: PqtmRates) {
    p.ins.messageId == PqtmIns && p.imu.messageId == PqtmImu && p.gps.messageId == PqtmGps
  }

  /** One rate per NMEA sentence, in id order. */
  predicate NmeaRatesWellTyped(rates: seq<NmeaRate>) {
    && |rates| == NmeaSentenceCount
    && forall i :: 0 <= i < NmeaSentenceCount ==> rates[i].nmeaId == i
  }

  /** One entry per custom message, in id order. */
  predicate CustomMessagesWellTyped(msgs: seq<CustomMessage>) {
    && |msgs| == CustomMessageCount
    && forall i :: 0 <= i < CustomMessageCount ==> msgs[i].messageId == i
  }

  /** The defaults `lc29_driver_init` writes. */
  function DefaultState(): (st: DriverState)
    ensures WellTyped(st)
    ensures st.fixRate == OneHz && st.minSnr == 9 && st.satElevationMask == 5 && st.navMode == NormalMode
    ensures forall i :: 0 <= i < NmeaSentenceCount ==> st.nmeaOutputRate[i].outputRate == 1
    ensures forall i :: 0 <= i < CustomMessageCount ==>
      st.drRtkCustomMessageSettings[i].enabled == (i == PqtmImuType)
    ensures st.baudRate == ToU16(BaudRate115200)
  {
    DriverState(
      fixRate := OneHz,
      minSnr := 9,
      nmeaOutputRate := [NmeaRate(NmeaSenGga, 1), NmeaRate(NmeaSenGll, 1), NmeaRate(NmeaSenGsa, 1),
                         NmeaRate(NmeaSenGsv, 1), NmeaRate(NmeaSenRmc, 1), NmeaRate(NmeaSenVtg, 1)],
      gnssSearchMode := SearchMode(true, true, true, true, true, false),
      staticSearchMode := 0,
      satElevationMask := 5,
      aitEnabled := true,
      navMode := NormalMode,
      decimalAccuracy := LatLon6Alt3,
      nmeaOutputMode := EnableAsciiNmea410,
      dualBandEnable := true,
      staticSpdThrshld := 0,
      gnssJammingDetectEnable := true,
      dgpsMode := SbasEnabled,
      sbasEnable := true,
      easyEnable := true,
      easyStatus := NotInitialized,
      lowPwrRtcClk := 0,
      sleepMode := DisablePeriodicMode,
      ppsPinSetting := FixOnly3D,
      baudRate := 49664,
      drRtkOutputRate := PqtmRates(PqtmRate(PqtmIns, false, 1), PqtmRate(PqtmImu, false, 1), PqtmRate(PqtmGps, false, 1)),
      drRtkCustomMessageSettings := [CustomMessage(PqtmVehMsg, false), CustomMessage(PqtmSenMsg, false),
                                     CustomMessage(PqtmDrCal, false), CustomMessage(PqtmImuType, true),
                                     CustomMessage(PqtmVehMot, false)])
  }

  /** The `switch` on a sentence id: its entry gets the new rate, any other id changes nothing. */
  function WithNmeaRate(rates: seq<NmeaRate>, id: int, rate: uint8): (rs: seq<NmeaRate>)
    requires |rates| == NmeaSentenceCount
    ensures |rs| == NmeaSentenceCount
    ensures NmeaRatesWellTyped(rates) ==> NmeaRatesWellTyped(rs)
    ensures forall i :: 0 <= i < NmeaSentenceCount && i != id ==> rs[i] == rates[i]
    ensures 0 <= id < NmeaSentenceCount ==> rs[id] == rates[id].(outputRate := rate)
    ensures !(0 <= id < NmeaSentenceCount) ==> rs == rates
  {
    if 0 <= id < NmeaSentenceCount then rates[id := rates[id].(outputRate := rate)] else rates
  }

  /** The custom message `id` with its output state replaced. */
  function WithCustomMessage(msgs: seq<CustomMessage>, id: nat, enabled: bool): (ms: seq<CustomMessage>)
    requires id < |msgs|
    ensures |ms| == |msgs| && ms[id].enabled == enabled && ms[id].messageId == msgs[id].messageId
    ensures CustomMessagesWellTyped(msgs) ==> CustomMessagesWellTyped(ms)
    ensures forall i :: 0 <= i < |msgs| && i != id ==> ms[i] == msgs[i]
  {
    msgs[id := msgs[id].(enabled := enabled)]
  }

  // ---------------------------------------------------------------
  // Arguments the setters send
  // ---------------------------------------------------------------

  /**
   * A `bool` parameter is sent as one decimal digit that the module reads
   * back, with `atoi` and a test against 0, as the flag.
   */
  function BoolArg(b: bool): (t: string)
    ensures |t| == 1 && '0' <= t[0] <= '9'
    ensures Atoi(t) != 0 <==> b
  {
    AtoiOfDigit(if b then 1 else 0);
    [('0' as int + (if b then 1 else 0)) as char]
  }

  /** The argument `set_navigation_mode` sends; the reserved modes are refused. */
  function NavModeArg(mode: int): (t: Option<string>)
    ensures t.Some? <==> mode in {NormalMode, FitnessMode, StationaryMode, SwimmingMode}
    ensures t.Some? ==> |t.value| == 1
  {
    if mode == NormalMode then Some("0")
    else if mode == FitnessMode then Some("1")
    else if mode == StationaryMode then Some("4")
    else if mode == SwimmingMode then Some("7")
    else None
  }

  /** The argument `set_nmea_decimal_precision` sends for each precision. */
  function DecimalPrecisionArg(accuracy: int): (t: Option<string>)
    ensures t.Some? <==> LatLon4Alt1 <= accuracy <= LatLon7Alt3
    ensures t.Some? ==> |t.value| == 1
  {
    if accuracy == LatLon4Alt1 then Some("0")
    else if accuracy == LatLon5Alt2 then Some("1")
    else if accuracy == LatLon6Alt3 then Some("2")
    else if accuracy == LatLon7Alt3 then Some("3")
    else None
  }

  /** The argument `set_nmea_output_mode` sends for each output mode. */
  function NmeaOutputModeArg(mode: int): (t: Option<string>)
    ensures t.Some? <==> DisableNmeaOutput <= mode <= EnableAsciiNmea301
    ensures t.Some? ==> |t.value| == 1
  {
    if mode == DisableNmeaOutput then Some("0")
    else if mode == EnableAsciiNmea410 then Some("1")
    else if mode == EnableAsciiNmea301 then Some("2")
    else None
  }

  /** The six arguments of `set_gnss_search_mode`: one flag per constellation and a reserved 0. */
  function SearchModeArgs(m: SearchMode): (args: seq<string>)
    ensures |args| == 6 && forall i :: 0 <= i < 6 ==> |args[i]| == 1
    ensures (Atoi(args[0]) != 0) == m.gpsEnabled && (Atoi(args[1]) != 0) == m.glonassEnabled
    ensures (Atoi(args[2]) != 0) == m.galileoEnabled && (Atoi(args[3]) != 0) == m.beidouEnabled
    ensures (Atoi(args[4]) != 0) == m.qzssEnabled && Atoi(args[5]) == 0
  {
    AtoiOfDigit(0);
    assert "0" == [('0' as int + 0) as char];
    [BoolArg(m.gpsEnabled), BoolArg(m.glonassEnabled), BoolArg(m.galileoEnabled),
     BoolArg(m.beidouEnabled), BoolArg(m.qzssEnabled), "0"]
  }

  /** The five arguments of the $PQTMCFGEINSMSG command: the kind flag, three output flags and the rate. */
  function PqtmArgs(kind: bool, insEnabled: bool, imuEnabled: bool, gpsEnabled: bool, rate: string): (args: seq<string>)
    ensures |args| == 5 && args[4] == rate && forall i :: 0 <= i < 4 ==> |args[i]| == 1
    ensures (Atoi(args[0]) != 0) == kind && (Atoi(args[1]) != 0) == insEnabled
    ensures (Atoi(args[2]) != 0) == imuEnabled && (Atoi(args[3]) != 0) == gpsEnabled
  {
    [BoolArg(kind), BoolArg(insEnabled), BoolArg(imuEnabled), BoolArg(gpsEnabled), rate]
  }

  /** A one-digit argument is read back by `atoi` as its digit. */
  lemma AtoiOfDigit(n: nat)
    requires n < 10
    ensures Atoi([('0' as int + n) as char]) == n
  {
    AtoiOfDecimal(n, "");
    assert IntToDecimal(n) + "" == [('0' as int + n) as char];
  }

  /** Every accepted navigation mode is sent as the digits of its enumeration value. */
  lemma NavModeArgRoundTrip(mode: int)
    requires NavModeArg(mode).Some?
    ensures Atoi(NavModeArg(mode).value) == mode
  {
    AtoiOfDigit(mode);
  }

  /** Every accepted precision is sent as the digits of its enumeration value. */
  lemma DecimalPrecisionArgRoundTrip(accuracy: int)
    requires DecimalPrecisionArg(accuracy).Some?
    ensures Atoi(DecimalPrecisionArg(accuracy).value) == accuracy
  {
    AtoiOfDigit(accuracy);
  }

  /** Every accepted output mode is sent as the digits of its enumeration value. */
  lemma NmeaOutputModeArgRoundTrip(mode: int)
    requires NmeaOutputModeArg(mode).Some?
    ensures Atoi(NmeaOutputModeArg(mode).value) == mode
  {
    AtoiOfDigit(mode);
  }

  /** The argument check of `set_min_snr`: 9 to 49 after truncation to `uint16_t`. */
  const MinSnrLow: int := 9
  const MinSnrHigh: int := 49
  /** The largest output rate `set_nmea_output_rate` accepts. */
  const MaxNmeaOutputRate: int := 20
  const MaxNmeaRateId: int := 5
  /** The largest static speed threshold `set_static_threshold` accepts. */
  const MaxStaticThreshold: int := 20
  /** A wake-up time of `set_low_power_mode` is 0 or in 10 to 62208000 seconds. */
  const MinWakeupTime: int := 10
  const MaxWakeupTime: int := 62208000
  /** The PQTM GPS message rate is stored capped at 10. */
  const MaxPqtmGpsRate: int := 10
  /**
   * The response buffer of the $PQTM exchange. The driver declares 22
   * bytes, one short of the 22-character OK reply and its terminator; this
   * is the corrected size, as large as the query buffer, that the
   * dead-reckoning setters use here.
   */
  const DrAckBufferSize: nat := 50

  /** The command fits, with its terminator, in the 50-byte packet buffer. */
  predicate CommandFits(cmdId: string, args: seq<string>) {
    |PairCommand(cmdId, args)| < CmdBufferSize
  }

  lemma {:induction false} JoinArgsLength(args: seq<string>, w: nat)
    requires forall k :: 0 <= k < |args| ==> |args[k]| <= w
    ensures |JoinArgs(args)| <= |args| * (w + 1)
  {
    if |args| > 0 {
      JoinArgsLength(args[..|args| - 1], w);
    }
  }

  /** A command of up to six one-character arguments always fits the packet buffer. */
  lemma ShortCommandFits(cmdId: string, args: seq<string>)
    requires |cmdId| <= 15 && |args| <= 6
    requires forall k :: 0 <= k < |args| ==> |args[k]| <= 1
    ensures CommandFits(cmdId, args)
  {
    JoinArgsLength(args, 1);
  }

  /**
   * The dead-reckoning output rates after a configuration: the three flags
   * as given, the rate for INS and IMU, and the rate capped at 10 for GPS.
   */
  function PqtmConfigured(insEnabled: bool, imuEnabled: bool, gpsEnabled: bool, rate: int32): (p: PqtmRates)
    ensures p.ins == PqtmRate(PqtmIns, insEnabled, rate) && p.imu == PqtmRate(PqtmImu, imuEnabled, rate)
    ensures PqtmRatesWellTyped(p) && p.gps.enabled == gpsEnabled
    ensures p.gps.fixRate <= MaxPqtmGpsRate && (rate <= MaxPqtmGpsRate ==> p.gps.fixRate == rate)
    ensures rate > MaxPqtmGpsRate ==> p.gps.fixRate == MaxPqtmGpsRate
  {
    PqtmRates(PqtmRate(PqtmIns, insEnabled, rate), PqtmRate(PqtmImu, imuEnabled, rate),
              PqtmRate(PqtmGps, gpsEnabled, if rate > MaxPqtmGpsRate then MaxPqtmGpsRate else rate))
  }

  /** The `$PQTMCFGEINSMSG` exchange: a plain command for a set, a command followed by a query read for a get. */
  function PqtmOutcome(kind: bool, args: seq<string>, s: Link): Outcome {
    if kind then Command(DrPqtmMessageConfigHeader, args, DrAckOk, s)
    else Query(DrPqtmMessageConfigHeader, args, DrAckOk, DrPqtmMessageConfigResponseHeader,
               DrQueryPqtmConfigResponseArgs, s)
  }

  /** An empty response buffer never acknowledges a command. */
  lemma EmptyResponseRejected(commandId: int)
    ensures AckOf("", commandId) == CmdSendFail
  {
  }

  class Lc29Driver {
    var fixRate: int32
    var minSnr: uint16
    var nmeaOutputRate: seq<NmeaRate>
    var gnssSearchMode: SearchMode
    var staticSearchMode: uint16
    var satElevationMask: int16
    var aitEnabled: bool
    var navMode: int32
    var decimalAccuracy: int32
    var nmeaOutputMode: int32
    var dualBandEnable: bool
    var staticSpdThrshld: uint8
    var gnssJammingDetectEnable: bool
    var dgpsMode: int32
    var sbasEnable: bool
    var easyEnable: bool
    var easyStatus: int32
    var lowPwrRtcClk: uint32
    var sleepMode: int32
    var ppsPinSetting: int32
    var baudRate: uint16
    var drRtkOutputRate: PqtmRates
    var drRtkCustomMessageSettings: seq<CustomMessage>
    /** The write and read function pointers. */
    const transport: ScriptedTransport

    function State(): DriverState
      reads this
    {
      DriverState(fixRate, minSnr, nmeaOutputRate, gnssSearchMode, staticSearchMode, satElevationMask,
                  aitEnabled, navMode, decimalAccuracy, nmeaOutputMode, dualBandEnable, staticSpdThrshld,
                  gnssJammingDetectEnable, dgpsMode, sbasEnable, easyEnable, easyStatus, lowPwrRtcClk,
                  sleepMode, ppsPinSetting, baudRate, drRtkOutputRate, drRtkCustomMessageSettings)
    }

    predicate Valid()
      reads this
    {
      WellTyped(State())
    }

    /** `lc29_driver_init`: the defaults, and the transport callbacks. */
    constructor (transport: ScriptedTransport)
      ensures Valid() && State() == DefaultState() && this.transport == transport
    {
      var d := DefaultState();
      fixRate := d.fixRate;
      minSnr := d.minSnr;
      nmeaOutputRate := d.nmeaOutputRate;
      gnssSearchMode := d.gnssSearchMode;
      staticSearchMode := d.staticSearchMode;
      satElevationMask := d.satElevationMask;
      aitEnabled := d.aitEnabled;
      navMode := d.navMode;
      decimalAccuracy := d.decimalAccuracy;
      nmeaOutputMode := d.nmeaOutputMode;
      dualBandEnable := d.dualBandEnable;
      staticSpdThrshld := d.staticSpdThrshld;
      gnssJammingDetectEnable := d.gnssJammingDetectEnable;
      dgpsMode := d.dgpsMode;
      sbasEnable := d.sbasEnable;
      easyEnable := d.easyEnable;
      easyStatus := d.easyStatus;
      lowPwrRtcClk := d.lowPwrRtcClk;
      sleepMode := d.sleepMode;
      ppsPinSetting := d.ppsPinSetting;
      baudRate := d.baudRate;
      drRtkOutputRate := d.drRtkOutputRate;
      drRtkCustomMessageSettings := d.drRtkCustomMessageSettings;
      this.transport := transport;
    }

    // -------------------------------------------------------------
    // Setters
    // -------------------------------------------------------------

    /** `lc29_driver_set_fix_rate`: on an acknowledgement the fix rate becomes `atoi` of the argument. */
    method SetFixRate(rate: string) returns (r: int)
      requires Valid() && CommandFits(PairCommonSetFixRate, [rate])
      requires RepliesFit(transport.Script(), [AckBufferSize])
      modifies this, transport
      ensures Valid()
      ensures var e := Command(PairCommonSetFixRate, [rate], PairAckOf(AckIdSetFixRate), old(transport.Script()));
        && r == e.code && transport.Script() == e.link
        && State() == (if r == CmdSendSuccess then old(State()).(fixRate := Atoi(rate)) else old(State()))
    {
      var args := [rate];
      assert args[..1] == args;
      ghost var st := State();
      r := SendCommand(transport, 1, PairCommonSetFixRate, args, PairAckOf(AckIdSetFixRate), AckBufferSize);
      assert State() == st;
      if r != CmdSendSuccess {
        return;
      }
      fixRate := Atoi(rate);
      assert State() == st.(fixRate := Atoi(rate));
    }

    /** `lc29_driver_set_min_snr`: refuses a value outside 9..49 before writing anything. */
    method SetMinSnr(snr: string) returns (r: int)
      requires Valid() && CommandFits(PairCommonSetMinSnr, [snr])
      requires RepliesFit(transport.Script(), [AckBufferSize])
      modifies this, transport
      ensures Valid()
      ensures var v := ToU16(Atoi(snr));
        if v < MinSnrLow || v > MinSnrHigh then
          r == CmdInvalid && transport.Script() == old(transport.Script()) && State() == old(State())
        else
          var e := Command(PairCommonSetMinSnr, [snr], PairAckOf(AckIdSetMinSnr), old(transport.Script()));
          && r == e.code && transport.Script() == e.link
          && State() == (if r == CmdSendSuccess then old(State()).(minSnr := v) else old(State()))
    {
      ghost var st := State();
      var v := ToU16(Atoi(snr));
      if v < MinSnrLow || v > MinSnrHigh {
        return CmdInvalid;
      }
      var args := [snr];
      assert args[..1] == args;
      r := SendCommand(transport, 1, PairCommonSetMinSnr, args, PairAckOf(AckIdSetMinSnr), AckBufferSize);
      assert State() == st;
      if r != CmdSendSuccess {
        return;
      }
      minSnr := v;
      assert State() == st.(minSnr := v);
    }

    /**
     * `lc29_driver_set_nmea_output_rate`: refuses an id outside 0..5 or a
     * rate above 20, and on an acknowledgement changes only the rate of the
     * selected sentence.
     */
    method SetNmeaOutputRate(rateId: string, rate: string) returns (r: int)
      requires Valid() && CommandFits(PairCommonSetNmeaOutputRate, [rateId, rate])
      requires RepliesFit(transport.Script(), [AckBufferSize])
      modifies this, transport
      ensures Valid()
      ensures var id := Atoi(rateId);
        var v := ToU16(Atoi(rate));
        if id > MaxNmeaRateId || id < 0 || v > MaxNmeaOutputRate then
          r == CmdInvalid && transport.Script() == old(transport.Script()) && State() == old(State())
        else
          var e := Command(PairCommonSetNmeaOutputRate, [rateId, rate], PairAckOf(AckIdSetNmeaOutputRate),
                           old(transport.Script()));
          && r == e.code && transport.Script() == e.link
          && State() == (if r == CmdSendSuccess
                         then old(State()).(nmeaOutputRate := old(nmeaOutputRate)[id := NmeaRate(id, v)])
                         else old(State()))
    {
      var id := Atoi(rateId);
      if id > MaxNmeaRateId || id < 0 {
        return CmdInvalid;
      }
      var v := ToU16(Atoi(rate));
      if v > MaxNmeaOutputRate {
        return CmdInvalid;
      }
      var args := [rateId, rate];
      assert args[..2] == args;
      ghost var st := State();
      r := SendCommand(transport, 2, PairCommonSetNmeaOutputRate, args, PairAckOf(AckIdSetNmeaOutputRate), AckBufferSize);
      assert State() == st;
      if r != CmdSendSuccess {
        return;
      }
      nmeaOutputRate := WithNmeaRate(nmeaOutputRate, id, ToU8(v));
      assert State() == st.(nmeaOutputRate := WithNmeaRate(st.nmeaOutputRate, id, ToU8(v)));
    }

    /** `lc29_driver_set_gnss_search_mode`: sends one flag per constellation and a reserved 0. */
    method SetGnssSearchMode(mode: SearchMode) returns (r: int)
      requires Valid()
      requires RepliesFit(transport.Script(), [AckBufferSize])
      modifies this, transport
      ensures Valid()
      ensures var e := Command(PairCommonSetGnssSearchMode, SearchModeArgs(mode), PairAckOf(AckIdSetGnssSearchMode),
                               old(transport.Script()));
        && r == e.code && transport.Script() == e.link
        && State() == (if r == CmdSendSuccess then old(State()).(gnssSearchMode := mode.(reserved := false))
                       else old(State()))
    {
      var args := SearchModeArgs(mode);
      ShortCommandFits(PairCommonSetGnssSearchMode, args);
      assert args[..6] == args;
      ghost var st := State();
      r := SendCommand(transport, 6, PairCommonSetGnssSearchMode, args, PairAckOf(AckIdSetGnssSearchMode), AckBufferSize);
      assert State() == st;
      if r != CmdSendSuccess {
        return;
      }
      gnssSearchMode := mode.(reserved := false);
      assert State() == st.(gnssSearchMode := mode.(reserved := false));
    }

    /** `lc29_driver_set_static_threshold`: refuses a threshold above 20 before writing anything. */
    method SetStaticThreshold(threshold: string) returns (r: int)
      requires Valid() && CommandFits(PairCommonSetStaticThreshold, [threshold])
      requires RepliesFit(transport.Script(), [AckBufferSize])
      modifies this, transport
      ensures Valid()
      ensures var v := ToU16(Atoi(threshold));
        if v > MaxStaticThreshold then
          r == CmdInvalid && transport.Script() == old(transport.Script()) && State() == old(State())
        else
          var e := Command(PairCommonSetStaticThreshold, [threshold], PairAckOf(AckIdSetStaticThreshold),
                           old(transport.Script()));
          && r == e.code && transport.Script() == e.link
          && State() == (if r == CmdSendSuccess then old(State()).(staticSpdThrshld := v) else old(State()))
    {
      var v := ToU16(Atoi(threshold));
      if v > MaxStaticThreshold {
        return CmdInvalid;
      }
      var args := [threshold];
      assert args[..1] == args;
      ghost var st := State();
      r := SendCommand(transport, 1, PairCommonSetStaticThreshold, args, PairAckOf(AckIdSetStaticThreshold), AckBufferSize);
      assert State() == st;
      if r != CmdSendSuccess {
        return;
      }
      staticSpdThrshld := ToU8(v);
      assert State() == st.(staticSpdThrshld := ToU8(v));
    }

    /** `lc29_driver_set_navigation_mode`: the reserved modes are refused before writing anything. */
    method SetNavigationMode(mode: int32) returns (r: int)
      requires Valid()
      requires RepliesFit(transport.Script(), [AckBufferSize])
      modifies this, transport
      ensures Valid()
      ensures match NavModeArg(mode)
        case None => r == CmdInvalid && transport.Script() == old(transport.Script()) && State() == old(State())
        case Some(arg) =>
          var e := Command(PairCommonSetNavigationMode, [arg], PairAckOf(AckIdSetNavigationMode), old(transport.Script()));
          && r == e.code && transport.Script() == e.link
          && State() == (if r == CmdSendSuccess then old(State()).(navMode := mode) else old(State()))
    {
      var arg := NavModeArg(mode);
      if arg.None? {
        return CmdInvalid;
      }
      var args := [arg.value];
      ShortCommandFits(PairCommonSetNavigationMode, args);
      assert args[..1] == args;
      ghost var st := State();
      r := SendCommand(transport, 1, PairCommonSetNavigationMode, args, PairAckOf(AckIdSetNavigationMode), AckBufferSize);
      assert State() == st;
      if r != CmdSendSuccess {
        return;
      }
      navMode := mode;
      assert State() == st.(navMode := mode);
    }

    /**
     * `lc29_driver_set_nmea_decimal_precision` as the driver intends it:
     * the acknowledgement is read into the response buffer and parsed from
     * there, and on an acknowledgement the precision is stored.
     */
    method SetNmeaDecimalPrecision(accuracy: int32) returns (r: int)
      requires Valid()
      requires RepliesFit(transport.Script(), [AckBufferSize])
      modifies this, transport
      ensures Valid()
      ensures match DecimalPrecisionArg(accuracy)
        case None => r == CmdInvalid && transport.Script() == old(transport.Script()) && State() == old(State())
        case Some(arg) =>
          var e := Command(PairCommonSetNmeaPosDecimalPrecision, [arg], PairAckOf(AckIdSetDecimalPrecision),
                           old(transport.Script()));
          && r == e.code && transport.Script() == e.link
          && State() == (if r == CmdSendSuccess then old(State()).(decimalAccuracy := accuracy) else old(State()))
    {
      var arg := DecimalPrecisionArg(accuracy);
      if arg.None? {
        return CmdInvalid;
      }
      var args := [arg.value];
      ShortCommandFits(PairCommonSetNmeaPosDecimalPrecision, args);
      assert args[..1] == args;
      ghost var st := State();
      r := SendCommand(transport, 1, PairCommonSetNmeaPosDecimalPrecision, args, PairAckOf(AckIdSetDecimalPrecision),
                       AckBufferSize);
      assert State() == st;
      if r != CmdSendSuccess {
        return;
      }
      decimalAccuracy := accuracy;
      assert State() == st.(decimalAccuracy := accuracy);
    }

    /**
     * `lc29_driver_set_nmea_decimal_precision` as written: the
     * acknowledgement is read over the command in the 50-byte payload
     * buffer, but the parser is handed the untouched, empty response
     * buffer, so every exchange that gets that far ends in CMD_SEND_FAIL.
     * The branch that would store the precision is unreachable.
     */
    method SetNmeaDecimalPrecisionAsWritten(accuracy: int32) returns (r: int)
      requires RepliesFit(transport.Script(), [CmdBufferSize])
      modifies transport
      ensures DecimalPrecisionArg(accuracy).None? ==> r == CmdInvalid && transport.Script() == old(transport.Script())
      ensures DecimalPrecisionArg(accuracy).Some? ==>
        && r == CmdSendFail
        && transport.Script() ==
           Command(PairCommonSetNmeaPosDecimalPrecision, [DecimalPrecisionArg(accuracy).value],
                   PairAckOf(AckIdSetDecimalPrecision), old(transport.Script())).link
    {
      var arg := DecimalPrecisionArg(accuracy);
      if arg.None? {
        return CmdInvalid;
      }
      var driverCmdResponse := new char[AckBufferSize](_ => NUL);
      assert driverCmdResponse[..] == Padded("", AckBufferSize);
      var args := [arg.value];
      ShortCommandFits(PairCommonSetNmeaPosDecimalPrecision, args);
      assert args[..1] == args;
      ghost var s0 := transport.Script();
      var written := WriteCommand(transport, 1, PairCommonSetNmeaPosDecimalPrecision, args);
      if !written {
        return CmdSendFail;
      }
      CommandLinkAfterWrite(PairCommonSetNmeaPosDecimalPrecision, args, PairAckOf(AckIdSetDecimalPrecision), s0);
      // The reply is copied over the command in the payload buffer.
      var payloadBuf := new char[CmdBufferSize](_ => NUL);
      var rd := transport.Read(payloadBuf);
      if rd != DriverSuccess {
        return CmdSendFail;
      }
      PaddedHoldsString("", AckBufferSize);
      EmptyResponseRejected(AckIdSetDecimalPrecision);
      r := ParseResponse(driverCmdResponse, AckIdSetDecimalPrecision);
      if r != CmdSendSuccess {
        return;
      }
      assert false;
    }

    /** `lc29_driver_set_nmea_output_mode`: sends the mode and the proprietary-sentence flag. */
    method SetNmeaOutputMode(mode: int32, proprietary: bool) returns (r: int)
      requires Valid()
      requires RepliesFit(transport.Script(), [AckBufferSize])
      modifies this, transport
      ensures Valid()
      ensures match NmeaOutputModeArg(mode)
        case None => r == CmdInvalid && transport.Script() == old(transport.Script()) && State() == old(State())
        case Some(arg) =>
          var e := Command(PairCommonSetNmeaOutputMode, [arg, BoolArg(proprietary)], PairAckOf(AckIdSetNmeaOutputMode),
                           old(transport.Script()));
          && r == e.code && transport.Script() == e.link
          && State() == (if r == CmdSendSuccess then old(State()).(nmeaOutputMode := mode) else old(State()))
    {
      var arg := NmeaOutputModeArg(mode);
      if arg.None? {
        return CmdInvalid;
      }
      var args := [arg.value, BoolArg(proprietary)];
      ShortCommandFits(PairCommonSetNmeaOutputMode, args);
      assert args[..2] == args;
      ghost var st := State();
      r := SendCommand(transport, 2, PairCommonSetNmeaOutputMode, args,
                       PairAckOf(AckIdSetNmeaOutputMode), AckBufferSize);
      assert State() == st;
      if r != CmdSendSuccess {
        return;
      }
      nmeaOutputMode := mode;
      assert State() == st.(nmeaOutputMode := mode);
    }

    /** The exchange of the flag setters: the flag written as "0" or "1" is the one argument. */
    method SendFlag(cmdId: string, kind: AckKind, enable: bool) returns (r: int)
      requires |cmdId| <= 15 && RepliesFit(transport.Script(), [AckBufferSize])
      modifies transport
      ensures var e := Command(cmdId, [BoolArg(enable)], kind, old(transport.Script()));
        r == e.code && transport.Script() == e.link
    {
      var args := [BoolArg(enable)];
      ShortCommandFits(cmdId, args);
      assert args[..1] == args;
      r := SendCommand(transport, 1, cmdId, args, kind, AckBufferSize);
    }

    /** `lc29_driver_set_dual_band_mode`. */
    method SetDualBandMode(enable: bool) returns (r: int)
      requires Valid()
      requires RepliesFit(transport.Script(), [AckBufferSize])
      modifies this, transport
      ensures Valid()
      ensures var e := Command(PairCommonSetDualBand, [BoolArg(enable)], PairAckOf(AckIdSetDualBand), old(transport.Script()));
        && r == e.code && transport.Script() == e.link
        && State() == (if r == CmdSendSuccess then old(State()).(dualBandEnable := enable) else old(State()))
    {
      ghost var st := State();
      r := SendFlag(PairCommonSetDualBand, PairAckOf(AckIdSetDualBand), enable);
      assert State() == st;
      if r != CmdSendSuccess {
        return;
      }
      dualBandEnable := enable;
      assert State() == st.(dualBandEnable := enable);
    }

    /** `lc29_driver_set_sbas_mode`. */
    method SetSbasMode(enable: bool) returns (r: int)
      requires Valid()
      requires RepliesFit(transport.Script(), [AckBufferSize])
      modifies this, transport
      ensures Valid()
      ensures var e := Command(PairSbasEnable, [BoolArg(enable)], PairAckOf(AckIdSbasEnable), old(transport.Script()));
        && r == e.code && transport.Script() == e.link
        && State() == (if r == CmdSendSuccess then old(State()).(sbasEnable := enable) else old(State()))
    {
      ghost var st := State();
      r := SendFlag(PairSbasEnable, PairAckOf(AckIdSbasEnable), enable);
      assert State() == st;
      if r != CmdSendSuccess {
        return;
      }
      sbasEnable := enable;
      assert State() == st.(sbasEnable := enable);
    }

    /** `lc29_driver_set_easy_status`. */
    method SetEasyStatus(enable: bool) returns (r: int)
      requires Valid()
      requires RepliesFit(transport.Script(), [AckBufferSize])
      modifies this, transport
      ensures Valid()
      ensures var e := Command(PairEasyEnable, [BoolArg(enable)], PairAckOf(AckIdEasyEnable), old(transport.Script()));
        && r == e.code && transport.Script() == e.link
        && State() == (if r == CmdSendSuccess then old(State()).(easyEnable := enable) else old(State()))
    {
      ghost var st := State();
      r := SendFlag(PairEasyEnable, PairAckOf(AckIdEasyEnable), enable);
      assert State() == st;
      if r != CmdSendSuccess {
        return;
      }
      easyEnable := enable;
      assert State() == st.(easyEnable := enable);
    }

    /** `lc29_driver_nvm_save_setting`: a command without arguments; no field changes. */
    method NvmSaveSetting(enable: bool) returns (r: int)
      requires Valid()
      requires RepliesFit(transport.Script(), [AckBufferSize])
      modifies transport
      ensures var e := Command(PairNvmSaveSetting, [], PairAckOf(AckIdNvmSaveSetting), old(transport.Script()));
        r == e.code && transport.Script() == e.link
    {
      var args: seq<string> := [];
      assert args[..0] == args;
      ShortCommandFits(PairNvmSaveSetting, args);
      ghost var st := State();
      r := SendCommand(transport, 0, PairNvmSaveSetting, args, PairAckOf(AckIdNvmSaveSetting), AckBufferSize);
      assert State() == st;
    }

    /** `lc29_driver_set_low_power_mode`: the wake-up time must be 0 or within 10..62208000. */
    method SetLowPowerMode(wakeupTime: string) returns (r: int)
      requires Valid() && CommandFits(PairLowPowerEnterRtcMode, [wakeupTime])
      requires RepliesFit(transport.Script(), [AckBufferSize])
      modifies this, transport
      ensures Valid()
      ensures var w := ToU32(Atoi(wakeupTime));
        if w != 0 && (w < MinWakeupTime || w > MaxWakeupTime) then
          r == CmdInvalid && transport.Script() == old(transport.Script()) && State() == old(State())
        else
          var e := Command(PairLowPowerEnterRtcMode, [wakeupTime], PairAckOf(AckIdLowPower), old(transport.Script()));
          && r == e.code && transport.Script() == e.link
          && State() == (if r == CmdSendSuccess then old(State()).(lowPwrRtcClk := w) else old(State()))
    {
      var w := ToU32(Atoi(wakeupTime));
      if w != 0 {
        if w < MinWakeupTime || w > MaxWakeupTime {
          return CmdInvalid;
        }
      }
      var args := [wakeupTime];
      assert args[..1] == args;
      ghost var st := State();
      r := SendCommand(transport, 1, PairLowPowerEnterRtcMode, args, PairAckOf(AckIdLowPower), AckBufferSize);
      assert State() == st;
      if r != CmdSendSuccess {
        return;
      }
      lowPwrRtcClk := w;
      assert State() == st.(lowPwrRtcClk := w);
    }

    /** `lc29_driver_set_io_baudrate`: stores `atoi` of the rate truncated to `uint16_t`. */
    method SetIoBaudrate(portType: string, portIndex: string, rate: string) returns (r: int)
      requires Valid() && CommandFits(PairIoSetBaudrate, [portType, portIndex, rate])
      requires RepliesFit(transport.Script(), [AckBufferSize])
      modifies this, transport
      ensures Valid()
      ensures var e := Command(PairIoSetBaudrate, [portType, portIndex, rate], PairAckOf(AckIdIoSetBaudrate),
                               old(transport.Script()));
        && r == e.code && transport.Script() == e.link
        && State() == (if r == CmdSendSuccess then old(State()).(baudRate := ToU16(Atoi(rate))) else old(State()))
    {
      var args := [portType, portIndex, rate];
      assert args[..3] == args;
      ghost var st := State();
      r := SendCommand(transport, 3, PairIoSetBaudrate, args, PairAckOf(AckIdIoSetBaudrate), AckBufferSize);
      assert State() == st;
      if r != CmdSendSuccess {
        return;
      }
      baudRate := ToU16(Atoi(rate));
      assert State() == st.(baudRate := ToU16(Atoi(rate)));
    }

    // -------------------------------------------------------------
    // Getters
    // -------------------------------------------------------------

    /** `lc29_driver_get_fix_rate`. */
    method GetFixRate() returns (r: int)
      requires Valid()
      requires RepliesFit(transport.Script(), [AckBufferSize, QueryBufferSize])
      modifies this, transport
      ensures Valid()
      ensures var e := Query(PairCommonGetFixRate, [], PairAckOf(AckIdGetFixRate), PairCommonGetFixRate,
                             QueryFixRateNumArgs, old(transport.Script()));
        && r == e.code && transport.Script() == e.link
        && State() == (if r == CmdSendSuccess then old(State()).(fixRate := e.values[0]) else old(State()))
    {
      var vals;
      var args: seq<string> := [];
      assert args[..0] == args;
      ShortCommandFits(PairCommonGetFixRate, args);
      ghost var st := State();
      r, vals := QueryExchange(transport, 0, PairCommonGetFixRate, args, PairAckOf(AckIdGetFixRate), AckBufferSize,
                               PairCommonGetFixRate, QueryFixRateNumArgs);
      assert State() == st;
      if r != CmdSendSuccess {
        return;
      }
      fixRate := vals[0];
      assert State() == st.(fixRate := vals[0]);
    }

    /** `lc29_driver_get_min_snr`: the value is truncated to `uint16_t`. */
    method GetMinSnr() returns (r: int)
      requires Valid()
      requires RepliesFit(transport.Script(), [AckBufferSize, QueryBufferSize])
      modifies this, transport
      ensures Valid()
      ensures var e := Query(PairCommonGetMinSnr, [], PairAckOf(AckIdGetMinSnr), PairCommonGetMinSnr,
                             QueryMinSnrNumArgs, old(transport.Script()));
        && r == e.code && transport.Script() == e.link
        && State() == (if r == CmdSendSuccess then old(State()).(minSnr := ToU16(e.values[0])) else old(State()))
    {
      var vals;
      var args: seq<string> := [];
      assert args[..0] == args;
      ShortCommandFits(PairCommonGetMinSnr, args);
      ghost var st := State();
      r, vals := QueryExchange(transport, 0, PairCommonGetMinSnr, args, PairAckOf(AckIdGetMinSnr), AckBufferSize,
                               PairCommonGetMinSnr, QueryMinSnrNumArgs);
      assert State() == st;
      if r != CmdSendSuccess {
        return;
      }
      minSnr := ToU16(vals[0]);
      assert State() == st.(minSnr := ToU16(vals[0]));
    }

    /**
     * `lc29_driver_get_baudrate`: prepares the port type and index
     * arguments but builds the command with none of them.
     */
    method GetBaudrate() returns (r: int)
      requires Valid()
      requires RepliesFit(transport.Script(), [AckBufferSize, QueryBufferSize])
      modifies this, transport
      ensures Valid()
      ensures var e := Query(PairIoGetBaudrate, [], PairAckOf(AckIdIoGetBaudrate), PairIoGetBaudrate,
                             QueryBaudRateNumArgs, old(transport.Script()));
        && r == e.code && transport.Script() == e.link
        && State() == (if r == CmdSendSuccess then old(State()).(baudRate := ToU16(e.values[0])) else old(State()))
    {
      var args := ["0", "0"];
      assert args[..0] == [];
      var vals;
      ghost var st := State();
      r, vals := QueryExchange(transport, 0, PairIoGetBaudrate, args, PairAckOf(AckIdIoGetBaudrate), AckBufferSize,
                               PairIoGetBaudrate, QueryBaudRateNumArgs);
      assert State() == st;
      if r != CmdSendSuccess {
        return;
      }
      baudRate := ToU16(vals[0]);
      assert State() == st.(baudRate := ToU16(vals[0]));
    }

    /**
     * `lc29_driver_get_nmea_output_rate`: checks the requested id but builds
     * the command without it; the reply's own id selects the entry updated,
     * and an id outside 0..5 updates nothing yet still succeeds.
     */
    method GetNmeaOutputRate(rateId: string) returns (r: int)
      requires Valid()
      requires RepliesFit(transport.Script(), [AckBufferSize, QueryBufferSize])
      modifies this, transport
      ensures Valid()
      ensures var id := Atoi(rateId);
        if id > MaxNmeaRateId || id < 0 then
          r == CmdInvalid && transport.Script() == old(transport.Script()) && State() == old(State())
        else
          var e := Query(PairCommonGetNmeaOutputRate, [], PairAckOf(AckIdGetNmeaOutputRate), PairCommonGetNmeaOutputRate,
                         QueryNmeaRateNumArgs, old(transport.Script()));
          && r == e.code && transport.Script() == e.link
          && State() == (if r == CmdSendSuccess
                         then old(State()).(nmeaOutputRate :=
                                WithNmeaRate(old(nmeaOutputRate), e.values[0], ToU8(ToU16(e.values[1]))))
                         else old(State()))
    {
      var id := Atoi(rateId);
      if id > MaxNmeaRateId || id < 0 {
        return CmdInvalid;
      }
      var vals;
      var args := [rateId];
      assert args[..0] == [];
      ghost var st := State();
      r, vals := QueryExchange(transport, 0, PairCommonGetNmeaOutputRate, args, PairAckOf(AckIdGetNmeaOutputRate), AckBufferSize,
                               PairCommonGetNmeaOutputRate, QueryNmeaRateNumArgs);
      assert State() == st;
      if r != CmdSendSuccess {
        return;
      }
      var replyId := vals[0];
      var v := ToU16(vals[1]);
      nmeaOutputRate := WithNmeaRate(nmeaOutputRate, replyId, ToU8(v));
      assert State() == st.(nmeaOutputRate := WithNmeaRate(st.nmeaOutputRate, replyId, ToU8(v)));
    }

    /**
     * `lc29_driver_get_gnss_search_mode`: expects a single field, so only
     * the GPS flag comes from the reply; the other four flags are read from
     * entries of the value array the parser never wrote.
     */
    method GetGnssSearchMode() returns (r: int)
      requires Valid()
      requires RepliesFit(transport.Script(), [AckBufferSize, QueryBufferSize])
      modifies this, transport
      ensures Valid()
      ensures var e := Query(PairCommonGetGnssSearchMode, [], PairAckOf(AckIdGetGnssSearchMode),
                             PairCommonGetGnssSearchMode, QueryMinSnrNumArgs, old(transport.Script()));
        && r == e.code && transport.Script() == e.link
        && (r == CmdSendSuccess ==>
              && State() == old(State()).(gnssSearchMode := gnssSearchMode)
              && gnssSearchMode.gpsEnabled == (e.values[0] != 0)
              && !gnssSearchMode.reserved)
        && (r != CmdSendSuccess ==> State() == old(State()))
    {
      var vals;
      var args: seq<string> := [];
      assert args[..0] == args;
      ShortCommandFits(PairCommonGetGnssSearchMode, args);
      ghost var st := State();
      r, vals := QueryExchange(transport, 0, PairCommonGetGnssSearchMode, args, PairAckOf(AckIdGetGnssSearchMode), AckBufferSize,
                               PairCommonGetGnssSearchMode, QueryMinSnrNumArgs);
      assert State() == st;
      if r != CmdSendSuccess {
        return;
      }
      var m := SearchMode(vals[0] != 0, vals[1] != 0, vals[2] != 0, vals[3] != 0, vals[4] != 0, false);
      gnssSearchMode := m;
      assert State() == st.(gnssSearchMode := m);
    }

    /** `lc29_driver_get_static_threshold`: the value is truncated to `uint8_t`. */
    method GetStaticThreshold() returns (r: int)
      requires Valid()
      requires RepliesFit(transport.Script(), [AckBufferSize, QueryBufferSize])
      modifies this, transport
      ensures Valid()
      ensures var e := Query(PairCommonGetStaticThreshold, [], PairAckOf(AckIdGetStaticThreshold),
                             PairCommonGetStaticThreshold, QueryStaticThresholdArgs, old(transport.Script()));
        && r == e.code && transport.Script() == e.link
        && State() == (if r == CmdSendSuccess then old(State()).(staticSpdThrshld := ToU8(e.values[0]))
                       else old(State()))
    {
      var args: seq<string> := [];
      assert args[..0] == args;
      ShortCommandFits(PairCommonGetStaticThreshold, args);
      ghost var st := State();
      var vals;
      r, vals := QueryExchange(transport, 0, PairCommonGetStaticThreshold, args, PairAckOf(AckIdGetStaticThreshold), AckBufferSize,
                               PairCommonGetStaticThreshold, QueryStaticThresholdArgs);
      assert State() == st;
      if r != CmdSendSuccess {
        return;
      }
      staticSpdThrshld := ToU8(vals[0]);
      assert State() == st.(staticSpdThrshld := ToU8(vals[0]));
    }

    /** `lc29_driver_get_navigation_mode`. */
    method GetNavigationMode() returns (r: int)
      requires Valid()
      requires RepliesFit(transport.Script(), [AckBufferSize, QueryBufferSize])
      modifies this, transport
      ensures Valid()
      ensures var e := Query(PairCommonGetNavigationMode, [], PairAckOf(AckIdGetNavigationMode),
                             PairCommonGetNavigationMode, QueryStaticThresholdArgs, old(transport.Script()));
        && r == e.code && transport.Script() == e.link
        && State() == (if r == CmdSendSuccess then old(State()).(navMode := e.values[0]) else old(State()))
    {
      var vals;
      var args: seq<string> := [];
      assert args[..0] == args;
      ShortCommandFits(PairCommonGetNavigationMode, args);
      ghost var st := State();
      r, vals := QueryExchange(transport, 0, PairCommonGetNavigationMode, args, PairAckOf(AckIdGetNavigationMode), AckBufferSize,
                               PairCommonGetNavigationMode, QueryStaticThresholdArgs);
      assert State() == st;
      if r != CmdSendSuccess {
        return;
      }
      navMode := vals[0];
      assert State() == st.(navMode := vals[0]);
    }

    /**
     * `lc29_driver_get_NMEA_decimal_precision` as intended: the queried
     * precision is stored as the decimal precision, and the navigation mode
     * is left alone.
     */
    method GetNmeaDecimalPrecision() returns (r: int)
      requires Valid()
      requires RepliesFit(transport.Script(), [AckBufferSize, QueryBufferSize])
      modifies this, transport
      ensures Valid()
      ensures var e := Query(PairCommonGetNmeaPosDecimalPrecision, [], PairAckOf(AckIdGetDecimalPrecision),
                             PairCommonGetNmeaPosDecimalPrecision, QueryNmeaDecimalPrecisionArgs,
                             old(transport.Script()));
        && r == e.code && transport.Script() == e.link
        && State() == (if r == CmdSendSuccess then old(State()).(decimalAccuracy := e.values[0]) else old(State()))
    {
      var vals;
      var args: seq<string> := [];
      assert args[..0] == args;
      ShortCommandFits(PairCommonGetNmeaPosDecimalPrecision, args);
      ghost var st := State();
      r, vals := QueryExchange(transport, 0, PairCommonGetNmeaPosDecimalPrecision, args,
                               PairAckOf(AckIdGetDecimalPrecision), AckBufferSize, PairCommonGetNmeaPosDecimalPrecision,
                               QueryNmeaDecimalPrecisionArgs);
      assert State() == st;
      if r != CmdSendSuccess {
        return;
      }
      decimalAccuracy := vals[0];
      assert State() == st.(decimalAccuracy := vals[0]);
    }

    /**
     * `lc29_driver_get_NMEA_decimal_precision` as written: the queried
     * precision is stored in the navigation mode, and the stored precision
     * never changes.
     */
    method GetNmeaDecimalPrecisionAsWritten() returns (r: int)
      requires Valid()
      requires RepliesFit(transport.Script(), [AckBufferSize, QueryBufferSize])
      modifies this, transport
      ensures Valid()
      ensures var e := Query(PairCommonGetNmeaPosDecimalPrecision, [], PairAckOf(AckIdGetDecimalPrecision),
                             PairCommonGetNmeaPosDecimalPrecision, QueryNmeaDecimalPrecisionArgs,
                             old(transport.Script()));
        && r == e.code && transport.Script() == e.link
        && State() == (if r == CmdSendSuccess then old(State()).(navMode := e.values[0]) else old(State()))
    {
      var vals;
      var args: seq<string> := [];
      assert args[..0] == args;
      ShortCommandFits(PairCommonGetNmeaPosDecimalPrecision, args);
      ghost var st := State();
      r, vals := QueryExchange(transport, 0, PairCommonGetNmeaPosDecimalPrecision, args,
                               PairAckOf(AckIdGetDecimalPrecision), AckBufferSize, PairCommonGetNmeaPosDecimalPrecision,
                               QueryNmeaDecimalPrecisionArgs);
      assert State() == st;
      if r != CmdSendSuccess {
        return;
      }
      navMode := vals[0];
      assert State() == st.(navMode := vals[0]);
    }

    /** `lc29_driver_get_dual_band_mode`. */
    method GetDualBandMode() returns (r: int)
      requires Valid()
      requires RepliesFit(transport.Script(), [AckBufferSize, QueryBufferSize])
      modifies this, transport
      ensures Valid()
      ensures var e := Query(PairCommonGetDualBand, [], PairAckOf(AckIdGetDualBand), PairCommonGetDualBand,
                             QueryDualBandModeArgs, old(transport.Script()));
        && r == e.code && transport.Script() == e.link
        && State() == (if r == CmdSendSuccess then old(State()).(dualBandEnable := e.values[0] != 0)
                       else old(State()))
    {
      var vals;
      var args: seq<string> := [];
      assert args[..0] == args;
      ShortCommandFits(PairCommonGetDualBand, args);
      ghost var st := State();
      r, vals := QueryExchange(transport, 0, PairCommonGetDualBand, args, PairAckOf(AckIdGetDualBand), AckBufferSize,
                               PairCommonGetDualBand, QueryDualBandModeArgs);
      assert State() == st;
      if r != CmdSendSuccess {
        return;
      }
      dualBandEnable := vals[0] != 0;
      assert State() == st.(dualBandEnable := vals[0] != 0);
    }

    /** `lc29_driver_get_sbas_mode`. */
    method GetSbasMode() returns (r: int)
      requires Valid()
      requires RepliesFit(transport.Script(), [AckBufferSize, QueryBufferSize])
      modifies this, transport
      ensures Valid()
      ensures var e := Query(PairSbasGetStatus, [], PairAckOf(AckIdSbasGetStatus), PairSbasGetStatus,
                             QuerySbasStatusArgs, old(transport.Script()));
        && r == e.code && transport.Script() == e.link
        && State() == (if r == CmdSendSuccess then old(State()).(sbasEnable := e.values[0] != 0) else old(State()))
    {
      var vals;
      var args: seq<string> := [];
      assert args[..0] == args;
      ShortCommandFits(PairSbasGetStatus, args);
      ghost var st := State();
      r, vals := QueryExchange(transport, 0, PairSbasGetStatus, args, PairAckOf(AckIdSbasGetStatus), AckBufferSize,
                               PairSbasGetStatus, QuerySbasStatusArgs);
      assert State() == st;
      if r != CmdSendSuccess {
        return;
      }
      sbasEnable := vals[0] != 0;
      assert State() == st.(sbasEnable := vals[0] != 0);
    }

    /** `lc29_driver_get_easy_satus`. */
    method GetEasyStatus() returns (r: int)
      requires Valid()
      requires RepliesFit(transport.Script(), [AckBufferSize, QueryBufferSize])
      modifies this, transport
      ensures Valid()
      ensures var e := Query(PairEasyGetStatus, [], PairAckOf(AckIdEasyGetStatus), PairEasyGetStatus,
                             QueryEasyStatusArgs, old(transport.Script()));
        && r == e.code && transport.Script() == e.link
        && State() == (if r == CmdSendSuccess then old(State()).(easyStatus := e.values[0]) else old(State()))
    {
      var vals;
      var args: seq<string> := [];
      assert args[..0] == args;
      ShortCommandFits(PairEasyGetStatus, args);
      ghost var st := State();
      r, vals := QueryExchange(transport, 0, PairEasyGetStatus, args, PairAckOf(AckIdEasyGetStatus), AckBufferSize,
                               PairEasyGetStatus, QueryEasyStatusArgs);
      assert State() == st;
      if r != CmdSendSuccess {
        return;
      }
      easyStatus := vals[0];
      assert State() == st.(easyStatus := vals[0]);
    }

    // -------------------------------------------------------------
    // Dead-reckoning messages
    // -------------------------------------------------------------

    /**
     * `lc29_driver_set_get_pqtm_message_settings`, with the response buffer
     * enlarged so that the OK reply fits (see `DrAckBufferSize`). The
     * command stage expects the $PQTM OK reply; a get (`kind` false) also
     * reads and parses the configuration reply and copies its fields, but
     * the stored settings are then overwritten with the arguments, so what
     * the module reported never survives.
     */
    method SetGetPqtmMessageSettings(kind: bool, insEnabled: bool, imuEnabled: bool, gpsEnabled: bool, rate: string)
      returns (r: int)
      requires Valid()
      requires CommandFits(DrPqtmMessageConfigHeader, PqtmArgs(kind, insEnabled, imuEnabled, gpsEnabled, rate))
      requires RepliesFit(transport.Script(), if kind then [DrAckBufferSize] else [DrAckBufferSize, QueryBufferSize])
      modifies this, transport
      ensures Valid()
      ensures r == PqtmOutcome(kind, PqtmArgs(kind, insEnabled, imuEnabled, gpsEnabled, rate), old(transport.Script())).code
      ensures transport.Script() == PqtmOutcome(kind, PqtmArgs(kind, insEnabled, imuEnabled, gpsEnabled, rate), old(transport.Script())).link
      ensures State() == if r == CmdSendSuccess
                         then old(State()).(drRtkOutputRate := PqtmConfigured(insEnabled, imuEnabled, gpsEnabled, Atoi(rate)))
                         else old(State())
    {
      var args := PqtmArgs(kind, insEnabled, imuEnabled, gpsEnabled, rate);
      ghost var st := State();
      r := PqtmExchange(kind, args);
      assert State() == st;
      if r != CmdSendSuccess {
        return CmdSendFail;
      }
      // The get branch first copies the queried flags and rate into the
      // settings, but the unconditional update below overwrites every one
      // of those fields, so only the final update is observable.
      var p := PqtmConfigured(insEnabled, imuEnabled, gpsEnabled, Atoi(rate));
      drRtkOutputRate := p;
      assert State() == st.(drRtkOutputRate := p);
      r := CmdSendSuccess;
    }

    /** Runs the exchange `PqtmOutcome` describes. */
    method PqtmExchange(kind: bool, args: seq<string>) returns (r: int)
      requires |args| == 5 && CommandFits(DrPqtmMessageConfigHeader, args)
      requires RepliesFit(transport.Script(), if kind then [DrAckBufferSize] else [DrAckBufferSize, QueryBufferSize])
      modifies transport
      ensures var e := PqtmOutcome(kind, args, old(transport.Script()));
        r == e.code && transport.Script() == e.link
    {
      assert args[..5] == args;
      if kind {
        r := SendCommand(transport, 5, DrPqtmMessageConfigHeader, args, DrAckOk, DrAckBufferSize);
      } else {
        var vals;
        r, vals := QueryExchange(transport, 5, DrPqtmMessageConfigHeader, args, DrAckOk, DrAckBufferSize,
                                 DrPqtmMessageConfigResponseHeader, DrQueryPqtmConfigResponseArgs);
      }
    }

    /**
     * `lc29_driver_set_dr_rtk_message_output`: after the acknowledgement the
     * message type is parsed; an unknown type fails although the command was
     * already accepted.
     */
    method SetDrRtkMessageOutput(msgType: string, outputState: bool) returns (r: int)
      requires Valid() && CommandFits(PairSetCustomMsgOutput, [msgType, BoolArg(outputState)])
      requires RepliesFit(transport.Script(), [AckBufferSize])
      modifies this, transport
      ensures Valid()
      ensures var e := Command(PairSetCustomMsgOutput, [msgType, BoolArg(outputState)], PairAckOf(AckIdSetCustomMsgOutput),
                               old(transport.Script()));
        var id := Atoi(msgType);
        && transport.Script() == e.link
        && (if e.code != CmdSendSuccess then r == e.code && State() == old(State())
            else if 0 <= id < CustomMessageCount then
              r == CmdSendSuccess &&
              State() == old(State()).(drRtkCustomMessageSettings :=
                                         WithCustomMessage(old(drRtkCustomMessageSettings), id, outputState))
            else r == CmdSendFail && State() == old(State()))
    {
      var args := [msgType, BoolArg(outputState)];
      assert args[..2] == args;
      ghost var st := State();
      r := SendCommand(transport, 2, PairSetCustomMsgOutput, args,
                       PairAckOf(AckIdSetCustomMsgOutput), AckBufferSize);
      assert State() == st;
      if r != CmdSendSuccess {
        return;
      }
      r := SelectCustomMessage(Atoi(msgType), outputState);
    }

    /**
     * The switch both custom-message exchanges end with: the type selects
     * the message whose flag is set; any other type fails.
     */
    method SelectCustomMessage(id: int, enabled: bool) returns (r: int)
      requires Valid()
      modifies this
      ensures Valid()
      ensures if 0 <= id < CustomMessageCount then
          r == CmdSendSuccess &&
          State() == old(State()).(drRtkCustomMessageSettings :=
                                     WithCustomMessage(old(drRtkCustomMessageSettings), id, enabled))
        else r == CmdSendFail && State() == old(State())
    {
      if 0 <= id < CustomMessageCount {
        ghost var st := State();
        var m := WithCustomMessage(drRtkCustomMessageSettings, id, enabled);
        drRtkCustomMessageSettings := m;
        assert State() == st.(drRtkCustomMessageSettings := m);
        r := CmdSendSuccess;
      } else {
        r := CmdSendFail;
      }
    }

    /**
     * `lc29_driver_get_dr_rtk_message_output`: the reply's type selects the
     * message updated with the reply's state; an unknown type fails.
     */
    method GetDrRtkMessageOutput(msgType: string) returns (r: int)
      requires Valid() && CommandFits(PairGetCustomMsgOutput, [msgType])
      requires RepliesFit(transport.Script(), [AckBufferSize, QueryBufferSize])
      modifies this, transport
      ensures Valid()
      ensures var e := Query(PairGetCustomMsgOutput, [msgType], PairAckOf(AckIdGetCustomMsgOutput), PairGetCustomMsgOutput,
                             QueryCustomMsgOutput, old(transport.Script()));
        && transport.Script() == e.link
        && (if e.code != CmdSendSuccess then r == e.code && State() == old(State())
            else if 0 <= e.values[0] < CustomMessageCount then
              r == CmdSendSuccess &&
              State() == old(State()).(drRtkCustomMessageSettings :=
                                         WithCustomMessage(old(drRtkCustomMessageSettings), e.values[0], e.values[1] != 0))
            else r == CmdSendFail && State() == old(State()))
    {
      var vals;
      var args := [msgType];
      assert args[..1] == args;
      ghost var st := State();
      r, vals := QueryExchange(transport, 1, PairGetCustomMsgOutput, args, PairAckOf(AckIdGetCustomMsgOutput), AckBufferSize,
                               PairGetCustomMsgOutput, QueryCustomMsgOutput);
      assert State() == st;
      if r != CmdSendSuccess {
        return;
      }
      r := SelectCustomMessage(vals[0], vals[1] != 0);
    }
  }

  /**
   * `get_gnss_search_mode` asks for one value, so a reply that carries
   * all six search-mode fields makes the query fail.
   */
  lemma SearchModeFieldsRejected(s: Link, fields: string)
    requires |s.replies| >= 2 && s.replies[1] == PairCommonGetGnssSearchMode + "," + fields
    requires NoNul(fields) && TwoFieldsBeforeStar(fields)
    ensures Query(PairCommonGetGnssSearchMode, [], PairAckOf(AckIdGetGnssSearchMode),
                  PairCommonGetGnssSearchMode, QueryMinSnrNumArgs, s).code != CmdSendSuccess
  {
    var reply := s.replies[1];
    assert NoNul(reply) by {
      assert forall k :: |PairCommonGetGnssSearchMode| + 1 <= k < |reply| ==>
        reply[k] == fields[k - |PairCommonGetGnssSearchMode| - 1];
    }
    CStrOfNoNul(reply);
    assert CStrAt(reply, |PairCommonGetGnssSearchMode| + 1) == fields;
    TwoFieldReplyFailsSingleValueQuery(PairCommonGetGnssSearchMode, [], PairAckOf(AckIdGetGnssSearchMode),
                                       PairCommonGetGnssSearchMode, s);
  }

  /** The field text of the module's documented search-mode reply holds a comma and then a `*`. */
  lemma SearchModeExampleHasTwoFields()
    ensures TwoFieldsBeforeStar("1,0,0,0,0,0*3A\r\n")
  {
    var fields := "1,0,0,0,0,0*3A\r\n";
    assert IndexOf(fields, ',') == 1;
    assert fields[2..] == "0,0,0,0,0*3A\r\n";
    assert fields[2..][9] == '*';
  }
}
