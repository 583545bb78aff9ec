/**
 * The constants of the LC29H sentence protocol: sentence identifiers,
 * framing characters, expected field counts of query replies, the
 * acknowledgement codes of a $PAIR001 reply, the results of sentence
 * validation, and the enumerations the driver stores in its settings.
 */
module Protocol {

  // ---------------------------------------------------------------
  // Framing
  // ---------------------------------------------------------------

  const ResponseFixedLength: nat := 19
  const ResponseEndChar: char := '\r'
  /** Every command the driver builds ends with these two bytes. */
  const CmdEndChars: string := "\r\n"
  /** Separates the fields of a sentence from its checksum. */
  const PairCmdEndingChar: string := "*"
  const PairCmdPrefix: string := "$PAIR"

  /** Number of leading identifier bytes validation compares. */
  const IdentifierCompareLength: nat := 8
  /** The shortest reply validation accepts. */
  const MinSentenceLength: nat := 9

  // ---------------------------------------------------------------
  // $PAIR sentence identifiers
  // ---------------------------------------------------------------

  const PairAck: string := "$PAIR001"
  const PairCommonSetFixRate: string := "$PAIR050"
  const PairCommonGetFixRate: string := "$PAIR051"
  const PairCommonSetMinSnr: string := "$PAIR058"
  const PairCommonGetMinSnr: string := "$PAIR059"
  const PairCommonSetNmeaOutputRate: string := "$PAIR062"
  const PairCommonGetNmeaOutputRate: string := "$PAIR063"
  const PairCommonSetGnssSearchMode: string := "$PAIR066"
  const PairCommonGetGnssSearchMode: string := "$PAIR067"
  const PairCommonSetStaticThreshold: string := "$PAIR070"
  const PairCommonGetStaticThreshold: string := "$PAIR071"
  const PairCommonSetNavigationMode: string := "$PAIR080"
  const PairCommonGetNavigationMode: string := "$PAIR081"
  const PairCommonSetNmeaPosDecimalPrecision: string := "$PAIR098"
  const PairCommonGetNmeaPosDecimalPrecision: string := "$PAIR099"
  const PairCommonSetNmeaOutputMode: string := "$PAIR100"
  const PairCommonSetDualBand: string := "$PAIR104"
  const PairCommonGetDualBand: string := "$PAIR105"
  const PairSbasEnable: string := "$PAIR410"
  const PairSbasGetStatus: string := "$PAIR411"
  const PairEasyEnable: string := "$PAIR490"
  const PairEasyGetStatus: string := "$PAIR491"
  const PairNvmSaveSetting: string := "$PAIR513"
  const PairLowPowerEnterRtcMode: string := "$PAIR650"
  const PairIoSetBaudrate: string := "$PAIR864"
  const PairIoGetBaudrate: string := "$PAIR865"
  /** The two custom-message identifiers are nine bytes long. */
  const PairSetCustomMsgOutput: string := "$PAIR6010"
  const PairGetCustomMsgOutput: string := "$PAIR6011"

  /** The numeric command ids a $PAIR001 acknowledgement echoes. */
  const AckIdSetFixRate: int := 50
  const AckIdGetFixRate: int := 51
  const AckIdSetMinSnr: int := 58
  const AckIdGetMinSnr: int := 59
  const AckIdSetNmeaOutputRate: int := 62
  const AckIdGetNmeaOutputRate: int := 63
  const AckIdSetGnssSearchMode: int := 66
  const AckIdGetGnssSearchMode: int := 67
  const AckIdSetStaticThreshold: int := 70
  const AckIdGetStaticThreshold: int := 71
  const AckIdSetNavigationMode: int := 80
  const AckIdGetNavigationMode: int := 81
  const AckIdSetDecimalPrecision: int := 98
  const AckIdGetDecimalPrecision: int := 99
  const AckIdSetNmeaOutputMode: int := 100
  const AckIdSetDualBand: int := 104
  const AckIdGetDualBand: int := 105
  const AckIdSbasEnable: int := 410
  const AckIdSbasGetStatus: int := 411
  const AckIdEasyEnable: int := 490
  const AckIdEasyGetStatus: int := 491
  const AckIdNvmSaveSetting: int := 513
  const AckIdLowPower: int := 650
  const AckIdIoSetBaudrate: int := 864
  const AckIdIoGetBaudrate: int := 865
  const AckIdSetCustomMsgOutput: int := 6010
  const AckIdGetCustomMsgOutput: int := 6011

  // ---------------------------------------------------------------
  // $PQTM dead-reckoning sentences
  // ---------------------------------------------------------------

  const DrPqtmMessageConfigHeader: string := "$PQTMCFGEINSMSG"
  const DrPqtmMessageConfigResponseHeader: string := "$PQTMEINSMSG"
  const DrResponseOk: string := "$PQTMCFGEINSMSGOK"
  const DrResponseError: string := "$PQTMCFGEINSMSGERROR"
  const DrCmdResponseFixedLength: nat := 17

  // ---------------------------------------------------------------
  // Number of fields a query reply must carry
  // ---------------------------------------------------------------

  const QueryFixRateNumArgs: nat := 1
  const QueryMinSnrNumArgs: nat := 1
  const QueryBaudRateNumArgs: nat := 1
  const QueryNmeaRateNumArgs: nat := 2
  const QueryGnssSearchModeArgs: nat := 6
  const QueryStaticThresholdArgs: nat := 1
  const QueryNavigationModeArgs: nat := 1
  const QueryNmeaDecimalPrecisionArgs: nat := 1
  const QueryDualBandModeArgs: nat := 1
  const QuerySbasStatusArgs: nat := 1
  const QueryEasyStatusArgs: nat := 1
  const QueryCustomMsgOutput: nat := 2
  const DrQueryPqtmConfigResponseArgs: nat := 5

  const BaudRate115200: int := 115200

  // ---------------------------------------------------------------
  // Acknowledgement codes (the second field of a $PAIR001 reply)
  // ---------------------------------------------------------------

  const CmdSendSuccess: int := 0
  const CommandBeingProcessed: int := 1
  const CmdInvalid: int := 2
  const CmdSendFail: int := 3
  const CmdIdNotSupported: int := 4
  const CmdParamError: int := 5
  const MnlServiceBusy: int := 6

  /** The highest status the acknowledgement parser passes through. */
  const MaxDeviceStatus: int := 5

  /** Result of the transport's write and read callbacks. */
  datatype DriverResponse = DriverSuccess | DriverFail

  /** Result of checking a sentence's framing. */
  datatype ResponseError =
    | ValidResponse
    | InvalidLength
    | InvalidStartChar
    | InvalidRN
    | InvalidIdentifier
    | NoChecksum
    | InvalidChecksum
  {
    /** The enumerator's value in the C enumeration. */
    function Code(): (c: nat)
      ensures c <= 6
      ensures c == 0 <==> this == ValidResponse
    {
      match this
      case ValidResponse => 0
      case InvalidLength => 1
      case InvalidStartChar => 2
      case InvalidRN => 3
      case InvalidIdentifier => 4
      case NoChecksum => 5
      case InvalidChecksum => 6
    }
  }

  // ---------------------------------------------------------------
  // Enumerations held in the driver's settings
  // ---------------------------------------------------------------

  const OneHz: int := 1000
  const FiveHz: int := 500
  const TenHz: int := 100

  const NmeaSenGga: int := 0
  const NmeaSenGll: int := 1
  const NmeaSenGsa: int := 2
  const NmeaSenGsv: int := 3
  const NmeaSenRmc: int := 4
  const NmeaSenVtg: int := 5

  const NormalMode: int := 0
  const FitnessMode: int := 1
  const StationaryMode: int := 4
  const SwimmingMode: int := 7

  const LatLon4Alt1: int := 0
  const LatLon5Alt2: int := 1
  const LatLon6Alt3: int := 2
  const LatLon7Alt3: int := 3

  const DisableNmeaOutput: int := 0
  const EnableAsciiNmea410: int := 1
  const EnableAsciiNmea301: int := 2

  const SbasEnabled: int := 2
  const NotInitialized: int := 0
  const DisablePeriodicMode: int := 0
  const FixOnly3D: int := 2

  const PqtmIns: int := 0
  const PqtmImu: int := 1
  const PqtmGps: int := 2

  const PqtmVehMsg: int := 0
  const PqtmSenMsg: int := 1
  const PqtmDrCal: int := 2
  const PqtmImuType: int := 3
  const PqtmVehMot: int := 4

  /** The identifiers validation checks a sentence against, one per entry. */
  function PairIdentifiers(): (ids: seq<string>)
    ensures |ids| == 26
  {
    [PairAck, PairCommonSetFixRate, PairCommonGetFixRate, PairCommonSetMinSnr,
     PairCommonGetMinSnr, PairCommonSetNmeaOutputRate, PairCommonGetNmeaOutputRate,
     PairCommonSetGnssSearchMode, PairCommonGetGnssSearchMode,
     PairCommonSetStaticThreshold, PairCommonGetStaticThreshold,
     PairCommonSetNavigationMode, PairCommonGetNavigationMode,
     PairCommonSetNmeaPosDecimalPrecision, PairCommonGetNmeaPosDecimalPrecision,
     PairCommonSetNmeaOutputMode, PairCommonSetDualBand, PairCommonGetDualBand,
     PairSbasEnable, PairSbasGetStatus, PairEasyEnable, PairEasyGetStatus,
     PairNvmSaveSetting, PairLowPowerEnterRtcMode, PairIoSetBaudrate, PairIoGetBaudrate]
  }

  /**
   * Every $PAIR identifier is the prefix "$PAIR" followed by three digits,
   * which is exactly the number of bytes validation compares.
   */
  lemma PairIdentifiersAreEightBytes()
    ensures forall i :: 0 <= i < |PairIdentifiers()| ==>
      |PairIdentifiers()[i]| == IdentifierCompareLength &&
      PairIdentifiers()[i][..5] == PairCmdPrefix
  {
  }

  /**
   * The two custom-message identifiers are nine bytes long and agree on
   * their first eight, so an eight-byte comparison cannot tell them apart.
   */
  lemma CustomMessageIdentifiersShareCompareWindow()
    ensures |PairSetCustomMsgOutput| == |PairGetCustomMsgOutput| == IdentifierCompareLength + 1
    ensures PairSetCustomMsgOutput[..IdentifierCompareLength] == PairGetCustomMsgOutput[..IdentifierCompareLength]
    ensures PairSetCustomMsgOutput != PairGetCustomMsgOutput
  {
  }

  /** The $PQTM OK reply is the configuration header followed by "OK". */
  lemma DrResponseOkLength()
    ensures |DrResponseOk| == DrCmdResponseFixedLength
    ensures DrResponseOk == DrPqtmMessageConfigHeader + "OK"
    ensures DrResponseError == DrPqtmMessageConfigHeader + "ERROR"
  {
  }
}
