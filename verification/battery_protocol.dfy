/**
 Battery health and calibration control through the battery WMI interface, as the
 extension driver performs it: the 4-byte query request (method 20), the 8-byte
 status response decoded into tri-state mirror values, the 8-byte set request
 (method 21) with its 4-byte response, and the two mode stores that set a mode and
 then refresh the mirror by querying again.
 */
module BatteryProtocol {
  import opened Bytes
  import opened Acpi

  const WmiGuid1 := "79772EC5-04B1-4bfd-843C-61E7F77B6CC9"
  const QueryMethodId: nat := 20
  const SetMethodId: nat := 21

  /** The two battery functions; each is named by its bit in the firmware's masks. */
  datatype BatteryMode = HealthMode | CalibrationMode

  function ModeBit(m: BatteryMode): byte {
    match m
    case HealthMode => 1
    case CalibrationMode => 2
  }

  /** Which byte of the status array reports a mode's activity. */
  function StatusIndex(m: BatteryMode): nat {
    match m
    case HealthMode => 0
    case CalibrationMode => 1
  }

  /** A mirror value: -1 when the firmware does not list the function, else 0 or 1. */
  datatype TriState = Unsupported | Off | On {
    function Value(): int {
      match this
      case Unsupported => -1
      case Off => 0
      case On => 1
    }
  }

  /** The driver's mirror of the battery functions. */
  datatype BatteryInfo = BatteryInfo(healthMode: TriState, calibrationMode: TriState) {
    function Get(m: BatteryMode): TriState {
      match m
      case HealthMode => healthMode
      case CalibrationMode => calibrationMode
    }
  }

  /** The mirror before the first query: a zero-initialised static record. */
  const InitialBatteryInfo := BatteryInfo(Off, Off)

  // ---------------------------------------------------------------- query request

  datatype QueryInput = QueryInput(batteryNo: byte, functionQuery: byte, reserved0: byte, reserved1: byte)

  /** The fixed request the driver always sends: battery 1, query flag 1. */
  const StatusQuery := QueryInput(1, 1, 0, 0)

  function EncodeQueryInput(q: QueryInput): (bs: seq<byte>)
    ensures |bs| == 4
    ensures ParseQueryInput(bs) == Some(q)
  {
    [q.batteryNo, q.functionQuery, q.reserved0, q.reserved1]
  }

  function ParseQueryInput(bs: seq<byte>): (r: Option<QueryInput>)
    ensures r.Some? <==> |bs| == 4
    ensures r.Some? ==> bs == [r.value.batteryNo, r.value.functionQuery, r.value.reserved0, r.value.reserved1]
  {
    if |bs| == 4 then Some(QueryInput(bs[0], bs[1], bs[2], bs[3])) else None
  }

  const StatusQueryCall := WmiCall(WmiGuid1, 0, QueryMethodId, EncodeQueryInput(StatusQuery))

  // --------------------------------------------------------------- query response

  /** The 8-byte status response: function list, two return bytes, five status bytes. */
  datatype QueryOutput = QueryOutput(functionList: byte, returnCode: seq<byte>, functionStatus: seq<byte>) {
    predicate Sized() {
      |returnCode| == 2 && |functionStatus| == 5
    }
  }

  function EncodeQueryOutput(o: QueryOutput): (bs: seq<byte>)
    requires o.Sized()
    ensures |bs| == 8
    ensures ParseQueryOutput(bs) == Some(o)
  {
    [o.functionList] + o.returnCode + o.functionStatus
  }

  /** Reads the response fields, but only from a buffer of exactly 8 bytes. */
  function ParseQueryOutput(bs: seq<byte>): (r: Option<QueryOutput>)
    ensures r.Some? <==> |bs| == 8
    ensures r.Some? ==> r.value.Sized() && [r.value.functionList] + r.value.returnCode + r.value.functionStatus == bs
  {
    if |bs| == 8 then Some(QueryOutput(bs[0], bs[1..3], bs[3..8])) else None
  }

  /** `functionList & ModeBit(m)`, the C bitwise test. */
  predicate Listed(functionList: byte, m: BatteryMode) {
    (functionList as bv8) & (ModeBit(m) as bv8) != 0
  }

  /** The C bit tests read as arithmetic on the function list. */
  lemma ListedBits(functionList: byte)
    ensures Listed(functionList, HealthMode) <==> functionList % 2 == 1
    ensures Listed(functionList, CalibrationMode) <==> (functionList / 2) % 2 == 1
  {
    var b := functionList as bv8;
    assert b == (functionList % 2) as bv8 + ((functionList / 2) % 2) as bv8 * 2 + (functionList / 4) as bv8 * 4;
  }

  /** One mode's mirror value from a status response. */
  function DecodeMode(o: QueryOutput, m: BatteryMode): TriState
    requires o.Sized()
  {
    if Listed(o.functionList, m) then
      if o.functionStatus[StatusIndex(m)] > 0 then On else Off
    else Unsupported
  }

  /** The mirror a status response describes. A mode is unsupported exactly when its
      bit of the function list is clear, whatever the status bytes hold; otherwise it
      is on exactly when its status byte is nonzero. */
  function DecodeStatus(o: QueryOutput): (info: BatteryInfo)
    requires o.Sized()
    ensures info.healthMode == Unsupported <==> o.functionList % 2 == 0
    ensures info.healthMode == On <==> o.functionList % 2 == 1 && o.functionStatus[0] != 0
    ensures info.calibrationMode == Unsupported <==> (o.functionList / 2) % 2 == 0
    ensures info.calibrationMode == On <==> (o.functionList / 2) % 2 == 1 && o.functionStatus[1] != 0
  {
    ListedBits(o.functionList);
    BatteryInfo(DecodeMode(o, HealthMode), DecodeMode(o, CalibrationMode))
  }

  /** The decoding reads only the low two bits of the function list and the first two
      status bytes: the return bytes, the higher bits and the other status bytes are
      ignored. */
  lemma {:induction false} DecodeReadsOnlyItsBits(o: QueryOutput, o': QueryOutput)
    requires o.Sized() && o'.Sized()
    requires o.functionList % 4 == o'.functionList % 4
    requires o.functionStatus[0] == o'.functionStatus[0] && o.functionStatus[1] == o'.functionStatus[1]
    ensures DecodeStatus(o) == DecodeStatus(o')
  {
    var l, l' := o.functionList, o'.functionList;
    assert l % 2 == l' % 2 && (l / 2) % 2 == (l' / 2) % 2 by {
      assert l == 4 * (l / 4) + l % 4;
      assert l' == 4 * (l' / 4) + l' % 4;
    }
  }

  /** `get_battery_health_control_status`: its status and the mirror it leaves. */
  datatype QueryStep = QueryStep(status: AcpiStatus, info: BatteryInfo)

  /** Queries the firmware and, only when it answers with an 8-byte buffer, replaces
      the mirror by the decoded response. A failed evaluation's status is passed on;
      a missing result, a non-buffer result or a buffer of any other length gives
      AE_ERROR. On every failure the mirror is left as it was. */
  function GetStatus(info: BatteryInfo, outcome: WmiOutcome): (r: QueryStep)
    ensures r.status == AE_OK <==> BufferOfLength(outcome, 8)
    ensures outcome.EvalFailed? ==> r.status == outcome.status
    ensures outcome.Evaluated? && r.status != AE_OK ==> r.status == AE_ERROR
    ensures r.status != AE_OK ==> r.info == info
    ensures r.status == AE_OK ==>
      var o := ParseQueryOutput(ReturnedBuffer(outcome).value).value;
      o.Sized() && r.info == DecodeStatus(o)
  {
    match outcome
    case EvalFailed(s) => QueryStep(s, info)
    case Evaluated(None) => QueryStep(AE_ERROR, info)
    case Evaluated(Some(obj)) =>
      if !obj.BufferObject? then QueryStep(AE_ERROR, info)
      else match ParseQueryOutput(obj.data)
        case None => QueryStep(AE_ERROR, info)
        case Some(o) => QueryStep(AE_OK, DecodeStatus(o))
  }

  /** Whatever mirror the driver held, a firmware answer carrying the encoding of a
      response is decoded back into exactly that response's mirror. */
  lemma QueryRoundTrip(info: BatteryInfo, o: QueryOutput)
    requires o.Sized()
    ensures GetStatus(info, Evaluated(Some(BufferObject(EncodeQueryOutput(o))))) == QueryStep(AE_OK, DecodeStatus(o))
  {
  }

  /** A response one byte short is rejected and the mirror stays as it was. */
  lemma ShortResponseRejected(info: BatteryInfo, bs: seq<byte>)
    requires |bs| == 7
    ensures GetStatus(info, Evaluated(Some(BufferObject(bs)))) == QueryStep(AE_ERROR, info)
  {
  }

  // ------------------------------------------------------------------ set request

  /** The 8-byte set request: battery, function mask, requested status, 5 reserved bytes. */
  datatype SetInput = SetInput(batteryNo: byte, functionMask: byte, functionStatus: byte, reserved: seq<byte>)

  function SetRequest(m: BatteryMode, enable: bool): SetInput {
    SetInput(1, ModeBit(m), if enable then 1 else 0, [0, 0, 0, 0, 0])
  }

  function EncodeSetInput(s: SetInput): (bs: seq<byte>)
    requires |s.reserved| == 5
    ensures |bs| == 8
    ensures ParseSetInput(bs) == Some(s)
  {
    [s.batteryNo, s.functionMask, s.functionStatus] + s.reserved
  }

  /** Reads the set request's fields, but only from exactly 8 bytes. */
  function ParseSetInput(bs: seq<byte>): (r: Option<SetInput>)
    ensures r.Some? <==> |bs| == 8
    ensures r.Some? ==>
      && |r.value.reserved| == 5
      && [r.value.batteryNo, r.value.functionMask, r.value.functionStatus] + r.value.reserved == bs
  {
    if |bs| == 8 then Some(SetInput(bs[0], bs[1], bs[2], bs[3..])) else None
  }

  function SetCall(m: BatteryMode, enable: bool): Call {
    WmiCall(WmiGuid1, 0, SetMethodId, EncodeSetInput(SetRequest(m, enable)))
  }

  /** The set request names one mode and carries the requested state as 0 or 1. */
  lemma SetRequestLayout(m: BatteryMode, enable: bool)
    ensures var bs := SetCall(m, enable).input;
      && bs == [1, ModeBit(m), if enable then 1 else 0, 0, 0, 0, 0, 0]
      && (bs[1] as bv8) & (ModeBit(m) as bv8) != 0
  {
  }

  /** `set_battery_health_control`. The response must be a buffer of exactly 4 bytes
      (although the declared response record has only two); its contents are not
      inspected. A failed evaluation's status is passed on; any other malformed
      answer gives AE_ERROR. The mode and the requested state are the C function's
      parameters; they shape the request (`SetCall`), not the response check. */
  function SetControl(m: BatteryMode, enable: bool, outcome: WmiOutcome): (status: AcpiStatus)
    ensures status == AE_OK <==> BufferOfLength(outcome, 4)
    ensures outcome.EvalFailed? ==> status == outcome.status
    ensures outcome.Evaluated? && status != AE_OK ==> status == AE_ERROR
  {
    match outcome
    case EvalFailed(s) => s
    case Evaluated(None) => AE_ERROR
    case Evaluated(Some(obj)) =>
      if !obj.BufferObject? then AE_ERROR
      else if |obj.data| != 4 then AE_ERROR
      else AE_OK
  }

  // ----------------------------------------------------------------------- stores

  /** A store's return value, the mirror afterwards, and the calls it issued. */
  datatype StoreStep = StoreStep(ret: int, info: BatteryInfo, calls: seq<Call>)

  /** `health_mode_store` (m = HealthMode) and `calibration_mode_store`
      (m = CalibrationMode) for an already-parsed boolean. */
  function ModeStore(m: BatteryMode, info: BatteryInfo, enable: bool, count: nat,
                     setOutcome: WmiOutcome, queryOutcome: WmiOutcome): (r: StoreStep)
    // a mode the firmware does not list: nothing happens, 0 is returned
    ensures info.Get(m).Value() < 0 ==> r == StoreStep(0, info, [])
    // otherwise: set, then refresh; `count` is returned whatever the firmware said
    ensures info.Get(m).Value() >= 0 ==>
      && r.ret == count
      && r.calls == [SetCall(m, enable), StatusQueryCall]
    // the mirror changes only through a well-formed refresh answer
    ensures !BufferOfLength(queryOutcome, 8) ==> r.info == info
    ensures info.Get(m) != Unsupported && BufferOfLength(queryOutcome, 8) ==>
      r.info == DecodeStatus(ParseQueryOutput(ReturnedBuffer(queryOutcome).value).value)
  {
    if info.Get(m).Value() < 0 then StoreStep(0, info, [])
    else
      // the set request is issued and its status discarded
      var _ := SetControl(m, enable, setOutcome);
      StoreStep(count, GetStatus(info, queryOutcome).info, [SetCall(m, enable), StatusQueryCall])
  }

  /** The set request's result has no influence: only the refresh answer matters. */
  lemma ModeStoreIgnoresSetResult(m: BatteryMode, info: BatteryInfo, enable: bool, count: nat,
                                  s1: WmiOutcome, s2: WmiOutcome, q: WmiOutcome)
    ensures ModeStore(m, info, enable, count, s1, q) == ModeStore(m, info, enable, count, s2, q)
  {
  }

  /** Storing the same value twice leaves the same mirror as storing it once, when the
      final refresh is answered the same way and the mode is still listed in between. */
  lemma ModeStoreIdempotent(m: BatteryMode, info: BatteryInfo, enable: bool, count: nat,
                            s1: WmiOutcome, q1: WmiOutcome, s2: WmiOutcome, q2: WmiOutcome)
    requires info.Get(m) != Unsupported
    requires ModeStore(m, info, enable, count, s1, q1).info.Get(m) != Unsupported
    requires BufferOfLength(q2, 8)
    ensures ModeStore(m, ModeStore(m, info, enable, count, s1, q1).info, enable, count, s2, q2).info
         == ModeStore(m, info, enable, count, s2, q2).info
  {
  }
}
