/**
 The standalone battery driver: one `health_mode` attribute over the same battery
 WMI interface. Its response checks are stricter than the extension driver's: a
 nonzero first return byte is an error, and the function list must be exactly
 1, 2 or 3.
 */
module BatteryWmi {
  import opened Bytes
  import opened Acpi

  const AcerBatteryGuid := "79772EC5-04B1-4BFD-843C-61E7F77B6CC9"
  const GetMethodId: nat := 20
  const SetMethodId: nat := 21

  /** `SetBatteryControlIn`: battery 1, function mask 1 (health), the value, 5 zero bytes. */
  function SetRequestBytes(val: byte): (bs: seq<byte>)
    ensures |bs| == 8
    ensures bs[0] == 1 && bs[1] == 1 && bs[2] == val && bs[3..] == [0, 0, 0, 0, 0]
  {
    [1, 1, val, 0, 0, 0, 0, 0]
  }

  /** `GetBatteryControlIn`: battery 1, query 1, and a 16-bit zero stored little-endian. */
  function QueryRequestBytes(): (bs: seq<byte>)
    ensures |bs| == 4
    ensures bs[..2] == [1, 1] && LeValue(bs[2..]) == 0
  {
    [1, 1] + LeBytes(0, 2)
  }

  function SetCall(val: byte): Call {
    WmiCall(AcerBatteryGuid, 0, SetMethodId, SetRequestBytes(val))
  }

  function QueryCall(): Call {
    WmiCall(AcerBatteryGuid, 0, GetMethodId, QueryRequestBytes())
  }

  /** `acer_battery_wmi_exec_method`: AE_OK exactly when the answer is a 4-byte buffer,
      whatever its return code says; every failure, including the evaluation's own,
      is reported as AE_ERROR. */
  function ExecMethod(outcome: WmiOutcome): (status: AcpiStatus)
    ensures status == AE_OK <==> BufferOfLength(outcome, 4)
    ensures status == AE_OK || status == AE_ERROR
  {
    match outcome
    case EvalFailed(_) => AE_ERROR
    case Evaluated(obj) =>
      if obj.None? || !obj.value.BufferObject? || |obj.value.data| != 4 then AE_ERROR
      else AE_OK
  }

  /** What the show callback reports. For function list 2 the health status variable
      is never assigned, so what it prints is not determined by the response. */
  datatype HealthShown = HealthStatus(on: bool) | HealthIndeterminate | ShowFailed(errno: int)

  /** `acer_battery_show_save_mode`. */
  function ShowSaveMode(outcome: WmiOutcome): (r: HealthShown)
    ensures r.ShowFailed? ==> r.errno == -ENODEV
    ensures !r.ShowFailed? <==>
      BufferOfLength(outcome, 8) && ReturnedBuffer(outcome).value[1] == 0
      && ReturnedBuffer(outcome).value[0] in {1, 2, 3}
    ensures r.HealthStatus? <==>
      BufferOfLength(outcome, 8) && ReturnedBuffer(outcome).value[1] == 0
      && ReturnedBuffer(outcome).value[0] in {1, 3}
    ensures r.HealthStatus? ==> (r.on <==> ReturnedBuffer(outcome).value[3] > 0)
  {
    match outcome
    case EvalFailed(_) => ShowFailed(-ENODEV)
    case Evaluated(obj) =>
      if obj.None? || !obj.value.BufferObject? || |obj.value.data| != 8 then ShowFailed(-ENODEV)
      else
        var out := obj.value.data;
        // out[0] is uFunctionList, out[1..3] uReturn, out[3..8] uFunctionStatus
        if out[1] > 0 then ShowFailed(-ENODEV)
        else if out[0] == 1 || out[0] == 3 then HealthStatus(out[3] > 0)
        else if out[0] == 2 then HealthIndeterminate
        else ShowFailed(-ENODEV)
  }

  /** `acer_battery_store_save_mode` for an already-parsed byte: only 0 and 1 are
      accepted, and a refused value issues no call. */
  function StoreSaveMode(val: byte, count: nat, outcome: WmiOutcome): (r: (int, seq<Call>))
    ensures val != 0 && val != 1 ==> r == (-EINVAL, [])
    ensures val == 0 || val == 1 ==> r.1 == [SetCall(val)]
    ensures val == 0 || val == 1 ==> (r.0 == count <==> BufferOfLength(outcome, 4))
    ensures val == 0 || val == 1 ==> (r.0 != count ==> r.0 == -ENODEV)
  {
    if val != 0 && val != 1 then (-EINVAL, [])
    else if ExecMethod(outcome) != AE_OK then (-ENODEV, [SetCall(val)])
    else (count, [SetCall(val)])
  }
}
