/**
 The "ApgeAction" WMI interface (second GUID): one 64-bit argument in, one 64-bit
 value out. The firmware may answer with a 4- or 8-byte buffer, an integer, or
 something else; the driver collapses all of these into a single `u64`.
 */
module ApgeAction {
  import opened Bytes
  import opened Acpi

  const WmiGuid2 := "61EF69EA-865C-4BC3-A502-A0DEBA0CB531"
  const SetFunction: nat := 1
  const GetFunction: nat := 2

  /** The evaluation status, and the value written to the caller's `*out`
      (None when `*out` is left untouched). */
  datatype ExecResult = ExecResult(status: AcpiStatus, out: Option<u64>)

  /** The call: the argument is passed by address as an 8-byte buffer. */
  function ExecCall(methodId: nat, input: u64): Call {
    WmiCall(WmiGuid2, 0, methodId, U64Bytes(input))
  }

  /** The `u64` extracted from a result object. A 4-byte buffer is read as a `u32`,
      an 8-byte buffer as a `u64`, an integer object as its value; a missing object,
      a buffer of any other length and any other object type give 0. */
  function ResultValue(obj: Option<AcpiObject>): (v: u64)
    ensures obj.Some? && obj.value.BufferObject? && |obj.value.data| == 4 ==>
      v == LeValue(obj.value.data) && v < 0x1_0000_0000
    ensures obj.Some? && obj.value.BufferObject? && |obj.value.data| == 8 ==> v == LeValue(obj.value.data)
    ensures obj.Some? && obj.value.IntegerObject? ==> v == obj.value.value
    ensures v != 0 ==> obj.Some? && !obj.value.OtherObject?
    ensures obj.Some? && obj.value.BufferObject? && |obj.value.data| != 4 && |obj.value.data| != 8 ==> v == 0
  {
    Pow256Widths();
    match obj
    case None => 0
    case Some(BufferObject(data)) =>
      if |data| == 4 then LeValue(data)
      else if |data| == 8 then LeValue(data)
      else 0
    case Some(IntegerObject(value)) => value
    case Some(OtherObject) => 0
  }

  /** `acer_wmi_apgeaction_exec_u64`: a failed evaluation returns its status and leaves
      `*out` unwritten; a successful one returns AE_OK and always writes `*out`. */
  function ExecU64(outcome: WmiOutcome): (r: ExecResult)
    ensures AcpiFailure(r.status) <==> r.out.None?
    ensures outcome.EvalFailed? <==> AcpiFailure(r.status)
    ensures outcome.EvalFailed? ==> r.status == outcome.status
    ensures outcome.Evaluated? ==> r.out == Some(ResultValue(outcome.result))
  {
    match outcome
    case EvalFailed(s) => ExecResult(s, None)
    case Evaluated(obj) => ExecResult(AE_OK, Some(ResultValue(obj)))
  }

  /** Whatever width the firmware uses to return a value, the driver reads the value
      back: a `u32` stored into a 4-byte buffer, a `u64` into an 8-byte buffer, or the
      value as an integer object. */
  lemma ExecU64RoundTrip(v: u64)
    ensures v < Pow256(4) ==> ExecU64(Evaluated(Some(BufferObject(LeBytes(v, 4))))).out == Some(v)
    ensures ExecU64(Evaluated(Some(BufferObject(U64Bytes(v))))).out == Some(v)
    ensures ExecU64(Evaluated(Some(IntegerObject(v)))).out == Some(v)
  {
    Pow256Widths();
  }

  /** The driver passes the argument so that the firmware can read it back. */
  lemma ExecCallCarriesInput(methodId: nat, v: u64)
    ensures |ExecCall(methodId, v).input| == 8
    ensures LeValue(ExecCall(methodId, v).input) == v
  {
  }
}
