/**
 The boundary between the driver and the machine: ACPI status codes, the result
 objects a WMI method evaluation can hand back, the embedded-controller accessors'
 results, Linux error numbers, and a record of every call the driver issues.
 The firmware and the embedded controller themselves are not modelled: their
 answers arrive as parameters of the operations that call them.
 */
module Acpi {
  import opened Bytes

  datatype Option<+T> = None | Some(value: T)

  /** An ACPICA status code; AE_OK is zero and every other value is an exception. */
  type AcpiStatus = nat
  const AE_OK: AcpiStatus := 0
  /** ACPICA's generic environmental exception, AE_CODE_ENVIRONMENTAL | 0x0001. */
  const AE_ERROR: AcpiStatus := 1

  predicate AcpiFailure(s: AcpiStatus) {
    s != AE_OK
  }

  /** The status of an evaluation that failed. */
  type FailureStatus = s: AcpiStatus | s != AE_OK witness AE_ERROR

  /** A result object: a raw buffer, a single integer, or some other ACPI type. */
  datatype AcpiObject =
    | BufferObject(data: seq<byte>)
    | IntegerObject(value: u64)
    | OtherObject

  /** What `wmi_evaluate_method` reports: a failure status, or success together with
      the result object the ACPI method produced (absent when it produced none). */
  datatype WmiOutcome =
    | EvalFailed(status: FailureStatus)
    | Evaluated(result: Option<AcpiObject>)

  /** The bytes of a successful evaluation whose result object is a buffer. */
  function ReturnedBuffer(outcome: WmiOutcome): (r: Option<seq<byte>>)
    ensures r.Some? <==> outcome.Evaluated? && outcome.result.Some? && outcome.result.value.BufferObject?
    ensures r.Some? ==> r.value == outcome.result.value.data
  {
    match outcome
    case Evaluated(Some(BufferObject(data))) => Some(data)
    case _ => None
  }

  /** The outcome is a successful evaluation returning a buffer of exactly `len` bytes. */
  predicate BufferOfLength(outcome: WmiOutcome, len: nat) {
    var b := ReturnedBuffer(outcome);
    b.Some? && |b.value| == len
  }

  /** Linux error numbers (x86); the driver returns them negated. */
  const EIO := 5
  const ENODEV := 19
  const EINVAL := 22
  const EOPNOTSUPP := 95

  /** A negative error return. */
  type Errno = e: int | e < 0 witness -5

  /** What `ec_read` reports: the register byte, or a negative error. */
  datatype EcRead = EcReadOk(value: byte) | EcReadFailed(err: Errno)

  /** What `ec_write` returns: zero, or a negative error. */
  type EcWriteStatus = e: int | e <= 0

  /** A call into firmware or the embedded controller, recorded in the order issued. */
  datatype Call =
    | WmiCall(guid: string, instance: nat, methodId: nat, input: seq<byte>)
    | EcReadCall(address: byte)
    | EcWriteCall(address: byte, value: byte)

  /** Upper-cases an ASCII letter; WMI interface GUIDs are compared without regard to
      the case of their hexadecimal digits. */
  function AsciiUpper(c: char): char {
    if 'a' <= c <= 'z' then (c as int - 32) as char else c
  }

  function UpperCase(s: string): (r: string)
    ensures |r| == |s|
    ensures forall i :: 0 <= i < |s| ==> r[i] == AsciiUpper(s[i])
  {
    seq(|s|, i requires 0 <= i < |s| => AsciiUpper(s[i]))
  }

  /** Two GUID strings name the same WMI interface. */
  predicate SameGuid(a: string, b: string) {
    UpperCase(a) == UpperCase(b)
  }
}
