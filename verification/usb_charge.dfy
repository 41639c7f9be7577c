/**
 USB charging while the machine is off, and its charge limit. Both share one code
 space on the ApgeAction interface: the get function (sub-parameter 4) reports a
 code, and the set function takes a command code that is the matching report code
 plus 4. The mirror `usb_charge_mode_enable` is -1 (unknown), 0 (off) or 1 (on).
 */
module UsbCharge {
  import opened Bytes
  import opened Acpi
  import opened Quirks
  import opened ApgeAction

  /** The sub-parameter that selects the USB charge state for the get function. */
  const UsbChargeQuery: u64 := 0x4

  /** The three charge limits the firmware knows. */
  datatype Tier = Tier10 | Tier20 | Tier30

  function Percent(t: Tier): int {
    match t
    case Tier10 => 10
    case Tier20 => 20
    case Tier30 => 30
  }

  /** Codes the get function reports. */
  const OffCode: u64 := 663296

  function QueryCode(t: Tier): u64 {
    match t
    case Tier10 => 659200
    case Tier20 => 1314560
    case Tier30 => 1969920
  }

  /** Codes the set function accepts, as the driver spells them out. */
  const OffCommand: u64 := 663300

  function CommandCode(t: Tier): u64 {
    match t
    case Tier10 => 659204
    case Tier20 => 1314564
    case Tier30 => 1969924
  }

  const CommandOffset := 4

  /** The protocol invariant: every command code is its report code plus 4. */
  lemma CommandIsQueryPlusOffset()
    ensures OffCommand == OffCode + CommandOffset
    ensures forall t: Tier :: CommandCode(t) == QueryCode(t) + CommandOffset
  {
  }

  /** The report codes are pairwise distinct, so decoding them is unambiguous. */
  lemma QueryCodesDistinct()
    ensures forall t: Tier :: QueryCode(t) != OffCode
    ensures forall t, t': Tier :: QueryCode(t) == QueryCode(t') ==> t == t'
  {
  }

  /** The mirror value a report code gives: 0 off, 1 on at some limit, -1 unknown. */
  function StatusDecode(code: u64): (s: int)
    ensures s == 0 <==> code == OffCode
    ensures s == 1 <==> exists t: Tier :: code == QueryCode(t)
    ensures s == -1 || s == 0 || s == 1
  {
    if code == OffCode then 0
    else if code == QueryCode(Tier10) || code == QueryCode(Tier20) || code == QueryCode(Tier30) then 1
    else -1
  }

  /** The limit a report code gives; the off code and every unknown code give -1. */
  function LimitDecode(code: u64): (p: int)
    ensures p != -1 <==> exists t: Tier :: code == QueryCode(t)
    ensures forall t: Tier :: code == QueryCode(t) ==> p == Percent(t)
    ensures code == OffCode ==> p == -1
  {
    if code == QueryCode(Tier10) then 10
    else if code == QueryCode(Tier20) then 20
    else if code == QueryCode(Tier30) then 30
    else -1
  }

  /** The two decoders agree: a code reports "on" exactly when it reports a limit. */
  lemma DecodersAgree(code: u64)
    ensures StatusDecode(code) == 1 <==> LimitDecode(code) in {10, 20, 30}
    ensures StatusDecode(code) == 0 ==> LimitDecode(code) == -1
  {
  }

  /** The command `usb_charge_mode_store` sends for a value: off, or on at 30%. */
  function ModeCommand(val: byte): (c: Option<u64>)
    ensures c.Some? <==> val == 0 || val == 1
    ensures val == 0 ==> c == Some(OffCommand)
    ensures val == 1 ==> c == Some(CommandCode(Tier30))
  {
    if val == 0 then Some(663300)
    else if val == 1 then Some(1969924)
    else None
  }

  /** The command `usb_charge_limit_store` sends for a percentage. */
  function LimitCommand(val: byte): (c: Option<u64>)
    ensures c.Some? <==> val == 10 || val == 20 || val == 30
    ensures forall t: Tier :: val == Percent(t) ==> c == Some(CommandCode(t))
  {
    if val == 10 then Some(659204)
    else if val == 20 then Some(1314564)
    else if val == 30 then Some(1969924)
    else None
  }

  /** A firmware that applies a command and then reports the matching code hands back
      the state the command asked for: the stored mode and the stored limit. */
  lemma CommandRoundTrip(val: byte)
    ensures ModeCommand(val).Some? ==> StatusDecode(ModeCommand(val).value - CommandOffset) == val
    ensures LimitCommand(val).Some? ==>
      LimitDecode(LimitCommand(val).value - CommandOffset) == val
      && StatusDecode(LimitCommand(val).value - CommandOffset) == 1
  {
  }

  /** A step of the USB charge controller: return value, mirror, calls issued. */
  datatype UsbStep = UsbStep(ret: int, mirror: int, calls: seq<Call>)

  const UsbQueryCall := ExecCall(GetFunction, UsbChargeQuery)

  /** `init_usb_charge_mode`: skipped without the quirk or the interface; otherwise the
      mirror takes the decoded report, and a failed evaluation leaves it alone. */
  function InitUsbChargeMode(q: QuirkEntry, mirror: int, hasGuid2: bool, outcome: WmiOutcome): (r: UsbStep)
    ensures !HasUsbChargeMode(q) || !hasGuid2 ==> r == UsbStep(0, mirror, [])
    ensures HasUsbChargeMode(q) && hasGuid2 ==> r.calls == [UsbQueryCall]
    ensures outcome.EvalFailed? ==> r.mirror == mirror
    ensures HasUsbChargeMode(q) && hasGuid2 && outcome.Evaluated? ==>
      r.mirror == StatusDecode(ResultValue(outcome.result))
    ensures r.mirror == mirror || r.mirror in {-1, 0, 1}
    ensures r.ret == 0
  {
    if !HasUsbChargeMode(q) || !hasGuid2 then UsbStep(0, mirror, [])
    else
      var e := ExecU64(outcome);
      if AcpiFailure(e.status) then UsbStep(0, mirror, [UsbQueryCall])
      else UsbStep(0, StatusDecode(e.out.value), [UsbQueryCall])
  }

  /** An answer the driver cannot read a value from (no object, an object of another
      type, a buffer of neither 4 nor 8 bytes) reads as 0, an unknown code: the mirror
      becomes -1. */
  lemma MissingAnswerMeansUnknown(q: QuirkEntry, mirror: int, bs: seq<byte>)
    requires HasUsbChargeMode(q)
    ensures InitUsbChargeMode(q, mirror, true, Evaluated(None)).mirror == -1
    ensures InitUsbChargeMode(q, mirror, true, Evaluated(Some(OtherObject))).mirror == -1
    ensures |bs| != 4 && |bs| != 8 ==> InitUsbChargeMode(q, mirror, true, Evaluated(Some(BufferObject(bs)))).mirror == -1
  {
  }

  /** `usb_charge_mode_store`. The value is checked before any call; the mirror is
      assigned BEFORE the set call, so it changes even when that call fails. */
  function UsbChargeModeStore(q: QuirkEntry, mirror: int, val: byte, count: nat, outcome: WmiOutcome): (r: UsbStep)
    ensures !HasUsbChargeMode(q) ==> r == UsbStep(-EOPNOTSUPP, mirror, [])
    ensures HasUsbChargeMode(q) && val != 0 && val != 1 ==> r == UsbStep(-EINVAL, mirror, [])
    ensures HasUsbChargeMode(q) && (val == 0 || val == 1) ==>
      && r.mirror == val
      && r.calls == [ExecCall(SetFunction, ModeCommand(val).value)]
      && (r.ret == count <==> outcome.Evaluated?)
      && (outcome.EvalFailed? ==> r.ret == -ENODEV)
  {
    if !HasUsbChargeMode(q) then UsbStep(-EOPNOTSUPP, mirror, [])
    else match ModeCommand(val)
      case None => UsbStep(-EINVAL, mirror, [])
      case Some(cmd) =>
        var e := ExecU64(outcome);
        var call := [ExecCall(SetFunction, cmd)];
        if AcpiFailure(e.status) then UsbStep(-ENODEV, val, call)
        else UsbStep(count, val, call)
  }

  /** What a show callback reports: a value, or an error. */
  datatype Shown = ShownValue(value: int) | ShowError(errno: int)

  /** `usb_charge_limit_show`: queries the firmware and decodes the limit. */
  function UsbChargeLimitShow(q: QuirkEntry, outcome: WmiOutcome): (r: Shown)
    ensures !HasUsbChargeMode(q) ==> r == ShowError(-EOPNOTSUPP)
    ensures HasUsbChargeMode(q) && outcome.EvalFailed? ==> r == ShowError(-ENODEV)
    ensures HasUsbChargeMode(q) && outcome.Evaluated? ==>
      r.ShownValue? && r.value in {-1, 10, 20, 30}
      && r.value == LimitDecode(ResultValue(outcome.result))
  {
    if !HasUsbChargeMode(q) then ShowError(-EOPNOTSUPP)
    else
      var e := ExecU64(outcome);
      if AcpiFailure(e.status) then ShowError(-ENODEV)
      else ShownValue(LimitDecode(e.out.value))
  }

  /** `usb_charge_limit_store`. Checks run in order, all before any call: the quirk,
      then the mirror (only a mirror of exactly 0 blocks; an unknown mirror does not),
      then the value. It never assigns the mirror, so no mirror is returned. */
  function UsbChargeLimitStore(q: QuirkEntry, mirror: int, val: byte, count: nat, outcome: WmiOutcome): (r: (int, seq<Call>))
    ensures !HasUsbChargeMode(q) ==> r == (-EOPNOTSUPP, [])
    ensures HasUsbChargeMode(q) && mirror == 0 ==> r == (-EINVAL, [])
    ensures HasUsbChargeMode(q) && mirror != 0 && LimitCommand(val).None? ==> r == (-EINVAL, [])
    ensures HasUsbChargeMode(q) && mirror != 0 && LimitCommand(val).Some? ==>
      && r.1 == [ExecCall(SetFunction, LimitCommand(val).value)]
      && (r.0 == count <==> outcome.Evaluated?)
      && (outcome.EvalFailed? ==> r.0 == -ENODEV)
  {
    if !HasUsbChargeMode(q) then (-EOPNOTSUPP, [])
    else if mirror == 0 then (-EINVAL, [])
    else match LimitCommand(val)
      case None => (-EINVAL, [])
      case Some(cmd) =>
        var e := ExecU64(outcome);
        if AcpiFailure(e.status) then (-ENODEV, [ExecCall(SetFunction, cmd)])
        else (count, [ExecCall(SetFunction, cmd)])
  }

  /** With charging switched off, every limit is refused, and nothing is sent. */
  lemma LimitRefusedWhileOff(q: QuirkEntry, val: byte, count: nat, outcome: WmiOutcome)
    requires HasUsbChargeMode(q)
    ensures UsbChargeLimitStore(q, 0, val, count, outcome) == (-EINVAL, [])
  {
  }

  /** Turning charging off through the mode store blocks later limit writes even when
      the firmware rejected the off command, because the mirror was assigned first. */
  lemma FailedOffStillBlocksLimit(q: QuirkEntry, m: int, count: nat, status: FailureStatus,
                                  val: byte, outcome: WmiOutcome)
    requires HasUsbChargeMode(q)
    ensures var s := UsbChargeModeStore(q, m, 0, count, EvalFailed(status));
      s.ret == -ENODEV && UsbChargeLimitStore(q, s.mirror, val, count, outcome) == (-EINVAL, [])
  {
  }
}
