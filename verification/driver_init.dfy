/**
 Load-time start-up of the extension driver: capability lookup, the optional
 load-time battery health setting, the first battery status query, and the
 initialisation of whichever optional controls the machine has. Registration with
 the driver framework that follows is not part of this model.
 */
module DriverInit {
  import opened Bytes
  import opened Acpi
  import opened Quirks
  import opened BatteryProtocol
  import opened UsbCharge
  import opened SystemControl

  /** The load-time parameters (`short`; negative means "leave as is"). */
  datatype ModuleParams = ModuleParams(enableHealthMode: int, enableSystemControlMode: int)

  /** The answers the machine gives during start-up. */
  datatype Firmware = Firmware(
    hasGuid1: bool,
    healthSet: WmiOutcome,
    statusQuery: WmiOutcome,
    ecRead: EcRead,
    ecWrite: EcWriteStatus,
    hasGuid2: bool,
    usbStatus: WmiOutcome)

  /** All mirrors the driver keeps. */
  datatype Mirrors = Mirrors(battery: BatteryInfo, scm: ScmState, usbChargeEnable: int)

  const InitialMirrors := Mirrors(InitialBatteryInfo, InitialScmState, 0)

  datatype InitStep = InitStep(ret: int, mirrors: Mirrors, calls: seq<Call>)

  /** The battery part of start-up: the optional health setting, then the status query.
      Either failing aborts the load with -EIO. */
  function BatteryStartUp(p: ModuleParams, fw: Firmware): (r: InitStep)
    ensures r.ret == 0 || r.ret == -EIO
    ensures r.mirrors.scm == InitialScmState && r.mirrors.usbChargeEnable == 0
    ensures !fw.hasGuid1 ==> r == InitStep(0, InitialMirrors, [])
    ensures fw.hasGuid1 && p.enableHealthMode >= 0 ==>
      |r.calls| > 0 && r.calls[0] == BatteryProtocol.SetCall(HealthMode, p.enableHealthMode > 0)
    ensures fw.hasGuid1 && r.ret == 0 ==>
      BufferOfLength(fw.statusQuery, 8)
      && (p.enableHealthMode < 0 || BufferOfLength(fw.healthSet, 4))
      && r.mirrors.battery == DecodeStatus(ParseQueryOutput(ReturnedBuffer(fw.statusQuery).value).value)
    ensures r.ret != 0 ==> r.mirrors == InitialMirrors
    // and good answers let the battery part succeed
    ensures (&& fw.hasGuid1
             && BufferOfLength(fw.statusQuery, 8)
             && (p.enableHealthMode < 0 || BufferOfLength(fw.healthSet, 4))) ==> r.ret == 0
    // a failed health set returns before the status query is sent
    ensures fw.hasGuid1 ==>
      var setCalls := if p.enableHealthMode >= 0 then [BatteryProtocol.SetCall(HealthMode, p.enableHealthMode > 0)] else [];
      r.calls == if p.enableHealthMode >= 0 && !BufferOfLength(fw.healthSet, 4) then setCalls
                 else setCalls + [StatusQueryCall]
  {
    if !fw.hasGuid1 then InitStep(0, InitialMirrors, [])
    else
      var setCalls := if p.enableHealthMode >= 0 then [BatteryProtocol.SetCall(HealthMode, p.enableHealthMode != 0)] else [];
      if p.enableHealthMode >= 0 && AcpiFailure(SetControl(HealthMode, p.enableHealthMode != 0, fw.healthSet)) then
        InitStep(-EIO, InitialMirrors, setCalls)
      else
        var g := GetStatus(InitialBatteryInfo, fw.statusQuery);
        var calls := setCalls + [StatusQueryCall];
        if AcpiFailure(g.status) then InitStep(-EIO, InitialMirrors, calls)
        else InitStep(0, InitialMirrors.(battery := g.info), calls)
  }

  /** `acer_wmi_ext_init` up to platform-driver registration. The result of the system
      control mode initialisation is ignored: its failure does not stop the load. */
  function ModuleInit(q: QuirkEntry, p: ModuleParams, fw: Firmware): (r: InitStep)
    ensures r.ret == 0 || r.ret == -EIO
    // the load result and the battery mirror are the battery part's alone: neither the
    // system control mode initialisation nor the USB charge query can fail the load
    ensures r.ret == BatteryStartUp(p, fw).ret && r.mirrors.battery == BatteryStartUp(p, fw).mirrors.battery
    ensures r.ret == -EIO ==> fw.hasGuid1 && r.mirrors == InitialMirrors
    ensures r.ret == -EIO ==> forall i :: 0 <= i < |r.calls| ==> r.calls[i].WmiCall?
    ensures !fw.hasGuid1 ==> r.ret == 0 && r.mirrors.battery == InitialBatteryInfo
    ensures !HasSystemControlMode(q) ==> r.mirrors.scm == InitialScmState
    ensures r.ret == 0 && HasSystemControlMode(q) ==>
      r.mirrors.scm == ScmInit(InitialScmState, p.enableSystemControlMode, fw.ecRead, fw.ecWrite).state
    ensures !HasUsbChargeMode(q) || !fw.hasGuid2 ==> r.mirrors.usbChargeEnable == 0
    ensures r.ret == 0 && HasUsbChargeMode(q) && fw.hasGuid2 && fw.usbStatus.Evaluated? ==>
      r.mirrors.usbChargeEnable == StatusDecode(ApgeAction.ResultValue(fw.usbStatus.result))
    // a failed load-time USB query leaves the zero start value
    ensures r.ret == 0 ==> r.mirrors.usbChargeEnable == InitUsbChargeMode(q, 0, fw.hasGuid2, fw.usbStatus).mirror
    ensures r.ret == 0 && fw.usbStatus.EvalFailed? ==> r.mirrors.usbChargeEnable == 0
    // calls run battery, then embedded controller, then USB; a failed load stops after the battery part
    ensures r.ret == 0 ==>
      r.calls == BatteryStartUp(p, fw).calls
        + (if HasSystemControlMode(q)
           then ScmInit(InitialScmState, p.enableSystemControlMode, fw.ecRead, fw.ecWrite).calls else [])
        + InitUsbChargeMode(q, 0, fw.hasGuid2, fw.usbStatus).calls
    ensures r.ret != 0 ==> r.calls == BatteryStartUp(p, fw).calls
  {
    var b := BatteryStartUp(p, fw);
    if b.ret != 0 then b
    else
      var scm := if HasSystemControlMode(q)
        then ScmInit(InitialScmState, p.enableSystemControlMode, fw.ecRead, fw.ecWrite)
        else ScmStep(0, InitialScmState, []);
      var usb := InitUsbChargeMode(q, 0, fw.hasGuid2, fw.usbStatus);
      InitStep(0, Mirrors(b.mirrors.battery, scm.state, usb.mirror), b.calls + scm.calls + usb.calls)
  }

  /** On a machine no quirk entry describes, every USB charge operation and every
      platform-profile operation is refused with -EOPNOTSUPP before any call, and the
      system control mode store silently does nothing (it is gated by the unread
      mirror, not by the capability record). */
  lemma UnknownModelGatesOptionalControls(info: DmiInfo, p: ModuleParams, fw: Firmware,
                                          val: byte, count: nat, o: WmiOutcome,
                                          prof: PlatformProfile, mode: int, w: EcWriteStatus)
    requires FindQuirks(info) == QuirkUnknown
    ensures var q := FindQuirks(info);
      var m := ModuleInit(q, p, fw).mirrors;
      && (forall i :: 0 <= i < |ModuleInit(q, p, fw).calls| ==>
            ModuleInit(q, p, fw).calls[i].WmiCall? && ModuleInit(q, p, fw).calls[i].guid == WmiGuid1)
      && UsbChargeModeStore(q, m.usbChargeEnable, val, count, o) == UsbStep(-EOPNOTSUPP, m.usbChargeEnable, [])
      && UsbChargeLimitStore(q, m.usbChargeEnable, val, count, o) == (-EOPNOTSUPP, [])
      && UsbChargeLimitShow(q, o) == ShowError(-EOPNOTSUPP)
      && ProfileSet(q, m.scm, prof, w) == ScmStep(-EOPNOTSUPP, m.scm, [])
      && ProfileProbe(q, m.scm, p.enableSystemControlMode, fw.ecRead, w).ret == -EOPNOTSUPP
      && ProfileGet(m.scm.controlMode) == ProfileError(-EOPNOTSUPP)
      && ScmStore(m.scm, mode, count, w) == ScmStep(0, m.scm, [])
  {
    var q := FindQuirks(info);
    var b := BatteryStartUp(p, fw);
    var r := ModuleInit(q, p, fw);
    assert r.calls == b.calls;
  }

  /** A failed first read of the mode register is never retried: the mirror stays
      unread, the probe advertises the three profiles anyway without touching the
      register, the store does nothing, and the framework cannot read a profile. */
  lemma FailedModeReadIsFinal(q: QuirkEntry, p: ModuleParams, fw: Firmware,
                              r2: EcRead, w: EcWriteStatus, mode: int, count: nat)
    requires HasSystemControlMode(q) && fw.ecRead.EcReadFailed?
    requires ModuleInit(q, p, fw).ret == 0
    ensures var s := ModuleInit(q, p, fw).mirrors.scm;
      && s == ScmState(-1, true)
      && ProfileProbe(q, s, p.enableSystemControlMode, r2, w) == ProbeStep(0, s, ProfileChoices, [])
      && ScmStore(s, mode, count, w) == ScmStep(0, s, [])
      && ProfileGet(s.controlMode) == ProfileError(-EOPNOTSUPP)
  {
  }

  /** Without the battery interface the battery mirror keeps its zero start value, which
      reads as "off" rather than "unsupported", so the mode stores are not gated: they
      send the set request and return the byte count. */
  lemma AbsentBatteryInterfaceLeavesStoresOpen(q: QuirkEntry, p: ModuleParams, fw: Firmware,
                                              m: BatteryMode, enable: bool, count: nat,
                                              s: WmiOutcome, qo: WmiOutcome)
    requires !fw.hasGuid1
    ensures var info := ModuleInit(q, p, fw).mirrors.battery;
      var st := ModeStore(m, info, enable, count, s, qo);
      st.ret == count && st.calls[0] == BatteryProtocol.SetCall(m, enable)
  {
  }
}
