/**
 The two drivers speak the same battery protocol. They send byte-identical requests
 to the same interface, and where the standalone driver accepts a status response
 both report the same health state; the extension driver accepts more.
 */
module CrossCheck {
  import opened Bytes
  import opened Acpi
  import BP = BatteryProtocol
  import BW = BatteryWmi

  /** The two GUID strings differ only in letter case and so name one interface. */
  lemma SameBatteryInterface()
    ensures SameGuid(BP.WmiGuid1, BW.AcerBatteryGuid)
    ensures BP.QueryMethodId == BW.GetMethodId && BP.SetMethodId == BW.SetMethodId
  {
    var a, b := UpperCase(BP.WmiGuid1), UpperCase(BW.AcerBatteryGuid);
    assert |a| == |b| == 36;
    forall i | 0 <= i < 36
      ensures a[i] == b[i]
    {
    }
  }

  /** Both drivers send the same 4-byte status query. */
  lemma SameQueryRequest()
    ensures BW.QueryRequestBytes() == BP.EncodeQueryInput(BP.StatusQuery)
    ensures BW.QueryCall().input == BP.StatusQueryCall.input
  {
    assert LeBytes(0, 2) == [0, 0];
  }

  /** The standalone driver's store sends exactly the extension driver's health-mode
      set request for the same boolean. */
  lemma SameHealthSetRequest(enable: bool)
    ensures BW.SetCall(if enable then 1 else 0).input == BP.SetCall(BP.HealthMode, enable).input
  {
  }

  /** The two set paths accept the same responses: a 4-byte buffer, whatever it holds.
      They differ on a failed evaluation: the extension driver passes its status on,
      the standalone driver reports AE_ERROR. */
  lemma SetResponseChecksAgree(enable: bool, outcome: WmiOutcome)
    ensures (BP.SetControl(BP.HealthMode, enable, outcome) == AE_OK) <==> (BW.ExecMethod(outcome) == AE_OK)
    ensures outcome.EvalFailed? ==>
      BP.SetControl(BP.HealthMode, enable, outcome) == outcome.status && BW.ExecMethod(outcome) == AE_ERROR
  {
  }

  /** Where the standalone driver shows a health state, the extension driver accepts
      the same response and mirrors the same state; where it shows nothing determined
      (function list 2), the extension driver mirrors health as unsupported. */
  lemma {:induction false} DecodersAgreeOnHealth(info: BP.BatteryInfo, outcome: WmiOutcome)
    ensures BW.ShowSaveMode(outcome).HealthStatus? ==>
      var g := BP.GetStatus(info, outcome);
      g.status == AE_OK
      && g.info.healthMode == (if BW.ShowSaveMode(outcome).on then BP.On else BP.Off)
    ensures BW.ShowSaveMode(outcome).HealthIndeterminate? ==>
      var g := BP.GetStatus(info, outcome);
      g.status == AE_OK && g.info.healthMode == BP.Unsupported && g.info.calibrationMode != BP.Unsupported
  {
    if BufferOfLength(outcome, 8) {
      var bs := ReturnedBuffer(outcome).value;
      var o := BP.ParseQueryOutput(bs).value;
      assert o.functionList == bs[0];
      assert o.functionStatus[0] == bs[3] && o.functionStatus[1] == bs[4];
    }
  }

  /** The converse holds on the common ground: with a zero first return byte and a
      function list of 1 or 3, both drivers accept and agree. */
  lemma {:induction false} AgreementOnCommonGround(info: BP.BatteryInfo, bs: seq<byte>)
    requires |bs| == 8 && bs[1] == 0 && (bs[0] == 1 || bs[0] == 3)
    ensures var outcome := Evaluated(Some(BufferObject(bs)));
      && BW.ShowSaveMode(outcome) == BW.HealthStatus(bs[3] > 0)
      && BP.GetStatus(info, outcome).status == AE_OK
      && BP.GetStatus(info, outcome).info.healthMode == (if bs[3] > 0 then BP.On else BP.Off)
  {
    DecodersAgreeOnHealth(info, Evaluated(Some(BufferObject(bs))));
  }

  /** The extension driver accepts every 8-byte response the standalone driver rejects
      for its contents, a nonzero return byte or a function list other than 1, 2 or 3,
      and mirrors what it decodes from it. */
  lemma ExtensionDriverIsMoreLenient(info: BP.BatteryInfo, bs: seq<byte>)
    requires |bs| == 8 && (bs[1] != 0 || bs[0] !in {1, 2, 3})
    ensures var outcome := Evaluated(Some(BufferObject(bs)));
      && BW.ShowSaveMode(outcome).ShowFailed?
      && BP.GetStatus(info, outcome) == BP.QueryStep(AE_OK, BP.DecodeStatus(BP.ParseQueryOutput(bs).value))
  {
  }

  /** Two such responses: a nonzero return byte, and a function list with a bit beyond
      the two known ones; the extension driver reads both as health on. */
  lemma LenientExamples(info: BP.BatteryInfo)
    ensures var failing := Evaluated(Some(BufferObject([1, 1, 0, 1, 0, 0, 0, 0])));
      BW.ShowSaveMode(failing).ShowFailed? && BP.GetStatus(info, failing) == BP.QueryStep(AE_OK, BP.BatteryInfo(BP.On, BP.Unsupported))
    ensures var extraBits := Evaluated(Some(BufferObject([5, 0, 0, 1, 0, 0, 0, 0])));
      BW.ShowSaveMode(extraBits).ShowFailed? && BP.GetStatus(info, extraBits) == BP.QueryStep(AE_OK, BP.BatteryInfo(BP.On, BP.Unsupported))
  {
  }
}
