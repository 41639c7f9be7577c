/**
 The system control (fan/performance) mode: one byte in an embedded-controller
 register, mirrored in `control_mode` (-1 until first read), written through the
 mode store, set once at load time, and exposed to the host's platform-profile
 framework as LowPower/Balanced/Performance.
 */
module SystemControl {
  import opened Bytes
  import opened Acpi
  import opened Quirks

  /** The embedded-controller register holding the mode. */
  const EcOffset: byte := 0x45

  const ModeBalanced := 1
  const ModeSilent := 2
  const ModePerformance := 3

  predicate ValidMode(v: int) {
    ModeBalanced <= v <= ModePerformance
  }

  /** The mirror `control_mode` and the flag recording that initialisation has run. */
  datatype ScmState = ScmState(controlMode: int, inited: bool)

  const InitialScmState := ScmState(-1, false)

  /** A step of the controller: return value, state afterwards, calls issued. */
  datatype ScmStep = ScmStep(ret: int, state: ScmState, calls: seq<Call>)

  /** `system_control_mode_store` for an already-parsed integer. Nothing happens before
      the mirror has been read (0 is returned); an out-of-range value is refused before
      any write; the mirror takes the value only after the write succeeded. */
  function ScmStore(s: ScmState, val: int, count: nat, ecWrite: EcWriteStatus): (r: ScmStep)
    ensures s.controlMode < 0 ==> r == ScmStep(0, s, [])
    ensures s.controlMode >= 0 && !ValidMode(val) ==> r == ScmStep(-EINVAL, s, [])
    ensures s.controlMode >= 0 && ValidMode(val) ==> r.calls == [EcWriteCall(EcOffset, val)]
    ensures s.controlMode >= 0 && ValidMode(val) && ecWrite < 0 ==> r.ret == ecWrite && r.state == s
    ensures s.controlMode >= 0 && ValidMode(val) && ecWrite == 0 ==>
      r.ret == count && r.state == ScmState(val, s.inited)
    ensures r.state.inited == s.inited
  {
    if s.controlMode < 0 then ScmStep(0, s, [])
    else if val < ModeBalanced || val > ModePerformance then ScmStep(-EINVAL, s, [])
    else
      var call := [EcWriteCall(EcOffset, val)];
      if ecWrite < 0 then ScmStep(ecWrite, s, call)
      else ScmStep(count, s.(controlMode := val), call)
  }

  /** `acer_system_control_mode_init` with the load-time parameter `enableParam`
      (negative: leave the register alone). The flag is set before the register is
      read, so a failed read is never retried. After a successful read the mirror holds
      the register byte; a valid parameter is then written and, on success, mirrored.
      The parameter is checked against 1..3. */
  function ScmInit(s: ScmState, enableParam: int, ecRead: EcRead, ecWrite: EcWriteStatus): (r: ScmStep)
    ensures r.state.inited
    ensures ecRead.EcReadFailed? ==>
      r == ScmStep(ecRead.err, s.(inited := true), [EcReadCall(EcOffset)])
    ensures ecRead.EcReadOk? && (enableParam < 0 || (ValidMode(enableParam) && ecWrite < 0)) ==>
      r.state.controlMode == ecRead.value
    ensures ecRead.EcReadOk? && enableParam < 0 ==>
      r.ret == 0 && r.calls == [EcReadCall(EcOffset)]
    ensures ecRead.EcReadOk? && enableParam >= 0 && !ValidMode(enableParam) ==>
      r == ScmStep(-EINVAL, ScmState(ecRead.value, true), [EcReadCall(EcOffset)])
    ensures ecRead.EcReadOk? && ValidMode(enableParam) ==>
      && r.calls == [EcReadCall(EcOffset), EcWriteCall(EcOffset, enableParam)]
      && (ecWrite < 0 ==> r.ret == ecWrite)
      && (ecWrite == 0 ==> r.ret == 0 && r.state.controlMode == enableParam)
    ensures r.ret <= 0
  {
    var s1 := s.(inited := true);
    match ecRead
    case EcReadFailed(err) => ScmStep(err, s1, [EcReadCall(EcOffset)])
    case EcReadOk(tp) =>
      var s2 := s1.(controlMode := tp);
      if enableParam < 0 then ScmStep(0, s2, [EcReadCall(EcOffset)])
      else if enableParam < ModeBalanced || enableParam > ModePerformance then
        ScmStep(-EINVAL, s2, [EcReadCall(EcOffset)])
      else
        var calls := [EcReadCall(EcOffset), EcWriteCall(EcOffset, enableParam)];
        if ecWrite < 0 then ScmStep(ecWrite, s2, calls)
        else ScmStep(0, s2.(controlMode := enableParam), calls)
  }

  /** The parameter's documentation numbers the modes 0..2, but the check is 1..3: the
      documented "balanced" value 0 is refused, and the documented "performance" value
      2 selects the silent mode. */
  lemma DocumentedParameterValuesMisread(s: ScmState, tp: byte)
    ensures ScmInit(s, 0, EcReadOk(tp), 0).ret == -EINVAL
    ensures ScmInit(s, 0, EcReadOk(tp), 0).state.controlMode == tp
    ensures ScmInit(s, 2, EcReadOk(tp), 0).state.controlMode == ModeSilent
  {
  }

  // ----------------------------------------------------------- platform profiles

  /** The host framework's profile choices. */
  datatype PlatformProfile = LowPower | Cool | Quiet | Balanced | BalancedPerformance | Performance | Custom

  /** The choices this driver advertises. */
  const ProfileChoices: set<PlatformProfile> := {LowPower, Balanced, Performance}

  /** The profile `acer_platform_profile_get` reports for a mode. */
  function ProfileOfMode(mode: int): Option<PlatformProfile> {
    if mode == ModeBalanced then Some(Balanced)
    else if mode == ModePerformance then Some(Performance)
    else if mode == ModeSilent then Some(LowPower)
    else None
  }

  /** The mode `acer_platform_profile_set` writes for a profile. */
  function ModeOfProfile(p: PlatformProfile): Option<int> {
    match p
    case Balanced => Some(ModeBalanced)
    case Performance => Some(ModePerformance)
    case LowPower => Some(ModeSilent)
    case _ => None
  }

  /** The two mappings are mutually inverse bijections between the modes 1..3 and the
      three advertised profiles, and are undefined everywhere else. */
  lemma ProfileMappingBijective()
    ensures forall mode: int :: ProfileOfMode(mode).Some? <==> ValidMode(mode)
    ensures forall p: PlatformProfile :: ModeOfProfile(p).Some? <==> p in ProfileChoices
    ensures forall mode: int :: ValidMode(mode) ==>
      ProfileOfMode(mode).value in ProfileChoices && ModeOfProfile(ProfileOfMode(mode).value) == Some(mode)
    ensures forall p: PlatformProfile :: p in ProfileChoices ==>
      ValidMode(ModeOfProfile(p).value) && ProfileOfMode(ModeOfProfile(p).value) == Some(p)
  {
  }

  datatype ProfileReply = GotProfile(profile: PlatformProfile) | ProfileError(errno: int)

  /** `acer_platform_profile_get`: the profile of the mirrored mode, or -EOPNOTSUPP for
      any mirror outside 1..3 (including the unread -1). */
  function ProfileGet(controlMode: int): (r: ProfileReply)
    ensures r.ProfileError? <==> !ValidMode(controlMode)
    ensures r.ProfileError? ==> r.errno == -EOPNOTSUPP
    ensures r.GotProfile? ==> r.profile in ProfileChoices && ModeOfProfile(r.profile) == Some(controlMode)
  {
    match ProfileOfMode(controlMode)
    case Some(p) => GotProfile(p)
    case None => ProfileError(-EOPNOTSUPP)
  }

  /** `acer_platform_profile_set`: refused without the quirk or for a profile outside
      the three choices; a no-op success when the mode is already current; otherwise
      the register is written and the mirror follows only a successful write, after
      which the framework reads back the profile it set. */
  function ProfileSet(q: QuirkEntry, s: ScmState, p: PlatformProfile, ecWrite: EcWriteStatus): (r: ScmStep)
    ensures !HasSystemControlMode(q) || p !in ProfileChoices ==> r == ScmStep(-EOPNOTSUPP, s, [])
    ensures HasSystemControlMode(q) && p in ProfileChoices && ProfileGet(s.controlMode) == GotProfile(p) ==>
      r == ScmStep(0, s, [])
    ensures HasSystemControlMode(q) && p in ProfileChoices && ProfileGet(s.controlMode) != GotProfile(p) ==>
      && r.calls == [EcWriteCall(EcOffset, ModeOfProfile(p).value)]
      && (ecWrite < 0 ==> r == ScmStep(ecWrite, s, r.calls))
      && (ecWrite == 0 ==> r.ret == 0 && ProfileGet(r.state.controlMode) == GotProfile(p))
    ensures r.state.inited == s.inited
  {
    if !HasSystemControlMode(q) then ScmStep(-EOPNOTSUPP, s, [])
    else match ModeOfProfile(p)
      case None => ScmStep(-EOPNOTSUPP, s, [])
      case Some(newMode) =>
        if newMode == s.controlMode then ScmStep(0, s, [])
        else
          var calls := [EcWriteCall(EcOffset, newMode)];
          if ecWrite < 0 then ScmStep(ecWrite, s, calls)
          else ScmStep(0, s.(controlMode := newMode), calls)
  }

  /** Setting a profile twice issues at most one register write: the second call finds
      the mode current and does nothing. */
  lemma ProfileSetIdempotent(q: QuirkEntry, s: ScmState, p: PlatformProfile, w1: EcWriteStatus, w2: EcWriteStatus)
    requires HasSystemControlMode(q) && p in ProfileChoices
    requires ProfileSet(q, s, p, w1).ret == 0
    ensures var s1 := ProfileSet(q, s, p, w1).state;
      ProfileSet(q, s1, p, w2) == ScmStep(0, s1, [])
  {
  }

  /** `acer_platform_profile_probe`: result, state, the choices it adds, calls issued. */
  datatype ProbeStep = ProbeStep(ret: int, state: ScmState, choices: set<PlatformProfile>, calls: seq<Call>)

  /** Refused without the quirk; runs the mode initialisation once if it has not run
      yet (its failure is the probe's failure); then advertises the three choices. */
  function ProfileProbe(q: QuirkEntry, s: ScmState, enableParam: int, ecRead: EcRead, ecWrite: EcWriteStatus): (r: ProbeStep)
    ensures !HasSystemControlMode(q) ==> r == ProbeStep(-EOPNOTSUPP, s, {}, [])
    ensures HasSystemControlMode(q) && s.inited ==> r == ProbeStep(0, s, ProfileChoices, [])
    ensures HasSystemControlMode(q) && !s.inited ==>
      var i := ScmInit(s, enableParam, ecRead, ecWrite);
      r.state == i.state && r.calls == i.calls && r.ret == i.ret
    ensures r.ret == 0 <==> r.choices == ProfileChoices
    ensures r.ret != 0 ==> r.choices == {}
    ensures HasSystemControlMode(q) ==> r.state.inited
  {
    if !HasSystemControlMode(q) then ProbeStep(-EOPNOTSUPP, s, {}, [])
    else if !s.inited then
      var i := ScmInit(s, enableParam, ecRead, ecWrite);
      if i.ret != 0 then ProbeStep(i.ret, i.state, {}, i.calls)
      else ProbeStep(0, i.state, ProfileChoices, i.calls)
    else ProbeStep(0, s, ProfileChoices, [])
  }

  /** A successful store is read back by the platform-profile framework as the profile
      of the stored mode, and setting that profile afterwards writes nothing. */
  lemma StoreThenGetReportsMode(q: QuirkEntry, s: ScmState, val: int, count: nat, w: EcWriteStatus)
    requires s.controlMode >= 0 && ValidMode(val)
    ensures var t := ScmStore(s, val, count, 0).state;
      && ProfileGet(t.controlMode) == GotProfile(ProfileOfMode(val).value)
      && (HasSystemControlMode(q) ==> ProfileSet(q, t, ProfileOfMode(val).value, w) == ScmStep(0, t, []))
  {
  }

  /** Writing mode 2 over a register read as 1 is read back as 2, i.e. as LowPower. */
  lemma StoreThenReadBack(count: nat)
    ensures var s := ScmInit(InitialScmState, -1, EcReadOk(1), 0).state;
      var t := ScmStore(s, ModeSilent, count, 0);
      t.ret == count && t.state.controlMode == ModeSilent && ProfileGet(t.state.controlMode) == GotProfile(LowPower)
  {
  }
}
