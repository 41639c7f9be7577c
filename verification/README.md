# Acer WMI extension driver: protocol and mirror model

A Dafny model of the protocol and state-translation core of two Linux drivers for
Acer laptops:

- `acer-wmi-ext.c`, the extension driver. It covers battery health and calibration
  modes over the battery WMI interface (GUID `79772EC5-…`, methods 20 and 21). It
  covers USB charging and its limit over the "ApgeAction" interface (GUID
  `61EF69EA-…`), which uses one 64-bit code space. It also covers the system control
  (fan/performance) mode, a byte in embedded-controller register 0x45, which is
  exposed to the host's platform-profile framework.
- `acer_battery_wmi.c`, a standalone driver for the same battery interface. Its
  response checks are stricter.

Every operation is a pure function, or one method for the retry loop. It takes the
driver's current mirror (its cached copy of firmware state), the already-parsed
user value, and the answers of the firmware or embedded controller as parameters.
It returns the C return value, the new mirror, and the list of firmware and EC calls
it issued. "No firmware call" therefore means an empty call list. Byte layouts are
`seq<byte>`. Integers the firmware returns are decoded little-endian, as on x86.

Modules: `Bytes` (little-endian encoding), `Acpi` (statuses, result objects, error
numbers, call records), `Quirks` (capability record and DMI matching),
`BatteryProtocol`, `ApgeAction`, `UsbCharge`, `SystemControl`, `ProfileSetup`,
`DriverInit` (load-time start-up), `BatteryWmi` (the standalone driver) and
`CrossCheck` (lemmas relating the two drivers).

## Notes on the source

Behaviours of the code worth knowing; the model follows the code in each.

- Capability lookup uses `DMI_MATCH`, which is a substring test. A product name that
  contains "Swift SFG14-73" also gets that model's capabilities
  (`Quirks.SubstringMatchSelectsModel`).
- `usb_charge_mode_store` assigns the mirror before calling the firmware
  (acer-wmi-ext.c:507). A failed call therefore still changes the mirror.
  `usb_charge_limit_store` never updates any mirror. Its guard is `== 0`, so an
  unknown mirror (-1) does not block a limit write.
- The system-control-mode store is gated by the mirror, and the capability record
  is not consulted (acer-wmi-ext.c:409). On a machine without the capability
  the mirror stays -1, so the store returns 0 and does nothing.
- The battery query request is 4 bytes: battery number, query flag, and two reserved
  bytes (acer-wmi-ext.c:46-50).
- The set response must be 4 bytes (acer-wmi-ext.c:281), while the declared
  response record `set_battery_health_control_output` is 2 bytes.
- The mode stores ignore the set result. They return the byte count whatever the
  firmware answered. For a mode the firmware does not list, they return 0.
- The load-time parameter `enable_system_control_mode` is documented as 0 = balanced,
  1 = silent, 2 = performance (acer-wmi-ext.c:99). The code accepts 1..3 with 1 =
  balanced. This mismatch is recorded here and not resolved
  (`SystemControl.DocumentedParameterValuesMisread`).
- The extension driver copies the response record out of the buffer before it checks
  the buffer length, in the query (acer-wmi-ext.c:224, checked at :226) and in the
  set (:279, checked at :281). The model checks the length first and never reads a
  short buffer.
- `acer_quirks[]` (acer-wmi-ext.c:165-175) has no empty terminating entry.
- When function list is 2, `acer_battery_show_save_mode` prints a variable that is
  never assigned. The model reports this as `HealthIndeterminate`.
- When the battery interface is absent at load time, the battery mirror keeps its
  zero start value. Zero reads as "off", not "unsupported", so the mode stores stay
  open (`DriverInit.AbsentBatteryInterfaceLeavesStoresOpen`).

## Model

| member | source | states |
|---|---|---|
| Bytes.LeBytes | acer-wmi-ext.c:107-108 | the 8 bytes passed for a `u64` argument read back as that argument (store then load is the identity) |
| Bytes.LeBytesOfLeValue | acer-wmi-ext.c:121-124 | loading a buffer and storing the value again gives back the same bytes |
| Quirks.Contains | acer-wmi-ext.c:170-171 | the `strstr` scan finds the string exactly when it occurs somewhere in the field |
| Quirks.FirstMatch | acer-wmi-ext.c:158-175 | the table scan yields the data of the first entry all of whose matches hold, and nothing when no entry applies |
| Quirks.FindQuirks | acer-wmi-ext.c:178-185 | the record is the SFG14-73 one exactly when the vendor contains "Acer" and the product contains "Swift SFG14-73"; otherwise it is the all-zero default |
| Quirks.SubstringMatchSelectsModel | acer-wmi-ext.c:170-173 | a product name that merely starts with the model string selects that model's capabilities |
| Quirks.MissingFieldGivesUnknown | acer-wmi-ext.c:183-184 | a missing DMI field leaves both optional controls off |
| BatteryProtocol.EncodeQueryInput | acer-wmi-ext.c:46-50 | the 4-byte query request layout, and parsing it back gives the same record |
| BatteryProtocol.ParseQueryOutput | acer-wmi-ext.c:52-56 | a response is read only from exactly 8 bytes, and its fields re-encode to those bytes |
| BatteryProtocol.EncodeQueryOutput | acer-wmi-ext.c:52-56 | encoding a response and parsing it gives the same response back |
| BatteryProtocol.ListedBits | acer-wmi-ext.c:233-236 | the C bit tests `& HEALTH_MODE` and `& CALIBRATION_MODE` are bits 0 and 1 of the function list |
| BatteryProtocol.DecodeStatus | acer-wmi-ext.c:233-238 | a mode is unsupported exactly when its bit is clear, whatever the status bytes hold; otherwise it is on exactly when its status byte is nonzero |
| BatteryProtocol.DecodeReadsOnlyItsBits | acer-wmi-ext.c:233-238 | the return bytes, the higher bits and status bytes 2..4 do not affect the decoded mirror |
| BatteryProtocol.GetStatus | acer-wmi-ext.c:187-243 | success exactly for an 8-byte buffer; a failed evaluation passes its status on; any other malformed answer gives AE_ERROR; the mirror is unchanged on every failure |
| BatteryProtocol.QueryRoundTrip | acer-wmi-ext.c:224-238 | an encoded response is decoded back into exactly its mirror, whatever the previous mirror was |
| BatteryProtocol.ShortResponseRejected | acer-wmi-ext.c:226-231 | a 7-byte response gives AE_ERROR and leaves the mirror unchanged |
| BatteryProtocol.EncodeSetInput | acer-wmi-ext.c:58-63 | the set request is 8 bytes, and parsing them back gives the same record (battery, mask, status, five reserved bytes) |
| BatteryProtocol.SetRequestLayout | acer-wmi-ext.c:252-257 | the set request is battery 1, the mode's own mask bit, the requested state as 0/1, and zeros |
| BatteryProtocol.SetControl | acer-wmi-ext.c:245-291 | success exactly for a 4-byte buffer, with contents ignored; a failed evaluation passes its status on; any other malformed answer gives AE_ERROR |
| BatteryProtocol.ModeStore | acer-wmi-ext.c:348-392 | a mode whose mirror is negative is a no-op returning 0; otherwise the store sends set then refresh and returns the count; the mirror changes only through a well-formed refresh answer |
| BatteryProtocol.ModeStoreIgnoresSetResult | acer-wmi-ext.c:360-363 | the result of the set request has no influence on the store |
| BatteryProtocol.ModeStoreIdempotent | acer-wmi-ext.c:326-337 | storing a value twice leaves the same mirror as storing it once, given the same final refresh |
| ApgeAction.ResultValue | acer-wmi-ext.c:117-128 | 4-byte buffer gives its u32, 8-byte buffer its u64, integer object its value; no object, any other length or any other type gives 0 |
| ApgeAction.ExecU64 | acer-wmi-ext.c:106-136 | a failed evaluation returns its status and leaves `*out` unwritten; success returns AE_OK and always writes `*out` |
| ApgeAction.ExecU64RoundTrip | acer-wmi-ext.c:119-127 | a value the firmware returns as u32 buffer, u64 buffer or integer is read back unchanged |
| ApgeAction.ExecCallCarriesInput | acer-wmi-ext.c:108 | the argument is passed as 8 bytes that decode to the argument |
| UsbCharge.CommandIsQueryPlusOffset | acer-wmi-ext.c:494-504 | every command code (off and 10/20/30 %) equals its report code plus 4 |
| UsbCharge.QueryCodesDistinct | acer-wmi-ext.c:459-470 | the off code and the three limit codes are pairwise distinct |
| UsbCharge.StatusDecode | acer-wmi-ext.c:459-470 | 0 exactly for 663296; 1 exactly for the three limit codes; -1 for every other code |
| UsbCharge.LimitDecode | acer-wmi-ext.c:538-550 | the three limit codes give 10/20/30; every other code, the off code included, gives -1 |
| UsbCharge.DecodersAgree | acer-wmi-ext.c:538-550 | a code reports "on" exactly when it reports a limit |
| UsbCharge.ModeCommand | acer-wmi-ext.c:494-504 | 0 maps to the off command, 1 to the 30 % command, and every other value to no command |
| UsbCharge.LimitCommand | acer-wmi-ext.c:578-591 | 10/20/30 map to their tier's command code, and every other value to no command |
| UsbCharge.CommandRoundTrip | acer-wmi-ext.c:578-591 | the report code of each command decodes to the mode or limit that was stored |
| UsbCharge.InitUsbChargeMode | acer-wmi-ext.c:437-471 | skipped without the quirk or the interface; a failed query leaves the mirror alone; otherwise the mirror is the decoded status |
| UsbCharge.MissingAnswerMeansUnknown | acer-wmi-ext.c:452-470 | an answer with no object, an object of another type, or a buffer of neither 4 nor 8 bytes reads as 0, so the mirror becomes -1 |
| UsbCharge.UsbChargeModeStore | acer-wmi-ext.c:478-517 | the quirk is checked first, then the value is checked, all before any call; the mirror takes the value even when the set call fails (then -ENODEV) |
| UsbCharge.UsbChargeLimitShow | acer-wmi-ext.c:519-554 | quirk off gives -EOPNOTSUPP; a failed query gives -ENODEV; otherwise the decoded limit (-1, 10, 20 or 30) |
| UsbCharge.UsbChargeLimitStore | acer-wmi-ext.c:556-603 | checks run in order (quirk, then mirror == 0, then value), all before any call; the store touches no mirror |
| UsbCharge.LimitRefusedWhileOff | acer-wmi-ext.c:569-573 | with the mirror off, every limit is refused with -EINVAL and nothing is sent |
| UsbCharge.FailedOffStillBlocksLimit | acer-wmi-ext.c:506-513 | a rejected "off" command still blocks later limit writes, because the mirror was assigned first |
| SystemControl.ScmStore | acer-wmi-ext.c:403-434 | unread mirror gives 0 and no write; a value outside 1..3 gives -EINVAL and no write; a failed write leaves the mirror; success mirrors the value |
| SystemControl.ScmInit | acer-wmi-ext.c:628-669 | the flag is set even when the read fails; after a read the mirror holds the register; the parameter must be 1..3; a written value is mirrored only on success |
| SystemControl.DocumentedParameterValuesMisread | acer-wmi-ext.c:96-100 | the documented value 0 (balanced) is refused, and the documented value 2 (performance) selects silent |
| SystemControl.ProfileMappingBijective | acer-wmi-ext.c:702-766 | get and set are mutually inverse bijections between modes 1..3 and the three advertised profiles |
| SystemControl.ProfileGet | acer-wmi-ext.c:702-721 | a mode outside 1..3 gives -EOPNOTSUPP; otherwise one of the three profiles, which maps back to the mode |
| SystemControl.ProfileSet | acer-wmi-ext.c:723-766 | refused without the quirk or for another profile; a no-op when the mode is already current; otherwise one write, and after success get returns the profile that was set |
| SystemControl.ProfileSetIdempotent | acer-wmi-ext.c:749-753 | setting the same profile again issues no write |
| SystemControl.ProfileProbe | acer-wmi-ext.c:677-700 | refused without the quirk; runs the mode initialisation only if it has not run, and fails with it; adds the three choices exactly on success and none on failure |
| SystemControl.StoreThenGetReportsMode | acer-wmi-ext.c:403-434 | after a successful store of a valid mode, get reports that mode's profile, and setting that profile writes nothing |
| SystemControl.StoreThenReadBack | acer-wmi-ext.c:403-434 | writing mode 2 over a register read as 1 is read back as 2 (LowPower) |
| ProfileSetup.BackoffStep | acer-wmi-ext.c:801 | `min(delay * 2, 1000)` steps the closed-form schedule by one |
| ProfileSetup.BackoffSchedule | acer-wmi-ext.c:777-802 | the delays are 100, 200, 400, 800, then 1000 for every later gap |
| ProfileSetup.PlatformProfileSetup | acer-wmi-ext.c:775-806 | quirk off returns 0 with no attempt; otherwise at most 10 attempts stopping at the first success; one sleep between attempts and none after the last; all failing returns the last error |
| ProfileSetup.FullScheduleTotal | acer-wmi-ext.c:786-803 | when every attempt fails, the nine sleeps total 6500 ms |
| BatteryWmi.SetRequestBytes | acer_battery_wmi.c:48-55 | the set request is battery 1, mask 1 (health only), the value, and five zero bytes |
| BatteryWmi.QueryRequestBytes | acer_battery_wmi.c:88-90 | the query request is 4 bytes: battery 1, query 1, and a 16-bit reserved field whose little-endian value is zero |
| BatteryWmi.ExecMethod | acer_battery_wmi.c:43-78 | AE_OK exactly for a 4-byte buffer, whatever its return code; every failure is AE_ERROR |
| BatteryWmi.ShowSaveMode | acer_battery_wmi.c:80-135 | -ENODEV unless the answer is an 8-byte buffer with a zero first return byte and a function list of 1, 2 or 3; for 1 and 3 health is `status[0] > 0`; for 2 it is undetermined |
| BatteryWmi.StoreSaveMode | acer_battery_wmi.c:137-148 | only 0 and 1 are accepted, and other values send nothing (-EINVAL); a failed set gives -ENODEV; success returns the count |
| DriverInit.BatteryStartUp | acer-wmi-ext.c:864-878 | a failing load-time health set or status query aborts with -EIO, and a failed set is not followed by the query; a 4-byte set answer (when a set is requested) and an 8-byte query answer give 0 and mirror the decoded status; without the interface nothing is sent |
| DriverInit.ModuleInit | acer-wmi-ext.c:859-886 | the load result and the battery mirror are exactly the battery part's, so the mode initialisation's error is ignored; calls run battery, then embedded controller, then USB, and a failed load stops after the battery part; a failed USB query leaves the USB mirror at 0; controls a machine lacks keep their start mirrors |
| DriverInit.UnknownModelGatesOptionalControls | acer-wmi-ext.c:178-185 | on an unknown machine every USB and profile operation is refused before any call, and the mode store silently does nothing |
| DriverInit.FailedModeReadIsFinal | acer-wmi-ext.c:634-641 | a failed first register read is never retried; the probe still advertises the profiles, and get fails |
| DriverInit.AbsentBatteryInterfaceLeavesStoresOpen | acer-wmi-ext.c:348-364 | without the battery interface the zero mirror leaves the mode stores open |
| CrossCheck.SameBatteryInterface | acer_battery_wmi.c:14 | the two drivers' GUID strings name the same interface, and they use the same method ids |
| CrossCheck.SameQueryRequest | acer_battery_wmi.c:88-91 | both drivers send the same 4-byte status query |
| CrossCheck.SameHealthSetRequest | acer_battery_wmi.c:48-56 | the standalone store sends the same bytes as the extension driver's health set |
| CrossCheck.SetResponseChecksAgree | acer_battery_wmi.c:58-77 | both set paths accept exactly 4-byte buffers; on a failed evaluation only the extension driver passes the status on |
| CrossCheck.DecodersAgreeOnHealth | acer_battery_wmi.c:108-131 | where the standalone driver shows a health state, the extension driver mirrors the same state; for list 2 it mirrors health as unsupported |
| CrossCheck.AgreementOnCommonGround | acer_battery_wmi.c:111-125 | with return byte 0 and list 1 or 3, both drivers accept and report the same health |
| CrossCheck.ExtensionDriverIsMoreLenient | acer_battery_wmi.c:108-128 | every 8-byte response with a nonzero return byte or a function list other than 1, 2 or 3 is rejected by the standalone driver and accepted and decoded by the extension driver |
| CrossCheck.LenientExamples | acer_battery_wmi.c:108-128 | two such responses, a nonzero return byte and list 5, both read as health on by the extension driver |

## Left out

- Text formatting and parsing of the attribute files is not modelled: `sprintf`,
  `kstrtobool`, `kstrtoint` and `sscanf`. Stores take the already-parsed value: a
  boolean, an `int`, or a byte for the `%hhd`-into-`u8` stores. The parse-error
  returns are therefore not modelled.
- The show callbacks that only print a mirror (`health_mode_show`,
  `calibration_mode_show`, `system_control_mode_show`, `usb_charge_mode_show`) are
  not modelled separately. What they print is the mirror itself.
- Driver registration and teardown are framework plumbing and are left out:
  acer-wmi-ext.c:888-920, acer_battery_wmi.c:150-199, and the empty PM callbacks.
- The foreign calls are parameters of the operations that use them:
  `wmi_evaluate_method`, `wmi_has_guid`, `ec_read`/`ec_write` and
  `devm_platform_profile_register`. The `wmi_has_guid` test is not recorded in the
  call list.
- `msleep` is not modelled. The retry loop returns the delays it would sleep.
- The DMI table scan is reduced to the two fields the table uses. The identification
  strings are an input.
- Memory handling is not modelled (`kfree`, buffer allocation). The null
  dereference in the error messages (acer_battery_wmi.c:66-69, 101-103) is modelled
  as the failure return that follows it.
- Logging is left out: `pr_info`, `pr_err`, `print_modes`, and the transition
  messages of `update_state`. `init_state` is modelled as the status query in
  `DriverInit.BatteryStartUp`.
- The `u64` result of the USB set calls is only logged by the driver, so it is not
  modelled.
- The `if (out)` test in `acer_wmi_apgeaction_exec_u64` is not modelled, because
  every caller passes an address.
- The standalone driver's calibration variables are assigned but never printed, so
  they are not modelled.
- Quirks.FindQuirks: the table `acer_quirks[]` (acer-wmi-ext.c:165-175) has no
  empty terminating entry, and `dmi_check_system` stops only at one. On a machine the
  single entry does not match, the scan reads past the end of the array; what it
  finds there is not defined by the driver. The model ends the scan after the one
  entry and gives the all-zero default.
- BatteryProtocol.GetStatus: `get_battery_health_control_status` copies an 8-byte
  response record out of the buffer (acer-wmi-ext.c:224) before it checks the length
  (:226), so a shorter buffer is read past its end. The model checks the length first
  and never reads a short buffer; the out-of-bounds read is not modelled.
- BatteryProtocol.SetControl: `set_battery_health_control` likewise copies the
  response record (acer-wmi-ext.c:279) before the length check (:281). The model
  checks the length first; the out-of-bounds read is not modelled.
- Concurrency is not modelled. The driver's globals have no locking, and the model
  does not add any.
