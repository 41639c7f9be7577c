/**
 The per-model capability record and its selection from the machine's DMI strings.
 A table entry applies when every one of its matches finds its string INSIDE the
 corresponding DMI field (the kernel's `DMI_MATCH` is a substring test); the first
 applicable entry wins, and a machine no entry applies to gets the all-zero record.
 */
module Quirks {
  import opened Bytes
  import opened Acpi

  /** Which optional controls a machine has; a zero byte means absent. */
  datatype QuirkEntry = QuirkEntry(systemControlMode: byte, usbChargeMode: byte)

  const QuirkUnknown := QuirkEntry(0, 0)
  /** Declared by the driver but referenced by no table entry. */
  const QuirkAcerSystemControlMode := QuirkEntry(1, 0)
  const QuirkAcerSfg14_73 := QuirkEntry(1, 1)

  predicate HasSystemControlMode(q: QuirkEntry) {
    q.systemControlMode != 0
  }

  predicate HasUsbChargeMode(q: QuirkEntry) {
    q.usbChargeMode != 0
  }

  datatype DmiField = SysVendor | ProductName

  /** The identification strings the firmware reports; a field may be missing. */
  datatype DmiInfo = DmiInfo(sysVendor: Option<string>, productName: Option<string>)

  datatype DmiMatch = DmiMatch(field: DmiField, substr: string)

  datatype DmiSystemId = DmiSystemId(ident: string, matches: seq<DmiMatch>, driverData: QuirkEntry)

  const AcerQuirks: seq<DmiSystemId> := [
    DmiSystemId("Acer Swift SFG14-73",
                [DmiMatch(SysVendor, "Acer"), DmiMatch(ProductName, "Swift SFG14-73")],
                QuirkAcerSfg14_73)
  ]

  /** `needle` occurs in `hay` starting at position `j`. */
  predicate OccursAt(needle: string, hay: string, j: nat) {
    j + |needle| <= |hay| && hay[j..j + |needle|] == needle
  }

  ghost predicate IsSubstring(needle: string, hay: string) {
    exists j: nat :: OccursAt(needle, hay, j)
  }

  /** The `strstr` scan from position `i` onwards. */
  function SearchFrom(needle: string, hay: string, i: nat): (r: bool)
    requires i <= |hay|
    ensures r <==> exists j: nat :: i <= j && OccursAt(needle, hay, j)
    decreases |hay| - i
  {
    if OccursAt(needle, hay, i) then true
    else if i + |needle| >= |hay| then
      assert forall j: nat :: i < j ==> !OccursAt(needle, hay, j);
      false
    else SearchFrom(needle, hay, i + 1)
  }

  /** `strstr(hay, needle) != NULL`. */
  function Contains(hay: string, needle: string): (r: bool)
    ensures r <==> IsSubstring(needle, hay)
  {
    SearchFrom(needle, hay, 0)
  }

  function Field(info: DmiInfo, f: DmiField): Option<string> {
    match f
    case SysVendor => info.sysVendor
    case ProductName => info.productName
  }

  /** One `DMI_MATCH`: the field is present and contains the string. */
  predicate FieldMatches(info: DmiInfo, m: DmiMatch) {
    var v := Field(info, m.field);
    v.Some? && Contains(v.value, m.substr)
  }

  predicate EntryMatches(d: DmiSystemId, info: DmiInfo) {
    forall k :: 0 <= k < |d.matches| ==> FieldMatches(info, d.matches[k])
  }

  /** The driver data of the first entry of `table` that applies to `info`. */
  function FirstMatch(table: seq<DmiSystemId>, info: DmiInfo): (r: Option<QuirkEntry>)
    ensures r.None? <==> forall k :: 0 <= k < |table| ==> !EntryMatches(table[k], info)
    ensures r.Some? ==>
      exists k :: 0 <= k < |table| && EntryMatches(table[k], info) && r.value == table[k].driverData
                  && forall j :: 0 <= j < k ==> !EntryMatches(table[j], info)
  {
    if |table| == 0 then None
    else if EntryMatches(table[0], info) then Some(table[0].driverData)
    else
      var r := FirstMatch(table[1..], info);
      assert forall k :: 1 <= k < |table| ==> table[k] == table[1..][k - 1];
      r
  }

  /** The capability record the driver settles on at load time. */
  function FindQuirks(info: DmiInfo): (q: QuirkEntry)
    ensures q == QuirkUnknown || q == QuirkAcerSfg14_73
    ensures q == QuirkAcerSfg14_73 <==>
      && info.sysVendor.Some? && IsSubstring("Acer", info.sysVendor.value)
      && info.productName.Some? && IsSubstring("Swift SFG14-73", info.productName.value)
  {
    var m := FirstMatch(AcerQuirks, info);
    assert m.Some? <==> EntryMatches(AcerQuirks[0], info);
    assert EntryMatches(AcerQuirks[0], info) <==>
      FieldMatches(info, AcerQuirks[0].matches[0]) && FieldMatches(info, AcerQuirks[0].matches[1]);
    if m.Some? then m.value else QuirkUnknown
  }

  /** The match is by substring, not equality: a product name that merely contains the
      model string selects the model's capabilities. */
  lemma {:induction false} SubstringMatchSelectsModel(suffix: string)
    ensures FindQuirks(DmiInfo(Some("Acer"), Some("Swift SFG14-73" + suffix))) == QuirkAcerSfg14_73
  {
    var p := "Swift SFG14-73" + suffix;
    assert OccursAt("Acer", "Acer", 0);
    assert p[0..|"Swift SFG14-73"|] == "Swift SFG14-73";
    assert OccursAt("Swift SFG14-73", p, 0);
  }

  /** A machine whose vendor or product field is missing gets no optional control. */
  lemma MissingFieldGivesUnknown(info: DmiInfo)
    requires info.sysVendor.None? || info.productName.None?
    ensures FindQuirks(info) == QuirkUnknown
    ensures !HasSystemControlMode(FindQuirks(info)) && !HasUsbChargeMode(FindQuirks(info))
  {
  }
}
