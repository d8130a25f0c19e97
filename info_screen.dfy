/** The first-run form: student name and the two phone numbers. */
module InfoScreen {
  import opened Text
  import opened Types
  import opened InputPhone

  datatype Form = Form(name: string, sPhone: PhoneField, pPhone: PhoneField)

  /** Both phones start as `010-` and not yet valid. */
  const InitialForm: Form := Form("", PhoneField("010-", false), PhoneField("010-", false))

  /** A name with something besides white space, and two valid phones. */
  predicate IsFormValid(f: Form) {
    |Trim(f.name)| > 0 && f.sPhone.isValid && f.pPhone.isValid
  }

  /** `handleNext`: nothing when invalid, else the three profile fields as typed. */
  function HandleNext(f: Form): Option<PartialUserData> {
    if !IsFormValid(f) then None
    else Some(PartialUserData(None, Some(f.name), Some(f.sPhone.value), Some(f.pPhone.value), None, None))
  }

  lemma InitialFormInvalid()
    ensures !IsFormValid(InitialForm)
    ensures HandleNext(InitialForm) == None
  {
  }

  /** Valid iff the name is not blank and both phones report valid. */
  lemma IsFormValidIff(f: Form)
    ensures IsFormValid(f) <==> !IsBlank(f.name) && f.sPhone.isValid && f.pPhone.isValid
  {
    TrimEmptyIffBlank(f.name);
  }

  /** A valid form passes exactly the untrimmed name and the two phone values, and nothing else. */
  lemma HandleNextSupplies(f: Form)
    ensures HandleNext(f).None? <==> !IsFormValid(f)
    ensures HandleNext(f).Some? ==>
      var p := HandleNext(f).value;
      p.studentName == Some(f.name) && p.studentPhone == Some(f.sPhone.value)
      && p.parentPhone == Some(f.pPhone.value)
      && p.role.None? && p.isApplied.None? && p.selectedShuttleId.None?
  {
  }

  /** A name of spaces only is refused even with two valid phones. */
  lemma BlankNameRefused(s: PhoneField, p: PhoneField)
    ensures HandleNext(Form("  ", s, p)) == None
  {
    TrimEmptyIffBlank("  ");
  }
}
