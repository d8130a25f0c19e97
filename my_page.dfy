/** The profile page: the boarding time it shows, and the edit-and-save of the profile. */
module MyPage {
  import opened Text
  import opened Types
  import opened InputPhone
  import ShuttleSelect
  import MainDashboard

  /** `t0 || Date.now()` of the stored session, read as `{}` when none is stored. */
  function StartOrNow(saved: Option<SessionState>, now: int): int {
    if saved.Some? && saved.value.t0.Some? && saved.value.t0.value != 0 then saved.value.t0.value else now
  }

  /** The delay flags of the stored session; an empty record has neither. */
  function Delay(saved: Option<SessionState>): int {
    if saved.Some? then ShuttleSelect.TotalDelay(saved.value) else 0
  }

  /** The boarding time shown on the page, in ms. */
  function BoardingTime(saved: Option<SessionState>, now: int): int {
    StartOrNow(saved, now) + (30 + Delay(saved)) * 1000
  }

  /** 30, 50 or 70 s after the start; with nothing stored, 30 s from now. */
  lemma BoardingTimeValues(saved: Option<SessionState>, now: int)
    ensures var d := BoardingTime(saved, now) - StartOrNow(saved, now);
      d == 30000 || d == 50000 || d == 70000
    ensures saved.None? ==> BoardingTime(saved, now) == now + 30000
    ensures saved.Some? ==> (BoardingTime(saved, now) - StartOrNow(saved, now) == 70000
                             <==> saved.value.hasRandomDelay && saved.value.isLateRequested)
  {
  }

  /** The dashboard's lock ignores both delays, so the page's time is 0, 20 or 40 s after the dashboard's. */
  lemma LaterThanDashboardCutoff(s: SessionState, now: int)
    ensures BoardingTime(Some(s), now)
         == MainDashboard.BoardingTime(MainDashboard.EffectiveT0(s, now)) + ShuttleSelect.TotalDelay(s) * 1000
    ensures BoardingTime(Some(s), now) >= MainDashboard.BoardingTime(MainDashboard.EffectiveT0(s, now))
  {
  }

  /** The save guard: a name that is not blank after trimming and two valid phones. */
  predicate SaveAllowed(name: string, sPhone: PhoneField, pPhone: PhoneField) {
    |Trim(name)| > 0 && sPhone.isValid && pPhone.isValid
  }

  /** The record after a save: the three profile fields replaced, as typed. */
  function Saved(u: UserData, name: string, sPhone: PhoneField, pPhone: PhoneField): UserData {
    u.(studentName := name, studentPhone := sPhone.value, parentPhone := pPhone.value)
  }

  /** A save writes the three profile fields and leaves role, application and shuttle alone. */
  lemma SavedKeepsOtherFields(u: UserData, name: string, sPhone: PhoneField, pPhone: PhoneField)
    ensures var r := Saved(u, name, sPhone, pPhone);
      r.studentName == name && r.studentPhone == sPhone.value && r.parentPhone == pPhone.value
      && r.role == u.role && r.isApplied == u.isApplied && r.selectedShuttleId == u.selectedShuttleId
    ensures Saved(u, u.studentName, PhoneField(u.studentPhone, true), PhoneField(u.parentPhone, true)) == u
  {
  }

  /** Refused whenever the name is blank, whatever the phones. */
  lemma SaveAllowedIff(name: string, sPhone: PhoneField, pPhone: PhoneField)
    ensures SaveAllowed(name, sPhone, pPhone) <==> !IsBlank(name) && sPhone.isValid && pPhone.isValid
  {
    TrimEmptyIffBlank(name);
  }

  /** The page's edit state over the user record it was given. */
  class ProfileEditor {
    var userData: UserData
    var isEditing: bool
    var editName: string
    var editSPhone: PhoneField
    var editPPhone: PhoneField

    /** The buffers start from the record, both phones taken as valid. */
    constructor (u: UserData)
      ensures userData == u && !isEditing && editName == u.studentName
      ensures editSPhone == PhoneField(u.studentPhone, true) && editPPhone == PhoneField(u.parentPhone, true)
    {
      userData := u;
      isEditing := false;
      editName := u.studentName;
      editSPhone := PhoneField(u.studentPhone, true);
      editPPhone := PhoneField(u.parentPhone, true);
    }

    method StartEditing()
      modifies this
      ensures isEditing
      ensures userData == old(userData) && editName == old(editName)
      ensures editSPhone == old(editSPhone) && editPPhone == old(editPPhone)
    {
      isEditing := true;
    }

    /** What the name field and the two phone fields report. */
    method Edit(name: string, sPhone: PhoneField, pPhone: PhoneField)
      modifies this
      ensures editName == name && editSPhone == sPhone && editPPhone == pPhone
      ensures userData == old(userData) && isEditing == old(isEditing)
    {
      editName := name;
      editSPhone := sPhone;
      editPPhone := pPhone;
    }

    /** The cancel button: editing ends, and the buffers keep what was typed. */
    method CancelEditing()
      modifies this
      ensures !isEditing
      ensures userData == old(userData) && editName == old(editName)
      ensures editSPhone == old(editSPhone) && editPPhone == old(editPPhone)
    {
      isEditing := false;
    }

    /** `handleSave`: refused with nothing changed, or the record updated and editing ended. */
    method Save()
      modifies this
      ensures SaveAllowed(old(editName), old(editSPhone), old(editPPhone)) ==>
        userData == Saved(old(userData), old(editName), old(editSPhone), old(editPPhone)) && !isEditing
      ensures !SaveAllowed(old(editName), old(editSPhone), old(editPPhone)) ==>
        userData == old(userData) && isEditing == old(isEditing)
      ensures editName == old(editName) && editSPhone == old(editSPhone) && editPPhone == old(editPPhone)
    {
      if |Trim(editName)| == 0 || !editSPhone.isValid || !editPPhone.isValid {
        return;
      }
      userData := userData.(studentName := editName, studentPhone := editSPhone.value, parentPhone := editPPhone.value);
      isEditing := false;
    }
  }
}
