/** The app shell: which screen is up, the user record, the notices, and the stored session. */
module App {
  import opened Text
  import opened Types
  import Constants

  /** Where the shuttle search was opened from, which decides where its back button leads. */
  datatype EntrySource = Dropdown | FromMyPage

  const InitialUserData: UserData := UserData(None, "", "", "", false, Some("shuttle_1"))

  /** `{ ...prev, ...data }`: every supplied field replaces the old one. */
  function Merge(prev: UserData, data: PartialUserData): (r: UserData)
    ensures r.role == (if data.role.Some? then data.role.value else prev.role)
    ensures r.studentName == (if data.studentName.Some? then data.studentName.value else prev.studentName)
    ensures r.studentPhone == (if data.studentPhone.Some? then data.studentPhone.value else prev.studentPhone)
    ensures r.parentPhone == (if data.parentPhone.Some? then data.parentPhone.value else prev.parentPhone)
    ensures r.isApplied == (if data.isApplied.Some? then data.isApplied.value else prev.isApplied)
    ensures r.selectedShuttleId ==
      (if data.selectedShuttleId.Some? then data.selectedShuttleId.value else prev.selectedShuttleId)
  {
    UserData(
      match data.role case Some(v) => v case None => prev.role,
      match data.studentName case Some(v) => v case None => prev.studentName,
      match data.studentPhone case Some(v) => v case None => prev.studentPhone,
      match data.parentPhone case Some(v) => v case None => prev.parentPhone,
      match data.isApplied case Some(v) => v case None => prev.isApplied,
      match data.selectedShuttleId case Some(v) => v case None => prev.selectedShuttleId)
  }

  /** Merging nothing keeps the record; merging twice is merging once. */
  lemma MergeLaws(prev: UserData, data: PartialUserData)
    ensures Merge(prev, PartialUserData(None, None, None, None, None, None)) == prev
    ensures Merge(Merge(prev, data), data) == Merge(prev, data)
  {
  }

  /** The screen the auto-redirect effect moves to: only from START, and only once applied. */
  function RedirectTarget(u: UserData, screen: Screen): Screen {
    if u.isApplied && screen == Start then
      (if u.role == Some(Driver) then DriverHome else MainDashboard)
    else screen
  }

  lemma RedirectRules(u: UserData, screen: Screen)
    ensures screen != Start || !u.isApplied ==> RedirectTarget(u, screen) == screen
    ensures u.isApplied && screen == Start ==>
      (RedirectTarget(u, screen) == DriverHome <==> u.role == Some(Driver))
      && RedirectTarget(u, screen) in {DriverHome, MainDashboard}
    ensures RedirectTarget(u, RedirectTarget(u, screen)) == RedirectTarget(u, screen)
  {
  }

  /** The index of the first notice with that id, or the length when none has it. */
  function FindIndex(ns: seq<Notice>, id: Option<int>): (k: nat)
    ensures k <= |ns|
    ensures forall j :: 0 <= j < k ==> Some(ns[j].id) != id
    ensures k < |ns| ==> Some(ns[k].id) == id
    decreases |ns|
  {
    if ns == [] then 0
    else if Some(ns[0].id) == id then 0
    else 1 + FindIndex(ns[1..], id)
  }

  /** `notices.find(n => n.id === selectedNoticeId)`: the first notice with that id. */
  function FindNotice(ns: seq<Notice>, id: Option<int>): Option<Notice> {
    var k := FindIndex(ns, id);
    if k < |ns| then Some(ns[k]) else None
  }

  /** `notice || notices[0]`: the matching notice, else the first one, else none at all. */
  function NoticeForDetail(ns: seq<Notice>, id: Option<int>): Option<Notice> {
    match FindNotice(ns, id)
    case Some(n) => Some(n)
    case None => if ns == [] then None else Some(ns[0])
  }

  /** `find` returns the first match, and nothing only when no notice has the id. */
  lemma FindNoticeFirst(ns: seq<Notice>, id: Option<int>)
    ensures FindNotice(ns, id).None? <==> forall k :: 0 <= k < |ns| ==> Some(ns[k].id) != id
    ensures FindNotice(ns, id).Some? ==>
      exists k :: 0 <= k < |ns| && ns[k] == FindNotice(ns, id).value && Some(ns[k].id) == id
                  && forall j :: 0 <= j < k ==> Some(ns[j].id) != id
  {
    var k := FindIndex(ns, id);
    if k < |ns| {
      assert ns[k] == FindNotice(ns, id).value;
    }
  }

  lemma NoticeForDetailFallback(ns: seq<Notice>, id: Option<int>)
    ensures (exists k :: 0 <= k < |ns| && Some(ns[k].id) == id) ==>
      NoticeForDetail(ns, id).Some? && Some(NoticeForDetail(ns, id).value.id) == id
    ensures (forall k :: 0 <= k < |ns| ==> Some(ns[k].id) != id) && ns != [] ==>
      NoticeForDetail(ns, id) == Some(ns[0])
    ensures NoticeForDetail(ns, id).None? <==> ns == []
    ensures NoticeForDetail(ns, id).Some? ==> NoticeForDetail(ns, id).value in ns
  {
  }

  /** With the initial notice list and no selection, the detail page shows that one notice. */
  lemma InitialNoticeShown()
    ensures NoticeForDetail(Constants.InitialNotices, None) == Some(Constants.InitialNotices[0])
    ensures NoticeForDetail(Constants.InitialNotices, Some(1)) == Some(Constants.InitialNotices[0])
  {
  }

  class App {
    var screen: Screen
    var searchEntrySource: EntrySource
    var selectedNoticeId: Option<int>
    var driverSelectedDate: Option<string>
    var notices: seq<Notice>
    var userData: UserData
    /** The stored dashboard session, if one is saved. */
    var storedSession: Option<SessionState>

    /** A first launch: the start screen, the preset notices, the initial user record. */
    constructor (storedSession: Option<SessionState>)
      ensures screen == Start && searchEntrySource == FromMyPage
      ensures selectedNoticeId == None && driverSelectedDate == None
      ensures notices == Constants.InitialNotices && userData == InitialUserData
      ensures this.storedSession == storedSession
    {
      screen := Start;
      searchEntrySource := FromMyPage;
      selectedNoticeId := None;
      driverSelectedDate := None;
      notices := Constants.InitialNotices;
      userData := InitialUserData;
      this.storedSession := storedSession;
    }

    /** The screen switch of the effect that runs after every change of user, screen or notices. */
    method Redirect()
      modifies this
      ensures screen == RedirectTarget(old(userData), old(screen))
      ensures userData == old(userData) && notices == old(notices) && storedSession == old(storedSession)
      ensures searchEntrySource == old(searchEntrySource) && selectedNoticeId == old(selectedNoticeId)
      ensures driverSelectedDate == old(driverSelectedDate)
    {
      if userData.isApplied && screen == Start {
        if userData.role == Some(Driver) {
          screen := DriverHome;
        } else {
          screen := MainDashboard;
        }
      }
    }

    /** `handleRoleSelect`: a driver is applied at once and goes home; riders go to the form. */
    method RoleSelect(role: UserRole)
      modifies this
      ensures role == Driver ==> userData == old(userData).(role := Some(role), isApplied := true) && screen == DriverHome
      ensures role != Driver ==> userData == old(userData).(role := Some(role)) && screen == InfoInput
      ensures notices == old(notices) && storedSession == old(storedSession)
      ensures searchEntrySource == old(searchEntrySource) && selectedNoticeId == old(selectedNoticeId)
      ensures driverSelectedDate == old(driverSelectedDate)
    {
      userData := userData.(role := Some(role));
      if role == Driver {
        userData := userData.(role := Some(role), isApplied := true);
        screen := DriverHome;
      } else {
        screen := InfoInput;
      }
    }

    /** `handleInfoSubmit`: merge, then on to the shuttle search, entered as from the profile. */
    method InfoSubmit(data: PartialUserData)
      modifies this
      ensures userData == Merge(old(userData), data)
      ensures screen == ShuttleSelect && searchEntrySource == FromMyPage
      ensures notices == old(notices) && storedSession == old(storedSession)
      ensures selectedNoticeId == old(selectedNoticeId) && driverSelectedDate == old(driverSelectedDate)
    {
      userData := Merge(userData, data);
      screen := ShuttleSelect;
      searchEntrySource := FromMyPage;
    }

    /** `handleAddNotice`: the clock gives the id, `today` the date; the new notice goes first. */
    method AddNotice(title: string, content: string, now: int, today: string)
      modifies this
      ensures notices == [Notice(now, title, content, today)] + old(notices)
      ensures screen == old(screen) && userData == old(userData) && storedSession == old(storedSession)
      ensures searchEntrySource == old(searchEntrySource) && selectedNoticeId == old(selectedNoticeId)
      ensures driverSelectedDate == old(driverSelectedDate)
    {
      notices := [Notice(now, title, content, today)] + notices;
    }

    /** `handleLogout`: forget the session and the user, back to the start. */
    method Logout()
      modifies this
      ensures userData == InitialUserData && storedSession == None && screen == Start
      ensures notices == old(notices) && searchEntrySource == old(searchEntrySource)
      ensures selectedNoticeId == old(selectedNoticeId) && driverSelectedDate == old(driverSelectedDate)
    {
      storedSession := None;
      userData := InitialUserData;
      screen := Start;
    }

    /** `onApply`: applied to the one shuttle, today's session cleared, to the dashboard. */
    method Apply()
      modifies this
      ensures userData == old(userData).(isApplied := true, selectedShuttleId := Some("shuttle_1"))
      ensures storedSession == None && screen == MainDashboard
      ensures notices == old(notices) && searchEntrySource == old(searchEntrySource)
      ensures selectedNoticeId == old(selectedNoticeId) && driverSelectedDate == old(driverSelectedDate)
    {
      userData := userData.(isApplied := true, selectedShuttleId := Some("shuttle_1"));
      storedSession := None;
      screen := MainDashboard;
    }

    /** The shuttle search's back button. */
    method ShuttleSelectBack()
      modifies this
      ensures screen == (if old(searchEntrySource) == Dropdown then MainDashboard else MyPage)
      ensures userData == old(userData) && notices == old(notices) && storedSession == old(storedSession)
      ensures searchEntrySource == old(searchEntrySource) && selectedNoticeId == old(selectedNoticeId)
      ensures driverSelectedDate == old(driverSelectedDate)
    {
      screen := if searchEntrySource == Dropdown then MainDashboard else MyPage;
    }

    /** The dashboard's "add route": search entered from the dropdown. */
    method AddRoute()
      modifies this
      ensures searchEntrySource == Dropdown && screen == ShuttleSelect
      ensures userData == old(userData) && notices == old(notices) && storedSession == old(storedSession)
      ensures selectedNoticeId == old(selectedNoticeId) && driverSelectedDate == old(driverSelectedDate)
    {
      searchEntrySource := Dropdown;
      screen := ShuttleSelect;
    }

    /** The profile's "search shuttle": search entered from the profile. */
    method SearchShuttle()
      modifies this
      ensures searchEntrySource == FromMyPage && screen == ShuttleSelect
      ensures userData == old(userData) && notices == old(notices) && storedSession == old(storedSession)
      ensures selectedNoticeId == old(selectedNoticeId) && driverSelectedDate == old(driverSelectedDate)
    {
      searchEntrySource := FromMyPage;
      screen := ShuttleSelect;
    }

    /** Opening a notice from the list or the dashboard. */
    method SelectNotice(id: int)
      modifies this
      ensures selectedNoticeId == Some(id) && screen == NoticeDetail
      ensures userData == old(userData) && notices == old(notices) && storedSession == old(storedSession)
      ensures searchEntrySource == old(searchEntrySource) && driverSelectedDate == old(driverSelectedDate)
    {
      selectedNoticeId := Some(id);
      screen := NoticeDetail;
    }

    /** The notice pages' back button: home of the role. */
    method NoticeBack()
      modifies this
      ensures screen == (if old(userData).role == Some(Driver) then DriverHome else MainDashboard)
      ensures userData == old(userData) && notices == old(notices) && storedSession == old(storedSession)
      ensures searchEntrySource == old(searchEntrySource) && selectedNoticeId == old(selectedNoticeId)
      ensures driverSelectedDate == old(driverSelectedDate)
    {
      screen := if userData.role == Some(Driver) then DriverHome else MainDashboard;
    }

    /** The driver picks a day on the calendar; its route detail opens. */
    method SelectDriverDate(date: string)
      modifies this
      ensures driverSelectedDate == Some(date) && screen == DriverRouteDetail
      ensures userData == old(userData) && notices == old(notices) && storedSession == old(storedSession)
      ensures searchEntrySource == old(searchEntrySource) && selectedNoticeId == old(selectedNoticeId)
    {
      driverSelectedDate := Some(date);
      screen := DriverRouteDetail;
    }

    /** The notice the detail page shows. */
    function DetailNotice(): Option<Notice>
      reads this
    {
      NoticeForDetail(notices, selectedNoticeId)
    }
  }

  /**
   * Example scenario, from any app state: choosing the driver role lands on
   * the driver home, and the redirect then leaves it there.
   */
  method DriverSignIn(app: App)
    modifies app
    ensures app.screen == DriverHome && app.userData.isApplied && app.userData.role == Some(Driver)
  {
    app.RoleSelect(Driver);
    app.Redirect();
  }

  /**
   * Example scenario, from any app state: a rider who applies sees the
   * dashboard; after logout the redirect keeps the start screen.
   */
  method ApplyThenLogout(app: App)
    modifies app
    ensures app.screen == Start && app.userData == InitialUserData && app.storedSession == None
  {
    app.Apply();
    app.Redirect();
    assert app.screen == MainDashboard;
    app.Logout();
    app.Redirect();
  }
}
