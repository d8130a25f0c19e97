/** The records and enumerations the screens share. */
module Types {
  import opened Text

  datatype UserRole = Student | Parent | Driver

  datatype Screen =
    | Start | InfoInput | ShuttleSelect | MainDashboard | Chat | MyPage
    | DriverHome | DriverRouteDetail | NoticeList | NoticeDetail

  /** The signed-in user; `role` is null until a role is chosen. */
  datatype UserData = UserData(
    role: Option<UserRole>,
    studentName: string,
    studentPhone: string,
    parentPhone: string,
    isApplied: bool,
    selectedShuttleId: Option<string>)

  /** `Partial<UserData>`: `None` for a field not supplied. */
  datatype PartialUserData = PartialUserData(
    role: Option<Option<UserRole>>,
    studentName: Option<string>,
    studentPhone: Option<string>,
    parentPhone: Option<string>,
    isApplied: Option<bool>,
    selectedShuttleId: Option<Option<string>>)

  datatype ViewMode = Week | Month

  /** The dashboard's attendance session; `t0` is null when never started. */
  datatype SessionState = SessionState(
    t0: Option<int>,
    lateCount: int,
    absentDates: seq<string>,
    isLateRequested: bool,
    isAbsentRequested: bool,
    hasRandomDelay: bool,
    calendarMemos: map<string, string>,
    calendarViewMode: ViewMode)

  /** A stop of the route; an absent optional flag reads as false. */
  datatype ShuttleStop = ShuttleStop(
    id: int,
    name: string,
    timeOffset: int,
    isBoarding: bool,
    isDestination: bool)

  datatype Notice = Notice(id: int, title: string, content: string, date: string)
}
