/**
 * The rider's dashboard: the attendance session (late and absent requests,
 * the per-date absence list, memos and the calendar view), its timing, the
 * confirm dialogs, and the one-time ride alerts.
 */
module MainDashboard {
  import opened Text
  import opened Types
  import Constants

  // ------------------------------------------------------------ session defaults

  const HolidayMemo: string := "기사님 휴무일"

  /** A fresh session: trip starts now, no request, a memo on every non-operation day. */
  function DefaultSession(now: int, hasRandomDelay: bool): SessionState {
    SessionState(
      t0 := Some(now),
      lateCount := 0,
      absentDates := [],
      isLateRequested := false,
      isAbsentRequested := false,
      hasRandomDelay := hasRandomDelay,
      calendarMemos := map d | d in Constants.NonOperationDates :: HolidayMemo,
      calendarViewMode := Week)
  }

  lemma DefaultMemos(now: int, hasRandomDelay: bool)
    ensures var m := DefaultSession(now, hasRandomDelay).calendarMemos;
      m.Keys == {"2024-01-28", "2025-01-28"} && forall d :: d in m ==> m[d] == HolidayMemo
  {
  }

  // ------------------------------------------------------------ timing

  /** `session.t0 || Date.now()`: a null or zero start counts as now. */
  function EffectiveT0(s: SessionState, now: int): int {
    if s.t0.Some? && s.t0.value != 0 then s.t0.value else now
  }

  /** `Math.floor((now - t0) / 1000)`. */
  function ElapsedSeconds(now: int, t0: int): (e: int)
    ensures e * 1000 <= now - t0 < (e + 1) * 1000
  {
    (now - t0) / 1000
  }

  /** The dashboard's delay is the late wait only. */
  function DelaySec(s: SessionState): int {
    if s.isLateRequested then 20 else 0
  }

  /** The dashboard's boarding time: the boarding stop's offset, no delay. */
  function BoardingTime(t0: int): int {
    t0 + 30 * 1000
  }

  function ArrivalTime(s: SessionState, t0: int): int {
    t0 + (150 + DelaySec(s)) * 1000
  }

  predicate IsAfterBoarding(s: SessionState, now: int) {
    now >= BoardingTime(EffectiveT0(s, now))
  }

  /** The lock is the fixed cutoff t0 + 30 s: no request flag moves it; arrival moves 20 s with a late request. */
  lemma CutoffIsFixed(s: SessionState, now: int, late: bool, absent: bool, delay: bool)
    ensures IsAfterBoarding(s, now)
        == IsAfterBoarding(s.(isLateRequested := late, isAbsentRequested := absent, hasRandomDelay := delay), now)
    ensures s.t0.Some? && s.t0.value != 0 ==> (IsAfterBoarding(s, now) <==> now >= s.t0.value + 30000)
    ensures ArrivalTime(s, EffectiveT0(s, now))
         == EffectiveT0(s, now) + (if s.isLateRequested then 170000 else 150000)
  {
  }

  // ------------------------------------------------------------ list helpers

  /** `xs.filter(d => d !== x)`. */
  function RemoveAll<T(==,!new)>(xs: seq<T>, x: T): (r: seq<T>)
    ensures x !in r
    ensures forall y :: y != x ==> multiset(r)[y] == multiset(xs)[y]
    decreases |xs|
  {
    if xs == [] then []
    else
      var rest := RemoveAll(xs[1..], x);
      assert xs == [xs[0]] + xs[1..];
      if xs[0] == x then rest else [xs[0]] + rest
  }

  lemma {:induction false} RemoveAllAbsent<T(!new)>(xs: seq<T>, x: T)
    requires x !in xs
    ensures RemoveAll(xs, x) == xs
    decreases |xs|
  {
    if xs != [] {
      RemoveAllAbsent(xs[1..], x);
    }
  }

  /** `filter` works element by element: the survivors of each part, in their order. */
  lemma {:induction false} RemoveAllConcat<T(!new)>(a: seq<T>, b: seq<T>, x: T)
    ensures RemoveAll(a + b, x) == RemoveAll(a, x) + RemoveAll(b, x)
    decreases |a|
  {
    if a == [] {
      assert a + b == b;
    } else {
      var ab := a + b;
      assert ab[0] == a[0] && ab[1..] == a[1..] + b;
      RemoveAllConcat(a[1..], b, x);
    }
  }

  /** A one-element list keeps its element unless it is the removed one. */
  lemma RemoveAllSingle<T(!new)>(y: T, x: T)
    ensures RemoveAll([y], x) == if y == x then [] else [y]
  {
    assert [y][1..] == [];
  }

  predicate NoDuplicates<T(==)>(xs: seq<T>) {
    forall i, j :: 0 <= i < j < |xs| ==> xs[i] != xs[j]
  }

  /** `Array.from(new Set(xs))`: the first copy of each element, in order. */
  function Dedupe<T(==,!new)>(xs: seq<T>): (r: seq<T>)
    ensures forall y :: y in r <==> y in xs
    ensures NoDuplicates(r)
    ensures NoDuplicates(xs) ==> r == xs
    decreases |xs|
  {
    if xs == [] then []
    else
      var init := xs[..|xs| - 1];
      var last := xs[|xs| - 1];
      var p := Dedupe(init);
      assert xs == init + [last];
      if last in init then p else p + [last]
  }

  /** Appending an element keeps the deduplicated prefix and adds the element only when it is new. */
  lemma DedupeSnoc<T(!new)>(xs: seq<T>, y: T)
    ensures Dedupe(xs + [y]) == if y in xs then Dedupe(xs) else Dedupe(xs) + [y]
  {
    assert (xs + [y])[..|xs + [y]| - 1] == xs;
  }

  /**
   * The first element always stays in front and its later copies go: the
   * first occurrence of every element is the one kept, in the order of first
   * occurrences.
   */
  lemma {:induction false} DedupeKeepsFirst<T(!new)>(y: T, xs: seq<T>)
    ensures Dedupe([y] + xs) == [y] + RemoveAll(Dedupe(xs), y)
    decreases |xs|
  {
    if xs == [] {
      assert [y] + xs == [] + [y];
      DedupeSnoc([], y);
    } else {
      var init := xs[..|xs| - 1];
      var l := xs[|xs| - 1];
      assert xs == init + [l];
      assert [y] + xs == ([y] + init) + [l];
      DedupeKeepsFirst(y, init);
      KeepsFirstSnoc(y, init, l);
    }
  }

  /** The inductive step of DedupeKeepsFirst: appending one element keeps the law. */
  lemma KeepsFirstSnoc<T(!new)>(y: T, init: seq<T>, l: T)
    requires Dedupe([y] + init) == [y] + RemoveAll(Dedupe(init), y)
    ensures Dedupe(([y] + init) + [l]) == [y] + RemoveAll(Dedupe(init + [l]), y)
  {
    var yi := [y] + init;
    DedupeSnoc(yi, l);
    DedupeSnoc(init, l);
    assert l in yi <==> l == y || l in init;
    KeepsFirstCases(y, l, l in init, Dedupe(init), Dedupe(yi), Dedupe(yi + [l]), Dedupe(init + [l]));
  }

  /** The case analysis of KeepsFirstSnoc, on plain sequences. */
  lemma KeepsFirstCases<T(!new)>(y: T, l: T, seen: bool, p: seq<T>, dyi: seq<T>, dyil: seq<T>, dil: seq<T>)
    requires dyi == [y] + RemoveAll(p, y)
    requires dyil == if l == y || seen then dyi else dyi + [l]
    requires dil == if seen then p else p + [l]
    ensures dyil == [y] + RemoveAll(dil, y)
  {
    if !seen {
      RemoveAllConcat(p, [l], y);
      RemoveAllSingle(l, y);
    }
  }

  lemma NoDuplicatesCount<T>(xs: seq<T>, x: T)
    requires NoDuplicates(xs) && x in xs
    ensures multiset(xs)[x] == 1
  {
    var i :| 0 <= i < |xs| && xs[i] == x;
    assert xs == xs[..i] + [x] + xs[i + 1..];
    forall j | 0 <= j < i
      ensures xs[..i][j] != x
    {
      assert xs[j] != xs[i];
    }
    var tail := xs[i + 1..];
    forall j | 0 <= j < |tail|
      ensures tail[j] != x
    {
      assert tail[j] == xs[i + 1 + j];
    }
    assert x !in xs[..i];
    assert x !in tail;
  }

  // ------------------------------------------------------------ attendance clicks

  datatype Refusal = BoardingPassed | OtherSelected

  /** A confirm dialog waiting for the rider; the absent one captured today's date when it opened. */
  datatype Pending = ConfirmAbsent(today: string) | ConfirmLate

  datatype Click = Refused(reason: Refusal) | Applied(session: SessionState) | AskConfirm(pending: Pending)

  /** `handleAbsentClick`: lock, conflict, cancel at once, or ask to confirm. */
  function AbsentClick(s: SessionState, now: int, today: string): Click {
    if IsAfterBoarding(s, now) then Refused(BoardingPassed)
    else if s.isLateRequested then Refused(OtherSelected)
    else if s.isAbsentRequested then
      Applied(s.(isAbsentRequested := false, absentDates := RemoveAll(s.absentDates, today)))
    else AskConfirm(ConfirmAbsent(today))
  }

  /** `handleLateClick`: lock, conflict, cancel at once, or ask to confirm. */
  function LateClick(s: SessionState, now: int): Click {
    if IsAfterBoarding(s, now) then Refused(BoardingPassed)
    else if s.isAbsentRequested then Refused(OtherSelected)
    else if s.isLateRequested then Applied(s.(isLateRequested := false))
    else AskConfirm(ConfirmLate)
  }

  /** What the confirm callback of a pending dialog does to the session. */
  function Confirm(s: SessionState, p: Pending): SessionState {
    match p
    case ConfirmAbsent(today) =>
      s.(isAbsentRequested := true, absentDates := Dedupe(s.absentDates + [today]))
    case ConfirmLate => s.(isLateRequested := true)
  }

  /** On or after the cutoff both buttons are refused and the session stays as it was. */
  lemma LockedAfterCutoff(s: SessionState, now: int, today: string)
    requires s.t0.Some? && s.t0.value != 0 && now >= s.t0.value + 30000
    ensures AbsentClick(s, now, today) == Refused(BoardingPassed)
    ensures LateClick(s, now) == Refused(BoardingPassed)
  {
  }

  /** Before the cutoff, each request is refused exactly while the other one is active. */
  lemma ConflictRefused(s: SessionState, now: int, today: string)
    requires !IsAfterBoarding(s, now)
    ensures AbsentClick(s, now, today).Refused? <==> s.isLateRequested
    ensures LateClick(s, now).Refused? <==> s.isAbsentRequested
    ensures AbsentClick(s, now, today).Refused? ==> AbsentClick(s, now, today).reason == OtherSelected
    ensures LateClick(s, now).Refused? ==> LateClick(s, now).reason == OtherSelected
  {
  }

  /** Entering either request always goes through a confirm dialog; only cancelling is immediate. */
  lemma EnteringNeedsConfirm(s: SessionState, now: int, today: string)
    ensures AbsentClick(s, now, today).Applied? ==>
      s.isAbsentRequested && !AbsentClick(s, now, today).session.isAbsentRequested
    ensures LateClick(s, now).Applied? ==>
      s.isLateRequested && LateClick(s, now).session == s.(isLateRequested := false)
    ensures !s.isAbsentRequested && AbsentClick(s, now, today).AskConfirm? ==>
      AbsentClick(s, now, today).pending == ConfirmAbsent(today)
    ensures !s.isLateRequested && LateClick(s, now).AskConfirm? ==> LateClick(s, now).pending == ConfirmLate
    ensures !s.isAbsentRequested && !s.isLateRequested && !IsAfterBoarding(s, now) ==>
      AbsentClick(s, now, today) == AskConfirm(ConfirmAbsent(today)) && LateClick(s, now) == AskConfirm(ConfirmLate)
  {
  }

  /** Confirming absent adds today exactly once; cancelling removes every copy of today and keeps the rest. */
  lemma AbsentDatesUpdates(s: SessionState, now: int, today: string)
    ensures var r := Confirm(s, ConfirmAbsent(today));
      r == s.(isAbsentRequested := r.isAbsentRequested, absentDates := r.absentDates)
      && r.isAbsentRequested && multiset(r.absentDates)[today] == 1
      && (forall d :: d in r.absentDates <==> d in s.absentDates || d == today)
      && (NoDuplicates(s.absentDates) && today !in s.absentDates ==> r.absentDates == s.absentDates + [today])
    ensures AbsentClick(s, now, today).Applied? ==>
      var r := AbsentClick(s, now, today).session;
      r == s.(isAbsentRequested := r.isAbsentRequested, absentDates := r.absentDates)
      && !r.isAbsentRequested && today !in r.absentDates
      && (forall d :: d != today ==> multiset(r.absentDates)[d] == multiset(s.absentDates)[d])
  {
    DedupeAppend(s.absentDates, today);
  }

  /** Deduplicating the dates with today appended: today once, the other dates kept, order kept when already unique. */
  lemma DedupeAppend(xs: seq<string>, x: string)
    ensures var r := Dedupe(xs + [x]);
      multiset(r)[x] == 1
      && (forall d :: d in r <==> d in xs || d == x)
      && (NoDuplicates(xs) && x !in xs ==> r == xs + [x])
  {
    var r := Dedupe(xs + [x]);
    NoDuplicatesCount(r, x);
    if NoDuplicates(xs) && x !in xs {
      assert NoDuplicates(xs + [x]);
    }
  }

  /** The late request touches only its own flag: not the dates, the count or the random delay. */
  lemma LateTouchesOnlyFlag(s: SessionState, now: int)
    ensures var r := Confirm(s, ConfirmLate);
      r.absentDates == s.absentDates && r.lateCount == s.lateCount && r.hasRandomDelay == s.hasRandomDelay
      && r == s.(isLateRequested := true)
    ensures LateClick(s, now).Applied? ==>
      var r := LateClick(s, now).session;
      r.absentDates == s.absentDates && r.lateCount == s.lateCount && r.hasRandomDelay == s.hasRandomDelay
  {
  }

  // ------------------------------------------------------------ calendar handlers

  /** `onDateSelect`: drop every copy of a listed date, append an unlisted one. */
  function DateSelect(s: SessionState, date: string): SessionState {
    s.(absentDates := if date in s.absentDates then RemoveAll(s.absentDates, date) else s.absentDates + [date])
  }

  lemma DateSelectToggles(s: SessionState, date: string)
    ensures var r := DateSelect(s, date);
      (date in r.absentDates <==> date !in s.absentDates)
      && (forall d :: d != date ==> multiset(r.absentDates)[d] == multiset(s.absentDates)[d])
      && r.isLateRequested == s.isLateRequested && r.isAbsentRequested == s.isAbsentRequested
    ensures date in DateSelect(DateSelect(s, date), date).absentDates <==> date in s.absentDates
    ensures date !in s.absentDates ==> DateSelect(DateSelect(s, date), date) == s
  {
    if date !in s.absentDates {
      RemoveAllAbsent(s.absentDates, date);
      var l := s.absentDates + [date];
      assert RemoveAll(l, date) == s.absentDates by {
        RemoveAllAppend(s.absentDates, date);
      }
    }
  }

  lemma {:induction false} RemoveAllAppend<T(!new)>(xs: seq<T>, x: T)
    requires x !in xs
    ensures RemoveAll(xs + [x], x) == xs
    decreases |xs|
  {
    if xs == [] {
      assert [] + [x] == [x];
    } else {
      assert (xs + [x])[1..] == xs[1..] + [x];
      RemoveAllAppend(xs[1..], x);
    }
  }

  /** `onUpdateMemo`: the memo map with one key set. */
  function UpdateMemo(s: SessionState, date: string, memo: string): SessionState {
    s.(calendarMemos := s.calendarMemos[date := memo])
  }

  lemma UpdateMemoOneKey(s: SessionState, date: string, memo: string)
    ensures var r := UpdateMemo(s, date, memo);
      r.calendarMemos.Keys == s.calendarMemos.Keys + {date} && r.calendarMemos[date] == memo
      && (forall d :: d in s.calendarMemos && d != date ==> r.calendarMemos[d] == s.calendarMemos[d])
      && r.(calendarMemos := s.calendarMemos) == s
  {
  }

  /** `onToggleView`: week and month swap. */
  function ToggleView(s: SessionState): SessionState {
    s.(calendarViewMode := if s.calendarViewMode == Week then Month else Week)
  }

  lemma ToggleViewInvolution(s: SessionState)
    ensures ToggleView(s).calendarViewMode != s.calendarViewMode
    ensures ToggleView(ToggleView(s)) == s
  {
  }

  // ------------------------------------------------------------ the dashboard as a state machine

  /** The dialog on screen: a message with only an OK button, or a pending confirm. */
  datatype Modal = Message | ConfirmDialog(pending: Pending)

  datatype Dashboard = Dashboard(session: SessionState, modal: Option<Modal>)

  /**
   * What the rider can do. While a dialog is open it covers the whole screen,
   * so only its buttons act; a ride alert may replace whatever dialog is open.
   */
  datatype Event =
    | AbsentClicked(now: int, today: string)
    | LateClicked(now: int)
    | ModalConfirmed
    | ModalCancelled
    | DateSelected(date: string)
    | MemoUpdated(date: string, memo: string)
    | ViewToggled
    | AlertShown

  function AfterClick(d: Dashboard, c: Click): Dashboard {
    match c
    case Refused(_) => Dashboard(d.session, Some(Message))
    case Applied(s) => Dashboard(s, d.modal)
    case AskConfirm(p) => Dashboard(d.session, Some(ConfirmDialog(p)))
  }

  function Step(d: Dashboard, e: Event): Dashboard {
    match e
    case ModalConfirmed =>
      if d.modal.Some? && d.modal.value.ConfirmDialog? then Dashboard(Confirm(d.session, d.modal.value.pending), None)
      else Dashboard(d.session, None)
    case ModalCancelled => Dashboard(d.session, None)
    case AlertShown => Dashboard(d.session, Some(Message))
    case _ =>
      if d.modal.Some? then d
      else match e
        case AbsentClicked(now, today) => AfterClick(d, AbsentClick(d.session, now, today))
        case LateClicked(now) => AfterClick(d, LateClick(d.session, now))
        case DateSelected(date) => Dashboard(DateSelect(d.session, date), d.modal)
        case MemoUpdated(date, memo) => Dashboard(UpdateMemo(d.session, date, memo), d.modal)
        case ViewToggled => Dashboard(ToggleView(d.session), d.modal)
  }

  function Run(d: Dashboard, events: seq<Event>): Dashboard
    decreases |events|
  {
    if events == [] then d else Run(Step(d, events[0]), events[1..])
  }

  /** Never both requests, and a pending confirm was opened from the normal state. */
  predicate Exclusive(d: Dashboard) {
    && !(d.session.isLateRequested && d.session.isAbsentRequested)
    && (d.modal.Some? && d.modal.value.ConfirmDialog? ==>
          !d.session.isLateRequested && !d.session.isAbsentRequested)
  }

  lemma StepKeepsExclusive(d: Dashboard, e: Event)
    requires Exclusive(d)
    ensures Exclusive(Step(d, e))
  {
  }

  lemma {:induction false} RunKeepsExclusive(d: Dashboard, events: seq<Event>)
    requires Exclusive(d)
    ensures Exclusive(Run(d, events))
    decreases |events|
  {
    if events != [] {
      StepKeepsExclusive(d, events[0]);
      RunKeepsExclusive(Step(d, events[0]), events[1..]);
    }
  }

  /** From a fresh session, no sequence of clicks, confirms and calendar edits makes both requests active. */
  lemma NeverLateAndAbsent(now: int, hasRandomDelay: bool, events: seq<Event>)
    ensures var s := Run(Dashboard(DefaultSession(now, hasRandomDelay), None), events).session;
      !(s.isLateRequested && s.isAbsentRequested)
  {
    RunKeepsExclusive(Dashboard(DefaultSession(now, hasRandomDelay), None), events);
  }

  /** A confirm is not checked against the cutoff again: opened before it, accepted after it. */
  lemma ConfirmAfterCutoffAccepted(t0: int, hasRandomDelay: bool, today: string)
    requires t0 != 0
    ensures var d0 := Dashboard(DefaultSession(t0, hasRandomDelay), None);
      var d := Run(d0, [AbsentClicked(t0 + 29000, today), ModalConfirmed]);
      d.session.isAbsentRequested && IsAfterBoarding(d.session, t0 + 31000)
  {
    var s := DefaultSession(t0, hasRandomDelay);
    RunTwo(Dashboard(s, None), AbsentClicked(t0 + 29000, today), ModalConfirmed);
    assert !IsAfterBoarding(s, t0 + 29000);
    var d1 := Step(Dashboard(s, None), AbsentClicked(t0 + 29000, today));
    assert d1 == Dashboard(s, Some(ConfirmDialog(ConfirmAbsent(today))));
    var d2 := Step(d1, ModalConfirmed);
    assert d2.session == Confirm(s, ConfirmAbsent(today));
    assert d2.session.t0 == Some(t0);
  }

  lemma RunTwo(d: Dashboard, e1: Event, e2: Event)
    ensures Run(d, [e1, e2]) == Step(Step(d, e1), e2)
  {
    var evs := [e1, e2];
    assert evs[0] == e1 && evs[1..] == [e2];
    assert Run(d, evs) == Run(Step(d, e1), [e2]);
    assert [e2][0] == e2 && [e2][1..] == [];
    assert Run(Step(d, e1), [e2]) == Run(Step(Step(d, e1), e2), []);
  }

  // ------------------------------------------------------------ ride alerts

  datatype AlertKey = StudentArrival | ParentBoard | ParentAlight

  /** The alerts whose moment it is, in the order the effect checks them. */
  function DueAlerts(role: Option<UserRole>, elapsed: int, delaySec: int, isAlertOn: bool, absent: bool)
    : seq<AlertKey>
  {
    if !isAlertOn || absent then []
    else
      (if role == Some(Student) && elapsed == 150 + delaySec - 30 then [StudentArrival] else [])
      + (if role == Some(Parent) && elapsed == 30 then [ParentBoard] else [])
      + (if role == Some(Parent) && elapsed == 150 + delaySec then [ParentAlight] else [])
  }

  lemma DueAlertsWhen(role: Option<UserRole>, elapsed: int, delaySec: int, isAlertOn: bool, absent: bool)
    ensures var due := DueAlerts(role, elapsed, delaySec, isAlertOn, absent);
      (!isAlertOn || absent ==> due == [])
      && (StudentArrival in due <==> isAlertOn && !absent && role == Some(Student) && elapsed == 120 + delaySec)
      && (ParentBoard in due <==> isAlertOn && !absent && role == Some(Parent) && elapsed == 30)
      && (ParentAlight in due <==> isAlertOn && !absent && role == Some(Parent) && elapsed == 150 + delaySec)
  {
  }

  /** The keys of `due` not yet shown. */
  function Unseen(due: seq<AlertKey>, shown: set<AlertKey>): (r: seq<AlertKey>)
    ensures forall k :: k in r <==> k in due && k !in shown
    decreases |due|
  {
    if due == [] then []
    else (if due[0] in shown then [] else [due[0]]) + Unseen(due[1..], shown)
  }

  lemma {:induction false} UnseenConcat(a: seq<AlertKey>, b: seq<AlertKey>, shown: set<AlertKey>)
    ensures Unseen(a + b, shown) == Unseen(a, shown) + Unseen(b, shown)
    decreases |a|
  {
    if a == [] {
      assert a + b == b;
    } else {
      assert (a + b)[1..] == a[1..] + b;
      UnseenConcat(a[1..], b, shown);
    }
  }

  datatype Tick = Tick(role: Option<UserRole>, elapsed: int, delaySec: int, isAlertOn: bool, absent: bool)

  function TickDue(t: Tick): seq<AlertKey> {
    DueAlerts(t.role, t.elapsed, t.delaySec, t.isAlertOn, t.absent)
  }

  function AsSet(ks: seq<AlertKey>): set<AlertKey> {
    set k | k in ks
  }

  function OneIf(due: bool, k: AlertKey): seq<AlertKey> {
    if due then [k] else []
  }

  lemma UnseenOneIf(due: bool, k: AlertKey, shown: set<AlertKey>)
    ensures Unseen(OneIf(due, k), shown) == OneIf(due && k !in shown, k)
  {
    if due {
      assert [k][1..] == [];
    }
  }

  /** Three distinct keys: the unseen due ones, block by block, are the unseen part of the due list. */
  lemma UnseenBlocks(ka: AlertKey, kb: AlertKey, kc: AlertKey, da: bool, db: bool, dc: bool, s0: set<AlertKey>)
    requires ka != kb && kb != kc && ka != kc
    ensures OneIf(da && ka !in s0, ka) + OneIf(db && kb !in s0, kb) + OneIf(dc && kc !in s0, kc)
      == Unseen(OneIf(da, ka) + OneIf(db, kb) + OneIf(dc, kc), s0)
  {
    UnseenConcat(OneIf(da, ka) + OneIf(db, kb), OneIf(dc, kc), s0);
    UnseenConcat(OneIf(da, ka), OneIf(db, kb), s0);
    UnseenOneIf(da, ka, s0);
    UnseenOneIf(db, kb, s0);
    UnseenOneIf(dc, kc, s0);
  }

  lemma AsSetOneIf(due: bool, k: AlertKey)
    ensures AsSet(OneIf(due, k)) == if due then {k} else {}
  {
  }

  lemma AsSetConcat3(a: seq<AlertKey>, b: seq<AlertKey>, c: seq<AlertKey>)
    ensures AsSet(a + b + c) == AsSet(a) + AsSet(b) + AsSet(c)
  {
  }

  /** The effect's three blocks run one after the other, each seeing the keys the earlier ones added. */
  lemma ThreeShows(s0: set<AlertKey>, da: bool, db: bool, dc: bool,
                   a: seq<AlertKey>, b: seq<AlertKey>, c: seq<AlertKey>)
    requires a == OneIf(da && StudentArrival !in s0, StudentArrival)
    requires b == OneIf(db && ParentBoard !in s0 + AsSet(a), ParentBoard)
    requires c == OneIf(dc && ParentAlight !in s0 + AsSet(a) + AsSet(b), ParentAlight)
    ensures a + b + c == Unseen(OneIf(da, StudentArrival) + OneIf(db, ParentBoard) + OneIf(dc, ParentAlight), s0)
  {
    ShowAfter(ParentBoard, StudentArrival, db, da && StudentArrival !in s0, s0);
    ShowAfter(ParentAlight, ParentBoard, dc, db && ParentBoard !in s0 + AsSet(a), s0 + AsSet(a));
    ShowAfter(ParentAlight, StudentArrival, dc, da && StudentArrival !in s0, s0);
    UnseenBlocks(StudentArrival, ParentBoard, ParentAlight, da, db, dc, s0);
  }

  /** A block that may add key `j` does not change whether a later block for another key fires. */
  lemma ShowAfter(k: AlertKey, j: AlertKey, due: bool, dj: bool, s: set<AlertKey>)
    requires k != j
    ensures OneIf(due && k !in s + AsSet(OneIf(dj, j)), k) == OneIf(due && k !in s, k)
  {
    AsSetOneIf(dj, j);
  }

  /** With alerts on and the student riding, the due list is the three blocks in order. */
  lemma DueAlertsBlocks(role: Option<UserRole>, elapsed: int, delaySec: int, isAlertOn: bool, absent: bool)
    requires isAlertOn && !absent
    ensures DueAlerts(role, elapsed, delaySec, isAlertOn, absent)
      == OneIf(role == Some(Student) && elapsed == 150 + delaySec - 30, StudentArrival)
      + OneIf(role == Some(Parent) && elapsed == 30, ParentBoard)
      + OneIf(role == Some(Parent) && elapsed == 150 + delaySec, ParentAlight)
  {
  }

  /** Every alert shown while the effect runs over `ticks`, starting with `shown` already seen. */
  function Fired(shown: set<AlertKey>, ticks: seq<Tick>): seq<AlertKey>
    decreases |ticks|
  {
    if ticks == [] then []
    else
      var now := Unseen(TickDue(ticks[0]), shown);
      now + Fired(shown + AsSet(now), ticks[1..])
  }

  lemma {:induction false} UnseenNoDuplicates(due: seq<AlertKey>, shown: set<AlertKey>)
    requires NoDuplicates(due)
    ensures NoDuplicates(Unseen(due, shown))
    decreases |due|
  {
    if due != [] {
      UnseenNoDuplicates(due[1..], shown);
    }
  }

  lemma DueAlertsNoDuplicates(t: Tick)
    ensures NoDuplicates(TickDue(t))
  {
  }

  /** However often the effect runs, each alert is shown at most once, and never one already seen. */
  lemma {:induction false} AlertsAtMostOnce(shown: set<AlertKey>, ticks: seq<Tick>)
    ensures NoDuplicates(Fired(shown, ticks))
    ensures forall k :: k in Fired(shown, ticks) ==> k !in shown
    decreases |ticks|
  {
    if ticks != [] {
      var now := Unseen(TickDue(ticks[0]), shown);
      DueAlertsNoDuplicates(ticks[0]);
      UnseenNoDuplicates(TickDue(ticks[0]), shown);
      AlertsAtMostOnce(shown + AsSet(now), ticks[1..]);
      var rest := Fired(shown + AsSet(now), ticks[1..]);
      assert Fired(shown, ticks) == now + rest;
      forall i, j | 0 <= i < j < |now + rest| ensures (now + rest)[i] != (now + rest)[j] {
        if i < |now| && j >= |now| {
          assert (now + rest)[i] in AsSet(now);
          assert (now + rest)[j] == rest[j - |now|];
        }
      }
    }
  }

  /** The dashboard's record of alerts already shown, kept across renders. */
  class AlertTracker {
    var shownAlerts: set<AlertKey>

    constructor ()
      ensures shownAlerts == {}
    {
      shownAlerts := {};
    }

    /** One run of the alert effect; returns the alerts it shows, the last one being on screen. */
    method Check(role: Option<UserRole>, elapsed: int, delaySec: int, isAlertOn: bool, absent: bool)
      returns (shown: seq<AlertKey>)
      modifies this
      ensures shown == Unseen(DueAlerts(role, elapsed, delaySec, isAlertOn, absent), old(shownAlerts))
      ensures shownAlerts == old(shownAlerts) + AsSet(shown)
    {
      shown := [];
      if !isAlertOn || absent {
        return;
      }
      ghost var s0 := shownAlerts;
      var da := role == Some(Student) && elapsed == 150 + delaySec - 30;
      var db := role == Some(Parent) && elapsed == 30;
      var dc := role == Some(Parent) && elapsed == 150 + delaySec;
      var a := ShowOnce(StudentArrival, da);
      var b := ShowOnce(ParentBoard, db);
      var c := ShowOnce(ParentAlight, dc);
      shown := a + b + c;
      ThreeShows(s0, da, db, dc, a, b, c);
      AsSetConcat3(a, b, c);
      DueAlertsBlocks(role, elapsed, delaySec, isAlertOn, absent);
    }

    /** One `if (cond && !shownAlerts.has(k))` block of the effect. */
    method ShowOnce(k: AlertKey, due: bool) returns (shown: seq<AlertKey>)
      modifies this
      ensures shown == OneIf(due && k !in old(shownAlerts), k)
      ensures shownAlerts == old(shownAlerts) + AsSet(shown)
    {
      shown := [];
      if due && k !in shownAlerts {
        shown := [k];
        shownAlerts := shownAlerts + {k};
      }
    }
  }
}
