# Shuttle bus service: a Dafny model of its logic

`shuttle-bus-service` is a React app for a school shuttle with one route. Students and parents apply for the bus. A rider follows it on a timeline and can request a late pickup or an absence before the boarding cutoff. The driver reads per-date route pages and a month calendar.

This project models the app's deterministic logic in Dafny and proves properties about it. The clock, the random delay flag and browser storage are taken as parameters.

One module per source file:

| module | file | what it holds |
|---|---|---|
| `Text` | — | the JavaScript string built-ins the code uses: `String(n)`, `padStart`, `startsWith`, `trim`, `split`, `join`, `parseInt`. `parseInt` covers white space, a sign, `0x` hex and `NaN`. |
| `Types` | `types.ts` | user, session, stop and notice records |
| `Constants` | `constants.ts` | the five stops, the shuttle info, the preset notice, the non-operation days |
| `Helpers` | `helpers.ts` | time and phone formatting, weekday labels |
| `Timeline` | `screens/Timeline.tsx` | the bus position as an exact real percentage, and the countdown |
| `MainDashboard` | `screens/MainDashboard.tsx` | the attendance session and its handlers; the dashboard as a state machine; the once-only ride alerts (class `AlertTracker`) |
| `InputPhone` | `components/InputPhone.tsx` | class `PhoneInput` with its sticky error |
| `CalendarGrid` | — | the `days` loops and the `dateStr` format that both calendars share |
| `MiniCalendar`, `MonthlyCalendar` | `screens/MiniCalendar.tsx`, `screens/MonthlyCalendar.tsx` | cell rules and clicks |
| `ShuttleSelect`, `MyPage`, `InfoScreen`, `ChatScreen`, `RouteDetail` | the respective screens | boarded flag and route line; profile page; first-run form; chat; driver route page |
| `App` | `App.tsx` | class `App`: screen, user record, notices, stored session and their handlers |

Behaviours of the code worth knowing:

- **Cutoff.** The dashboard locks late and absent requests at the fixed moment `t0 + 30 s` (`MainDashboard.tsx:72-74`). The delay does not move it.
- **Late-mode plateau.** The timeline has none. It takes only `t0` and a delay (`Timeline.tsx:5-23`).
- **Calendar clicks on today.** They are not refused. Past scheduled dates are refused (`MiniCalendar.tsx:29-33`). Clicks on non-operation dates are ignored, because such a day is never scheduled and the click handler runs only on scheduled days (`MiniCalendar.tsx:58`, `MiniCalendar.tsx:66`). The holiday refusal at `MiniCalendar.tsx:34-37` is unreachable.
- **`absentDates`.** It is a list, not a set. Cancelling filters out every copy of a date. Confirming deduplicates the whole list.
- **Confirms after the cutoff.** A confirm dialog opened before the cutoff is still accepted after it. Its callback does not check the time again (`MainDashboard.tsx:115-121`). `MainDashboard.ConfirmAfterCutoffAccepted` shows this.
- **`lateCount`.** It is never changed.

Two more observations about the phone field, both proved:

- Once the digits after `010-` are cleared, the field shows `010` without its dash.
- A digit typed after that loses the `010-` prefix, so a second `010` goes in front. `InputPhone.PrefixRepeatedWithoutDash` shows this.

Boarding times are modelled per file, as each file writes them:

- The dashboard uses no delay.
- The profile page and the shuttle search add 20 s for the random delay and 20 s for a late request.

## Model

| member | source | states |
|---|---|---|
| Text.NatToString | shuttlebusservice/helpers.ts:3-5 | `String(n)` is a digit string with no leading zero. It has one digit exactly when n < 10. |
| Text.DecimalValueOfNatToString | shuttlebusservice/helpers.ts:3-5 | Reading back the digits of `String(n)` gives n. |
| Text.PadStart | shuttlebusservice/helpers.ts:3-5 | The length is the larger of the input length and the width. The input sits at the end, fill characters before it. |
| Text.Pad2Digits | shuttlebusservice/helpers.ts:3-5 | For n < 100 the padded string is two digits that denote n. |
| Text.Trim | shuttlebusservice/screens/InfoScreen.tsx:15 | The result is no longer than the input. When non-empty, it starts and ends with a non-space. That it is the input's middle is Text.TrimInfix. |
| Text.TrimInfix | shuttlebusservice/screens/InfoScreen.tsx:15 | `trim()` is a contiguous slice of its input, with only white space cut before and after it. |
| Text.TrimEmptyIffBlank | shuttlebusservice/screens/InfoScreen.tsx:15 | `trim()` is empty exactly when every character is JavaScript white space. |
| Text.Split | shuttlebusservice/screens/RouteDetailByDate.tsx:64 | `split` gives at least one piece, none containing the separator. |
| Text.SplitAtSeparator | shuttlebusservice/screens/RouteDetailByDate.tsx:64 | Splitting `a + sep + b`, with no separator in a, gives a followed by the pieces of b. |
| Text.Join | shuttlebusservice/screens/ShuttleSelectScreen.tsx:96 | Models `xs.join(sep)`. Where each element and separator lands is proved by Text.JoinElementAt and Text.JoinSeparatorAt. |
| Text.JoinElementAt | shuttlebusservice/screens/ShuttleSelectScreen.tsx:96 | Element k of a joined list sits at its offset in the text. |
| Text.JoinSeparatorAt | shuttlebusservice/screens/ShuttleSelectScreen.tsx:96 | Between elements k and k+1 of a joined list sits the separator. |
| Text.ParseInt | shuttlebusservice/screens/RouteDetailByDate.tsx:64 | Models `parseInt`: white space, a sign, `0x` hex, the longest digit run, and `NaN` (None) when there is none. Its value on digit strings is proved by Text.ParseIntDigits. |
| Text.ParseIntDigits | shuttlebusservice/screens/RouteDetailByDate.tsx:64 | `parseInt` of a decimal digit string is its decimal value, leading zeros ignored. |
| Constants.StopsShape | shuttlebusservice/constants.ts:4-10 | Five stops, ids 1..5 in order, with offsets 0, 30, 60, 90, 150 strictly increasing. |
| Constants.BoardingAndDestination | shuttlebusservice/constants.ts:4-18 | Exactly one boarding stop (id 2, offset 30). Exactly one destination, the last stop (id 5, offset 150), named like the shuttle's destination. |
| Constants.NonOperationDatesShape | shuttlebusservice/constants.ts:31-34 | Two 10-character `YYYY-MM-DD` strings: dashes at 4 and 7, a decimal digit everywhere else. The holiday list equals them. |
| Helpers.FormatHHMMSS | shuttlebusservice/helpers.ts:2-7 | Models `formatHHMMSS`: the three fields padded to two digits, joined by colons. Its shape is proved by Helpers.FormatHHMMSSShape. |
| Helpers.FormatHHMMSSShape | shuttlebusservice/helpers.ts:2-7 | For a valid clock time the result is the 8 characters `HH:MM:SS`: each field two digits, colons between. |
| Helpers.ParseDigits | shuttlebusservice/helpers.ts:9 | Only digits remain, and the result is no longer than the input. |
| Helpers.ParseDigitsKeepsDigits | shuttlebusservice/helpers.ts:9 | Each digit is kept as often as it occurs. Every other character is dropped. |
| Helpers.ParseDigitsConcat | shuttlebusservice/helpers.ts:9 | Stripping distributes over concatenation. |
| Helpers.ParseDigitsIdempotent | shuttlebusservice/helpers.ts:9 | Stripping twice is stripping once. |
| Helpers.FormatPhone | shuttlebusservice/helpers.ts:11-15 | Models `formatPhone` by its three length cases. Its shape and round trip are proved by Helpers.FormatPhoneShape and Helpers.FormatPhoneRoundTrip. |
| Helpers.FormatPhoneShape | shuttlebusservice/helpers.ts:11-15 | Up to 3 digits are unchanged. 4 to 7 digits get one dash after the third. 8 or more get dashes after the third and the seventh, keeping at most 11 digits. |
| Helpers.FormatPhoneRoundTrip | shuttlebusservice/helpers.ts:9-15 | Stripping the dashes from a formatted digit string gives back its first 11 digits. This is the input itself when it has at most 11. |
| Helpers.DayOfWeek | shuttlebusservice/helpers.ts:17-20 | For a weekday index 0..6 the label is a single character. The labels themselves are proved by Helpers.DayOfWeekNames. |
| Helpers.DayOfWeekNames | shuttlebusservice/helpers.ts:17-20 | Indices 0..6 map to 일..토 in order, each label distinct. |
| Timeline.NodeTimes | shuttlebusservice/screens/Timeline.tsx:21-23 | One node time per stop. The values are proved by Timeline.NodeTimesDelay. |
| Timeline.NodeTimesDelay | shuttlebusservice/screens/Timeline.tsx:18-23 | Node times are the stop offsets in ms, each after the first shifted by the delay. Only the first segment gets longer. |
| Timeline.MinsRemaining | shuttlebusservice/screens/Timeline.tsx:55-56 | The countdown is the ceiling of the remaining ms over 30 000. |
| Timeline.Position | shuttlebusservice/screens/Timeline.tsx:29-51 | Models the frame's `currentY` for a numeric delay: clamp, 100 at arrival, else the first segment whose end is at or after the clamped time. Its properties are the Timeline.Position* lemmas below. |
| Timeline.PositionBounds | shuttlebusservice/screens/Timeline.tsx:29-51 | For every elapsed time and delay the position is between 0 and 100. |
| Timeline.PositionEnds | shuttlebusservice/screens/Timeline.tsx:29-38 | The position is 0 up to the start. It is exactly 100 at or after arrival. |
| Timeline.PositionAtNode | shuttlebusservice/screens/Timeline.tsx:37-51 | At node k's time the bus is exactly on marker 25·k. A boundary belongs to the earlier segment. |
| Timeline.PositionInSegment | shuttlebusservice/screens/Timeline.tsx:37-51 | The position lies between the two markers of the segment the clamped time falls in. |
| Timeline.PositionLinear | shuttlebusservice/screens/Timeline.tsx:39-50 | Inside segment k the position is the exact linear interpolation of its markers. |
| Timeline.PositionMonotone | shuttlebusservice/screens/Timeline.tsx:29-51 | The bus never moves backwards as time passes. |
| Timeline.MinsRemainingMonotone | shuttlebusservice/screens/Timeline.tsx:55-56 | The countdown never increases, and it is 0 from arrival on. |
| Timeline.WorkedExample | shuttlebusservice/screens/Timeline.tsx:21-56 | With no delay, 45 s in, the position is 37.5. At the start the countdown is 5. |
| Timeline.OneMarkerPerStop | shuttlebusservice/screens/Timeline.tsx:25 | There is one track marker per stop. |
| Timeline.UndefinedDelayFreezesBus | shuttlebusservice/screens/Timeline.tsx:17-56 | With `delaySec` undefined, as every caller leaves it, the computed position is 0 at every instant and the countdown is NaN. |
| Timeline.DelayPassedAgrees | shuttlebusservice/screens/Timeline.tsx:17-56 | With a numeric `delaySec`, the frame computed on JavaScript numbers gives exactly Timeline.Position and Timeline.MinsRemaining. |
| MainDashboard.DefaultMemos | shuttlebusservice/screens/MainDashboard.tsx:28-31 | A fresh session has a memo `기사님 휴무일` on exactly the two non-operation days. |
| MainDashboard.ElapsedSeconds | shuttlebusservice/screens/MainDashboard.tsx:70 | Elapsed seconds are the floor of the ms difference over 1000. |
| MainDashboard.CutoffIsFixed | shuttlebusservice/screens/MainDashboard.tsx:69-74 | No request flag moves the lock, and it sits at `t0 + 30 s`. Arrival is 150 s after the start, or 170 s with a late request. |
| MainDashboard.RemoveAll | shuttlebusservice/screens/MainDashboard.tsx:109 | The date is gone, and every other date keeps its number of copies. |
| MainDashboard.RemoveAllConcat | shuttlebusservice/screens/MainDashboard.tsx:109 | Filtering a concatenation is the concatenation of the filtered parts, so the survivors keep their order. |
| MainDashboard.RemoveAllSingle | shuttlebusservice/screens/MainDashboard.tsx:109 | A one-date list loses its date exactly when it is the removed one. |
| MainDashboard.Dedupe | shuttlebusservice/screens/MainDashboard.tsx:119 | The result has the same members and no duplicates. A duplicate-free list is returned unchanged. |
| MainDashboard.DedupeSnoc | shuttlebusservice/screens/MainDashboard.tsx:119 | Appending a date keeps the deduplicated prefix and adds the date at the end exactly when it is new. |
| MainDashboard.DedupeKeepsFirst | shuttlebusservice/screens/MainDashboard.tsx:119 | The first element stays in front and its later copies go: the first occurrence of each date is kept, in order of first occurrence. |
| MainDashboard.BoardingTime | shuttlebusservice/screens/MainDashboard.tsx:72 | Models the dashboard's boarding moment, `t0 + 30 s`. Proved fixed by MainDashboard.CutoffIsFixed. |
| MainDashboard.AbsentClick | shuttlebusservice/screens/MainDashboard.tsx:94-125 | Models `handleAbsentClick`. Its cases are proved by MainDashboard.LockedAfterCutoff, ConflictRefused, EnteringNeedsConfirm and AbsentDatesUpdates. |
| MainDashboard.LateClick | shuttlebusservice/screens/MainDashboard.tsx:127-149 | Models `handleLateClick`. Its cases are proved by the same lemmas and MainDashboard.LateTouchesOnlyFlag. |
| MainDashboard.Confirm | shuttlebusservice/screens/MainDashboard.tsx:115-146 | Models the two confirm callbacks. Their effect is proved by MainDashboard.AbsentDatesUpdates and LateTouchesOnlyFlag. |
| MainDashboard.LockedAfterCutoff | shuttlebusservice/screens/MainDashboard.tsx:94-131 | On or after `t0 + 30 s` both buttons are refused with the boarding-passed reason, whether entering or cancelling. |
| MainDashboard.ConflictRefused | shuttlebusservice/screens/MainDashboard.tsx:99-135 | Before the cutoff each request is refused exactly when the other one is active, with the other-selected reason. |
| MainDashboard.EnteringNeedsConfirm | shuttlebusservice/screens/MainDashboard.tsx:105-148 | Only cancelling takes effect at once. Entering either request opens a confirm dialog. The absent dialog captures today's date. |
| MainDashboard.AbsentDatesUpdates | shuttlebusservice/screens/MainDashboard.tsx:104-124 | Confirming absent sets the flag and leaves today in the list exactly once, other dates kept. Cancelling clears the flag, removes every copy of today and keeps the other dates' counts. Both change no other session field. |
| MainDashboard.LateTouchesOnlyFlag | shuttlebusservice/screens/MainDashboard.tsx:137-148 | Late confirm and cancel change only the late flag. |
| MainDashboard.DateSelect | shuttlebusservice/screens/MainDashboard.tsx:277-285 | Models `onDateSelect`. Proved by MainDashboard.DateSelectToggles. |
| MainDashboard.DateSelectToggles | shuttlebusservice/screens/MainDashboard.tsx:277-285 | A calendar selection flips the date's membership and leaves the other dates and the flags alone. Selecting an unlisted date twice restores the session. |
| MainDashboard.UpdateMemo | shuttlebusservice/screens/MainDashboard.tsx:286-288 | Models `onUpdateMemo`. Proved by MainDashboard.UpdateMemoOneKey. |
| MainDashboard.UpdateMemoOneKey | shuttlebusservice/screens/MainDashboard.tsx:286-288 | The memo map gains or overwrites one key. All other keys and fields are unchanged. |
| MainDashboard.ToggleView | shuttlebusservice/screens/MainDashboard.tsx:289-291 | Models `onToggleView`. Proved by MainDashboard.ToggleViewInvolution. |
| MainDashboard.ToggleViewInvolution | shuttlebusservice/screens/MainDashboard.tsx:289-291 | The view flips, and flipping twice restores the session. |
| MainDashboard.Step | shuttlebusservice/screens/MainDashboard.tsx:94-149 | Models one dashboard event: a click, the dialog's confirm or cancel, an alert, or a calendar edit. Its invariant is proved by MainDashboard.StepKeepsExclusive. |
| MainDashboard.StepKeepsExclusive | shuttlebusservice/screens/MainDashboard.tsx:94-149 | Every dashboard event keeps "never both requests, and a pending confirm only from the normal state". The events include the dialog's confirm and cancel at lines 296-303. |
| MainDashboard.RunKeepsExclusive | shuttlebusservice/screens/MainDashboard.tsx:94-149 | That invariant survives any sequence of events. |
| MainDashboard.NeverLateAndAbsent | shuttlebusservice/screens/MainDashboard.tsx:33-149 | From a fresh session, no sequence of clicks, confirms, cancels, alerts and calendar edits makes late and absent both active. |
| MainDashboard.ConfirmAfterCutoffAccepted | shuttlebusservice/screens/MainDashboard.tsx:112-123 | A dialog opened 1 s before the cutoff, confirmed after it, still records the absence. |
| MainDashboard.DueAlerts | shuttlebusservice/screens/MainDashboard.tsx:76-92 | Models which alert blocks of the effect are due, in their order. Proved by MainDashboard.DueAlertsWhen. |
| MainDashboard.DueAlertsWhen | shuttlebusservice/screens/MainDashboard.tsx:76-92 | No alert with alerts off or an absence. A student's arrival alert at exactly 120 s plus the delay. A parent's boarding alert at exactly 30 s and alighting alert at 150 s plus the delay. |
| MainDashboard.Unseen | shuttlebusservice/screens/MainDashboard.tsx:78-87 | An alert is shown exactly when it is due and not yet shown. |
| MainDashboard.AlertsAtMostOnce | shuttlebusservice/screens/MainDashboard.tsx:76-92 | Over any run of the effect, each alert is shown at most once, and never one already shown. |
| MainDashboard.AlertTracker.Check | shuttlebusservice/screens/MainDashboard.tsx:50-92 | Shows the due, unseen alerts in the effect's order and adds them, and nothing else, to `shownAlerts`. |
| MainDashboard.AlertTracker.ShowOnce | shuttlebusservice/screens/MainDashboard.tsx:78-81 | One block of the effect. It shows its key exactly when the key is due and not yet shown, and only then adds it to `shownAlerts`. |
| InputPhone.PhoneInput.constructor | shuttlebusservice/components/InputPhone.tsx:13-14 | The field starts with the given value, or `010-` when that is empty. There is no error. |
| InputPhone.PhoneInput.HandleChange | shuttlebusservice/components/InputPhone.tsx:16-37 | Shows and reports the dashed form of the repaired, cut digits. Valid holds exactly at 11 digits. The error is updated by the sticky rule. |
| InputPhone.TruncatedDigits | shuttlebusservice/components/InputPhone.tsx:19-24 | Models the prefix repair and the cut to 11 digits. Proved by InputPhone.TruncatedDigitsShape. |
| InputPhone.TruncatedDigitsShape | shuttlebusservice/components/InputPhone.tsx:19-24 | Whatever is typed, the digits start with `010` and there are 3 to 11 of them. |
| InputPhone.FormattedHoldsDigits | shuttlebusservice/components/InputPhone.tsx:24-27 | The displayed value strips back to those digits, so it never holds more than 11, and it starts with `010`. |
| InputPhone.WellFormedInputKept | shuttlebusservice/components/InputPhone.tsx:19-25 | A complete `010-XXXX-XXXX` number passes through unchanged. |
| InputPhone.NextError | shuttlebusservice/components/InputPhone.tsx:29-34 | Models the sticky error rule. Proved by InputPhone.NextErrorCases. |
| InputPhone.NextErrorCases | shuttlebusservice/components/InputPhone.tsx:29-34 | The error is cleared when valid and set past 3 invalid digits. Otherwise it persists, which happens only at the bare `010`. |
| InputPhone.PrefixRepeatedWithoutDash | shuttlebusservice/components/InputPhone.tsx:19-25 | `010-` shows as `010`. Typing `5` after it yields the digits `0100105`. |
| CalendarGrid.BuildDays | shuttlebusservice/screens/MiniCalendar.tsx:23-25 | The two loops build `firstDay` blanks, then the days 1..n in order. `MonthlyCalendar.tsx:19-21` has the same loops. |
| CalendarGrid.Grid | shuttlebusservice/screens/MonthlyCalendar.tsx:19-21 | The length is `firstDay + n`. Cell i is blank below `firstDay`, else day `i - firstDay + 1`. |
| CalendarGrid.DayPlacement | shuttlebusservice/screens/MiniCalendar.tsx:23-52 | Day d sits at index `firstDay + d - 1` and nowhere else, on weekday `(firstDay + d - 1) % 7`. |
| CalendarGrid.WeekdayOfDays | shuttlebusservice/screens/MiniCalendar.tsx:52 | Day 1 falls in the column of `firstDay`. Each next day falls in the next column, wrapping after Saturday. |
| CalendarGrid.DateString | shuttlebusservice/screens/MiniCalendar.tsx:51 | Models the cell's `dateStr` template. Its format and injectivity are CalendarGrid.DateStringShape and DateStringInjective. |
| CalendarGrid.DateStringShape | shuttlebusservice/screens/MiniCalendar.tsx:51 | For a four-digit year the cell's string is the ISO 8601 extended calendar date `YYYY-MM-DD`, with year, month+1 and day readable back. |
| CalendarGrid.DateStringInjective | shuttlebusservice/screens/MonthlyCalendar.tsx:51 | Distinct days of a month get distinct date strings. |
| MiniCalendar.DayCell | shuttlebusservice/screens/MiniCalendar.tsx:50-61 | Models one day cell's flags. Proved by MiniCalendar.ScheduledIff. |
| MiniCalendar.HandleDateClick | shuttlebusservice/screens/MiniCalendar.tsx:29-39 | Models `handleDateClick`. Proved by MiniCalendar.PastCheckedFirst. |
| MiniCalendar.CellClick | shuttlebusservice/screens/MiniCalendar.tsx:66 | Models the button's `onClick`, guarded by `isScheduled`. Proved by MiniCalendar.GridClickOutcome. |
| MiniCalendar.ScheduledIff | shuttlebusservice/screens/MiniCalendar.tsx:20-61 | Scheduled exactly when the column is Mon, Wed or Thu and the date is not a non-operation day. Absent and past flags as written. |
| MiniCalendar.PastCheckedFirst | shuttlebusservice/screens/MiniCalendar.tsx:29-39 | A past date is refused before the holiday check. Otherwise a holiday is refused, else the date is selected. |
| MiniCalendar.GridClickOutcome | shuttlebusservice/screens/MiniCalendar.tsx:29-66 | A click off schedule does nothing. A scheduled past day is refused. Any other scheduled day selects its date. The holiday refusal cannot occur. |
| MiniCalendar.NonOperationDayExample | shuttlebusservice/screens/MiniCalendar.tsx:51-58 | The cell for 28 January 2025 is a non-operation day, and a click on it does nothing. |
| MonthlyCalendar.MonthCellFor | shuttlebusservice/screens/MonthlyCalendar.tsx:51-68 | Models one month cell: its date string, non-operation, today and red-dot flags. Proved by MonthlyCalendar.CellRules. |
| MonthlyCalendar.CellRules | shuttlebusservice/screens/MonthlyCalendar.tsx:51-68 | Red dot exactly when the day is not today's and its date has an event. Non-operation style exactly for listed dates. |
| MonthlyCalendar.TodayByDayOnly | shuttlebusservice/screens/MonthlyCalendar.tsx:53 | `isToday` depends on the day of the month only. |
| MonthlyCalendar.ClickSelectsDate | shuttlebusservice/screens/MonthlyCalendar.tsx:51-59 | Every cell's click, non-operation days included, selects its zero-padded date string. |
| ShuttleSelect.TotalDelay | shuttlebusservice/screens/ShuttleSelectScreen.tsx:22 | The delay is 0, 20 or 40. It is 40 exactly with both flags and 0 exactly with neither. |
| ShuttleSelect.IsBoarded | shuttlebusservice/screens/ShuttleSelectScreen.tsx:18-26 | Models the boarded effect. Proved by ShuttleSelect.IsBoardedIff and IsBoardedMonotone. |
| ShuttleSelect.IsBoardedIff | shuttlebusservice/screens/ShuttleSelectScreen.tsx:17-25 | Boarded exactly when at least `30 + delay` whole seconds have passed since `t0 || 0`. Never boarded with no stored session. |
| ShuttleSelect.IsBoardedMonotone | shuttlebusservice/screens/ShuttleSelectScreen.tsx:23-24 | Once boarded, boarded at every later instant. |
| ShuttleSelect.StopNames | shuttlebusservice/screens/ShuttleSelectScreen.tsx:96 | One name per stop, in stop order. |
| ShuttleSelect.RouteText | shuttlebusservice/screens/ShuttleSelectScreen.tsx:96 | Models the route line. Proved by ShuttleSelect.RouteTextOrder and RouteTextValue. |
| ShuttleSelect.RouteTextOrder | shuttlebusservice/screens/ShuttleSelectScreen.tsx:96 | Each stop's name sits at its place in the route line, with ` → ` between neighbours. |
| ShuttleSelect.RouteTextValue | shuttlebusservice/screens/ShuttleSelectScreen.tsx:96 | The route line reads `이매촌 → 아름마을 → 탑마을 → 봇들마을 → 대치학원`. |
| MyPage.BoardingTime | shuttlebusservice/screens/MyPage.tsx:22-25 | Models the page's boarding time. Proved by MyPage.BoardingTimeValues and LaterThanDashboardCutoff. |
| MyPage.BoardingTimeValues | shuttlebusservice/screens/MyPage.tsx:22-25 | Boarding is 30, 50 or 70 s after the start (`t0 || now`). It is 70 s exactly with both flags, and 30 s from now when nothing is stored. |
| MyPage.LaterThanDashboardCutoff | shuttlebusservice/screens/MyPage.tsx:23-25 | The page's boarding time is the dashboard's plus the total delay, so never earlier. |
| MyPage.Saved | shuttlebusservice/screens/MyPage.tsx:29-34 | Models the record update of a save. Proved by MyPage.SavedKeepsOtherFields. |
| MyPage.SavedKeepsOtherFields | shuttlebusservice/screens/MyPage.tsx:29-34 | A save writes the name and both phones. Role, application and shuttle stay. Saving the unedited buffers is the identity. |
| MyPage.SaveAllowedIff | shuttlebusservice/screens/MyPage.tsx:28 | Save is allowed exactly when the name is not blank and both phones are valid. |
| MyPage.ProfileEditor.constructor | shuttlebusservice/screens/MyPage.tsx:17-20 | The buffers start from the record, both phones marked valid, not editing. |
| MyPage.ProfileEditor.StartEditing | shuttlebusservice/screens/MyPage.tsx:45 | The edit button starts editing. The record and the buffers are unchanged. |
| MyPage.ProfileEditor.CancelEditing | shuttlebusservice/screens/MyPage.tsx:95 | The cancel button ends editing. The buffers keep what was typed, and the record is unchanged. |
| MyPage.ProfileEditor.Save | shuttlebusservice/screens/MyPage.tsx:27-36 | A refused save changes nothing. An allowed one writes the three fields and ends editing. |
| InfoScreen.InitialFormInvalid | shuttlebusservice/screens/InfoScreen.tsx:11-18 | Both phones start as `010-` and invalid, so the form starts invalid and Next does nothing. |
| InfoScreen.IsFormValidIff | shuttlebusservice/screens/InfoScreen.tsx:15 | The form is valid exactly when the name is not blank and both phones are valid. |
| InfoScreen.HandleNext | shuttlebusservice/screens/InfoScreen.tsx:17-24 | Models `handleNext`. Proved by InfoScreen.HandleNextSupplies. |
| InfoScreen.HandleNextSupplies | shuttlebusservice/screens/InfoScreen.tsx:17-24 | Next does nothing exactly when the form is invalid. Otherwise it passes the untrimmed name and both phone values, and no other field. |
| InfoScreen.BlankNameRefused | shuttlebusservice/screens/InfoScreen.tsx:15-18 | A name of spaces is refused even with two valid phones. |
| ChatScreen.Chat.constructor | shuttlebusservice/screens/ChatScreen.tsx:10-14 | The chat opens with the two preset messages and an empty input. |
| ChatScreen.Chat.Send | shuttlebusservice/screens/ChatScreen.tsx:16-20 | Blank input changes nothing. Otherwise one user message with the untrimmed text is appended and the input is cleared. |
| ChatScreen.InitialConversation | shuttlebusservice/screens/ChatScreen.tsx:10-13 | The system message comes first, then the driver's. |
| RouteDetail.FormattedDate | shuttlebusservice/screens/RouteDetailByDate.tsx:64 | Models the page title's date label. Proved by RouteDetail.EmptyDateLabel, FormattedDateOfDateString and MissingPieceIsNaN. |
| RouteDetail.EmptyDateLabel | shuttlebusservice/screens/RouteDetailByDate.tsx:64 | An empty date gives an empty label. |
| RouteDetail.FormattedDateOfDateString | shuttlebusservice/screens/RouteDetailByDate.tsx:64 | A `YYYY-MM-DD` calendar string gives `<M>월 <D>일`, leading zeros dropped. |
| RouteDetail.FormattedDateExample | shuttlebusservice/screens/RouteDetailByDate.tsx:64 | `2025-01-28` reads `1월 28일`. |
| RouteDetail.MissingPieceIsNaN | shuttlebusservice/screens/RouteDetailByDate.tsx:64 | A date without dashes gives `NaN월 NaN일`. |
| RouteDetail.StopClick | shuttlebusservice/screens/RouteDetailByDate.tsx:51-62 | Models `handleStopClick`. Proved by RouteDetail.StopClickGuard. The timeline never calls it (see Left out). |
| RouteDetail.StopClickGuard | shuttlebusservice/screens/RouteDetailByDate.tsx:51-62 | A click on the destination does nothing. Any other stop opens the late-notice confirmation. The handler is never reached (see Left out). |
| RouteDetail.LateNoticeNeverMarks | shuttlebusservice/screens/RouteDetailByDate.tsx:57-106 | The page's dialog confirm only closes it. The event list is never changed, though the stored callback would have marked the date. The dialog itself is never opened (see Left out). |
| RouteDetail.Summary | shuttlebusservice/screens/RouteDetailByDate.tsx:78 | Models the status summary line. Proved by RouteDetail.SummaryIff. |
| RouteDetail.SummaryIff | shuttlebusservice/screens/RouteDetailByDate.tsx:78 | The all-normal line shows exactly when there is no absence. |
| App.Merge | shuttlebusservice/App.tsx:91 | Every supplied field replaces the old one. Every other field is kept. |
| App.MergeLaws | shuttlebusservice/App.tsx:91 | Merging nothing keeps the record. Merging the same data twice is merging once. |
| App.RedirectTarget | shuttlebusservice/App.tsx:70-77 | Models the effect's screen switch. Proved by App.RedirectRules. |
| App.RedirectRules | shuttlebusservice/App.tsx:70-77 | The screen switches only from START once applied: to the driver home for a driver, else to the dashboard. The switch is idempotent. |
| App.FindIndex | shuttlebusservice/App.tsx:166 | Gives the index of the first notice with the id, or the length when none has it. |
| App.FindNotice | shuttlebusservice/App.tsx:166 | Models `notices.find`. Proved by App.FindNoticeFirst. |
| App.FindNoticeFirst | shuttlebusservice/App.tsx:166 | `find` returns the first notice with the id. It returns nothing only when no notice has it. |
| App.NoticeForDetail | shuttlebusservice/App.tsx:166-167 | Models the detail page's notice, `find` or the first. Proved by App.NoticeForDetailFallback. |
| App.NoticeForDetailFallback | shuttlebusservice/App.tsx:166-167 | The detail page shows the matching notice, else the first. It shows none only when the list is empty. |
| App.InitialNoticeShown | shuttlebusservice/App.tsx:166-167 | With the preset list, the single notice shows whether or not it is selected. |
| App.App.constructor | shuttlebusservice/App.tsx:37-60 | The app starts on START, with the preset notices, the initial user and the entry source MYPAGE. |
| App.App.Redirect | shuttlebusservice/App.tsx:70-77 | The effect's screen switch. Nothing else changes. |
| App.App.RoleSelect | shuttlebusservice/App.tsx:80-88 | A driver gets the role, `isApplied` and the driver home. A rider gets the role and the form, with `isApplied` unchanged. |
| App.App.InfoSubmit | shuttlebusservice/App.tsx:90-94 | Merges the form, goes to the shuttle search, and sets the entry source to MYPAGE. |
| App.App.AddNotice | shuttlebusservice/App.tsx:96-104 | The new notice goes first, and the old ones follow in their order. |
| App.App.Logout | shuttlebusservice/App.tsx:107-112 | Resets the user, forgets the stored session, and goes to START. |
| App.App.Apply | shuttlebusservice/App.tsx:128-132 | Sets applied to `shuttle_1`, clears the stored session, and goes to the dashboard. |
| App.App.ShuttleSelectBack | shuttlebusservice/App.tsx:133 | Back from the search goes to the dashboard when entered from the dropdown, else to the profile. |
| App.App.AddRoute | shuttlebusservice/App.tsx:144 | Opens the search from the dropdown. |
| App.App.SearchShuttle | shuttlebusservice/App.tsx:163 | Opens the search from the profile. |
| App.App.SelectNotice | shuttlebusservice/App.tsx:117-120 | Records the id and opens the detail page. |
| App.App.NoticeBack | shuttlebusservice/App.tsx:116 | Back from the notices goes to the role's home. |
| App.App.SelectDriverDate | shuttlebusservice/App.tsx:152-155 | Records the date and opens its route page. |

## Left out

- Rendering, styling, `Modal.tsx`, `Toggle.tsx`, `StartScreen.tsx` and `NoticeScreens.tsx`: presentation only. This includes the `disabled` attribute of the two attendance buttons. The model keeps the handlers' own refusal, which leaves the session unchanged just as a disabled button does.
- Timers: the animation frame loop, the 1-second tick, the 5-second apply delay and the driver popups. `now` is a parameter of every operation that reads the clock.
- `DriverHome.tsx`: timers, randomness and storage around a stop-name guard.
- Browser storage:
  - JSON parsing and the v1 backup and restore are left out.
  - The app keeps the stored session as a field, which Apply and Logout clear.
  - The stored user record is not modelled: the app's effect writes it back from `userData` after every change.
- Randomness: `hasRandomDelay` is a parameter of the default session.
- The per-date headcount generator and the event history (`getPersistedStudentCounts`, `markEventDate`, `getEventHistory`). They are imported but not part of this model, so the absence flag, the target stop and the event dates are inputs.
- The timeline's phase colours, absence colouring, plateau and congestion props: the timeline does not read them.
- Timeline.Position: no caller passes `delaySec`: `MainDashboard.tsx:217`, `RouteDetailByDate.tsx:82-89` and `DriverHome.tsx:99-105`. So `delayMs` is NaN, every node after the first, the trip length and the clamped time are NaN, every comparison fails, the bus stays at 0 and the countdown reads `NaN분`. Timeline.Position and Timeline.MinsRemaining model the evidently intended numeric delay. The as-written frame is Timeline.UndefinedDelayFreezesBus (see Findings).
- RouteDetail.StopClick: the timeline declares only `t0` and `delaySec` and wires no `onClick` (`Timeline.tsx:5-10`), so the `onStopClick` that `RouteDetailByDate.tsx:88` and `DriverHome.tsx:104` pass is never called. RouteDetail.StopClickGuard and RouteDetail.LateNoticeNeverMarks describe a handler that is unreachable in the app as written.
- Timeline.Position: angles and pixels of the bus icon, and IEEE-754 rounding, are left out. The percentage is an exact real.
- The monthly late quota: it appears only in dialog text.
- The memo and view props MainDashboard passes to MiniCalendar: MiniCalendar does not declare them. The handlers are modelled on the dashboard session.
- JavaScript `Date` arithmetic: `firstDay`, `daysInMonth`, today's day, the local hour, minute and second, and the UTC `toISOString` date. All are inputs. The UTC versus local mismatch is not reconciled.
- The alert toggle: `isAlertOn` is an input of the alert rule, including its reset whenever the absence flag changes.
- The audio beep on the driver's route page.
- MiniCalendar's own error dialog: it is a local dialog state and is not modelled.
- Text.ParseInt: `parseInt` results are exact integers. Precision loss past 2^53 and the `Infinity` of huge inputs are not modelled.
- CalendarGrid.DateString: years are natural numbers. Negative years, which `${year}` would print with a sign, are not modelled.
- Helpers.FormatHHMMSSShape: takes the hour, minute and second a `Date` reports, not the `Date` itself.
- Helpers.DayOfWeek: takes the weekday index a `Date` reports, not the `Date` itself.

## Findings

| source | as written | input that shows it | evidently intended | confidence | as-written member | corrected member |
|---|---|---|---|---|---|---|
| shuttlebusservice/screens/MainDashboard.tsx:217 | `<Timeline t0={t0} isLate=… isAbsent=… />` passes no `delaySec`; neither do `RouteDetailByDate.tsx:82-89` and `DriverHome.tsx:99-105`. `delaySec * 1000` (`Timeline.tsx:18`) is then NaN. | any elapsed time, e.g. 45 000 ms after `t0`: the bus is drawn at 0 % and the countdown shows `NaN분` | pass the delay (0 when there is none), so the bus moves along the track and the countdown counts down | not executed | Timeline.UndefinedDelayFreezesBus | Timeline.DelayPassedAgrees |
