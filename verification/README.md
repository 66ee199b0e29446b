# Smoke tracker: a Dafny model of its logic

The smoke tracker is a Next.js app. A user logs cigarettes they smoked or
resisted, each with mood, urgency and a few flags, and reads a report over a
day, a week or a month. This project models the app's logic in Dafny and
proves properties of it:

- **Report page** (`Report`, components/report-page.tsx):
  - the time window computed from the selected date with the JavaScript
    Date setters;
  - the inclusive filter of the entries to that window;
  - the smoked and resisted counts;
  - the 24 hour buckets and their averages;
  - the ten most recent smoked entries;
  - the prev/next date navigation.
- **Tracker page** (`Tracker`, app/page.tsx):
  - the entry form;
  - the prepend on submit and the form reset;
  - the fifteen sample entries the list starts with;
  - today's entries and counts;
  - the five-entry recent panel;
  - the loading / sign-in / page gate.
- **Session holder** (`AuthContext`, contexts/auth-context.tsx): the user,
  the loading flag and the stored user, changed by restore, login, register,
  social login and logout; also `useAuth`.
- **Auth page** (`AuthPage`, app/auth/page.tsx): the login / register /
  confirm mode machine.
- **Registration form** (`RegisterForm`, components/auth/register-form.tsx):
  the validation chain.
- **Route guard** (`AuthGuard`, components/auth/auth-guard.tsx).

Shared modules:

- `Entries`: the entry record and the list operations both pages use
  (filter, newest-first sort, `slice(0, n)`).
- `Calendar`: the date arithmetic of section 21.4.1 of ECMA-262, with local
  time at a fixed zero offset:
  - time values are integer milliseconds;
  - `YearFromTime`, `MonthFromTime`, `DateFromTime`, `WeekDay`, `MakeDay`
    and `MakeDate` follow the standard;
  - `DayFromYear` is counted year by year from 1970, and `DayFromYearFormula`
    proves it equal to the standard's closed form;
  - the setters `setHours`, `setDate` and `setMonth` are the functions
    `WithHours`, `WithHoursMinutes`, `WithDate` and `WithMonth`, with the
    standard's normalising behaviour: a date past the end of a month, or
    date 0, carries into the neighbouring month.
- `DateObject`: the mutable `Date` as a class over one time value.
- `JsString`: string length as JavaScript counts it, in UTF-16 code units.
  Dafny strings are sequences of Unicode scalar values, so a character above
  U+FFFF counts twice.
- `Wrappers`: option and result types.

Where the code does something else than its comments and names suggest,
the model follows the code. Three cases are listed under Findings. First,
the "week" window is meant to run from Sunday to Saturday but can end a
month late. Second, the month step rolls over into the month after the
target where a step to the target month's last day is meant. Third, a
sample entry "for today" can lie later than the current time, which breaks
the newest-first order of the list once an entry is submitted.

## Model

| member | source | states |
|---|---|---|
| Report.ComputeWindow | components/report-page.tsx:48-66 | the setter calls on the two copies of the selected date leave exactly the window `Window(selected, filter)` for each of day, week and month |
| Report.Window | components/report-page.tsx:48-66 | the [start, end] interval each filter leaves on the two Date copies; its properties are the lemmas below |
| Report.WindowAroundSelected | components/report-page.tsx:48-66 | for every filter the window contains the selected time |
| Report.ComputeDayWindow | components/report-page.tsx:52-54 | `setHours(0,0,0,0)` and `setHours(23,59,59,999)` on the two copies give the day window |
| Report.ComputeWeekWindow | components/report-page.tsx:55-60 | the week arm gives the week window, the end copy moved to the Sunday's date plus six |
| Report.StartOfWeek | components/report-page.tsx:56-58 | `getDay`, `setDate(getDate() - dayOfWeek)` and midnight leave the copy at the week start |
| Report.EndOfDayOn | components/report-page.tsx:59-60 | `setDate(date)` then `setHours(23,59,59,999)` |
| Report.ComputeMonthWindow | components/report-page.tsx:61-65 | `setDate(1)` at midnight on one copy and `setMonth(getMonth()+1, 0)` at 23:59:59.999 on the other give the month window |
| Report.DayWindow | components/report-page.tsx:52-54 | the day window starts at 00:00:00.000 and ends at 23:59:59.999 of the selected day, spans one day less a millisecond and contains the selected time |
| Report.WeekWindowStart | components/report-page.tsx:55-58 | the week window starts on a Sunday at midnight, the selected day minus its week day index, not after the selected time |
| Report.WeekStartDate | components/report-page.tsx:56-57 | the Sunday's date is date − weekday within the month, or that many days back into the previous month |
| Report.WeekWindowEndDay | components/report-page.tsx:59-60 | the end lands six days after the Sunday when the Sunday is in the selected month, and as many days later as the previous month is long otherwise |
| Report.WeekWindowEndSameMonth | components/report-page.tsx:59-60 | with the Sunday in the selected month the window ends the next Saturday at 23:59:59.999, seven days less a millisecond after the start |
| Report.WeekWindowEndAcrossMonth | components/report-page.tsx:59-60 | with the Sunday in the previous month the end overshoots by that month's length |
| Report.IntendedWeekWindow | components/report-page.tsx:55-60 | the Sunday-to-Saturday week around the selected day, from midnight to 23:59:59.999, containing the selected time |
| Report.WeekWindowAsIntended | components/report-page.tsx:59-60 | the window as written equals the intended week exactly when the selected date is past its week day index |
| Report.WeekWindowAcrossMonthExample | components/report-page.tsx:59-60 | on a Thursday 1 October the window runs from Sunday 27 September to 2 November instead of 3 October |
| Report.MonthWindow | components/report-page.tsx:61-65 | the month window starts on the 1st at midnight and ends on the month's last day (`DaysInMonth`, 28/29 by leap year) at 23:59:59.999, around the selected time |
| Report.FilteredEntries | components/report-page.tsx:68 | an entry is kept exactly when it is in the list and start ≤ timestamp ≤ end |
| Report.FilteredEntriesOrderAndIdempotence | components/report-page.tsx:68 | the filter distributes over concatenation (keeps source order) and filtering twice is filtering once |
| Report.SmokedCount | components/report-page.tsx:71 | the number of smoked filtered entries, at most their number |
| Report.ResistedCount | components/report-page.tsx:72 | the number of resisted filtered entries, at most their number |
| Report.CountsPartition | components/report-page.tsx:71-72 | smokedCount + resistedCount is the number of filtered entries |
| Report.HourLabel | components/report-page.tsx:77 | bucket i is labelled with i as two digits followed by ":00" |
| Report.TallyAt | components/report-page.tsx:85-95 | the bucket of hour h after the forEach over the entries; its properties are TallyTotal, TallySums, HoursAppend and BucketsCoverEntries |
| Report.Mean | components/report-page.tsx:99-100 | the average times the entry count is the sum; 0 for an empty hour |
| Report.MeanBounds | components/report-page.tsx:99-100 | an average of values in 1..10 lies in 1..10 |
| Report.Averaged | components/report-page.tsx:97-101 | the averaging map keeps label and counts and turns each sum into its average, 0 when the hour is empty |
| Report.HourlyData | components/report-page.tsx:75-102 | exactly 24 buckets; bucket h is the average of the tally of the entries in hour h |
| Report.TallyTotal | components/report-page.tsx:87-92 | in every bucket totalEntries = smoked + resisted |
| Report.TallySums | components/report-page.tsx:93-94 | with well-formed entries each running sum lies between 1 and 10 times the entry total |
| Report.AveragesInRange | components/report-page.tsx:97-101 | non-empty buckets have average mood and urgency within 1..10 |
| Report.HoursAppend | components/report-page.tsx:85-95 | one more entry raises exactly its own hour's bucket, and exactly one of smoked/resisted there |
| Report.BucketsCoverEntries | components/report-page.tsx:71-95 | over the 24 buckets the smoked counts add up to smokedCount, the resisted counts to resistedCount and the totals to the number of filtered entries |
| Report.HourlyExample | components/report-page.tsx:75-102 | two entries at 08:15 and 08:45 fill bucket "08:00" with one smoked, one resisted and averages 6.5 and 5.5; every other bucket stays empty |
| Report.RecentEntries | components/report-page.tsx:104-107 | filter smoked, sort newest first, `slice(0, 10)`: at most ten entries |
| Report.RecentEntriesSpec | components/report-page.tsx:104-107 | recentEntries has min(10, smokedCount) smoked entries of the filtered list, newest first, and no smoked entry left out is newer than one kept |
| Report.Navigated | components/report-page.tsx:36-46 | the selected date after one press, per filter; its properties are the lemmas below |
| Report.NavigateDate | components/report-page.tsx:36-46 | the copy moved by `setDate(getDate() ± 1 or 7)` or `setMonth(getMonth() ± 1)` is `Navigated(selected, filter, direction)` |
| Report.NavigateByDays | components/report-page.tsx:38-41 | day and week steps move by exactly ±1 or ±7 days and keep the time of day |
| Report.PrevThenNext | components/report-page.tsx:36-46 | for day and week, prev then next gives back the same date |
| Report.NavigateMonthKeepsDate | components/report-page.tsx:42-44 | a month step lands on the same date of the next or previous month when that month has the date |
| Report.NavigateMonthRollsOver | components/report-page.tsx:42-44 | otherwise it rolls over into the month after the target, by the date's excess over the target month's length |
| Report.NavigateMonthExample | components/report-page.tsx:42-44 | 31 January of a common year, one month on, is 3 March |
| Report.ClampedNavigated | components/report-page.tsx:42-44 | the month step with the date clamped to the target month's length |
| Report.ClampedMonthStep | components/report-page.tsx:42-44 | the clamped step always lands in the target month, on the selected date or that month's last day |
| Report.MonthStepAsIntended | components/report-page.tsx:42-44 | the step as written equals the clamped one exactly when the target month has the selected date |
| Report.DayPresses | components/report-page.tsx:36-46 | any sequence of day or week presses moves the date by the net number of presses times 1 or 7 days |
| Report.NavigateMonthIndex | components/report-page.tsx:42-44 | from a date ≤ 28 a month step moves the month index by exactly one and keeps the date |
| Report.MonthPresses | components/report-page.tsx:42-44 | from a date ≤ 28 month presses move the month by their net number and keep the date |
| Report.TwelveMonthSteps | components/report-page.tsx:42-44 | from a date ≤ 28, twelve presses of next by month give the same month and date one year on |
| Report.TwelveMonthStepsFromJanuary31 | components/report-page.tsx:42-44 | from 31 January of a common year, twelve presses of next end on 3 February of the next year, not on 31 January |
| DateObject.LocalDate.constructor | components/report-page.tsx:37 | `new Date(other)` copies the time value |
| DateObject.LocalDate.GetDate | components/report-page.tsx:39 | `getDate()` is in 1..31 |
| DateObject.LocalDate.GetMonth | components/report-page.tsx:43 | `getMonth()` is in 0..11 |
| DateObject.LocalDate.GetDay | components/report-page.tsx:56 | `getDay()` is in 0..6 |
| DateObject.LocalDate.SetHours | components/report-page.tsx:53-54 | `setHours(h, m, s, ms)` with a clock time keeps the day and sets the time of day |
| DateObject.LocalDate.SetHoursMinutes | app/page.tsx:46 | `setHours(h, m)` keeps the day, seconds and milliseconds |
| DateObject.LocalDate.SetDate | components/report-page.tsx:39-41 | `setDate(d)` moves the day number by d − getDate() and keeps the time of day |
| DateObject.LocalDate.SetMonthDate | components/report-page.tsx:64 | `setMonth(m, d)` is `MakeDay(year, m, d)` at the same time of day |
| DateObject.LocalDate.SetMonth | components/report-page.tsx:43 | `setMonth(m)` keeps the date argument from `getDate()` |
| Calendar.WithDate | components/report-page.tsx:57-59 | setDate moves the day number by the difference of the dates and keeps the time within the day |
| Calendar.WithDateIsSetDate | components/report-page.tsx:57-59 | that is the standard's setDate, `MakeDate(MakeDay(year, month, date), time)` |
| Calendar.WithMonth | components/report-page.tsx:64 | setMonth lands on `MakeDay(year, month, date)` at the same time of day |
| Calendar.WithHours | components/report-page.tsx:53-54 | setHours with a clock time keeps the day number and sets the time within the day |
| Calendar.WithHoursMinutes | app/page.tsx:46 | setHours(h, m) keeps the day, the seconds and the milliseconds |
| Calendar.DayFromYearFormula | components/report-page.tsx:62-64 | the day count of 1 January equals the closed form of the standard |
| Entries.Filter | components/report-page.tsx:68 | the filter keeps exactly the entries satisfying the predicate and is no longer than its input |
| Entries.FilterConcat | components/report-page.tsx:68 | filtering a concatenation filters each part in order |
| Entries.SmokedResistedPartition | components/report-page.tsx:71-72 | every entry is smoked or resisted, so the two counts add up to the length |
| Entries.SortNewestFirst | components/report-page.tsx:106 | the comparator sort returns a permutation of its input, newest first |
| Entries.InsertWithTimestamp | components/report-page.tsx:106 | inserting an entry puts it in front of the entries with its timestamp and keeps every timestamp's entries in their order |
| Entries.SortIsStable | components/report-page.tsx:106 | the sort is stable: for every timestamp, the entries stamped with it keep their input order |
| Entries.Take | components/report-page.tsx:107 | `slice(0, n)` is a prefix of length min(n, length) |
| Entries.TakeKeepsNewest | components/report-page.tsx:107 | on a newest-first list the first n entries are newest first and none after them is newer |
| Entries.NewestOfSubset | components/report-page.tsx:104-107 | the first n of the sorted list are min(n, length) entries of the input, without repetition, newest first |
| Entries.NewestOfOrder | components/report-page.tsx:104-107 | no entry left out of the first n of the sorted list is newer than one kept |
| Tracker.ScreenFor | app/page.tsx:65-117 | the loading screen exactly while loading, the sign-in screen exactly when loaded without a user, otherwise the record or report tab as selected |
| Tracker.RandomBelow | app/page.tsx:46-53 | `Math.floor(Math.random() * n)` lies in 0..n−1 |
| Tracker.SampleEntry | app/page.tsx:45-58 | the i-th sample entry for the draws of that iteration; its properties are SampleEntryFacts |
| Tracker.SampleList | app/page.tsx:44-59 | the list the loop pushes, one entry per draw |
| Tracker.SampleEntryFacts | app/page.tsx:44-58 | each sample entry has mood and urgency in 1..10, short notes, and a day between six days ago and today |
| Tracker.SampleListFacts | app/page.tsx:44-59 | every entry the loop pushes has those bounds |
| Tracker.SortedSampleFacts | app/page.tsx:61 | the sorted sample list keeps them |
| Tracker.MakeSampleEntry | app/page.tsx:45-58 | the loop body (copy of now, `setHours`, `setDate`, record) builds `SampleEntry(now, i, draws)` |
| Tracker.SampleEntries | app/page.tsx:38-62 | the initial list has 15 entries, is newest first, is the sort of the pushed entries, and every entry is well formed and on today's date or one of the six before, possibly later than now |
| Tracker.NewEntry | app/page.tsx:83-92 | the submitted entry is well formed exactly when the form is within the controls' bounds |
| Tracker.CigaretteTracker.constructor | app/page.tsx:31-62 | the record tab, the default form and the sorted sample list |
| Tracker.CigaretteTracker.SetCurrentPage | app/page.tsx:31 | only the tab changes |
| Tracker.CigaretteTracker.SetMood | app/page.tsx:197 | the slider sets mood within 1..10, nothing else changes, validity is kept |
| Tracker.CigaretteTracker.SetUrgency | app/page.tsx:215 | the slider sets urgency within 1..10, nothing else changes |
| Tracker.CigaretteTracker.SetWaited10Minutes | app/page.tsx:225 | the check box sets its flag only |
| Tracker.CigaretteTracker.SetSmoked | app/page.tsx:235 | the check box sets its flag only |
| Tracker.CigaretteTracker.SetIsSpecial | app/page.tsx:245 | the check box sets its flag only |
| Tracker.CigaretteTracker.SetNotes | app/page.tsx:264-265 | the text area sets notes of at most 500 UTF-16 code units (`maxLength`), nothing else changes, validity is kept |
| Tracker.CigaretteTracker.HandleSubmit | app/page.tsx:82-102 | exactly one entry built from the form goes in front, the old list follows unchanged, the form is back to 5, 5, false, false, false, "", every stored entry stays well formed |
| Tracker.SubmitKeepsNewestFirst | app/page.tsx:94 | prepending an entry no older than the list keeps it newest first |
| Tracker.SampleLaterThanNow | app/page.tsx:43-47 | a sample drawn for 23:00 today lies after any earlier now, and a submit then leaves the list not newest first |
| Tracker.ToDateString | app/page.tsx:119 | the week day, month, date and year that `toDateString()` prints; SameDateString shows they identify the day |
| Tracker.SameDateString | app/page.tsx:119 | two times print the same `toDateString()` exactly when they are on the same day |
| Tracker.TodayEntries | app/page.tsx:119 | the entries whose date string is today's, no more than all entries |
| Tracker.TodayStats | app/page.tsx:119-121 | todayEntries are exactly the entries on today's day, and todaySmoked + todayResisted is their number |
| Tracker.RecentPanel | app/page.tsx:290 | `entries.slice(0, 5)`: the first min(5, n) entries |
| Tracker.RecentPanelNewest | app/page.tsx:280-290 | the panel shows the first min(5, n) entries, which on a newest-first list are the five newest |
| AuthContext.NameFromEmail | contexts/auth-context.tsx:48 | the name is the longest prefix of the address without '@', followed by '@' unless it is the whole address |
| AuthContext.NameOfAddress | contexts/auth-context.tsx:48 | for local@domain the name is local |
| AuthContext.NameWithoutAt | contexts/auth-context.tsx:48 | an address without '@' is its own name |
| AuthContext.EmailUser | contexts/auth-context.tsx:45-50 | the mock user of login and register: id "1", the address, the name, provider "email", no avatar |
| AuthContext.SocialUser | contexts/auth-context.tsx:90-96 | the social user has address "user@" + provider + ".com", name "User " + provider and that provider |
| AuthContext.AuthProvider.constructor | contexts/auth-context.tsx:26-27 | no user and loading at first |
| AuthContext.AuthProvider.RestoreSession | contexts/auth-context.tsx:29-36 | a stored user becomes the user, loading ends either way, and session and storage then agree |
| AuthContext.AuthProvider.Login | contexts/auth-context.tsx:38-59 | any password gives user id "1", that address, the name before '@', provider "email"; the same user is stored; loading ends |
| AuthContext.AuthProvider.Register | contexts/auth-context.tsx:61-82 | the user gets the given name, not one taken from the address, and is stored; loading ends |
| AuthContext.AuthProvider.LoginWithSocial | contexts/auth-context.tsx:84-105 | the provider's fixed user is set and stored; loading ends |
| AuthContext.AuthProvider.Logout | contexts/auth-context.tsx:107-110 | user and stored user are cleared, loading is left as it was |
| AuthContext.Reload | contexts/auth-context.tsx:29-36 | a provider mounted over storage that agrees with the session restores the same user |
| AuthContext.UseAuth | contexts/auth-context.tsx:119-125 | the provider when there is one, otherwise the error "useAuth must be used within an AuthProvider" |
| AuthPage.Toggled | app/auth/page.tsx:24-26 | login toggles to register, register and confirm to login |
| AuthPage.ToggleTwice | app/auth/page.tsx:24-26 | between login and register two toggles give back the mode |
| AuthPage.RedirectFor | app/auth/page.tsx:17-22 | a redirect to "/" exactly when there is a user |
| AuthPage.AuthPageState.constructor | app/auth/page.tsx:12-13 | mode login, no address to confirm |
| AuthPage.AuthPageState.View | app/auth/page.tsx:40-63 | nothing with a user; otherwise exactly the form of the current mode, the confirmation form carrying the address |
| AuthPage.AuthPageState.HandleToggleMode | app/auth/page.tsx:24-26 | the mode toggles, the address stays |
| AuthPage.AuthPageState.HandleRegistrationSuccess | app/auth/page.tsx:28-35 | with confirmation needed: mode confirm and that address; otherwise state unchanged and a redirect to "/" |
| AuthPage.AuthPageState.HandleConfirmationSuccess | app/auth/page.tsx:36-38 | back to login |
| AuthPage.AuthPageState.BackToLogin | app/auth/page.tsx:56 | back to login |
| AuthPage.RegistrationRoundTrip | app/auth/page.tsx:28-38 | a registration needing confirmation followed by its confirmation shows the login form again |
| RegisterForm.Validate | components/auth/register-form.tsx:35-69 | each error message appears exactly when all earlier checks pass and its own fails (the length check on UTF-16 code units, as `password.length`); register is called, with email, password and name, exactly when all four pass |
| RegisterForm.SupplementaryPassword | components/auth/register-form.tsx:53 | a password of three characters above U+FFFF has length 6 and passes |
| JsString.Utf16Length | components/auth/register-form.tsx:53 | `s.length` counts one or two code units per character, so it lies between the number of characters and twice that |
| JsString.Utf16LengthOfBmp | app/page.tsx:265 | the code-unit length equals the character count exactly when every character is in the Basic Multilingual Plane |
| RegisterForm.RegistrationToast | components/auth/register-form.tsx:71-83 | the welcome toast on success; on failure the Error's message, or "Errore durante la registrazione" for a non-Error |
| RegisterForm.HandleSubmit | components/auth/register-form.tsx:32-84 | invalid fields change nothing and show the first failing check's toast; valid ones sign in a user with the given name and address, stored, with loading over |
| AuthGuard.Target | components/auth/auth-guard.tsx:13 | the redirectTo prop, "/auth" when it is not given |
| AuthGuard.Guard | components/auth/auth-guard.tsx:13-31 | the spinner exactly while checking; the children exactly when done with a user; otherwise nothing and a redirect to redirectTo |
| AuthGuard.DefaultTarget | components/auth/auth-guard.tsx:13 | without redirectTo a signed-out visitor goes to "/auth" |

## Left out

- Rendering is not modelled: JSX layout, recharts, Tailwind classes, toasts
  other than as values, and the "it-IT" `toLocaleDateString` /
  `toLocaleTimeString` formatting. `toDateString` is modelled only by the
  date parts it prints.
- Time zones and daylight saving time are not modelled. Local time is taken
  at a fixed zero offset.
- The clock (`new Date()`, `Date.now()`) is a parameter. The selected date,
  "now" and a submitted entry's id are inputs.
- The TimeClip range limit and invalid (NaN) dates are not modelled.
- JsString.Utf16Length: a JavaScript string may hold an unpaired surrogate
  code unit, which a Dafny string of scalar values cannot. Such strings are
  not modelled.
- `Math.random()` is an input sequence of values in [0, 1). The sample
  generator requires exactly those draws.
- Report.Mean: averages are real divisions of the integer sums, not IEEE
  double results.
- Report.NavigateDate: it returns the new selected date. The report page's
  `selectedDate` and `timeFilter` state is left to the caller.
- Entry timestamps are time values rather than Date objects. No entry's Date
  is changed after the entry is created.
- Entries.SortNewestFirst: `Array.prototype.sort` is modelled as a stable
  insertion sort over values. The in-place reordering of the array is not modelled.
- Tracker.SampleEntries: the sample list is a sequence that the loop
  extends, rather than an array that `push` grows in place.
- AuthContext.AuthProvider.Login: each asynchronous operation is one atomic
  step. While the awaited timer runs, `loading` is true, and that
  intermediate state is not a separate step.
- AuthContext.AuthProvider.Login, Register and LoginWithSocial: their catch
  branches ("Credenziali non valide", "Errore durante la registrazione",
  "Errore durante il login con …") are not modelled, because nothing in
  their try blocks can fail in this model.
- The stored user is an `Option<User>` cell. JSON serialisation of
  localStorage is not modelled.
- The login and confirmation forms (only non-empty checks) are not modelled.
  Neither are navigation.tsx, auth-screen.tsx and lib/amplify/config.ts.
- `checkingAuth`, `confirmRegistration`, `resendConfirmationCode` and the
  `onRegistrationSuccess` prop are used without being declared.
  `checkingAuth` is an input of AuthGuard.Guard. AuthPage's handlers are
  called directly.

## Findings

| source | as written | input that shows it | evidently intended | confidence | as-written member | corrected member |
|---|---|---|---|---|---|---|
| components/report-page.tsx:59 | `endDate.setDate(startDate.getDate() + 6)` applies the Sunday's date to the selected date's month; when the Sunday is in the previous month the end lands that month's length too late | any time on a Thursday 1 October (1 October 1970 is one): the window runs from Sunday 27 September to Monday 2 November | the Saturday six days after the Sunday start, 3 October, at 23:59:59.999 | high; not executed | Report.WeekWindowAcrossMonthExample | Report.IntendedWeekWindow |
| components/report-page.tsx:43 | `setMonth(getMonth() ± 1)` keeps the date, so a date the target month lacks rolls over into the month after it | 31 January of a common year, next by month: 3 March; and twelve presses of next from there end on 3 February of the next year instead of 31 January | the last day of the target month, 28 February | medium; not executed | Report.NavigateMonthExample | Report.ClampedNavigated |
| app/page.tsx:46-47 | samples "for today" get a random hour of their day, and with no days back that hour can be later than now; a submit before it prepends the new entry in front of a newer one, so the list stops being newest first and `entries.slice(0, 5)` (line 290) is not the five newest | a clock before 23:00 and draws giving hour 23 and no days back for a sample | samples no later than now, so that every submit keeps the list newest first | medium; not executed | Tracker.SampleLaterThanNow | Tracker.SubmitKeepsNewestFirst |
