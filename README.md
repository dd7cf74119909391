# FisioSalut clinic site — a verified model of its booking and form logic

The CONSULTORIO repository is a small clinic website. Most of it is pages. The parts that carry
logic are these:

- **The calendar service** (`GoogleCalendarService`). It offers the free half-hour marks of a day
  and creates and cancels one-hour bookings. It falls back to a fixed list of marks when the
  calendar cannot be reached.
- **The form-validation hook** (`useValidation`). It has an ordered rule chain per field and
  three maps of form state: data, errors and touched.
- **The booking calendar widget.** It lists the next 30 days without Sundays, each with a 22-mark
  grid.
- **The toast list.**
- **Three API routes:**
  - booking, which checks the required fields;
  - availability, which checks the date shape;
  - contact, which validates against a schema and lists the newest messages.

This project models those parts in Dafny and proves what they promise. The modules follow the
source:

| module | models |
|---|---|
| `Clock` | `toString().padStart(2, '0')`, the `HH:MM` labels and the 22-mark grid 09:00…19:30 |
| `Text` | JavaScript `trim()` and `join` |
| `Json` | request bodies and their truthiness |
| `GoogleCalendar` | `src/lib/googleCalendar.ts`; the service is a class with its two client fields |
| `Validation` | `src/hooks/useValidation.ts`; `validateField` is a function, the hook state a class `Form` |
| `CalendarView` | `generateTimeSlots` and `generateCalendar` of `Calendar.tsx` |
| `Toasts` | `addToast` and `removeToast` of `ToastProvider.tsx`, as a class over a `seq` |
| `AppointmentsRoute`, `AvailableRoute`, `ContactRoute` | the three route handlers |
| `Wrappers` | `Option` and `Result` |

Foreign calls become parameters of the model:

- The Google calendar API calls (`events.list`, `events.insert`, `events.delete`, `getToken`).
- The database (the newly created row's id, or the stored table).
- The zod e-mail check.
- `Math.random`, which picks the widget's availability flags.

Times of day are minutes since midnight, and days are an offset from today plus a weekday.

Busy marks are matched by exact start time, not by overlap, and booking checks nothing about the date:

- **Exact match, not overlap.** A grid mark is removed only when some event's start, formatted as
  `HH:MM`, is exactly equal to it. There is no interval-overlap test: an event from 10:00 to 11:00
  removes 10:00 but keeps 10:30 (`GoogleCalendar.OneEventRemovesOneMark`).
- **No booking checks.** Booking performs no Sunday or past-date check and no re-validation
  before writing.

## Model

| member | source | states |
|---|---|---|
| Clock.PadStart | src/lib/googleCalendar.ts:174-175 | the result has the requested width (or the input's length if longer), ends with the input, and is `0` in every added position |
| Clock.Decimal | src/lib/googleCalendar.ts:174-175 | `toString()` of a natural number is non-empty and all decimal digits |
| Clock.DecimalReadsBack | src/hooks/useValidation.ts:42-48 | the digits `toString()` writes for an integer below 1e21 (in the length messages and, padded, in the labels) denote the number itself, with no leading zero except for 0 |
| Clock.ParseLabel | src/lib/googleCalendar.ts:174-175 | reading back a zero-padded `HH:MM` label gives the minute of day it was made from (round trip) |
| Clock.LabelInjective | src/lib/googleCalendar.ts:174-175 | two minutes of day have the same label iff they are equal |
| Clock.FormatHHMM | src/lib/googleCalendar.ts:174-175 | an event's start is rendered as five characters, two digits, `:`, two digits (its value is tied to the label by `FormatMatchesLabel`) |
| Clock.FormatMatchesLabel | src/lib/googleCalendar.ts:174-175 | a grid label equals an event's formatted start iff the two minutes are equal |
| Clock.GridTimes | src/lib/googleCalendar.ts:181-185 | mark k of the grid reads back as 09:00 + 30·k minutes |
| Clock.GridDistinct | src/lib/googleCalendar.ts:181-185 | no label occurs twice in the grid |
| Clock.GridMembership | src/lib/googleCalendar.ts:181-185 | a label is in the grid iff its minute is a half hour from 09:00 up to 19:30 |
| Clock.GridEnds | src/lib/googleCalendar.ts:181-185 | the grid starts at 09:00 and ends at 19:30 |
| Clock.HourMarks | src/lib/googleCalendar.ts:183-184 | the two strings pushed for an hour are the grid's `HH:00` and `HH:30` entries |
| Clock.SlotMark | src/components/ui/Calendar.tsx:27 | the widget's padded `hour:minute` string is the grid entry for that hour and minute |
| Clock.AppendHourMarks | src/lib/googleCalendar.ts:182-185 | one pass of the hour loop extends the grid prefix by exactly two entries |
| Text.TrimStart | src/hooks/useValidation.ts:34 | the result is a suffix of the input that does not start with white space, and only white space was removed |
| Text.TrimEnd | src/hooks/useValidation.ts:34 | the result is a prefix of the input that does not end with white space, and only white space was removed |
| Text.TrimEmptyIffAllSpace | src/hooks/useValidation.ts:34-39 | `value.trim() === ''` iff the value is all white space |
| Text.Trim | src/hooks/useValidation.ts:34 | `trim()` never lengthens the value, and a non-empty result neither starts nor ends with white space |
| Text.Join | src/app/api/appointments/route.ts:16 | joining nothing gives the empty string and joining one name gives that name |
| Text.JoinSnoc | src/app/api/appointments/route.ts:16 | joining one more part appends the separator and that part, so the parts appear in order with the separator between neighbours |
| Json.Member | src/app/api/appointments/route.ts:10 | reading a member fails exactly on a `null` body; on an object it yields the member when present, on any other value `undefined`; the booking route's null-body branch is this failure |
| GoogleCalendar.BusyStartsExact | src/lib/googleCalendar.ts:170-178 | a label is among the busy strings iff some event has a timed start at that minute; events without `dateTime` contribute nothing |
| GoogleCalendar.BusyStarts | src/lib/googleCalendar.ts:170-178 | there is at most one busy string per listed event |
| GoogleCalendar.BusyStartsAppend | src/lib/googleCalendar.ts:171-178 | the busy strings follow the events in order, one label per timed event |
| GoogleCalendar.KeepFree | src/lib/googleCalendar.ts:188 | a slot survives iff it was offered and is not among the busy strings |
| GoogleCalendar.KeepFreeConcat | src/lib/googleCalendar.ts:188 | the filter keeps the order of the slots (it distributes over concatenation) |
| GoogleCalendar.KeepFreeSorted | src/lib/googleCalendar.ts:188 | filtering a strictly increasing list leaves a strictly increasing list |
| GoogleCalendar.KeepFreeAscending | src/lib/googleCalendar.ts:188 | filtering ascending `HH:MM` labels leaves ascending labels |
| GoogleCalendar.KeepFreeUnaffected | src/lib/googleCalendar.ts:188 | busy strings that match no slot change nothing |
| GoogleCalendar.KeepFreeExtraBusy | src/lib/googleCalendar.ts:188 | one more busy string that matches no slot changes nothing |
| GoogleCalendar.KeepFreeOne | src/lib/googleCalendar.ts:188 | a busy string that matches one slot removes exactly that position |
| GoogleCalendar.GridAscending | src/lib/googleCalendar.ts:181-185 | the grid is strictly ascending in time |
| GoogleCalendar.FreeSlotsExact | src/lib/googleCalendar.ts:170-188 | the answer is ascending, lies in the grid, and holds a half-hour mark iff no event starts exactly there |
| GoogleCalendar.FreeSlots | src/lib/googleCalendar.ts:170-188 | every free slot is a mark of the grid |
| GoogleCalendar.NoStartsFullGrid | src/lib/googleCalendar.ts:170-188 | with no events, or only events without `dateTime`, the full 22-mark grid is offered |
| GoogleCalendar.NoStartsNoBusy | src/lib/googleCalendar.ts:170-178 | events without a timed start give no busy strings |
| GoogleCalendar.OffGridStartBlocksNothing | src/lib/googleCalendar.ts:173-188 | an event starting off the half-hour grid (say 10:15) removes no mark |
| GoogleCalendar.OneEventRemovesOneMark | src/lib/googleCalendar.ts:173-188 | one event at a grid mark removes exactly that mark and no other, whatever the event's length |
| GoogleCalendar.FallbackIsGridWithoutMidday | src/lib/googleCalendar.ts:155 | the fallback (returned at lines 155 and 193) has 18 entries: the grid up to 12:30 and from 15:00, without 13:00–14:30 |
| GoogleCalendar.BuildGrid | src/lib/googleCalendar.ts:180-185 | the hour loop builds exactly the 22-mark grid |
| GoogleCalendar.BuildEvent | src/lib/googleCalendar.ts:100-125 | the event ends exactly 60 minutes after it starts, both ends are in Europe/Madrid, and the client is the only attendee |
| GoogleCalendar.NonEmpty | src/lib/googleCalendar.ts:135-136 | `x \|\| undefined` keeps a non-empty string and drops an absent or empty one |
| GoogleCalendar.CalendarService.constructor | src/lib/googleCalendar.ts:52-86 | the calendar client exists only if the OAuth2 client does; a non-empty refresh token is set as the credentials |
| GoogleCalendar.CalendarService.GetAvailableSlots | src/lib/googleCalendar.ts:151-194 | without a calendar client, or when the listing throws, the answer is the fallback list; otherwise it is the grid minus the busy starts |
| GoogleCalendar.CalendarService.CreateAppointment | src/lib/googleCalendar.ts:89-148 | without a calendar client it fails with `Calendar service not initialized` and sends nothing; otherwise it sends the one-hour event and maps the insert outcome to success or error |
| GoogleCalendar.CalendarService.CancelAppointment | src/lib/googleCalendar.ts:197-226 | without a calendar client it fails without a request; otherwise it asks to delete that id and succeeds iff the deletion does |
| GoogleCalendar.CalendarService.GetAuthUrl | src/lib/googleCalendar.ts:229-244 | it throws iff there is no OAuth2 client; otherwise it requests offline access with consent for the two calendar scopes |
| GoogleCalendar.CalendarService.ProcessAuthCode | src/lib/googleCalendar.ts:247-272 | without a client it fails; a successful exchange stores the tokens as the credentials and returns them; a failed one changes nothing and reports the error |
| Validation.EmailShape | src/hooks/useValidation.ts:53 | the e-mail test holds iff there is exactly one `@`, it is not first, there is no white space, and a `.` at least two places after the `@` and before the last character |
| Validation.IsEmail | src/hooks/useValidation.ts:53 | an accepted e-mail has at least five characters and contains `@` |
| Validation.PhoneDecision | src/hooks/useValidation.ts:61 | the phone test holds iff the value is an optional `+` followed by at least 9 digits, white space, `-`, `(` or `)` |
| Validation.IsPhone | src/hooks/useValidation.ts:61 | an accepted phone has at least nine characters |
| Validation.ValidateField | src/hooks/useValidation.ts:29-31 | only a configured field can err |
| Validation.BlankGuards | src/hooks/useValidation.ts:30-39 | an unconfigured field never errs; a required blank value gets the required message before any other rule; a blank value that is not required passes |
| Validation.FirstObjectionWins | src/hooks/useValidation.ts:42-75 | the first check that objects decides the result, whatever the later checks say |
| Validation.FirstObjectionInOrder | src/hooks/useValidation.ts:42-75 | the checks run in the order min length, max length, email, phone, pattern, custom |
| Validation.ValidateFieldIsFirstObjection | src/hooks/useValidation.ts:41-77 | for a non-blank value of a configured field, the result is the first objection in that order (a limit of 0 disables its check) |
| Validation.Stored | src/hooks/useValidation.ts:107-110 | `error \|\| undefined` keeps a non-empty message and leaves an explicitly undefined entry otherwise |
| Validation.FailingAmong | src/hooks/useValidation.ts:84-90 | the new errors map holds exactly the failing fields, each with its message |
| Validation.NoFailingIffAllPass | src/hooks/useValidation.ts:84-98 | no errors are recorded iff every field validates to nothing |
| Validation.Form.constructor | src/hooks/useValidation.ts:25-27 | the form starts with the initial data and empty errors and touched maps |
| Validation.Form.IsFieldInvalid | src/hooks/useValidation.ts:129-131 | a field is invalid only if it is touched and has an errors entry, and then the form is not valid |
| Validation.Form.IsValid | src/hooks/useValidation.ts:142 | valid iff the errors object has no key at all, even one holding `undefined` |
| Validation.Form.ValidateAll | src/hooks/useValidation.ts:80-99 | the result is true iff every configured field (missing data read as `''`) passes; errors hold exactly the failing fields; every configured field is touched; the result equals `isValid` |
| Validation.Form.UpdateField | src/hooks/useValidation.ts:101-112 | the value is always stored; its error is recomputed only if the field was touched; other fields are unchanged |
| Validation.Form.HandleBlur | src/hooks/useValidation.ts:114-121 | the field becomes touched and its error is set from the current data; other fields are unchanged; afterwards `isValid` is false because the key exists even when undefined |
| Validation.Form.ResetForm | src/hooks/useValidation.ts:123-127 | data returns to the initial data; errors and touched are emptied, so the form is valid and no field is invalid |
| CalendarView.DaySlots | src/components/ui/Calendar.tsx:20-33 | a day has 22 slots |
| CalendarView.GenerateTimeSlots | src/components/ui/Calendar.tsx:20-33 | the nested loops build exactly the day's slot list |
| CalendarView.DayTimes | src/components/ui/Calendar.tsx:22-29 | the k-th slot's time is the k-th grid label, whatever the availability flags |
| CalendarView.DayTimesAreServiceGrid | src/components/ui/Calendar.tsx:22-29 | the widget's times are exactly the service's grid for a day without events |
| CalendarView.DayTimesOnGrid | src/components/ui/Calendar.tsx:22-29 | slot k is at 09:00 + 30·k minutes and no other slot has its time |
| CalendarView.WeekdayAfter | src/components/ui/Calendar.tsx:41-42 | the weekday of a later day is a weekday |
| CalendarView.Schedule | src/components/ui/Calendar.tsx:40-51 | a window of n days lists at most n days |
| CalendarView.GenerateCalendar | src/components/ui/Calendar.tsx:36-54 | the loop builds exactly the 30-day schedule |
| CalendarView.ScheduleDays | src/components/ui/Calendar.tsx:40-49 | every listed day lies in the window, is not a Sunday, and has its own fresh 22-slot list |
| CalendarView.ScheduleAscending | src/components/ui/Calendar.tsx:40-51 | days are listed in strictly increasing date order |
| CalendarView.ScheduleComplete | src/components/ui/Calendar.tsx:40-51 | every non-Sunday day of the window is listed |
| CalendarView.ScheduleGrowth | src/components/ui/Calendar.tsx:40-51 | extending the window adds one entry per non-Sunday day |
| CalendarView.WeekAddsSix | src/components/ui/Calendar.tsx:40-51 | any seven consecutive days add six entries |
| CalendarView.OpenInAWeek | src/components/ui/Calendar.tsx:45 | any seven consecutive days hold exactly one Sunday |
| CalendarView.OpenInTwoDays | src/components/ui/Calendar.tsx:45 | any two consecutive days hold one or two open days |
| CalendarView.CalendarLength | src/components/ui/Calendar.tsx:40-53 | the calendar has 25 or 26 days |
| Toasts.MakeToast | src/components/ui/ToastProvider.tsx:39-43 | the toast keeps the caller's type, title and message; its duration is the given one, or 5000 when that is absent or 0 |
| Toasts.Without | src/components/ui/ToastProvider.tsx:54 | exactly the toasts with another id remain |
| Toasts.WithoutConcat | src/components/ui/ToastProvider.tsx:54 | removal keeps the others in their original order |
| Toasts.WithoutAbsent | src/components/ui/ToastProvider.tsx:54 | removing an id that is not present changes nothing |
| Toasts.WithoutRemovesId | src/components/ui/ToastProvider.tsx:54 | no toast with the id remains |
| Toasts.RemoveIdempotent | src/components/ui/ToastProvider.tsx:54 | removing twice equals removing once |
| Toasts.AddThenRemove | src/components/ui/ToastProvider.tsx:38-54 | adding a toast with a fresh id and then removing that id restores the list |
| Toasts.ToastList.constructor | src/components/ui/ToastProvider.tsx:35 | the list starts empty |
| Toasts.ToastList.AddToast | src/components/ui/ToastProvider.tsx:37-45 | exactly one toast is appended and the earlier ones are unchanged and in order |
| Toasts.ToastList.RemoveToast | src/components/ui/ToastProvider.tsx:53-55 | the list becomes the old list without that id |
| AppointmentsRoute.MissingAmong | src/app/api/appointments/route.ts:10 | a name is reported iff it is listed and its value is falsy |
| AppointmentsRoute.MissingConcat | src/app/api/appointments/route.ts:10 | the missing names keep the listed order |
| AppointmentsRoute.MissingExactly | src/app/api/appointments/route.ts:9-10 | exactly the required names with a falsy value are missing |
| AppointmentsRoute.MissingFields | src/app/api/appointments/route.ts:9-10 | at most six names are missing, all of them required ones |
| AppointmentsRoute.CommentsNeverRequired | src/app/api/appointments/route.ts:9 | `comentarios` is never reported missing |
| AppointmentsRoute.EmptyBodyMissesAll | src/app/api/appointments/route.ts:9-10 | an empty object misses all six names in the listed order |
| AppointmentsRoute.Post | src/app/api/appointments/route.ts:4-54 | missing fields give 400 with the joined names and no service call; otherwise the service is called with the body; its success gives 200 with its event id and link; its failure or a thrown error gives 500 |
| AppointmentsRoute.MissingRejected | src/app/api/appointments/route.ts:12-20 | a non-null body with a missing name is answered 400 with the prefix and the joined names, and the service is not called |
| AppointmentsRoute.JoinSix | src/app/api/appointments/route.ts:16 | six names joined are the names in order with the separator between each neighbouring pair |
| AppointmentsRoute.NoMembersMissingText | src/app/api/appointments/route.ts:9-16 | for a body with no members the joined missing names are `nombre, email, telefono, fecha, hora, servicio` |
| AppointmentsRoute.NoMembersReply | src/app/api/appointments/route.ts:9-20 | a body with no members (`{}`, a string, a number, an array) gets 400 `Campos requeridos faltantes: nombre, email, telefono, fecha, hora, servicio` and the service is not called |
| AvailableRoute.DateShapeMatches | src/app/api/appointments/available/route.ts:17-18 | the date test holds iff the string is 4 digits, `-`, 2 digits, `-`, 2 digits |
| AvailableRoute.IsDateShape | src/app/api/appointments/available/route.ts:17-18 | an accepted date has ten characters, digits everywhere except the `-` at positions 4 and 7 |
| AvailableRoute.ShapeOnly | src/app/api/appointments/available/route.ts:17-18 | only the shape is checked: `2025-99-99` passes, while `2025-1-01`, `25-01-01` and `2025/01/01` fail |
| AvailableRoute.Get | src/app/api/appointments/available/route.ts:4-44 | a missing or empty date gives 400 `Fecha requerida`, a badly shaped one 400; neither queries the service; success echoes the date and the service's slots; a throw gives 500 |
| ContactRoute.CheckMinString | src/app/api/contacto/route.ts:8-11 | a field passes iff it is a string of at least the minimum length |
| ContactRoute.CheckEmail | src/app/api/contacto/route.ts:9 | the e-mail passes iff it is a string accepted by the e-mail check |
| ContactRoute.CheckOptionalString | src/app/api/contacto/route.ts:10 | the phone passes iff it is absent or a string |
| ContactRoute.Issues | src/app/api/contacto/route.ts:7-12 | there are no issues iff every check passes |
| ContactRoute.IssuesHold | src/app/api/contacto/route.ts:7-12 | every failing check is reported |
| ContactRoute.ParseContact | src/app/api/contacto/route.ts:7-19 | parsing succeeds iff the body is valid; success keeps the four fields, with name ≥ 2 and message ≥ 10 characters; failure has at least one issue |
| ContactRoute.TooShortReported | src/app/api/contacto/route.ts:8-11 | a too-short name or message makes the parse fail |
| ContactRoute.Post | src/app/api/contacto/route.ts:14-48 | a valid body is written and answered 201 with the new id; an invalid one gives 400 `Datos inválidos` and nothing is written; anything else gives 500 |
| ContactRoute.NewestIndex | src/app/api/contacto/route.ts:53 | the chosen record has the latest `createdAt` |
| ContactRoute.TakeNewest | src/app/api/contacto/route.ts:52-55 | the result has min(n, count) records taken from the table, newest first, and no record left out is newer than one kept |
| ContactRoute.List | src/app/api/contacto/route.ts:50-65 | a readable table gives 200 with its ten newest records; a failure gives 500 |
| ContactRoute.ListNewestFirst | src/app/api/contacto/route.ts:54 | at most ten records are returned, exactly ten when there are that many, all from the table |

## Left out

- The Google API calls (`events.list`, `events.insert`, `events.delete`, `generateAuthUrl`, `getToken`) and building the OAuth2 and calendar clients are foreign library code. They are parameters: what the call returns, or that it threw.
- JavaScript `Date`:
  - Parsing `fecha`/`hora` and `date`, `toISOString`, and local `getHours`/`getMinutes` versus the `Europe/Madrid` label are not modelled.
  - Event starts are given as minutes of day, booking instants as integers, and calendar days as an offset plus a weekday.
  - `setDate` month rollover is not modelled.
- String lengths are counted in characters; JavaScript counts UTF-16 code units.
- `Math.random`:
  - It picks each widget slot's availability, which is a parameter here.
  - It generates toast ids, which are parameters; `AddThenRemove` assumes a fresh one.
- `setTimeout`, which auto-dismisses toasts, is not modelled. It is the same `removeToast` call later.
- Zod:
  - Its e-mail check is an opaque predicate.
  - The text and paths of its issues are approximated (one issue per failing field, in schema order).
  - Keys outside the schema are dropped.
- The `pattern` and `custom` rules of the validation hook are opaque functions.
- JavaScript numbers: limits (`minLength`, `maxLength`), toast durations and JSON numbers are integers below 1e21. Fractional or larger JavaScript numbers and `NaN`, which compare and print differently (`2.5`, `1e+21`), are not modelled.
- Prisma persistence:
  - It is a parameter: the created id, or the stored table.
  - The schema is not part of this model, so ids are natural numbers.
  - Ties in `createdAt` are broken by first occurrence in the table.
- HTTP plumbing:
  - `NextResponse` and `console.error` are not modelled.
  - Reading the query parameter is a parameter.
  - The engine-defined `TypeError` text for a `null` booking body is a constant.
- React state batching and stale `useCallback` closures are not modelled; the hook's maps are fields updated one after another.
- The `useToast` context guard, `getToastIcon`/`getToastStyles` and all rendering and animation are not modelled.
- The booking page `src/app/cita/page.tsx` is not modelled. It posts to an endpoint that is not part of this model, and its static 16-entry hour list (src/app/cita/page.tsx:26-30) disagrees with the 22-mark grid and the 18-entry fallback.
- Overlap-based conflict checks, Sunday or past-date rejection at booking time and re-validation before the write are not modelled, because the code has none of them.
- GoogleCalendar.CalendarService.CreateAppointment: the host's date parsing is not modelled. A `fecha`/`hora` pair that does not parse is given as an absent start, and the method answers with the `Invalid time value` error that `toISOString` throws.
