/** The clinic's calendar service: free-slot computation over the half-hour grid, appointment
    creation and cancellation, and the OAuth2 guards. Calls into the calendar API are not part of
    this model: their outcomes are given to each operation as inputs. */
module GoogleCalendar {
  import opened Wrappers
  import opened Clock
  import Text

  /** A booking request as the appointments route forwards it. */
  datatype AppointmentData = AppointmentData(
    nombre: string,
    email: string,
    telefono: string,
    fecha: string,
    hora: string,
    servicio: string,
    comentarios: Option<string>)

  /** A point in time (milliseconds since the epoch) with the zone label sent alongside it. */
  datatype EventTime = EventTime(instant: int, timeZone: string)

  datatype Attendee = Attendee(email: string, displayName: string)

  /** The event body sent to the calendar API. */
  datatype CalendarEvent = CalendarEvent(
    summary: string,
    description: string,
    start: EventTime,
    end: EventTime,
    attendees: seq<Attendee>)

  datatype CalendarResponse = CalendarResponse(
    success: bool,
    eventId: Option<string>,
    eventLink: Option<string>,
    message: string,
    error: Option<string>)

  type Tokens = map<string, string>

  datatype AuthResponse = AuthResponse(
    success: bool,
    tokens: Option<Tokens>,
    message: string,
    error: Option<string>)

  /** The request handed to the OAuth2 client's `generateAuthUrl`. */
  datatype AuthUrlRequest = AuthUrlRequest(accessType: string, scopes: seq<string>, prompt: string)

  /** The service's own catch blocks fall back to 'Unknown error'. */
  function ErrorText(t: Thrown): string {
    MessageOr(t, "Unknown error")
  }

  /** Outcome of `events.list` for the requested day: the local start time of each listed event
      (`None` when the event has no usable `start.dateTime`), or a thrown error. */
  datatype ListOutcome = Listed(starts: seq<Option<MinuteOfDay>>) | ListThrew

  /** Outcome of `events.insert`: the created event's id and link, or a thrown error. */
  datatype InsertOutcome = Inserted(id: Option<string>, htmlLink: Option<string>) | InsertThrew(thrown: Thrown)

  /** Outcome of `events.delete`. */
  datatype DeleteOutcome = Deleted | DeleteThrew(thrown: Thrown)

  const NotInitializedMessage := "Google Calendar no está inicializado"
  const NotInitializedError := "Calendar service not initialized"
  const CreatedMessage := "Cita creada exitosamente en Google Calendar"
  const CreateFailedMessage := "Error al crear la cita en Google Calendar"
  const CancelledMessage := "Cita cancelada exitosamente"
  const CancelFailedMessage := "Error al cancelar la cita"
  const AuthClientMissing := "OAuth2 client not initialized"
  const AuthClientMissingError := "Auth client not initialized"
  const AuthDoneMessage := "Autorización completada exitosamente"
  const AuthFailedMessage := "Error en la autorización"
  /** The message of the RangeError that `toISOString` throws on an invalid date. */
  const InvalidTimeValue := "Invalid time value"
  const TimeZone := "Europe/Madrid"
  const CalendarScopes := ["https://www.googleapis.com/auth/calendar", "https://www.googleapis.com/auth/calendar.events"]

  /** Every booking lasts one hour, in milliseconds. */
  const AppointmentLength := 60 * 60 * 1000

  /** The largest distance from the epoch, in milliseconds, that a JavaScript `Date` can hold. */
  const MaxInstant := 8_640_000_000_000_000

  predicate ValidInstant(t: int) {
    -MaxInstant <= t <= MaxInstant
  }

  /** The slots offered when the calendar cannot be asked: the grid without 13:00 to 14:30. */
  const FallbackSlots: seq<string> := [
    "09:00", "09:30", "10:00", "10:30", "11:00", "11:30", "12:00", "12:30",
    "15:00", "15:30", "16:00", "16:30", "17:00", "17:30", "18:00", "18:30", "19:00", "19:30"]

  // ---------------------------------------------------------------------------------------------
  // Free-slot computation

  /** An `HH:MM` label's time in minutes, or -1 for a string that is not such a label. */
  function LabelMinute(s: string): int {
    match ParseHHMM(s)
    case Some(m) => m
    case None => -1
  }

  /** The entries' keys increase strictly from left to right. */
  predicate SortedBy(labels: seq<string>, key: string -> int) {
    forall i, j :: 0 <= i < j < |labels| ==> key(labels[i]) < key(labels[j])
  }

  /** Every entry is an `HH:MM` label and the labels run strictly forward in time. */
  predicate Ascending(labels: seq<string>) {
    (forall i :: 0 <= i < |labels| ==> ParseHHMM(labels[i]).Some?) && SortedBy(labels, LabelMinute)
  }

  /** Some listed event starts at minute `m`. */
  predicate StartsAt(starts: seq<Option<MinuteOfDay>>, m: MinuteOfDay) {
    exists i :: 0 <= i < |starts| && starts[i] == Some(m)
  }

  /** The `HH:MM` labels of the listed events' start times, skipping events without one
      (`map` to a padded label or null, then `filter(Boolean)`). */
  function BusyStarts(starts: seq<Option<MinuteOfDay>>): (busy: seq<string>)
    ensures |busy| <= |starts|
  {
    if starts == [] then []
    else StartLabel(starts[0]) + BusyStarts(starts[1..])
  }

  /** An event starts at m exactly when the first one does or one of the others does. */
  lemma StartsAtCons(starts: seq<Option<MinuteOfDay>>, m: MinuteOfDay)
    requires starts != []
    ensures StartsAt(starts, m) <==> starts[0] == Some(m) || StartsAt(starts[1..], m)
  {
    if StartsAt(starts, m) {
      var i :| 0 <= i < |starts| && starts[i] == Some(m);
      if i > 0 { assert starts[1..][i - 1] == Some(m); }
    }
    if StartsAt(starts[1..], m) {
      var i :| 0 <= i < |starts[1..]| && starts[1..][i] == Some(m);
      assert starts[i + 1] == Some(m);
    }
  }

  /** The label one event contributes to the busy list. */
  function StartLabel(x: Option<MinuteOfDay>): seq<string> {
    match x case Some(m) => [FormatHHMM(m)] case None => []
  }

  lemma StartLabelExact(x: Option<MinuteOfDay>, m: MinuteOfDay)
    ensures Label(m) in StartLabel(x) <==> x == Some(m)
  {
    if x.Some? {
      var v := x.value;
      FormatMatchesLabel(m, v);
      assert StartLabel(x) == [FormatHHMM(v)];
    }
  }

  /** A time's label is among the busy starts exactly when some listed event starts at that time. */
  lemma {:induction false} BusyStartsExact(starts: seq<Option<MinuteOfDay>>, m: MinuteOfDay)
    ensures Label(m) in BusyStarts(starts) <==> StartsAt(starts, m)
    decreases |starts|
  {
    if starts != [] {
      BusyStartsExact(starts[1..], m);
      StartsAtCons(starts, m);
      StartLabelExact(starts[0], m);
      assert BusyStarts(starts) == StartLabel(starts[0]) + BusyStarts(starts[1..]);
    }
  }

  /** `slots.filter(slot => !busy.includes(slot))`. */
  function KeepFree(slots: seq<string>, busy: seq<string>): (r: seq<string>)
    ensures forall s :: s in r <==> s in slots && s !in busy
  {
    if slots == [] then []
    else (if slots[0] in busy then [] else [slots[0]]) + KeepFree(slots[1..], busy)
  }

  /** Filtering keeps the survivors in their original order: it distributes over concatenation. */
  lemma {:induction false} KeepFreeConcat(a: seq<string>, b: seq<string>, busy: seq<string>)
    ensures KeepFree(a + b, busy) == KeepFree(a, busy) + KeepFree(b, busy)
    decreases |a|
  {
    if a == [] {
      assert a + b == b;
    } else {
      assert (a + b)[1..] == a[1..] + b;
      KeepFreeConcat(a[1..], b, busy);
    }
  }

  /** Dropping the head of a strictly increasing list leaves a strictly increasing list. */
  lemma SortedTail(labels: seq<string>, key: string -> int)
    requires labels != [] && SortedBy(labels, key)
    ensures SortedBy(labels[1..], key)
  {
    var tail := labels[1..];
    forall i, j | 0 <= i < j < |tail| ensures key(tail[i]) < key(tail[j]) {
      assert tail[i] == labels[i + 1] && tail[j] == labels[j + 1];
    }
  }

  /** A label below every member of a strictly increasing list extends it at the front. */
  lemma SortedCons(x: string, rest: seq<string>, key: string -> int)
    requires SortedBy(rest, key)
    requires forall s :: s in rest ==> key(x) < key(s)
    ensures SortedBy([x] + rest, key)
  {
    var r := [x] + rest;
    forall i, j | 0 <= i < j < |r| ensures key(r[i]) < key(r[j]) {
      assert r[j] == rest[j - 1] && r[j] in rest;
      if i > 0 { assert r[i] == rest[i - 1]; }
    }
  }

  /** Filtering a list that is strictly increasing under `key` leaves a strictly increasing list. */
  lemma {:induction false} KeepFreeSorted(slots: seq<string>, busy: seq<string>, key: string -> int)
    requires SortedBy(slots, key)
    ensures SortedBy(KeepFree(slots, busy), key)
    decreases |slots|
  {
    if slots != [] {
      var tail := slots[1..];
      SortedTail(slots, key);
      KeepFreeSorted(tail, busy, key);
      var rest := KeepFree(tail, busy);
      if slots[0] !in busy {
        forall s | s in rest ensures key(slots[0]) < key(s) {
          var j :| 0 <= j < |tail| && tail[j] == s;
          assert s == slots[j + 1];
        }
        SortedCons(slots[0], rest, key);
      }
    }
  }

  /** Filtering an ascending list of labels leaves an ascending list. */
  lemma KeepFreeAscending(slots: seq<string>, busy: seq<string>)
    requires Ascending(slots)
    ensures Ascending(KeepFree(slots, busy))
  {
    KeepFreeSorted(slots, busy, LabelMinute);
    var r := KeepFree(slots, busy);
    forall i | 0 <= i < |r| ensures ParseHHMM(r[i]).Some? {
      assert r[i] in r;
      var j :| 0 <= j < |slots| && slots[j] == r[i];
    }
  }

  /** Filtering against labels none of which is a slot removes nothing. */
  lemma {:induction false} KeepFreeUnaffected(slots: seq<string>, busy: seq<string>)
    requires forall s :: s in busy ==> s !in slots
    ensures KeepFree(slots, busy) == slots
    decreases |slots|
  {
    if slots != [] {
      KeepFreeUnaffected(slots[1..], busy);
    }
  }

  /** Adding a label that is not a slot to the busy list changes nothing. */
  lemma {:induction false} KeepFreeExtraBusy(slots: seq<string>, busy: seq<string>, x: string)
    requires x !in slots
    ensures KeepFree(slots, busy + [x]) == KeepFree(slots, busy)
    decreases |slots|
  {
    if slots != [] {
      KeepFreeExtraBusy(slots[1..], busy, x);
    }
  }

  lemma GridAscending()
    ensures Ascending(HalfHourGrid())
  {
    var g := HalfHourGrid();
    forall i | 0 <= i < |g| ensures ParseHHMM(g[i]) == Some(540 + 30 * i) {
      GridTimes(i);
    }
  }

  /** The slots offered for a day whose listed events start at `starts`. */
  function FreeSlots(starts: seq<Option<MinuteOfDay>>): (free: seq<string>)
    ensures forall s :: s in free ==> s in HalfHourGrid()
  {
    KeepFree(HalfHourGrid(), BusyStarts(starts))
  }

  /** The free slots are the grid marks at which no listed event starts, in ascending order:
      a mark is kept iff no event's start label equals it. */
  lemma FreeSlotsExact(starts: seq<Option<MinuteOfDay>>)
    ensures Ascending(FreeSlots(starts))
    ensures forall s :: s in FreeSlots(starts) ==> s in HalfHourGrid()
    ensures forall m: MinuteOfDay ::
      Label(m) in FreeSlots(starts) <==> 540 <= m < 1200 && m % 30 == 0 && !StartsAt(starts, m)
  {
    GridAscending();
    KeepFreeAscending(HalfHourGrid(), BusyStarts(starts));
    forall m: MinuteOfDay
      ensures Label(m) in FreeSlots(starts) <==> 540 <= m < 1200 && m % 30 == 0 && !StartsAt(starts, m)
    {
      GridMembership(m);
      BusyStartsExact(starts, m);
    }
  }

  /** With no event carrying a start time, the whole grid is offered. */
  lemma NoStartsFullGrid(starts: seq<Option<MinuteOfDay>>)
    requires forall i :: 0 <= i < |starts| ==> starts[i].None?
    ensures FreeSlots(starts) == HalfHourGrid()
  {
    NoStartsNoBusy(starts);
    KeepFreeUnaffected(HalfHourGrid(), []);
  }

  lemma {:induction false} NoStartsNoBusy(starts: seq<Option<MinuteOfDay>>)
    requires forall i :: 0 <= i < |starts| ==> starts[i].None?
    ensures BusyStarts(starts) == []
    decreases |starts|
  {
    if starts != [] {
      NoStartsNoBusy(starts[1..]);
    }
  }

  /** An event starting off the half-hour grid (10:15, say) or outside 09:00 to 19:30 blocks no slot. */
  lemma OffGridStartBlocksNothing(starts: seq<Option<MinuteOfDay>>, m: MinuteOfDay)
    requires !(540 <= m < 1200 && m % 30 == 0)
    ensures FreeSlots(starts + [Some(m)]) == FreeSlots(starts)
  {
    assert BusyStarts(starts + [Some(m)]) == BusyStarts(starts) + [Label(m)] by {
      BusyStartsAppend(starts, Some(m));
      FormatIsLabel(m);
    }
    GridMembership(m);
    KeepFreeExtraBusy(HalfHourGrid(), BusyStarts(starts), Label(m));
  }

  lemma {:induction false} BusyStartsAppend(starts: seq<Option<MinuteOfDay>>, x: Option<MinuteOfDay>)
    ensures BusyStarts(starts + [x]) == BusyStarts(starts) + StartLabel(x)
    decreases |starts|
  {
    if starts == [] {
      assert [] + [x] == [x];
    } else {
      assert (starts + [x])[1..] == starts[1..] + [x];
      BusyStartsAppend(starts[1..], x);
    }
  }

  /** A single event on the grid removes exactly its own start mark, whatever its length: an
      hour-long booking at 10:00 leaves 10:30 on offer. */
  lemma OneEventRemovesOneMark(m: MinuteOfDay)
    requires 540 <= m < 1200 && m % 30 == 0
    ensures var k := GridIndex(m);
      FreeSlots([Some(m)]) == HalfHourGrid()[..k] + HalfHourGrid()[k + 1..]
  {
    var g, k := HalfHourGrid(), GridIndex(m);
    assert BusyStarts([Some(m)]) == [g[k]] by {
      assert BusyStarts([Some(m)][1..]) == [];
      FormatIsLabel(m);
    }
    forall j | 0 <= j < |g| ensures g[j] == g[k] <==> j == k {
      if j < k { GridDistinct(j, k); } else if j > k { GridDistinct(k, j); }
    }
    KeepFreeOne(g, k);
  }

  /** Filtering out a label that occurs once, at position k, removes just that position. */
  lemma {:induction false} KeepFreeOne(slots: seq<string>, k: nat)
    requires k < |slots|
    requires forall j :: 0 <= j < |slots| ==> (slots[j] == slots[k] <==> j == k)
    ensures KeepFree(slots, [slots[k]]) == slots[..k] + slots[k + 1..]
    decreases |slots|
  {
    var x := slots[k];
    if k == 0 {
      KeepFreeUnaffected(slots[1..], [x]);
    } else {
      var tail := slots[1..];
      assert tail[k - 1] == x;
      forall j | 0 <= j < |tail| ensures tail[j] == x <==> j == k - 1 {
        assert tail[j] == slots[j + 1];
      }
      KeepFreeOne(tail, k - 1);
      assert slots[..k] == [slots[0]] + tail[..k - 1];
      assert slots[k + 1..] == tail[k..];
    }
  }

  /** The fallback list is the grid with the four marks 13:00, 13:30, 14:00 and 14:30 cut out. */
  lemma FallbackIsGridWithoutMidday()
    ensures |FallbackSlots| == 18
    ensures FallbackSlots == HalfHourGrid()[..8] + HalfHourGrid()[12..]
  {
    FallbackMorning();
    FallbackAfternoon();
  }

  lemma FallbackMorning()
    ensures FallbackSlots[..8] == HalfHourGrid()[..8]
  {
    var g := HalfHourGrid();
    FallbackNineToEleven();
    FallbackElevenToOne();
    assert FallbackSlots[..8] == FallbackSlots[..4] + FallbackSlots[4..8];
    assert g[..8] == g[..4] + g[4..8];
  }

  lemma FallbackAfternoon()
    ensures FallbackSlots[8..] == HalfHourGrid()[12..]
  {
    var g := HalfHourGrid();
    FallbackThreeToFive();
    FallbackFiveToSeven();
    FallbackSevenToEight();
    assert FallbackSlots[8..] == FallbackSlots[8..12] + FallbackSlots[12..16] + FallbackSlots[16..];
    assert g[12..] == g[12..16] + g[16..20] + g[20..];
  }

  lemma FallbackNineToEleven()
    ensures FallbackSlots[..4] == HalfHourGrid()[..4]
  {
    var g := HalfHourGrid();
    assert g[0] == "09:00" by { assert g[0] == Label(540); }
    assert g[1] == "09:30" by { assert g[1] == Label(570); }
    assert g[2] == "10:00" by { assert g[2] == Label(600); }
    assert g[3] == "10:30" by { assert g[3] == Label(630); }
  }

  lemma FallbackElevenToOne()
    ensures FallbackSlots[4..8] == HalfHourGrid()[4..8]
  {
    var g := HalfHourGrid();
    assert g[4] == "11:00" by { assert g[4] == Label(660); }
    assert g[5] == "11:30" by { assert g[5] == Label(690); }
    assert g[6] == "12:00" by { assert g[6] == Label(720); }
    assert g[7] == "12:30" by { assert g[7] == Label(750); }
  }

  lemma FallbackThreeToFive()
    ensures FallbackSlots[8..12] == HalfHourGrid()[12..16]
  {
    var g := HalfHourGrid();
    assert g[12] == "15:00" by { assert g[12] == Label(900); }
    assert g[13] == "15:30" by { assert g[13] == Label(930); }
    assert g[14] == "16:00" by { assert g[14] == Label(960); }
    assert g[15] == "16:30" by { assert g[15] == Label(990); }
  }

  lemma FallbackFiveToSeven()
    ensures FallbackSlots[12..16] == HalfHourGrid()[16..20]
  {
    var g := HalfHourGrid();
    assert g[16] == "17:00" by { assert g[16] == Label(1020); }
    assert g[17] == "17:30" by { assert g[17] == Label(1050); }
    assert g[18] == "18:00" by { assert g[18] == Label(1080); }
    assert g[19] == "18:30" by { assert g[19] == Label(1110); }
  }

  lemma FallbackSevenToEight()
    ensures FallbackSlots[16..] == HalfHourGrid()[20..]
  {
    var g := HalfHourGrid();
    assert g[20] == "19:00" by { assert g[20] == Label(1140); }
    assert g[21] == "19:30" by { assert g[21] == Label(1170); }
  }

  // ---------------------------------------------------------------------------------------------
  // The grid loop and the event body

  /** The loop of `getAvailableSlots` that pushes `HH:00` and `HH:30` for each hour from 9 to 19. */
  method BuildGrid() returns (allSlots: seq<string>)
    ensures allSlots == HalfHourGrid()
  {
    allSlots := [];
    var hour := 9;
    while hour < 20
      invariant 9 <= hour <= 20
      invariant allSlots == HalfHourGrid()[..2 * (hour - 9)]
    {
      var onHour := TwoDigits(hour) + ":00";
      var halfPast := TwoDigits(hour) + ":30";
      AppendHourMarks(hour, allSlots, onHour, halfPast);
      allSlots := allSlots + [onHour];
      allSlots := allSlots + [halfPast];
      hour := hour + 1;
    }
    assert HalfHourGrid()[..GridSize] == HalfHourGrid();
  }

  /** `appointmentData.comentarios || 'Ninguno'`. */
  function CommentsOrNone(c: Option<string>): string {
    match c
    case Some(s) => if s == "" then "Ninguno" else s
    case None => "Ninguno"
  }

  /** The event description: four labelled lines, trimmed. */
  function Description(d: AppointmentData): string {
    Text.Trim("\n          Cliente: " + d.nombre +
              "\n          Teléfono: " + d.telefono +
              "\n          Servicio: " + d.servicio +
              "\n          Comentarios: " + CommentsOrNone(d.comentarios) +
              "\n        ")
  }

  /** The event created for a booking starting at instant `start`: one hour long, in the
      clinic's zone, with the client as the only attendee. */
  function BuildEvent(d: AppointmentData, start: int): (e: CalendarEvent)
    ensures e.end.instant - e.start.instant == AppointmentLength
    ensures e.start.instant == start
    ensures e.start.timeZone == TimeZone && e.end.timeZone == TimeZone
    ensures e.attendees == [Attendee(d.email, d.nombre)]
  {
    CalendarEvent(
      "Cita FisioSalut - " + d.servicio,
      Description(d),
      EventTime(start, TimeZone),
      EventTime(start + AppointmentLength, TimeZone),
      [Attendee(d.email, d.nombre)])
  }

  /** `x || undefined` on an optional string: the empty string becomes absent. */
  function NonEmpty(x: Option<string>): (r: Option<string>)
    ensures r.Some? <==> x.Some? && x.value != ""
    ensures r.Some? ==> r == x
  {
    if x.Some? && x.value != "" then x else None
  }

  /** The service object. Its two clients are built once, at construction; a client that could not
      be built stays absent and every operation needing it takes its guard branch. */
  class CalendarService {
    /** The OAuth2 client exists. */
    var authReady: bool
    /** The calendar client exists. */
    var calendarReady: bool
    /** The credentials last set on the OAuth2 client. */
    var credentials: Option<Tokens>

    /** `initializeAuth`: `clientBuilt` and `calendarBuilt` say whether building the OAuth2 client
        and then the calendar client succeeded (an exception is caught and logged);
        `refreshToken` is the configured refresh token. */
    constructor (clientBuilt: bool, refreshToken: Option<string>, calendarBuilt: bool)
      ensures authReady == clientBuilt
      ensures calendarReady == (clientBuilt && calendarBuilt)
      ensures credentials ==
        if clientBuilt && NonEmpty(refreshToken).Some? then Some(map["refresh_token" := refreshToken.value]) else None
    {
      authReady := clientBuilt;
      credentials := None;
      if clientBuilt && NonEmpty(refreshToken).Some? {
        credentials := Some(map["refresh_token" := refreshToken.value]);
      }
      calendarReady := clientBuilt && calendarBuilt;
    }

    /** `getAvailableSlots(date)`: `listing` is what `events.list` gives for the day (a date that
        does not parse makes the request throw, which is `ListThrew`). Without a calendar client, or
        when the listing throws, the fixed fallback list is returned; otherwise the grid minus every
        mark equal to some event's start label. */
    method GetAvailableSlots(listing: ListOutcome) returns (slots: seq<string>)
      ensures !calendarReady || listing.ListThrew? ==> slots == FallbackSlots
      ensures calendarReady && listing.Listed? ==> slots == FreeSlots(listing.starts)
    {
      if !calendarReady {
        return FallbackSlots;
      }
      match listing {
        case ListThrew =>
          slots := FallbackSlots;
        case Listed(starts) =>
          var busy := BusyStarts(starts);
          var allSlots := BuildGrid();
          slots := KeepFree(allSlots, busy);
      }
    }

    /** `createAppointment(data)`: `start` is the instant the host reads from
        `fecha + "T" + hora + ":00"` (`None` when that is not a valid date), `insert` the outcome of
        `events.insert`. Also returns the event body handed to the API, `None` when it is not called. */
    method CreateAppointment(data: AppointmentData, start: Option<int>, insert: InsertOutcome)
      returns (r: CalendarResponse, sent: Option<CalendarEvent>)
      requires start.Some? ==> ValidInstant(start.value)
      ensures !calendarReady ==>
        sent.None? && r == CalendarResponse(false, None, None, NotInitializedMessage, Some(NotInitializedError))
      ensures sent.Some? <==> calendarReady && start.Some? && ValidInstant(start.value + AppointmentLength)
      ensures sent.Some? ==> sent.value == BuildEvent(data, start.value)
      ensures sent.Some? ==> sent.value.end.instant == sent.value.start.instant + AppointmentLength
      ensures r.success <==> sent.Some? && insert.Inserted?
      ensures r.success ==> r == CalendarResponse(true, NonEmpty(insert.id), NonEmpty(insert.htmlLink), CreatedMessage, None)
      ensures calendarReady && sent.None? ==>
        r == CalendarResponse(false, None, None, CreateFailedMessage, Some(InvalidTimeValue))
      ensures sent.Some? && insert.InsertThrew? ==>
        r == CalendarResponse(false, None, None, CreateFailedMessage, Some(ErrorText(insert.thrown)))
    {
      if !calendarReady {
        return CalendarResponse(false, None, None, NotInitializedMessage, Some(NotInitializedError)), None;
      }
      if start.None? || !ValidInstant(start.value + AppointmentLength) {
        // toISOString on an invalid Date throws a RangeError, caught below the insert.
        return CalendarResponse(false, None, None, CreateFailedMessage, Some(InvalidTimeValue)), None;
      }
      var event := BuildEvent(data, start.value);
      sent := Some(event);
      match insert {
        case Inserted(id, link) =>
          r := CalendarResponse(true, NonEmpty(id), NonEmpty(link), CreatedMessage, None);
        case InsertThrew(t) =>
          r := CalendarResponse(false, None, None, CreateFailedMessage, Some(ErrorText(t)));
      }
    }

    /** `cancelAppointment(eventId)`: `outcome` is what `events.delete` gives. Also returns the id
        handed to the API, `None` when it is not called. */
    method CancelAppointment(eventId: string, outcome: DeleteOutcome)
      returns (r: CalendarResponse, requested: Option<string>)
      ensures !calendarReady ==>
        requested.None? && r == CalendarResponse(false, None, None, NotInitializedMessage, Some(NotInitializedError))
      ensures calendarReady ==> requested == Some(eventId)
      ensures r.success <==> calendarReady && outcome.Deleted?
      ensures r.success ==> r == CalendarResponse(true, None, None, CancelledMessage, None)
      ensures calendarReady && outcome.DeleteThrew? ==>
        r == CalendarResponse(false, None, None, CancelFailedMessage, Some(ErrorText(outcome.thrown)))
    {
      if !calendarReady {
        return CalendarResponse(false, None, None, NotInitializedMessage, Some(NotInitializedError)), None;
      }
      requested := Some(eventId);
      match outcome {
        case Deleted =>
          r := CalendarResponse(true, None, None, CancelledMessage, None);
        case DeleteThrew(t) =>
          r := CalendarResponse(false, None, None, CancelFailedMessage, Some(ErrorText(t)));
      }
    }

    /** `getAuthUrl()`: throws without an OAuth2 client; otherwise asks for offline access to the
        calendar scopes with a consent prompt. */
    method GetAuthUrl() returns (r: Result<AuthUrlRequest, string>)
      ensures r.Err? <==> !authReady
      ensures r.Err? ==> r.error == AuthClientMissing
      ensures r.Ok? ==> r.value == AuthUrlRequest("offline", CalendarScopes, "consent")
    {
      if !authReady {
        return Err(AuthClientMissing);
      }
      r := Ok(AuthUrlRequest("offline", CalendarScopes, "consent"));
    }

    /** `processAuthCode(code)`: `exchange` is what `getToken(code)` gives. On success the tokens
        become the client's credentials; otherwise nothing changes. */
    method ProcessAuthCode(code: string, exchange: Result<Tokens, Thrown>) returns (r: AuthResponse)
      modifies this`credentials
      ensures !authReady ==>
        r == AuthResponse(false, None, AuthClientMissing, Some(AuthClientMissingError)) && credentials == old(credentials)
      ensures authReady && exchange.Ok? ==>
        r == AuthResponse(true, Some(exchange.value), AuthDoneMessage, None) && credentials == Some(exchange.value)
      ensures authReady && exchange.Err? ==>
        r == AuthResponse(false, None, AuthFailedMessage, Some(ErrorText(exchange.error))) && credentials == old(credentials)
    {
      if !authReady {
        return AuthResponse(false, None, AuthClientMissing, Some(AuthClientMissingError));
      }
      match exchange {
        case Ok(tokens) =>
          credentials := Some(tokens);
          r := AuthResponse(true, Some(tokens), AuthDoneMessage, None);
        case Err(t) =>
          r := AuthResponse(false, None, AuthFailedMessage, Some(ErrorText(t)));
      }
    }
  }
}
