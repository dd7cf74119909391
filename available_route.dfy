/** `GET /api/appointments/available?date=…`: checks that a date is given in the shape
    YYYY-MM-DD and answers with the calendar service's free slots for it. */
module AvailableRoute {
  import opened Wrappers
  import Clock

  const DateRequiredMessage := "Fecha requerida"
  const BadDateMessage := "Formato de fecha inválido (YYYY-MM-DD)"
  const SlotsErrorMessage := "Error obteniendo horarios disponibles"
  const UnknownErrorText := "Error desconocido"

  /** What `getAvailableSlots` gives back for the date, or what it threw. */
  datatype SlotsOutcome = Slots(slots: seq<string>) | SlotsThrew(thrown: Thrown)

  datatype Reply = Reply(
    status: int,
    success: bool,
    message: Option<string>,
    date: Option<string>,
    availableSlots: Option<seq<string>>,
    error: Option<string>)

  /** The reply, and the date handed to the service (`None` when it was not asked). */
  datatype Handled = Handled(reply: Reply, queried: Option<string>)

  predicate AllDigits(s: string) {
    forall i :: 0 <= i < |s| ==> Clock.IsDigit(s[i])
  }

  /** `/^\d{4}-\d{2}-\d{2}$/.test(s)`, position by position. */
  predicate IsDateShape(s: string)
    ensures IsDateShape(s) ==> |s| == 10 && forall i :: 0 <= i < |s| ==> (Clock.IsDigit(s[i]) <==> i != 4 && i != 7)
  {
    |s| == 10 && s[4] == '-' && s[7] == '-' &&
    forall i :: 0 <= i < 10 && i != 4 && i != 7 ==> Clock.IsDigit(s[i])
  }

  /** The pattern read as written: four digits, '-', two digits, '-', two digits. */
  ghost predicate DateMatches(s: string) {
    exists y: string, m: string, d: string ::
      |y| == 4 && |m| == 2 && |d| == 2 && AllDigits(y) && AllDigits(m) && AllDigits(d) &&
      s == y + "-" + m + "-" + d
  }

  lemma DateShapeMatches(s: string)
    ensures IsDateShape(s) <==> DateMatches(s)
  {
    if IsDateShape(s) {
      ShapeSplits(s);
    }
    if DateMatches(s) {
      var y: string, m: string, d: string :| |y| == 4 && |m| == 2 && |d| == 2 &&
        AllDigits(y) && AllDigits(m) && AllDigits(d) && s == y + "-" + m + "-" + d;
      PartsJoin(y, m, d);
    }
  }

  /** A string of the right shape splits into its year, month and day digits. */
  lemma ShapeSplits(s: string)
    requires IsDateShape(s)
    ensures DateMatches(s)
  {
    var y, m, d := s[..4], s[5..7], s[8..];
    assert s == y + "-" + m + "-" + d;
    assert AllDigits(y) by {
      forall i | 0 <= i < 4 ensures Clock.IsDigit(y[i]) {
        assert y[i] == s[i];
      }
    }
    assert AllDigits(m) by {
      forall i | 0 <= i < 2 ensures Clock.IsDigit(m[i]) {
        assert m[i] == s[5 + i];
      }
    }
    assert AllDigits(d) by {
      forall i | 0 <= i < 2 ensures Clock.IsDigit(d[i]) {
        assert d[i] == s[8 + i];
      }
    }
  }

  /** Four digits, '-', two digits, '-', two digits have the right shape. */
  lemma PartsJoin(y: string, m: string, d: string)
    requires |y| == 4 && |m| == 2 && |d| == 2 && AllDigits(y) && AllDigits(m) && AllDigits(d)
    ensures IsDateShape(y + "-" + m + "-" + d)
  {
    var s := y + "-" + m + "-" + d;
    forall i | 0 <= i < 10 && i != 4 && i != 7 ensures Clock.IsDigit(s[i]) {
      if i < 4 {
        assert s[i] == y[i];
      } else if i < 7 {
        assert s[i] == m[i - 5];
      } else {
        assert s[i] == d[i - 8];
      }
    }
  }

  /** Only the shape is checked: a month 99 and a day 99 pass. */
  lemma ShapeOnly()
    ensures IsDateShape("2025-99-99")
    ensures !IsDateShape("2025-1-01") && !IsDateShape("25-01-01") && !IsDateShape("2025/01/01")
  {
  }

  /** The route. `date` is the query parameter (`None` when absent); `service` is what
      `getAvailableSlots(date)` gives when it is asked. */
  function Get(date: Option<string>, service: SlotsOutcome): (h: Handled)
    ensures h.reply.status in {200, 400, 500}
    ensures h.reply.success <==> h.reply.status == 200
    ensures h.queried.Some? <==> date.Some? && IsDateShape(date.value)
    ensures h.queried.Some? ==> h.queried == date
    ensures date.None? || date.value == "" ==> h.reply.status == 400 && h.reply.message == Some(DateRequiredMessage)
    ensures date.Some? && date.value != "" && !IsDateShape(date.value) ==>
      h.reply.status == 400 && h.reply.message == Some(BadDateMessage)
    ensures h.reply.success <==> h.queried.Some? && service.Slots?
    ensures h.reply.success ==> h.reply.date == date && h.reply.availableSlots == Some(service.slots)
    ensures h.reply.status == 500 ==> h.reply.message == Some(SlotsErrorMessage)
  {
    if date.None? || date.value == "" then
      Handled(Reply(400, false, Some(DateRequiredMessage), None, None, None), None)
    else if !IsDateShape(date.value) then
      Handled(Reply(400, false, Some(BadDateMessage), None, None, None), None)
    else
      match service
      case Slots(slots) => Handled(Reply(200, true, None, date, Some(slots), None), date)
      case SlotsThrew(t) =>
        Handled(Reply(500, false, Some(SlotsErrorMessage), None, None, Some(MessageOr(t, UnknownErrorText))), date)
  }
}
