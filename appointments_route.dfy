/** `POST /api/appointments`: checks that the booking carries every required field, hands it to
    the calendar service and turns the service's answer into an HTTP reply. */
module AppointmentsRoute {
  import opened Wrappers
  import opened Json
  import Text
  import GoogleCalendar

  const RequiredFields: seq<string> := ["nombre", "email", "telefono", "fecha", "hora", "servicio"]
  const MissingPrefix := "Campos requeridos faltantes: "
  const BookedMessage := "Cita creada exitosamente"
  const ServerErrorMessage := "Error interno del servidor"

  /** The engine's message for reading the first required field of a `null` body. */
  const NullBodyMessage := "Cannot read properties of null (reading 'nombre')"

  datatype Reply = Reply(
    status: int,
    success: bool,
    message: string,
    eventId: Option<string>,
    eventLink: Option<string>,
    error: Option<string>)

  /** The reply, and the body handed to `createAppointment` (`None` when it was not called). */
  datatype Handled = Handled(reply: Reply, forwarded: Option<Json>)

  const UnknownErrorText := "Error desconocido"

  /** `names.filter(field => !body[field])`. */
  function MissingAmong(names: seq<string>, fields: map<string, Json>): (missing: seq<string>)
    ensures |missing| <= |names|
    ensures forall f :: f in missing <==> f in names && !Truthy(Field(fields, f))
  {
    if names == [] then []
    else if !Truthy(Field(fields, names[0])) then [names[0]] + MissingAmong(names[1..], fields)
    else MissingAmong(names[1..], fields)
  }

  function MissingFields(body: Json): (missing: seq<string>)
    ensures |missing| <= |RequiredFields|
    ensures forall f :: f in missing ==> f in RequiredFields
  {
    MissingAmong(RequiredFields, FieldsOf(body))
  }

  /** The missing names keep the order in which they are listed. */
  lemma {:induction false} MissingConcat(a: seq<string>, b: seq<string>, fields: map<string, Json>)
    ensures MissingAmong(a + b, fields) == MissingAmong(a, fields) + MissingAmong(b, fields)
  {
    if a == [] {
      assert a + b == b;
    } else {
      assert (a + b)[1..] == a[1..] + b;
      MissingConcat(a[1..], b, fields);
    }
  }

  /** A body without any of the names misses all of them, in the order listed. */
  lemma {:induction false} MissingAllOfEmpty(names: seq<string>)
    ensures MissingAmong(names, map[]) == names
  {
    if names != [] {
      MissingAllOfEmpty(names[1..]);
    }
  }

  /** Exactly the required names whose value is falsy are reported. */
  lemma MissingExactly(body: Json)
    ensures forall f :: f in MissingFields(body) <==> f in RequiredFields && !Truthy(Field(FieldsOf(body), f))
  {
  }

  /** The comments are never required. */
  lemma CommentsNeverRequired(body: Json)
    ensures "comentarios" !in MissingFields(body)
  {
    var c := "comentarios";
    assert c !in RequiredFields by {
      forall k | 0 <= k < |RequiredFields| ensures RequiredFields[k] != c {
        assert |RequiredFields[k]| <= 8 < |c|;
      }
    }
  }

  /** An empty object misses every required field, in the order listed. */
  lemma EmptyBodyMissesAll()
    ensures MissingFields(JObject(map[])) == RequiredFields
  {
    MissingAllOfEmpty(RequiredFields);
  }

  /** Six names joined: each neighbouring pair separated by `sep`. */
  lemma JoinSix(a: string, b: string, c: string, d: string, e: string, f: string, sep: string)
    ensures Text.Join([a, b, c, d, e, f], sep) == a + sep + b + sep + c + sep + d + sep + e + sep + f
  {
    assert [e, f][1..] == [f];
    assert Text.Join([e, f], sep) == e + sep + f;
    assert [d, e, f][1..] == [e, f];
    assert Text.Join([d, e, f], sep) == d + sep + e + sep + f;
    assert [c, d, e, f][1..] == [d, e, f];
    assert Text.Join([c, d, e, f], sep) == c + sep + d + sep + e + sep + f;
    assert [b, c, d, e, f][1..] == [c, d, e, f];
    assert Text.Join([b, c, d, e, f], sep) == b + sep + c + sep + d + sep + e + sep + f;
    assert [a, b, c, d, e, f][1..] == [b, c, d, e, f];
  }

  /** The missing names joined, for a body without members (`{}`, but also a string, a number or
      an array). */
  lemma NoMembersMissingText(body: Json)
    requires !body.JNull? && FieldsOf(body) == map[]
    ensures Text.Join(MissingFields(body), ", ") ==
      "nombre" + ", " + "email" + ", " + "telefono" + ", " + "fecha" + ", " + "hora" + ", " + "servicio"
  {
    MissingAllOfEmpty(RequiredFields);
    var r := RequiredFields;
    assert r == [r[0], r[1], r[2], r[3], r[4], r[5]];
    JoinSix(r[0], r[1], r[2], r[3], r[4], r[5], ", ");
  }

  /** A body without members is answered 400 naming every required field, in the order listed,
      and the service is not called. */
  lemma NoMembersReply(body: Json, service: GoogleCalendar.CalendarResponse)
    requires !body.JNull? && FieldsOf(body) == map[]
    ensures Post(Ok(body), service) == Handled(Reply(400, false,
      MissingPrefix + ("nombre" + ", " + "email" + ", " + "telefono" + ", " + "fecha" + ", " + "hora" + ", " + "servicio"),
      None, None, None), None)
  {
    NoMembersMissingText(body);
    MissingRejected(body, service);
  }

  /** A non-null body with a missing name is answered 400 listing the missing names, and the
      service is not called. */
  lemma MissingRejected(body: Json, service: GoogleCalendar.CalendarResponse)
    requires !body.JNull? && MissingFields(body) != []
    ensures Post(Ok(body), service) ==
      Handled(Reply(400, false, MissingPrefix + Text.Join(MissingFields(body), ", "), None, None, None), None)
  {
  }

  /** The route. `request` is the parsed body or what parsing threw; `service` is what
      `createAppointment` answers when it is called. */
  function Post(request: Result<Json, Thrown>, service: GoogleCalendar.CalendarResponse): (h: Handled)
    ensures h.reply.status in {200, 400, 500}
    ensures h.reply.success <==> h.reply.status == 200
    ensures h.forwarded.Some? <==> request.Ok? && !request.value.JNull? && MissingFields(request.value) == []
    ensures h.forwarded.Some? ==> h.forwarded.value == request.value
    ensures h.reply.success <==> h.forwarded.Some? && service.success
    ensures h.reply.status == 400 <==> request.Ok? && !request.value.JNull? && MissingFields(request.value) != []
    ensures h.reply.status == 400 ==> h.reply.message == MissingPrefix + Text.Join(MissingFields(request.value), ", ")
    ensures h.reply.success ==> h.reply.eventId == service.eventId && h.reply.eventLink == service.eventLink
    ensures h.forwarded.Some? && !service.success ==> h.reply.message == service.message && h.reply.error == service.error
    ensures h.forwarded.None? && h.reply.status == 500 ==> h.reply.message == ServerErrorMessage
  {
    match request
    case Err(t) =>
      Handled(Reply(500, false, ServerErrorMessage, None, None, Some(MessageOr(t, UnknownErrorText))), None)
    case Ok(body) =>
      if Member(body, RequiredFields[0]).None? then
        Handled(Reply(500, false, ServerErrorMessage, None, None, Some(NullBodyMessage)), None)
      else
        var missing := MissingFields(body);
        if |missing| > 0 then
          Handled(Reply(400, false, MissingPrefix + Text.Join(missing, ", "), None, None, None), None)
        else if service.success then
          Handled(Reply(200, true, BookedMessage, service.eventId, service.eventLink, None), Some(body))
        else
          Handled(Reply(500, false, service.message, None, None, service.error), Some(body))
  }
}
