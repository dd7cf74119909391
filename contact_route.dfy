/** `/api/contacto`: POST validates a contact message against the schema (name of two or more
    characters, an email, an optional phone, a message of ten or more characters) and stores it;
    GET lists the ten most recent messages. The database is abstracted to its contents and to the
    outcome of the write. */
module ContactRoute {
  import opened Wrappers
  import opened Json

  const NameTooShort := "El nombre debe tener al menos 2 caracteres"
  const BadEmail := "Email inválido"
  const MessageTooShort := "El mensaje debe tener al menos 10 caracteres"
  const SentMessage := "Mensaje enviado correctamente. Te contactaremos pronto."
  const InvalidDataError := "Datos inválidos"
  const ServerErrorMessage := "Error interno del servidor"
  const MinNameLength := 2
  const MinMessageLength := 10
  const ListLimit := 10

  /** The validated contact, holding only the schema's keys. */
  datatype ContactData = ContactData(nombre: string, email: string, telefono: Option<string>, mensaje: string)

  /** One complaint of the schema: where (the key path) and what. */
  datatype Issue = Issue(path: seq<string>, message: string)

  /** The complaint about a value that is not a string: 'Required' when it is missing. */
  function NotAString(key: string, v: Option<Json>): Issue {
    if v.None? then Issue([key], "Required") else Issue([key], "Expected string, received " + TypeName(v.value))
  }

  /** `z.string().min(n, message)` on one key. */
  function CheckMinString(key: string, v: Option<Json>, n: nat, message: string): (issue: Option<Issue>)
    ensures issue.None? <==> v.Some? && v.value.JStr? && |v.value.s| >= n
  {
    if v.Some? && v.value.JStr? then
      if |v.value.s| < n then Some(Issue([key], message)) else None
    else Some(NotAString(key, v))
  }

  /** `z.string().email(message)` on one key; `isEmail` is the library's email test. */
  function CheckEmail(v: Option<Json>, isEmail: string -> bool): (issue: Option<Issue>)
    ensures issue.None? <==> v.Some? && v.value.JStr? && isEmail(v.value.s)
  {
    if v.Some? && v.value.JStr? then
      if !isEmail(v.value.s) then Some(Issue(["email"], BadEmail)) else None
    else Some(NotAString("email", v))
  }

  /** `z.string().optional()`: absent or a string. */
  function CheckOptionalString(key: string, v: Option<Json>): (issue: Option<Issue>)
    ensures issue.None? <==> v.None? || v.value.JStr?
  {
    if v.None? || v.value.JStr? then None else Some(NotAString(key, v))
  }

  function Issues(checks: seq<Option<Issue>>): (issues: seq<Issue>)
    ensures issues == [] <==> forall i :: 0 <= i < |checks| ==> checks[i].None?
  {
    if checks == [] then []
    else (if checks[0].Some? then [checks[0].value] else []) + Issues(checks[1..])
  }

  /** What the schema accepts, stated key by key. */
  predicate ValidContact(body: Json, isEmail: string -> bool) {
    body.JObject? &&
    var f := body.fields;
    "nombre" in f && f["nombre"].JStr? && |f["nombre"].s| >= MinNameLength &&
    "email" in f && f["email"].JStr? && isEmail(f["email"].s) &&
    ("telefono" !in f || f["telefono"].JStr?) &&
    "mensaje" in f && f["mensaje"].JStr? && |f["mensaje"].s| >= MinMessageLength
  }

  /** `contactoSchema.parse(body)`: every key is checked and every complaint collected. */
  function ParseContact(body: Json, isEmail: string -> bool): (r: Result<ContactData, seq<Issue>>)
    ensures r.Ok? <==> ValidContact(body, isEmail)
    ensures r.Err? ==> |r.error| > 0
    ensures r.Ok? ==>
      Some(JStr(r.value.nombre)) == Field(body.fields, "nombre") &&
      Some(JStr(r.value.email)) == Field(body.fields, "email") &&
      Some(JStr(r.value.mensaje)) == Field(body.fields, "mensaje") &&
      (r.value.telefono.Some? <==> "telefono" in body.fields) &&
      (r.value.telefono.Some? ==> body.fields["telefono"] == JStr(r.value.telefono.value))
    ensures r.Ok? ==> |r.value.nombre| >= MinNameLength && |r.value.mensaje| >= MinMessageLength && isEmail(r.value.email)
  {
    if !body.JObject? then
      Err([Issue([], "Expected object, received " + TypeName(body))])
    else
      var f := body.fields;
      var checks := [
        CheckMinString("nombre", Field(f, "nombre"), MinNameLength, NameTooShort),
        CheckEmail(Field(f, "email"), isEmail),
        CheckOptionalString("telefono", Field(f, "telefono")),
        CheckMinString("mensaje", Field(f, "mensaje"), MinMessageLength, MessageTooShort)];
      var issues := Issues(checks);
      if issues != [] then
        Err(issues)
      else
        assert checks[0].None? && checks[1].None? && checks[2].None? && checks[3].None?;
        var phone := if "telefono" in f then Some(f["telefono"].s) else None;
        Ok(ContactData(f["nombre"].s, f["email"].s, phone, f["mensaje"].s))
  }

  /** A name or a message that is too short is reported under its own key with its own message. */
  lemma TooShortReported(body: Json, isEmail: string -> bool)
    requires body.JObject?
    ensures "nombre" in body.fields && body.fields["nombre"].JStr? && |body.fields["nombre"].s| < MinNameLength ==>
      ParseContact(body, isEmail).Err? && Issue(["nombre"], NameTooShort) in ParseContact(body, isEmail).error
    ensures "mensaje" in body.fields && body.fields["mensaje"].JStr? && |body.fields["mensaje"].s| < MinMessageLength ==>
      ParseContact(body, isEmail).Err? && Issue(["mensaje"], MessageTooShort) in ParseContact(body, isEmail).error
  {
    var f := body.fields;
    var checks := [
      CheckMinString("nombre", Field(f, "nombre"), MinNameLength, NameTooShort),
      CheckEmail(Field(f, "email"), isEmail),
      CheckOptionalString("telefono", Field(f, "telefono")),
      CheckMinString("mensaje", Field(f, "mensaje"), MinMessageLength, MessageTooShort)];
    if checks[0].Some? {
      IssuesHold(checks, 0);
    }
    if checks[3].Some? {
      IssuesHold(checks, 3);
    }
  }

  /** Every complaint of the individual checks ends up in the collected list. */
  lemma {:induction false} IssuesHold(checks: seq<Option<Issue>>, i: nat)
    requires i < |checks| && checks[i].Some?
    ensures checks[i].value in Issues(checks)
  {
    if i > 0 {
      IssuesHold(checks[1..], i - 1);
    }
  }

  datatype PostReply = PostReply(
    status: int,
    message: Option<string>,
    id: Option<nat>,
    error: Option<string>,
    details: seq<Issue>)

  /** The reply, and the data handed to the database (`None` when nothing was written). */
  datatype PostHandled = PostHandled(reply: PostReply, written: Option<ContactData>)

  /** POST. `request` is the parsed body or what parsing threw; `created` is the id the database
      gives the new record, or what the write threw. */
  function Post(request: Result<Json, Thrown>, isEmail: string -> bool, created: Result<nat, Thrown>): (h: PostHandled)
    ensures h.reply.status in {201, 400, 500}
    ensures h.written.Some? <==> request.Ok? && ValidContact(request.value, isEmail)
    ensures h.written.Some? ==> ParseContact(request.value, isEmail) == Ok(h.written.value)
    ensures h.reply.status == 400 <==> request.Ok? && !ValidContact(request.value, isEmail)
    ensures h.reply.status == 400 ==>
      h.reply.error == Some(InvalidDataError) && h.reply.details == ParseContact(request.value, isEmail).error
    ensures h.reply.status == 201 <==> h.written.Some? && created.Ok?
    ensures h.reply.status == 201 ==> h.reply.id == Some(created.value) && h.reply.message == Some(SentMessage)
    ensures h.reply.status == 500 ==> h.reply.error == Some(ServerErrorMessage)
  {
    match request
    case Err(_) => PostHandled(PostReply(500, None, None, Some(ServerErrorMessage), []), None)
    case Ok(body) =>
      match ParseContact(body, isEmail)
      case Err(issues) => PostHandled(PostReply(400, None, None, Some(InvalidDataError), issues), None)
      case Ok(data) =>
        match created
        case Ok(id) => PostHandled(PostReply(201, Some(SentMessage), Some(id), None, []), Some(data))
        case Err(_) => PostHandled(PostReply(500, None, None, Some(ServerErrorMessage), []), Some(data))
  }

  // ---------------------------------------------------------------------------------------------
  // GET: the ten newest records

  datatype ContactRecord = ContactRecord(id: nat, createdAt: int, data: ContactData)

  /** The position of a record with the latest `createdAt` (the first such). */
  function NewestIndex(records: seq<ContactRecord>): (i: nat)
    requires |records| > 0
    ensures i < |records|
    ensures forall j :: 0 <= j < |records| ==> records[j].createdAt <= records[i].createdAt
  {
    if |records| == 1 then 0
    else
      var k := NewestIndex(records[1..]);
      if records[0].createdAt >= records[k + 1].createdAt then 0 else k + 1
  }

  function Min(a: nat, b: nat): nat {
    if a <= b then a else b
  }

  /** `findMany({orderBy: {createdAt: 'desc'}, take: n})` over the table `records`. */
  function TakeNewest(records: seq<ContactRecord>, n: nat): (r: seq<ContactRecord>)
    ensures |r| == Min(n, |records|)
    ensures multiset(r) <= multiset(records)
    ensures forall i, j :: 0 <= i < j < |r| ==> r[i].createdAt >= r[j].createdAt
    ensures forall x, k :: x in records && x !in r && 0 <= k < |r| ==> x.createdAt <= r[k].createdAt
    decreases n
  {
    if n == 0 || records == [] then []
    else
      var i := NewestIndex(records);
      var rest := records[..i] + records[i + 1..];
      RemoveOne(records, i);
      var tail := TakeNewest(rest, n - 1);
      NewestFirst(records, i, rest, tail);
      [records[i]] + tail
  }

  /** Taking one record out of the table. */
  lemma RemoveOne(records: seq<ContactRecord>, i: nat)
    requires i < |records|
    ensures multiset(records[..i] + records[i + 1..]) + multiset{records[i]} == multiset(records)
    ensures forall x :: x in records && x != records[i] ==> x in records[..i] + records[i + 1..]
    ensures |records[..i] + records[i + 1..]| == |records| - 1
  {
    assert records == records[..i] + [records[i]] + records[i + 1..];
    forall x | x in records && x != records[i]
      ensures x in records[..i] + records[i + 1..]
    {
      var j :| 0 <= j < |records| && records[j] == x;
      if j < i {
        assert x == records[..i][j];
      } else {
        assert x == records[i + 1..][j - i - 1];
      }
    }
  }

  /** Putting the newest record in front of the newest of the rest keeps every promise. */
  lemma NewestFirst(records: seq<ContactRecord>, i: nat, rest: seq<ContactRecord>, tail: seq<ContactRecord>)
    requires i < |records|
    requires forall j :: 0 <= j < |records| ==> records[j].createdAt <= records[i].createdAt
    requires multiset(rest) + multiset{records[i]} == multiset(records)
    requires forall x :: x in records && x != records[i] ==> x in rest
    requires multiset(tail) <= multiset(rest)
    requires forall a, b :: 0 <= a < b < |tail| ==> tail[a].createdAt >= tail[b].createdAt
    requires forall x, k :: x in rest && x !in tail && 0 <= k < |tail| ==> x.createdAt <= tail[k].createdAt
    ensures multiset([records[i]] + tail) <= multiset(records)
    ensures forall a, b :: 0 <= a < b < |[records[i]] + tail| ==>
      ([records[i]] + tail)[a].createdAt >= ([records[i]] + tail)[b].createdAt
    ensures forall x, k :: x in records && x !in [records[i]] + tail && 0 <= k < |[records[i]] + tail| ==>
      x.createdAt <= ([records[i]] + tail)[k].createdAt
  {
    var r := [records[i]] + tail;
    NewestBoundsTail(records, i, rest, tail);
    forall a, b | 0 <= a < b < |r|
      ensures r[a].createdAt >= r[b].createdAt
    {
      assert r[b] == tail[b - 1];
      if a > 0 {
        assert r[a] == tail[a - 1];
      }
    }
    forall x, k | x in records && x !in r && 0 <= k < |r|
      ensures x.createdAt <= r[k].createdAt
    {
      var j :| 0 <= j < |records| && records[j] == x;
      assert x in rest && x !in tail;
      if k > 0 {
        assert r[k] == tail[k - 1];
      }
    }
  }

  /** Everything taken from the rest is no newer than the newest record, and the newest record
      together with them still comes from the table. */
  lemma NewestBoundsTail(records: seq<ContactRecord>, i: nat, rest: seq<ContactRecord>, tail: seq<ContactRecord>)
    requires i < |records|
    requires forall j :: 0 <= j < |records| ==> records[j].createdAt <= records[i].createdAt
    requires multiset(rest) + multiset{records[i]} == multiset(records)
    requires multiset(tail) <= multiset(rest)
    ensures multiset([records[i]] + tail) <= multiset(records)
    ensures forall k :: 0 <= k < |tail| ==> tail[k].createdAt <= records[i].createdAt
  {
    assert multiset([records[i]] + tail) == multiset{records[i]} + multiset(tail);
    forall k | 0 <= k < |tail|
      ensures tail[k].createdAt <= records[i].createdAt
    {
      assert tail[k] in multiset(tail);
      assert tail[k] in multiset(records);
      var j :| 0 <= j < |records| && records[j] == tail[k];
    }
  }

  datatype ListReply = ListReply(status: int, records: Option<seq<ContactRecord>>, error: Option<string>)

  /** GET. `table` is the stored records, or what the query threw. */
  function List(table: Result<seq<ContactRecord>, Thrown>): (reply: ListReply)
    ensures reply.status == 200 <==> table.Ok?
    ensures table.Ok? ==> reply.records == Some(TakeNewest(table.value, ListLimit))
    ensures table.Err? ==> reply.status == 500 && reply.error == Some(ServerErrorMessage)
  {
    match table
    case Ok(records) => ListReply(200, Some(TakeNewest(records, ListLimit)), None)
    case Err(_) => ListReply(500, None, Some(ServerErrorMessage))
  }

  /** The list holds at most ten records, newest first, each taken from the table, and no record
      left out is newer than one listed. */
  lemma ListNewestFirst(records: seq<ContactRecord>)
    ensures |TakeNewest(records, ListLimit)| <= ListLimit
    ensures |records| >= ListLimit ==> |TakeNewest(records, ListLimit)| == ListLimit
    ensures forall x :: x in TakeNewest(records, ListLimit) ==> x in records
  {
    var r := TakeNewest(records, ListLimit);
    forall x | x in r
      ensures x in records
    {
      assert x in multiset(r);
    }
  }
}
