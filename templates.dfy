/**
 * The saved-template collection route (GET and POST /api/templates): both check the
 * session and look the user up; GET lists the user's templates, most recently
 * updated first, and POST validates a new template, fills in its defaults and
 * stores it.
 *
 * The session, the JSON body and the database are inputs: a `Db` holds the users
 * by e-mail and the template rows, `up` is false when a query throws, and the
 * row creation is an oracle that returns the new row's id and creation time, or
 * None when Prisma rejects the data.
 */
module Templates {
  import opened Wrappers
  import opened JsText

  // ---------------------------------------------------------------------------
  // JSON values

  /** A JSON value; numbers are integers here. */
  datatype Json =
    | JNull
    | JBool(b: bool)
    | JNum(n: int)
    | JStr(s: string)
    | JArr(items: seq<Json>)
    | JObj(members: map<string, Json>)

  /** JavaScript truthiness of a value that may be undefined (None). */
  predicate Truthy(v: Option<Json>) {
    match v
    case None => false
    case Some(JNull) => false
    case Some(JBool(b)) => b
    case Some(JNum(n)) => n != 0
    case Some(JStr(s)) => s != ""
    case Some(JArr(_)) => true
    case Some(JObj(_)) => true
  }

  /** `v || fallback`. */
  function OrDefault(v: Option<Json>, fallback: Json): (r: Json)
    ensures Truthy(v) ==> Some(r) == v
    ensures !Truthy(v) ==> r == fallback
  {
    if Truthy(v) then v.value else fallback
  }

  /** The stored value is never falsy when the default is truthy: an explicit `0`,
   *  `""`, `false` or `null` is replaced just like a missing member. */
  lemma OrDefaultTruthy(v: Option<Json>, fallback: Json)
    requires Truthy(Some(fallback))
    ensures Truthy(Some(OrDefault(v, fallback)))
    ensures OrDefault(Some(OrDefault(v, fallback)), fallback) == OrDefault(v, fallback)
  {
  }

  /** A member of the destructured body: undefined when missing or when the body is
   *  not an object. */
  function Member(body: Json, key: string): (r: Option<Json>)
    ensures r.Some? ==> body.JObj? && key in body.members && r.value == body.members[key]
    ensures body.JObj? && key in body.members ==> r == Some(body.members[key])
  {
    if body.JObj? && key in body.members then Some(body.members[key]) else None
  }

  // ---------------------------------------------------------------------------
  // Sessions, users and rows

  datatype SessionUser = SessionUser(email: Option<string>)
  datatype Session = Session(user: Option<SessionUser>)

  /** `session?.user?.email` when it is truthy. */
  function SessionEmail(session: Option<Session>): (r: Option<string>)
    ensures r.Some? ==> r.value != "" && session.Some? && session.value.user.Some? && session.value.user.value.email == r
    ensures (session.Some? && session.value.user.Some? && session.value.user.value.email.Some?
             && session.value.user.value.email.value != "") ==> r == session.value.user.value.email
  {
    if session.Some? && session.value.user.Some? && session.value.user.value.email.Some?
       && session.value.user.value.email.value != ""
    then session.value.user.value.email
    else None
  }

  datatype User = User(id: string, email: string)

  /** A row of the template table. */
  datatype Template = Template(
    id: string, userId: string, name: string, backgroundData: Json,
    fieldsPage1: Json, fieldsPage2: Json, excelHeaders: Json,
    canvasWidth: Json, canvasHeight: Json, createdAt: int, updatedAt: int)

  /** The columns GET selects. */
  datatype Summary = Summary(id: string, name: string, canvasWidth: Json, canvasHeight: Json, createdAt: int, updatedAt: int)

  datatype Db = Db(users: map<string, User>, templates: seq<Template>, up: bool)

  /** The data POST asks Prisma to store. */
  datatype NewTemplate = NewTemplate(
    userId: string, name: string, backgroundData: Json,
    fieldsPage1: Json, fieldsPage2: Json, excelHeaders: Json,
    canvasWidth: Json, canvasHeight: Json)

  /** `prisma.template.create`: the new id and creation time, or None when it throws. */
  type Creator = NewTemplate -> Option<(string, int)>

  const UnauthorizedError := "No autorizado"
  const UserNotFoundError := "Usuario no encontrado"
  const NameRequiredError := "El nombre de la plantilla es requerido"
  const BackgroundRequiredError := "Los datos del fondo son requeridos"
  const InternalError := "Error interno del servidor"
  const CreatedMessage := "Plantilla creada exitosamente"
  const DefaultCanvasWidth := 2000
  const DefaultCanvasHeight := 1414

  datatype Reply =
    | Failure(status: int, error: string)
    | Listed(templates: seq<Summary>)
    | Created(message: string, id: string, name: string, createdAt: int)

  function Status(r: Reply): int {
    match r
    case Failure(status, _) => status
    case Listed(_) => 200
    case Created(_, _, _, _) => 201
  }

  /** Both handlers start the same way: 401 without a session e-mail, 500 when the
   *  lookup throws, 404 when no user has that e-mail. */
  function Authenticate(session: Option<Session>, db: Db): (r: Result)
    ensures r.Found? ==>
      && SessionEmail(session).Some? && db.up
      && SessionEmail(session).value in db.users && r.user == db.users[SessionEmail(session).value]
    ensures SessionEmail(session).None? ==> r == Refused(Failure(401, UnauthorizedError))
    ensures SessionEmail(session).Some? && !db.up ==> r == Refused(Failure(500, InternalError))
    ensures SessionEmail(session).Some? && db.up && SessionEmail(session).value !in db.users ==>
      r == Refused(Failure(404, UserNotFoundError))
    ensures SessionEmail(session).Some? && db.up && SessionEmail(session).value in db.users ==>
      r == Found(db.users[SessionEmail(session).value])
  {
    match SessionEmail(session)
    case None => Refused(Failure(401, UnauthorizedError))
    case Some(email) =>
      if !db.up then Refused(Failure(500, InternalError))
      else if email !in db.users then Refused(Failure(404, UserNotFoundError))
      else Found(db.users[email])
  }

  datatype Result = Refused(reply: Reply) | Found(user: User)

  // ---------------------------------------------------------------------------
  // GET

  predicate SortedByUpdateDesc(s: seq<Template>) {
    forall i, j :: 0 <= i < j < |s| ==> s[i].updatedAt >= s[j].updatedAt
  }

  /** Inserting a row before the first row updated no later than it. */
  function InsertByUpdate(t: Template, s: seq<Template>): (r: seq<Template>)
    ensures multiset(r) == multiset(s) + multiset{t}
    ensures forall x :: x in r ==> x == t || x in s
  {
    if s == [] || t.updatedAt >= s[0].updatedAt then [t] + s
    else
      assert s == [s[0]] + s[1..];
      [s[0]] + InsertByUpdate(t, s[1..])
  }

  /** Insertion keeps the order. */
  lemma {:induction false} InsertByUpdateSorted(t: Template, s: seq<Template>)
    requires SortedByUpdateDesc(s)
    ensures SortedByUpdateDesc(InsertByUpdate(t, s))
  {
    if s != [] && t.updatedAt < s[0].updatedAt {
      var rest := InsertByUpdate(t, s[1..]);
      InsertByUpdateSorted(t, s[1..]);
      assert forall x :: x in s[1..] ==> x.updatedAt <= s[0].updatedAt;
      var r := [s[0]] + rest;
      forall i, j | 0 <= i < j < |r|
        ensures r[i].updatedAt >= r[j].updatedAt
      {
        if i > 0 {
          assert r[i] == rest[i - 1] && r[j] == rest[j - 1];
        } else {
          assert r[j] in rest;
        }
      }
    }
  }

  /** `orderBy: { updatedAt: 'desc' }`; rows with the same time keep their table order. */
  function SortByUpdate(s: seq<Template>): (r: seq<Template>)
    ensures multiset(r) == multiset(s)
  {
    if s == [] then []
    else
      assert s == [s[0]] + s[1..];
      InsertByUpdate(s[0], SortByUpdate(s[1..]))
  }

  /** The sort's result is ordered by update time, most recent first. */
  lemma {:induction false} SortByUpdateSorted(s: seq<Template>)
    ensures SortedByUpdateDesc(SortByUpdate(s))
  {
    if s != [] {
      SortByUpdateSorted(s[1..]);
      InsertByUpdateSorted(s[0], SortByUpdate(s[1..]));
    }
  }

  /** `where: { userId }`. */
  function OwnedBy(s: seq<Template>, userId: string): (r: seq<Template>)
    ensures forall t :: t in r ==> t in s && t.userId == userId
    ensures forall t :: t in s && t.userId == userId ==> t in r
    ensures multiset(r) <= multiset(s)
  {
    if s == [] then []
    else
      assert s == [s[0]] + s[1..];
      (if s[0].userId == userId then [s[0]] else []) + OwnedBy(s[1..], userId)
  }

  function Project(t: Template): Summary {
    Summary(t.id, t.name, t.canvasWidth, t.canvasHeight, t.createdAt, t.updatedAt)
  }

  /** The `select` on every row. */
  function ProjectAll(s: seq<Template>): (r: seq<Summary>)
    ensures |r| == |s| && forall i :: 0 <= i < |s| ==> r[i] == Project(s[i])
  {
    seq(|s|, i requires 0 <= i < |s| => Project(s[i]))
  }

  /** The rows GET lists, before the projection. */
  function ListedRows(db: Db, user: User): seq<Template> {
    SortByUpdate(OwnedBy(db.templates, user.id))
  }

  /** GET /api/templates. */
  function Get(session: Option<Session>, db: Db): Reply {
    match Authenticate(session, db)
    case Refused(reply) => reply
    case Found(user) => Listed(ProjectAll(ListedRows(db, user)))
  }

  /** Without a session e-mail GET answers 401 whatever the database holds, so it
   *  asks the database nothing. */
  lemma GetUnauthorized(session: Option<Session>, db1: Db, db2: Db)
    requires SessionEmail(session).None?
    ensures Get(session, db1) == Get(session, db2) == Failure(401, UnauthorizedError)
  {
  }

  /** An e-mail without a user answers 404, whatever the templates. */
  lemma GetUnknownUser(session: Option<Session>, db: Db, templates: seq<Template>)
    requires SessionEmail(session).Some? && db.up && SessionEmail(session).value !in db.users
    ensures Get(session, db) == Get(session, db.(templates := templates)) == Failure(404, UserNotFoundError)
  {
  }

  /** The listed rows are exactly the caller's rows, each as often as in the table,
   *  most recently updated first. */
  lemma ListedRowsMeaning(db: Db, user: User)
    ensures var rows := ListedRows(db, user);
      && multiset(rows) == multiset(OwnedBy(db.templates, user.id))
      && (forall t :: t in rows <==> t in db.templates && t.userId == user.id)
      && SortedByUpdateDesc(rows)
  {
    var owned := OwnedBy(db.templates, user.id);
    SortByUpdateSorted(owned);
    SameElements(ListedRows(db, user), owned);
  }

  /** Two sequences with the same multiset have the same members. */
  lemma SameElements(a: seq<Template>, b: seq<Template>)
    requires multiset(a) == multiset(b)
    ensures forall t :: t in a <==> t in b
  {
    forall t
      ensures t in a <==> t in b
    {
      assert t in a <==> t in multiset(a);
      assert t in b <==> t in multiset(b);
    }
  }

  /** GET lists exactly when the session's e-mail belongs to a user and the queries
   *  succeed, and then it lists that user's rows in update order, with only the
   *  selected columns. */
  lemma GetListsOwnTemplates(session: Option<Session>, db: Db)
    ensures Get(session, db).Listed? <==>
      SessionEmail(session).Some? && db.up && SessionEmail(session).value in db.users
    ensures Get(session, db).Listed? ==>
      var user := db.users[SessionEmail(session).value];
      var listed := Get(session, db).templates;
      && listed == ProjectAll(ListedRows(db, user))
      && (forall i, j :: 0 <= i < j < |listed| ==> listed[i].updatedAt >= listed[j].updatedAt)
  {
    if Get(session, db).Listed? {
      var user := db.users[SessionEmail(session).value];
      ListedRowsMeaning(db, user);
    }
  }

  // ---------------------------------------------------------------------------
  // POST

  /** The name check: missing or falsy gives None; a string is trimmed; any other
   *  truthy value has no `trim`, which throws. */
  datatype NameCheck = NoName | NotText | Name(trimmed: string)

  function CheckName(name: Option<Json>): (r: NameCheck)
    ensures r.Name? ==> name.Some? && name.value.JStr? && r.trimmed == Trim(name.value.s) && r.trimmed != ""
    ensures r.NoName? <==> !Truthy(name) || (name.value.JStr? && Trim(name.value.s) == "")
    ensures r.NotText? <==> Truthy(name) && !name.value.JStr?
  {
    if !Truthy(name) then NoName
    else if !name.value.JStr? then NotText
    else if Trim(name.value.s) == "" then NoName
    else Name(Trim(name.value.s))
  }

  /** The row POST stores for a body whose name and background passed. */
  function Prepared(userId: string, name: string, body: Json): (row: NewTemplate)
    requires Member(body, "backgroundData").Some?
  {
    NewTemplate(
      userId, name, Member(body, "backgroundData").value,
      OrDefault(Member(body, "fieldsPage1"), JArr([])),
      OrDefault(Member(body, "fieldsPage2"), JArr([])),
      OrDefault(Member(body, "excelHeaders"), JArr([])),
      OrDefault(Member(body, "canvasWidth"), JNum(DefaultCanvasWidth)),
      OrDefault(Member(body, "canvasHeight"), JNum(DefaultCanvasHeight)))
  }

  /** `v || fallback` as stored: a truthy value is kept and anything else becomes the fallback. */
  predicate KeptOrDefault(v: Option<Json>, stored: Json, fallback: Json) {
    && (Truthy(v) ==> Some(stored) == v)
    && (!Truthy(v) ==> stored == fallback)
  }

  /** What one POST ends in, and the row it asked Prisma to create, if any. */
  datatype Posted = Posted(reply: Reply, written: Option<NewTemplate>)

  /** POST /api/templates; `body` is None when it is not valid JSON. */
  function Post(session: Option<Session>, db: Db, body: Option<Json>, create: Creator): Posted {
    match Authenticate(session, db)
    case Refused(reply) => Posted(reply, None)
    case Found(user) =>
      if body.None? || body.value.JNull? then Posted(Failure(500, InternalError), None)
      else
        match CheckName(Member(body.value, "name"))
        case NoName => Posted(Failure(400, NameRequiredError), None)
        case NotText => Posted(Failure(500, InternalError), None)
        case Name(name) =>
          if !Truthy(Member(body.value, "backgroundData")) then Posted(Failure(400, BackgroundRequiredError), None)
          else
            var row := Prepared(user.id, name, body.value);
            match create(row)
            case None => Posted(Failure(500, InternalError), Some(row))
            case Some(created) => Posted(Created(CreatedMessage, created.0, row.name, created.1), Some(row))
  }

  /** Without a session e-mail POST answers 401 before reading the database or the
   *  body, and writes nothing. */
  lemma PostUnauthorized(session: Option<Session>, db: Db, body: Option<Json>, create: Creator)
    requires SessionEmail(session).None?
    ensures Post(session, db, body, create) == Posted(Failure(401, UnauthorizedError), None)
  {
  }

  /** An unknown e-mail answers 404 whatever the body, and writes nothing. */
  lemma PostUnknownUser(session: Option<Session>, db: Db, body: Option<Json>, create: Creator)
    requires SessionEmail(session).Some? && db.up && SessionEmail(session).value !in db.users
    ensures Post(session, db, body, create) == Posted(Failure(404, UserNotFoundError), None)
  {
  }

  /** The name is checked before the background: a missing or blank name answers
   *  400 for the name even when the background is missing too. */
  lemma NameCheckedFirst(session: Option<Session>, db: Db, body: Json, create: Creator)
    requires Authenticate(session, db).Found? && !body.JNull?
    requires CheckName(Member(body, "name")).NoName?
    ensures Post(session, db, Some(body), create) == Posted(Failure(400, NameRequiredError), None)
  {
  }

  /** With a usable name and no background the answer is 400 for the background. */
  lemma BackgroundRequired(session: Option<Session>, db: Db, body: Json, create: Creator)
    requires Authenticate(session, db).Found? && !body.JNull?
    requires CheckName(Member(body, "name")).Name? && !Truthy(Member(body, "backgroundData"))
    ensures Post(session, db, Some(body), create) == Posted(Failure(400, BackgroundRequiredError), None)
  {
  }

  /** Something is written only after both checks passed, and what is written has a
   *  trimmed, non-blank name, belongs to the caller and has no falsy field
   *  (missing or falsy ones became `[]`, 2000 and 1414). */
  lemma PostWrites(session: Option<Session>, db: Db, body: Option<Json>, create: Creator)
    requires Post(session, db, body, create).written.Some?
    ensures var row := Post(session, db, body, create).written.value;
      && Authenticate(session, db).Found? && row.userId == Authenticate(session, db).user.id
      && body.Some? && Member(body.value, "name").Some? && Member(body.value, "name").value.JStr?
      && row.name == Trim(Member(body.value, "name").value.s) && row.name != ""
      && Some(row.backgroundData) == Member(body.value, "backgroundData") && Truthy(Some(row.backgroundData))
      && Truthy(Some(row.fieldsPage1)) && Truthy(Some(row.fieldsPage2)) && Truthy(Some(row.excelHeaders))
      && Truthy(Some(row.canvasWidth)) && Truthy(Some(row.canvasHeight))
      && KeptOrDefault(Member(body.value, "fieldsPage1"), row.fieldsPage1, JArr([]))
      && KeptOrDefault(Member(body.value, "fieldsPage2"), row.fieldsPage2, JArr([]))
      && KeptOrDefault(Member(body.value, "excelHeaders"), row.excelHeaders, JArr([]))
      && KeptOrDefault(Member(body.value, "canvasWidth"), row.canvasWidth, JNum(DefaultCanvasWidth))
      && KeptOrDefault(Member(body.value, "canvasHeight"), row.canvasHeight, JNum(DefaultCanvasHeight))
  {
  }

  /** A 201 carries the new row's id, its stored name and its creation time, and
   *  comes only from a successful create, which answers 500 when it throws. */
  lemma PostCreated(session: Option<Session>, db: Db, body: Option<Json>, create: Creator)
    ensures var p := Post(session, db, body, create);
      && (Status(p.reply) == 201 <==> p.written.Some? && create(p.written.value).Some?)
      && (Status(p.reply) == 201 ==> p.reply == Created(CreatedMessage, create(p.written.value).value.0,
                                                         p.written.value.name, create(p.written.value).value.1))
      && (p.written.Some? && create(p.written.value).None? ==> p.reply == Failure(500, InternalError))
      && Status(p.reply) in {201, 400, 401, 404, 500}
  {
  }

  /** A request that passes the session, the lookup and both checks asks Prisma to
   *  store the prepared row, and the reply is the 201 for the row Prisma created,
   *  or a 500 when creating it throws. Nothing else is written. */
  lemma PostCreatesRow(session: Option<Session>, db: Db, body: Option<Json>, create: Creator)
    ensures var p := Post(session, db, body, create);
      p.written.Some? <==>
        && Authenticate(session, db).Found? && body.Some? && !body.value.JNull?
        && CheckName(Member(body.value, "name")).Name? && Truthy(Member(body.value, "backgroundData"))
    ensures var p := Post(session, db, body, create);
      p.written.Some? ==>
        var row := Prepared(Authenticate(session, db).user.id, CheckName(Member(body.value, "name")).trimmed, body.value);
        && p.written == Some(row)
        && (create(row).Some? ==> p.reply == Created(CreatedMessage, create(row).value.0, row.name, create(row).value.1))
        && (create(row).None? ==> p.reply == Failure(500, InternalError))
  {
  }

  /** Every exception either handler can meet answers 500 and writes nothing: a
   *  failing user lookup, a body that is not JSON, a `null` body (its
   *  destructuring throws) and a truthy name that is not a string (it has no
   *  `trim`). A failing create is the fifth, stated by PostCreatesRow. */
  lemma ThrownErrorsAnswer500(session: Option<Session>, db: Db, body: Option<Json>, create: Creator)
    requires SessionEmail(session).Some?
    ensures !db.up ==> Get(session, db) == Failure(500, InternalError)
    ensures !db.up ==> Post(session, db, body, create) == Posted(Failure(500, InternalError), None)
    ensures Authenticate(session, db).Found? && (body.None? || body.value.JNull?) ==>
      Post(session, db, body, create) == Posted(Failure(500, InternalError), None)
    ensures (Authenticate(session, db).Found? && body.Some? && !body.value.JNull?
             && Truthy(Member(body.value, "name")) && !Member(body.value, "name").value.JStr?) ==>
      Post(session, db, body, create) == Posted(Failure(500, InternalError), None)
  {
  }
}
