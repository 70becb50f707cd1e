/**
 * The stand-alone Express API of `backend/app.js`: request validation and
 * defaulting for events and registrations, the id parsing in front of the
 * `:id` routes, and the query builder of `GET /registrations`.
 *
 * The database is not modelled: the rows a query returns (or its rejection)
 * are an input, and each handler's outcome lists the statements it sent.
 */
module LegacyApi {
  import opened Wrappers
  import opened Js
  import opened SqlText
  import opened Http

  /** The statements the handlers send, with the values they bind. */
  datatype Statement =
    | SelectEvent(id: int)
    | InsertEvent(values: seq<JsValue>)
    | UpdateEvent(values: seq<JsValue>)
    | DeleteEvent(id: int)
    | SelectRegistrations(sql: string, values: seq<JsValue>)
    | InsertRegistration(values: seq<JsValue>)
    | UpdateRegistration(values: seq<JsValue>)

  /** A handler's reply and the statements it sent, in order. */
  datatype Outcome = Outcome(reply: Reply, statements: seq<Statement>)

  /** `req.body || {}`: a request without a parsed body reads as an empty object. */
  function Fields(body: Option<map<string, JsValue>>): map<string, JsValue> {
    match body
    case None => map[]
    case Some(b) => b
  }

  // ---------------------------------------------------------------------
  // GET /registrations
  // ---------------------------------------------------------------------

  /** The condition on `column` bound to parameter `i`. */
  function Condition(column: string, i: nat): string {
    column + " = " + Param(i)
  }

  /** The filters present in the query string, as the columns they compare. */
  function FilterColumns(userId: JsValue, eventId: JsValue): seq<string> {
    (if Truthy(userId) then ["user_id"] else []) + (if Truthy(eventId) then ["event_id"] else [])
  }

  /** The conditions on `columns`, the `j`-th bound to parameter `j + 1`. */
  function Conditions(columns: seq<string>): (r: seq<string>)
    ensures |r| == |columns|
    decreases |columns|
  {
    if |columns| == 0 then []
    else Conditions(columns[..|columns| - 1]) + [Condition(columns[|columns| - 1], |columns|)]
  }

  /** The `WHERE` part of the registrations query; empty without filters. */
  function WhereText(columns: seq<string>): string {
    if |columns| > 0 then " WHERE " + Join(Conditions(columns), " AND ") else ""
  }

  /** The registrations query that filters on `columns`. */
  function RegistrationsSql(columns: seq<string>): string {
    "SELECT * FROM registrations" + WhereText(columns) + " ORDER BY created_at DESC"
  }

  /** The truthy filter values, in the order they are bound. */
  function FilterValues(userId: JsValue, eventId: JsValue): (r: seq<JsValue>)
    ensures |r| == |FilterColumns(userId, eventId)|
  {
    (if Truthy(userId) then [userId] else []) + (if Truthy(eventId) then [eventId] else [])
  }

  /**
   * The query builder of GET /registrations: `user_id` always binds `$1`,
   * `event_id` binds the next free number, and the conditions are joined
   * after `WHERE`. Every placeholder has a value and every value a
   * placeholder, numbered in push order.
   */
  method BuildRegistrationsQuery(userId: JsValue, eventId: JsValue) returns (query: string, values: seq<JsValue>)
    ensures query == RegistrationsSql(FilterColumns(userId, eventId))
    ensures values == FilterValues(userId, eventId)
    ensures Placeholders(query) == Upto(|values|)
  {
    query := "SELECT * FROM registrations";
    var conditions;
    conditions, values := CollectConditions(userId, eventId);
    ghost var columns := FilterColumns(userId, eventId);
    if |conditions| > 0 {
      query := query + " WHERE " + Join(conditions, " AND ");
      ConcatAssoc("SELECT * FROM registrations", " WHERE ", Join(conditions, " AND "));
    }
    ghost var filtered := query;
    query := query + " ORDER BY created_at DESC";
    RegistrationsQueryDone(userId, eventId, columns, filtered, values);
  }

  /**
   * The two `if`s of the builder: `user_id` pushes `user_id = $1`, then
   * `event_id` pushes a condition on the next free number, each with its value.
   */
  method CollectConditions(userId: JsValue, eventId: JsValue) returns (conditions: seq<string>, values: seq<JsValue>)
    ensures conditions == Conditions(FilterColumns(userId, eventId))
    ensures values == FilterValues(userId, eventId)
  {
    values := [];
    conditions := [];
    ghost var columns: seq<string> := [];
    if Truthy(userId) {
      conditions := conditions + ["user_id = $1"];
      values := values + [userId];
      columns := ["user_id"];
      assert conditions == Conditions(columns) by {
        assert columns[..0] == [];
        UserCondition();
      }
    }
    if Truthy(eventId) {
      var index := |values| + 1;
      assert "event_id = $" + NatToDecimal(index) == Condition("event_id", index);
      conditions := conditions + ["event_id = $" + NatToDecimal(index)];
      values := values + [eventId];
      ghost var before := columns;
      columns := columns + ["event_id"];
      assert columns[..|columns| - 1] == before;
    }
    assert columns == FilterColumns(userId, eventId);
  }

  /** Appending the ordering to the filtered select gives the registrations query, numbered 1 to n. */
  lemma RegistrationsQueryDone(userId: JsValue, eventId: JsValue, columns: seq<string>, filtered: string, values: seq<JsValue>)
    requires columns == FilterColumns(userId, eventId) && values == FilterValues(userId, eventId)
    requires filtered == "SELECT * FROM registrations" + WhereText(columns)
    ensures filtered + " ORDER BY created_at DESC" == RegistrationsSql(columns)
    ensures Placeholders(filtered + " ORDER BY created_at DESC") == Upto(|values|)
  {
    FilterColumnsPlain(userId, eventId);
    RegistrationsPlaceholders(columns);
  }

  /** Both filter columns are plain names. */
  lemma FilterColumnsPlain(userId: JsValue, eventId: JsValue)
    ensures forall c :: c in FilterColumns(userId, eventId) ==> PlainColumn(c)
  {
    assert PlainColumn("user_id");
    assert PlainColumn("event_id");
  }

  /** Concatenation regroups. */
  lemma ConcatAssoc(a: string, b: string, c: string)
    ensures a + b + c == a + (b + c)
  {
  }

  /** A column name that can stand in a condition: it starts with a letter and has no `$`. */
  predicate PlainColumn(c: string) {
    StartsClear(c) && DollarFree(c)
  }

  /** The conditions on plain columns refer to 1, 2, ... in order. */
  lemma {:induction false} ConditionsRefs(columns: seq<string>)
    requires forall c :: c in columns ==> PlainColumn(c)
    ensures PlaceholdersOfParts(Conditions(columns)) == Upto(|columns|)
    ensures forall c :: c in Conditions(columns) ==> StartsClear(c)
    decreases |columns|
  {
    if |columns| > 0 {
      var n := |columns|;
      var init := columns[..n - 1];
      var col := columns[n - 1];
      assert forall c :: c in init ==> c in columns;
      assert col in columns;
      ConditionsRefs(init);
      var cond := Condition(col, n);
      PlaceholdersAround(col + " = ", n, "");
      assert col + " = " + Param(n) + "" == cond;
      PlaceholdersOfPartsConcat(Conditions(init), [cond]);
      assert PlaceholdersOfParts([cond]) == Placeholders(cond) by {
        assert [cond][1..] == [];
      }
      assert Upto(n) == Upto(n - 1) + [n];
    }
  }

  /** The `WHERE` part refers to the parameters 1 to the number of filters, in order, and starts with a space. */
  lemma WherePlaceholders(columns: seq<string>)
    requires forall c :: c in columns ==> PlainColumn(c)
    ensures Placeholders(WhereText(columns)) == Upto(|columns|)
    ensures WhereText(columns) == [] || WhereText(columns)[0] == ' '
  {
    ConditionsRefs(columns);
    if |columns| > 0 {
      var cs := Conditions(columns);
      var joined := Join(cs, " AND ");
      assert cs[0] in cs;
      JoinStart(cs, " AND ");
      PlaceholdersJoin(cs, " AND ");
      PlaceholdersConcat(" WHERE ", joined);
      PlaceholdersNone(" WHERE ");
    }
  }

  /** The first user condition is written out as `user_id = $1`. */
  lemma UserCondition()
    ensures Condition("user_id", 1) == "user_id = $1"
  {
    assert NatToDecimal(1) == "1";
  }

  /** The fixed text before the conditions refers to no parameter. */
  lemma HeadClear()
    ensures Placeholders("SELECT * FROM registrations") == []
  {
    HeadDollarFree();
    PlaceholdersNone("SELECT * FROM registrations");
  }

  /** The fixed text before the conditions has no `$`. */
  lemma HeadDollarFree()
    ensures DollarFree("SELECT * FROM registrations")
  {
  }

  /** The fixed text after the conditions refers to no parameter. */
  lemma TailClear()
    ensures Placeholders(" ORDER BY created_at DESC") == []
  {
    TailDollarFree();
    PlaceholdersNone(" ORDER BY created_at DESC");
  }

  /** The fixed text after the conditions has no `$`. */
  lemma TailDollarFree()
    ensures DollarFree(" ORDER BY created_at DESC")
  {
  }

  /** The registrations query refers to exactly the parameters 1 to the number of filters, in order. */
  lemma RegistrationsPlaceholders(columns: seq<string>)
    requires forall c :: c in columns ==> PlainColumn(c)
    ensures Placeholders(RegistrationsSql(columns)) == Upto(|columns|)
  {
    var head := "SELECT * FROM registrations";
    var tail := " ORDER BY created_at DESC";
    var where := WhereText(columns);
    WherePlaceholders(columns);
    HeadClear();
    TailClear();
    PlaceholdersConcat(head, where);
    PlaceholdersConcat(head + where, tail);
    assert Placeholders(head) + Upto(|columns|) + Placeholders(tail) == Upto(|columns|);
  }

  /** With neither filter the query is the plain listing and binds nothing. */
  lemma RegistrationsUnfiltered(userId: JsValue, eventId: JsValue)
    requires !Truthy(userId) && !Truthy(eventId)
    ensures RegistrationsSql(FilterColumns(userId, eventId)) == "SELECT * FROM registrations ORDER BY created_at DESC"
    ensures FilterValues(userId, eventId) == []
  {
    assert FilterColumns(userId, eventId) == [];
    UnfilteredSql();
  }

  /** The registrations query with no filter column, written out. */
  lemma UnfilteredSql()
    ensures RegistrationsSql([]) == "SELECT * FROM registrations ORDER BY created_at DESC"
  {
    assert WhereText([]) == "";
  }

  /** A user filter is parameter 1, bound to the user id. */
  lemma UserIdBinding(userId: JsValue, eventId: JsValue)
    requires Truthy(userId)
    ensures FilterValues(userId, eventId)[0] == userId
    ensures Conditions(FilterColumns(userId, eventId))[0] == "user_id = " + Param(1)
  {
    var cols := FilterColumns(userId, eventId);
    assert cols[0] == "user_id";
    ConditionsAt(cols, 0);
  }

  /**
   * An event filter takes the next number: parameter 2 next to a user
   * filter, parameter 1 alone, bound at the position its placeholder names.
   */
  lemma EventIdBinding(userId: JsValue, eventId: JsValue)
    requires Truthy(eventId)
    ensures var n := |FilterValues(userId, eventId)|;
      && n == (if Truthy(userId) then 2 else 1)
      && FilterValues(userId, eventId)[n - 1] == eventId
      && Conditions(FilterColumns(userId, eventId))[n - 1] == "event_id = " + Param(n)
  {
    var cols := FilterColumns(userId, eventId);
    var n := |cols|;
    assert cols[n - 1] == "event_id";
    ConditionsAt(cols, n - 1);
  }

  /** The `j`-th condition compares the `j`-th column with parameter `j + 1`. */
  lemma {:induction false} ConditionsAt(columns: seq<string>, j: nat)
    requires j < |columns|
    ensures Conditions(columns)[j] == Condition(columns[j], j + 1)
    decreases |columns|
  {
    var n := |columns|;
    if j < n - 1 {
      ConditionsAt(columns[..n - 1], j);
    }
  }

  /** The list handler: run the built query; a rejected query is 500. */
  function ListRegistrations(userId: JsValue, eventId: JsValue, rows: Answer<seq<JsValue>>): Outcome {
    var stmt := SelectRegistrations(RegistrationsSql(FilterColumns(userId, eventId)), FilterValues(userId, eventId));
    match rows
    case Thrown => Outcome(Error(500, "Failed to fetch registrations"), [stmt])
    case Ok(_) => Outcome(Data(200), [stmt])
  }

  /**
   * The list handler sends the one built query, whose placeholders are
   * exactly 1..n for its n values, and answers 500 exactly when the query
   * is rejected.
   */
  lemma ListRegistrationsReply(userId: JsValue, eventId: JsValue, rows: Answer<seq<JsValue>>)
    ensures var o := ListRegistrations(userId, eventId, rows);
      && |o.statements| == 1 && o.statements[0].SelectRegistrations?
      && Placeholders(o.statements[0].sql) == Upto(|o.statements[0].values|)
      && (o.reply.status == 500 <==> rows.Thrown?)
      && (rows.Thrown? ==> o.reply.error == Some("Failed to fetch registrations"))
  {
    var columns := FilterColumns(userId, eventId);
    var values := FilterValues(userId, eventId);
    var stmt := SelectRegistrations(RegistrationsSql(columns), values);
    assert ListRegistrations(userId, eventId, rows).statements == [stmt];
    FilterColumnsPlain(userId, eventId);
    RegistrationsPlaceholders(columns);
    assert |values| == |columns|;
  }

  // ---------------------------------------------------------------------
  // Events
  // ---------------------------------------------------------------------

  /** `parseInt(req.params.id, 10)`, with NaN as `None`. */
  function ParseId(text: string): Option<int> {
    ParseInt10(text)
  }

  /** The minimal required fields of an event: title, start time and organizer. */
  predicate HasRequiredEventFields(b: map<string, JsValue>) {
    Truthy(Field(b, "title")) && Truthy(Field(b, "start_time")) && Truthy(Field(b, "organizer_id"))
  }

  /** `x || null` */
  function OrNull(v: JsValue): JsValue {
    Or(v, JNull)
  }

  /** The eight column values that create and update bind, optional fields defaulted to null. */
  function EventValues(b: map<string, JsValue>): (r: seq<JsValue>)
    ensures |r| == 8
  {
    [Field(b, "title"), OrNull(Field(b, "description")), OrNull(Field(b, "faculty")),
     OrNull(Field(b, "event_type")), Field(b, "start_time"), OrNull(Field(b, "end_time")),
     OrNull(Field(b, "location")), Field(b, "organizer_id")]
  }

  /** The optional columns and their places among the bound values. */
  const OptionalColumns: seq<(nat, string)> :=
    [(1, "description"), (2, "faculty"), (3, "event_type"), (5, "end_time"), (6, "location")]

  /**
   * The required fields are bound as sent; an optional field is bound as
   * sent when truthy and as null otherwise, in particular when absent.
   */
  lemma EventValuesDefaults(b: map<string, JsValue>)
    ensures EventValues(b)[0] == Field(b, "title")
    ensures EventValues(b)[4] == Field(b, "start_time")
    ensures EventValues(b)[7] == Field(b, "organizer_id")
    ensures forall e :: e in OptionalColumns ==>
      EventValues(b)[e.0] == (if Truthy(Field(b, e.1)) then Field(b, e.1) else JNull)
    ensures forall e :: e in OptionalColumns && e.1 !in b ==> EventValues(b)[e.0] == JNull
  {
  }

  /** GET /events/:id */
  function GetEvent(idText: string, rows: Answer<seq<JsValue>>): Outcome {
    match ParseId(idText)
    case None => Outcome(Error(400, "Invalid event id"), [])
    case Some(id) =>
      match rows
      case Thrown => Outcome(Error(500, "Failed to fetch event"), [SelectEvent(id)])
      case Ok(rs) =>
        if |rs| == 0 then Outcome(Error(404, "Event not found"), [SelectEvent(id)])
        else Outcome(Data(200), [SelectEvent(id)])
  }

  /** PUT /events/:id */
  function PutEvent(idText: string, body: Option<map<string, JsValue>>, rows: Answer<seq<JsValue>>): Outcome {
    match ParseId(idText)
    case None => Outcome(Error(400, "Invalid event id"), [])
    case Some(id) =>
      var b := Fields(body);
      if !HasRequiredEventFields(b) then Outcome(Error(400, "Missing required fields"), [])
      else
        var stmt := UpdateEvent(EventValues(b) + [JNum(id)]);
        match rows
        case Thrown => Outcome(Error(500, "Failed to update event"), [stmt])
        case Ok(rs) =>
          if |rs| == 0 then Outcome(Error(404, "Event not found"), [stmt])
          else Outcome(Data(200), [stmt])
  }

  /** DELETE /events/:id */
  function DeleteEvent(idText: string, rows: Answer<seq<JsValue>>): Outcome {
    match ParseId(idText)
    case None => Outcome(Error(400, "Invalid event id"), [])
    case Some(id) =>
      match rows
      case Thrown => Outcome(Error(500, "Failed to delete event"), [Statement.DeleteEvent(id)])
      case Ok(rs) =>
        if |rs| == 0 then Outcome(Error(404, "Event not found"), [Statement.DeleteEvent(id)])
        else Outcome(Data(200), [Statement.DeleteEvent(id)])
  }

  /** POST /events */
  function PostEvent(body: Option<map<string, JsValue>>, rows: Answer<seq<JsValue>>): Outcome {
    var b := Fields(body);
    if !HasRequiredEventFields(b) then Outcome(Error(400, "Missing required fields"), [])
    else
      var stmt := InsertEvent(EventValues(b));
      match rows
      case Thrown => Outcome(Error(500, "Failed to create event"), [stmt])
      case Ok(_) => Outcome(Data(201), [stmt])
  }

  /** An id that parseInt cannot read is 400 on every `:id` route, before any statement is sent. */
  lemma InvalidIdRejected(idText: string, body: Option<map<string, JsValue>>, rows: Answer<seq<JsValue>>)
    requires ParseId(idText) == None
    ensures GetEvent(idText, rows) == Outcome(Error(400, "Invalid event id"), [])
    ensures PutEvent(idText, body, rows) == Outcome(Error(400, "Invalid event id"), [])
    ensures DeleteEvent(idText, rows) == Outcome(Error(400, "Invalid event id"), [])
    ensures PutRegistration(idText, body, rows) == Outcome(Error(400, "Invalid registration id"), [])
  {
  }

  /**
   * parseInt reads the leading number, so an id made of an integer's
   * decimal text and then a non-digit, such as "12abc", is accepted as that
   * integer.
   */
  lemma TrailingTextIdAccepted(n: int, r: string)
    requires r == [] || !IsDigit(r[0])
    ensures ParseId(IntToDecimal(n) + r) == Some(n)
    ensures ParseId("12abc") == Some(12)
  {
    ParseIntIgnoresTrailingText(n, r);
    assert IntToDecimal(12) == NatToDecimal(1) + [DigitChar(2)] == "12";
    assert "12abc" == IntToDecimal(12) + "abc";
    ParseIntIgnoresTrailingText(12, "abc");
  }

  /**
   * Create and update reject a body missing title, start time or organizer
   * with 400 and send nothing; a complete body is bound with its optional
   * fields defaulted.
   */
  lemma RequiredEventFieldsChecked(idText: string, body: Option<map<string, JsValue>>, rows: Answer<seq<JsValue>>)
    requires ParseId(idText).Some?
    ensures !HasRequiredEventFields(Fields(body)) ==>
      && PostEvent(body, rows) == Outcome(Error(400, "Missing required fields"), [])
      && PutEvent(idText, body, rows) == Outcome(Error(400, "Missing required fields"), [])
    ensures HasRequiredEventFields(Fields(body)) ==>
      && PostEvent(body, rows).statements == [InsertEvent(EventValues(Fields(body)))]
      && PutEvent(idText, body, rows).statements
         == [UpdateEvent(EventValues(Fields(body)) + [JNum(ParseId(idText).value)])]
  {
  }

  /** An update or delete that returns no row is 404; one reading no row is 404 too. */
  lemma NoRowNotFound(idText: string, body: Option<map<string, JsValue>>)
    requires ParseId(idText).Some?
    ensures GetEvent(idText, Ok([])).reply == Error(404, "Event not found")
    ensures DeleteEvent(idText, Ok([])).reply == Error(404, "Event not found")
    ensures HasRequiredEventFields(Fields(body)) ==> PutEvent(idText, body, Ok([])).reply == Error(404, "Event not found")
    ensures StatusAccepted(Field(Fields(body), "status")) ==>
      PutRegistration(idText, body, Ok([])).reply == Error(404, "Registration not found")
  {
  }

  // ---------------------------------------------------------------------
  // Registrations
  // ---------------------------------------------------------------------

  /** `status || "registered"` */
  function FinalStatus(status: JsValue): JsValue {
    Or(status, JStr("registered"))
  }

  /** POST /registrations */
  function PostRegistration(body: Option<map<string, JsValue>>, rows: Answer<seq<JsValue>>): Outcome {
    var b := Fields(body);
    var userId := Field(b, "user_id");
    var eventId := Field(b, "event_id");
    if !Truthy(userId) || !Truthy(eventId) then Outcome(Error(400, "Missing user_id or event_id"), [])
    else
      var stmt := InsertRegistration([userId, eventId, FinalStatus(Field(b, "status"))]);
      match rows
      case Thrown => Outcome(Error(500, "Failed to create registration"), [stmt])
      case Ok(_) => Outcome(Data(201), [stmt])
  }

  /**
   * A registration needs a user and an event, or it is 400 with nothing sent;
   * a missing or falsy status is stored as "registered", any other status as
   * sent (creation does not check it against the allowed values).
   */
  lemma RegistrationDefaults(body: Option<map<string, JsValue>>, rows: Answer<seq<JsValue>>)
    ensures var b := Fields(body);
      !Truthy(Field(b, "user_id")) || !Truthy(Field(b, "event_id")) ==>
        PostRegistration(body, rows) == Outcome(Error(400, "Missing user_id or event_id"), [])
    ensures var b := Fields(body);
      Truthy(Field(b, "user_id")) && Truthy(Field(b, "event_id")) ==>
        PostRegistration(body, rows).statements
          == [InsertRegistration([Field(b, "user_id"), Field(b, "event_id"),
                                  if Truthy(Field(b, "status")) then Field(b, "status") else JStr("registered")])]
  {
  }

  /** The statuses an update may set. */
  predicate StatusAccepted(status: JsValue) {
    status == JStr("registered") || status == JStr("cancelled")
  }

  /** PUT /registrations/:id */
  function PutRegistration(idText: string, body: Option<map<string, JsValue>>, rows: Answer<seq<JsValue>>): Outcome {
    match ParseId(idText)
    case None => Outcome(Error(400, "Invalid registration id"), [])
    case Some(id) =>
      var status := Field(Fields(body), "status");
      if !Truthy(status) || (status != JStr("registered") && status != JStr("cancelled")) then
        Outcome(Error(400, "Invalid status"), [])
      else
        var stmt := UpdateRegistration([status, JNum(id)]);
        match rows
        case Thrown => Outcome(Error(500, "Failed to update registration"), [stmt])
        case Ok(rs) =>
          if |rs| == 0 then Outcome(Error(404, "Registration not found"), [stmt])
          else Outcome(Data(200), [stmt])
  }

  /** A status update is refused with 400, sending nothing, exactly when the status is not one of the two allowed values. */
  lemma StatusWhitelist(idText: string, body: Option<map<string, JsValue>>, rows: Answer<seq<JsValue>>)
    requires ParseId(idText).Some?
    ensures PutRegistration(idText, body, rows) == Outcome(Error(400, "Invalid status"), [])
        <==> !StatusAccepted(Field(Fields(body), "status"))
  {
    var status := Field(Fields(body), "status");
    var o := PutRegistration(idText, body, rows);
    if StatusAccepted(status) {
      AcceptedTruthy(status);
      assert |o.statements| == 1;
    } else {
      assert o == Outcome(Error(400, "Invalid status"), []);
    }
  }

  /** Both allowed statuses are truthy. */
  lemma AcceptedTruthy(status: JsValue)
    requires StatusAccepted(status)
    ensures Truthy(status)
  {
    assert "registered" != "" && "cancelled" != "";
  }
}
