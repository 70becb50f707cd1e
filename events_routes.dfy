/**
 * The events router: the WHERE-clause builder behind `GET /api/events`, and
 * the decisions of `POST`, `PUT` and `DELETE` — who may change an event,
 * which statements reach the database, what the reply is, and which
 * real-time notification follows a write.
 *
 * The database is not modelled: each query's settled result is an input
 * (`Answer`), and a handler's outcome lists the statements it sent.
 */
module EventsRoutes {
  import opened Wrappers
  import opened Js
  import opened SqlText
  import opened Http
  import opened RoomTable

  // ---------------------------------------------------------------------
  // buildFilterQuery
  // ---------------------------------------------------------------------

  /** The query-string filters `{ faculty, category, from, to, q }`. */
  datatype Filters = Filters(faculty: JsValue, category: JsValue, from: JsValue, to: JsValue, q: JsValue)

  /** The five filters, in the order the builder considers them. */
  datatype FilterKind = Faculty | Category | From | To | Search

  function Rank(k: FilterKind): nat {
    match k
    case Faculty => 0
    case Category => 1
    case From => 2
    case To => 3
    case Search => 4
  }

  function FilterValue(f: Filters, k: FilterKind): JsValue {
    match k
    case Faculty => f.faculty
    case Category => f.category
    case From => f.from
    case To => f.to
    case Search => f.q
  }

  function When(b: bool, k: FilterKind): seq<FilterKind> {
    if b then [k] else []
  }

  /** The filters that take part: the truthy ones, in the fixed order. */
  function ActiveFilters(f: Filters): seq<FilterKind> {
    When(Truthy(f.faculty), Faculty) + When(Truthy(f.category), Category)
      + When(Truthy(f.from), From) + When(Truthy(f.to), To) + When(Truthy(f.q), Search)
  }

  /** Exactly the truthy filters take part, each once, in the order faculty, category, from, to, q. */
  lemma ActiveFiltersSpec(f: Filters)
    ensures forall k :: k in ActiveFilters(f) <==> Truthy(FilterValue(f, k))
    ensures forall i, j :: 0 <= i < j < |ActiveFilters(f)| ==> Rank(ActiveFilters(f)[i]) < Rank(ActiveFilters(f)[j])
  {
    ActiveFiltersMembers(f);
    ActiveFiltersOrdered(f);
  }

  lemma ActiveFiltersMembers(f: Filters)
    ensures forall k :: k in ActiveFilters(f) <==> Truthy(FilterValue(f, k))
  {
  }

  lemma ActiveFiltersOrdered(f: Filters)
    ensures forall i, j :: 0 <= i < j < |ActiveFilters(f)| ==> Rank(ActiveFilters(f)[i]) < Rank(ActiveFilters(f)[j])
  {
  }

  /** The condition that filter `k` adds when it is the `i`-th parameter. */
  function ClauseText(k: FilterKind, i: nat): string {
    match k
    case Faculty => "faculty = " + Param(i)
    case Category => "category = " + Param(i)
    case From => "start_time >= " + Param(i)
    case To => "start_time <= " + Param(i)
    case Search => "(title ILIKE " + Param(i) + " OR description ILIKE " + Param(i) + ")"
  }

  /** The value bound for filter `k`: the filter itself, or `%q%` for the text search. */
  function Bound(f: Filters, k: FilterKind): JsValue {
    if k == Search then JStr("%" + ToJsString(f.q) + "%") else FilterValue(f, k)
  }

  /**
   * The conditions of the filters `ks`, the `j`-th one numbered `j + 1`. The
   * contract gives only the length; what the conditions refer to is stated
   * by `ClausesRefs` and `FilterQueryPlaceholders`.
   */
  function Clauses(ks: seq<FilterKind>): (r: seq<string>)
    ensures |r| == |ks|
    decreases |ks|
  {
    if |ks| == 0 then [] else Clauses(ks[..|ks| - 1]) + [ClauseText(ks[|ks| - 1], |ks|)]
  }

  /**
   * The values bound for the filters `ks`, in the same order. The contract
   * gives only the length; the values are tied to the built query by
   * `BuildFilterQuery` and `FilterQueryPlaceholders`.
   */
  function BoundValues(f: Filters, ks: seq<FilterKind>): (r: seq<JsValue>)
    ensures |r| == |ks|
    decreases |ks|
  {
    if |ks| == 0 then [] else BoundValues(f, ks[..|ks| - 1]) + [Bound(f, ks[|ks| - 1])]
  }

  /** The clause list of the filters as a WHERE clause, or nothing when it is empty. */
  function WhereOf(clauses: seq<string>): string {
    if |clauses| > 0 then "WHERE " + Join(clauses, " AND ") else ""
  }

  /** The `whereClause` the filters call for. */
  function WhereClause(f: Filters): string {
    WhereOf(Clauses(ActiveFilters(f)))
  }

  /** The `params` the filters call for. */
  function FilterParams(f: Filters): seq<JsValue> {
    BoundValues(f, ActiveFilters(f))
  }

  /** Pushing the condition and value of filter `k` when `b` holds extends both lists at the end. */
  lemma PushFilter(f: Filters, ks: seq<FilterKind>, b: bool, k: FilterKind)
    ensures |ks + When(b, k)| == |ks| + (if b then 1 else 0)
    ensures Clauses(ks + When(b, k)) == if b then Clauses(ks) + [ClauseText(k, |ks| + 1)] else Clauses(ks)
    ensures BoundValues(f, ks + When(b, k)) == if b then BoundValues(f, ks) + [Bound(f, k)] else BoundValues(f, ks)
  {
    if b {
      assert (ks + [k])[..|ks|] == ks;
    } else {
      assert ks + [] == ks;
    }
  }

  /**
   * One step of buildFilterQuery: when filter `k` is truthy, push its
   * condition numbered with the running counter, push its value, and bump
   * the counter. `ks` are the filters pushed so far.
   */
  method AddFilter(f: Filters, k: FilterKind, clauses: seq<string>, params: seq<JsValue>, idx: nat,
                   ghost ks: seq<FilterKind>)
    returns (clauses': seq<string>, params': seq<JsValue>, idx': nat)
    requires clauses == Clauses(ks) && params == BoundValues(f, ks) && idx == |ks| + 1
    ensures var ks' := ks + When(Truthy(FilterValue(f, k)), k);
      clauses' == Clauses(ks') && params' == BoundValues(f, ks') && idx' == |ks'| + 1
  {
    PushFilter(f, ks, Truthy(FilterValue(f, k)), k);
    clauses', params', idx' := clauses, params, idx;
    if Truthy(FilterValue(f, k)) {
      clauses' := clauses' + [ClauseText(k, idx)];
      if k == Search {
        params' := params' + [JStr("%" + ToJsString(f.q) + "%")];
      } else {
        params' := params' + [FilterValue(f, k)];
      }
      idx' := idx' + 1;
    }
  }

  /** buildFilterQuery: the five filter steps in order, then the WHERE clause if any condition was pushed. */
  method BuildFilterQuery(f: Filters) returns (whereClause: string, params: seq<JsValue>)
    ensures whereClause == WhereClause(f)
    ensures params == FilterParams(f)
  {
    var clauses: seq<string> := [];
    var idx: nat := 1;
    params := [];
    ghost var ks0: seq<FilterKind> := [];
    clauses, params, idx := AddFilter(f, Faculty, clauses, params, idx, ks0);
    ghost var ks1 := ks0 + When(Truthy(f.faculty), Faculty);
    clauses, params, idx := AddFilter(f, Category, clauses, params, idx, ks1);
    ghost var ks2 := ks1 + When(Truthy(f.category), Category);
    clauses, params, idx := AddFilter(f, From, clauses, params, idx, ks2);
    ghost var ks3 := ks2 + When(Truthy(f.from), From);
    clauses, params, idx := AddFilter(f, To, clauses, params, idx, ks3);
    ghost var ks4 := ks3 + When(Truthy(f.to), To);
    clauses, params, idx := AddFilter(f, Search, clauses, params, idx, ks4);
    ghost var ks5 := ks4 + When(Truthy(f.q), Search);
    assert ks5 == ActiveFilters(f) by {
      assert ks1 == When(Truthy(f.faculty), Faculty);
    }
    whereClause := if |clauses| > 0 then "WHERE " + Join(clauses, " AND ") else "";
  }

  /** With no truthy filter there is no WHERE clause and nothing to bind. */
  lemma FilterQueryEmpty(f: Filters)
    requires !Truthy(f.faculty) && !Truthy(f.category) && !Truthy(f.from) && !Truthy(f.to) && !Truthy(f.q)
    ensures WhereClause(f) == "" && FilterParams(f) == []
  {
  }

  /** The parameter numbers a filter's condition refers to: the text search refers to its one parameter twice. */
  function ClauseRefs(k: FilterKind, i: nat): seq<nat> {
    if k == Search then [i, i] else [i]
  }

  /** The parameter numbers the conditions of `ks` refer to, in order. */
  function Refs(ks: seq<FilterKind>): seq<nat>
    decreases |ks|
  {
    if |ks| == 0 then [] else Refs(ks[..|ks| - 1]) + ClauseRefs(ks[|ks| - 1], |ks|)
  }

  /** The numbers referred to are exactly 1 to the number of filters. */
  lemma {:induction false} RefsExact(ks: seq<FilterKind>)
    ensures forall p :: p in Refs(ks) <==> 1 <= p <= |ks|
    decreases |ks|
  {
    if |ks| > 0 {
      RefsExact(ks[..|ks| - 1]);
    }
  }

  /** A column comparison `column$<i>` refers to parameter `i` alone. */
  lemma LabelledParam(column: string, i: nat)
    requires StartsClear(column) && DollarFree(column)
    ensures Placeholders(column + Param(i)) == [i] && StartsClear(column + Param(i))
  {
    PlaceholdersAround(column, i, "");
    assert column + Param(i) + "" == column + Param(i);
  }

  /** The text-search condition refers to its parameter twice. */
  lemma SearchClauseRefs(i: nat)
    ensures Placeholders(ClauseText(Search, i)) == [i, i] && StartsClear(ClauseText(Search, i))
  {
    var p := Param(i);
    var x := "(title ILIKE " + p + " OR description ILIKE ";
    var y := p + ")";
    assert ClauseText(Search, i) == x + y;
    PlaceholdersAround("(title ILIKE ", i, " OR description ILIKE ");
    PlaceholdersAround("", i, ")");
    assert "" + p + ")" == y;
    PlaceholdersConcat(x, y);
  }

  /** Each condition refers to the parameter it was numbered with, and starts with a letter or `(`. */
  lemma ClauseTextRefs(k: FilterKind, i: nat)
    ensures Placeholders(ClauseText(k, i)) == ClauseRefs(k, i)
    ensures StartsClear(ClauseText(k, i))
  {
    match k
    case Faculty => LabelledParam("faculty = ", i);
    case Category => LabelledParam("category = ", i);
    case From => LabelledParam("start_time >= ", i);
    case To => LabelledParam("start_time <= ", i);
    case Search => SearchClauseRefs(i);
  }

  /** The conditions of `ks`, read back, refer to `Refs(ks)`. */
  lemma {:induction false} ClausesRefs(ks: seq<FilterKind>)
    ensures PlaceholdersOfParts(Clauses(ks)) == Refs(ks)
    ensures forall c :: c in Clauses(ks) ==> StartsClear(c)
    decreases |ks|
  {
    if |ks| > 0 {
      var init := ks[..|ks| - 1];
      var last := ClauseText(ks[|ks| - 1], |ks|);
      ClausesRefs(init);
      ClauseTextRefs(ks[|ks| - 1], |ks|);
      PlaceholdersOfPartsConcat(Clauses(init), [last]);
      assert PlaceholdersOfParts([last]) == Placeholders(last) by {
        assert [last][1..] == [];
      }
    }
  }

  /** A WHERE clause built from clear conditions refers to their parameters in order. */
  lemma WhereOfRefs(cs: seq<string>)
    requires forall c :: c in cs ==> StartsClear(c)
    ensures Placeholders(WhereOf(cs)) == PlaceholdersOfParts(cs)
  {
    if |cs| > 0 {
      var sep := " AND ";
      assert cs[0] in cs;
      JoinStart(cs, sep);
      PlaceholdersJoin(cs, sep);
      PlaceholdersConcat("WHERE ", Join(cs, sep));
      PlaceholdersNone("WHERE ");
    }
  }

  /**
   * The WHERE clause refers, in push order, to the parameter numbers of its
   * conditions, and those are exactly 1 to the number of bound values: every
   * value is referred to and no placeholder is left without a value.
   */
  lemma FilterQueryPlaceholders(f: Filters)
    ensures Placeholders(WhereClause(f)) == Refs(ActiveFilters(f))
    ensures forall p :: p in Placeholders(WhereClause(f)) <==> 1 <= p <= |FilterParams(f)|
  {
    var ks := ActiveFilters(f);
    ClausesRefs(ks);
    RefsExact(ks);
    WhereOfRefs(Clauses(ks));
  }

  /** The text search binds its value wrapped in `%` and refers to it twice. */
  lemma SearchClause(f: Filters, i: nat)
    ensures Bound(f, Search) == JStr("%" + ToJsString(f.q) + "%")
    ensures Placeholders(ClauseText(Search, i)) == [i, i]
  {
    ClauseTextRefs(Search, i);
  }

  // ---------------------------------------------------------------------
  // POST, PUT and DELETE
  // ---------------------------------------------------------------------

  /** `req.user` as the authentication middleware leaves it. */
  datatype User = User(id: JsValue, role: string)

  /** The statements the handlers send to the database, with their bound values. */
  datatype Statement =
    | OwnerCheck(eventId: JsValue, organizerId: JsValue)
    | InsertEvent(values: seq<JsValue>)
    | UpdateEvent(values: seq<JsValue>)
    | DeleteEvent(eventId: JsValue)

  /** What a handler did: its reply, the statements it sent, and the notifications it broadcast. */
  datatype Outcome = Outcome(reply: Reply, statements: seq<Statement>, broadcasts: seq<Notification>)

  /** The editable columns read from the request body, in the order the statements bind them. */
  function EventColumns(body: map<string, JsValue>): seq<JsValue> {
    [Field(body, "title"), Field(body, "description"), Field(body, "location"),
     Field(body, "faculty"), Field(body, "category"), Field(body, "start_time"), Field(body, "end_time")]
  }

  /** POST /api/events: insert with the caller as organizer, then announce the new row. */
  function CreateEvent(user: User, body: map<string, JsValue>, insert: Answer<EventRow>): Outcome {
    var stmt := InsertEvent([user.id] + EventColumns(body));
    match insert
    case Thrown => Outcome(Error(500, "Server error"), [stmt], [])
    case Ok(row) => Outcome(Data(201), [stmt], [EventCreatedNote(row)])
  }

  /** Whether the ownership rule lets `user` change the event: organizers must own it, other roles skip the check. */
  predicate Authorised(user: User, ownerCheck: Answer<bool>) {
    user.role != "organizer" || ownerCheck == Ok(true)
  }

  /**
   * The ownership gate in front of PUT and DELETE: an organizer's ownership
   * query either fails (500), finds no row (403 with `denied`), or lets
   * `allowed` go ahead; other roles go straight to `allowed`.
   */
  function OwnershipGate(user: User, id: JsValue, ownerCheck: Answer<bool>, denied: string, allowed: Outcome): Outcome {
    if user.role == "organizer" then
      var check := OwnerCheck(id, user.id);
      match ownerCheck
      case Thrown => Outcome(Error(500, "Server error"), [check], [])
      case Ok(owns) =>
        if !owns then Outcome(Error(403, denied), [check], [])
        else Outcome(allowed.reply, [check] + allowed.statements, allowed.broadcasts)
    else allowed
  }

  /** The update itself: no row back is 404; a row back is announced. */
  function ApplyUpdate(id: JsValue, body: map<string, JsValue>, update: Answer<Option<EventRow>>): Outcome {
    var stmt := UpdateEvent(EventColumns(body) + [id]);
    match update
    case Thrown => Outcome(Error(500, "Server error"), [stmt], [])
    case Ok(None) => Outcome(Error(404, "Not found"), [stmt], [])
    case Ok(Some(row)) => Outcome(Data(200), [stmt], [EventUpdatedNote(row)])
  }

  /** PUT /api/events/:id */
  function PutEvent(user: User, id: JsValue, body: map<string, JsValue>,
                    ownerCheck: Answer<bool>, update: Answer<Option<EventRow>>): Outcome {
    OwnershipGate(user, id, ownerCheck, "You can only edit your own events", ApplyUpdate(id, body, update))
  }

  /** The delete itself: the number of rows it removed is not looked at. */
  function ApplyDelete(id: JsValue, deleted: Answer<nat>): Outcome {
    match deleted
    case Thrown => Outcome(Error(500, "Server error"), [DeleteEvent(id)], [])
    case Ok(_) => Outcome(Data(204), [DeleteEvent(id)], [EventDeletedNote(id)])
  }

  /** DELETE /api/events/:id */
  function RemoveEvent(user: User, id: JsValue, ownerCheck: Answer<bool>, deleted: Answer<nat>): Outcome {
    OwnershipGate(user, id, ownerCheck, "You can only delete your own events", ApplyDelete(id, deleted))
  }

  /**
   * An organizer whose ownership query finds no row gets 403: only that
   * query is sent, nothing is written and nothing is broadcast.
   */
  lemma NonOwnerForbidden(user: User, id: JsValue, body: map<string, JsValue>,
                          update: Answer<Option<EventRow>>, deleted: Answer<nat>)
    requires user.role == "organizer"
    ensures PutEvent(user, id, body, Ok(false), update)
         == Outcome(Error(403, "You can only edit your own events"), [OwnerCheck(id, user.id)], [])
    ensures RemoveEvent(user, id, Ok(false), deleted)
         == Outcome(Error(403, "You can only delete your own events"), [OwnerCheck(id, user.id)], [])
  {
  }

  /** Any other role skips the ownership query: the outcome does not depend on it and it is never sent. */
  lemma OthersSkipOwnership(user: User, id: JsValue, body: map<string, JsValue>,
                            a: Answer<bool>, b: Answer<bool>,
                            update: Answer<Option<EventRow>>, deleted: Answer<nat>)
    requires user.role != "organizer"
    ensures PutEvent(user, id, body, a, update) == PutEvent(user, id, body, b, update)
    ensures RemoveEvent(user, id, a, deleted) == RemoveEvent(user, id, b, deleted)
    ensures forall s :: s in PutEvent(user, id, body, a, update).statements ==> !s.OwnerCheck?
    ensures forall s :: s in RemoveEvent(user, id, a, deleted).statements ==> !s.OwnerCheck?
  {
  }

  /**
   * PUT broadcasts exactly when the caller is allowed and the update returns
   * a row, and then exactly one `event:updated` for that row; a missing row
   * is 404 with nothing broadcast.
   */
  lemma PutBroadcastsOnlyUpdatedRow(user: User, id: JsValue, body: map<string, JsValue>,
                                    ownerCheck: Answer<bool>, update: Answer<Option<EventRow>>)
    ensures var o := PutEvent(user, id, body, ownerCheck, update);
      && (o.broadcasts != [] <==> Authorised(user, ownerCheck) && update.Ok? && update.value.Some?)
      && (o.broadcasts != [] ==> o.broadcasts == [EventUpdatedNote(update.value.value)] && o.reply == Data(200))
      && (Authorised(user, ownerCheck) && update == Ok(None) ==> o.reply == Error(404, "Not found") && o.broadcasts == [])
  {
  }

  /**
   * DELETE announces `event:deleted` whenever the delete statement itself
   * succeeds, however many rows it removed; the row count changes nothing.
   */
  lemma DeleteIgnoresRowCount(user: User, id: JsValue, ownerCheck: Answer<bool>, n: nat, m: nat)
    ensures RemoveEvent(user, id, ownerCheck, Ok(n)) == RemoveEvent(user, id, ownerCheck, Ok(m))
    ensures Authorised(user, ownerCheck) ==>
      RemoveEvent(user, id, ownerCheck, Ok(n)).reply == Data(204)
      && RemoveEvent(user, id, ownerCheck, Ok(n)).broadcasts == [EventDeletedNote(id)]
  {
  }

  /** A write that the database reports succeeded. */
  predicate IsWrite(s: Statement) {
    s.InsertEvent? || s.UpdateEvent? || s.DeleteEvent?
  }

  /** The last statement a handler sent is a write. */
  predicate EndsWithWrite(statements: seq<Statement>) {
    |statements| > 0 && IsWrite(statements[|statements| - 1])
  }

  /** POST announces a new event only after its insert succeeded, ending with that insert and replying 201. */
  lemma CreateBroadcastsAfterInsert(user: User, body: map<string, JsValue>, insert: Answer<EventRow>)
    ensures var o := CreateEvent(user, body, insert);
      o.broadcasts != [] ==> insert.Ok? && o.reply.status == 201 && EndsWithWrite(o.statements)
  {
  }

  /** PUT announces an event only after its update succeeded, ending with that update and replying 200. */
  lemma PutBroadcastsAfterUpdate(user: User, id: JsValue, body: map<string, JsValue>, ownerCheck: Answer<bool>,
                                 update: Answer<Option<EventRow>>)
    ensures var o := PutEvent(user, id, body, ownerCheck, update);
      o.broadcasts != [] ==> update.Ok? && update.value.Some? && o.reply.status == 200 && EndsWithWrite(o.statements)
  {
    var allowed := ApplyUpdate(id, body, update);
    assert allowed.broadcasts != [] ==> EndsWithWrite(allowed.statements);
  }

  /** DELETE announces a removal only after its delete succeeded, ending with that delete and replying 204. */
  lemma RemoveBroadcastsAfterDelete(user: User, id: JsValue, ownerCheck: Answer<bool>, deleted: Answer<nat>)
    ensures var o := RemoveEvent(user, id, ownerCheck, deleted);
      o.broadcasts != [] ==> deleted.Ok? && o.reply.status == 204 && EndsWithWrite(o.statements)
  {
    var allowed := ApplyDelete(id, deleted);
    assert allowed.broadcasts != [] ==> EndsWithWrite(allowed.statements);
  }
}
