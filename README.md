# UniConn events platform: rooms, broadcasts and request rules in Dafny

This project models the core of the UniConn campus-events backend and proves
properties of that model.

The main part is the real-time service. It keeps a participant table from
room keys (`event:<id>`) to the sockets in that room, each with the identity
the client sent. Five socket handlers read or update the table:

- join-event;
- leave-event;
- chat:send;
- chat:typing;
- disconnect, which walks every room.

Six broadcast helpers map each domain event (event created, updated or
deleted; RSVP updated; comment created or deleted) to a fixed audience.

The model of the real-time service is the class `WebSocket.Hub`. Its fields:

- `initialized`: whether the socket.io server exists;
- `connected`: the live sockets;
- `rooms`: the participant table;
- `order`: the table's keys in insertion order, the order the disconnect loop walks them.

Each handler is a method. It returns the emits it makes, in order, as (audience, message) pairs. `RoomTable.Recipients` resolves an audience in a given state: every socket, the whole room, or the room minus the sender. The pure table updates, the audience rules and the disconnect walk live in module `RoomTable`, with lemmas about them.

The smaller rule sets around it:

- `EventsRoutes`: the `buildFilterQuery` WHERE and placeholder builder of the events router, which appends conditions and parameters with a running `$n` counter. Also the organizer ownership gate in front of PUT and DELETE, and the rule that a broadcast only follows a successful write.
- `LegacyApi`: the stand-alone Express API in `backend/app.js`:
  - the `GET /registrations` query builder (an imperative method, as in the source);
  - parsing of `:id` with `parseInt`, and the 400/404 decisions;
  - required event fields, with absent optional fields bound as null;
  - the default RSVP status and the status whitelist.
- `Metrics`: the route normaliser of the HTTP metrics middleware (a UUID replace, then a digit-run replace) and the `/api/metrics` skip. Also the class `HttpMetrics`, which holds the in-progress gauge, the request counter and the list of observations, and keeps the gauge balanced.
- `Config`: the precedence rule for secrets (a Docker secret file, then the environment variable, then the default), `buildDatabaseUrl`, and the exported defaults.

Supporting modules:

- `Wrappers`: `Option` and `Result`.
- `Js`: JavaScript values and the language rules the code relies on:
  - truthiness and `||`;
  - string conversion in template literals;
  - `trim`;
  - `parseInt(s, 10)`;
  - `String.prototype.replace` with a string pattern.
- `SqlText`: joining text, and a scanner for the `$n` placeholders a SQL text refers to.
- `Http`: the settled outcome of a database query, and the status and error text of a JSON reply.

Behaviours of the code worth noting:

- **Chat messages.** A chat message consisting only of spaces is truthy, so it is still broadcast. `chat:new` reaches the whole room, sender included.
- **Leaving a room one is not in.** The handler still emits `user:left` and `room:count`. The table is unchanged.
- **The event id disconnect reports.** It is the room key with `event:` cut off, so it is always a string. Join and leave echo the client's own value.
- **Several rooms per socket.** Joining never evicts earlier rooms, so a socket can be in any number of rooms. Disconnect handles every one.
- **Deleted rows.** `DELETE /api/events/:id` broadcasts `event:deleted` without looking at the number of rows it deleted.
- **The metrics middleware is not mounted.** `routes/health.js` exports `metricsMiddleware`, but `src/app.js` mounts only the health router (`app.use("/api", healthRoutes)`), so with the code as written no request passes through the gauge, counter and histogram updates. The properties of `Metrics.HttpMetrics` hold for the middleware wherever it is installed.

## Model

| member | source | states |
|---|---|---|
| RoomTable.RoomKeyIsRoomKey | uniconn-backend/backend/src/services/websocket.js:34 | every room key the handlers build starts with `event:` |
| RoomTable.RoomKeyInjectiveOnText | uniconn-backend/backend/src/services/websocket.js:34 | two string ids give the same room only when they are equal |
| RoomTable.RoomKeyNumberMeetsText | uniconn-backend/backend/src/services/websocket.js:34 | a number and a string name the same room exactly when the string is the number's decimal text, so 42 and "42" share a room |
| RoomTable.RoomKeyOfArray | uniconn-backend/backend/src/services/websocket.js:34 | an id sent as a one-element array names the room of that element; `[null]` and `[undefined]` name `event:` |
| Js.ArrayText | uniconn-backend/backend/src/services/websocket.js:34 | an array converts in a template literal as its elements joined by commas, with `null` and `undefined` written as nothing: `[]` is "", `[42]` is "42", `["a", "b"]` is "a,b" |
| RoomTable.ReportedEventIdOfRoomKey | uniconn-backend/backend/src/services/websocket.js:129 | disconnect reports a room's id as the string text of the id it was joined with |
| Js.ReplacePrefixStrips | uniconn-backend/backend/src/services/websocket.js:129 | replacing the first `event:` by nothing in `event:` + rest gives back rest |
| RoomTable.Count | uniconn-backend/backend/src/services/websocket.js:10-13 | the count is the size of the room's participant map, and 0 when the room is absent |
| WebSocket.Hub.GetRoomCount | uniconn-backend/backend/src/services/websocket.js:10-13 | `getRoomCount(id)` is the number of sockets in room `event:id`, 0 when there is no such room |
| RoomTable.JoinRoomSpec | uniconn-backend/backend/src/services/websocket.js:38-43 | after a join the socket is a member with the identity it sent; other members keep theirs; the count grows by one unless the socket was already there |
| RoomTable.JoinRoomFrame | uniconn-backend/backend/src/services/websocket.js:38-41 | a join changes only its own room, adds at most that key, and keeps the table free of empty rooms |
| RoomTable.JoinAudiences | uniconn-backend/backend/src/services/websocket.js:48-49 | `user:joined` reaches the earlier members other than the joiner; `room:count` reaches the earlier members plus the joiner |
| RoomTable.RosterRemove | uniconn-backend/backend/src/services/websocket.js:63 | deleting a socket's entry shrinks a room by one exactly when the socket was in it |
| RoomTable.LeaveRoomSpec | uniconn-backend/backend/src/services/websocket.js:62-69 | after a leave the socket is not in the room, the others keep their identities, the count drops by one exactly when it was a member, and a room left in the table is non-empty |
| RoomTable.LeaveRoomFrame | uniconn-backend/backend/src/services/websocket.js:62-67 | a leave changes only its own room, can only remove that key, keeps the table free of empty rooms, and changes nothing for a non-member |
| RoomTable.LeaveNonMember | uniconn-backend/backend/src/services/websocket.js:62-67 | leaving a room one is not in leaves the table as it was |
| RoomTable.LeaveAudiences | uniconn-backend/backend/src/services/websocket.js:73-74 | both leave emits reach the room's earlier members other than the leaver |
| RoomTable.EvictEverywhereSpec | uniconn-backend/backend/src/services/websocket.js:123-133 | after a disconnect the socket is in no room; each room that held it has one member fewer; rooms that did not hold it are untouched |
| RoomTable.EvictEverywhereWellFormed | uniconn-backend/backend/src/services/websocket.js:131-133 | evicting a socket everywhere leaves no empty room entry |
| RoomTable.LeaveAllUntouched | uniconn-backend/backend/src/services/websocket.js:124 | the walk leaves a room it has not reached as it was |
| RoomTable.LeaveAllIsEvictAmong | uniconn-backend/backend/src/services/websocket.js:123-133 | walking a list of distinct rooms evicts the socket from exactly those rooms |
| RoomTable.WalkStep | uniconn-backend/backend/src/services/websocket.js:123-137 | the room the walk reaches next still holds its original participants, and one more step adds its leave and its notices |
| RoomTable.DisconnectWalk | uniconn-backend/backend/src/services/websocket.js:123-141 | walking every room in insertion order, one leave each, is the same as evicting the socket everywhere |
| RoomTable.NoticeCountOfLeaveNotices | uniconn-backend/backend/src/services/websocket.js:124-137 | one room's step of the walk sends it one `user:left` and one `room:count` exactly when the socket was a member, and nothing otherwise |
| RoomTable.DisconnectNotifiesEachRoomOnce | uniconn-backend/backend/src/services/websocket.js:123-141 | disconnect sends exactly one `user:left` and exactly one `room:count` to every room that held the socket, and neither to any other room |
| RoomTable.DisconnectNoticesTargetHeldRooms | uniconn-backend/backend/src/services/websocket.js:124-137 | every disconnect emit goes to a whole room that held the socket; `room:count` carries the size after eviction and `user:left` the stored identity |
| RoomTable.SecondDisconnectSilent | uniconn-backend/backend/src/services/websocket.js:123-124 | a second disconnect of the same socket emits nothing |
| RoomTable.JoinConsistent | uniconn-backend/backend/src/services/websocket.js:38-41 | a live socket joining keeps the table free of empty rooms, its members connected, and the key order exact |
| RoomTable.JoinEffect | uniconn-backend/backend/src/services/websocket.js:38-49 | a join keeps the state consistent, reaches the stated audiences, stores the identity and counts the socket once |
| RoomTable.LeaveOrder | uniconn-backend/backend/src/services/websocket.js:65 | a leave removes a key from the insertion order only when it deletes the room |
| RoomTable.LeaveConsistent | uniconn-backend/backend/src/services/websocket.js:62-67 | a leave keeps the state consistent |
| RoomTable.LeaveEffect | uniconn-backend/backend/src/services/websocket.js:62-74 | a leave keeps the state consistent, reaches the remaining members, and is a no-op on the table for a non-member |
| RoomTable.EvictConsistent | uniconn-backend/backend/src/services/websocket.js:123-133 | a disconnect keeps the state consistent with the socket no longer connected |
| RoomTable.ReplayMatchesPresence | uniconn-backend/backend/src/services/websocket.js:31-142 | after any history of joins, leaves and disconnects, a room's members are those that joined it and have not left or disconnected since, and its count is their number |
| RoomTable.ReplayWellFormed | uniconn-backend/backend/src/services/websocket.js:38-133 | no history of handler calls leaves an empty room entry |
| RoomTable.BroadcastDeliveries | uniconn-backend/backend/src/services/websocket.js:159-191 | created or deleted events reach every live socket once; updated events and RSVPs reach every live socket once and room members a second time; comments reach only room members; each message carries its domain event's name |
| WebSocket.Hub.constructor | uniconn-backend/backend/src/services/websocket.js:5-8 | at load there is no server, no socket and an empty table |
| WebSocket.Hub.Initialize | uniconn-backend/backend/src/services/websocket.js:15-23 | creating the server changes nothing else |
| WebSocket.Hub.Connect | uniconn-backend/backend/src/services/websocket.js:25 | a handshake adds the socket to those connected |
| WebSocket.Hub.GetIO | uniconn-backend/backend/src/services/websocket.js:154-157 | `getIO` succeeds exactly when the server exists, and otherwise fails with "WebSocket not initialized." |
| WebSocket.Hub.JoinEvent | uniconn-backend/backend/src/services/websocket.js:31-50 | a falsy id changes and emits nothing; otherwise the table is the join of the old one, `user:joined` goes to the earlier members other than the joiner, and `room:count` with the new size goes to them and the joiner; the table stays consistent |
| WebSocket.Hub.LeaveEvent | uniconn-backend/backend/src/services/websocket.js:55-75 | a falsy id changes and emits nothing; otherwise the table is the leave of the old one, and `user:left` and `room:count` with the new size go to the remaining members, also when the socket was not a member |
| WebSocket.Hub.ChatSend | uniconn-backend/backend/src/services/websocket.js:80-98 | a falsy id or message emits nothing; otherwise one `chat:new` goes to the whole room, so the sender receives it exactly when it is a member |
| WebSocket.Hub.ChatTypingSignal | uniconn-backend/backend/src/services/websocket.js:103-114 | a falsy id or a truthy `stop` emits nothing; otherwise one `chat:typing` with the user goes to the room minus the sender |
| WebSocket.Hub.Disconnect | uniconn-backend/backend/src/services/websocket.js:119-142 | the socket is evicted from every room, the other rooms are untouched, the emits are the notices of the walk in insertion order, each reaching the room's remaining members, and the state stays consistent |
| WebSocket.AddParticipant | uniconn-backend/backend/src/services/websocket.js:38-43 | the table update of join: create the room if absent (last in the order), set the entry, return the new size |
| WebSocket.RemoveParticipant | uniconn-backend/backend/src/services/websocket.js:62-69 | the table update of leave: delete the entry, delete the room once empty, return the new size or 0 |
| WebSocket.LeaveOneRoom | uniconn-backend/backend/src/services/websocket.js:124-137 | one loop step of disconnect: the room's leave and its two notices when it holds the socket, nothing otherwise |
| WebSocket.LeaveEveryRoom | uniconn-backend/backend/src/services/websocket.js:123-141 | the disconnect loop over the table's entries ends in the table evicted everywhere, the order of the remaining keys, and the notices of every room in order |
| WebSocket.Hub.BroadcastEventCreated | uniconn-backend/backend/src/services/websocket.js:159-162 | `event:created` to every socket; nothing while there is no server |
| WebSocket.Hub.BroadcastEventUpdated | uniconn-backend/backend/src/services/websocket.js:164-168 | `event:updated` to every socket, then to the event's room; nothing while there is no server |
| WebSocket.Hub.BroadcastEventDeleted | uniconn-backend/backend/src/services/websocket.js:170-173 | `event:deleted` to every socket; nothing while there is no server |
| WebSocket.Hub.BroadcastRsvpUpdate | uniconn-backend/backend/src/services/websocket.js:175-179 | `rsvp:updated` to every socket, then to the event's room; nothing while there is no server |
| WebSocket.Hub.BroadcastCommentCreated | uniconn-backend/backend/src/services/websocket.js:181-185 | `comment:created` to the event's room only; nothing while there is no server |
| WebSocket.Hub.BroadcastCommentDeleted | uniconn-backend/backend/src/services/websocket.js:187-191 | `comment:deleted` to the event's room only; nothing while there is no server |
| EventsRoutes.ActiveFiltersSpec | uniconn-backend/backend/src/routes/events.js:19-39 | exactly the truthy filters take part, each once, in the order faculty, category, from, to, q |
| EventsRoutes.PushFilter | uniconn-backend/backend/src/routes/events.js:19-39 | a filter that takes part appends its condition, numbered one past the earlier ones, and its value; one that does not changes neither list |
| EventsRoutes.AddFilter | uniconn-backend/backend/src/routes/events.js:19-39 | one `if` step of the builder keeps the lists and the counter equal to those of the filters seen so far |
| EventsRoutes.BuildFilterQuery | uniconn-backend/backend/src/routes/events.js:14-43 | the returned clause and parameters are those of the truthy filters in the fixed order, joined with " AND " after "WHERE " |
| EventsRoutes.FilterQueryEmpty | uniconn-backend/backend/src/routes/events.js:41 | with no truthy filter the clause is empty and there are no parameters |
| EventsRoutes.RefsExact | uniconn-backend/backend/src/routes/events.js:17-39 | the parameter numbers the conditions refer to are exactly 1 to n |
| EventsRoutes.ClauseTextRefs | uniconn-backend/backend/src/routes/events.js:19-39 | each condition refers to its own parameter, the text search twice |
| EventsRoutes.ClausesRefs | uniconn-backend/backend/src/routes/events.js:17-39 | the conditions refer to their parameters in push order |
| EventsRoutes.WhereOfRefs | uniconn-backend/backend/src/routes/events.js:41 | joining the conditions after "WHERE " keeps their references in order |
| EventsRoutes.FilterQueryPlaceholders | uniconn-backend/backend/src/routes/events.js:17-41 | the clause's placeholders are exactly `$1` to `$n` for n parameters, numbered in push order |
| EventsRoutes.SearchClause | uniconn-backend/backend/src/routes/events.js:35-38 | the text search binds `%q%` once and refers to it twice |
| EventsRoutes.NonOwnerForbidden | uniconn-backend/backend/src/routes/events.js:126-134 | an organizer who does not own the event gets 403 on PUT and DELETE, with only the ownership query sent and nothing broadcast |
| EventsRoutes.OthersSkipOwnership | uniconn-backend/backend/src/routes/events.js:177-185 | for any other role the ownership answer does not matter and the ownership query is never sent |
| EventsRoutes.PutBroadcastsOnlyUpdatedRow | uniconn-backend/backend/src/routes/events.js:141-162 | PUT broadcasts exactly when it is authorised and the update returns a row, then exactly that row with 200; an authorised update without a row gives 404 and no broadcast |
| EventsRoutes.DeleteIgnoresRowCount | uniconn-backend/backend/src/routes/events.js:187-191 | DELETE gives the same outcome whatever number of rows it removed, and an authorised one answers 204 and broadcasts `event:deleted` |
| EventsRoutes.CreateBroadcastsAfterInsert | uniconn-backend/backend/src/routes/events.js:97-113 | whenever POST broadcasts, its insert succeeded, the insert is its last statement and it replies 201 |
| EventsRoutes.PutBroadcastsAfterUpdate | uniconn-backend/backend/src/routes/events.js:141-162 | whenever PUT broadcasts, its update succeeded and found the row, the update is its last statement and it replies 200 |
| EventsRoutes.RemoveBroadcastsAfterDelete | uniconn-backend/backend/src/routes/events.js:187-191 | whenever DELETE broadcasts, its delete succeeded, the delete is its last statement and it replies 204 |
| LegacyApi.Conditions | backend/app.js:181-190 | one condition per filter column |
| LegacyApi.FilterValues | backend/app.js:181-190 | one value per filter column |
| LegacyApi.CollectConditions | backend/app.js:178-190 | the conditions are one `col = $i` per truthy filter, numbered from 1 in order, and the values are those filters in the same order |
| LegacyApi.BuildRegistrationsQuery | backend/app.js:177-196 | the query is the table select, the WHERE over the given filters, then the ordering; the values are the truthy filters in order; its placeholders are exactly `$1` to `$n` for n values |
| LegacyApi.ConditionsRefs | backend/app.js:181-194 | the conditions refer to 1, 2, and so on in order |
| LegacyApi.ConditionsAt | backend/app.js:181-190 | the j-th condition compares the j-th column with `$(j+1)` |
| LegacyApi.WherePlaceholders | backend/app.js:192-194 | the WHERE part refers to `$1` to `$n` in order |
| LegacyApi.RegistrationsPlaceholders | backend/app.js:177-196 | the whole query refers to `$1` to `$n` in order for n filter columns |
| LegacyApi.RegistrationsUnfiltered | backend/app.js:177-196 | with neither filter the query is `SELECT * FROM registrations ORDER BY created_at DESC` with no values |
| LegacyApi.UserIdBinding | backend/app.js:181-184 | `user_id` is always the first value, compared with `$1` |
| LegacyApi.EventIdBinding | backend/app.js:186-190 | `event_id` is the last value, compared with `$1` alone or `$2` after `user_id` |
| LegacyApi.ListRegistrationsReply | backend/app.js:173-205 | the handler sends the one built query with placeholders `$1` to `$n`, and answers 500 exactly when the query is rejected |
| Js.ParseIntRoundTrip | backend/app.js:59 | `parseInt` in base 10 reads the decimal text of any integer back to it |
| Js.ParseIntThen | backend/app.js:59 | text after an optionally signed run of digits does not change what `parseInt` reads unless it starts with a digit |
| Js.ParseIntIgnoresTrailingText | backend/app.js:59 | `parseInt` reads the decimal text of any integer followed by a non-digit as that integer |
| LegacyApi.TrailingTextIdAccepted | backend/app.js:59 | an id made of an integer's decimal text and then a non-digit, such as "12abc", is read as that integer |
| Js.ParseIntNaN | backend/app.js:59-63 | `parseInt` gives NaN exactly when no digit follows the leading whitespace and the optional sign |
| LegacyApi.InvalidIdRejected | backend/app.js:59-63 | an id that is not a number gives 400, sending nothing, on the event GET, PUT and DELETE and on the registration PUT |
| LegacyApi.RequiredEventFieldsChecked | backend/app.js:102-104 | create and update without title, start time or organizer give 400 with nothing sent; otherwise they send the eight values, followed by the id for an update |
| LegacyApi.EventValues | backend/app.js:121-131 | an event write binds eight values |
| LegacyApi.EventValuesDefaults | backend/app.js:232-241 | the required fields are bound as sent; each optional field is bound as sent when truthy and as null otherwise, in particular when absent |
| LegacyApi.NoRowNotFound | backend/app.js:136-138 | a statement that returns no row gives 404 for event GET, PUT and DELETE and for registration PUT |
| LegacyApi.RegistrationDefaults | backend/app.js:257-262 | a registration without user or event gives 400 with nothing sent; a missing or falsy status is stored as "registered" |
| LegacyApi.StatusWhitelist | backend/app.js:290-292 | a status update is refused with 400, sending nothing, exactly when the status is neither "registered" nor "cancelled" |
| Metrics.RouteOf | uniconn-backend/backend/src/routes/health.js:49 | the route is the matched route path when present and non-empty, else the request path |
| Metrics.ReplaceNumbersHead | uniconn-backend/backend/src/routes/health.js:52 | the digit pass keeps the first character and empties only the empty text |
| Metrics.ReplaceNumbersClears | uniconn-backend/backend/src/routes/health.js:52 | after the digit pass no `/` is followed by a digit |
| Metrics.ReplaceNumbersNoop | uniconn-backend/backend/src/routes/health.js:52 | the digit pass leaves a text with no `/` followed by a digit as it is |
| Metrics.ReplaceNumbersIdempotent | uniconn-backend/backend/src/routes/health.js:52 | applying the digit pass twice is applying it once |
| Metrics.NormalizedRouteClear | uniconn-backend/backend/src/routes/health.js:51-52 | no normalised route has a `/` followed by a digit |
| Metrics.ReplaceUuidsSplit | uniconn-backend/backend/src/routes/health.js:51 | no UUID match spans a `/`, so the UUID pass rewrites the text before a `/` and the text from it on separately |
| Metrics.ReplaceNumbersSplit | uniconn-backend/backend/src/routes/health.js:52 | no digit run spans a `/`, so the digit pass rewrites the text before a `/` and the text from it on separately |
| Metrics.UuidSegmentNormalized | uniconn-backend/backend/src/routes/health.js:51-52 | a `/`-prefixed UUID in either letter case anywhere in the route becomes `/:id`, as in `/api/events/<uuid>`, and the text before and after it is normalised on its own |
| Metrics.UuidBeforeNumbers | uniconn-backend/backend/src/routes/health.js:51-52 | a UUID starting with a digit becomes one `/:id` only because the UUID pass runs first |
| Metrics.IncDecNetZero | uniconn-backend/backend/src/routes/health.js:42-62 | an increment then a decrement of one label leaves every gauge reading as it was, and an increment changes only its own label, by one |
| Metrics.HttpMetrics.constructor | uniconn-backend/backend/src/routes/health.js:12-32 | the metrics start empty |
| Metrics.HttpMetrics.Begin | uniconn-backend/backend/src/routes/health.js:37-42 | a request to `/api/metrics` is not tracked; any other request raises the in-progress gauge of its method by one |
| Metrics.HttpMetrics.Finish | uniconn-backend/backend/src/routes/health.js:44-63 | on finish the labels are exactly the method, the normalised route and the status code; the duration is recorded, the counter of those labels goes up by one, and the method's gauge goes down by one |
| Metrics.HttpMetrics.Request | uniconn-backend/backend/src/routes/health.js:35-66 | a completed request leaves every gauge reading as it was; a tracked one adds one observation and one count under its labels, and `/api/metrics` changes nothing |
| Config.EnvOr | uniconn-backend/backend/src/config.js:21 | a set, non-empty variable wins; an unset or empty one gives the default |
| Config.SecretFileWins | uniconn-backend/backend/src/config.js:10-15 | with secrets switched on and the file readable, the trimmed file contents are the value |
| Js.TrimSpec | uniconn-backend/backend/src/config.js:14 | trimming keeps the contiguous middle of the text, which neither starts nor ends with whitespace; everything cut off is whitespace |
| Js.TrimIdempotent | uniconn-backend/backend/src/config.js:14 | trimming twice is trimming once |
| Config.SecretFallback | uniconn-backend/backend/src/config.js:16-21 | without the switch, the file or a successful read, the value is the variable when set and non-empty, else the default |
| Config.StoreUnreadWhenDisabled | uniconn-backend/backend/src/config.js:10 | with secrets switched off the secret files are never consulted, and only the exact text "true" switches them on |
| Config.BuildDatabaseUrl | uniconn-backend/backend/src/config.js:33-44 | a non-empty `DATABASE_URL` is returned verbatim; otherwise the URL is composed with host `db` and port `5432` by default |
| Config.ComposeUrlRoundTrip | uniconn-backend/backend/src/config.js:43 | the composed URL reads back into user, password, host, port and database when those contain no separator |
| Config.DefaultConnectionString | uniconn-backend/backend/src/config.js:43 | the default connection string is `postgres://uniconn:@db:5432/uniconn` |
| Config.LoadConfig | uniconn-backend/backend/src/config.js:8-58 | in any environment: `PORT` when set and non-empty, else 8080; `NODE_ENV` likewise, else `development`; a non-empty `DATABASE_URL` verbatim, otherwise the URL composed from the user, password and database secrets with `POSTGRES_HOST` (default `db`) and `POSTGRES_PORT` (default `5432`); the JWT secret from the readable secret file when secrets are on, and in every other case (secrets off, file absent or unreadable) `JWT_SECRET` or the development secret; the SendGrid key and sender read as secrets with defaults "" and `noreply@uniconn.ca`; `jwtExpiresIn` always "7d" |
| Config.DefaultSettings | uniconn-backend/backend/src/config.js:25-58 | in an empty environment: port 8080, the default connection string, the development JWT secret, `development`, no SendGrid key and `noreply@uniconn.ca` |

## Left out

- The transport layers are left out: the socket.io transport and its own room bookkeeping, and Express routing and middleware ordering (`next()`). socket.io membership is taken to move in lockstep with the participant table, so a room audience means the table's current members.
- Databases and metrics libraries are left out. `pg` pool queries and SQL execution are replaced by their settled outcome, given as an input. Prometheus registry internals are left out too: histogram buckets and default metrics.
- Console logging is left out: it has no effect on state or replies.
- Timestamps are inputs. The chat timestamp from `new Date().toISOString()` is a string parameter; a measured request duration is a natural number of nanoseconds.
- `Metrics.HttpMetrics.Finish`: does not compute the floating-point conversion of the duration to seconds, because floating point is not modelled.
- JavaScript numbers are integers. There is no NaN, fraction or exponent form. Plain objects are known only by identity and convert to `[object Object]`; arrays convert by joining their elements, and an array element that is itself a plain object converts the same way. `Number(req.params.id)` in the events router is not modelled; ids are passed as they arrive.
- `WebSocket.Hub.Initialize`: requires the server not to exist yet, because the start-up code calls it once; re-initialisation is not modelled.
- `WebSocket.Hub.JoinEvent` and `WebSocket.Hub.LeaveEvent` require the calling socket to be connected, as socket.io dispatches only for live sockets; the chat handlers change no state and do not require it, and neither does Disconnect.
- The socket handlers take the payload's fields (`eventId`, `user`, `message`, `stop`) as separate values. A client that emits `join-event`, `leave-event`, `chat:send` or `chat:typing` with no payload or with `null` makes the source's destructuring throw a `TypeError` before the table changes or anything is emitted; that error path is not modelled.
- Authentication and notifications are outside this model. That covers the `authRequired` and `requireRole` middleware that produce the caller and its role. It also covers the notification service calls the events router makes: they are fire-and-forget and have no effect on the reply.
- Some handlers are plumbing around a query. In the events router that is `GET /api/events/:id` and the list handler's execution of the built clause. In `backend/app.js` it is `/health` and `GET /events`, and the pool settings.
- `dotenv` loading is left out, and so are the `fs`/`path` calls, which are replaced by a map from file path to contents. `path.join` is taken as plain concatenation for the fixed secret names.
- `Config.ComposeUrlRoundTrip`: claimed only for parts without separators, because the source does not percent-encode them.
- The rest of the repository is not part of this model:
  - the auth, comments, RSVP and analytics routers;
  - the browser dashboards;
  - the server and database wiring.

  No shown route calls the RSVP or comment-deleted broadcasts; they are modelled as the helpers they are.
