/**
 * The values behind the real-time service: the participant table
 * (`roomParticipants`, a map from room key to a map from socket id to the
 * identity the client sent), the messages the service emits, the audiences
 * it emits them to, and the pure rules by which each operation changes the
 * table. The `Hub` class in module WebSocket applies these rules in place.
 *
 * socket.io's own room membership, which `socket.join` and `socket.leave`
 * change next to every table update, is taken to be exactly the table, so
 * "the sockets in room k" means `MembersOf(table, k)`.
 */
module RoomTable {
  import opened Js

  /** A socket id, as socket.io assigns it. */
  type ConnId = string

  /** One room's participants: socket id to the `user` value sent on join. */
  type Roster = map<ConnId, JsValue>

  /** `roomParticipants`: room key to roster. */
  type Table = map<string, Roster>

  const RoomPrefix: string := "event:"

  /** The room of an event: the template `event:${eventId}`. */
  function RoomKey(eventId: JsValue): string {
    RoomPrefix + ToJsString(eventId)
  }

  predicate IsRoomKey(k: string) {
    |k| >= |RoomPrefix| && k[..|RoomPrefix|] == RoomPrefix
  }

  lemma RoomKeyIsRoomKey(eventId: JsValue)
    ensures IsRoomKey(RoomKey(eventId))
  {
    assert RoomKey(eventId)[..|RoomPrefix|] == RoomPrefix;
  }

  /** The `eventId` that disconnect reports for a room: `room.replace('event:', '')`. */
  function ReportedEventId(room: string): JsValue {
    JStr(ReplaceFirst(room, RoomPrefix, ""))
  }

  /**
   * Disconnect reports the text of the id the room was joined with, always as
   * a string: a room joined with the number 42 is reported as "42".
   */
  lemma ReportedEventIdOfRoomKey(eventId: JsValue)
    ensures ReportedEventId(RoomKey(eventId)) == JStr(ToJsString(eventId))
  {
    ReplacePrefixStrips(RoomPrefix, ToJsString(eventId));
  }

  /** Room keys tell string ids apart ... */
  lemma RoomKeyInjectiveOnText(a: string, b: string)
    requires RoomKey(JStr(a)) == RoomKey(JStr(b))
    ensures a == b
  {
    ReportedEventIdOfRoomKey(JStr(a));
    ReportedEventIdOfRoomKey(JStr(b));
  }

  /**
   * ... but not a number from its decimal text: the number `n` and the
   * string `s` join the same room exactly when `s` is `String(n)`, so 42 and
   * "42" share a room.
   */
  lemma RoomKeyNumberMeetsText(n: int, s: string)
    ensures RoomKey(JNum(n)) == RoomKey(JStr(s)) <==> s == IntToDecimal(n)
    ensures RoomKey(JNum(42)) == RoomKey(JStr("42"))
  {
    if RoomKey(JNum(n)) == RoomKey(JStr(s)) {
      assert RoomKey(JStr(IntToDecimal(n))) == RoomKey(JStr(s));
      RoomKeyInjectiveOnText(IntToDecimal(n), s);
    }
    assert NatToDecimal(4) == "4";
    assert NatToDecimal(42) == NatToDecimal(4) + [DigitChar(2)];
  }

  /**
   * An id sent as a one-element array joins the room of that element, as
   * `event:${[42]}` is `event:42`; `[null]` and `[undefined]` join `event:`.
   */
  lemma RoomKeyOfArray(v: JsValue)
    ensures RoomKey(JArray([v])) == RoomKey(if v.JUndefined? || v.JNull? then JStr("") else v)
  {
    ArrayText([], v);
    assert JoinElements([v]) == ElementText(v);
  }

  // ---------------------------------------------------------------------
  // Reading the table
  // ---------------------------------------------------------------------

  /** `roomParticipants.get(key)`, with an absent room read as empty. */
  function RosterOf(t: Table, key: string): Roster {
    if key in t then t[key] else map[]
  }

  function MembersOf(t: Table, key: string): set<ConnId> {
    RosterOf(t, key).Keys
  }

  /** `roomParticipants.get(key)?.size || 0` */
  function Count(t: Table, key: string): (n: nat)
    ensures n == |MembersOf(t, key)|
    ensures key !in t ==> n == 0
  {
    |RosterOf(t, key)|
  }

  /** Every key was built by `RoomKey`, and no room is left without participants. */
  predicate WellFormed(t: Table) {
    forall k :: k in t ==> IsRoomKey(k) && |t[k]| > 0
  }

  /** Every participant is a socket the server still holds. */
  predicate MembersConnected(t: Table, connected: set<ConnId>) {
    forall k, c :: k in t && c in t[k] ==> c in connected
  }

  // ---------------------------------------------------------------------
  // The three table updates
  // ---------------------------------------------------------------------

  /** join-event: create the room when absent, then set the socket's entry. */
  function JoinRoom(t: Table, key: string, sid: ConnId, user: JsValue): Table {
    t[key := RosterOf(t, key)[sid := user]]
  }

  /**
   * Joining makes the socket a member with the identity it sent; a socket
   * already in the room has its identity overwritten and is not counted twice.
   */
  lemma JoinRoomSpec(t: Table, key: string, sid: ConnId, user: JsValue)
    ensures var r := JoinRoom(t, key, sid, user);
      && MembersOf(r, key) == MembersOf(t, key) + {sid}
      && RosterOf(r, key)[sid] == user
      && (forall c :: c in RosterOf(t, key) && c != sid ==> RosterOf(r, key)[c] == RosterOf(t, key)[c])
      && Count(r, key) == Count(t, key) + (if sid in MembersOf(t, key) then 0 else 1)
  {
  }

  /** Joining touches no other room, and keeps the table well formed. */
  lemma JoinRoomFrame(t: Table, key: string, sid: ConnId, user: JsValue)
    ensures var r := JoinRoom(t, key, sid, user);
      && (forall k :: k != key ==> RosterOf(r, k) == RosterOf(t, k))
      && r.Keys == t.Keys + {key}
      && (WellFormed(t) && IsRoomKey(key) ==> WellFormed(r))
  {
    JoinRoomKeys(t, key, sid, user);
    if WellFormed(t) && IsRoomKey(key) {
      JoinRoomWellFormed(t, key, sid, user);
    }
  }

  /** A join adds at most its own key to the table. */
  lemma JoinRoomKeys(t: Table, key: string, sid: ConnId, user: JsValue)
    ensures JoinRoom(t, key, sid, user).Keys == t.Keys + {key}
  {
  }

  /** A join into a room key leaves no empty room entry. */
  lemma JoinRoomWellFormed(t: Table, key: string, sid: ConnId, user: JsValue)
    requires WellFormed(t) && IsRoomKey(key)
    ensures WellFormed(JoinRoom(t, key, sid, user))
  {
    var r := JoinRoom(t, key, sid, user);
    forall k | k in r ensures IsRoomKey(k) && |r[k]| > 0 {
      if k == key {
        assert sid in r[k];
      }
    }
  }

  /** leave-event: delete the socket's entry, and the room with it when no participant is left. */
  function LeaveRoom(t: Table, key: string, sid: ConnId): Table {
    if key !in t then t
    else
      var rest := t[key] - {sid};
      if |rest| == 0 then t - {key} else t[key := rest]
  }

  /** Deleting one entry shrinks a roster by one exactly when the entry was there. */
  lemma RosterRemove(m: Roster, sid: ConnId)
    ensures (m - {sid}).Keys == m.Keys - {sid}
    ensures |m - {sid}| + (if sid in m then 1 else 0) == |m|
    ensures sid !in m ==> m - {sid} == m
  {
    assert (m - {sid}).Keys == m.Keys - {sid};
    assert |m.Keys| == |m|;
    assert |(m - {sid}).Keys| == |m - {sid}|;
  }

  /**
   * Leaving removes the socket from the room and lowers the count by one
   * exactly when it was a member; the room key goes when the room empties.
   */
  lemma LeaveRoomSpec(t: Table, key: string, sid: ConnId)
    ensures var r := LeaveRoom(t, key, sid);
      && MembersOf(r, key) == MembersOf(t, key) - {sid}
      && (forall c :: c in RosterOf(r, key) ==> RosterOf(r, key)[c] == RosterOf(t, key)[c])
      && Count(r, key) + (if sid in MembersOf(t, key) then 1 else 0) == Count(t, key)
      && (key in r ==> |r[key]| > 0)
  {
    if key in t {
      RosterRemove(t[key], sid);
    }
  }

  /**
   * Leaving touches no other room and no other key; on a well-formed table
   * it keeps it well formed, and leaving a room one is not in changes nothing.
   */
  lemma LeaveRoomFrame(t: Table, key: string, sid: ConnId)
    ensures var r := LeaveRoom(t, key, sid);
      && (forall k :: k != key ==> RosterOf(r, k) == RosterOf(t, k))
      && r.Keys <= t.Keys && (forall k :: k in t && k !in r ==> k == key)
      && (WellFormed(t) ==> WellFormed(r))
      && (WellFormed(t) && sid !in MembersOf(t, key) ==> r == t)
  {
    if key in t {
      RosterRemove(t[key], sid);
    }
  }

  /** disconnect: the socket leaves every room it is in. */
  function EvictEverywhere(t: Table, sid: ConnId): Table {
    map k | k in t && t[k].Keys != {sid} :: t[k] - {sid}
  }

  /**
   * After a disconnect the socket is in no room; every room that held it has
   * one member fewer, and the rooms that did not hold it are untouched.
   */
  lemma EvictEverywhereSpec(t: Table, sid: ConnId)
    ensures var r := EvictEverywhere(t, sid);
      && (forall k :: MembersOf(r, k) == MembersOf(t, k) - {sid})
      && (forall k :: sid in MembersOf(t, k) ==> Count(r, k) + 1 == Count(t, k))
      && (forall k :: k in t && sid !in t[k] ==> k in r && r[k] == t[k])
      && (forall k :: k in r ==> k in t && forall c :: c in r[k] ==> r[k][c] == t[k][c])
  {
    var r := EvictEverywhere(t, sid);
    forall k
      ensures MembersOf(r, k) == MembersOf(t, k) - {sid}
      ensures sid in MembersOf(t, k) ==> Count(r, k) + 1 == Count(t, k)
    {
      if k in t {
        RosterRemove(t[k], sid);
        if k !in r {
          assert t[k].Keys == {sid};
        }
      }
    }
    forall k | k in t && sid !in t[k] ensures k in r && r[k] == t[k] {
      RosterRemove(t[k], sid);
    }
  }

  /**
   * The table part-way through disconnect's walk: the rooms in `done` have
   * been handled, the others are as they were.
   */
  function EvictAmong(t: Table, sid: ConnId, done: set<string>): Table {
    map k | k in t && !(k in done && t[k].Keys == {sid}) :: if k in done then t[k] - {sid} else t[k]
  }

  lemma EvictAmongNone(t: Table, sid: ConnId)
    ensures EvictAmong(t, sid, {}) == t
  {
  }

  lemma EvictAmongAll(t: Table, sid: ConnId, done: set<string>)
    requires t.Keys <= done
    ensures EvictAmong(t, sid, done) == EvictEverywhere(t, sid)
  {
  }

  /** A room whose only participant is the socket drops out of the walk's table. */
  lemma EvictAmongDrop(t: Table, sid: ConnId, done: set<string>, k: string)
    requires k in t && k !in done && t[k].Keys == {sid}
    ensures EvictAmong(t, sid, done) - {k} == EvictAmong(t, sid, done + {k})
  {
  }

  /** A room with other participants keeps them. */
  lemma EvictAmongShrink(t: Table, sid: ConnId, done: set<string>, k: string)
    requires k in t && k !in done && t[k].Keys != {sid}
    ensures EvictAmong(t, sid, done)[k := t[k] - {sid}] == EvictAmong(t, sid, done + {k})
  {
  }

  /** Handling one more room `k` of a well-formed table is one leave of that room. */
  lemma EvictAmongStep(t: Table, sid: ConnId, done: set<string>, k: string)
    requires WellFormed(t) && k in t && k !in done
    ensures LeaveRoom(EvictAmong(t, sid, done), k, sid) == EvictAmong(t, sid, done + {k})
  {
    var r := EvictAmong(t, sid, done);
    assert k in r && r[k] == t[k];
    RosterRemove(t[k], sid);
    if t[k].Keys == {sid} {
      assert |t[k] - {sid}| == 0;
      EvictAmongDrop(t, sid, done, k);
    } else {
      assert (t[k] - {sid}).Keys != {};
      EvictAmongShrink(t, sid, done, k);
    }
  }

  /**
   * disconnect's walk as a fold: handling a room is exactly leave-event's
   * update of that room, applied to each room of `ks` in turn.
   */
  function LeaveAll(t: Table, ks: seq<string>, sid: ConnId): Table
    decreases |ks|
  {
    if |ks| == 0 then t else LeaveRoom(LeaveAll(t, ks[..|ks| - 1], sid), ks[|ks| - 1], sid)
  }

  /** A room the walk has not reached yet is as it was. */
  lemma {:induction false} LeaveAllUntouched(t: Table, ks: seq<string>, sid: ConnId, k: string)
    requires k !in ks
    ensures var r := LeaveAll(t, ks, sid);
      (k in r <==> k in t) && RosterOf(r, k) == RosterOf(t, k)
    decreases |ks|
  {
    if |ks| > 0 {
      var init := ks[..|ks| - 1];
      assert k !in init;
      LeaveAllUntouched(t, init, sid, k);
      LeaveRoomFrame(LeaveAll(t, init, sid), ks[|ks| - 1], sid);
    }
  }

  /** Walking distinct rooms of a well-formed table removes the socket from exactly those rooms. */
  lemma {:induction false} LeaveAllIsEvictAmong(t: Table, ks: seq<string>, sid: ConnId)
    requires WellFormed(t) && Distinct(ks) && forall k :: k in ks ==> k in t
    ensures LeaveAll(t, ks, sid) == EvictAmong(t, sid, set k | k in ks)
    decreases |ks|
  {
    if |ks| == 0 {
      EvictAmongNone(t, sid);
      assert (set k | k in ks) == {};
    } else {
      var init, last := ks[..|ks| - 1], ks[|ks| - 1];
      assert Distinct(init);
      assert forall k :: k in init ==> k in ks;
      LeaveAllIsEvictAmong(t, init, sid);
      var done := set k | k in init;
      assert last !in done;
      assert (set k | k in ks) == done + {last} by {
        assert ks == init + [last];
      }
      EvictAmongStep(t, sid, done, last);
    }
  }


  /**
   * One round of disconnect's walk: the next room is still as it was at the
   * start, handling it is one leave, its notices follow the earlier ones, and
   * the order loses the room exactly when the leave deleted it.
   */
  lemma WalkStep(t0: Table, keys: seq<string>, i: nat, sid: ConnId)
    requires WellFormed(t0) && Enumerates(keys, t0) && i < |keys|
    ensures var t, room := LeaveAll(t0, keys[..i], sid), keys[i];
      && room in t && t[room] == t0[room] && |t[room]| > 0
      && LeaveAll(t0, keys[..i + 1], sid) == LeaveRoom(t, room, sid)
      && DisconnectNotices(keys[..i + 1], t0, sid) == DisconnectNotices(keys[..i], t0, sid) + LeaveNotices(t0, sid, room)
      && (room !in LeaveRoom(t, room, sid) ==> LeaveRoom(t, room, sid).Keys == t.Keys - {room})
      && (room in LeaveRoom(t, room, sid) ==> LeaveRoom(t, room, sid).Keys == t.Keys)
  {
    var t, room := LeaveAll(t0, keys[..i], sid), keys[i];
    assert room !in keys[..i];
    LeaveAllUntouched(t0, keys[..i], sid, room);
    assert keys[..i + 1][..i] == keys[..i];
    LeaveRoomFrame(t, room, sid);
  }
  /** Walking every room of the table once is disconnect's whole update. */
  lemma DisconnectWalk(t: Table, keys: seq<string>, sid: ConnId)
    requires WellFormed(t) && Enumerates(keys, t)
    ensures LeaveAll(t, keys, sid) == EvictEverywhere(t, sid)
  {
    LeaveAllIsEvictAmong(t, keys, sid);
    EvictAmongAll(t, sid, set k | k in keys);
  }
  /** Disconnect keeps the table well formed: a room it empties is deleted. */
  lemma EvictEverywhereWellFormed(t: Table, sid: ConnId)
    requires WellFormed(t)
    ensures WellFormed(EvictEverywhere(t, sid))
  {
    var r := EvictEverywhere(t, sid);
    forall k | k in r ensures IsRoomKey(k) && |r[k]| > 0 {
      RosterRemove(t[k], sid);
    }
  }

  // ---------------------------------------------------------------------
  // Audiences and messages
  // ---------------------------------------------------------------------

  /** Whom an emit reaches. */
  datatype Audience =
    | Everyone                                        // io.emit(...)
    | WholeRoom(key: string)                          // io.to(room).emit(...)
    | RoomExceptSender(key: string, sender: ConnId)   // socket.to(room).emit(...)

  /** The sockets an emit reaches, given the live sockets and the table at the time of the emit. */
  function Recipients(a: Audience, connected: set<ConnId>, t: Table): set<ConnId> {
    match a
    case Everyone => connected
    case WholeRoom(key) => MembersOf(t, key)
    case RoomExceptSender(key, sender) => MembersOf(t, key) - {sender}
  }

  /** Who hears a join: the earlier members other than the joiner, and then the whole room with it. */
  lemma JoinAudiences(t: Table, key: string, sid: ConnId, user: JsValue, connected: set<ConnId>)
    ensures var r := JoinRoom(t, key, sid, user);
      && Recipients(RoomExceptSender(key, sid), connected, r) == MembersOf(t, key) - {sid}
      && Recipients(WholeRoom(key), connected, r) == MembersOf(t, key) + {sid}
  {
    JoinRoomSpec(t, key, sid, user);
  }

  /** Who hears a leave: the members that remain, both times. */
  lemma LeaveAudiences(t: Table, key: string, sid: ConnId, connected: set<ConnId>)
    ensures var r := LeaveRoom(t, key, sid);
      && Recipients(RoomExceptSender(key, sid), connected, r) == MembersOf(t, key) - {sid}
      && Recipients(WholeRoom(key), connected, r) == MembersOf(t, key) - {sid}
  {
    LeaveRoomSpec(t, key, sid);
  }

  /** A row of the events table, known here only by its `id` column. */
  datatype EventRow = EventRow(id: JsValue, columns: JsValue)

  /** What the service emits, one constructor per socket.io event name. */
  datatype Message =
    | UserJoined(user: JsValue, eventId: JsValue)
    | UserLeft(user: JsValue, eventId: JsValue)
    | RoomCount(eventId: JsValue, count: nat)
    | ChatNew(eventId: JsValue, user: JsValue, message: JsValue, ts: string)
    | ChatTyping(user: JsValue)
    | EventCreated(event: EventRow)
    | EventUpdated(event: EventRow)
    | EventDeleted(eventId: JsValue)
    | RsvpUpdated(rsvp: JsValue, eventId: JsValue)
    | CommentCreated(comment: JsValue, eventId: JsValue)
    | CommentDeleted(commentId: JsValue, eventId: JsValue)
  {
    /** The socket.io event name. */
    function Name(): string {
      match this
      case UserJoined(_, _) => "user:joined"
      case UserLeft(_, _) => "user:left"
      case RoomCount(_, _) => "room:count"
      case ChatNew(_, _, _, _) => "chat:new"
      case ChatTyping(_) => "chat:typing"
      case EventCreated(_) => "event:created"
      case EventUpdated(_) => "event:updated"
      case EventDeleted(_) => "event:deleted"
      case RsvpUpdated(_, _) => "rsvp:updated"
      case CommentCreated(_, _) => "comment:created"
      case CommentDeleted(_, _) => "comment:deleted"
    }
  }

  /** One emit: an audience and a message. */
  datatype Emission = Emission(audience: Audience, message: Message)

  /** How many of the emits reach socket `c`. */
  function DeliveriesTo(emits: seq<Emission>, c: ConnId, connected: set<ConnId>, t: Table): nat
    decreases |emits|
  {
    if |emits| == 0 then 0
    else (if c in Recipients(emits[0].audience, connected, t) then 1 else 0)
         + DeliveriesTo(emits[1..], c, connected, t)
  }

  // ---------------------------------------------------------------------
  // Domain-event broadcasts
  // ---------------------------------------------------------------------

  /** A completed write that the HTTP routes announce. */
  datatype Notification =
    | EventCreatedNote(event: EventRow)
    | EventUpdatedNote(event: EventRow)
    | EventDeletedNote(eventId: JsValue)
    | RsvpUpdatedNote(rsvp: JsValue, eventId: JsValue)
    | CommentCreatedNote(comment: JsValue, eventId: JsValue)
    | CommentDeletedNote(commentId: JsValue, eventId: JsValue)

  /** The emits of the `broadcast*` helper for `n`, once the server exists. */
  function Broadcast(n: Notification): seq<Emission> {
    match n
    case EventCreatedNote(e) => [Emission(Everyone, EventCreated(e))]
    case EventUpdatedNote(e) =>
      [Emission(Everyone, EventUpdated(e)), Emission(WholeRoom(RoomKey(e.id)), EventUpdated(e))]
    case EventDeletedNote(id) => [Emission(Everyone, EventDeleted(id))]
    case RsvpUpdatedNote(rsvp, id) =>
      [Emission(Everyone, RsvpUpdated(rsvp, id)), Emission(WholeRoom(RoomKey(id)), RsvpUpdated(rsvp, id))]
    case CommentCreatedNote(comment, id) => [Emission(WholeRoom(RoomKey(id)), CommentCreated(comment, id))]
    case CommentDeletedNote(commentId, id) => [Emission(WholeRoom(RoomKey(id)), CommentDeleted(commentId, id))]
  }

  /** The room a notification is also, or only, sent to; none for created and deleted events. */
  function TargetRoom(n: Notification): string
    requires !n.EventCreatedNote? && !n.EventDeletedNote?
  {
    match n
    case EventUpdatedNote(e) => RoomKey(e.id)
    case RsvpUpdatedNote(_, id) => RoomKey(id)
    case CommentCreatedNote(_, id) => RoomKey(id)
    case CommentDeletedNote(_, id) => RoomKey(id)
  }

  lemma DeliveriesOne(e: Emission, c: ConnId, connected: set<ConnId>, t: Table)
    ensures DeliveriesTo([e], c, connected, t) == if c in Recipients(e.audience, connected, t) then 1 else 0
  {
    assert [e][1..] == [];
  }

  lemma DeliveriesPair(e1: Emission, e2: Emission, c: ConnId, connected: set<ConnId>, t: Table)
    ensures DeliveriesTo([e1, e2], c, connected, t)
         == (if c in Recipients(e1.audience, connected, t) then 1 else 0)
          + (if c in Recipients(e2.audience, connected, t) then 1 else 0)
  {
    assert [e1, e2][1..] == [e2];
    DeliveriesOne(e2, c, connected, t);
  }

  /**
   * How often each socket receives a notification: event creation and
   * deletion reach every live socket once; event and RSVP updates reach every
   * live socket once and the event room's members a second time; comments
   * reach the room's members only.
   */
  lemma BroadcastDeliveries(n: Notification, c: ConnId, connected: set<ConnId>, t: Table)
    ensures n.EventCreatedNote? || n.EventDeletedNote? ==>
      DeliveriesTo(Broadcast(n), c, connected, t) == (if c in connected then 1 else 0)
    ensures n.EventUpdatedNote? || n.RsvpUpdatedNote? ==>
      DeliveriesTo(Broadcast(n), c, connected, t)
        == (if c in connected then 1 else 0) + (if c in MembersOf(t, TargetRoom(n)) then 1 else 0)
    ensures n.CommentCreatedNote? || n.CommentDeletedNote? ==>
      DeliveriesTo(Broadcast(n), c, connected, t) == (if c in MembersOf(t, TargetRoom(n)) then 1 else 0)
    ensures forall e :: e in Broadcast(n) ==> e.message.Name() == NotificationName(n)
  {
    var emits := Broadcast(n);
    match n
    case EventCreatedNote(_) => DeliveriesOne(emits[0], c, connected, t);
    case EventDeletedNote(_) => DeliveriesOne(emits[0], c, connected, t);
    case CommentCreatedNote(_, _) => DeliveriesOne(emits[0], c, connected, t);
    case CommentDeletedNote(_, _) => DeliveriesOne(emits[0], c, connected, t);
    case EventUpdatedNote(_) => DeliveriesPair(emits[0], emits[1], c, connected, t);
    case RsvpUpdatedNote(_, _) => DeliveriesPair(emits[0], emits[1], c, connected, t);
  }

  /** The event name each notification goes out under. */
  function NotificationName(n: Notification): string {
    match n
    case EventCreatedNote(_) => "event:created"
    case EventUpdatedNote(_) => "event:updated"
    case EventDeletedNote(_) => "event:deleted"
    case RsvpUpdatedNote(_, _) => "rsvp:updated"
    case CommentCreatedNote(_, _) => "comment:created"
    case CommentDeletedNote(_, _) => "comment:deleted"
  }

  // ---------------------------------------------------------------------
  // Disconnect notices
  // ---------------------------------------------------------------------

  /** What disconnect emits for one room: `user:left` with the stored identity, then the new count. */
  function LeaveNotices(t: Table, sid: ConnId, room: string): seq<Emission> {
    if room in t && sid in t[room] then
      var eventId := ReportedEventId(room);
      [Emission(WholeRoom(room), UserLeft(t[room][sid], eventId)),
       Emission(WholeRoom(room), RoomCount(eventId, |t[room] - {sid}|))]
    else []
  }

  /** What disconnect emits walking `rooms` in order, against the table it started from. */
  function DisconnectNotices(rooms: seq<string>, t: Table, sid: ConnId): seq<Emission>
    decreases |rooms|
  {
    if |rooms| == 0 then []
    else DisconnectNotices(rooms[..|rooms| - 1], t, sid) + LeaveNotices(t, sid, rooms[|rooms| - 1])
  }

  /** `e` is a `user:left` (when `userLeft`) or a `room:count` (otherwise) addressed to `room`. */
  predicate IsNotice(e: Emission, room: string, userLeft: bool) {
    e.audience == WholeRoom(room) && (if userLeft then e.message.UserLeft? else e.message.RoomCount?)
  }

  /** The number of `user:left` (when `userLeft`) or `room:count` (otherwise) emits addressed to `room`. */
  function NoticeCount(emits: seq<Emission>, room: string, userLeft: bool): nat
    decreases |emits|
  {
    if |emits| == 0 then 0
    else (if IsNotice(emits[0], room, userLeft) then 1 else 0) + NoticeCount(emits[1..], room, userLeft)
  }

  lemma {:induction false} NoticeCountConcat(a: seq<Emission>, b: seq<Emission>, room: string, userLeft: bool)
    ensures NoticeCount(a + b, room, userLeft) == NoticeCount(a, room, userLeft) + NoticeCount(b, room, userLeft)
    decreases |a|
  {
    if |a| > 0 {
      assert (a + b)[1..] == a[1..] + b;
      NoticeCountConcat(a[1..], b, room, userLeft);
    } else {
      assert a + b == b;
    }
  }

  /**
   * One room's disconnect notices hold one `user:left` and one `room:count`,
   * both addressed to that room, when the socket was in it, and nothing otherwise.
   */
  lemma NoticeCountOfLeaveNotices(t: Table, sid: ConnId, last: string, room: string, userLeft: bool)
    ensures NoticeCount(LeaveNotices(t, sid, last), room, userLeft)
         == (if last == room && sid in MembersOf(t, room) then 1 else 0)
  {
    var ns := LeaveNotices(t, sid, last);
    if ns != [] {
      assert ns[1..][1..] == [];
      assert ns[0].message.UserLeft? && ns[1].message.RoomCount?;
      assert (ns[0].audience == WholeRoom(room)) <==> last == room;
      assert ns[1].audience == ns[0].audience;
      assert NoticeCount(ns[1..][1..], room, userLeft) == 0;
    }
  }

  predicate Distinct(s: seq<string>) {
    forall i, j :: 0 <= i < j < |s| ==> s[i] != s[j]
  }

  /**
   * Walking each room once, disconnect sends exactly one `user:left` and
   * exactly one `room:count` to every room that held the socket, and neither
   * to any other room.
   */
  lemma {:induction false} DisconnectNotifiesEachRoomOnce(rooms: seq<string>, t: Table, sid: ConnId, room: string,
                                                         userLeft: bool)
    requires Distinct(rooms)
    ensures NoticeCount(DisconnectNotices(rooms, t, sid), room, userLeft)
         == (if room in rooms && sid in MembersOf(t, room) then 1 else 0)
    decreases |rooms|
  {
    if |rooms| > 0 {
      var init, last := rooms[..|rooms| - 1], rooms[|rooms| - 1];
      assert Distinct(init);
      DisconnectNotifiesEachRoomOnce(init, t, sid, room, userLeft);
      NoticeCountConcat(DisconnectNotices(init, t, sid), LeaveNotices(t, sid, last), room, userLeft);
      NoticeCountOfLeaveNotices(t, sid, last, room, userLeft);
      assert room in rooms <==> room in init || room == last;
      assert room == last ==> room !in init;
    }
  }

  /**
   * Every disconnect emit goes to a room that held the socket, and each
   * `room:count` carries that room's size after the socket was removed.
   */
  lemma {:induction false} DisconnectNoticesTargetHeldRooms(rooms: seq<string>, t: Table, sid: ConnId)
    ensures forall e :: e in DisconnectNotices(rooms, t, sid) ==>
      && e.audience.WholeRoom?
      && e.audience.key in rooms
      && sid in MembersOf(t, e.audience.key)
      && (e.message.RoomCount? ==> e.message.count == Count(EvictEverywhere(t, sid), e.audience.key))
      && (e.message.UserLeft? ==> e.message.user == t[e.audience.key][sid])
    decreases |rooms|
  {
    if |rooms| > 0 {
      var init, last := rooms[..|rooms| - 1], rooms[|rooms| - 1];
      DisconnectNoticesTargetHeldRooms(init, t, sid);
      var r := EvictEverywhere(t, sid);
      if last in t && sid in t[last] {
        if last in r {
          assert r[last] == t[last] - {sid};
        } else {
          assert (t[last] - {sid}).Keys == {};
        }
      }
    }
  }

  /** After a disconnect the socket is in no room, so a second disconnect emits nothing. */
  lemma {:induction false} SecondDisconnectSilent(rooms: seq<string>, t: Table, sid: ConnId)
    ensures DisconnectNotices(rooms, EvictEverywhere(t, sid), sid) == []
    decreases |rooms|
  {
    if |rooms| > 0 {
      SecondDisconnectSilent(rooms[..|rooms| - 1], t, sid);
    }
  }

  // ---------------------------------------------------------------------
  // Insertion order of the table's keys
  // ---------------------------------------------------------------------

  /** `order` lists every key of `t` exactly once (a JavaScript Map iterates in insertion order). */
  predicate Enumerates(order: seq<string>, t: Table) {
    Distinct(order) && (forall k :: k in order ==> k in t) && (forall k :: k in t ==> k in order)
  }

  /** The entries of `s` that are in `keep`, in their order. */
  function Retain(s: seq<string>, keep: set<string>): (r: seq<string>)
    ensures forall x :: x in r <==> x in s && x in keep
    ensures Distinct(s) ==> Distinct(r)
    decreases |s|
  {
    if |s| == 0 then []
    else (if s[0] in keep then [s[0]] else []) + Retain(s[1..], keep)
  }

  /** `s` with `k` deleted. */
  function Without(s: seq<string>, k: string): (r: seq<string>)
    ensures forall x :: x in r <==> x in s && x != k
    decreases |s|
  {
    if |s| == 0 then []
    else (if s[0] == k then [] else [s[0]]) + Without(s[1..], k)
  }

  /** Deleting a key keeps a list of distinct keys distinct. */
  lemma {:induction false} WithoutDistinct(s: seq<string>, k: string)
    requires Distinct(s)
    ensures Distinct(Without(s, k))
    decreases |s|
  {
    if |s| > 0 {
      assert Distinct(s[1..]);
      WithoutDistinct(s[1..], k);
      var rest := Without(s[1..], k);
      if s[0] != k {
        assert s[0] !in rest;
        var r := [s[0]] + rest;
        forall i, j | 0 <= i < j < |r| ensures r[i] != r[j] {
          if i == 0 {
            assert r[j] in rest;
          } else {
            assert r[i] == rest[i - 1] && r[j] == rest[j - 1];
          }
        }
      }
    }
  }

  /** Deleting a key after filtering is filtering by one key fewer. */
  lemma {:induction false} WithoutRetain(s: seq<string>, keep: set<string>, k: string)
    ensures Without(Retain(s, keep), k) == Retain(s, keep - {k})
    decreases |s|
  {
    if |s| > 0 {
      WithoutRetain(s[1..], keep, k);
      var head := if s[0] in keep then [s[0]] else [];
      assert Retain(s, keep) == head + Retain(s[1..], keep);
      WithoutConcat(head, Retain(s[1..], keep), k);
    }
  }

  lemma {:induction false} WithoutConcat(a: seq<string>, b: seq<string>, k: string)
    ensures Without(a + b, k) == Without(a, k) + Without(b, k)
    decreases |a|
  {
    if |a| > 0 {
      assert (a + b)[1..] == a[1..] + b;
      WithoutConcat(a[1..], b, k);
    } else {
      assert a + b == b;
    }
  }

  /** Filtering by every key there is changes nothing. */
  lemma {:induction false} RetainAll(s: seq<string>, keep: set<string>)
    requires forall x :: x in s ==> x in keep
    ensures Retain(s, keep) == s
    decreases |s|
  {
    if |s| > 0 {
      RetainAll(s[1..], keep);
    }
  }

  // ---------------------------------------------------------------------
  // The hub's state as a whole
  // ---------------------------------------------------------------------

  /**
   * The table, its key order and the live sockets agree: no empty room, room
   * keys only, every participant still connected, every key listed once.
   */
  predicate Consistent(t: Table, order: seq<string>, connected: set<ConnId>) {
    WellFormed(t) && MembersConnected(t, connected) && Enumerates(order, t)
  }

  /** The order after a join: a new room goes to the end, an existing one keeps its place. */
  function OrderAfterJoin(order: seq<string>, t: Table, key: string): seq<string> {
    if key in t then order else order + [key]
  }

  /** A live socket joining a room keeps the state consistent. */
  lemma JoinConsistent(t: Table, order: seq<string>, connected: set<ConnId>, key: string, sid: ConnId, user: JsValue)
    requires Consistent(t, order, connected) && IsRoomKey(key) && sid in connected
    ensures Consistent(JoinRoom(t, key, sid, user), OrderAfterJoin(order, t, key), connected)
  {
    var r := JoinRoom(t, key, sid, user);
    var o := OrderAfterJoin(order, t, key);
    JoinRoomFrame(t, key, sid, user);
    forall k, c | k in r && c in r[k] ensures c in connected {
      if k != key {
        assert RosterOf(r, k) == RosterOf(t, k);
      }
    }
    if key !in t {
      forall i, j | 0 <= i < j < |o| ensures o[i] != o[j] {
        if j == |order| {
          assert o[i] == order[i];
          assert order[i] in order;
        }
      }
    }
  }


  /** On a well-formed table, leaving a room one is not in changes nothing. */
  lemma LeaveNonMember(t: Table, key: string, sid: ConnId)
    requires WellFormed(t) && sid !in MembersOf(t, key)
    ensures LeaveRoom(t, key, sid) == t
  {
    if key in t {
      RosterRemove(t[key], sid);
      assert t[key := t[key]] == t;
    }
  }

  /**
   * Everything join-event promises about the state: it stays consistent, the
   * joiner is a member, `user:joined` reaches the earlier members other than
   * the joiner and `room:count` the whole room, and the count grows by one
   * exactly when the socket was not yet in the room.
   */
  lemma JoinEffect(t: Table, order: seq<string>, connected: set<ConnId>, key: string, sid: ConnId, user: JsValue)
    requires Consistent(t, order, connected) && IsRoomKey(key) && sid in connected
    ensures var r := JoinRoom(t, key, sid, user);
      && Consistent(r, OrderAfterJoin(order, t, key), connected)
      && Recipients(RoomExceptSender(key, sid), connected, r) == MembersOf(t, key) - {sid}
      && Recipients(WholeRoom(key), connected, r) == MembersOf(t, key) + {sid}
      && RosterOf(r, key)[sid] == user
      && Count(r, key) == Count(t, key) + (if sid in MembersOf(t, key) then 0 else 1)
  {
    JoinConsistent(t, order, connected, key, sid, user);
    JoinAudiences(t, key, sid, user, connected);
    JoinRoomSpec(t, key, sid, user);
  }

  /** The order after a leave is the old order, less the room when the leave emptied it. */
  lemma LeaveOrder(t: Table, order: seq<string>, key: string, sid: ConnId)
    requires Enumerates(order, t)
    ensures var r := LeaveRoom(t, key, sid);
      Retain(order, r.Keys) == if key in t && key !in r then Without(order, key) else order
  {
    var r := LeaveRoom(t, key, sid);
    LeaveRoomFrame(t, key, sid);
    RetainAll(order, t.Keys);
    if key in t && key !in r {
      assert r.Keys == t.Keys - {key};
      WithoutRetain(order, t.Keys, key);
    } else {
      assert r.Keys == t.Keys;
    }
  }
  /** Leaving a room keeps the state consistent, with an emptied room dropped from the order. */
  lemma LeaveConsistent(t: Table, order: seq<string>, connected: set<ConnId>, key: string, sid: ConnId)
    requires Consistent(t, order, connected)
    ensures var r := LeaveRoom(t, key, sid);
      Consistent(r, Retain(order, r.Keys), connected)
  {
    var r := LeaveRoom(t, key, sid);
    LeaveRoomFrame(t, key, sid);
    LeaveRoomSpec(t, key, sid);
    forall k, c | k in r && c in r[k] ensures c in connected {
      assert c in RosterOf(r, k);
      if k == key {
        assert c in MembersOf(t, key);
      } else {
        assert RosterOf(r, k) == RosterOf(t, k);
      }
    }
  }

  /**
   * Everything leave-event promises about the state: with the room's place
   * in the order dropped when the leave deleted the room, the state stays
   * consistent, both emits reach the members that remain, and leaving a
   * room one is not in changes nothing.
   */
  lemma LeaveEffect(t: Table, order: seq<string>, connected: set<ConnId>, key: string, sid: ConnId, o1: seq<string>)
    requires Consistent(t, order, connected)
    requires o1 == if key in t && key !in LeaveRoom(t, key, sid) then Without(order, key) else order
    ensures var r := LeaveRoom(t, key, sid);
      && Consistent(r, o1, connected)
      && Recipients(RoomExceptSender(key, sid), connected, r) == MembersOf(t, key) - {sid}
      && Recipients(WholeRoom(key), connected, r) == MembersOf(t, key) - {sid}
      && (sid !in MembersOf(t, key) ==> r == t && o1 == order)
  {
    LeaveOrder(t, order, key, sid);
    LeaveConsistent(t, order, connected, key, sid);
    LeaveAudiences(t, key, sid, connected);
    if sid !in MembersOf(t, key) {
      LeaveNonMember(t, key, sid);
    }
  }

  /** A disconnect keeps the state consistent with the socket no longer live. */
  lemma EvictConsistent(t: Table, order: seq<string>, connected: set<ConnId>, sid: ConnId)
    requires Consistent(t, order, connected)
    ensures var r := EvictEverywhere(t, sid);
      Consistent(r, Retain(order, r.Keys), connected - {sid})
  {
    var r := EvictEverywhere(t, sid);
    EvictEverywhereWellFormed(t, sid);
    EvictEverywhereSpec(t, sid);
    forall k, c | k in r && c in r[k] ensures c in connected - {sid} {
      assert c in MembersOf(r, k);
    }
  }

  // ---------------------------------------------------------------------
  // Presence over a whole history
  // ---------------------------------------------------------------------

  /** One table update: a join, a leave or a disconnect. */
  datatype Step =
    | JoinStep(key: string, sid: ConnId, user: JsValue)
    | LeaveStep(key: string, sid: ConnId)
    | DisconnectStep(sid: ConnId)

  function ApplyStep(t: Table, s: Step): Table {
    match s
    case JoinStep(key, sid, user) => JoinRoom(t, key, sid, user)
    case LeaveStep(key, sid) => LeaveRoom(t, key, sid)
    case DisconnectStep(sid) => EvictEverywhere(t, sid)
  }

  /** The table after `steps`, starting from the empty table at server start. */
  function Replay(steps: seq<Step>): Table
    decreases |steps|
  {
    if |steps| == 0 then map[] else ApplyStep(Replay(steps[..|steps| - 1]), steps[|steps| - 1])
  }

  /**
   * Reference definition of presence, by sets alone: the sockets that joined
   * `key` and have neither left it nor disconnected since.
   */
  function Present(steps: seq<Step>, key: string): set<ConnId>
    decreases |steps|
  {
    if |steps| == 0 then {}
    else
      var before := Present(steps[..|steps| - 1], key);
      match steps[|steps| - 1]
      case JoinStep(k, sid, _) => if k == key then before + {sid} else before
      case LeaveStep(k, sid) => if k == key then before - {sid} else before
      case DisconnectStep(sid) => before - {sid}
  }

  /**
   * For every history of joins, leaves and disconnects, a room's members are
   * exactly the sockets present in it, and its count is their number: the
   * count never drifts from the set, and re-joining never counts twice.
   */
  lemma {:induction false} ReplayMatchesPresence(steps: seq<Step>, key: string)
    ensures MembersOf(Replay(steps), key) == Present(steps, key)
    ensures Count(Replay(steps), key) == |Present(steps, key)|
    decreases |steps|
  {
    if |steps| > 0 {
      var init := steps[..|steps| - 1];
      var t := Replay(init);
      ReplayMatchesPresence(init, key);
      match steps[|steps| - 1]
      case JoinStep(k, sid, user) =>
        if k == key {
          JoinRoomSpec(t, k, sid, user);
        } else {
          JoinRoomFrame(t, k, sid, user);
        }
      case LeaveStep(k, sid) =>
        if k == key {
          LeaveRoomSpec(t, k, sid);
        } else {
          LeaveRoomFrame(t, k, sid);
        }
      case DisconnectStep(sid) =>
        EvictEverywhereSpec(t, sid);
    }
  }

  /** Every history whose joins use room keys leaves a well-formed table: no empty room remains. */
  lemma {:induction false} ReplayWellFormed(steps: seq<Step>)
    requires forall i :: 0 <= i < |steps| && steps[i].JoinStep? ==> IsRoomKey(steps[i].key)
    ensures WellFormed(Replay(steps))
    decreases |steps|
  {
    if |steps| > 0 {
      var init := steps[..|steps| - 1];
      assert forall i :: 0 <= i < |init| ==> init[i] == steps[i];
      ReplayWellFormed(init);
      match steps[|steps| - 1]
      case JoinStep(key, sid, user) =>
        assert steps[|steps| - 1].JoinStep?;
        JoinRoomFrame(Replay(init), key, sid, user);
      case LeaveStep(key, sid) => LeaveRoomFrame(Replay(init), key, sid);
      case DisconnectStep(sid) => EvictEverywhereWellFormed(Replay(init), sid);
    }
  }
}
