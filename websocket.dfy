/**
 * The real-time service of the events platform: one socket.io server (`io`),
 * the participant table `roomParticipants`, the five socket handlers that
 * update and read it, and the six broadcast helpers the HTTP routes call.
 *
 * Node runs every handler to completion, so each method below is one
 * handler invocation. Each returns the emits it makes, in order, as
 * (audience, message) pairs; `Recipients` in module RoomTable says which
 * sockets an audience reaches in the state the method leaves behind.
 */
module WebSocket {
  import opened Js
  import opened Wrappers
  import opened RoomTable

  class Hub {
    /** `io !== null`: the server has been created. */
    var initialized: bool
    /** The sockets the server holds. */
    var connected: set<ConnId>
    /** `roomParticipants` */
    var rooms: Table
    /** The keys of `roomParticipants` in insertion order, the order `entries()` walks. */
    var order: seq<string>

    ghost predicate Valid()
      reads this
    {
      && Consistent(rooms, order, connected)
      && (!initialized ==> connected == {})
    }

    /** Module load: `io` is null and the table is empty. */
    constructor ()
      ensures Valid()
      ensures !initialized && connected == {} && rooms == map[] && order == []
    {
      initialized := false;
      connected := {};
      rooms := map[];
      order := [];
    }

    /** `initializeWebSocket(server)`, which the server start-up calls once. */
    method Initialize()
      requires Valid() && !initialized
      modifies this
      ensures Valid() && initialized
      ensures connected == old(connected) && rooms == old(rooms) && order == old(order)
    {
      initialized := true;
    }

    /** A client completes the handshake (the "connection" event). */
    method Connect(sid: ConnId)
      requires Valid() && initialized
      modifies this
      ensures Valid() && initialized
      ensures connected == old(connected) + {sid}
      ensures rooms == old(rooms) && order == old(order)
    {
      connected := connected + {sid};
    }

    /** `getIO()`: throws until the server exists. */
    function GetIO(): (r: Result<(), string>)
      reads this
      ensures r.Success? <==> initialized
      ensures r.Failure? ==> r.error == "WebSocket not initialized."
    {
      if initialized then Success(()) else Failure("WebSocket not initialized.")
    }

    /** `getRoomCount(eventId)`: the number of participants of the event's room, 0 for no room. */
    function GetRoomCount(eventId: JsValue): (n: nat)
      reads this
      ensures n == |MembersOf(rooms, RoomKey(eventId))|
      ensures RoomKey(eventId) !in rooms ==> n == 0
    {
      Count(rooms, RoomKey(eventId))
    }

    /**
     * join-event. A falsy `eventId` is dropped. Otherwise the socket's
     * identity is set in the room (creating it), `user:joined` goes to the
     * room's earlier members except the joiner, and `room:count` with the new
     * size goes to the whole room, joiner included.
     */
    method JoinEvent(sid: ConnId, eventId: JsValue, user: JsValue) returns (emits: seq<Emission>)
      requires Valid() && sid in connected
      modifies this`rooms, this`order
      ensures Valid()
      ensures initialized == old(initialized) && connected == old(connected)
      ensures !Truthy(eventId) ==> rooms == old(rooms) && order == old(order) && emits == []
      ensures Truthy(eventId) ==>
        var key := RoomKey(eventId);
        && rooms == JoinRoom(old(rooms), key, sid, user)
        && order == OrderAfterJoin(old(order), old(rooms), key)
        && emits == [Emission(RoomExceptSender(key, sid), UserJoined(user, eventId)),
                     Emission(WholeRoom(key), RoomCount(eventId, Count(rooms, key)))]
        && Recipients(RoomExceptSender(key, sid), connected, rooms) == MembersOf(old(rooms), key) - {sid}
        && Recipients(WholeRoom(key), connected, rooms) == MembersOf(old(rooms), key) + {sid}
        && RosterOf(rooms, key)[sid] == user
        && Count(rooms, key) == Count(old(rooms), key) + (if sid in MembersOf(old(rooms), key) then 0 else 1)
    {
      if !Truthy(eventId) {
        return [];
      }
      var room := RoomKey(eventId);
      var t, o, count := AddParticipant(rooms, order, room, sid, user);
      emits := [Emission(RoomExceptSender(room, sid), UserJoined(user, eventId)),
                Emission(WholeRoom(room), RoomCount(eventId, count))];
      RoomKeyIsRoomKey(eventId);
      JoinEffect(rooms, order, connected, room, sid, user);
      rooms, order := t, o;
    }

    /**
     * leave-event. A falsy `eventId` is dropped. Otherwise the socket's entry
     * is deleted (and the room, once empty); `user:left` with the identity the
     * client sent now and `room:count` go to the remaining members. Leaving a
     * room one is not in changes nothing but still sends both.
     */
    method LeaveEvent(sid: ConnId, eventId: JsValue, user: JsValue) returns (emits: seq<Emission>)
      requires Valid() && sid in connected
      modifies this`rooms, this`order
      ensures Valid()
      ensures initialized == old(initialized) && connected == old(connected)
      ensures !Truthy(eventId) ==> rooms == old(rooms) && order == old(order) && emits == []
      ensures Truthy(eventId) ==>
        var key := RoomKey(eventId);
        && rooms == LeaveRoom(old(rooms), key, sid)
        && order == (if key in old(rooms) && key !in rooms then Without(old(order), key) else old(order))
        && emits == [Emission(RoomExceptSender(key, sid), UserLeft(user, eventId)),
                     Emission(WholeRoom(key), RoomCount(eventId, Count(rooms, key)))]
        && Recipients(RoomExceptSender(key, sid), connected, rooms) == MembersOf(old(rooms), key) - {sid}
        && Recipients(WholeRoom(key), connected, rooms) == MembersOf(old(rooms), key) - {sid}
        && (sid !in MembersOf(old(rooms), key) ==> rooms == old(rooms) && order == old(order))
    {
      if !Truthy(eventId) {
        return [];
      }
      var room := RoomKey(eventId);
      var t, o, count := RemoveParticipant(rooms, order, room, sid);
      emits := [Emission(RoomExceptSender(room, sid), UserLeft(user, eventId)),
                Emission(WholeRoom(room), RoomCount(eventId, count))];
      LeaveEffect(rooms, order, connected, room, sid, o);
      rooms, order := t, o;
    }

    /**
     * chat:send. A falsy `eventId` or `message` is dropped (a message of
     * spaces is not); otherwise `chat:new` goes to the whole room: the
     * sender receives its own message exactly when it is a member.
     */
    method ChatSend(sid: ConnId, eventId: JsValue, user: JsValue, message: JsValue, ts: string)
      returns (emits: seq<Emission>)
      requires Valid()
      ensures !Truthy(eventId) || !Truthy(message) ==> emits == []
      ensures Truthy(eventId) && Truthy(message) ==>
        && emits == [Emission(WholeRoom(RoomKey(eventId)), ChatNew(eventId, user, message, ts))]
        && Recipients(emits[0].audience, connected, rooms) == MembersOf(rooms, RoomKey(eventId))
        && (sid in Recipients(emits[0].audience, connected, rooms) <==> sid in MembersOf(rooms, RoomKey(eventId)))
    {
      if !Truthy(eventId) {
        return [];
      }
      if !Truthy(message) {
        return [];
      }
      var room := RoomKey(eventId);
      emits := [Emission(WholeRoom(room), ChatNew(eventId, user, message, ts))];
    }

    /**
     * chat:typing. A falsy `eventId` is dropped, and so is a truthy `stop`;
     * otherwise `chat:typing` carrying only `user` goes to the room's members
     * other than the sender.
     */
    method ChatTypingSignal(sid: ConnId, eventId: JsValue, user: JsValue, stop: JsValue)
      returns (emits: seq<Emission>)
      requires Valid()
      ensures !Truthy(eventId) || Truthy(stop) ==> emits == []
      ensures Truthy(eventId) && !Truthy(stop) ==>
        && emits == [Emission(RoomExceptSender(RoomKey(eventId), sid), ChatTyping(user))]
        && Recipients(emits[0].audience, connected, rooms) == MembersOf(rooms, RoomKey(eventId)) - {sid}
    {
      if !Truthy(eventId) {
        return [];
      }
      var room := RoomKey(eventId);
      if Truthy(stop) {
        return [];
      }
      emits := [Emission(RoomExceptSender(room, sid), ChatTyping(user))];
    }

    /**
     * disconnect. socket.io has already dropped the socket; the handler walks
     * every room in insertion order and, in each room holding the socket,
     * deletes its entry (and the room, once empty), then sends `user:left`
     * with the stored identity and `room:count` with the new size to the
     * room. Rooms without the socket are neither changed nor notified.
     */
    method Disconnect(sid: ConnId) returns (emits: seq<Emission>)
      requires Valid()
      modifies this
      ensures Valid()
      ensures initialized == old(initialized) && connected == old(connected) - {sid}
      ensures rooms == EvictEverywhere(old(rooms), sid)
      ensures order == Retain(old(order), rooms.Keys)
      ensures emits == DisconnectNotices(old(order), old(rooms), sid)
      ensures forall e :: e in emits ==>
        e.audience.WholeRoom? && Recipients(e.audience, connected, rooms) == MembersOf(old(rooms), e.audience.key) - {sid}
    {
      var t, o;
      t, o, emits := LeaveEveryRoom(rooms, order, sid);
      DisconnectState(rooms, order, connected, sid, t, o, emits);
      rooms, order, connected := t, o, connected - {sid};
    }

    /** broadcastEventCreated: `event:created` to every socket; nothing before the server exists. */
    method BroadcastEventCreated(event: EventRow) returns (emits: seq<Emission>)
      ensures emits == if initialized then Broadcast(EventCreatedNote(event)) else []
    {
      emits := [];
      if initialized {
        emits := [Emission(Everyone, EventCreated(event))];
      }
    }

    /** broadcastEventUpdated: `event:updated` to every socket, then again to the event's room. */
    method BroadcastEventUpdated(event: EventRow) returns (emits: seq<Emission>)
      ensures emits == if initialized then Broadcast(EventUpdatedNote(event)) else []
    {
      emits := [];
      if initialized {
        emits := emits + [Emission(Everyone, EventUpdated(event))];
        emits := emits + [Emission(WholeRoom(RoomKey(event.id)), EventUpdated(event))];
      }
    }

    /** broadcastEventDeleted: `event:deleted` to every socket. */
    method BroadcastEventDeleted(eventId: JsValue) returns (emits: seq<Emission>)
      ensures emits == if initialized then Broadcast(EventDeletedNote(eventId)) else []
    {
      emits := [];
      if initialized {
        emits := [Emission(Everyone, EventDeleted(eventId))];
      }
    }

    /** broadcastRSVPUpdate: `rsvp:updated` to every socket, then again to the event's room. */
    method BroadcastRsvpUpdate(rsvp: JsValue, eventId: JsValue) returns (emits: seq<Emission>)
      ensures emits == if initialized then Broadcast(RsvpUpdatedNote(rsvp, eventId)) else []
    {
      emits := [];
      if initialized {
        emits := emits + [Emission(Everyone, RsvpUpdated(rsvp, eventId))];
        emits := emits + [Emission(WholeRoom(RoomKey(eventId)), RsvpUpdated(rsvp, eventId))];
      }
    }

    /** broadcastCommentCreated: `comment:created` to the event's room only. */
    method BroadcastCommentCreated(comment: JsValue, eventId: JsValue) returns (emits: seq<Emission>)
      ensures emits == if initialized then Broadcast(CommentCreatedNote(comment, eventId)) else []
    {
      emits := [];
      if initialized {
        emits := [Emission(WholeRoom(RoomKey(eventId)), CommentCreated(comment, eventId))];
      }
    }

    /** broadcastCommentDeleted: `comment:deleted` to the event's room only. */
    method BroadcastCommentDeleted(commentId: JsValue, eventId: JsValue) returns (emits: seq<Emission>)
      ensures emits == if initialized then Broadcast(CommentDeletedNote(commentId, eventId)) else []
    {
      emits := [];
      if initialized {
        emits := [Emission(WholeRoom(RoomKey(eventId)), CommentDeleted(commentId, eventId))];
      }
    }
  }

  /** The state a disconnect leaves is consistent, and each of its emits reaches a room's remaining members. */
  lemma DisconnectState(t0: Table, o0: seq<string>, connected: set<ConnId>, sid: ConnId,
                        t: Table, o: seq<string>, emits: seq<Emission>)
    requires Consistent(t0, o0, connected)
    requires t == EvictEverywhere(t0, sid) && o == Retain(o0, t.Keys)
    requires emits == DisconnectNotices(o0, t0, sid)
    ensures Consistent(t, o, connected - {sid})
    ensures forall e :: e in emits ==>
      e.audience.WholeRoom? && Recipients(e.audience, connected - {sid}, t) == MembersOf(t0, e.audience.key) - {sid}
  {
    EvictEverywhereSpec(t0, sid);
    EvictConsistent(t0, o0, connected, sid);
    DisconnectNoticesTargetHeldRooms(o0, t0, sid);
  }

  /**
   * The table update of join-event: a room missing from the table is created
   * (and takes the last place in the insertion order), then the socket's
   * identity is set in it; `count` is the room's size afterwards.
   */
  method AddParticipant(t: Table, o: seq<string>, room: string, sid: ConnId, user: JsValue)
    returns (t1: Table, o1: seq<string>, count: nat)
    ensures t1 == JoinRoom(t, room, sid, user)
    ensures o1 == OrderAfterJoin(o, t, room)
    ensures count == Count(t1, room)
  {
    t1, o1 := t, o;
    if room !in t1 {
      t1 := t1[room := map[]];
      o1 := o1 + [room];
    }
    var roster := t1[room][sid := user];
    assert roster == RosterOf(t, room)[sid := user];
    t1 := t1[room := roster];
    assert t1 == t[room := roster];
    count := |roster|;
  }

  /**
   * The table update of leave-event: when the room exists the socket's entry
   * is deleted, and the room too once empty (leaving the insertion order);
   * `count` is the room's size afterwards, 0 for a room that is gone.
   */
  method RemoveParticipant(t: Table, o: seq<string>, room: string, sid: ConnId)
    returns (t1: Table, o1: seq<string>, count: nat)
    ensures t1 == LeaveRoom(t, room, sid)
    ensures o1 == if room in t && room !in t1 then Without(o, room) else o
    ensures count == Count(t1, room)
  {
    t1, o1 := t, o;
    if room in t1 {
      var rest := t1[room] - {sid};
      t1 := t1[room := rest];
      if |rest| == 0 {
        t1 := t1 - {room};
        o1 := Without(o1, room);
        assert t1 == t - {room};
      }
    }
    count := if room in t1 then |t1[room]| else 0;
  }

  /**
   * The body of the disconnect handler's loop for one room of the table:
   * when the room holds the socket, its entry goes (and the room too once
   * empty, and with it its place in the order), and the room is sent
   * `user:left` with the stored identity and `room:count` with the new size.
   */
  method LeaveOneRoom(t: Table, o: seq<string>, room: string, sid: ConnId)
    returns (t1: Table, o1: seq<string>, notices: seq<Emission>)
    requires room in t && |t[room]| > 0
    ensures t1 == LeaveRoom(t, room, sid)
    ensures o1 == if room in t1 then o else Without(o, room)
    ensures notices == LeaveNotices(t, sid, room)
  {
    t1, o1, notices := t, o, [];
    if sid in t[room] {
      var user := t[room][sid];
      var participants := t[room] - {sid};
      var count := |participants|;
      var eventId := ReplaceFirst(room, RoomPrefix, "");
      if count == 0 {
        t1 := t1 - {room};
        o1 := Without(o1, room);
        assert room !in t1;
      } else {
        t1 := t1[room := participants];
        assert room in t1;
      }
      assert t1 == LeaveRoom(t, room, sid);
      notices := [Emission(WholeRoom(room), UserLeft(user, JStr(eventId))),
                  Emission(WholeRoom(room), RoomCount(JStr(eventId), count))];
      assert notices == LeaveNotices(t, sid, room);
    } else {
      RosterRemove(t[room], sid);
      assert t == t[room := t[room]];
    }
  }

  /**
   * The loop of the disconnect handler over `roomParticipants.entries()`:
   * `keys` is the table's insertion order, and each room is handled by
   * LeaveOneRoom against the table as the walk has left it so far.
   */
  method LeaveEveryRoom(t0: Table, keys: seq<string>, sid: ConnId)
    returns (t: Table, o: seq<string>, emits: seq<Emission>)
    requires WellFormed(t0) && Enumerates(keys, t0)
    ensures t == EvictEverywhere(t0, sid)
    ensures o == Retain(keys, t.Keys)
    ensures emits == DisconnectNotices(keys, t0, sid)
  {
    t, o := t0, keys;
    RetainAll(keys, t0.Keys);
    emits := [];
    var i := 0;
    while i < |keys|
      invariant 0 <= i <= |keys|
      invariant t == LeaveAll(t0, keys[..i], sid)
      invariant o == Retain(keys, t.Keys)
      invariant emits == DisconnectNotices(keys[..i], t0, sid)
    {
      var room := keys[i];
      WalkStep(t0, keys, i, sid);
      var t1, o1, notices := LeaveOneRoom(t, o, room, sid);
      WalkAdvance(t0, keys, i, sid, t, o, emits, t1, o1, notices);
      t, o, emits := t1, o1, emits + notices;
      i := i + 1;
    }
    assert keys[..i] == keys;
    DisconnectWalk(t0, keys, sid);
  }

  /** One step of the disconnect loop keeps its three invariants. */
  lemma WalkAdvance(t0: Table, keys: seq<string>, i: nat, sid: ConnId, t: Table, o: seq<string>, emits: seq<Emission>,
                    t1: Table, o1: seq<string>, notices: seq<Emission>)
    requires WellFormed(t0) && Enumerates(keys, t0) && i < |keys|
    requires t == LeaveAll(t0, keys[..i], sid) && o == Retain(keys, t.Keys)
    requires emits == DisconnectNotices(keys[..i], t0, sid)
    requires t1 == LeaveRoom(t, keys[i], sid)
    requires o1 == if keys[i] in t1 then o else Without(o, keys[i])
    requires notices == LeaveNotices(t, sid, keys[i])
    ensures t1 == LeaveAll(t0, keys[..i + 1], sid)
    ensures o1 == Retain(keys, t1.Keys)
    ensures emits + notices == DisconnectNotices(keys[..i + 1], t0, sid)
  {
    var room := keys[i];
    WalkStep(t0, keys, i, sid);
    if room !in t1 {
      WithoutRetain(keys, t.Keys, room);
    }
    assert notices == LeaveNotices(t0, sid, room);
  }
}
