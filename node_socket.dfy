/** The Node server's Socket.IO handlers (server/src/socket/socketHandler.js). Each handler
    runs inside a try/catch that only logs, so a handler that throws part-way leaves the writes
    it had already made and emits nothing further. */
module NodeSocket {
  import opened Text
  import opened Records
  import opened Store

  /** What a successful `join_room` emits for each role: the joiner's own snapshot, or, for a
      superadmin, the live roster sent to the whole room. */
  function JoinSnapshot(conn: ConnId, code: string, r: RoomId, role: JoinRole,
                        users: map<UserId, User>, ms: seq<Message>): (evs: seq<Event>)
    ensures |evs| == if role == AsOther then 0 else 1
    ensures role in {AsUser, AsAdmin, AsBroadcast} ==> evs[0].target == ToConn(conn) && evs[0].payload.Many?
    ensures role == AsSuperAdmin ==> evs[0].target == ToChannel(RoomChannel(code))
  {
    match role
    case AsUser => [Event(ToConn(conn), "load_messages", Many(Views(users, RoomMessages(ms, r, None))))]
    case AsAdmin => [Event(ToConn(conn), "load_pending_messages", Many(Views(users, RoomMessages(ms, r, Some(Pending)))))]
    case AsBroadcast => [Event(ToConn(conn), "load_broadcast_messages", Many(Views(users, RoomMessages(ms, r, Some(Approved)))))]
    case AsSuperAdmin => [Event(ToChannel(RoomChannel(code)), "superadmin_live_users", Roster(LiveUsers(users, r)))]
    case AsOther => []
  }

  /** A status snapshot lists, in order, exactly the room's messages with that status, each
      with its sender resolved. */
  lemma SnapshotContents(users: map<UserId, User>, ms: seq<Message>, r: RoomId, st: Status)
    ensures var views := Views(users, RoomMessages(ms, r, Some(st)));
      && (forall i :: 0 <= i < |views| ==>
            var m := views[i].msg; m in ms && m.room == r && m.status == st)
      && (forall m :: m in ms && m.room == r && m.status == st ==>
            exists i :: 0 <= i < |views| && views[i].msg == m)
  {
    var snapshot := RoomMessages(ms, r, Some(st));
    var views := Views(users, snapshot);
    forall i | 0 <= i < |views| ensures views[i].msg in snapshot {
      assert views[i].msg == snapshot[i];
    }
    forall m | m in ms && m.room == r && m.status == st
      ensures exists i :: 0 <= i < |views| && views[i].msg == m
    {
      var i :| 0 <= i < |snapshot| && snapshot[i] == m;
      assert views[i].msg == m;
    }
  }

  /** The broadcast viewer is sent exactly the approved messages of the room, and the admin
      exactly the pending ones, each only to the joining connection. */
  lemma JoinSnapshotContents(conn: ConnId, code: string, r: RoomId, users: map<UserId, User>, ms: seq<Message>)
    ensures var e := JoinSnapshot(conn, code, r, AsBroadcast, users, ms)[0];
      && e.target == ToConn(conn) && e.name == "load_broadcast_messages"
      && e.payload == Many(Views(users, RoomMessages(ms, r, Some(Approved))))
    ensures var e := JoinSnapshot(conn, code, r, AsAdmin, users, ms)[0];
      && e.target == ToConn(conn) && e.name == "load_pending_messages"
      && e.payload == Many(Views(users, RoomMessages(ms, r, Some(Pending))))
    ensures var views := Views(users, RoomMessages(ms, r, Some(Approved)));
      forall m :: m in ms && m.room == r && m.status == Approved <==>
        exists i :: 0 <= i < |views| && views[i].msg == m
    ensures var views := Views(users, RoomMessages(ms, r, Some(Pending)));
      forall m :: m in ms && m.room == r && m.status == Pending <==>
        exists i :: 0 <= i < |views| && views[i].msg == m
  {
    SnapshotContents(users, ms, r, Approved);
    SnapshotContents(users, ms, r, Pending);
  }

  /** `join_room`: normalise the code and find the room; a missing code is ignored and an
      unknown one answered with `room_not_found`. */
  method JoinRoom(s: Store, conn: ConnId, roomCode: Option<string>, role: JoinRole, userId: Option<UserId>)
    requires s.Valid()
    modifies s
    ensures s.Valid()
    ensures s.rooms == old(s.rooms) && s.messages == old(s.messages) && s.nextId == old(s.nextId)
    ensures s.users.Keys == old(s.users.Keys)
    ensures old(s.Consistent()) ==> s.Consistent()
    ensures !Truthy(roomCode) ==>
      s.users == old(s.users) && s.membership == old(s.membership) && s.events == old(s.events)
    ensures Truthy(roomCode) && CodeOwner(s.rooms, Normalize(Js, roomCode.value)).None? ==>
      && s.users == old(s.users) && s.membership == old(s.membership)
      && s.events == old(s.events) + [Event(ToConn(conn), "room_not_found", NoPayload)]
    ensures Truthy(roomCode) && CodeOwner(s.rooms, Normalize(Js, roomCode.value)).Some? ==>
      var code := Normalize(Js, roomCode.value);
      && s.membership == old(s.membership)[conn := Channels(old(s.membership), conn) + JoinedChannels(code, role)]
      && s.users == MarkOnline(old(s.users), userId, conn)
      && s.events == old(s.events)
           + JoinSnapshot(conn, code, CodeOwner(s.rooms, code).value, role, s.users, s.messages)
  {
    if !Truthy(roomCode) {
      return;
    }
    var code := Normalize(Js, roomCode.value);
    var found := s.FindRoomByCode(code);
    if found.None? {
      s.Emit([Event(ToConn(conn), "room_not_found", NoPayload)]);
      return;
    }
    EnterRoom(s, conn, code, found.value, role, userId);
  }

  /** The rest of `join_room` once the room is found: join its channels, record the joiner's
      presence, then send the role's snapshot (built after the presence update). */
  method EnterRoom(s: Store, conn: ConnId, code: string, r: RoomId, role: JoinRole, userId: Option<UserId>)
    requires s.Valid()
    modifies s
    ensures s.Valid()
    ensures s.rooms == old(s.rooms) && s.messages == old(s.messages) && s.nextId == old(s.nextId)
    ensures old(s.Consistent()) ==> s.Consistent()
    ensures s.membership == old(s.membership)[conn := Channels(old(s.membership), conn) + JoinedChannels(code, role)]
    ensures s.users == MarkOnline(old(s.users), userId, conn)
    ensures s.events == old(s.events) + JoinSnapshot(conn, code, r, role, s.users, s.messages)
  {
    JoinChannels(s, conn, code, role);
    if userId.Some? && userId.value in s.users {
      s.SaveUser(userId.value, GoOnline(s.users[userId.value], conn));
    }
    s.Emit(JoinSnapshot(conn, code, r, role, s.users, s.messages));
  }

  /** `send_message`: a non-blank message to an existing room is stored as pending, under a
      fresh id, last in creation order, and pushed to the room's channel twice. A missing
      room code throws before anything is written. */
  method SendMessage(s: Store, userId: Option<UserId>, roomCode: Option<string>, content: Option<string>)
    requires s.Valid()
    modifies s
    ensures s.Valid()
    ensures s.rooms == old(s.rooms) && s.users == old(s.users) && s.membership == old(s.membership)
    ensures old(s.Consistent()) ==> s.Consistent()
    ensures NeverUnapproves(old(s.messages), s.messages)
    ensures content.None? || IsBlank(Js, content.value) || roomCode.None?
            || CodeOwner(s.rooms, Normalize(Js, roomCode.value)).None? ==>
      s.messages == old(s.messages) && s.events == old(s.events) && s.nextId == old(s.nextId)
    ensures content.Some? && !IsBlank(Js, content.value) && roomCode.Some?
            && CodeOwner(s.rooms, Normalize(Js, roomCode.value)).Some? ==>
      var code := Normalize(Js, roomCode.value);
      var m := Message(old(s.nextId), CodeOwner(s.rooms, code).value, userId, None, Trim(Js, content.value), Pending);
      && s.nextId == old(s.nextId) + 1
      && s.messages == old(s.messages) + [m]
      && s.events == old(s.events) + [Event(ToChannel(RoomChannel(code)), "receive_message", One(ViewOf(s.users, m))),
                                       Event(ToChannel(RoomChannel(code)), "new_pending_message", One(ViewOf(s.users, m)))]
  {
    if content.None? || IsBlank(Js, content.value) || roomCode.None? {
      return;
    }
    var code := Normalize(Js, roomCode.value);
    var found := s.FindRoomByCode(code);
    if found.None? {
      return;
    }
    var m := s.AddMessage(found.value, userId, None, Trim(Js, content.value), Pending);
    var view := ViewOf(s.users, m);
    s.Emit([Event(ToChannel(RoomChannel(code)), "receive_message", One(view)),
            Event(ToChannel(RoomChannel(code)), "new_pending_message", One(view))]);
  }

  /** `approve_message`: the message is approved in place and pushed to its room's broadcast
      channel. When its room is gone the approval is saved and the push throws. */
  method ApproveMessage(s: Store, messageId: MessageId)
    requires s.Valid()
    modifies s
    ensures s.Valid()
    ensures s.rooms == old(s.rooms) && s.users == old(s.users) && s.membership == old(s.membership)
    ensures s.nextId == old(s.nextId)
    ensures old(s.Consistent()) ==> s.Consistent()
    ensures s.messages == Approve(old(s.messages), messageId)
    ensures NeverUnapproves(old(s.messages), s.messages)
    ensures Lookup(old(s.messages), messageId).None? ==> s.messages == old(s.messages) && s.events == old(s.events)
    ensures Lookup(old(s.messages), messageId).Some? ==>
      var m := Lookup(old(s.messages), messageId).value.(status := Approved);
      && m in s.messages
      && s.events == old(s.events) +
           if m.room in s.rooms
           then [Event(ToChannel(BroadcastChannel(s.rooms[m.room].code)), "broadcast_message", One(ViewOf(s.users, m)))]
           else []
  {
    var found := s.FindMessage(messageId);
    s.ApproveMessage(messageId);
    if found.None? {
      return;
    }
    var m := found.value.(status := Approved);
    if m.room in s.rooms {
      s.Emit([Event(ToChannel(BroadcastChannel(s.rooms[m.room].code)), "broadcast_message", One(ViewOf(s.users, m)))]);
    }
  }

  /** `approve_user` over the socket: the user is approved and told so on its own connection
      (when it has one) and on the room channel named by the caller (when one is named). */
  method ApproveUser(s: Store, userId: Option<UserId>, roomCode: Option<string>)
    requires s.Valid()
    modifies s
    ensures s.Valid()
    ensures s.rooms == old(s.rooms) && s.messages == old(s.messages) && s.membership == old(s.membership)
    ensures s.nextId == old(s.nextId) && s.users.Keys == old(s.users.Keys)
    ensures old(s.Consistent()) ==> s.Consistent()
    ensures userId.None? || userId.value !in old(s.users) ==> s.users == old(s.users) && s.events == old(s.events)
    ensures userId.Some? && userId.value in old(s.users) ==>
      var u := userId.value;
      var sid := old(s.users)[u].socketId;
      && s.users == old(s.users)[u := old(s.users)[u].(status := Approved)]
      && s.events == old(s.events)
           + (if sid.Some? then [Event(ToConn(sid.value), "user_approved", Ident(u))] else [])
           + (if Truthy(roomCode) then [Event(ToChannel(RoomChannel(Normalize(Js, roomCode.value))), "user_approved", Ident(u))] else [])
  {
    var found := s.FindUser(userId);
    if found.None? {
      return;
    }
    var u := userId.value;
    var user := found.value.(status := Approved);
    s.SaveUser(u, user);
    var toUser := if user.socketId.Some? then [Event(ToConn(user.socketId.value), "user_approved", Ident(u))] else [];
    s.Emit(toUser);
    if Truthy(roomCode) {
      s.Emit([Event(ToChannel(RoomChannel(Normalize(Js, roomCode.value))), "user_approved", Ident(u))]);
    }
  }

  /** `kick_user`: the user's connection is told it was removed, and the user is marked
      offline with no connection. The record, its status and its room are kept. */
  method KickUser(s: Store, userId: Option<UserId>)
    requires s.Valid()
    modifies s
    ensures s.Valid()
    ensures s.rooms == old(s.rooms) && s.messages == old(s.messages) && s.membership == old(s.membership)
    ensures s.nextId == old(s.nextId) && s.users.Keys == old(s.users.Keys)
    ensures old(s.Consistent()) ==> s.Consistent()
    ensures userId.None? || userId.value !in old(s.users) ==> s.users == old(s.users) && s.events == old(s.events)
    ensures userId.Some? && userId.value in old(s.users) ==>
      var u := userId.value;
      var sid := old(s.users)[u].socketId;
      && s.users == old(s.users)[u := GoOffline(old(s.users)[u])]
      && s.users[u].status == old(s.users)[u].status && s.users[u].room == old(s.users)[u].room
      && s.events == old(s.events)
           + if sid.Some? then [Event(ToConn(sid.value), "kicked_from_room", Note("You were removed by Super Admin"))] else []
  {
    var found := s.FindUser(userId);
    if found.None? {
      return;
    }
    var user := found.value;
    if user.socketId.Some? {
      s.Emit([Event(ToConn(user.socketId.value), "kicked_from_room", Note("You were removed by Super Admin"))]);
    }
    s.SaveUser(userId.value, GoOffline(user));
  }

  /** `delete_room`: the room's users, its messages and then the room itself are deleted, and
      the room channel is told. Every other room, user and message is kept. */
  method DeleteRoom(s: Store, roomCode: Option<string>)
    requires s.Valid()
    modifies s
    ensures s.Valid()
    ensures s.membership == old(s.membership) && s.nextId == old(s.nextId)
    ensures old(s.Consistent()) ==> s.Consistent()
    ensures NeverUnapproves(old(s.messages), s.messages)
    ensures !Truthy(roomCode) || CodeOwner(old(s.rooms), Normalize(Js, roomCode.value)).None? ==>
      && s.rooms == old(s.rooms) && s.users == old(s.users) && s.messages == old(s.messages)
      && s.events == old(s.events)
    ensures Truthy(roomCode) && CodeOwner(old(s.rooms), Normalize(Js, roomCode.value)).Some? ==>
      var code := Normalize(Js, roomCode.value);
      var r := CodeOwner(old(s.rooms), code).value;
      && s.rooms == old(s.rooms) - {r}
      && (forall u :: u in s.users <==> u in old(s.users) && old(s.users)[u].room != r)
      && s.users == old(s.users) - UsersOf(old(s.users), r).Keys
      && (forall m :: m in s.messages <==> m in old(s.messages) && m.room != r)
      && s.messages == Filter(old(s.messages), NotInRoom(r))
      && s.events == old(s.events) + [Event(ToChannel(RoomChannel(code)), "room_deleted", NoPayload)]
  {
    if !Truthy(roomCode) {
      return;
    }
    var code := Normalize(Js, roomCode.value);
    var found := s.FindRoomByCode(code);
    if found.None? {
      return;
    }
    s.DeleteRoom(found.value);
    s.Emit([Event(ToChannel(RoomChannel(code)), "room_deleted", NoPayload)]);
  }

  /** `disconnect`: the user holding this connection (the first one found, when several do)
      is marked offline; Socket.IO drops the connection from all its channels. */
  method Disconnect(s: Store, conn: ConnId)
    requires s.Valid()
    modifies s
    ensures s.Valid()
    ensures s.rooms == old(s.rooms) && s.messages == old(s.messages) && s.events == old(s.events)
    ensures s.nextId == old(s.nextId) && s.users.Keys == old(s.users.Keys)
    ensures old(s.Consistent()) ==> s.Consistent()
    ensures s.membership == old(s.membership) - {conn}
    ensures (forall u :: u in old(s.users) ==> old(s.users)[u].socketId != Some(conn)) ==> s.users == old(s.users)
    ensures (exists u :: u in old(s.users) && old(s.users)[u].socketId == Some(conn)) ==>
      exists u :: u in old(s.users) && old(s.users)[u].socketId == Some(conn)
               && s.users == old(s.users)[u := GoOffline(old(s.users)[u])]
  {
    if u :| u in s.users && s.users[u].socketId == Some(conn) {
      s.SaveUser(u, GoOffline(s.users[u]));
    }
    s.Drop(conn);
  }
}
