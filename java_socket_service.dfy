/** The Java server's Socket.IO service (backend-java/.../service/SocketService.java). Room
    codes are trimmed with `String.trim` and upper-cased; elevated roles must present their
    access key on `join_room`. A listener that throws part-way keeps the writes it already
    made and emits nothing further. */
module JavaSocketService {
  import opened Text
  import opened Records
  import opened Store

  /** The access-key gate of `join_room`: the text sent back with `auth_failed`, or None when
      the role may go on. Plain users and unknown roles need no key. */
  function AuthFailure(role: JoinRole, password: Option<string>): (r: Option<string>)
    ensures role == AsUser || role == AsOther ==> r.None?
    ensures role == AsSuperAdmin ==> (r.None? <==> password == Some("NEXUS@ROOT"))
    ensures role == AsAdmin ==> (r.None? <==> password == Some("NEXUS@MOD"))
    ensures role == AsBroadcast ==> (r.None? <==> password == Some("NEXUS@FEED"))
    ensures r.Some? ==> r.value != ""
  {
    match role
    case AsSuperAdmin => if password == Some("NEXUS@ROOT") then None else Some("Invalid SuperAdmin Credentials")
    case AsAdmin => if password == Some("NEXUS@MOD") then None else Some("Invalid Admin Access Key")
    case AsBroadcast => if password == Some("NEXUS@FEED") then None else Some("Invalid Stream Authorization")
    case _ => None
  }

  /** Each access key opens exactly one elevated role. */
  lemma KeysAreRoleSpecific(password: Option<string>)
    ensures AuthFailure(AsSuperAdmin, password).None? ==>
      AuthFailure(AsAdmin, password).Some? && AuthFailure(AsBroadcast, password).Some?
    ensures AuthFailure(AsAdmin, password).None? ==> AuthFailure(AsBroadcast, password).Some?
  {
    if password.Some? {
      var p := password.value;
      if p == "NEXUS@ROOT" {
        assert p[6] == 'R';
      } else if p == "NEXUS@MOD" {
        assert p[6] == 'M';
      }
    }
  }

  /** `broadcastLiveUsers`: the room's approved, online users, pushed to its upper-cased
      room channel. */
  function LiveUsersEvent(code: string, r: RoomId, users: map<UserId, User>): (e: Event)
    ensures e.target == ToChannel(RoomChannel(Upper(code))) && e.name == "superadmin_live_users"
    ensures e.payload.Roster?
    ensures forall u :: u in e.payload.users <==>
      u in users && users[u].room == r && users[u].status == Approved && users[u].isOnline
    ensures forall u :: u in e.payload.users ==> e.payload.users[u] == users[u]
  {
    Event(ToChannel(RoomChannel(Upper(code))), "superadmin_live_users", Roster(LiveUsers(users, r)))
  }

  /** On a join the code is already normalised, so the roster goes to that same room channel. */
  lemma JoinRosterTarget(roomCode: string, r: RoomId, users: map<UserId, User>)
    ensures LiveUsersEvent(Normalize(Java, roomCode), r, users).target == ToChannel(RoomChannel(Normalize(Java, roomCode)))
  {
    UpperIdempotent(Trim(Java, roomCode));
  }

  /** A user who joins while already approved is told so on its own connection. */
  function ApprovedNotice(conn: ConnId, users: map<UserId, User>, userId: Option<UserId>): (evs: seq<Event>)
    ensures |evs| <= 1
    ensures evs != [] <==> userId.Some? && userId.value in users && users[userId.value].status == Approved
    ensures evs != [] ==> evs[0] == Event(ToConn(conn), "user_approved", Ident(userId.value))
  {
    if userId.Some? && userId.value in users && users[userId.value].status == Approved
    then [Event(ToConn(conn), "user_approved", Ident(userId.value))]
    else []
  }

  /** What each role is sent by a successful `join_room` before the closing roster push: a
      user gets the whole history and wakes the moderators, an admin the pending queue, a
      broadcast viewer the approved feed, a superadmin the roster and a refresh cue. */
  function RoleEvents(conn: ConnId, code: string, r: RoomId, role: JoinRole,
                      users: map<UserId, User>, ms: seq<Message>): (evs: seq<Event>)
    ensures role == AsOther <==> evs == []
    ensures role != AsOther ==> |evs| == if role in {AsUser, AsSuperAdmin} then 2 else 1
    ensures role in {AsUser, AsAdmin, AsBroadcast} ==> evs[0].target == ToConn(conn) && evs[0].payload.Many?
    ensures role == AsUser ==> evs[0].payload.views == Views(users, RoomMessages(ms, r, None))
    ensures role == AsAdmin ==> evs[0].payload.views == Views(users, RoomMessages(ms, r, Some(Pending)))
    ensures role == AsBroadcast ==> evs[0].payload.views == Views(users, RoomMessages(ms, r, Some(Approved)))
    ensures role == AsSuperAdmin ==> evs[0] == LiveUsersEvent(code, r, users)
  {
    match role
    case AsUser => [Event(ToConn(conn), "load_messages", Many(Views(users, RoomMessages(ms, r, None)))),
                    Event(ToChannel(RoomChannel(code)), "refresh_user_lists", NoPayload)]
    case AsAdmin => [Event(ToConn(conn), "load_pending_messages", Many(Views(users, RoomMessages(ms, r, Some(Pending)))))]
    case AsBroadcast => [Event(ToConn(conn), "load_broadcast_messages", Many(Views(users, RoomMessages(ms, r, Some(Approved)))))]
    case AsSuperAdmin => [LiveUsersEvent(code, r, users), Event(ToConn(conn), "refresh_user_lists", NoPayload)]
    case AsOther => []
  }

  /** `populateMessages`: each message gets its sender attached when the sender id resolves;
      the messages themselves are not changed and keep their order. */
  method PopulateMessages(s: Store, ms: seq<Message>) returns (views: seq<MessageView>)
    ensures views == Views(s.users, ms)
  {
    views := [];
    for i := 0 to |ms|
      invariant views == Views(s.users, ms[..i])
    {
      var sender := None;
      if ms[i].sender.Some? {
        sender := s.FindUser(ms[i].sender);
      }
      ViewsSnoc(s.users, ms, i);
      views := views + [MessageView(ms[i], sender)];
    }
    assert ms[..|ms|] == ms;
  }

  /** `join_room`: a missing code is ignored; an elevated role with the wrong key is turned
      away before anything is looked up; an unknown normalised code is answered with
      `room_not_found`. */
  method OnJoinRoom(s: Store, conn: ConnId, roomCode: Option<string>, role: JoinRole,
                    userId: Option<UserId>, password: Option<string>)
    requires s.Valid()
    modifies s
    ensures s.Valid()
    ensures s.rooms == old(s.rooms) && s.messages == old(s.messages) && s.nextId == old(s.nextId)
    ensures s.users.Keys == old(s.users.Keys)
    ensures old(s.Consistent()) ==> s.Consistent()
    ensures roomCode.None? ==>
      s.users == old(s.users) && s.membership == old(s.membership) && s.events == old(s.events)
    ensures roomCode.Some? && AuthFailure(role, password).Some? ==>
      && s.users == old(s.users) && s.membership == old(s.membership)
      && s.events == old(s.events) + [Event(ToConn(conn), "auth_failed", Note(AuthFailure(role, password).value))]
    ensures roomCode.Some? && AuthFailure(role, password).None?
            && CodeOwner(s.rooms, Normalize(Java, roomCode.value)).None? ==>
      && s.users == old(s.users) && s.membership == old(s.membership)
      && s.events == old(s.events) + [Event(ToConn(conn), "room_not_found", NoPayload)]
    ensures roomCode.Some? && AuthFailure(role, password).None?
            && CodeOwner(s.rooms, Normalize(Java, roomCode.value)).Some? ==>
      var code := Normalize(Java, roomCode.value);
      var r := CodeOwner(s.rooms, code).value;
      && s.membership == old(s.membership)[conn := Channels(old(s.membership), conn) + JoinedChannels(code, role)]
      && s.users == MarkOnline(old(s.users), userId, conn)
      && s.events == old(s.events) + ApprovedNotice(conn, s.users, userId)
                       + RoleEvents(conn, code, r, role, s.users, s.messages) + [LiveUsersEvent(code, r, s.users)]
  {
    if roomCode.None? {
      return;
    }
    var failure := AuthFailure(role, password);
    if failure.Some? {
      s.Emit([Event(ToConn(conn), "auth_failed", Note(failure.value))]);
      return;
    }
    var code := Normalize(Java, roomCode.value);
    var found := s.FindRoomByCode(code);
    if found.None? {
      s.Emit([Event(ToConn(conn), "room_not_found", NoPayload)]);
      return;
    }
    EnterRoom(s, conn, code, found.value, role, userId);
  }

  /** The rest of `join_room` once the room is found: join the code and room channels, mark
      the joiner online (telling it when it is already approved), send the role's events, and
      finally push the live roster. */
  method EnterRoom(s: Store, conn: ConnId, code: string, r: RoomId, role: JoinRole, userId: Option<UserId>)
    requires s.Valid()
    modifies s
    ensures s.Valid()
    ensures s.rooms == old(s.rooms) && s.messages == old(s.messages) && s.nextId == old(s.nextId)
    ensures old(s.Consistent()) ==> s.Consistent()
    ensures s.membership == old(s.membership)[conn := Channels(old(s.membership), conn) + JoinedChannels(code, role)]
    ensures s.users == MarkOnline(old(s.users), userId, conn)
    ensures s.events == old(s.events) + ApprovedNotice(conn, s.users, userId)
                          + RoleEvents(conn, code, r, role, s.users, s.messages) + [LiveUsersEvent(code, r, s.users)]
  {
    JoinChannels(s, conn, code, role);
    MarkJoinerOnline(s, conn, userId);
    SendRoleEvents(s, conn, code, r, role);
    s.Emit([LiveUsersEvent(code, r, s.users)]);
  }

  /** The joiner's record, when the id resolves, is marked online on this connection; an
      already approved joiner is told so. */
  method MarkJoinerOnline(s: Store, conn: ConnId, userId: Option<UserId>)
    requires s.Valid()
    modifies s
    ensures s.Valid()
    ensures s.rooms == old(s.rooms) && s.messages == old(s.messages) && s.nextId == old(s.nextId)
    ensures s.membership == old(s.membership)
    ensures old(s.Consistent()) ==> s.Consistent()
    ensures s.users == MarkOnline(old(s.users), userId, conn)
    ensures s.events == old(s.events) + ApprovedNotice(conn, s.users, userId)
  {
    var user := s.FindUser(userId);
    if user.Some? {
      s.SaveUser(userId.value, GoOnline(user.value, conn));
      if user.value.status == Approved {
        s.Emit([Event(ToConn(conn), "user_approved", Ident(userId.value))]);
      }
    }
  }

  /** The role-dependent part of `join_room`: the snapshots go through `populateMessages`. */
  method SendRoleEvents(s: Store, conn: ConnId, code: string, r: RoomId, role: JoinRole)
    modifies s
    ensures s.rooms == old(s.rooms) && s.users == old(s.users) && s.messages == old(s.messages)
    ensures s.nextId == old(s.nextId) && s.membership == old(s.membership)
    ensures s.events == old(s.events) + RoleEvents(conn, code, r, role, s.users, s.messages)
  {
    match role
    case AsUser =>
      var views := PopulateMessages(s, RoomMessages(s.messages, r, None));
      s.Emit([Event(ToConn(conn), "load_messages", Many(views)),
              Event(ToChannel(RoomChannel(code)), "refresh_user_lists", NoPayload)]);
    case AsAdmin =>
      var views := PopulateMessages(s, RoomMessages(s.messages, r, Some(Pending)));
      s.Emit([Event(ToConn(conn), "load_pending_messages", Many(views))]);
    case AsBroadcast =>
      var views := PopulateMessages(s, RoomMessages(s.messages, r, Some(Approved)));
      s.Emit([Event(ToConn(conn), "load_broadcast_messages", Many(views))]);
    case AsSuperAdmin =>
      s.Emit([LiveUsersEvent(code, r, s.users), Event(ToConn(conn), "refresh_user_lists", NoPayload)]);
    case AsOther =>
  }

  /** `send_message`: non-blank content from a known sender to an existing room is stored as
      pending, trimmed, with the sender's name copied, and pushed twice to the room channel
      with the sender attached. */
  method OnSendMessage(s: Store, userId: Option<UserId>, roomCode: Option<string>, content: Option<string>)
    requires s.Valid()
    modifies s
    ensures s.Valid()
    ensures s.rooms == old(s.rooms) && s.users == old(s.users) && s.membership == old(s.membership)
    ensures old(s.Consistent()) ==> s.Consistent()
    ensures NeverUnapproves(old(s.messages), s.messages)
    ensures var code := Normalize(Java, roomCode.GetOr(""));
      content.None? || IsBlank(Java, content.value) || CodeOwner(s.rooms, code).None?
      || userId.None? || userId.value !in s.users ==>
      s.messages == old(s.messages) && s.events == old(s.events) && s.nextId == old(s.nextId)
    ensures var code := Normalize(Java, roomCode.GetOr(""));
      content.Some? && !IsBlank(Java, content.value) && CodeOwner(s.rooms, code).Some?
      && userId.Some? && userId.value in s.users ==>
      var sender := s.users[userId.value];
      var m := Message(old(s.nextId), CodeOwner(s.rooms, code).value, userId, Some(sender.username),
                       Trim(Java, content.value), Pending);
      && s.nextId == old(s.nextId) + 1
      && s.messages == old(s.messages) + [m]
      && s.events == old(s.events) + [Event(ToChannel(RoomChannel(code)), "receive_message", One(MessageView(m, Some(sender)))),
                                       Event(ToChannel(RoomChannel(code)), "new_pending_message", One(MessageView(m, Some(sender))))]
  {
    if content.None? || IsBlank(Java, content.value) {
      return;
    }
    var code := Normalize(Java, roomCode.GetOr(""));
    var found := s.FindRoomByCode(code);
    if found.None? {
      return;
    }
    var sender := s.FindUser(userId);
    if sender.None? {
      return;
    }
    var m := s.AddMessage(found.value, userId, Some(sender.value.username), Trim(Java, content.value), Pending);
    var view := MessageView(m, sender);
    s.Emit([Event(ToChannel(RoomChannel(code)), "receive_message", One(view)),
            Event(ToChannel(RoomChannel(code)), "new_pending_message", One(view))]);
  }

  /** The three pushes of an approved message: the broadcast feed, then the chat room twice. */
  function ApprovalEvents(code: string, view: MessageView): (evs: seq<Event>)
    ensures |evs| == 3 && forall i :: 0 <= i < 3 ==> evs[i].payload == One(view)
    ensures evs[0].target == ToChannel(BroadcastChannel(Upper(code))) && evs[0].name == "broadcast_message"
    ensures evs[1].target == ToChannel(RoomChannel(Upper(code))) && evs[1].name == "receive_message"
    ensures evs[2].target == ToChannel(RoomChannel(Upper(code))) && evs[2].name == "message_approved"
  {
    var c := Upper(code);
    [Event(ToChannel(BroadcastChannel(c)), "broadcast_message", One(view)),
     Event(ToChannel(RoomChannel(c)), "receive_message", One(view)),
     Event(ToChannel(RoomChannel(c)), "message_approved", One(view))]
  }

  /** `approve_message`: the message is approved in place. When its room exists and it names
      a sender, it is pushed to the broadcast feed and to the chat room; a message without a
      sender id makes the sender lookup throw after the save, so nothing is sent. */
  method OnApproveMessage(s: Store, messageId: MessageId)
    requires s.Valid()
    modifies s
    ensures s.Valid()
    ensures s.rooms == old(s.rooms) && s.users == old(s.users) && s.membership == old(s.membership)
    ensures s.nextId == old(s.nextId)
    ensures old(s.Consistent()) ==> s.Consistent()
    ensures s.messages == Approve(old(s.messages), messageId)
    ensures NeverUnapproves(old(s.messages), s.messages)
    ensures Lookup(old(s.messages), messageId).None? ==> s.messages == old(s.messages) && s.events == old(s.events)
    ensures Lookup(old(s.messages), messageId).Some? ==>
      var m := Lookup(old(s.messages), messageId).value.(status := Approved);
      && m in s.messages
      && s.events == old(s.events) +
           if m.room in s.rooms && m.sender.Some?
           then ApprovalEvents(s.rooms[m.room].code, ViewOf(s.users, m))
           else []
  {
    var found := s.FindMessage(messageId);
    s.ApproveMessage(messageId);
    if found.None? {
      return;
    }
    var m := found.value.(status := Approved);
    if m.room in s.rooms && m.sender.Some? {
      var sender := s.FindUser(m.sender);
      s.Emit(ApprovalEvents(s.rooms[m.room].code, MessageView(m, sender)));
    }
  }

  /** `approveUser`: the user is approved; when the caller names a room code, the room channel
      is told and asked to refresh its lists. */
  method ApproveUser(s: Store, userId: Option<UserId>, roomCode: Option<string>)
    requires s.Valid()
    modifies s
    ensures s.Valid()
    ensures s.rooms == old(s.rooms) && s.messages == old(s.messages) && s.membership == old(s.membership)
    ensures s.nextId == old(s.nextId) && s.users.Keys == old(s.users.Keys)
    ensures old(s.Consistent()) ==> s.Consistent()
    ensures userId.None? || userId.value !in old(s.users) ==> s.users == old(s.users) && s.events == old(s.events)
    ensures userId.Some? && userId.value in old(s.users) ==>
      var u := userId.value;
      && s.users == old(s.users)[u := old(s.users)[u].(status := Approved)]
      && s.events == old(s.events) +
           if roomCode.Some?
           then [Event(ToChannel(RoomChannel(Upper(roomCode.value))), "user_approved", Ident(u)),
                 Event(ToChannel(RoomChannel(Upper(roomCode.value))), "refresh_user_lists", NoPayload)]
           else []
  {
    var found := s.FindUser(userId);
    if found.None? {
      return;
    }
    s.SaveUser(userId.value, found.value.(status := Approved));
    if roomCode.Some? {
      var c := Upper(roomCode.value);
      s.Emit([Event(ToChannel(RoomChannel(c)), "user_approved", Ident(userId.value)),
              Event(ToChannel(RoomChannel(c)), "refresh_user_lists", NoPayload)]);
    }
  }

  /** `kickUser`: the user's messages are deleted, then the user. When the user's room exists,
      its channel is told, asked to refresh, and sent the new live roster. */
  method KickUser(s: Store, userId: Option<UserId>)
    requires s.Valid()
    modifies s
    ensures s.Valid()
    ensures s.rooms == old(s.rooms) && s.membership == old(s.membership) && s.nextId == old(s.nextId)
    ensures old(s.Consistent()) ==> s.Consistent()
    ensures NeverUnapproves(old(s.messages), s.messages)
    ensures userId.None? || userId.value !in old(s.users) ==>
      s.users == old(s.users) && s.messages == old(s.messages) && s.events == old(s.events)
    ensures userId.Some? && userId.value in old(s.users) ==>
      var u := userId.value;
      var r := old(s.users)[u].room;
      && s.users == old(s.users) - {u}
      && s.messages == Filter(old(s.messages), NotSentBy(u))
      && (forall m :: m in s.messages <==> m in old(s.messages) && m.sender != Some(u))
      && s.events == old(s.events) +
           if r in s.rooms
           then [Event(ToChannel(RoomChannel(Upper(s.rooms[r].code))), "user_kicked", Ident(u)),
                 Event(ToChannel(RoomChannel(Upper(s.rooms[r].code))), "refresh_user_lists", NoPayload),
                 LiveUsersEvent(Upper(s.rooms[r].code), r, s.users)]
           else []
  {
    var found := s.FindUser(userId);
    if found.None? {
      return;
    }
    var u := userId.value;
    var r := found.value.room;
    s.RemoveMessages(NotSentBy(u));
    s.RemoveUser(u);
    if r in s.rooms {
      var c := Upper(s.rooms[r].code);
      s.Emit([Event(ToChannel(RoomChannel(c)), "user_kicked", Ident(u)),
              Event(ToChannel(RoomChannel(c)), "refresh_user_lists", NoPayload),
              LiveUsersEvent(c, r, s.users)]);
    }
  }

  /** `deleteRoom`: the room's users, then its messages, then the room are deleted and the room
      channel is told. A missing or unknown code changes nothing. */
  method DeleteRoom(s: Store, roomCode: Option<string>)
    requires s.Valid()
    modifies s
    ensures s.Valid()
    ensures s.membership == old(s.membership) && s.nextId == old(s.nextId)
    ensures old(s.Consistent()) ==> s.Consistent()
    ensures NeverUnapproves(old(s.messages), s.messages)
    ensures roomCode.None? || CodeOwner(old(s.rooms), Normalize(Java, roomCode.value)).None? ==>
      && s.rooms == old(s.rooms) && s.users == old(s.users) && s.messages == old(s.messages)
      && s.events == old(s.events)
    ensures roomCode.Some? && CodeOwner(old(s.rooms), Normalize(Java, roomCode.value)).Some? ==>
      var code := Normalize(Java, roomCode.value);
      var r := CodeOwner(old(s.rooms), code).value;
      && s.rooms == old(s.rooms) - {r}
      && (forall u :: u in s.users <==> u in old(s.users) && old(s.users)[u].room != r)
      && s.users == old(s.users) - UsersOf(old(s.users), r).Keys
      && (forall m :: m in s.messages <==> m in old(s.messages) && m.room != r)
      && s.messages == Filter(old(s.messages), NotInRoom(r))
      && s.events == old(s.events) + [Event(ToChannel(RoomChannel(code)), "room_deleted", NoPayload)]
  {
    if roomCode.None? {
      return;
    }
    var code := Normalize(Java, roomCode.value);
    var found := s.FindRoomByCode(code);
    if found.None? {
      return;
    }
    s.DeleteRoom(found.value);
    s.Emit([Event(ToChannel(RoomChannel(code)), "room_deleted", NoPayload)]);
  }

  /** `leave_room`: the user record is deleted (its messages stay), and its room is sent the
      new roster and a refresh cue; then the connection leaves the three channels of the
      upper-cased code it names, and that room channel is asked to refresh. */
  method OnLeaveRoom(s: Store, conn: ConnId, userId: Option<UserId>, roomCode: Option<string>)
    requires s.Valid()
    modifies s
    ensures s.Valid()
    ensures s.rooms == old(s.rooms) && s.messages == old(s.messages) && s.nextId == old(s.nextId)
    ensures old(s.Consistent()) ==> s.Consistent()
    ensures s.users == if userId.Some? then old(s.users) - {userId.value} else old(s.users)
    ensures roomCode.None? ==> s.membership == old(s.membership)
    ensures roomCode.Some? ==>
      var c := Upper(roomCode.value);
      s.membership == old(s.membership)[conn := Channels(old(s.membership), conn) - {CodeChannel(c), RoomChannel(c), BroadcastChannel(c)}]
    ensures s.events == old(s.events) + LeaveNotices(s.rooms, old(s.users), s.users, userId)
      + if roomCode.Some? then [Event(ToChannel(RoomChannel(Upper(roomCode.value))), "refresh_user_lists", NoPayload)] else []
  {
    if userId.Some? {
      var found := s.FindUser(userId);
      if found.Some? {
        var r := found.value.room;
        s.RemoveUser(userId.value);
        if r in s.rooms {
          var code := s.rooms[r].code;
          s.Emit([LiveUsersEvent(code, r, s.users),
                  Event(ToChannel(RoomChannel(Upper(code))), "refresh_user_lists", NoPayload)]);
        }
      }
    }
    if roomCode.Some? {
      var c := Upper(roomCode.value);
      s.Leave(conn, {CodeChannel(c), RoomChannel(c), BroadcastChannel(c)});
      s.Emit([Event(ToChannel(RoomChannel(c)), "refresh_user_lists", NoPayload)]);
    }
  }

  /** What the user half of `leave_room` sends: when the leaving user existed and its room
      still does, the room's new roster and a refresh cue. */
  function LeaveNotices(rooms: map<RoomId, Room>, before: map<UserId, User>, after: map<UserId, User>,
                        userId: Option<UserId>): (evs: seq<Event>)
    ensures evs != [] <==> userId.Some? && userId.value in before && before[userId.value].room in rooms
    ensures evs != [] ==>
      var r := before[userId.value].room;
      evs == [LiveUsersEvent(rooms[r].code, r, after),
              Event(ToChannel(RoomChannel(Upper(rooms[r].code))), "refresh_user_lists", NoPayload)]
  {
    if userId.Some? && userId.value in before && before[userId.value].room in rooms then
      var r := before[userId.value].room;
      [LiveUsersEvent(rooms[r].code, r, after),
       Event(ToChannel(RoomChannel(Upper(rooms[r].code))), "refresh_user_lists", NoPayload)]
    else []
  }

  /** `findBySocketId` expects at most one holder: exactly one user holds the connection. */
  ghost predicate SoleHolder(users: map<UserId, User>, conn: ConnId, u: UserId)
  {
    && u in users && users[u].socketId == Some(conn)
    && forall v :: v in users && users[v].socketId == Some(conn) ==> v == u
  }

  /** The connection's only holder, if exactly one user holds it. */
  method FindBySocketId(s: Store, conn: ConnId) returns (u: Option<UserId>)
    ensures u.Some? ==> SoleHolder(s.users, conn, u.value)
    ensures u.None? ==> forall v :: !SoleHolder(s.users, conn, v)
  {
    if v :| v in s.users && s.users[v].socketId == Some(conn) {
      if forall w :: w in s.users && s.users[w].socketId == Some(conn) ==> w == v {
        return Some(v);
      }
    }
    u := None;
  }

  /** `onDisconnected`: the user holding this connection is marked offline with no connection,
      and its room is sent the new live roster. A connection held by several users makes the
      lookup throw, so nothing is written. The transport drops the connection from every
      channel. */
  method OnDisconnected(s: Store, conn: ConnId)
    requires s.Valid()
    modifies s
    ensures s.Valid()
    ensures s.rooms == old(s.rooms) && s.messages == old(s.messages) && s.nextId == old(s.nextId)
    ensures s.users.Keys == old(s.users.Keys)
    ensures old(s.Consistent()) ==> s.Consistent()
    ensures s.membership == old(s.membership) - {conn}
    ensures (forall v :: !SoleHolder(old(s.users), conn, v)) ==> s.users == old(s.users) && s.events == old(s.events)
    ensures forall u :: SoleHolder(old(s.users), conn, u) ==>
      var r := old(s.users)[u].room;
      && s.users == old(s.users)[u := GoOffline(old(s.users)[u])]
      && s.events == old(s.events) + if r in s.rooms then [LiveUsersEvent(s.rooms[r].code, r, s.users)] else []
  {
    var holder := FindBySocketId(s, conn);
    if holder.Some? {
      var u := holder.value;
      var r := s.users[u].room;
      s.SaveUser(u, GoOffline(s.users[u]));
      if r in s.rooms {
        s.Emit([LiveUsersEvent(s.rooms[r].code, r, s.users)]);
      }
    }
    s.Drop(conn);
  }

  /** `broadcastMessageDeleted`: with a code, the deletion is announced to the normalised room
      channel and broadcast channel; without one, nothing is sent. */
  method BroadcastMessageDeleted(s: Store, messageId: MessageId, roomCode: Option<string>)
    modifies s
    ensures s.rooms == old(s.rooms) && s.users == old(s.users) && s.messages == old(s.messages)
    ensures s.nextId == old(s.nextId) && s.membership == old(s.membership)
    ensures roomCode.None? ==> s.events == old(s.events)
    ensures roomCode.Some? ==>
      var c := Normalize(Java, roomCode.value);
      s.events == old(s.events) + [Event(ToChannel(RoomChannel(c)), "message_deleted", Ident(messageId)),
                                   Event(ToChannel(BroadcastChannel(c)), "message_deleted", Ident(messageId))]
  {
    if roomCode.None? {
      return;
    }
    var c := Normalize(Java, roomCode.value);
    s.Emit([Event(ToChannel(RoomChannel(c)), "message_deleted", Ident(messageId)),
            Event(ToChannel(BroadcastChannel(c)), "message_deleted", Ident(messageId))]);
  }

  /** `get_pending_messages`: the room's pending queue, in creation order with senders
      attached, sent back to the asking connection only; nothing else changes. */
  method OnGetPendingMessages(s: Store, conn: ConnId, roomCode: Option<string>)
    requires s.Valid()
    modifies s
    ensures s.rooms == old(s.rooms) && s.users == old(s.users) && s.messages == old(s.messages)
    ensures s.nextId == old(s.nextId) && s.membership == old(s.membership)
    ensures roomCode.None? || CodeOwner(s.rooms, Normalize(Java, roomCode.value)).None? ==> s.events == old(s.events)
    ensures roomCode.Some? && CodeOwner(s.rooms, Normalize(Java, roomCode.value)).Some? ==>
      var r := CodeOwner(s.rooms, Normalize(Java, roomCode.value)).value;
      s.events == old(s.events) + [Event(ToConn(conn), "load_pending_messages",
                                         Many(Views(s.users, RoomMessages(s.messages, r, Some(Pending)))))]
  {
    if roomCode.None? {
      return;
    }
    var found := s.FindRoomByCode(Normalize(Java, roomCode.value));
    if found.None? {
      return;
    }
    var views := PopulateMessages(s, RoomMessages(s.messages, found.value, Some(Pending)));
    s.Emit([Event(ToConn(conn), "load_pending_messages", Many(views))]);
  }
}
