/** The Java server's room controller (backend-java/.../controller/RoomController.java):
    create a room (root key required), ask to join one, list a room's pending or approved
    users, approve or kick a user. Codes from the request are upper-cased, and on join also
    trimmed. */
module JavaRoomController {
  import opened Text
  import opened Records
  import opened Store
  import JavaSocketService

  /** `generateRoomCode`: characters are appended until there are six, each picked from the
      36-character alphabet. The pick stands for `(int) (rnd.nextFloat() * 36)`, which always
      lands in 0..35. */
  method GenerateRoomCode() returns (code: string)
    ensures IsRoomCode(code)
  {
    AlphabetIsCodeChars();
    code := "";
    while |code| < 6
      invariant |code| <= 6
      invariant forall j :: 0 <= j < |code| ==> IsCodeChar(code[j])
    {
      var k :| 0 <= k < |ALPHABET|;
      code := code + [ALPHABET[k]];
    }
  }

  /** `POST /create`: a room needs a non-empty name, then the root key (the request's
      `rootPassword`, trimmed). Its code is the first generated code no room holds yet; `draws`
      are the generator's codes, in order, and at least one of them is free. */
  method CreateRoom(s: Store, name: Option<string>, rootPassword: Option<string>, draws: seq<string>)
    returns (resp: Response)
    requires s.Valid()
    requires forall i :: 0 <= i < |draws| ==> IsRoomCode(draws[i])
    requires exists i :: 0 <= i < |draws| && CodeOwner(s.rooms, draws[i]).None?
    modifies s
    ensures s.Valid()
    ensures s.users == old(s.users) && s.messages == old(s.messages)
    ensures s.membership == old(s.membership) && s.events == old(s.events)
    ensures old(s.Consistent()) ==> s.Consistent()
    ensures resp.status != 201 ==> s.rooms == old(s.rooms) && s.nextId == old(s.nextId)
    ensures !Truthy(name) ==> resp == Response(400, Notice("Room name is required"))
    ensures Truthy(name) && Trim(Java, rootPassword.GetOr("")) != "NEXUS@ROOT" ==>
      resp == Response(401, Notice("Authorization Protocol Failed. Invalid root credentials."))
    ensures Truthy(name) && Trim(Java, rootPassword.GetOr("")) == "NEXUS@ROOT" ==>
      && resp.status == 201 && resp.body.RoomBody?
      && resp.body.roomId == old(s.nextId) && resp.body.roomId !in old(s.rooms)
      && resp.body.room == Room(resp.body.room.code, name.value, None)
      && FirstFree(old(s.rooms), draws, resp.body.room.code)
      && s.rooms == old(s.rooms)[resp.body.roomId := resp.body.room]
      && CodeOwner(s.rooms, resp.body.room.code) == Some(resp.body.roomId)
  {
    if !Truthy(name) {
      return Response(400, Notice("Room name is required"));
    }
    if Trim(Java, rootPassword.GetOr("")) != "NEXUS@ROOT" {
      return Response(401, Notice("Authorization Protocol Failed. Invalid root credentials."));
    }
    var code := PickFreeCode(s, draws);
    var room := Room(code, name.value, None);
    var id := s.AddRoom(room);
    OwnerIsUnique(s.rooms, id);
    resp := Response(201, RoomBody(id, room));
  }

  /** `POST /join`: both fields must be present (an empty string passes); the code is trimmed
      and upper-cased. The user is created pending, offline, with role `user` and the name
      exactly as sent. */
  method JoinRoom(s: Store, username: Option<string>, roomCode: Option<string>) returns (resp: Response)
    requires s.Valid()
    modifies s
    ensures s.Valid()
    ensures s.rooms == old(s.rooms) && s.messages == old(s.messages)
    ensures s.membership == old(s.membership) && s.events == old(s.events)
    ensures old(s.Consistent()) ==> s.Consistent()
    ensures resp.status != 201 ==> s.users == old(s.users) && s.nextId == old(s.nextId)
    ensures username.None? || roomCode.None? ==>
      resp == Response(400, Notice("Username and Room Code are required"))
    ensures username.Some? && roomCode.Some? && CodeOwner(s.rooms, Normalize(Java, roomCode.value)).None? ==>
      resp == Response(404, Notice("Room not found"))
    ensures username.Some? && roomCode.Some? && CodeOwner(s.rooms, Normalize(Java, roomCode.value)).Some? ==>
      var user := User(username.value, UserRole, CodeOwner(s.rooms, Normalize(Java, roomCode.value)).value, Pending, false, None);
      && resp == Response(201, UserBody(old(s.nextId), user))
      && old(s.nextId) !in old(s.users)
      && s.users == old(s.users)[old(s.nextId) := user]
  {
    if username.None? || roomCode.None? {
      return Response(400, Notice("Username and Room Code are required"));
    }
    var found := s.FindRoomByCode(Normalize(Java, roomCode.value));
    if found.None? {
      return Response(404, Notice("Room not found"));
    }
    var user := User(username.value, UserRole, found.value, Pending, false, None);
    var id := s.AddUser(user);
    resp := Response(201, UserBody(id, user));
  }

  /** `GET /{roomCode}/pending-users`: the upper-cased code's room's users awaiting approval. */
  method GetPendingUsers(s: Store, roomCode: string) returns (resp: Response)
    requires s.Valid()
    ensures CodeOwner(s.rooms, Upper(roomCode)).None? ==> resp == Response(404, Notice("Room not found"))
    ensures CodeOwner(s.rooms, Upper(roomCode)).Some? ==>
      var r := CodeOwner(s.rooms, Upper(roomCode)).value;
      && resp.status == 200 && resp.body.UserList?
      && (forall u :: u in resp.body.users <==> u in s.users && s.users[u].room == r && s.users[u].status == Pending)
      && resp.body.users == UsersWith(s.users, r, Pending)
  {
    var found := s.FindRoomByCode(Upper(roomCode));
    if found.None? {
      return Response(404, Notice("Room not found"));
    }
    resp := Response(200, UserList(UsersWith(s.users, found.value, Pending)));
  }

  /** `GET /{roomCode}/all-users`: despite its name, only the room's approved users. */
  method GetAllUsers(s: Store, roomCode: string) returns (resp: Response)
    requires s.Valid()
    ensures CodeOwner(s.rooms, Upper(roomCode)).None? ==> resp == Response(404, Notice("Room not found"))
    ensures CodeOwner(s.rooms, Upper(roomCode)).Some? ==>
      var r := CodeOwner(s.rooms, Upper(roomCode)).value;
      && resp.status == 200 && resp.body.UserList?
      && (forall u :: u in resp.body.users <==> u in s.users && s.users[u].room == r && s.users[u].status == Approved)
      && resp.body.users == UsersWith(s.users, r, Approved)
  {
    var found := s.FindRoomByCode(Upper(roomCode));
    if found.None? {
      return Response(404, Notice("Room not found"));
    }
    resp := Response(200, UserList(UsersWith(s.users, found.value, Approved)));
  }

  /** The stored code of a user's room, or None when the room is gone. */
  function RoomCodeOf(rooms: map<RoomId, Room>, user: User): (c: Option<string>)
    ensures c.Some? <==> user.room in rooms
    ensures c.Some? ==> c.value == rooms[user.room].code
  {
    if user.room in rooms then Some(rooms[user.room].code) else None
  }

  /** `PATCH /approve-user/{userId}`: the socket service approves the user and tells the room;
      the response carries the user as it was read before the approval. */
  method ApproveUser(s: Store, userId: UserId) returns (resp: Response)
    requires s.Valid()
    modifies s
    ensures s.Valid()
    ensures s.rooms == old(s.rooms) && s.messages == old(s.messages) && s.nextId == old(s.nextId)
    ensures s.membership == old(s.membership) && s.users.Keys == old(s.users.Keys)
    ensures old(s.Consistent()) ==> s.Consistent()
    ensures userId !in old(s.users) ==>
      resp == Response(404, Notice("User not found")) && s.users == old(s.users) && s.events == old(s.events)
    ensures userId in old(s.users) ==>
      var before := old(s.users)[userId];
      var code := RoomCodeOf(s.rooms, before);
      && resp == Response(200, UserBody(userId, before))
      && s.users == old(s.users)[userId := before.(status := Approved)]
      && s.events == old(s.events) +
           if code.Some?
           then [Event(ToChannel(RoomChannel(Upper(code.value))), "user_approved", Ident(userId)),
                 Event(ToChannel(RoomChannel(Upper(code.value))), "refresh_user_lists", NoPayload)]
           else []
  {
    var found := s.FindUser(Some(userId));
    if found.None? {
      return Response(404, Notice("User not found"));
    }
    var user := found.value;
    JavaSocketService.ApproveUser(s, Some(userId), RoomCodeOf(s.rooms, user));
    resp := Response(200, UserBody(userId, user));
  }

  /** `DELETE /kick-user/{userId}`: the socket service deletes the user and its messages and
      tells the room. */
  method KickUser(s: Store, userId: UserId) returns (resp: Response)
    requires s.Valid()
    modifies s
    ensures s.Valid()
    ensures s.rooms == old(s.rooms) && s.membership == old(s.membership) && s.nextId == old(s.nextId)
    ensures old(s.Consistent()) ==> s.Consistent()
    ensures NeverUnapproves(old(s.messages), s.messages)
    ensures userId !in old(s.users) ==>
      && resp == Response(404, Notice("User not found"))
      && s.users == old(s.users) && s.messages == old(s.messages) && s.events == old(s.events)
    ensures userId in old(s.users) ==>
      var r := old(s.users)[userId].room;
      && resp == Response(200, Notice("User kicked and removed successfully"))
      && s.users == old(s.users) - {userId}
      && s.messages == Filter(old(s.messages), NotSentBy(userId))
      && (forall m :: m in s.messages <==> m in old(s.messages) && m.sender != Some(userId))
      && s.events == old(s.events) +
           if r in s.rooms
           then [Event(ToChannel(RoomChannel(Upper(s.rooms[r].code))), "user_kicked", Ident(userId)),
                 Event(ToChannel(RoomChannel(Upper(s.rooms[r].code))), "refresh_user_lists", NoPayload),
                 JavaSocketService.LiveUsersEvent(Upper(s.rooms[r].code), r, s.users)]
           else []
  {
    var found := s.FindUser(Some(userId));
    if found.None? {
      return Response(404, Notice("User not found"));
    }
    JavaSocketService.KickUser(s, Some(userId));
    resp := Response(200, Notice("User kicked and removed successfully"));
  }
}
