/** The Node server's room routes (server/src/routes/roomRoutes.js): create a room, ask to
    join one, list a room's users, approve a user. Every route answers with a status code and
    a JSON body; a thrown error becomes 500 "Server error". */
module NodeRoomRoutes {
  import opened Text
  import opened Records
  import opened Store

  /** `generateRoomCode`: six characters, each picked from the 36-character alphabet. The pick
      stands for `Math.floor(Math.random() * 36)`, so any index may come out. */
  method GenerateRoomCode() returns (code: string)
    ensures IsRoomCode(code)
  {
    AlphabetIsCodeChars();
    code := "";
    for i := 0 to 6
      invariant |code| == i
      invariant forall j :: 0 <= j < i ==> IsCodeChar(code[j])
    {
      var k :| 0 <= k < |ALPHABET|;
      code := code + [ALPHABET[k]];
    }
  }

  /** `POST /create`: a room needs a name; its code is the first generated code no room holds
      yet. `draws` are the codes the generator produces, in order; the source retries for as
      long as it takes, so at least one of them is free. */
  method Create(s: Store, name: Option<string>, draws: seq<string>) returns (resp: Response)
    requires s.Valid()
    requires forall i :: 0 <= i < |draws| ==> IsRoomCode(draws[i])
    requires exists i :: 0 <= i < |draws| && CodeOwner(s.rooms, draws[i]).None?
    modifies s
    ensures s.Valid()
    ensures s.users == old(s.users) && s.messages == old(s.messages)
    ensures s.membership == old(s.membership) && s.events == old(s.events)
    ensures old(s.Consistent()) ==> s.Consistent()
    ensures !Truthy(name) ==>
      resp == Response(400, Notice("Room name is required")) && s.rooms == old(s.rooms) && s.nextId == old(s.nextId)
    ensures Truthy(name) ==>
      && resp.status == 201 && resp.body.RoomBody?
      && resp.body.roomId == old(s.nextId) && resp.body.roomId !in old(s.rooms)
      && resp.body.room == Room(resp.body.room.code, name.value, None)
      && FirstFree(old(s.rooms), draws, resp.body.room.code)
      && s.rooms == old(s.rooms)[resp.body.roomId := resp.body.room]
      && CodeOwner(s.rooms, resp.body.room.code) == Some(resp.body.roomId)
  {
    if !Truthy(name) {
      return Response(400, Notice("Room name is required"));
    }
    var code := PickFreeCode(s, draws);
    var room := Room(code, name.value, None);
    var id := s.AddRoom(room);
    OwnerIsUnique(s.rooms, id);
    resp := Response(201, RoomBody(id, room));
  }

  /** `POST /join`: a join request names a user and an existing room, by its exact stored
      code. The user is created pending, offline, with the default role and the name trimmed
      by the schema; a name that trims to nothing fails the schema's `required` check. */
  method Join(s: Store, username: Option<string>, roomCode: Option<string>) returns (resp: Response)
    requires s.Valid()
    modifies s
    ensures s.Valid()
    ensures s.rooms == old(s.rooms) && s.messages == old(s.messages)
    ensures s.membership == old(s.membership) && s.events == old(s.events)
    ensures old(s.Consistent()) ==> s.Consistent()
    ensures !Truthy(username) || !Truthy(roomCode) ==>
      resp == Response(400, Notice("Username and Room Code are required"))
    ensures Truthy(username) && Truthy(roomCode) && CodeOwner(s.rooms, roomCode.value).None? ==>
      resp == Response(404, Notice("Room not found"))
    ensures Truthy(username) && Truthy(roomCode) && CodeOwner(s.rooms, roomCode.value).Some?
            && IsBlank(Js, username.value) ==>
      resp == Response(500, Notice("Server error"))
    ensures resp.status != 201 ==> s.users == old(s.users) && s.nextId == old(s.nextId)
    ensures Truthy(username) && Truthy(roomCode) && CodeOwner(s.rooms, roomCode.value).Some?
            && !IsBlank(Js, username.value) ==>
      var user := User(Trim(Js, username.value), UserRole, CodeOwner(s.rooms, roomCode.value).value, Pending, false, None);
      && resp == Response(201, UserBody(old(s.nextId), user))
      && old(s.nextId) !in old(s.users)
      && s.users == old(s.users)[old(s.nextId) := user]
  {
    if !Truthy(username) || !Truthy(roomCode) {
      return Response(400, Notice("Username and Room Code are required"));
    }
    var found := s.FindRoomByCode(roomCode.value);
    if found.None? {
      return Response(404, Notice("Room not found"));
    }
    var name := Trim(Js, username.value);
    if name == [] {
      return Response(500, Notice("Server error"));
    }
    var user := User(name, UserRole, found.value, Pending, false, None);
    var id := s.AddUser(user);
    resp := Response(201, UserBody(id, user));
  }

  /** `GET /:roomCode/pending-users`: the room's users still waiting for approval. */
  method PendingUsers(s: Store, roomCode: string) returns (resp: Response)
    requires s.Valid()
    ensures CodeOwner(s.rooms, roomCode).None? ==> resp == Response(404, Notice("Room not found"))
    ensures CodeOwner(s.rooms, roomCode).Some? ==>
      resp.status == 200 && resp.body.UserList?
      && (forall u :: u in resp.body.users <==>
            u in s.users && s.users[u].room == CodeOwner(s.rooms, roomCode).value && s.users[u].status == Pending)
      && resp.body.users == UsersWith(s.users, CodeOwner(s.rooms, roomCode).value, Pending)
  {
    var found := s.FindRoomByCode(roomCode);
    if found.None? {
      return Response(404, Notice("Room not found"));
    }
    resp := Response(200, UserList(UsersWith(s.users, found.value, Pending)));
  }

  /** `PATCH /approve-user/:userId`: the user is approved, everybody is told, and the
      approved user is returned. */
  method ApproveUser(s: Store, userId: UserId) returns (resp: Response)
    requires s.Valid()
    modifies s
    ensures s.Valid()
    ensures s.rooms == old(s.rooms) && s.messages == old(s.messages) && s.nextId == old(s.nextId)
    ensures s.membership == old(s.membership) && s.users.Keys == old(s.users.Keys)
    ensures old(s.Consistent()) ==> s.Consistent()
    ensures userId !in old(s.users) ==>
      resp == Response(404, Notice("User not found")) && s.users == old(s.users) && s.events == old(s.events)
    ensures userId in old(s.users) ==>
      var user := old(s.users)[userId].(status := Approved);
      && s.users == old(s.users)[userId := user]
      && s.events == old(s.events) + [Event(ToAll, "user_approved", Ident(userId))]
      && resp == Response(200, UserBody(userId, user))
  {
    var found := s.FindUser(Some(userId));
    if found.None? {
      return Response(404, Notice("User not found"));
    }
    var user := found.value.(status := Approved);
    s.SaveUser(userId, user);
    s.Emit([Event(ToAll, "user_approved", Ident(userId))]);
    resp := Response(200, UserBody(userId, user));
  }

  /** `GET /:roomCode/all-users`: every user of the room, pending or approved. */
  method AllUsers(s: Store, roomCode: string) returns (resp: Response)
    requires s.Valid()
    ensures CodeOwner(s.rooms, roomCode).None? ==> resp == Response(404, Notice("Room not found"))
    ensures CodeOwner(s.rooms, roomCode).Some? ==>
      resp.status == 200 && resp.body.UserList?
      && (forall u :: u in resp.body.users <==> u in s.users && s.users[u].room == CodeOwner(s.rooms, roomCode).value)
      && resp.body.users == UsersOf(s.users, CodeOwner(s.rooms, roomCode).value)
  {
    var found := s.FindRoomByCode(roomCode);
    if found.None? {
      return Response(404, Notice("Room not found"));
    }
    resp := Response(200, UserList(UsersOf(s.users, found.value)));
  }
}
