/** The database both servers share, held in memory: rooms and users by id, messages in
    creation order, the Socket.IO channels each connection has joined, and the log of every
    event emitted so far. MongoDB and JPA ids become one counter `nextId`. */
module Store {
  import opened Text
  import opened Records

  /** The room whose stored code is exactly `code`, if any. */
  ghost function CodeOwner(rooms: map<RoomId, Room>, code: string): (r: Option<RoomId>)
    ensures r.Some? ==> r.value in rooms && rooms[r.value].code == code
    ensures r.None? <==> forall k :: k in rooms ==> rooms[k].code != code
  {
    if exists k :: k in rooms && rooms[k].code == code then
      var k :| k in rooms && rooms[k].code == code; Some(k)
    else
      None
  }

  /** The `roomCode` field is `unique`. */
  ghost predicate CodesDistinct(rooms: map<RoomId, Room>)
  {
    forall a, b :: a in rooms && b in rooms && rooms[a].code == rooms[b].code ==> a == b
  }

  /** With unique codes a lookup by code can only land on one room. */
  lemma OwnerIsUnique(rooms: map<RoomId, Room>, k: RoomId)
    requires CodesDistinct(rooms) && k in rooms
    ensures CodeOwner(rooms, rooms[k].code) == Some(k)
  {
  }

  /** Committing a room under a code nobody holds keeps codes unique. */
  lemma FreshCodeKeepsCodesDistinct(rooms: map<RoomId, Room>, id: RoomId, room: Room)
    requires CodesDistinct(rooms) && id !in rooms
    requires CodeOwner(rooms, room.code).None?
    ensures CodesDistinct(rooms[id := room])
    ensures CodeOwner(rooms[id := room], room.code) == Some(id)
  {
    var rs := rooms[id := room];
    forall a, b | a in rs && b in rs && rs[a].code == rs[b].code ensures a == b {
      if a != id && b != id {
        assert rooms[a].code == rooms[b].code;
      }
    }
    OwnerIsUnique(rs, id);
  }

  /** `code` is the first of the generator's draws that no room holds: the do/while retry
      loop of room creation stops there. */
  ghost predicate FirstFree(rooms: map<RoomId, Room>, draws: seq<string>, code: string)
  {
    exists i ::
      && 0 <= i < |draws| && draws[i] == code
      && CodeOwner(rooms, code).None?
      && forall j :: 0 <= j < i ==> CodeOwner(rooms, draws[j]).Some?
  }

  /** The do/while retry loop both servers run on room creation: draw a code, ask the store
      whether a room holds it, and draw again while one does. `draws` are the generator's
      codes in order; the loop ends because one of them is free. */
  method PickFreeCode(s: Store, draws: seq<string>) returns (code: string)
    requires s.Valid()
    requires exists i :: 0 <= i < |draws| && CodeOwner(s.rooms, draws[i]).None?
    ensures FirstFree(s.rooms, draws, code)
    ensures CodeOwner(s.rooms, code).None?
    ensures code in draws
  {
    var i := 0;
    var existing := s.FindRoomByCode(draws[0]);
    while existing.Some?
      invariant 0 <= i < |draws|
      invariant existing == CodeOwner(s.rooms, draws[i])
      invariant forall j :: 0 <= j < i ==> CodeOwner(s.rooms, draws[j]).Some?
      invariant exists j :: i <= j < |draws| && CodeOwner(s.rooms, draws[j]).None?
      decreases |draws| - i
    {
      i := i + 1;
      existing := s.FindRoomByCode(draws[i]);
    }
    code := draws[i];
  }

  /** The channel joins of a successful `join_room` on either server: the code and room
      channels first, then, for a broadcast viewer, the broadcast channel. */
  method JoinChannels(s: Store, conn: ConnId, code: string, role: JoinRole)
    modifies s
    ensures s.rooms == old(s.rooms) && s.users == old(s.users) && s.messages == old(s.messages)
    ensures s.nextId == old(s.nextId) && s.events == old(s.events)
    ensures s.membership == old(s.membership)[conn := Channels(old(s.membership), conn) + JoinedChannels(code, role)]
  {
    var before := Channels(s.membership, conn);
    s.Join(conn, {CodeChannel(code), RoomChannel(code)});
    if role == AsBroadcast {
      s.Join(conn, {BroadcastChannel(code)});
      assert Channels(s.membership, conn) == before + JoinedChannels(code, role);
    } else {
      assert Channels(s.membership, conn) == before + JoinedChannels(code, role);
    }
  }

  /** Ids are issued once, message ids are unique, and room codes are unique six-character
      codes of upper-case letters and digits. */
  ghost predicate WellFormed(rooms: map<RoomId, Room>, users: map<UserId, User>, messages: seq<Message>, nextId: nat)
  {
    && (forall r :: r in rooms ==> r < nextId)
    && (forall u :: u in users ==> u < nextId)
    && (forall m :: m in messages ==> m.id < nextId)
    && IdsDistinct(messages)
    && CodesDistinct(rooms)
    && (forall r :: r in rooms ==> IsRoomCode(rooms[r].code))
  }

  /** Every user and every message belongs to a stored room. */
  ghost predicate Linked(rooms: map<RoomId, Room>, users: map<UserId, User>, messages: seq<Message>)
  {
    && (forall u :: u in users ==> users[u].room in rooms)
    && (forall m :: m in messages ==> m.room in rooms)
  }

  /** The channels a connection is in (none once it has gone). */
  function Channels(m: map<ConnId, set<Channel>>, c: ConnId): set<Channel>
  {
    if c in m then m[c] else {}
  }

  class Store {
    var rooms: map<RoomId, Room>
    var users: map<UserId, User>
    /** Creation order, which is `createdAt` order. */
    var messages: seq<Message>
    var membership: map<ConnId, set<Channel>>
    /** Every event emitted so far, oldest first. */
    var events: seq<Event>
    var nextId: nat

    /** See WellFormed. */
    ghost predicate Valid()
      reads this
    {
      WellFormed(rooms, users, messages, nextId)
    }

    /** See Linked. */
    ghost predicate Consistent()
      reads this
    {
      Linked(rooms, users, messages)
    }

    constructor ()
      ensures Valid() && Consistent()
      ensures rooms == map[] && users == map[] && messages == []
      ensures membership == map[] && events == [] && nextId == 0
    {
      rooms, users, messages := map[], map[], [];
      membership, events, nextId := map[], [], 0;
    }

    /** `findByRoomCode` / `Room.findOne({roomCode})`: an exact match on the stored code. */
    method FindRoomByCode(code: string) returns (r: Option<RoomId>)
      requires Valid()
      ensures r.Some? ==> r.value in rooms && rooms[r.value].code == code
      ensures r.None? <==> forall k :: k in rooms ==> rooms[k].code != code
      ensures r == CodeOwner(rooms, code)
    {
      if k :| k in rooms && rooms[k].code == code {
        OwnerIsUnique(rooms, k);
        r := Some(k);
      } else {
        r := None;
      }
    }

    /** `findById` on messages, as a scan in creation order. */
    method FindMessage(id: MessageId) returns (m: Option<Message>)
      ensures m.Some? ==> m.value in messages && m.value.id == id
      ensures m.None? ==> forall x :: x in messages ==> x.id != id
      ensures m == Lookup(messages, id)
    {
      var i := 0;
      while i < |messages|
        invariant 0 <= i <= |messages|
        invariant forall j :: 0 <= j < i ==> messages[j].id != id
      {
        if messages[i].id == id {
          LookupFirst(messages, i);
          return Some(messages[i]);
        }
        i := i + 1;
      }
      m := None;
    }

    /** `User.findById`: the user stored under `id`, if any. */
    method FindUser(id: Option<UserId>) returns (u: Option<User>)
      ensures u.Some? <==> id.Some? && id.value in users
      ensures u.Some? ==> u.value == users[id.value]
    {
      if id.Some? && id.value in users {
        u := Some(users[id.value]);
      } else {
        u := None;
      }
    }

    // -------------------------------------------------------------------------------------
    // Writes. Each one changes only the fields it names and keeps the store valid.

    /** `Room.create` / `roomRepository.save` of a new room under a code nobody holds. */
    method AddRoom(room: Room) returns (id: RoomId)
      requires Valid()
      requires IsRoomCode(room.code) && CodeOwner(rooms, room.code).None?
      modifies this
      ensures Valid()
      ensures id == old(nextId) && nextId == old(nextId) + 1 && id !in old(rooms)
      ensures rooms == old(rooms)[id := room]
      ensures users == old(users) && messages == old(messages)
      ensures membership == old(membership) && events == old(events)
      ensures old(Consistent()) ==> Consistent()
    {
      id := nextId;
      FreshCodeKeepsCodesDistinct(rooms, id, room);
      rooms := rooms[id := room];
      nextId := nextId + 1;
    }

    /** `User.create` / `userRepository.save` of a new user. */
    method AddUser(user: User) returns (id: UserId)
      requires Valid()
      modifies this
      ensures Valid()
      ensures id == old(nextId) && nextId == old(nextId) + 1 && id !in old(users)
      ensures users == old(users)[id := user]
      ensures rooms == old(rooms) && messages == old(messages)
      ensures membership == old(membership) && events == old(events)
      ensures old(Consistent()) && user.room in rooms ==> Consistent()
    {
      id := nextId;
      users := users[id := user];
      nextId := nextId + 1;
    }

    /** `user.save()` / `findByIdAndUpdate` on an existing user. */
    method SaveUser(id: UserId, user: User)
      requires Valid() && id in users
      modifies this
      ensures Valid()
      ensures users == old(users)[id := user] && users.Keys == old(users.Keys)
      ensures rooms == old(rooms) && messages == old(messages) && nextId == old(nextId)
      ensures membership == old(membership) && events == old(events)
      ensures old(Consistent()) && user.room == old(users)[id].room ==> Consistent()
    {
      users := users[id := user];
    }

    /** `userRepository.delete`. */
    method RemoveUser(id: UserId)
      requires Valid()
      modifies this
      ensures Valid()
      ensures users == old(users) - {id}
      ensures rooms == old(rooms) && messages == old(messages) && nextId == old(nextId)
      ensures membership == old(membership) && events == old(events)
      ensures old(Consistent()) ==> Consistent()
    {
      users := users - {id};
    }

    /** `Message.create` / `messageRepository.save` of a new message: it gets a fresh id and
        is last in creation order. */
    method AddMessage(room: RoomId, sender: Option<UserId>, senderUsername: Option<string>,
                      content: string, status: Status) returns (m: Message)
      requires Valid()
      modifies this
      ensures Valid()
      ensures m == Message(old(nextId), room, sender, senderUsername, content, status)
      ensures messages == old(messages) + [m] && nextId == old(nextId) + 1
      ensures forall x :: x in old(messages) ==> x.id != m.id
      ensures NeverUnapproves(old(messages), messages)
      ensures rooms == old(rooms) && users == old(users)
      ensures membership == old(membership) && events == old(events)
      ensures old(Consistent()) && room in rooms ==> Consistent()
    {
      m := Message(nextId, room, sender, senderUsername, content, status);
      AppendKeepsMessages(messages, m, nextId);
      messages := messages + [m];
      nextId := nextId + 1;
    }

    /** Sets the message with this id to approved, in place. */
    method ApproveMessage(id: MessageId)
      requires Valid()
      modifies this
      ensures Valid()
      ensures messages == Approve(old(messages), id)
      ensures NeverUnapproves(old(messages), messages)
      ensures Lookup(old(messages), id).None? ==> messages == old(messages)
      ensures Lookup(old(messages), id).Some? ==> Lookup(old(messages), id).value.(status := Approved) in messages
      ensures rooms == old(rooms) && users == old(users) && nextId == old(nextId)
      ensures membership == old(membership) && events == old(events)
      ensures old(Consistent()) ==> Consistent()
    {
      ApproveKeepsMessages(messages, id, nextId, rooms);
      messages := Approve(messages, id);
    }

    /** `deleteMany` / `deleteById` on messages: keeps the messages satisfying `keep`, in
        order. */
    method RemoveMessages(keep: Message -> bool)
      requires Valid()
      modifies this
      ensures Valid()
      ensures messages == Filter(old(messages), keep)
      ensures forall m :: m in messages <==> m in old(messages) && keep(m)
      ensures NeverUnapproves(old(messages), messages)
      ensures rooms == old(rooms) && users == old(users) && nextId == old(nextId)
      ensures membership == old(membership) && events == old(events)
      ensures old(Consistent()) ==> Consistent()
    {
      FilterKeepsMessages(messages, keep, nextId, rooms);
      messages := Filter(messages, keep);
    }

    /** Deleting a room deletes its users, then its messages, then the room; every other
        record is kept. */
    method DeleteRoom(r: RoomId)
      requires Valid()
      modifies this
      ensures Valid()
      ensures rooms == old(rooms) - {r}
      ensures users == old(users) - UsersOf(old(users), r).Keys
      ensures forall u :: u in users <==> u in old(users) && old(users)[u].room != r
      ensures messages == Filter(old(messages), NotInRoom(r))
      ensures forall m :: m in messages <==> m in old(messages) && m.room != r
      ensures NeverUnapproves(old(messages), messages)
      ensures nextId == old(nextId) && membership == old(membership) && events == old(events)
      ensures old(Consistent()) ==> Consistent()
    {
      CascadeKeeps(rooms, users, messages, nextId, r);
      users, messages, rooms := users - UsersOf(users, r).Keys, Filter(messages, NotInRoom(r)), rooms - {r};
    }

    /** `socket.join` for each of `chs`. */
    method Join(conn: ConnId, chs: set<Channel>)
      modifies this
      ensures membership == old(membership)[conn := Channels(old(membership), conn) + chs]
      ensures rooms == old(rooms) && users == old(users) && messages == old(messages)
      ensures nextId == old(nextId) && events == old(events)
    {
      membership := membership[conn := Channels(membership, conn) + chs];
    }

    /** `socket.leave` for each of `chs`. */
    method Leave(conn: ConnId, chs: set<Channel>)
      modifies this
      ensures membership == old(membership)[conn := Channels(old(membership), conn) - chs]
      ensures rooms == old(rooms) && users == old(users) && messages == old(messages)
      ensures nextId == old(nextId) && events == old(events)
    {
      membership := membership[conn := Channels(membership, conn) - chs];
    }

    /** The transport drops a closed connection from every channel. */
    method Drop(conn: ConnId)
      modifies this
      ensures membership == old(membership) - {conn}
      ensures rooms == old(rooms) && users == old(users) && messages == old(messages)
      ensures nextId == old(nextId) && events == old(events)
    {
      membership := membership - {conn};
    }

    /** `emit`: the events are sent in order after everything sent so far. */
    method Emit(evs: seq<Event>)
      modifies this
      ensures events == old(events) + evs
      ensures rooms == old(rooms) && users == old(users) && messages == old(messages)
      ensures nextId == old(nextId) && membership == old(membership)
    {
      events := events + evs;
    }
  }

  /** Filtering messages keeps the store's invariants on them. */
  lemma FilterKeepsMessages(ms: seq<Message>, p: Message -> bool, n: nat, rooms: map<RoomId, Room>)
    requires IdsDistinct(ms)
    requires forall m :: m in ms ==> m.id < n
    ensures IdsDistinct(Filter(ms, p))
    ensures forall m :: m in Filter(ms, p) ==> m.id < n
    ensures (forall m :: m in ms ==> m.room in rooms) ==> forall m :: m in Filter(ms, p) ==> m.room in rooms
    ensures NeverUnapproves(ms, Filter(ms, p))
  {
    FilterKeepsKeysDistinct(ms, p, MessageKey);
    FilterNeverUnapproves(ms, p);
  }

  /** Deleting a room with everything in it keeps the store well formed and linked: no user
      or message is left pointing at the deleted room. */
  lemma CascadeKeeps(rooms: map<RoomId, Room>, users: map<UserId, User>, ms: seq<Message>, n: nat, r: RoomId)
    requires WellFormed(rooms, users, ms, n)
    ensures var users', ms' := users - UsersOf(users, r).Keys, Filter(ms, NotInRoom(r));
      && WellFormed(rooms - {r}, users', ms', n)
      && (forall u :: u in users' <==> u in users && users[u].room != r)
      && (forall m :: m in ms' <==> m in ms && m.room != r)
      && NeverUnapproves(ms, ms')
      && (Linked(rooms, users, ms) ==> Linked(rooms - {r}, users', ms'))
  {
    FilterKeepsMessages(ms, NotInRoom(r), n, rooms);
    var rooms' := rooms - {r};
    assert CodesDistinct(rooms') by {
      forall a, b | a in rooms' && b in rooms' && rooms'[a].code == rooms'[b].code ensures a == b {
        assert rooms[a].code == rooms[b].code;
      }
    }
  }

  /** Approving a message keeps the store's invariants on messages. */
  lemma ApproveKeepsMessages(ms: seq<Message>, id: MessageId, n: nat, rooms: map<RoomId, Room>)
    requires IdsDistinct(ms)
    requires forall m :: m in ms ==> m.id < n
    ensures IdsDistinct(Approve(ms, id))
    ensures forall m :: m in Approve(ms, id) ==> m.id < n
    ensures (forall m :: m in ms ==> m.room in rooms) ==> forall m :: m in Approve(ms, id) ==> m.room in rooms
    ensures NeverUnapproves(ms, Approve(ms, id))
    ensures Lookup(ms, id).None? ==> Approve(ms, id) == ms
    ensures Lookup(ms, id).Some? ==> Lookup(ms, id).value.(status := Approved) in Approve(ms, id)
  {
    var a := Approve(ms, id);
    var found := Lookup(ms, id);
    if found.Some? {
      LookupAfterApprove(ms, id, found.value);
    } else {
      ApproveAbsent(ms, id);
    }
    forall m | m in a ensures m.id < n && (m.room in rooms <== (forall x :: x in ms ==> x.room in rooms)) {
      var i :| 0 <= i < |a| && a[i] == m;
      assert ms[i] in ms;
    }
    forall i, j | 0 <= i < j < |a| ensures MessageKey(a[i]) != MessageKey(a[j]) {
      assert MessageKey(ms[i]) != MessageKey(ms[j]);
    }
    ApproveNeverUnapproves(ms, id);
  }

  /** Appending a message under a fresh id keeps the store's invariants on messages. */
  lemma AppendKeepsMessages(ms: seq<Message>, m: Message, n: nat)
    requires IdsDistinct(ms)
    requires forall x :: x in ms ==> x.id < n
    requires m.id == n
    ensures IdsDistinct(ms + [m])
    ensures forall x :: x in ms + [m] ==> x.id < n + 1
    ensures NeverUnapproves(ms, ms + [m])
  {
    var a := ms + [m];
    forall i, j | 0 <= i < j < |a| ensures MessageKey(a[i]) != MessageKey(a[j]) {
      assert ms[i] in ms;
      if j < |ms| { assert MessageKey(ms[i]) != MessageKey(ms[j]); }
    }
    forall i | 0 <= i < |ms| ensures ms[i].id != m.id {
      assert ms[i] in ms;
    }
    AppendNeverUnapproves(ms, m);
  }
}
