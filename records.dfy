/** The records both servers keep (Room, User, Message), the events they emit, the HTTP
    responses they return, and the repository queries they run over the records. */
module Records {
  import opened Text

  type RoomId = nat
  type UserId = nat
  type MessageId = nat

  /** A Socket.IO connection (session) id. */
  type ConnId = string

  datatype Option<T> = None | Some(value: T)
  {
    function GetOr(default: T): T
    {
      if Some? then value else default
    }
  }

  datatype Status = Pending | Approved

  /** The role stored on a User record. */
  datatype Role = SuperAdminRole | AdminRole | UserRole

  /** The `role` a connection announces on `join_room`; any other string is `AsOther`. */
  datatype JoinRole = AsUser | AsAdmin | AsBroadcast | AsSuperAdmin | AsOther

  datatype Room = Room(code: string, name: string, createdBy: Option<UserId>)

  datatype User = User(
    username: string,
    role: Role,
    room: RoomId,
    status: Status,
    isOnline: bool,
    socketId: Option<ConnId>)

  /** `sender` is the sender's user id; the Java server also copies the sender's name. */
  datatype Message = Message(
    id: MessageId,
    room: RoomId,
    sender: Option<UserId>,
    senderUsername: Option<string>,
    content: string,
    status: Status)

  /** A message as it is sent out: the record with its sender resolved, when it resolves. */
  datatype MessageView = MessageView(msg: Message, sender: Option<User>)

  /** Where an event goes: one connection, every connection in a channel, or everybody. */
  datatype Target = ToConn(conn: ConnId) | ToChannel(channel: Channel) | ToAll

  datatype Payload =
    | NoPayload
    | Note(text: string)
    | Ident(id: nat)
    | One(view: MessageView)
    | Many(views: seq<MessageView>)
    | Roster(users: map<UserId, User>)

  datatype Event = Event(target: Target, name: string, payload: Payload)

  datatype Body =
    | RoomBody(roomId: RoomId, room: Room)
    | UserBody(userId: UserId, user: User)
    | UserList(users: map<UserId, User>)
    | MessageList(views: seq<MessageView>)
    | Success
    | Notice(text: string)
    | NoBody

  datatype Response = Response(status: nat, body: Body)

  // ---------------------------------------------------------------------------------------
  // Room codes and channel names

  const ALPHABET := "ABCDEFGHIJKLMNOPQRSTUVWXYZ0123456789"

  predicate IsCodeChar(c: char)
  {
    'A' <= c <= 'Z' || '0' <= c <= '9'
  }

  /** Six characters from [A-Z0-9]: what both code generators produce. */
  predicate IsRoomCode(s: string)
  {
    |s| == 6 && forall i :: 0 <= i < |s| ==> IsCodeChar(s[i])
  }

  /** The generators' alphabet is exactly [A-Z0-9]. */
  lemma AlphabetIsCodeChars()
    ensures |ALPHABET| == 36
    ensures forall k :: 0 <= k < |ALPHABET| ==> IsCodeChar(ALPHABET[k])
    ensures forall c :: IsCodeChar(c) ==> c in ALPHABET
  {
    forall c | IsCodeChar(c) ensures c in ALPHABET {
      if 'A' <= c <= 'Z' {
        assert ALPHABET[c as int - 'A' as int] == c;
      } else {
        assert ALPHABET[26 + c as int - '0' as int] == c;
      }
    }
  }

  /** A stored code is its own normalisation in either dialect, so `code.toUpperCase()` on a
      stored code and `input.trim().toUpperCase()` on a typed one meet on the same string. */
  lemma RoomCodeIsNormal(d: Dialect, code: string)
    requires IsRoomCode(code)
    ensures Upper(code) == code
    ensures Normalize(d, code) == code
  {
    assert Upper(code) == code by {
      forall i | 0 <= i < |code| ensures Upper(code)[i] == code[i] {
        CodeCharIsPlain(d, code[i]);
      }
    }
    assert Trim(d, code) == code by {
      CodeCharIsPlain(d, code[0]);
      CodeCharIsPlain(d, code[5]);
      assert [] + code + [] == code;
      TrimPadded(d, [], code, []);
    }
  }

  lemma CodeCharIsPlain(d: Dialect, c: char)
    requires IsCodeChar(c)
    ensures !IsSpace(d, c) && !IsLower(c)
  {
  }

  /** The Socket.IO rooms ("channels") a server puts connections in: the bare room code, the
      room-wide channel and the broadcast viewers' channel. */
  datatype Channel = CodeChannel(code: string) | RoomChannel(code: string) | BroadcastChannel(code: string)

  /** The Socket.IO room name of a channel. */
  function ChannelName(ch: Channel): string
  {
    match ch
    case CodeChannel(code) => code
    case RoomChannel(code) => "room_" + code
    case BroadcastChannel(code) => "broadcast_" + code
  }

  /** Channel names never collide as long as bare codes are upper case (every server
      normalises them before joining): the three prefixes keep the kinds apart. */
  lemma ChannelNamesDistinct(a: Channel, b: Channel)
    requires a.CodeChannel? && a.code != [] ==> !IsLower(a.code[0])
    requires b.CodeChannel? && b.code != [] ==> !IsLower(b.code[0])
    ensures ChannelName(a) == ChannelName(b) <==> a == b
  {
    var na, nb := ChannelName(a), ChannelName(b);
    match a
    case CodeChannel(x) =>
      if b.RoomChannel? {
        assert nb[0] == 'r';
      } else if b.BroadcastChannel? {
        assert nb[0] == 'b';
      }
    case RoomChannel(x) =>
      assert na[0] == 'r' && na[5..] == x;
      if b.RoomChannel? {
        assert nb[5..] == b.code;
      } else if b.BroadcastChannel? {
        assert nb[0] == 'b';
      }
    case BroadcastChannel(x) =>
      assert na[0] == 'b' && na[10..] == x;
      if b.BroadcastChannel? {
        assert nb[10..] == b.code;
      } else if b.RoomChannel? {
        assert nb[0] == 'r';
      }
  }

  /** The channels a connection is put in by a successful `join_room` on either server: the bare code, the
      room-wide channel, and the broadcast channel for broadcast viewers only. */
  function JoinedChannels(code: string, role: JoinRole): (r: set<Channel>)
    ensures CodeChannel(code) in r && RoomChannel(code) in r
    ensures BroadcastChannel(code) in r <==> role == AsBroadcast
    ensures r <= {CodeChannel(code), RoomChannel(code), BroadcastChannel(code)}
  {
    {CodeChannel(code), RoomChannel(code)} + if role == AsBroadcast then {BroadcastChannel(code)} else {}
  }

  // ---------------------------------------------------------------------------------------
  // Order-preserving filter

  /** Keeps the elements satisfying `p`, in their order. */
  function Filter<T(!new)>(s: seq<T>, p: T -> bool): (r: seq<T>)
    ensures |r| <= |s|
    ensures forall x :: x in r <==> x in s && p(x)
  {
    if s == [] then [] else (if p(s[0]) then [s[0]] else []) + Filter(s[1..], p)
  }

  /** `a` can be obtained from `b` by deleting elements: the order of `b` is kept. */
  ghost predicate IsSubseq<T>(a: seq<T>, b: seq<T>)
    decreases |b|
  {
    a == [] || (b != [] && ((a[0] == b[0] && IsSubseq(a[1..], b[1..])) || IsSubseq(a, b[1..])))
  }

  lemma {:induction false} FilterIsSubseq<T(!new)>(s: seq<T>, p: T -> bool)
    ensures IsSubseq(Filter(s, p), s)
    decreases |s|
  {
    if s != [] {
      FilterIsSubseq(s[1..], p);
      var f := Filter(s, p);
      if p(s[0]) {
        assert f == [s[0]] + Filter(s[1..], p);
        assert f[0] == s[0] && f[1..] == Filter(s[1..], p);
      } else {
        assert f == Filter(s[1..], p);
        assert f == [] || IsSubseq(f, s[1..]);
      }
    }
  }

  lemma {:induction false} FilterAppend<T(!new)>(a: seq<T>, b: seq<T>, p: T -> bool)
    ensures Filter(a + b, p) == Filter(a, p) + Filter(b, p)
    decreases |a|
  {
    if a != [] {
      var head := if p(a[0]) then [a[0]] else [];
      assert (a + b)[0] == a[0] && (a + b)[1..] == a[1..] + b;
      FilterAppend(a[1..], b, p);
      calc {
        Filter(a + b, p);
        head + Filter(a[1..] + b, p);
        head + (Filter(a[1..], p) + Filter(b, p));
        (head + Filter(a[1..], p)) + Filter(b, p);
        Filter(a, p) + Filter(b, p);
      }
    } else {
      assert a + b == b;
    }
  }

  lemma {:induction false} FilterCommute<T(!new)>(s: seq<T>, p: T -> bool, q: T -> bool)
    ensures Filter(Filter(s, p), q) == Filter(Filter(s, q), p)
    decreases |s|
  {
    if s != [] {
      FilterCommute(s[1..], p, q);
      var head := if p(s[0]) then [s[0]] else [];
      FilterAppend(head, Filter(s[1..], p), q);
      var head' := if q(s[0]) then [s[0]] else [];
      FilterAppend(head', Filter(s[1..], q), p);
    }
  }

  /** No two positions share a key. */
  ghost predicate KeysDistinct<T, K>(s: seq<T>, key: T -> K)
  {
    forall i, j :: 0 <= i < j < |s| ==> key(s[i]) != key(s[j])
  }

  lemma {:induction false} FilterKeepsKeysDistinct<T(!new), K>(s: seq<T>, p: T -> bool, key: T -> K)
    requires KeysDistinct(s, key)
    ensures KeysDistinct(Filter(s, p), key)
    decreases |s|
  {
    if s != [] {
      var rest := Filter(s[1..], p);
      assert KeysDistinct(s[1..], key) by {
        forall i, j | 0 <= i < j < |s[1..]| ensures key(s[1..][i]) != key(s[1..][j]) {
          assert s[1..][i] == s[i + 1] && s[1..][j] == s[j + 1];
        }
      }
      FilterKeepsKeysDistinct(s[1..], p, key);
      if p(s[0]) {
        var r := [s[0]] + rest;
        forall i, j | 0 <= i < j < |r| ensures key(r[i]) != key(r[j]) {
          if i == 0 {
            assert r[j] in s[1..];
            var k :| 0 <= k < |s[1..]| && s[1..][k] == r[j];
            assert s[k + 1] == r[j];
          } else {
            assert r[i] == rest[i - 1] && r[j] == rest[j - 1];
          }
        }
      }
    }
  }

  // ---------------------------------------------------------------------------------------
  // Messages

  function MessageKey(m: Message): MessageId
  {
    m.id
  }

  ghost predicate IdsDistinct(ms: seq<Message>)
  {
    KeysDistinct(ms, MessageKey)
  }

  /** The message filter of `findByRoomIdOrderByCreatedAtAsc` (all statuses, `only == None`)
      and of `findByRoomIdAndStatusOrderByCreatedAtAsc` (`only == Some(status)`). */
  function InRoom(r: RoomId, only: Option<Status>): Message -> bool
  {
    (m: Message) => m.room == r && (only.None? || m.status == only.value)
  }

  function NotId(id: MessageId): Message -> bool
  {
    (m: Message) => m.id != id
  }

  /** The messages of room `r` with status `only` (every status when None), oldest first.
      The store keeps messages in creation order, so "sorted by createdAt" is "filtered". */
  function RoomMessages(ms: seq<Message>, r: RoomId, only: Option<Status>): (res: seq<Message>)
    ensures forall m :: m in res <==> m in ms && m.room == r && (only.None? || m.status == only.value)
  {
    Filter(ms, InRoom(r, only))
  }

  /** A room's snapshot lists its messages in creation order. */
  lemma RoomMessagesInOrder(ms: seq<Message>, r: RoomId, only: Option<Status>)
    ensures IsSubseq(RoomMessages(ms, r, only), ms)
  {
    FilterIsSubseq(ms, InRoom(r, only));
  }

  /** A newly created message is last in every snapshot it belongs to. */
  lemma RoomMessagesAfterAppend(ms: seq<Message>, m: Message, r: RoomId, only: Option<Status>)
    ensures RoomMessages(ms + [m], r, only)
         == RoomMessages(ms, r, only) + (if InRoom(r, only)(m) then [m] else [])
  {
    FilterAppend(ms, [m], InRoom(r, only));
    assert Filter([m], InRoom(r, only)) == (if InRoom(r, only)(m) then [m] else []) + Filter([m][1..], InRoom(r, only));
  }

  /** A deleted message leaves every snapshot of every room, whatever its status, and the
      rest of each snapshot is kept in order. */
  lemma RoomMessagesAfterDelete(ms: seq<Message>, id: MessageId, r: RoomId, only: Option<Status>)
    ensures RoomMessages(Filter(ms, NotId(id)), r, only) == Filter(RoomMessages(ms, r, only), NotId(id))
    ensures forall m :: m in RoomMessages(Filter(ms, NotId(id)), r, only) ==> m.id != id
  {
    FilterCommute(ms, NotId(id), InRoom(r, only));
  }

  function MarkApproved(m: Message, id: MessageId): Message
  {
    if m.id == id then m.(status := Approved) else m
  }

  /** `findByIdAndUpdate(id, {status: "approved"})`: the message with that id is approved,
      in place; nothing else changes. */
  function Approve(ms: seq<Message>, id: MessageId): (r: seq<Message>)
    ensures |r| == |ms|
    ensures forall i :: 0 <= i < |ms| ==> r[i].id == ms[i].id
    ensures forall i :: 0 <= i < |ms| && ms[i].id == id ==> r[i].status == Approved
    ensures forall i :: 0 <= i < |ms| && ms[i].id != id ==> r[i] == ms[i]
    ensures forall i :: 0 <= i < |ms| ==> r[i] == ms[i].(status := r[i].status)
  {
    if ms == [] then [] else [MarkApproved(ms[0], id)] + Approve(ms[1..], id)
  }

  /** Approving a message takes it out of the admins' pending queue and keeps the rest
      of the queue in order. */
  lemma {:induction false} ApproveLeavesPendingQueue(ms: seq<Message>, id: MessageId, r: RoomId)
    ensures RoomMessages(Approve(ms, id), r, Some(Pending))
         == Filter(RoomMessages(ms, r, Some(Pending)), NotId(id))
    decreases |ms|
  {
    if ms != [] {
      ApproveLeavesPendingQueue(ms[1..], id, r);
      var p := InRoom(r, Some(Pending));
      assert Approve(ms, id)[1..] == Approve(ms[1..], id);
      var q := Filter(ms[1..], p);
      var head := if p(ms[0]) then [ms[0]] else [];
      FilterAppend(head, q, NotId(id));
    }
  }

  /** Approving a message adds it to the broadcast feed of its room at its creation position:
      the approved snapshot afterwards is the old one plus exactly the approved message. */
  lemma {:induction false} ApproveJoinsFeed(ms: seq<Message>, id: MessageId, r: RoomId, m: Message)
    requires m in ms && m.id == id && m.room == r
    ensures m.(status := Approved) in RoomMessages(Approve(ms, id), r, Some(Approved))
    ensures forall x :: x in RoomMessages(ms, r, Some(Approved)) ==> x in RoomMessages(Approve(ms, id), r, Some(Approved))
  {
    var a := Approve(ms, id);
    var i :| 0 <= i < |ms| && ms[i] == m;
    assert a[i] == m.(status := Approved);
    forall x | x in RoomMessages(ms, r, Some(Approved))
      ensures x in RoomMessages(a, r, Some(Approved))
    {
      var j :| 0 <= j < |ms| && ms[j] == x;
      assert a[j] == x;
    }
  }

  /** Status never moves from approved back to pending: every message still present under
      the same id is still approved. */
  ghost predicate NeverUnapproves(before: seq<Message>, after: seq<Message>)
  {
    forall i, j ::
      0 <= i < |before| && 0 <= j < |after| && before[i].id == after[j].id && before[i].status == Approved
      ==> after[j].status == Approved
  }

  lemma ApproveNeverUnapproves(ms: seq<Message>, id: MessageId)
    requires IdsDistinct(ms)
    ensures NeverUnapproves(ms, Approve(ms, id))
  {
    var a := Approve(ms, id);
    forall i, j | 0 <= i < |ms| && 0 <= j < |a| && ms[i].id == a[j].id && ms[i].status == Approved
      ensures a[j].status == Approved
    {
      assert MessageKey(ms[i]) == MessageKey(ms[j]);
      assert i == j;
    }
  }

  lemma FilterNeverUnapproves(ms: seq<Message>, p: Message -> bool)
    requires IdsDistinct(ms)
    ensures NeverUnapproves(ms, Filter(ms, p))
  {
    var f := Filter(ms, p);
    forall i, j | 0 <= i < |ms| && 0 <= j < |f| && ms[i].id == f[j].id && ms[i].status == Approved
      ensures f[j].status == Approved
    {
      assert f[j] in ms;
      var k :| 0 <= k < |ms| && ms[k] == f[j];
      assert MessageKey(ms[i]) == MessageKey(ms[k]);
      assert i == k;
    }
  }

  /** Creating a pending message under a fresh id unapproves nothing. */
  lemma AppendNeverUnapproves(ms: seq<Message>, m: Message)
    requires IdsDistinct(ms)
    requires forall i :: 0 <= i < |ms| ==> ms[i].id != m.id
    ensures NeverUnapproves(ms, ms + [m])
  {
    var a := ms + [m];
    forall i, j | 0 <= i < |ms| && 0 <= j < |a| && ms[i].id == a[j].id && ms[i].status == Approved
      ensures a[j].status == Approved
    {
      assert j < |ms| && a[j] == ms[j];
      assert MessageKey(ms[i]) == MessageKey(ms[j]);
    }
  }

  function NotInRoom(r: RoomId): Message -> bool
  {
    (m: Message) => m.room != r
  }

  function NotSentBy(u: UserId): Message -> bool
  {
    (m: Message) => m.sender != Some(u)
  }

  /** `findById` on the message collection: the message stored under `id`, if any. */
  function Lookup(ms: seq<Message>, id: MessageId): (r: Option<Message>)
    ensures r.Some? ==> r.value in ms && r.value.id == id
    ensures r.None? <==> forall m :: m in ms ==> m.id != id
  {
    if ms == [] then None else if ms[0].id == id then Some(ms[0]) else Lookup(ms[1..], id)
  }

  /** Lookup finds the first message carrying the id. */
  lemma {:induction false} LookupFirst(ms: seq<Message>, i: nat)
    requires i < |ms|
    requires forall j :: 0 <= j < i ==> ms[j].id != ms[i].id
    ensures Lookup(ms, ms[i].id) == Some(ms[i])
  {
    if i > 0 {
      LookupFirst(ms[1..], i - 1);
    }
  }

  /** Approving an id nobody holds changes nothing. */
  lemma ApproveAbsent(ms: seq<Message>, id: MessageId)
    requires Lookup(ms, id).None?
    ensures Approve(ms, id) == ms
  {
    forall i | 0 <= i < |ms| ensures ms[i].id != id {
      assert ms[i] in ms;
    }
  }

  /** Approving a message that is already approved changes nothing: a second
      `approve_message` for the same id leaves the messages as the first one left them. */
  lemma ApproveTwice(ms: seq<Message>, id: MessageId)
    ensures Approve(Approve(ms, id), id) == Approve(ms, id)
  {
  }

  /** Under distinct ids the approved record is found in place of the old one. */
  lemma LookupAfterApprove(ms: seq<Message>, id: MessageId, m: Message)
    requires IdsDistinct(ms) && Lookup(ms, id) == Some(m)
    ensures m.(status := Approved) in Approve(ms, id)
  {
    var i :| 0 <= i < |ms| && ms[i] == m;
  }

  // ---------------------------------------------------------------------------------------
  // Users

  /** `findByRoom`: every user of the room. */
  function UsersOf(users: map<UserId, User>, r: RoomId): map<UserId, User>
  {
    map u | u in users && users[u].room == r :: users[u]
  }

  /** `findByRoomAndStatus`. */
  function UsersWith(users: map<UserId, User>, r: RoomId, st: Status): map<UserId, User>
  {
    map u | u in users && users[u].room == r && users[u].status == st :: users[u]
  }

  /** `findByRoomAndStatusAndOnline(room, "approved", true)`: the superadmin live roster. */
  function LiveUsers(users: map<UserId, User>, r: RoomId): map<UserId, User>
  {
    map u | u in users && users[u].room == r && users[u].status == Approved && users[u].isOnline :: users[u]
  }

  /** A room's users split into its pending and its approved users, and the live roster is
      the online part of the approved ones. */
  lemma UsersPartition(users: map<UserId, User>, r: RoomId)
    ensures UsersOf(users, r) == UsersWith(users, r, Pending) + UsersWith(users, r, Approved)
    ensures UsersWith(users, r, Pending).Keys !! UsersWith(users, r, Approved).Keys
    ensures forall u :: u in LiveUsers(users, r) <==> u in UsersWith(users, r, Approved) && users[u].isOnline
  {
    var all := UsersOf(users, r);
    var both := UsersWith(users, r, Pending) + UsersWith(users, r, Approved);
    assert all.Keys == both.Keys;
    forall u | u in all ensures all[u] == both[u] {
      if users[u].status == Pending { assert u !in UsersWith(users, r, Approved); }
    }
  }

  function GoOnline(u: User, c: ConnId): User
  {
    u.(isOnline := true, socketId := Some(c))
  }

  function GoOffline(u: User): User
  {
    u.(isOnline := false, socketId := None)
  }

  /** A user who goes offline leaves the live roster of every room, and the rest of the roster
      is unchanged. */
  lemma OfflineLeavesRoster(users: map<UserId, User>, id: UserId, r: RoomId)
    requires id in users
    ensures id !in LiveUsers(users[id := GoOffline(users[id])], r)
    ensures LiveUsers(users[id := GoOffline(users[id])], r) == LiveUsers(users, r) - {id}
  {
  }

  /** `findByIdAndUpdate(userId, {isOnline: true, socketId})`: only that user changes, and
      only when the id resolves. */
  function MarkOnline(users: map<UserId, User>, userId: Option<UserId>, conn: ConnId): (r: map<UserId, User>)
    ensures r.Keys == users.Keys
    ensures userId.Some? && userId.value in users ==>
      r[userId.value].isOnline && r[userId.value].socketId == Some(conn)
      && r[userId.value] == users[userId.value].(isOnline := true, socketId := Some(conn))
    ensures forall u :: u in users && Some(u) != userId ==> r[u] == users[u]
  {
    if userId.Some? && userId.value in users then users[userId.value := GoOnline(users[userId.value], conn)] else users
  }

  /** `if (!x) return;` on a string field: missing or empty. */
  predicate Truthy(s: Option<string>)
  {
    s.Some? && s.value != ""
  }

  // ---------------------------------------------------------------------------------------
  // Populating senders

  function ViewOf(users: map<UserId, User>, m: Message): MessageView
  {
    MessageView(m, if m.sender.Some? && m.sender.value in users then Some(users[m.sender.value]) else None)
  }

  /** Each message is sent unchanged, with its sender attached exactly when the sender id
      resolves to a stored user. */
  function Views(users: map<UserId, User>, ms: seq<Message>): (r: seq<MessageView>)
    ensures |r| == |ms|
    ensures forall i :: 0 <= i < |ms| ==> r[i].msg == ms[i]
    ensures forall i :: 0 <= i < |ms| ==>
      (r[i].sender.Some? <==> ms[i].sender.Some? && ms[i].sender.value in users)
    ensures forall i :: 0 <= i < |ms| && r[i].sender.Some? ==> r[i].sender.value == users[ms[i].sender.value]
  {
    seq(|ms|, i requires 0 <= i < |ms| => ViewOf(users, ms[i]))
  }

  /** Populating one more message extends the views by that message's view. */
  lemma ViewsSnoc(users: map<UserId, User>, ms: seq<Message>, i: nat)
    requires i < |ms|
    ensures Views(users, ms[..i + 1]) == Views(users, ms[..i]) + [ViewOf(users, ms[i])]
  {
    var a, b := Views(users, ms[..i + 1]), Views(users, ms[..i]) + [ViewOf(users, ms[i])];
    forall k | 0 <= k < |a| ensures a[k] == b[k] {
      assert ms[..i + 1][k] == ms[k];
    }
  }
}
