/** The chat page (client/src/pages/ChatRoom.jsx). The join screen is a small machine over the
    state cells `status` (idle, pending, approved) and `userId`, with the `chatSession` entry
    mirroring them; once approved, the chat view keeps the room's message list and the
    composer. */
module ClientChat {
  import opened Text
  import opened Records
  import opened ClientLists

  datatype ChatStatus = Idle | PendingApproval | InChat

  /** The `chatSession` entry. */
  datatype SavedChat = SavedChat(username: string, roomCode: string, userId: UserId, status: ChatStatus)

  /** How the HTTP join request ended: the created user's `_id`, or a failure with the
      server's `message`, when it sent one. */
  datatype JoinReply = Accepted(userId: UserId) | Rejected(message: Option<string>)

  class ChatSession {
    var username: string
    var roomCode: string
    var status: ChatStatus
    var userId: Option<UserId>
    var error: string
    var saved: Option<SavedChat>
    /** Everything the page has sent, oldest first. */
    var sent: seq<Outgoing>

    /** Idle exactly when no user id is held, and the saved entry, when there is one, holds
        the same id and status as the page. */
    ghost predicate Valid()
      reads this
    {
      && (status == Idle <==> userId.None?)
      && (saved.Some? ==> userId == Some(saved.value.userId) && saved.value.status == status)
    }

    constructor ()
      ensures Valid()
      ensures username == "" && roomCode == "" && status == Idle && userId.None?
      ensures error == "" && saved.None? && sent == []
    {
      username, roomCode, status, userId := "", "", Idle, None;
      error, saved, sent := "", None, [];
    }

    /** `joinRoom`: blank fields are refused before any request. Otherwise the trimmed name
        and the trimmed, upper-cased code are posted; on success the page waits for approval
        under the new user id, saves the session and, when the socket exists, joins the room's
        channels as a user. */
    method JoinRoom(reply: JoinReply, socketReady: bool)
      requires Valid()
      modifies this
      ensures Valid()
      ensures username == old(username) && roomCode == old(roomCode)
      ensures IsBlank(Js, old(username)) || IsBlank(Js, old(roomCode)) ==>
        && error == "Please enter both username and room code"
        && status == old(status) && userId == old(userId) && saved == old(saved) && sent == old(sent)
      ensures !IsBlank(Js, old(username)) && !IsBlank(Js, old(roomCode)) && reply.Rejected? ==>
        && error == (if Truthy(reply.message) then reply.message.value else "Failed to join room. Please check the room code.")
        && status == old(status) && userId == old(userId) && saved == old(saved)
        && sent == old(sent) + [PostJoin(Trim(Js, old(username)), Normalize(Js, old(roomCode)))]
      ensures !IsBlank(Js, old(username)) && !IsBlank(Js, old(roomCode)) && reply.Accepted? ==>
        var code := Normalize(Js, old(roomCode));
        && error == "" && status == PendingApproval && userId == Some(reply.userId)
        && saved == Some(SavedChat(Trim(Js, old(username)), code, reply.userId, PendingApproval))
        && sent == old(sent) + [PostJoin(Trim(Js, old(username)), code)] +
                   if socketReady then [EmitJoinRoom(code, AsUser, Some(reply.userId))] else []
    {
      var name, code := Trim(Js, username), Normalize(Js, roomCode);
      if name == [] || code == [] {
        error := "Please enter both username and room code";
        return;
      }
      var post := PostJoin(name, code);
      match reply
      case Accepted(id) =>
        var join := if socketReady then [EmitJoinRoom(code, AsUser, Some(id))] else [];
        error, userId, status := "", Some(id), PendingApproval;
        saved, sent := Some(SavedChat(name, code, id, PendingApproval)), sent + [post] + join;
      case Rejected(message) =>
        error := if Truthy(message) then message.value else "Failed to join room. Please check the room code.";
        sent := sent + [post];
    }

    /** `user_approved` (listened to only while a user id is held): the page moves to the
        chat when the approved id is its own, and the saved entry follows. */
    method OnUserApproved(approved: UserId)
      requires Valid()
      modifies this
      ensures Valid()
      ensures username == old(username) && roomCode == old(roomCode) && userId == old(userId)
      ensures error == old(error) && sent == old(sent)
      ensures old(userId) == Some(approved) ==>
        status == InChat && saved == if old(saved).Some? then Some(old(saved).value.(status := InChat)) else None
      ensures old(userId) != Some(approved) ==> status == old(status) && saved == old(saved)
    {
      if userId.Some? && userId.value == approved {
        status := InChat;
        if saved.Some? {
          saved := Some(saved.value.(status := InChat));
        }
      }
    }

    /** `room_not_found` (listened to only while a user id is held): the session is dropped
        and the page goes back to idle with an error. */
    method OnRoomNotFound()
      requires Valid()
      modifies this
      ensures Valid()
      ensures username == old(username) && roomCode == old(roomCode) && sent == old(sent)
      ensures old(userId).None? ==> status == old(status) && userId == old(userId) && saved == old(saved) && error == old(error)
      ensures old(userId).Some? ==>
        && error == "Room not found. Please check the room code."
        && saved.None? && status == Idle && userId.None?
    {
      if userId.Some? {
        error := "Room not found. Please check the room code.";
        saved := None;
        status := Idle;
        userId := None;
      }
    }

    /** `clearSession` (Cancel, Logout, and being kicked or losing the room in the chat view):
        back to an empty idle page. */
    method ClearSession()
      modifies this
      ensures Valid()
      ensures saved.None? && status == Idle && userId.None?
      ensures username == "" && roomCode == "" && error == "" && sent == old(sent)
    {
      saved := None;
      status := Idle;
      userId := None;
      username := "";
      roomCode := "";
      error := "";
    }
  }

  /** The chat view's mount effect: with a socket, it joins the room as a user with the code
      cell as it stands. */
  function ChatJoinEffect(roomCode: string, userId: Option<UserId>, socketReady: bool): (out: seq<Outgoing>)
    ensures |out| <= 1
    ensures out != [] <==> socketReady
    ensures out != [] ==> out[0] == EmitJoinRoom(roomCode, AsUser, userId)
  {
    if socketReady then [EmitJoinRoom(roomCode, AsUser, userId)] else []
  }

  /** `load_messages`: `msgs.length` is read before `msgs || []`, so a missing snapshot
      throws and the list stays as it was; a snapshot replaces it. */
  function LoadMessages(list: seq<MessageView>, snapshot: Option<seq<MessageView>>): (r: seq<MessageView>)
    ensures snapshot.None? ==> r == list
    ensures snapshot.Some? ==> r == snapshot.value
  {
    if snapshot.None? then list else snapshot.value
  }

  /** The chat view's listeners for the list: `load_messages` and `receive_message`. Deletions
      are not listened to. */
  function OnEvent(list: seq<MessageView>, e: Event): (r: seq<MessageView>)
    ensures e.name == "load_messages" ==> r == if e.payload.Many? then e.payload.views else list
    ensures e.name == "receive_message" && e.payload.One? ==>
      && Has(r, IdOf(e.payload.view))
      && (Has(list, IdOf(e.payload.view)) ==> r == list)
      && (!Has(list, IdOf(e.payload.view)) ==> r == list + [e.payload.view])
    ensures e.name !in {"load_messages", "receive_message"} ==> r == list
  {
    if e.name == "load_messages" then LoadMessages(list, SnapshotOf(e.payload))
    else if e.name == "receive_message" && e.payload.One? then AppendUnseen(list, e.payload.view)
    else list
  }

  /** The chat list never shows an id twice, as long as every snapshot it is sent has none. */
  lemma OnEventKeepsUnique(list: seq<MessageView>, e: Event)
    requires IdsUnique(list)
    requires e.name == "load_messages" && e.payload.Many? ==> IdsUnique(e.payload.views)
    ensures IdsUnique(OnEvent(list, e))
  {
    if e.name == "load_messages" {
    } else if e.name == "receive_message" && e.payload.One? {
      AppendUnseenKeepsUnique(list, e.payload.view);
    }
  }

  /** The deletion notices a chat user's connection receives: the Node server's
      `remove_message` and `message_deleted` on the bare-code channel, and the Java server's
      `message_deleted` on the room channel. */
  predicate IsDeletion(e: Event)
  {
    (e.name == "remove_message" || e.name == "message_deleted") && e.payload.Ident?
  }

  /** As written, a deleted message stays in the chat: the deletion notice changes nothing, so
      a message listed before it is still listed after it. */
  lemma DeletionIsIgnored(list: seq<MessageView>, e: Event)
    requires IsDeletion(e)
    ensures OnEvent(list, e) == list
    ensures Has(list, e.payload.id) ==> Has(OnEvent(list, e), e.payload.id)
  {
  }

  /** The listeners with a handler for the deletion notices: the message leaves the list,
      the remaining messages keep their order, and every other event is handled as before. */
  function OnEventCorrected(list: seq<MessageView>, e: Event): (r: seq<MessageView>)
    ensures IsDeletion(e) ==>
      && !Has(r, e.payload.id)
      && (forall v :: v in r <==> v in list && IdOf(v) != e.payload.id)
      && IsSubseq(r, list)
    ensures !IsDeletion(e) ==> r == OnEvent(list, e)
  {
    if IsDeletion(e) then RemoveId(list, e.payload.id) else OnEvent(list, e)
  }

  /** With the handler the chat list still never shows an id twice. */
  lemma OnEventCorrectedKeepsUnique(list: seq<MessageView>, e: Event)
    requires IdsUnique(list)
    requires e.name == "load_messages" && e.payload.Many? ==> IdsUnique(e.payload.views)
    ensures IdsUnique(OnEventCorrected(list, e))
  {
    if IsDeletion(e) {
      RemoveIdKeepsUnique(list, e.payload.id);
    } else {
      OnEventKeepsUnique(list, e);
    }
  }

  /** The composer: the input box and the `sending` flag. */
  datatype Composer = Composer(input: string, sending: bool)

  /** `sendMessage`: blank input, no socket, or a send in progress does nothing; otherwise the
      trimmed text is sent with the user id and room code and the input is cleared. */
  function SendMessage(c: Composer, socketReady: bool, userId: Option<UserId>, roomCode: string): (r: (Composer, seq<Outgoing>))
    ensures IsBlank(Js, c.input) || !socketReady || c.sending ==> r == (c, [])
    ensures !IsBlank(Js, c.input) && socketReady && !c.sending ==>
      && r.0 == Composer("", false)
      && r.1 == [EmitSendMessage(userId, roomCode, Trim(Js, c.input))]
  {
    if Trim(Js, c.input) == [] || !socketReady || c.sending then (c, [])
    else (Composer("", false), [EmitSendMessage(userId, roomCode, Trim(Js, c.input))])
  }

  /** What the composer sends is never blank and is already trimmed, so the Node server, which
      trims it again, stores it exactly as sent. */
  lemma SentContentIsStoredAsSent(c: Composer, socketReady: bool, userId: Option<UserId>, roomCode: string)
    requires SendMessage(c, socketReady, userId, roomCode).1 != []
    ensures var content := SendMessage(c, socketReady, userId, roomCode).1[0].content;
      !IsBlank(Js, content) && Trim(Js, content) == content
  {
    TrimIdempotent(Js, c.input);
  }
}
