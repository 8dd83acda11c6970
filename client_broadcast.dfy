/** The broadcast screen (client/src/pages/Broadcast.jsx): a read-only feed of one room's
    approved messages, joined as a broadcast viewer and refreshed by socket events. */
module ClientBroadcast {
  import opened Text
  import opened Records
  import opened ClientLists

  /** The page's state cells; `saved` is the room code stored in the `broadcastSession` entry
      (with role "broadcast"), when there is one. */
  datatype BroadcastPage = BroadcastPage(
    roomCode: string,
    joined: bool,
    messages: seq<MessageView>,
    error: string,
    saved: Option<string>)

  /** `joinBroadcast`: a blank code is refused with an error; otherwise the trimmed,
      upper-cased code is saved, replaces the code cell, and the page is joined. */
  function JoinBroadcast(p: BroadcastPage): (r: BroadcastPage)
    ensures IsBlank(Js, p.roomCode) ==> r == p.(error := "Please enter a room code")
    ensures !IsBlank(Js, p.roomCode) ==>
      && r.joined && r.error == "" && r.roomCode == Normalize(Js, p.roomCode)
      && r.saved == Some(r.roomCode) && r.messages == p.messages
  {
    if Trim(Js, p.roomCode) == [] then p.(error := "Please enter a room code")
    else
      var code := Normalize(Js, p.roomCode);
      p.(error := "", saved := Some(code), roomCode := code, joined := true)
  }

  /** The join effect (and the poll that repeats it every three seconds): once joined with a
      code and a socket, the page sends `join_room` as a broadcast viewer. */
  function JoinEffect(p: BroadcastPage, socketReady: bool): (out: seq<Outgoing>)
    ensures |out| <= 1
    ensures out != [] <==> socketReady && p.joined && p.roomCode != ""
    ensures out != [] ==> out[0] == EmitJoinRoom(p.roomCode, AsBroadcast, None)
  {
    if socketReady && p.joined && p.roomCode != "" then [EmitJoinRoom(p.roomCode, AsBroadcast, None)] else []
  }

  /** After a successful join the page asks for the room with a code that is already trimmed
      and upper case, which normalising again on the server leaves unchanged. */
  lemma JoinSendsNormalCode(p: BroadcastPage)
    requires !IsBlank(Js, p.roomCode)
    ensures var c := Normalize(Js, p.roomCode);
      && JoinEffect(JoinBroadcast(p), true) == [EmitJoinRoom(c, AsBroadcast, None)]
      && Normalize(Js, c) == c
  {
    NormalizeIdempotent(Js, p.roomCode);
    var c := Normalize(Js, p.roomCode);
    assert c != [] by {
      UpperKeepsEnds(Js, Trim(Js, p.roomCode));
    }
    var r := JoinBroadcast(p);
    assert r.joined && r.roomCode == c;
  }

  /** `room_deleted` and `handleLogout`: the saved session is removed and the page goes back to
      the join screen with no code and no messages. */
  function Leave(p: BroadcastPage): (r: BroadcastPage)
    ensures !r.joined && r.roomCode == "" && r.messages == [] && r.saved.None?
    ensures r.error == p.error
    ensures JoinEffect(r, true) == []
  {
    p.(saved := None, joined := false, roomCode := "", messages := [])
  }

  /** The listeners as written: `load_broadcast_messages`, `broadcast_message` and
      `room_deleted`. Any other event, deletions included, leaves the page as it is. */
  function OnEvent(p: BroadcastPage, e: Event): (r: BroadcastPage)
    ensures e.name == "load_broadcast_messages" ==>
      r == p.(messages := r.messages) && r.messages == Load(SnapshotOf(e.payload))
    ensures e.name == "broadcast_message" && e.payload.One? ==>
      && r == p.(messages := r.messages)
      && Has(r.messages, IdOf(e.payload.view))
      && (Has(p.messages, IdOf(e.payload.view)) ==> r == p)
      && (!Has(p.messages, IdOf(e.payload.view)) ==> r.messages == p.messages + [e.payload.view])
    ensures e.name == "room_deleted" ==> r == Leave(p) && !r.joined && r.messages == [] && r.saved.None?
    ensures e.name !in {"load_broadcast_messages", "broadcast_message", "room_deleted"} ==> r == p
  {
    if e.name == "load_broadcast_messages" then p.(messages := Load(SnapshotOf(e.payload)))
    else if e.name == "broadcast_message" && e.payload.One? then p.(messages := AppendUnseen(p.messages, e.payload.view))
    else if e.name == "room_deleted" then Leave(p)
    else p
  }

  /** The deletion notices the servers send to broadcast viewers: the Node server's
      `remove_broadcast_message` and the Java server's `message_deleted`. */
  predicate IsDeletion(e: Event)
  {
    (e.name == "remove_broadcast_message" || e.name == "message_deleted") && e.payload.Ident?
  }

  /** As written, a deleted message stays on the screen: the deletion notice changes nothing,
      so a message listed before it is still listed after it. */
  lemma DeletionIsIgnored(p: BroadcastPage, e: Event)
    requires IsDeletion(e)
    ensures OnEvent(p, e) == p
    ensures Has(p.messages, e.payload.id) ==> Has(OnEvent(p, e).messages, e.payload.id)
  {
  }

  /** The listeners with a handler for the deletion notices: the message leaves the feed, the
      remaining messages keep their order and nothing else about the page changes; every other
      event is handled as before. */
  function OnEventCorrected(p: BroadcastPage, e: Event): (r: BroadcastPage)
    ensures IsDeletion(e) ==>
      && !Has(r.messages, e.payload.id)
      && (forall v :: v in r.messages <==> v in p.messages && IdOf(v) != e.payload.id)
      && IsSubseq(r.messages, p.messages)
      && r == p.(messages := r.messages)
    ensures !IsDeletion(e) ==> r == OnEvent(p, e)
  {
    if IsDeletion(e) then p.(messages := RemoveId(p.messages, e.payload.id))
    else OnEvent(p, e)
  }

  /** The feed never shows an id twice, with or without the correction, as long as every
      snapshot it is sent has none. */
  lemma OnEventCorrectedKeepsUnique(p: BroadcastPage, e: Event)
    requires IdsUnique(p.messages)
    requires e.name == "load_broadcast_messages" && e.payload.Many? ==> IdsUnique(e.payload.views)
    ensures IdsUnique(OnEvent(p, e).messages)
    ensures IdsUnique(OnEventCorrected(p, e).messages)
  {
    if e.name == "broadcast_message" && e.payload.One? {
      AppendUnseenKeepsUnique(p.messages, e.payload.view);
    }
    if IsDeletion(e) {
      RemoveIdKeepsUnique(p.messages, e.payload.id);
    }
  }
}
