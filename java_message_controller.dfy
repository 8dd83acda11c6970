/** The Java server's message controller (backend-java/.../controller/MessageController.java):
    the approved feed of a room for the admin panel, and permanent deletion of one message. */
module JavaMessageController {
  import opened Text
  import opened Records
  import opened Store
  import JavaSocketService

  /** `GET /approved/{roomCode}`: the trimmed, upper-cased code's room's approved messages,
      in creation order, each with its sender attached when the sender id resolves. */
  method GetApprovedMessages(s: Store, roomCode: string) returns (resp: Response)
    requires s.Valid()
    ensures CodeOwner(s.rooms, Normalize(Java, roomCode)).None? ==> resp == Response(404, NoBody)
    ensures CodeOwner(s.rooms, Normalize(Java, roomCode)).Some? ==>
      var r := CodeOwner(s.rooms, Normalize(Java, roomCode)).value;
      && resp.status == 200 && resp.body.MessageList?
      && resp.body.views == Views(s.users, RoomMessages(s.messages, r, Some(Approved)))
  {
    var found := s.FindRoomByCode(Normalize(Java, roomCode));
    if found.None? {
      return Response(404, NoBody);
    }
    var approved := RoomMessages(s.messages, found.value, Some(Approved));
    var views := [];
    for i := 0 to |approved|
      invariant views == Views(s.users, approved[..i])
    {
      var sender := None;
      if approved[i].sender.Some? {
        sender := s.FindUser(approved[i].sender);
      }
      ViewsSnoc(s.users, approved, i);
      views := views + [MessageView(approved[i], sender)];
    }
    assert approved[..|approved|] == approved;
    resp := Response(200, MessageList(views));
  }

  /** `DELETE /delete/{id}`: the message's room is noted, the message deleted, and, when the
      room still exists, the deletion announced through the socket service. 200 either way. */
  method DeleteMessage(s: Store, messageId: MessageId) returns (resp: Response)
    requires s.Valid()
    modifies s
    ensures s.Valid()
    ensures s.rooms == old(s.rooms) && s.users == old(s.users)
    ensures s.membership == old(s.membership) && s.nextId == old(s.nextId)
    ensures old(s.Consistent()) ==> s.Consistent()
    ensures Lookup(old(s.messages), messageId).None? ==>
      resp == Response(404, NoBody) && s.messages == old(s.messages) && s.events == old(s.events)
    ensures Lookup(old(s.messages), messageId).Some? ==>
      var r := Lookup(old(s.messages), messageId).value.room;
      && resp == Response(200, Success)
      && s.messages == Filter(old(s.messages), NotId(messageId))
      && (forall m :: m in s.messages <==> m in old(s.messages) && m.id != messageId)
      && s.events == old(s.events) +
           if r in s.rooms
           then [Event(ToChannel(RoomChannel(Normalize(Java, s.rooms[r].code))), "message_deleted", Ident(messageId)),
                 Event(ToChannel(BroadcastChannel(Normalize(Java, s.rooms[r].code))), "message_deleted", Ident(messageId))]
           else []
  {
    var found := s.FindMessage(messageId);
    if found.None? {
      return Response(404, NoBody);
    }
    var r := found.value.room;
    s.RemoveMessages(NotId(messageId));
    if r in s.rooms {
      JavaSocketService.BroadcastMessageDeleted(s, messageId, Some(s.rooms[r].code));
    }
    resp := Response(200, Success);
  }
}
