/** The Node server's message route (server/src/routes/messageRoutes.js): permanent deletion
    of one message, announced to the room's bare-code channel and to its broadcast viewers. */
module NodeMessageRoutes {
  import opened Records
  import opened Store

  /** `DELETE /delete/:messageId`. The room's code is read through the message before the
      delete; when the room is gone that read throws and nothing is deleted. */
  method DeleteMessage(s: Store, messageId: MessageId) returns (resp: Response)
    requires s.Valid()
    modifies s
    ensures s.Valid()
    ensures s.rooms == old(s.rooms) && s.users == old(s.users)
    ensures s.membership == old(s.membership) && s.nextId == old(s.nextId)
    ensures old(s.Consistent()) ==> s.Consistent()
    ensures Lookup(old(s.messages), messageId).None? ==>
      resp == Response(404, Notice("Message not found")) && s.messages == old(s.messages) && s.events == old(s.events)
    ensures Lookup(old(s.messages), messageId).Some? && Lookup(old(s.messages), messageId).value.room !in s.rooms ==>
      resp == Response(500, Notice("Server Error")) && s.messages == old(s.messages) && s.events == old(s.events)
    ensures Lookup(old(s.messages), messageId).Some? && Lookup(old(s.messages), messageId).value.room in s.rooms ==>
      var code := s.rooms[Lookup(old(s.messages), messageId).value.room].code;
      && resp == Response(200, Success)
      && s.messages == Filter(old(s.messages), NotId(messageId))
      && (forall m :: m in s.messages <==> m in old(s.messages) && m.id != messageId)
      && s.events == old(s.events) + [Event(ToChannel(CodeChannel(code)), "message_deleted", Ident(messageId)),
                                       Event(ToChannel(CodeChannel(code)), "remove_message", Ident(messageId)),
                                       Event(ToChannel(BroadcastChannel(code)), "remove_broadcast_message", Ident(messageId))]
  {
    var found := s.FindMessage(messageId);
    if found.None? {
      return Response(404, Notice("Message not found"));
    }
    if found.value.room !in s.rooms {
      return Response(500, Notice("Server Error"));
    }
    var code := s.rooms[found.value.room].code;
    s.RemoveMessages(NotId(messageId));
    s.Emit([Event(ToChannel(CodeChannel(code)), "message_deleted", Ident(messageId)),
            Event(ToChannel(CodeChannel(code)), "remove_message", Ident(messageId)),
            Event(ToChannel(BroadcastChannel(code)), "remove_broadcast_message", Ident(messageId))]);
    resp := Response(200, Success);
  }
}
