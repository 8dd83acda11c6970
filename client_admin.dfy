/** The moderator page (client/src/pages/Admin.jsx): the pending queue of one room, kept up to
    date by socket events, from which messages are approved. Each handler is a step from the
    page's state (and whether its socket exists) to the next state and what it sends. */
module ClientAdmin {
  import opened Text
  import opened Records
  import opened ClientLists

  /** The page's state cells; `saved` is the room code stored in the `adminSession` entry
      (with role "admin"), when there is one. */
  datatype AdminPage = AdminPage(
    roomCode: string,
    connected: bool,
    pending: seq<MessageView>,
    error: string,
    saved: Option<string>)

  /** `handleLoad`: the snapshot replaces the queue; a missing snapshot empties it. */
  function HandleLoad(p: AdminPage, snapshot: Option<seq<MessageView>>): (r: AdminPage)
    ensures r.pending == Load(snapshot)
    ensures r == p.(pending := r.pending)
  {
    p.(pending := Load(snapshot))
  }

  /** `handleNew`: a pending message is queued once, at the end. */
  function HandleNew(p: AdminPage, v: MessageView): (r: AdminPage)
    ensures Has(r.pending, IdOf(v))
    ensures Has(p.pending, IdOf(v)) ==> r == p
    ensures !Has(p.pending, IdOf(v)) ==> r == p.(pending := p.pending + [v])
  {
    p.(pending := AppendUnseen(p.pending, v))
  }

  /** `handleDelete`: every entry with that id leaves the queue; the rest stay in order. */
  function HandleDelete(p: AdminPage, id: MessageId): (r: AdminPage)
    ensures !Has(r.pending, id)
    ensures forall v :: v in r.pending <==> v in p.pending && IdOf(v) != id
    ensures IsSubseq(r.pending, p.pending)
    ensures r == p.(pending := r.pending)
  {
    p.(pending := RemoveId(p.pending, id))
  }

  /** The listeners: `load_pending_messages`, `new_pending_message` and `message_deleted`.
      Any other event leaves the page as it is. */
  function OnEvent(p: AdminPage, e: Event): (r: AdminPage)
    ensures r == p.(pending := r.pending)
    ensures e.name == "load_pending_messages" ==> r.pending == Load(SnapshotOf(e.payload))
    ensures e.name == "new_pending_message" && e.payload.One? ==>
      && Has(r.pending, IdOf(e.payload.view))
      && (Has(p.pending, IdOf(e.payload.view)) ==> r == p)
      && (!Has(p.pending, IdOf(e.payload.view)) ==> r.pending == p.pending + [e.payload.view])
    ensures e.name == "message_deleted" && e.payload.Ident? ==>
      && !Has(r.pending, e.payload.id) && IsSubseq(r.pending, p.pending)
      && (forall v :: v in r.pending <==> v in p.pending && IdOf(v) != e.payload.id)
      && r.pending == RemoveId(p.pending, e.payload.id)
    ensures e.name !in {"load_pending_messages", "new_pending_message", "message_deleted"} ==> r == p
  {
    if e.name == "load_pending_messages" then HandleLoad(p, SnapshotOf(e.payload))
    else if e.name == "new_pending_message" && e.payload.One? then HandleNew(p, e.payload.view)
    else if e.name == "message_deleted" && e.payload.Ident? then HandleDelete(p, e.payload.id)
    else p
  }

  /** The queue never holds two entries with the same id, as long as every snapshot it is
      sent has none (which holds for the servers' snapshots, see SnapshotIsUnique). */
  lemma OnEventKeepsUnique(p: AdminPage, e: Event)
    requires IdsUnique(p.pending)
    requires e.name == "load_pending_messages" && e.payload.Many? ==> IdsUnique(e.payload.views)
    ensures IdsUnique(OnEvent(p, e).pending)
  {
    if e.name == "load_pending_messages" {
    } else if e.name == "new_pending_message" && e.payload.One? {
      AppendUnseenKeepsUnique(p.pending, e.payload.view);
    } else if e.name == "message_deleted" && e.payload.Ident? {
      RemoveIdKeepsUnique(p.pending, e.payload.id);
    }
  }

  /** A snapshot from a server's `join_room` or `get_pending_messages` shows exactly the
      room's pending messages, in creation order, with no id twice. */
  lemma LoadShowsPendingQueue(p: AdminPage, users: map<UserId, User>, ms: seq<Message>, r: RoomId)
    requires IdsDistinct(ms)
    ensures var q := HandleLoad(p, Some(Views(users, RoomMessages(ms, r, Some(Pending))))).pending;
      && IdsUnique(q)
      && |q| == |RoomMessages(ms, r, Some(Pending))|
      && (forall i :: 0 <= i < |q| ==> q[i].msg == RoomMessages(ms, r, Some(Pending))[i])
      && IsSubseq(RoomMessages(ms, r, Some(Pending)), ms)
      && (forall i :: 0 <= i < |q| ==> q[i].msg in ms && q[i].msg.room == r && q[i].msg.status == Pending)
      && (forall m :: m in ms && m.room == r && m.status == Pending ==> exists i :: 0 <= i < |q| && q[i].msg == m)
  {
    SnapshotIsUnique(users, ms, r, Some(Pending));
    RoomMessagesInOrder(ms, r, Some(Pending));
    var sel := RoomMessages(ms, r, Some(Pending));
    var q := Views(users, sel);
    forall i | 0 <= i < |q| ensures q[i].msg in sel {
      assert q[i].msg == sel[i];
    }
    forall m | m in ms && m.room == r && m.status == Pending ensures exists i :: 0 <= i < |q| && q[i].msg == m {
      var i :| 0 <= i < |sel| && sel[i] == m;
      assert q[i].msg == m;
    }
  }

  /** `connectRoom`: a blank code (or no socket yet) does nothing; otherwise the page is
      connected, the error cleared, and the trimmed, upper-cased code saved as an admin
      session. The code cell itself keeps what was typed. */
  function ConnectRoom(p: AdminPage, socketReady: bool): (r: AdminPage)
    ensures IsBlank(Js, p.roomCode) || !socketReady ==> r == p
    ensures !IsBlank(Js, p.roomCode) && socketReady ==>
      && r.connected && r.error == "" && r.saved == Some(Normalize(Js, p.roomCode))
      && r.roomCode == p.roomCode && r.pending == p.pending
  {
    if Trim(Js, p.roomCode) == [] || !socketReady then p
    else p.(connected := true, error := "", saved := Some(Normalize(Js, p.roomCode)))
  }

  /** The saved code is already trimmed and upper case: normalising it again, as the Node
      server does on `join_room`, leaves it as it is. */
  lemma SavedCodeIsNormal(p: AdminPage, socketReady: bool)
    requires !IsBlank(Js, p.roomCode) && socketReady
    ensures ConnectRoom(p, socketReady).saved.Some?
    ensures var c := ConnectRoom(p, socketReady).saved.value;
      Normalize(Js, c) == c && c != []
  {
    NormalizeIdempotent(Js, p.roomCode);
  }

  /** The effect that joins the room: once connected with a code and a socket, the page
      sends `join_room` as an admin with the code cell as it stands. */
  function JoinEffect(p: AdminPage, socketReady: bool): (out: seq<Outgoing>)
    ensures |out| <= 1
    ensures out != [] <==> socketReady && p.connected && p.roomCode != ""
    ensures out != [] ==> out[0] == EmitJoinRoom(p.roomCode, AsAdmin, None)
  {
    if socketReady && p.connected && p.roomCode != "" then [EmitJoinRoom(p.roomCode, AsAdmin, None)] else []
  }

  /** `approveMessage`: with a socket, `approve_message` is sent and the message leaves the
      local queue at once; without one nothing happens. */
  function ApproveMessage(p: AdminPage, id: MessageId, socketReady: bool): (r: (AdminPage, seq<Outgoing>))
    ensures !socketReady ==> r == (p, [])
    ensures socketReady ==> r.1 == [EmitApproveMessage(id)] && r.0 == HandleDelete(p, id)
    ensures socketReady ==> !Has(r.0.pending, id)
  {
    if !socketReady then (p, []) else (HandleDelete(p, id), [EmitApproveMessage(id)])
  }

  /** `logout`: once confirmed, the saved session is removed and the page disconnected with
      an empty code and queue. */
  function Logout(p: AdminPage, confirmed: bool): (r: AdminPage)
    ensures !confirmed ==> r == p
    ensures confirmed ==> r.saved.None? && !r.connected && r.roomCode == "" && r.pending == [] && r.error == p.error
  {
    if !confirmed then p else p.(saved := None, connected := false, roomCode := "", pending := [])
  }
}
