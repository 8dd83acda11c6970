/** What the browser pages share: the messages they show (exactly what the servers send, a
    message with its sender attached), the list updates their socket listeners make, and the
    requests and socket events the pages send. Lists are matched by the message's `_id`. */
module ClientLists {
  import opened Text
  import opened Records

  /** A list entry's `_id`. */
  function IdOf(v: MessageView): MessageId
  {
    v.msg.id
  }

  /** `list.find(m => m._id === id)` finds something. */
  predicate Has(list: seq<MessageView>, id: MessageId)
  {
    exists i :: 0 <= i < |list| && list[i].msg.id == id
  }

  /** No two entries share an `_id`. */
  ghost predicate IdsUnique(list: seq<MessageView>)
  {
    KeysDistinct(list, IdOf)
  }

  /** What a page sends: the HTTP join request and the socket events it emits. */
  datatype Outgoing =
    | PostJoin(username: string, roomCode: string)
    | EmitJoinRoom(roomCode: string, role: JoinRole, userId: Option<UserId>)
    | EmitSendMessage(userId: Option<UserId>, roomCode: string, content: string)
    | EmitApproveMessage(messageId: MessageId)

  /** A snapshot event's payload as the page receives it; anything but a list arrives as
      `null`. */
  function SnapshotOf(p: Payload): Option<seq<MessageView>>
  {
    if p.Many? then Some(p.views) else None
  }

  /** `msgs || []`: a snapshot replaces the list; a missing one empties it. */
  function Load(snapshot: Option<seq<MessageView>>): (r: seq<MessageView>)
    ensures snapshot.Some? ==> r == snapshot.value
    ensures snapshot.None? ==> r == []
  {
    snapshot.GetOr([])
  }

  /** `prev.find(m => m._id === msg._id) ? prev : [...prev, msg]`: a message whose `_id` is
      already listed is dropped, any other is appended; the earlier entries stay as they
      were, in order. */
  function AppendUnseen(list: seq<MessageView>, v: MessageView): (r: seq<MessageView>)
    ensures Has(r, IdOf(v))
    ensures |list| <= |r| <= |list| + 1 && r[..|list|] == list
    ensures |r| == |list| + 1 <==> !Has(list, IdOf(v))
    ensures |r| == |list| + 1 ==> r[|list|] == v
  {
    if Has(list, v.msg.id) then list
    else
      var r := list + [v];
      assert r[|list|] == v;
      r
  }

  /** Appending keeps the list free of duplicate ids. */
  lemma AppendUnseenKeepsUnique(list: seq<MessageView>, v: MessageView)
    requires IdsUnique(list)
    ensures IdsUnique(AppendUnseen(list, v))
  {
    var r := AppendUnseen(list, v);
    if |r| == |list| + 1 {
      forall i, j | 0 <= i < j < |r| ensures IdOf(r[i]) != IdOf(r[j]) {
        if j == |list| {
          assert r[i] == list[i];
        } else {
          assert r[i] == list[i] && r[j] == list[j];
        }
      }
    }
  }

  /** Receiving the same message twice changes nothing the second time. */
  lemma AppendUnseenIdempotent(list: seq<MessageView>, v: MessageView)
    ensures AppendUnseen(AppendUnseen(list, v), v) == AppendUnseen(list, v)
  {
    var r := AppendUnseen(list, v);
    assert Has(r, IdOf(v));
  }

  /** `prev.filter(m => m._id !== id)`. */
  function NotListedAs(id: MessageId): MessageView -> bool
  {
    (v: MessageView) => v.msg.id != id
  }

  /** Removing an id leaves no entry with it, and every other entry, in order. */
  function RemoveId(list: seq<MessageView>, id: MessageId): (r: seq<MessageView>)
    ensures !Has(r, id)
    ensures forall v :: v in r <==> v in list && IdOf(v) != id
    ensures IsSubseq(r, list)
  {
    FilterIsSubseq(list, NotListedAs(id));
    var r := Filter(list, NotListedAs(id));
    assert forall i :: 0 <= i < |r| ==> r[i] in r;
    r
  }

  /** Removing keeps the list free of duplicate ids. */
  lemma RemoveIdKeepsUnique(list: seq<MessageView>, id: MessageId)
    requires IdsUnique(list)
    ensures IdsUnique(RemoveId(list, id))
  {
    FilterKeepsKeysDistinct(list, NotListedAs(id), IdOf);
  }

  /** A snapshot the servers send (a room's messages of one status, or all of them, with
      senders attached) never repeats an id, so the list it replaces starts out unique. */
  lemma SnapshotIsUnique(users: map<UserId, User>, ms: seq<Message>, r: RoomId, only: Option<Status>)
    requires IdsDistinct(ms)
    ensures IdsUnique(Views(users, RoomMessages(ms, r, only)))
  {
    var sel := RoomMessages(ms, r, only);
    FilterKeepsKeysDistinct(ms, InRoom(r, only), MessageKey);
    var vs := Views(users, sel);
    forall i, j | 0 <= i < j < |vs| ensures IdOf(vs[i]) != IdOf(vs[j]) {
      assert MessageKey(sel[i]) != MessageKey(sel[j]);
    }
  }

  // ---------------------------------------------------------------------------------------
  // The `_id` the pages compare, as each server's wire form delivers it

  /** Which server feeds the page. The Node server sends Mongoose documents, whose id field is
      `_id`. The Java server sends its records through Jackson as they are, so their id field
      is `id`, and `m._id` reads as `undefined` on every entry. */
  datatype Backend = NodeBackend | JavaBackend

  /** What `m._id` reads as: the message's id from the Node server, `undefined` (`None`) from
      the Java server. */
  function WireId(b: Backend, v: MessageView): Option<MessageId>
  {
    if b == NodeBackend then Some(v.msg.id) else None
  }

  /** `prev.find(m => m._id === msg._id) ? prev : [...prev, msg]` as the page evaluates it,
      comparing whatever `_id` reads as. */
  function AppendUnseenOn(b: Backend, list: seq<MessageView>, v: MessageView): (r: seq<MessageView>)
    ensures r == list || r == list + [v]
    ensures r == list <==> exists i :: 0 <= i < |list| && WireId(b, list[i]) == WireId(b, v)
  {
    if exists i :: 0 <= i < |list| && WireId(b, list[i]) == WireId(b, v) then list else list + [v]
  }

  /** `prev.filter(m => m._id !== id)` as the page evaluates it: exactly the entries whose
      `_id` does not compare equal to the id are kept, in order. */
  function RemoveIdOn(b: Backend, list: seq<MessageView>, id: MessageId): (r: seq<MessageView>)
    ensures forall v :: v in r <==> v in list && WireId(b, v) != Some(id)
    ensures IsSubseq(r, list)
  {
    FilterIsSubseq(list, (v: MessageView) => WireId(b, v) != Some(id));
    Filter(list, (v: MessageView) => WireId(b, v) != Some(id))
  }

  /** On the Node wire form the pages' comparisons are the id-keyed reducers. */
  lemma NodeWireMatchesById(list: seq<MessageView>, v: MessageView, id: MessageId)
    ensures AppendUnseenOn(NodeBackend, list, v) == AppendUnseen(list, v)
    ensures RemoveIdOn(NodeBackend, list, id) == RemoveId(list, id)
  {
    assert (exists i :: 0 <= i < |list| && WireId(NodeBackend, list[i]) == WireId(NodeBackend, v))
       <==> Has(list, IdOf(v));
    FilterAgree(list, (v: MessageView) => WireId(NodeBackend, v) != Some(id), NotListedAs(id));
  }

  /** On the Java wire form every entry's `_id` is `undefined`, so once the list holds one
      message every later one is taken for a repeat: a message not listed yet is never added. */
  lemma JavaWireDropsNewMessages(list: seq<MessageView>, v: MessageView)
    requires list != []
    ensures AppendUnseenOn(JavaBackend, list, v) == list
    ensures !Has(list, IdOf(v)) ==> !Has(AppendUnseenOn(JavaBackend, list, v), IdOf(v))
  {
    assert WireId(JavaBackend, list[0]) == WireId(JavaBackend, v);
  }

  /** On the Java wire form `undefined !== id` holds for every entry, so the deletion filter
      removes nothing: a listed message stays listed. */
  lemma JavaWireRemovesNothing(list: seq<MessageView>, id: MessageId)
    ensures RemoveIdOn(JavaBackend, list, id) == list
    ensures Has(list, id) ==> Has(RemoveIdOn(JavaBackend, list, id), id)
  {
    FilterKeepsAll(list, (v: MessageView) => WireId(JavaBackend, v) != Some(id));
  }

  /** Two tests that agree on every element filter a sequence alike. */
  lemma {:induction false} FilterAgree<T(!new)>(s: seq<T>, p: T -> bool, q: T -> bool)
    requires forall x :: x in s ==> p(x) == q(x)
    ensures Filter(s, p) == Filter(s, q)
    decreases |s|
  {
    if s != [] {
      FilterAgree(s[1..], p, q);
    }
  }

  /** A filter every element passes keeps the whole sequence. */
  lemma {:induction false} FilterKeepsAll<T(!new)>(s: seq<T>, p: T -> bool)
    requires forall x :: x in s ==> p(x)
    ensures Filter(s, p) == s
    decreases |s|
  {
    if s != [] {
      FilterKeepsAll(s[1..], p);
      assert s == [s[0]] + s[1..];
    }
  }
}
