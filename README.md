# Nexus Connect: a verified model of the room-moderation engine

Nexus Connect is a moderated chat system. A super admin creates a room, which gets a
six-character code of upper-case letters and digits. Users ask to join the room and wait for
approval. Approved users chat. Every message starts out `pending`. A moderator ("admin")
approves a message, and only approved messages reach the room's broadcast screen. A message
can also be deleted for good.

The server side exists twice, and the two versions behave differently:

- a Node/Express/Socket.IO server (`server/src/socket/socketHandler.js`,
  `server/src/routes/roomRoutes.js`, `server/src/routes/messageRoutes.js`);
- a Java/Spring/netty-socketio server (`SocketService`, `RoomController`,
  `MessageController`).

Both servers are modelled, side by side and never merged, as methods over one in-memory store
(`Store.Store`):

- rooms and users are maps from ids to records;
- messages are a sequence in creation order, so "sorted by `createdAt`" is "filtered in order";
- each connection's Socket.IO rooms (called "channels" here: the bare code, `room_CODE` and
  `broadcast_CODE`) form a map;
- every emitted event is appended to a log.

Every handler keeps the store well formed:

- ids are fresh;
- message ids are unique;
- room codes are unique six-character codes.

Every handler also keeps the store linked: no user or message points at a missing room.

On the client side, the three React pages are modelled:

- the moderator queue (`Admin.jsx`);
- the chat page with its idle, pending and approved machine (`ChatRoom.jsx`);
- the broadcast screen (`Broadcast.jsx`).

Their list handlers are pure functions from the previous list to the next one. The chat page's
join machine is a class whose methods update its state cells.

Files:

- `text.dfy`: JavaScript's and Java's `trim` (they strip different characters), upper-casing,
  and the room-code normalisation `trim().toUpperCase()`.
- `records.dfy`: records, events, responses, channels, and the repository queries as functions
  on the store's values.
- `store.dfy`: the store class, its reads and writes, and the code retry loop and channel joins
  shared by both servers.
- `node_socket.dfy`, `node_room_routes.dfy`, `node_message_routes.dfy`: the Node server.
- `java_socket_service.dfy`, `java_room_controller.dfy`, `java_message_controller.dfy`: the
  Java server.
- `client_lists.dfy`, `client_admin.dfy`, `client_chat.dfy`, `client_broadcast.dfy`: the browser
  pages.

Where the two servers differ, the model follows each one's own code:

- kick: Node keeps the user and clears its presence; Java deletes the user and all its messages;
- elevated roles: Java checks an access key on `join_room`; Node does not;
- approval: Node pushes to the broadcast channel only; Java also pushes twice to the room channel;
- HTTP join: Node matches the code exactly; Java trims and upper-cases it;
- "all-users": Node lists every user of the room; Java lists only approved ones.

## Model

Source paths are relative to the repository root.

| member | source | states |
|---|---|---|
| Text.Trim | server/src/socket/socketHandler.js:16 | the trimmed string is empty exactly when the input is blank in that dialect, and otherwise starts and ends with a non-whitespace character |
| Text.TrimSplits | server/src/socket/socketHandler.js:16 | the input is a blank prefix, then the trimmed string, then a blank suffix |
| Text.TrimPadded | server/src/socket/socketHandler.js:16 | conversely, padding a word with non-blank ends by blanks and trimming gives the word back |
| Text.TrimIdempotent | client/src/pages/ChatRoom.jsx:287 | trimming twice is trimming once |
| Text.UpperCharKeepsSpace | server/src/socket/socketHandler.js:16 | upper-casing a character never makes or unmakes whitespace |
| Text.Upper | server/src/socket/socketHandler.js:16 | same length; no lower-case ASCII letter is left; every other character is kept |
| Text.UpperIdempotent | backend-java/src/main/java/com/example/awscloudconnect/service/SocketService.java:90 | upper-casing twice is upper-casing once |
| Text.Normalize | server/src/socket/socketHandler.js:16 | the normalised code is empty exactly when the input is blank |
| Text.UpperKeepsEnds | server/src/socket/socketHandler.js:16 | upper-casing a trimmed string leaves it trimmed |
| Text.NormalizeIdempotent | client/src/pages/Admin.jsx:95 | a code the client normalised is left unchanged when the server normalises it again |
| Records.AlphabetIsCodeChars | server/src/routes/roomRoutes.js:8 | the generators' alphabet has 36 characters and is exactly [A-Z0-9] |
| Records.RoomCodeIsNormal | server/src/routes/roomRoutes.js:7-14 | a generated code is its own trim and upper-case in either dialect |
| Records.CodeCharIsPlain | server/src/routes/roomRoutes.js:8 | a code character is neither whitespace nor a lower-case letter |
| Records.ChannelNamesDistinct | server/src/socket/socketHandler.js:24-25 | with upper-case codes, two channels have the same Socket.IO name exactly when they are the same channel |
| Records.JoinedChannels | server/src/socket/socketHandler.js:24-58 | a join puts the connection in the code and room channels, and in the broadcast channel exactly when the role is broadcast |
| Records.Filter | backend-java/src/main/java/com/example/awscloudconnect/repository/MessageRepository.java:10 | the result holds exactly the elements that pass, and is no longer than the input |
| Records.FilterIsSubseq | backend-java/src/main/java/com/example/awscloudconnect/repository/MessageRepository.java:10 | the filter keeps the elements in order |
| Records.FilterAppend | backend-java/src/main/java/com/example/awscloudconnect/repository/MessageRepository.java:10 | filtering distributes over concatenation |
| Records.FilterCommute | backend-java/src/main/java/com/example/awscloudconnect/repository/MessageRepository.java:10 | two filters commute |
| Records.FilterKeepsKeysDistinct | backend-java/src/main/java/com/example/awscloudconnect/repository/MessageRepository.java:10 | filtering keeps keys distinct |
| Records.RoomMessages | backend-java/src/main/java/com/example/awscloudconnect/repository/MessageRepository.java:8-10 | a room snapshot holds exactly the stored messages of that room, with the requested status |
| Records.RoomMessagesInOrder | server/src/socket/socketHandler.js:37-39 | a room snapshot is in creation order |
| Records.RoomMessagesAfterAppend | server/src/socket/socketHandler.js:96-101 | a new message is last in every snapshot it belongs to, and the snapshot is otherwise unchanged |
| Records.RoomMessagesAfterDelete | server/src/routes/messageRoutes.js:24 | a deleted message leaves every snapshot, and the rest of each snapshot stays in order |
| Records.Approve | server/src/socket/socketHandler.js:123-125 | only the message with that id becomes approved, in place; every other message and every other field is kept |
| Records.ApproveLeavesPendingQueue | server/src/socket/socketHandler.js:123-125 | after approval the pending snapshot is the old one without that id, in order |
| Records.ApproveJoinsFeed | server/src/socket/socketHandler.js:123-125 | after approval the message is in the approved snapshot, and so is everything that was already there |
| Records.ApproveNeverUnapproves | server/src/socket/socketHandler.js:123-125 | approving never turns an approved message back to pending |
| Records.FilterNeverUnapproves | server/src/socket/socketHandler.js:213-214 | deleting messages never turns an approved message back to pending |
| Records.AppendNeverUnapproves | server/src/socket/socketHandler.js:96-101 | creating a message under a fresh id never turns an approved message back to pending |
| Records.Lookup | server/src/routes/messageRoutes.js:14-15 | `findById` returns a stored message with that id, or none exactly when no stored message has it |
| Records.LookupFirst | server/src/routes/messageRoutes.js:14-15 | the lookup returns the first message carrying the id |
| Records.ApproveAbsent | server/src/socket/socketHandler.js:123-127 | approving an unknown id changes nothing |
| Records.ApproveTwice | server/src/socket/socketHandler.js:123-135 | approving again leaves the messages as the first approval left them |
| Records.LookupAfterApprove | server/src/socket/socketHandler.js:123-125 | with unique ids, the approved record replaces the found one |
| Records.UsersPartition | backend-java/src/main/java/com/example/awscloudconnect/repository/UserRepository.java:11-15 | a room's users are its pending users plus its approved users, which are disjoint, and the live roster is exactly the online approved users |
| Records.OfflineLeavesRoster | backend-java/src/main/java/com/example/awscloudconnect/service/SocketService.java:74-77 | a user who goes offline leaves the live roster, and the rest of the roster is unchanged |
| Records.MarkOnline | server/src/socket/socketHandler.js:28-33 | only the joining user, when the id resolves, becomes online with this connection; every other user is unchanged |
| Records.Views | backend-java/src/main/java/com/example/awscloudconnect/service/SocketService.java:396-408 | every message is kept, in order, and gets its sender exactly when the sender id resolves |
| Records.ViewsSnoc | backend-java/src/main/java/com/example/awscloudconnect/service/SocketService.java:398-407 | attaching the sender of one more message extends the views by that message's view |
| Store.CodeOwner | backend-java/src/main/java/com/example/awscloudconnect/repository/RoomRepository.java:8 | the room found holds exactly that code, and none is found exactly when no room holds it |
| Store.OwnerIsUnique | server/src/models/Room.js:4-8 | with unique codes, a code lookup lands on the one room holding it |
| Store.FreshCodeKeepsCodesDistinct | server/src/routes/roomRoutes.js:28-36 | committing a room under a free code keeps codes unique, and the code then finds that room |
| Store.PickFreeCode | server/src/routes/roomRoutes.js:28-31 | the retry loop stops at the first draw no room holds |
| Store.JoinChannels | server/src/socket/socketHandler.js:24-58 | a join adds exactly the role's channels to the connection; nothing else changes |
| Store.Store.constructor | server/src/config/db.js:1-28 | the store starts empty, well formed and linked |
| Store.Store.FindRoomByCode | server/src/socket/socketHandler.js:17 | the exact-match code lookup |
| Store.Store.FindMessage | server/src/routes/messageRoutes.js:14-15 | a scan in creation order finds what `Lookup` specifies |
| Store.Store.FindUser | backend-java/src/main/java/com/example/awscloudconnect/service/SocketService.java:196 | the user stored under the id, or none when it does not resolve |
| Store.Store.AddRoom | server/src/routes/roomRoutes.js:33-36 | the room is stored under a fresh id; the store stays well formed and linked |
| Store.Store.AddUser | server/src/routes/roomRoutes.js:66-70 | the user is stored under a fresh id; nothing else changes |
| Store.Store.SaveUser | server/src/socket/socketHandler.js:187-189 | only that user's record is replaced |
| Store.Store.RemoveUser | backend-java/src/main/java/com/example/awscloudconnect/service/SocketService.java:289 | only that user is removed |
| Store.Store.AddMessage | server/src/socket/socketHandler.js:96-101 | the message gets a fresh id and is last in creation order; no approved message goes back to pending |
| Store.Store.ApproveMessage | server/src/socket/socketHandler.js:123-125 | the message with that id is approved in place; an unknown id changes nothing |
| Store.Store.RemoveMessages | server/src/routes/messageRoutes.js:24 | exactly the messages that pass are kept, in order |
| Store.Store.DeleteRoom | server/src/socket/socketHandler.js:210-214 | the room, its users and its messages go; every other record is kept, and the store stays linked |
| Store.Store.Join | server/src/socket/socketHandler.js:24-25 | the channels are added to the connection's set |
| Store.Store.Leave | backend-java/src/main/java/com/example/awscloudconnect/service/SocketService.java:359-361 | the channels are removed from the connection's set |
| Store.Store.Drop | server/src/socket/socketHandler.js:232 | a closed connection leaves every channel |
| Store.Store.Emit | server/src/socket/socketHandler.js:20 | events are appended, in order, to everything sent so far |
| Store.FilterKeepsMessages | server/src/routes/messageRoutes.js:24 | deleting messages keeps ids unique, fresh and linked |
| Store.CascadeKeeps | server/src/socket/socketHandler.js:210-214 | the cascading room delete leaves no user or message pointing at the deleted room and keeps the store well formed |
| Store.ApproveKeepsMessages | server/src/socket/socketHandler.js:123-125 | approval keeps ids unique, fresh and linked |
| Store.AppendKeepsMessages | server/src/socket/socketHandler.js:96-101 | a new message under the next id keeps ids unique and fresh |
| NodeSocket.JoinSnapshot | server/src/socket/socketHandler.js:35-79 | a user, admin or broadcast viewer gets one list on its own connection; a superadmin's roster goes to the room channel; any other role gets nothing |
| NodeSocket.SnapshotContents | server/src/socket/socketHandler.js:44-68 | a status snapshot lists exactly the room's messages with that status |
| NodeSocket.JoinSnapshotContents | server/src/socket/socketHandler.js:44-68 | an admin gets exactly the pending messages and a broadcast viewer exactly the approved ones, each on its own connection |
| NodeSocket.JoinRoom | server/src/socket/socketHandler.js:12-83 | a missing code does nothing; an unknown normalised code sends only `room_not_found` and changes no membership or presence; otherwise the join goes ahead |
| NodeSocket.EnterRoom | server/src/socket/socketHandler.js:24-79 | the role's channels are joined, the joiner is marked online on this connection, and the role's snapshot is sent |
| NodeSocket.SendMessage | server/src/socket/socketHandler.js:88-116 | blank content, a missing code or an unknown room changes nothing; otherwise one pending message with trimmed content is appended, and `receive_message` then `new_pending_message` go to the room channel |
| NodeSocket.ApproveMessage | server/src/socket/socketHandler.js:121-140 | the message is approved in place and pushed to the broadcast channel only; an unknown id changes nothing |
| NodeSocket.ApproveUser | server/src/socket/socketHandler.js:145-171 | only that user's status becomes approved; the user's connection, when it has one, and the named room channel, when a code is given, get `user_approved` |
| NodeSocket.KickUser | server/src/socket/socketHandler.js:176-196 | the user is kept with its status and room but goes offline with no connection; only its previous connection is told |
| NodeSocket.DeleteRoom | server/src/socket/socketHandler.js:201-227 | the room, its users and its messages go; every other user record is kept unchanged and the other messages stay in order; `room_deleted` goes to the room channel; a missing or unknown code changes nothing |
| NodeSocket.Disconnect | server/src/socket/socketHandler.js:232-245 | only a user holding this connection goes offline; the connection leaves every channel |
| NodeRoomRoutes.GenerateRoomCode | server/src/routes/roomRoutes.js:7-14 | the code has six characters from [A-Z0-9] |
| NodeRoomRoutes.Create | server/src/routes/roomRoutes.js:16-46 | a falsy name gives 400 and no room; otherwise the room is created under the first free draw, and codes stay unique |
| NodeRoomRoutes.Join | server/src/routes/roomRoutes.js:48-81 | a missing field gives 400, an unknown exact code 404 and a blank username 500, none creating a user; otherwise exactly one pending user of that room, with the trimmed name, is created |
| NodeRoomRoutes.PendingUsers | server/src/routes/roomRoutes.js:83-103 | exactly the room's pending users, or 404 |
| NodeRoomRoutes.ApproveUser | server/src/routes/roomRoutes.js:105-131 | 404 for an unknown id; otherwise only that user becomes approved and `user_approved` goes to everybody |
| NodeRoomRoutes.AllUsers | server/src/routes/roomRoutes.js:134-153 | every user of the room, whatever the status, or 404 |
| NodeMessageRoutes.DeleteMessage | server/src/routes/messageRoutes.js:10-40 | an unknown id gives 404 and a message whose room is gone 500, both changing nothing; otherwise only that message is deleted and the three deletion notices go to the code and broadcast channels |
| JavaSocketService.AuthFailure | backend-java/src/main/java/com/example/awscloudconnect/service/SocketService.java:105-120 | each elevated role passes exactly with its own key; user and unknown roles need none |
| JavaSocketService.KeysAreRoleSpecific | backend-java/src/main/java/com/example/awscloudconnect/service/SocketService.java:105-120 | a key opens at most one elevated role |
| JavaSocketService.LiveUsersEvent | backend-java/src/main/java/com/example/awscloudconnect/service/SocketService.java:88-91 | the roster lists exactly the room's approved, online users and goes to the upper-cased room channel |
| JavaSocketService.JoinRosterTarget | backend-java/src/main/java/com/example/awscloudconnect/service/SocketService.java:174 | on a join, the roster goes to the channel the joiner just entered |
| JavaSocketService.ApprovedNotice | backend-java/src/main/java/com/example/awscloudconnect/service/SocketService.java:144-146 | an already approved joiner, and only such a joiner, is told on its own connection |
| JavaSocketService.RoleEvents | backend-java/src/main/java/com/example/awscloudconnect/service/SocketService.java:150-171 | the snapshot each role gets: all messages, pending only or approved only; the superadmin's roster; nothing for other roles |
| JavaSocketService.PopulateMessages | backend-java/src/main/java/com/example/awscloudconnect/service/SocketService.java:396-408 | the loop attaches senders exactly as `Views` specifies |
| JavaSocketService.OnJoinRoom | backend-java/src/main/java/com/example/awscloudconnect/service/SocketService.java:93-177 | a null code does nothing; a wrong key sends only `auth_failed`, before any lookup, join or presence change; an unknown code sends only `room_not_found`; otherwise the join goes ahead |
| JavaSocketService.EnterRoom | backend-java/src/main/java/com/example/awscloudconnect/service/SocketService.java:130-174 | channels joined, joiner marked online, approval notice, the role's events, then the live roster |
| JavaSocketService.MarkJoinerOnline | backend-java/src/main/java/com/example/awscloudconnect/service/SocketService.java:136-148 | the joiner, when its id resolves, is online on this connection and told when already approved |
| JavaSocketService.SendRoleEvents | backend-java/src/main/java/com/example/awscloudconnect/service/SocketService.java:150-171 | sends exactly `RoleEvents` |
| JavaSocketService.OnSendMessage | backend-java/src/main/java/com/example/awscloudconnect/service/SocketService.java:179-225 | blank content, an unknown room or an unknown sender stores nothing; otherwise one pending message with trimmed content and the sender's name, pushed twice to the room channel |
| JavaSocketService.ApprovalEvents | backend-java/src/main/java/com/example/awscloudconnect/service/SocketService.java:236-243 | the broadcast feed push, then `receive_message` and `message_approved` to the room channel |
| JavaSocketService.OnApproveMessage | backend-java/src/main/java/com/example/awscloudconnect/service/SocketService.java:227-248 | the message is approved in place; the pushes follow only when its room exists and it names a sender |
| JavaSocketService.ApproveUser | backend-java/src/main/java/com/example/awscloudconnect/service/SocketService.java:259-270 | only that user becomes approved; with a code, `user_approved` and `refresh_user_lists` go to the room channel |
| JavaSocketService.KickUser | backend-java/src/main/java/com/example/awscloudconnect/service/SocketService.java:281-309 | the user and every message it sent are deleted, and the room channel gets `user_kicked`, a refresh and the roster; an unknown user changes nothing |
| JavaSocketService.DeleteRoom | backend-java/src/main/java/com/example/awscloudconnect/service/SocketService.java:319-331 | the room, its users and its messages go; every other user record is kept unchanged and the other messages stay in order; `room_deleted` goes to the room channel; a null or unknown code changes nothing |
| JavaSocketService.OnLeaveRoom | backend-java/src/main/java/com/example/awscloudconnect/service/SocketService.java:333-365 | the user record is deleted; with a code, the three channels are left and the room channel refreshed; the roster follows when the user and its room existed |
| JavaSocketService.LeaveNotices | backend-java/src/main/java/com/example/awscloudconnect/service/SocketService.java:349-354 | the roster and refresh go out exactly when the leaving user existed and its room does |
| JavaSocketService.FindBySocketId | backend-java/src/main/java/com/example/awscloudconnect/repository/UserRepository.java:9 | finds the connection's only holder, or none |
| JavaSocketService.OnDisconnected | backend-java/src/main/java/com/example/awscloudconnect/service/SocketService.java:71-86 | the connection's holder goes offline with no connection and the roster follows; with no holder nothing changes; the connection leaves every channel |
| JavaSocketService.BroadcastMessageDeleted | backend-java/src/main/java/com/example/awscloudconnect/service/SocketService.java:368-374 | with a code, `message_deleted` goes to the room channel and the broadcast channel |
| JavaSocketService.OnGetPendingMessages | backend-java/src/main/java/com/example/awscloudconnect/service/SocketService.java:380-394 | the asker gets the room's pending queue with senders attached, and nothing else changes |
| JavaRoomController.GenerateRoomCode | backend-java/src/main/java/com/example/awscloudconnect/controller/RoomController.java:156-165 | the code has six characters from [A-Z0-9] |
| JavaRoomController.CreateRoom | backend-java/src/main/java/com/example/awscloudconnect/controller/RoomController.java:34-68 | 400 for a missing name before the key check; 401 for a wrong trimmed key; otherwise a room under the first free draw |
| JavaRoomController.JoinRoom | backend-java/src/main/java/com/example/awscloudconnect/controller/RoomController.java:71-101 | 400 on a null field and 404 on an unknown normalised code, neither creating a user; otherwise one pending user with role `user` |
| JavaRoomController.GetPendingUsers | backend-java/src/main/java/com/example/awscloudconnect/controller/RoomController.java:104-115 | exactly the room's pending users, or 404 |
| JavaRoomController.GetAllUsers | backend-java/src/main/java/com/example/awscloudconnect/controller/RoomController.java:118-128 | exactly the room's approved users, or 404 |
| JavaRoomController.RoomCodeOf | backend-java/src/main/java/com/example/awscloudconnect/controller/RoomController.java:136-137 | the user's room code, or none exactly when the room is gone |
| JavaRoomController.ApproveUser | backend-java/src/main/java/com/example/awscloudconnect/controller/RoomController.java:131-142 | 404 for an unknown id; otherwise only that user becomes approved, the reply carries the record as read, and the room channel is told when the room exists |
| JavaRoomController.KickUser | backend-java/src/main/java/com/example/awscloudconnect/controller/RoomController.java:145-154 | 404 for an unknown id; otherwise the user and every message it sent are deleted, the other messages stay in creation order, and the room channel is told |
| JavaMessageController.GetApprovedMessages | backend-java/src/main/java/com/example/awscloudconnect/controller/MessageController.java:36-50 | 404 for an unknown normalised code; otherwise exactly the room's approved messages, in creation order, with senders attached when they resolve |
| JavaMessageController.DeleteMessage | backend-java/src/main/java/com/example/awscloudconnect/controller/MessageController.java:53-65 | 404 and nothing deleted for an unknown id; otherwise only that message goes, and the notice follows only when its room exists |
| ClientLists.Load | client/src/pages/Admin.jsx:56-58 | the snapshot fallback to an empty list: a list snapshot becomes the list as it arrived, and a missing one gives the empty list (likewise Broadcast.jsx:52) |
| ClientLists.AppendUnseen | client/src/pages/Admin.jsx:61-67 | a listed id leaves the list alone; otherwise the message is appended at the end; earlier entries are kept in order |
| ClientLists.AppendUnseenKeepsUnique | client/src/pages/Admin.jsx:61-67 | appending never creates a duplicate id |
| ClientLists.AppendUnseenIdempotent | client/src/pages/ChatRoom.jsx:248-254 | receiving the same message twice changes nothing the second time |
| ClientLists.RemoveId | client/src/pages/Admin.jsx:69-73 | no entry with the id is left, every other entry is kept, in order |
| ClientLists.RemoveIdKeepsUnique | client/src/pages/Admin.jsx:69-73 | removing never creates a duplicate id |
| ClientLists.SnapshotIsUnique | backend-java/src/main/java/com/example/awscloudconnect/service/SocketService.java:157-160 | a server snapshot never repeats an id |
| ClientLists.AppendUnseenOn | client/src/pages/Admin.jsx:61-67 | the find-or-append as the page evaluates it on a server's wire form: the list is kept exactly when some entry's `_id` compares equal, otherwise the message is appended |
| ClientLists.RemoveIdOn | client/src/pages/Admin.jsx:68-72 | the deletion filter as the page evaluates it on a server's wire form: exactly the entries whose `_id` is not the id are kept, in order |
| ClientLists.NodeWireMatchesById | client/src/pages/ChatRoom.jsx:248-254 | on the Node wire form the pages' `_id` comparisons are exactly the id-keyed append and removal |
| ClientLists.JavaWireDropsNewMessages | backend-java/src/main/java/com/example/awscloudconnect/model/Message.java:13-14 | on the Java wire form a non-empty list never takes a new message, even one whose id is not listed |
| ClientLists.JavaWireRemovesNothing | backend-java/src/main/java/com/example/awscloudconnect/model/Message.java:13-14 | on the Java wire form the deletion filter keeps every entry, so a deleted message stays listed |
| ClientLists.FilterAgree | client/src/pages/Admin.jsx:69-73 | two tests that agree on every entry filter a list alike |
| ClientLists.FilterKeepsAll | client/src/pages/Admin.jsx:69-73 | a filter every entry passes keeps the whole list |
| ClientAdmin.HandleLoad | client/src/pages/Admin.jsx:57-59 | the queue becomes the snapshot, or empty when none arrives; nothing else changes |
| ClientAdmin.HandleNew | client/src/pages/Admin.jsx:61-67 | the message is queued once, at the end |
| ClientAdmin.HandleDelete | client/src/pages/Admin.jsx:69-73 | the id leaves the queue and the rest stays in order |
| ClientAdmin.OnEvent | client/src/pages/Admin.jsx:54-84 | a snapshot replaces the queue (empty when missing); a new message whose id is already queued leaves the page unchanged, otherwise exactly that message is appended; a deletion keeps exactly the entries with another id, in order; every other event and every other cell is left alone |
| ClientAdmin.OnEventKeepsUnique | client/src/pages/Admin.jsx:75-77 | the queue never holds an id twice |
| ClientAdmin.LoadShowsPendingQueue | client/src/pages/Admin.jsx:57-59 | a join snapshot shows exactly the room's pending messages, one entry per message in creation order, without duplicates |
| ClientAdmin.ConnectRoom | client/src/pages/Admin.jsx:86-99 | a blank code or no socket does nothing; otherwise connected, error cleared, and the normalised code saved |
| ClientAdmin.SavedCodeIsNormal | client/src/pages/Admin.jsx:92-98 | the saved code is non-empty and already normal |
| ClientAdmin.JoinEffect | client/src/pages/Admin.jsx:44-51 | `join_room` as admin exactly when there is a socket, the page is connected and the code is non-empty |
| ClientAdmin.ApproveMessage | client/src/pages/Admin.jsx:101-109 | with a socket, `approve_message` is sent and the id leaves the queue; without one nothing happens |
| ClientAdmin.Logout | client/src/pages/Admin.jsx:128-139 | once confirmed, disconnected with no code, no queue and no saved session |
| ClientChat.ChatSession.constructor | client/src/pages/ChatRoom.jsx:9-14 | the page starts idle, with empty fields |
| ClientChat.ChatSession.JoinRoom | client/src/pages/ChatRoom.jsx:94-139 | blank fields set an error and send nothing; otherwise the trimmed name and normalised code are posted; success waits as pending under the new id, saves the session and joins as a user; failure shows the server's message or the fallback text |
| ClientChat.ChatSession.OnUserApproved | client/src/pages/ChatRoom.jsx:62-77 | status becomes approved, also in the saved session, only when the id is the page's own |
| ClientChat.ChatSession.OnRoomNotFound | client/src/pages/ChatRoom.jsx:79-84 | back to idle with no user id, no saved session and an error |
| ClientChat.ChatSession.ClearSession | client/src/pages/ChatRoom.jsx:141-148 | back to an empty idle page |
| ClientChat.ChatJoinEffect | client/src/pages/ChatRoom.jsx:235-239 | with a socket, the chat view joins as a user |
| ClientChat.LoadMessages | client/src/pages/ChatRoom.jsx:242-245 | a snapshot replaces the list; a missing one leaves it as it was, since reading its length throws |
| ClientChat.OnEvent | client/src/pages/ChatRoom.jsx:241-254 | a list snapshot replaces the list and a missing one keeps it; a received message whose id is already listed leaves the list unchanged, otherwise exactly that message is appended; every other event, deletions included, leaves the list alone |
| ClientChat.OnEventKeepsUnique | client/src/pages/ChatRoom.jsx:242-254 | the chat list never holds an id twice |
| ClientChat.DeletionIsIgnored | client/src/pages/ChatRoom.jsx:241-273 | as written, a deleted message stays listed |
| ClientChat.OnEventCorrected | client/src/pages/ChatRoom.jsx:241-273 | with a deletion handler, the id leaves the list and the rest stays in order |
| ClientChat.OnEventCorrectedKeepsUnique | client/src/pages/ChatRoom.jsx:241-273 | the corrected list still never holds an id twice |
| ClientChat.SendMessage | client/src/pages/ChatRoom.jsx:280-292 | blank input, no socket or a send in progress does nothing; otherwise the trimmed text is sent and the input cleared |
| ClientChat.SentContentIsStoredAsSent | client/src/pages/ChatRoom.jsx:281-287 | what is sent is non-blank and already trimmed |
| ClientBroadcast.JoinBroadcast | client/src/pages/Broadcast.jsx:109-125 | a blank code sets the error and stays unjoined; otherwise the normalised code is saved and joined |
| ClientBroadcast.JoinEffect | client/src/pages/Broadcast.jsx:79-86 | `join_room` as broadcast exactly when joined with a code and a socket |
| ClientBroadcast.JoinSendsNormalCode | client/src/pages/Broadcast.jsx:116-124 | after joining, the page asks for the room with a code the server leaves unchanged |
| ClientBroadcast.Leave | client/src/pages/Broadcast.jsx:127-132 | not joined, no code, no messages and no saved session; the error is kept |
| ClientBroadcast.OnEvent | client/src/pages/Broadcast.jsx:50-76 | a snapshot replaces the feed (empty when missing); a broadcast message whose id is already listed leaves the page unchanged, otherwise exactly that message is appended to the feed; `room_deleted` leaves the room (not joined, no messages, no saved session); every other event, deletions included, leaves the page alone |
| ClientBroadcast.DeletionIsIgnored | client/src/pages/Broadcast.jsx:50-69 | as written, a deleted message stays on the screen |
| ClientBroadcast.OnEventCorrected | client/src/pages/Broadcast.jsx:50-69 | with a deletion handler, the id leaves the feed and nothing else changes |
| ClientBroadcast.OnEventCorrectedKeepsUnique | client/src/pages/Broadcast.jsx:50-61 | the feed, as written and corrected, never holds an id twice |

## Left out

- Persistence: MongoDB, Mongoose and Spring Data are left out. The store holds values in memory. The queries follow the repository method names.
- Ids: one counter stands for ObjectIds and JPA ids. A malformed id string, which throws a cast error in Mongoose, is not modelled.
- The Socket.IO transport is left out: delivery, fan-out and reconnection. An emit is an entry appended to the event log, and a channel is an entry in a membership set.
- Randomness: the character pick of both code generators is an arbitrary index in [0, 36). The retry loop takes the generator's draws as a parameter, with at least one draw free. A store in which every code is taken would make the source loop for ever; that case is not modelled.
- Timestamps are left out: `createdAt` order is the order of the message sequence.
- Case mapping covers ASCII letters only, and Unicode case rules are not modelled. The generated codes are ASCII.
- The client pages are modelled on the Node wire form, where every record carries `_id`: the list reducers compare real message ids, and the chat page's user id is the created user's id. On the Java wire form the ids arrive as `id`, so `_id` is undefined; the list consequences are stated by `ClientLists.JavaWireDropsNewMessages` and `ClientLists.JavaWireRemovesNothing` (see Findings). The chat page's consequence, that `String(undefined)` never equals an approved user's id so `user_approved` never moves the page on, is not modelled.
- Projection is not modelled: `.select(...)` and `.populate("sender", "username")` attach the whole sender record. Neither are Java's separate `sender` field and its JSON form.
- Each handler runs atomically. Concurrency and interleaved `await`s are left out, including a cascade delete racing a `send_message`.
- Logging is left out, as are `onConnected`, `GlobalExceptionHandler` and the server entry points.
- Node handler failures are a log line: a thrown error inside a handler only logs. The model keeps the writes made before the throw and emits nothing after it.
- JavaSocketService.KickUser: the `roomCode` fallback for a user whose room id is null is not modelled. Every stored user belongs to a room.
- JavaSocketService.OnLeaveRoom and JavaSocketService.OnDisconnected: a user whose room id is null is not modelled either. The `findById(null)` throw in those branches cannot arise.
- Client session restore, `alert`/`confirm` dialogs, styling, scrolling and the `loading` flag are not modelled. `ClientAdmin.Logout` takes the confirmation as a parameter.
- The chat page's `kicked_from_room` and `room_deleted` handlers only call `clearSession`, which `ClearSession` models. The kick notice text goes to an `alert`.
- The broadcast page's three-second re-join poll is not modelled. It repeats the join effect's `join_room`, and each reply replaces the feed with a fresh snapshot.
- The admin page's `deleteMessage` (an HTTP DELETE after a confirmation dialog) is not modelled. Its only effect on the page is an error text on failure. The queue changes only through the `message_deleted` event, which `ClientAdmin.HandleDelete` models.
- The room-code input's upper-casing on every keystroke is not modelled. The join handlers normalise the code again anyway.

## Findings

| source | as written | input that shows it | evidently intended | confidence | as-written member | corrected member |
|---|---|---|---|---|---|---|
| client/src/pages/Broadcast.jsx:50-69 | the broadcast screen listens to no deletion notice, although the Node server sends `remove_broadcast_message` and the Java server sends `message_deleted` to `broadcast_CODE` on every delete | a viewer lists message 7; the message is deleted; `remove_broadcast_message` with id 7 arrives and 7 stays listed (until the next poll's snapshot, up to three seconds later) | the deletion notice removes the message from the feed | medium, not executed | ClientBroadcast.DeletionIsIgnored | ClientBroadcast.OnEventCorrected |
| client/src/pages/ChatRoom.jsx:241-273 | the chat view listens to no deletion notice, although the Node server sends `remove_message` and `message_deleted` to the bare-code channel and the Java server sends `message_deleted` to `room_CODE`, channels chat users have joined | a chat user lists message 7; the message is deleted; `remove_message` with id 7 arrives and 7 stays listed until the next fresh snapshot, which comes only when the page reloads or re-renders and so re-runs its join effect | the deletion notice removes the message from the chat | medium, not executed | ClientChat.DeletionIsIgnored | ClientChat.OnEventCorrected |
| backend-java/src/main/java/com/example/awscloudconnect/model/Message.java:13-14 | the Java records are sent through Jackson as they are, so their id field is `id` (Message.java:13-14, User.java:19-20; no rename in SocketIOConfig.java:27-29), while every page compares `_id` (Admin.jsx:63 and 71, ChatRoom.jsx:251, Broadcast.jsx:57); the Java SocketService emits the very events the pages listen for (SocketService.java:166, 220-223), so either server can sit behind the pages' `VITE_SERVER_URL` | the moderator queue holds message 7; `new_pending_message` brings message 8; both `_id`s read as undefined, compare equal, and 8 is never queued; `message_deleted` with id 7 then removes nothing | the pages key on the id field the server actually sends (or the Java records are serialised with `_id`), so a new message is listed and a deleted one removed | medium, not executed | ClientLists.JavaWireDropsNewMessages | ClientLists.AppendUnseen |
