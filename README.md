# ShrekChat in Dafny

A verified model of the messaging core of ShrekChat, a FastAPI chat service with a browser client.
Users exchange direct and group messages in real time over WebSockets.
They see each other's presence and receive delivery and read receipts.
They relay audio and video call signalling, block each other, and translate messages.

What is modelled, module by module:

- `Schema` (app/database.py) holds the relational store.
  Each table is a finite map keyed by its primary key, so a composite key occurs at most once by construction.
  The message row carries the fields the routers use beyond the declared columns: edited, edited_at, original_content, is_translated, translated_at and translated_to.
  It also carries recipient_id, the undeclared column by which the older socket server addresses its direct messages.
  Those rows leave room_id null, which the declared column forbids (see "Left out").
  Timestamps keep the microseconds that Python's `datetime` and the stored columns keep.
  `Db` is the object the routers update.
- `Outbox` and `Events` hold the socket registries and the outbound frames.
  A registry maps a username to its set of open sockets.
  Sending a frame appends it to an outbox.
- `Realtime` (app/routers/websockets.py) is the current socket server.
  The class `Hub` holds its three registries: chat, notification and per-room.
  Connect and disconnect, every frame handler, presence broadcasting and the new-room, new-group and group-deleted notifiers are methods.
  Each method is proved against guard and outcome functions of the old state.
- `LegacyHub` (app/routers/chat/websockets.py, and the sending helpers of app/routers/utils.py) is the older socket server.
  Its class `Server` keeps one socket per key, plus the username-to-id maps.
- `Utils`, `DirectMessages`, `Groups`, `GroupListing`, `Blocking`, `Translation`, `Views` and `Auth` model the REST routers of the same names.
  Each route is a method over the shared store, proved against a function that gives the reply and the tables it leaves behind.
- `BackendStore`, `BackendAuth`, `BackendChat` and `BackendContacts` model the older sqlite backend.
  It has users, sender/receiver message rows, symmetric contact edges and the fallback SHA-256 password hasher.
  The routes of backend/routes.py duplicate those of backend/routes/auth.py and backend/routes/chat.py.
  One member models each pair, and its login refusal text is a parameter.
- `Validation` (app/static/js/validation.js, frontend/auth/validation.js, validation.js) models the browser form checks as ordered guard chains.
  It includes a computed matcher for the simple email pattern, proved equal to what the pattern describes.
- `ClientTranslations` (app/static/js/translations.js) models the browser side of translation:
  - the per-page cache;
  - the local-storage copy, capped at 100 entries with the oldest dropped;
  - the original/translated toggle of a message element.
- `AdminPagination` (app/static/js/admin.js) models the pagination controls of the admin user table.
- `Common` and `Sorting` hold shared vocabulary and one stable insertion sort with a comparison parameter.

Ids are natural numbers.
Where the server iterates over an unordered set (sockets, query rows without ORDER BY), the model uses ascending id order.

Where the code and the system's own design description disagree, the model follows the code:

- A chat message is stored with delivered set, whatever the recipients' presence.
  No block relation is checked on the send path.
- A "seen" frame marks every unread message from others in the room as read, not just the listed ids.
- `update_member_status` lets the last admin of a group demote themself (`Groups.LastAdminCanDemoteThemself`).
- `create_group` commits the group row before it parses the member ids.
  A bad id list leaves the group behind with no members (`Groups.CreateGroupFailureKeepsGroup`).
  The reported member count is the number of parsed ids plus one, even when ids were skipped (`Groups.CreateGroupMemberCount`).
- A call offer to an offline target answers the caller with call_status "failed".
- In the older server, the offline broadcast of `cleanup_user_disconnect` is created but never awaited, so it never runs.
  Delivered is set there only when the recipient is online.
- Translating returns 503 when no API key is configured.
  A 503 raised inside the request block is caught and re-raised as 500 "Translation failed: 503: ...".
- `get_rooms` sorts its rooms by the time label text, in reverse order.
  Rooms with no message (label "Now") therefore come before every room with a clock label (`DirectMessages.EmptyRoomsFirst`).
  The chat page does not sort its rooms at all.

## Model

| member | source | states |
|---|---|---|
| Schema.NewUser | app/database.py:48-60 | a new user row is offline and carries the default avatar "/static/images/shrek.jpg" |
| Schema.NewRoom | app/database.py:29-34 | a new room is a direct room unless the caller says otherwise |
| Schema.NewMessage | app/database.py:86-96 | a new message row is neither delivered nor read |
| Schema.UserByName | app/routers/websockets.py:110 | the lookup by username finds a row carrying the name, the smallest such id, or none exactly when no row carries it |
| Schema.UserByEmail | app/routers/auth.py:110 | the lookup by email finds a row carrying the email, or none when no row carries it |
| Schema.UserByNameIsTheUser | app/database.py:51 | with the unique username column, the lookup finds the one row that carries the name |
| Schema.DisplayName | app/routers/websockets.py:251 | the shown name is the full name when it is non-empty, the username otherwise |
| Schema.DirectRoomsOf | app/routers/websockets.py:779-786 | a room is listed iff the user is a member and it exists and is not a group |
| Schema.OthersIn | app/routers/websockets.py:275-284 | the other members of a room are exactly the members with a user row other than the caller |
| Schema.UnreadIds | app/routers/views.py:102-108 | the unread messages of a room are exactly those of the room from someone else not marked read |
| Schema.LastMessageIn | app/routers/views.py:97-100 | the last message of a room belongs to the room and no message of the room has a later instant (to the microsecond); among messages at that instant it is the smallest id, the first row of the descending ORDER BY; there is none iff the room has no message |
| Outbox.Register | app/routers/websockets.py:41-44 | connecting adds the socket to the user's set, creating it, and changes no other user's sockets |
| Outbox.Unregister | app/routers/websockets.py:80-86 | disconnecting removes the socket, drops the user once the set is empty, and changes no other user |
| Outbox.OnlineIffHoldsSocket | app/routers/websockets.py:80-86 | since empty entries are deleted, a user is in the registry exactly while holding a socket |
| Outbox.OnlineAfterUnregister | app/routers/websockets.py:80-86 | after one socket closes, the user stays online iff another socket remains |
| Outbox.RegisterUnregisterRoundTrip | app/routers/websockets.py:41-86 | connecting a new socket and closing it again restores the registry |
| Outbox.OnSocketsTargets | app/routers/websockets.py:808-813 | a send loop over sockets sends exactly the frames to exactly those sockets |
| Outbox.OnSocketsLength | app/routers/websockets.py:808-813 | each socket receives each frame exactly once |
| Outbox.Reach | app/routers/websockets.py:300-303 | the reached sockets are exactly those held by one of the users |
| Outbox.ToUsersTargets | app/routers/websockets.py:300-310 | fan-out to users sends a frame to a socket iff the socket belongs to one of them |
| Outbox.SenderOutsideReach | app/routers/websockets.py:275-284 | with sockets owned by one user each, fan-out to the other members never reaches the sender |
| Outbox.RegisterKeepsDisjoint | app/routers/websockets.py:41-44 | registering a fresh socket keeps every socket owned by one user |
| Outbox.UnregisterKeepsDisjoint | app/routers/websockets.py:80-86 | unregistering keeps every socket owned by one user |
| Realtime.Contacts | app/routers/websockets.py:778-801 | the contacts of a user are exactly the other users who share a direct room with them |
| Realtime.NoDirectRoomNoContacts | app/routers/websockets.py:788-791 | without a direct room there is nobody to notify, so the early return loses nothing |
| Realtime.RoomGuard | app/routers/websockets.py:215-231 | "Room not found" iff the room is missing, "You are not a member of this room" iff the caller is not a member |
| Realtime.ChatGuard | app/routers/websockets.py:203-231 | a chat frame passes iff it has room_id and content and the caller is a member of an existing room |
| Realtime.SeenGuard | app/routers/websockets.py:318-343 | a seen frame passes iff it has room_id and message_ids and the caller is a member of an existing room |
| Realtime.TypingGuard | app/routers/websockets.py:414-439 | a typing frame passes iff it has room_id and status and the caller is a member of an existing room |
| Realtime.UpdateGuard | app/routers/websockets.py:470-494 | the intended edit window: an edit passes iff the ids and trimmed text are truthy, the message exists, the caller sent it and it is at most 300 000 000 microseconds (5 minutes) old; the 5-minute refusal iff only the age fails |
| Realtime.UpdateGuardAsWritten | app/routers/websockets.py:490-493 | as written, every edit that passes the owner check fails with "Failed to update message", and every earlier refusal is the intended guard's |
| Realtime.FreshEditRefusedAsWritten | app/routers/websockets.py:490-535 | an owner's edit of a message sent at this instant passes the intended guard and fails as written |
| Realtime.DeleteGuard | app/routers/websockets.py:539-570 | a delete passes iff the ids are truthy, the message exists and the caller sent it or is an admin of its group |
| Realtime.CallOfferGuard | app/routers/websockets.py:609-654 | a call offer passes iff all four keys are present, the caller is a member and the target exists and is a member |
| Realtime.CallResponseGuard | app/routers/websockets.py:690-706 | a call response passes iff its three keys are present and the target exists |
| Realtime.IceGuard | app/routers/websockets.py:743-756 | an ICE candidate passes iff candidate and target are present and the target exists |
| Realtime.ChatRow | app/routers/websockets.py:233-244 | a chat message is stored delivered and unread, in the room, from the sender, at the current time |
| Realtime.Payload | app/routers/websockets.py:246-258 | the relayed frame carries the real sender, the display name and the HH:MM of the stored time |
| Realtime.Echo | app/routers/websockets.py:260-272 | the sender's copy says "user" and carries the temp_id only when it is truthy; everything else equals the relayed frame |
| Realtime.SeenIds | app/routers/websockets.py:349-370 | the confirmed ids are exactly the requested ids of messages in the room sent by others, in ascending order |
| Realtime.SendersOf | app/routers/websockets.py:358-363 | the notified senders are exactly the senders of the listed messages |
| Realtime.MarkReadKeepsSeen | app/routers/websockets.py:345-363 | marking the room read first changes neither the confirmed ids nor the notified senders |
| Realtime.ToChatAndNotifyTargets | app/routers/websockets.py:380-406 | read notices reach exactly the chat and notification sockets of the listed users |
| Realtime.RelayToOthersTargets | app/routers/websockets.py:274-310 | a relay reaches a socket iff a room member other than the sender holds it, and never the sender |
| Realtime.TrackedMembers | app/routers/websockets.py:292-310 | room_connections gains a socket of every reached member and keeps every earlier entry |
| Realtime.DropUser | app/routers/websockets.py:88-93 | the user leaves every room entry and an entry that becomes empty is dropped |
| Realtime.DirectRoomCard | app/routers/websockets.py:829-840 | the new-room entry names the creator, with default avatar, "Click to start chatting!", "Now", no unread, and the creator's status |
| Realtime.GroupRoomCard | app/routers/websockets.py:861-870 | the new-group entry has the group name, avatar or default, "Group created. Click to start chatting!", "Now" and no unread |
| Realtime.Edited | app/routers/websockets.py:496-500 | an edit sets the text, the edited flag and its time and changes nothing else |
| Realtime.AnswerSdp | app/routers/websockets.py:700-720 | the answer SDP is relayed iff the call was accepted and the client sent a non-empty one |
| Realtime.Hub.SendTo | app/routers/websockets.py:300-310 | the frames go to each listed user's sockets in turn |
| Realtime.Hub.BroadcastStatus | app/routers/websockets.py:776-813 | the status frame goes to every socket of every contact |
| Realtime.ErrorCloseLeavesUserOnline | app/routers/websockets.py:42-103 | after the 1011 close of a user's only socket the user is still online, where the clean close at lines 83-87 would take them offline |
| Realtime.Hub.ConnectChat | app/routers/websockets.py:29-47 | without an account the socket is closed with 1008 and nothing changes; otherwise it is registered and the contacts hear "online" |
| Realtime.Hub.DisconnectChat | app/routers/websockets.py:80-95 | the socket is unregistered, the user leaves room_connections and the contacts hear "offline" |
| Realtime.Hub.FailChat | app/routers/websockets.py:98-103 | any error outside the disconnect branch closes the chat socket with 1011 (and the method changes no state: the socket stays registered) |
| Realtime.Hub.DropFromRooms | app/routers/websockets.py:88-93 | every room entry loses the user's socket, an entry left empty is removed, and nothing else changes |
| Realtime.Hub.ConnectPresence | app/routers/websockets.py:106-126 | an unknown username is refused with 1008; otherwise the socket is registered, the row goes online with last_seen now, and contacts hear "online" |
| Realtime.Hub.DisconnectPresence | app/routers/websockets.py:137-149 | the socket is unregistered, the row goes offline with last_seen now, and contacts hear "offline" |
| Realtime.Hub.ConnectNotifications | app/routers/websockets.py:161-175 | without an account 1008; otherwise the socket joins the notification sockets |
| Realtime.Hub.DisconnectNotifications | app/routers/websockets.py:186-191 | the socket leaves the notification sockets |
| Realtime.Hub.Reply | app/routers/websockets.py:207 | the error frame goes to the caller's socket only |
| Realtime.Hub.HandleChatMessage | app/routers/websockets.py:201-313 | a refused frame only gets the error; an accepted one is stored, echoed first, relayed to every other member's sockets and tracked |
| Realtime.Hub.PostChat | app/routers/websockets.py:233-310 | the success path stores the row, echoes, relays and records sockets |
| Realtime.Hub.RelayTracked | app/routers/websockets.py:292-310 | the relay sends to every socket of the listed users and records each one in room_connections |
| Realtime.Hub.RelayToMember | app/routers/websockets.py:303-310 | one member's sockets each receive the frame and the last becomes its room socket |
| Realtime.Hub.HandleSeen | app/routers/websockets.py:315-409 | a refused frame only gets the error; otherwise the room is marked read, the reader is confirmed and each sender is told |
| Realtime.Hub.NotifyReaders | app/routers/websockets.py:380-406 | each listed user hears the notice on its chat sockets and then its notification sockets |
| Realtime.Hub.HandleTyping | app/routers/websockets.py:411-466 | a refused frame only gets the error; otherwise every other member's sockets hear the typing status |
| Realtime.Hub.HandleUpdate | app/routers/websockets.py:468-535 | under the intended 5-minute window (see Findings), a refused edit only gets the error; otherwise the row is edited, the editor acknowledged and the other members told |
| Realtime.Hub.ApplyEdit | app/routers/websockets.py:496-531 | the message row gets the new text and edit time and nothing else in the tables changes; the editor's acknowledgement comes first, then the notice to every other member of the room |
| Realtime.Hub.HandleDelete | app/routers/websockets.py:537-605 | a refused delete only gets the error; otherwise the row is removed, the deleter confirmed and the other members told who deleted it |
| Realtime.Hub.HandleCallOffer | app/routers/websockets.py:607-686 | an online target gets the offer and the caller "ringing"; an offline target gets nothing and the caller "failed" |
| Realtime.Hub.HandleCallResponse | app/routers/websockets.py:688-739 | an online target gets the response and the responder "success"; otherwise "failed" with "User is offline" |
| Realtime.Hub.HandleIce | app/routers/websockets.py:741-774 | the candidate reaches the target's sockets, or is dropped when the target is offline |
| Realtime.Hub.Dispatch | app/routers/websockets.py:50-79 | a frame without a type gets "Invalid message format", an unknown type "Unknown message type", and nothing else changes; each of the eight handled types has exactly its handler's outcome (ChatHandled, SeenHandled, TypingHandled, UpdateHandled, DeleteHandled, CallOfferHandled, CallResponseHandled, IceHandled) |
| Realtime.Hub.NotifyNewRoom | app/routers/websockets.py:815-847 | an existing online target of an existing room gets the direct-room entry; otherwise nothing is sent |
| Realtime.Hub.NotifyNewGroup | app/routers/websockets.py:849-881 | with the room and group row present, each listed online user gets the group entry |
| Realtime.Hub.NotifyGroupDeleted | app/routers/websockets.py:883-892 | each listed online user hears that the group is gone |
| LegacyHub.ToMember | app/routers/utils.py:78-86 | a member gets the frame on its single socket iff it has a user row and a socket under its key |
| LegacyHub.ToMembersTargets | app/routers/chat/websockets.py:372-382 | the frame goes to a socket iff one of the listed users holds it under the scope's key |
| LegacyHub.ToRoomMembersTargets | app/routers/utils.py:64-86 | the status frame reaches exactly the sockets of the other members of the user's direct rooms |
| LegacyHub.ReceiptFrames | app/routers/utils.py:88-99 | one read receipt per message, in order, with the message's read time or the current time |
| LegacyHub.UnreadDirectIds | app/routers/chat/websockets.py:130-135 | the unread messages are exactly those from the contact to the user not yet read |
| LegacyHub.MarkDirectReadEffect | app/routers/chat/websockets.py:130-141 | opening a chat marks every unread message from the contact read at the same instant, leaves every other row, and leaves none unread |
| LegacyHub.OpeningReceiptsAtNow | app/routers/chat/websockets.py:137-146 | the receipts sent on opening carry the instant the messages were marked |
| LegacyHub.DirectRow | app/routers/chat/websockets.py:174-215 | a direct message is stored unread for its recipient, and delivered with a time exactly when the recipient is online |
| LegacyHub.GroupOthers | app/routers/chat/websockets.py:366-376 | the other group members are exactly the members with a user row other than the sender |
| LegacyHub.Notice | app/routers/chat/websockets.py:230-243 | a receipt goes to the sender's socket iff the sender is someone else whose name is known and who is connected |
| LegacyHub.GroupRelayTargets | app/routers/chat/websockets.py:366-382 | a group message reaches exactly the group sockets of the other members |
| LegacyHub.MapsAgreeInverse | app/routers/chat/websockets.py:126-127 | the name and id maps are inverse of each other |
| LegacyHub.RecordKeepsAgreement | app/routers/chat/websockets.py:126-127 | recording a user in both maps keeps them inverse |
| LegacyHub.Server.SendOn | app/routers/chat/websockets.py:220 | one frame on one socket |
| LegacyHub.Server.SendToMembers | app/routers/chat/websockets.py:372-382 | the frame goes to each listed member's socket in turn |
| LegacyHub.Server.BroadcastPresence | app/routers/utils.py:54-86 | an unknown or empty name sends nothing; otherwise each other member of each direct room hears the status |
| LegacyHub.Server.SendReadReceipts | app/routers/utils.py:88-99 | a connected sender gets one receipt per message on its socket; otherwise nothing is sent |
| LegacyHub.Server.SendReceiptsOn | app/routers/utils.py:94-99 | the loop appends, in message order, one receipt frame per message to the given socket and nothing else |
| LegacyHub.Server.PresenceConnect | app/routers/chat/websockets.py:13-56 | no username or an unknown one is refused with 1008 and its reason; otherwise the socket replaces the user's, the maps record the user, the row goes online and contacts hear "online" |
| LegacyHub.Server.CleanupDisconnect | app/routers/chat/websockets.py:69-88 | the socket and both map entries are removed and the row goes offline with last_seen now |
| LegacyHub.Server.NotifySender | app/routers/chat/websockets.py:230-243 | the notice goes out as Notice says |
| LegacyHub.Server.OpenDirectChat | app/routers/chat/websockets.py:91-146 | "Username is required", "User not found", "Recipient not found" refuse with nothing changed; otherwise the chat opens |
| LegacyHub.Server.Open | app/routers/chat/websockets.py:123-146 | opening records the socket and the maps, marks the contact's messages read and sends the receipts |
| LegacyHub.Server.MarkAndReceipt | app/routers/chat/websockets.py:130-146 | the contact's unread messages are marked read and the receipts go out |
| LegacyHub.Server.SendOpeningReceipts | app/routers/chat/websockets.py:137-146 | when the contact had unread messages and is connected, the receipts of those messages, marked read at the opening time, go to the contact's socket; otherwise nothing is sent |
| LegacyHub.Server.MarkUnreadDirect | app/routers/chat/websockets.py:130-141 | returns the unread ids in ascending order and marks exactly them read |
| LegacyHub.Server.HandleText | app/routers/chat/websockets.py:174-220 | the message is stored, relayed to an online recipient and marked delivered, and the sender gets the reply |
| LegacyHub.Server.HandleReadReceipt | app/routers/chat/websockets.py:222-243 | an unknown id changes nothing; otherwise the row is marked read and its sender told |
| LegacyHub.Server.HandleDeliveryReceipt | app/routers/chat/websockets.py:245-267 | an unknown or already delivered message changes nothing; otherwise it is marked delivered and its sender told |
| LegacyHub.Server.DirectDispatch | app/routers/chat/websockets.py:163-172 | a frame with no type or "message" is a text (TextSent); "read_receipt" and "delivered_receipt" have exactly their handlers' outcomes; an unknown type changes nothing |
| LegacyHub.Server.GroupConnect | app/routers/chat/websockets.py:269-310 | no username, an unknown one or a non-member is refused with its reason; otherwise the socket is stored under the group key |
| LegacyHub.Server.GroupDisconnect | app/routers/chat/websockets.py:323-327 | the group socket key is removed |
| LegacyHub.Server.HandleGroupMessage | app/routers/chat/websockets.py:331-387 | the message is stored with a read receipt for the sender, relayed to the other members' group sockets, then echoed with the "user" mark |
| Utils.ClockLabel | app/routers/utils.py:15 | the "%H:%M" label reads back as the hour and minute it was made from |
| Utils.DateLabel | app/routers/utils.py:21 | the "%d.%m.%Y" label reads back as the day, month and year it was made from |
| Utils.FormatMessageTime | app/routers/utils.py:9-21 | a time of today reads back as its hour and minute; "Yesterday" exactly for the day before; any other day reads back as its date |
| Utils.CheckGroupMembership | app/routers/utils.py:23-36 | succeeds with the membership row exactly when the user is a member; otherwise 403 "You are not a member of this group" |
| Utils.CheckGroupAdmin | app/routers/utils.py:38-52 | succeeds exactly when the user is a member whose row says admin; otherwise 403 "Only admins can perform this action" |
| Utils.MarkRead | app/routers/utils.py:101-119 | every message of the room from someone else ends read, nothing else changes, and no unread message of the room remains |
| Utils.MarkOne | app/routers/utils.py:106-117 | a row ends read exactly when it was read or comes from someone else in the room; the user's own rows and other rooms' rows are untouched; only the read fields change; no unread row from others is left |
| Utils.MarkReadIdempotent | app/routers/utils.py:101-119 | marking a room read twice is marking it once, whatever the second time |
| Utils.MarkReadPointwise | app/routers/utils.py:115-117 | marking exactly the unread rows, one by one, is marking the room read |
| Utils.MarkEach | app/routers/utils.py:115-117 | each listed message is marked read at the given time and no other row changes |
| Utils.ResetUnreadCount | app/routers/utils.py:101-122 | returns how many messages were unread and leaves the room marked read |
| DirectMessages.Caller | app/routers/direct_messages.py:25-27 | the caller's row, found by username, or 404 "User not found" |
| DirectMessages.SharedDirectRooms | app/routers/direct_messages.py:138-150 | exactly the non-group rooms both users belong to |
| DirectMessages.ExistingDirectRoom | app/routers/direct_messages.py:138-152 | some shared direct room exactly when one exists, and then the lowest id among them |
| DirectMessages.WithDirectRoom | app/routers/direct_messages.py:162-188 | adds the room under the new id with its internal "DM:" name and both users as members, and keeps every other table and row |
| DirectMessages.NewDirectRoomHasThePair | app/routers/direct_messages.py:162-188 | a created room is a direct room whose members are exactly the two users, and the next lookup finds it |
| DirectMessages.DirectRoomGuard | app/routers/direct_messages.py:127-135 | an unknown caller gives "User not found", an unknown target "Target user not found"; otherwise the caller's id |
| DirectMessages.ByUsernameGuard | app/routers/direct_messages.py:209-225 | the refusals in order (unknown caller, empty name, unknown name); succeeds exactly for a known name other than the caller's, giving the two ids |
| DirectMessages.OpenPairRoom | app/routers/direct_messages.py:137-199 | an existing shared room is returned unchanged; otherwise a new room holding the pair is stored and the target is notified |
| DirectMessages.GetDirectRoom | app/routers/direct_messages.py:120-199 | a refused request changes nothing and returns its error; otherwise the pair's room is found or opened |
| DirectMessages.CreateDirectRoomByUsername | app/routers/direct_messages.py:202-287 | a refused request (including a chat with oneself) changes nothing; otherwise the pair's room is found or opened |
| DirectMessages.HistoryGuard | app/routers/direct_messages.py:299-321 | "User not found", then "Room not found", then 403 for a non-member; succeeds exactly for a member of an existing room |
| DirectMessages.CandidateIds | app/routers/direct_messages.py:324-327 | the messages of the room, below the `before_id` cursor when one is given |
| DirectMessages.Candidates | app/routers/direct_messages.py:324-327 | one row per candidate id |
| DirectMessages.CandidatesAreTheMatches | app/routers/direct_messages.py:324-327 | the candidate rows are exactly the matching messages |
| DirectMessages.NewerOrSameIsTotal | app/routers/direct_messages.py:329 | newest-first by timestamp, to the microsecond, is a total preorder |
| DirectMessages.Limit | app/routers/direct_messages.py:329 | `LIMIT n` keeps a prefix of n rows, or all of them when n is negative or larger |
| DirectMessages.Reverse | app/routers/direct_messages.py:333 | the rows in the opposite order |
| DirectMessages.PageIsNewest | app/routers/direct_messages.py:323-329 | the page holds at most `limit` stored messages of the room below the cursor, newest first by microsecond timestamp, and no left-out candidate is newer than a kept one |
| DirectMessages.View | app/routers/direct_messages.py:336-346 | the view keeps id, content and flags; the sender is "user" for the caller's own messages; the time reads back as the hour and minute |
| DirectMessages.FormatHistory | app/routers/direct_messages.py:332-346 | one view per page row, oldest first |
| DirectMessages.GetRoomMessages | app/routers/direct_messages.py:290-363 | a refused request changes nothing; otherwise the page in chronological order, and the room is marked read for the caller |
| DirectMessages.PageRowsValid | app/routers/direct_messages.py:343 | every row of a page has a valid time to format |
| DirectMessages.Fold | app/routers/direct_messages.py:383-384 | `ilike` compares text with ASCII letters lowered |
| DirectMessages.MatchingOthers | app/routers/direct_messages.py:379-388 | exactly the other users whose username or full name matches `%query%` under LIKE on ASCII-lowered text, wildcards in the query included |
| DirectMessages.LiteralQueryIsContainment | app/routers/direct_messages.py:379-385 | for a query without `%` or `_`, the ILIKE match is exactly case-blind containment of the query |
| DirectMessages.UnderscoreMatchesAnyText | app/routers/direct_messages.py:379-385 | the query "_" matches every non-empty text, because `_` is a LIKE wildcard |
| DirectMessages.LiteralThenPercent | app/routers/direct_messages.py:379-385 | a literal pattern followed by `%` matches exactly the texts it starts |
| DirectMessages.LiteralInPercents | app/routers/direct_messages.py:379-385 | a literal pattern between two `%` matches exactly the texts it occurs in |
| DirectMessages.SearchIdsBounds | app/routers/direct_messages.py:379-388 | at most ten users matching the LIKE pattern, never the caller, in ascending id, and all of them when fewer than ten are returned |
| DirectMessages.Hit | app/routers/direct_messages.py:392-414 | `has_chat` exactly when the two share a direct room, whose id is `room_id` |
| DirectMessages.SearchUsers | app/routers/direct_messages.py:366-415 | "User not found" for an unknown caller; otherwise one hit per found user, in order |
| DirectMessages.BuildHits | app/routers/direct_messages.py:390-414 | one hit per found user, at the same position, each telling whether a direct room with the caller exists and which |
| DirectMessages.LastLine | app/routers/direct_messages.py:39-41 | the text and clock label of the latest message, or the room's empty text and "Now" |
| DirectMessages.GroupEntry | app/routers/direct_messages.py:44-72 | a group entry with the member count, the caller's unread count, the group's avatar or the default, and the latest message |
| DirectMessages.OtherUser | app/routers/direct_messages.py:75-87 | the other member with the lowest id, or the caller in a room of one |
| DirectMessages.DirectEntry | app/routers/direct_messages.py:74-112 | a direct entry named after the other member, with their status, the caller's unread count and the latest message |
| DirectMessages.MyRooms | app/routers/direct_messages.py:29-34 | exactly the rooms the caller belongs to |
| DirectMessages.LaterLabelIsTotal | app/routers/direct_messages.py:115 | descending order of the time label is a total preorder |
| DirectMessages.BuildEntries | app/routers/direct_messages.py:36-112 | one entry per room, in order |
| DirectMessages.GetRooms | app/routers/direct_messages.py:21-117 | "User not found" for an unknown caller; otherwise one entry per room of the caller, sorted by time label, latest first, and rooms with equal labels (every "Now" room, rooms of the same minute) in id order, as the stable sort leaves them |
| DirectMessages.EmptyRoomsFirst | app/routers/direct_messages.py:115 | the reverse text sort puts rooms with no message ("Now") before every room with a clock label |
| Groups.SessionUser | app/routers/chat/session.py:34-50 | 401 "Not authenticated" without a session username, 404 "User not found" for an unknown one; otherwise the row carrying that username |
| Groups.DecimalPieces | app/routers/groups.py:131 | one decimal piece per id |
| Groups.ParseDecimalPieces | app/routers/groups.py:131 | the pieces of a written id list parse back to the ids |
| Groups.ParseJoinedIds | app/routers/groups.py:131 | a comma-joined list of ids, as a client writes it, parses back to the same list |
| Groups.AddPlain | app/routers/groups.py:136-142 | each listed user gets a plain member row in the group, and every other row is kept |
| Groups.AddPlainSnoc | app/routers/groups.py:132-142 | adding one more user adds exactly that user's plain row |
| Groups.AdminsOf | app/routers/groups.py:361-364 | exactly the members whose row says admin |
| Groups.NoDuplicatesCount | app/routers/groups.py:361-364 | a list without repeats has as many ids as its set |
| Common.IdSet | app/routers/groups.py:289-292 | the set of the listed ids |
| Groups.Joiners | app/routers/groups.py:132-142 | exactly the listed ids that name a user other than the creator, never more than were listed |
| Groups.JoinersSnoc | app/routers/groups.py:132-142 | one more listed id adds that user exactly when it names a user other than the creator |
| Groups.StageJoiners | app/routers/groups.py:132-142 | the loop stages the joiners' plain rows, in list order |
| Groups.CreateGroup | app/routers/groups.py:99-158 | a refused session changes nothing; otherwise the creation outcome, including the group row left behind by a bad id list |
| Groups.SeedShape | app/routers/groups.py:120-142 | the new group's rows: the creator as the only admin, the joiners as plain members, and every other row kept |
| Groups.CreateGroupSeedsMembers | app/routers/groups.py:110-148 | a creation adds a fresh group whose members are the creator and every listed existing user, with the creator the only admin, and touches no other group |
| Groups.CreateGroupMemberCount | app/routers/groups.py:157 | the reply's count is the number of parsed ids plus one; it equals the real member count exactly when no id was skipped |
| Groups.SeededCount | app/routers/groups.py:157 | a group seeded with distinct joiners has one member more than them |
| Groups.JoinersCountsKept | app/routers/groups.py:132-135 | the joiners are as many as the listed ids exactly when every id names a user other than the creator |
| Groups.CreateGroupFailureKeepsGroup | app/routers/groups.py:116-146 | a bad id list still leaves the committed group row, with no member rows |
| Groups.Newcomers | app/routers/groups.py:299-313 | exactly the listed existing users that were not yet members |
| Groups.NewcomersSnoc | app/routers/groups.py:299-313 | one more listed id adds that user exactly when it names a user not yet a member |
| Groups.Added | app/routers/groups.py:314-318 | one reply record per added user, with its id, display name and username |
| Groups.StageNewcomers | app/routers/groups.py:297-318 | the loop stages the newcomers' plain rows, in list order |
| Groups.AddGroupMembers | app/routers/groups.py:275-326 | a refused session changes nothing; otherwise the addition outcome |
| Groups.AddMembersAddsNewcomers | app/routers/groups.py:283-321 | only an admin adds; the new members are exactly the listed existing users, as plain members; earlier rows are kept; the reply lists the newcomers in order |
| Groups.NewcomersJoinPlain | app/routers/groups.py:299-312 | staging adds as members exactly the listed existing users who were not members, none of them an admin, and keeps every earlier row |
| Groups.RemovalRefusal | app/routers/groups.py:338-370 | 403 unless the caller is an admin or the member leaving, then 404 for a non-member, then 400 for the only admin; no refusal otherwise |
| Groups.RemoveGroupMember | app/routers/groups.py:328-389 | a refused session changes nothing; otherwise the removal outcome |
| Groups.WithoutMemberDeletesOneRow | app/routers/groups.py:372-386 | exactly the target's row goes, and the group row goes exactly when the target was its last member |
| Groups.RemovalDeletesOneRow | app/routers/groups.py:345-374 | a removal that goes through deletes the target's row, and only a member can be removed, by an admin or by themself |
| Groups.RemovalKeepsAnAdmin | app/routers/groups.py:359-386 | a group with an admin keeps one after any removal, so a group is deleted only when it had no admin |
| Groups.UpdateMemberStatus | app/routers/groups.py:391-426 | a refused session changes nothing; otherwise the flag update outcome |
| Groups.MakeMemberAdmin | app/routers/groups.py:428-462 | the same update with the flag set |
| Groups.SetAdminChangesOneFlag | app/routers/groups.py:402-416 | the member set is kept and only the target's admin flag changes |
| Groups.LastAdminCanDemoteThemself | app/routers/groups.py:402-416 | nothing stops the only admin from demoting themself, which leaves a group with a member and no admin |
| Groups.Renamed | app/routers/groups.py:226-230 | a non-empty name replaces the name, and any given description replaces it, even an empty one; nothing else changes |
| Groups.RenamedIdempotent | app/routers/groups.py:226-230 | an edit applied twice is the edit applied once, and an edit with neither field changes nothing |
| Groups.UpdateGroup | app/routers/groups.py:207-239 | a refused session changes nothing; otherwise the edit outcome |
| GroupListing.MyGroups | app/routers/groups.py:20-25 | exactly the existing groups the caller has a member row in |
| GroupListing.GroupMessageIds | app/routers/groups.py:30-32 | exactly the messages of the group |
| GroupListing.LastGroupMessage | app/routers/groups.py:29-32 | none exactly when the group has no message; otherwise a message with the latest timestamp, the smallest id among those at that instant |
| GroupListing.Unread | app/routers/groups.py:34-48 | the unread count never exceeds the group's message count |
| GroupListing.ReadIdSetBound | app/routers/groups.py:37-42 | the caller's receipted messages are no more than the receipts counted |
| GroupListing.ReceiptInReadIdSet | app/routers/groups.py:37-42 | a message the caller has a receipt for is counted as read |
| GroupListing.AllReceiptedMeansNoUnread | app/routers/groups.py:34-48 | with a receipt for every message of the group, nothing is unread |
| GroupListing.SubsetCard | app/routers/groups.py:48 | a subset is no larger than its superset |
| GroupListing.Preview | app/routers/groups.py:60-62 | text of up to 30 characters is kept; longer text becomes its first 27 characters and "..." |
| GroupListing.EntryOf | app/routers/groups.py:28-92 | fails with 500 exactly when the latest message's sender has no user row |
| GroupListing.EntryOfShows | app/routers/groups.py:50-91 | the entry carries the group's fields, the unread and member counts, the caller's admin flag, and "You: " or the sender's name before the preview, or the empty-group texts |
| GroupListing.MyGroupList | app/routers/groups.py:21-25 | the caller's groups once each, in ascending id |
| GroupListing.Entries | app/routers/groups.py:27-92 | one entry per group, or the 500 |
| GroupListing.EntriesFailFromPrefix | app/routers/groups.py:27-92 | a failure on a group fails the whole listing |
| GroupListing.BuildEntries | app/routers/groups.py:27-92 | the loop builds the entries, or stops at the first failure |
| GroupListing.CreatedLaterOrSameIsTotal | app/routers/groups.py:95 | newest-created first, to the microsecond, is a total preorder |
| GroupListing.GetUserGroups | app/routers/groups.py:15-97 | a refused session gives its error; otherwise the entries of the caller's groups, newest-created first by microsecond creation time, groups created at the same instant in id order, or the 500 |
| GroupListing.EntriesPointwise | app/routers/groups.py:27-92 | each listed entry is the entry of its group |
| GroupListing.ListedMembers | app/routers/groups.py:174-178 | exactly the members of the group that have a user row |
| GroupListing.Card | app/routers/groups.py:181-191 | the member card carries the user, the admin flag, the join time, the default avatar, and "online" exactly when the user is connected |
| GroupListing.Cards | app/routers/groups.py:180-192 | one card per member, in order |
| GroupListing.BuildCards | app/routers/groups.py:180-192 | the loop builds the cards |
| GroupListing.AdminFirstIsTotal | app/routers/groups.py:195 | admins first, then by join time to the microsecond, is a total preorder |
| GroupListing.GetGroupDetails | app/routers/groups.py:160-205 | a refused session or non-member gives its error, a missing group 404; otherwise the group with its member cards sorted admins first, then by join instant, equal keys in id order as the stable sort leaves them |
| GroupListing.CardIds | app/routers/groups.py:174-192 | the card built at each position carries the id of the member at that position |
| GroupListing.MemberListIsTheMembership | app/routers/groups.py:174-195 | the cards are exactly the listed members, one each, with every admin before every non-admin |
| GroupListing.RowsInIdOrder | app/routers/groups.py:473-475 | one row per message of the group |
| GroupListing.EarlierOrSameIsTotal | app/routers/groups.py:475 | oldest first by timestamp is a total preorder |
| GroupListing.Thread | app/routers/groups.py:473-475 | the group's messages, oldest first |
| GroupListing.ThreadHoldsTheGroup | app/routers/groups.py:473-475 | every message of the group is in the thread |
| GroupListing.StageReceipts | app/routers/groups.py:477-492 | the loop stages a receipt for each message the caller has not read |
| GroupListing.HasReceiptGrows | app/routers/groups.py:477-492 | adding receipts keeps the existing ones |
| GroupListing.ReceiptsCoverThread | app/routers/groups.py:477-494 | after opening, the caller has a receipt for every message of the thread |
| GroupListing.ReceiptsAreFresh | app/routers/groups.py:477-492 | each added receipt is the caller's, at the current time, for a thread message it had no receipt for |
| GroupListing.NoReceiptsWhenMarked | app/routers/groups.py:485 | a thread already read adds no receipt |
| GroupListing.ReceiptsIdempotent | app/routers/groups.py:477-494 | opening again adds nothing |
| GroupListing.ViewOf | app/routers/groups.py:498-513 | the view keeps id, content and sender; "user" exactly for the caller's own; the sender's display name or "Unknown"; the clock label reads back |
| GroupListing.ThreadIsValid | app/routers/groups.py:503 | every thread message has a valid time |
| GroupListing.BuildViews | app/routers/groups.py:497-513 | the formatting loop appends one view per thread message, in thread order |
| GroupListing.ViewsAreTheMessages | app/routers/groups.py:497-513 | the view at each position is the view of the thread message at that position: sender name or "Unknown", "user" exactly for the caller's own, the HH:MM time |
| GroupListing.GetGroupMessages | app/routers/groups.py:464-514 | a refused session or non-member changes nothing; otherwise every message is receipted and the thread returned, oldest first |
| GroupListing.OpeningClearsUnread | app/routers/groups.py:464-494 | after opening nothing is unread, earlier receipts are kept, and opening again changes nothing |
| GroupListing.OpenedHasReceipts | app/routers/groups.py:477-492 | after opening, the caller holds a read receipt for every message of the group |
| GroupListing.OpenedIdempotent | app/routers/groups.py:477-494 | opening the group again, at any later time, adds no receipt |
| GroupListing.SameMessagesSameThread | app/routers/groups.py:464-475 | the thread of a group depends on the message table only, so writing receipts leaves it unchanged |
| Blocking.Target | app/routers/block_users.py:29-32 | the id when it names a user; otherwise 404 with the route's detail |
| Blocking.BlockGuard | app/routers/block_users.py:23-40 | "User not found", then "User to block not found", then "You cannot block yourself"; otherwise the two ids |
| Blocking.BlockUser | app/routers/block_users.py:17-71 | a refused request changes nothing; an existing block answers "already blocked" and changes nothing; otherwise the edge is stored and the target is told |
| Blocking.BlockAddsOneEdge | app/routers/block_users.py:42-63 | a block adds exactly its edge, keeps the others, leaves the reverse edge alone, and is undone by the unblock |
| Blocking.UnblockGuard | app/routers/block_users.py:79-88 | "User not found", then "User to unblock not found"; otherwise the two ids |
| Blocking.UnblockUser | app/routers/block_users.py:73-114 | a refused request changes nothing; a missing block answers "not blocked"; otherwise the edge is deleted and the target is told |
| Blocking.UnblockRemovesOneEdge | app/routers/block_users.py:90-106 | an unblock removes exactly its edge, keeps the others, and is idempotent |
| Blocking.CheckIfBlocked | app/routers/block_users.py:116-154 | the two errors in order; otherwise whether the caller blocks the target and whether the target blocks the caller |
| Blocking.BlockSeenFromBothSides | app/routers/block_users.py:116-154 | after a block, the blocker sees the target as blocked and the target sees the blocker as blocking |
| Blocking.BlockedBy | app/routers/block_users.py:168-173 | exactly the users the caller blocks |
| Blocking.BlockedEntryOf | app/routers/block_users.py:175-189 | the entry carries the user's fields, the block time, and the avatar or the default |
| Blocking.GetBlockedUsers | app/routers/block_users.py:156-191 | "User not found" for an unknown caller; otherwise one entry per blocked user |
| Blocking.BlockedEntries | app/routers/block_users.py:176-189 | the loop builds, in list order, the entry of each listed user: the default picture for a missing avatar and the time of the block |
| Blocking.BlockedListIsOutgoingEdges | app/routers/block_users.py:156-191 | the listed users are exactly those the caller blocks, each once, in ascending id |
| Translation.Caller | app/routers/translate.py:33-38 | the caller's row, or 401 "Invalid authentication credentials" |
| Translation.Row | app/routers/translate.py:56-57 | the message row exactly when the id names one |
| Translation.WithTranslation | app/routers/translate.py:90-98 | the row shows the translation, keeps the first original text across repeated translations, and nothing else changes |
| Translation.WithOriginal | app/routers/translate.py:144-149 | the row shows its original text again with the translation marks cleared, and nothing else changes |
| Translation.TranslateGuard | app/routers/translate.py:31-62 | 401, then 400 for a missing text or language, then 503 without a service key, then 404 for an unknown message id; otherwise the row to update, if any |
| Translation.TranslateText | app/routers/translate.py:25-112 | a refused request changes nothing; a service refusal or failure surfaces as 500 "Translation failed: ..." and changes nothing; a non-empty translation of a given message is stored |
| Translation.RestoreGuard | app/routers/translate.py:121-142 | 401, then 404, then 400 unless the message is translated and has its original text |
| Translation.RestoreOriginalText | app/routers/translate.py:114-157 | a refused request changes nothing; otherwise the original text is back and the reply carries both texts |
| Translation.TranslateThenRestore | app/routers/translate.py:90-149 | restoring after one or two translations gives back the text first written |
| Translation.RestoreNeedsATranslation | app/routers/translate.py:138-142 | an untranslated message is never restored |
| Views.UserRow | app/routers/views.py:31-33 | the user row exactly when the id names one; otherwise 404 "User not found" |
| Views.OrElse | app/routers/views.py:38-43 | Python's `x or fallback` on an optional text |
| Views.UserProfile | app/routers/views.py:28-45 | 404 for an unknown id; otherwise the profile with each empty field replaced by its fallback, and "online" exactly when the row says so |
| Views.UserStatus | app/routers/views.py:47-61 | 404 for an unknown id; otherwise "online" exactly when the user has a registered socket or the row says online |
| Views.StatusAtLeastProfile | app/routers/views.py:44-55 | a user the profile shows online the status route shows online too, and without empty registry entries the status is the live presence or the row flag |
| Views.PageRooms | app/routers/views.py:72-76 | exactly the existing rooms the caller belongs to |
| Views.CardOf | app/routers/views.py:80-156 | a card, when there is one, is for its room |
| Views.CardOfShows | app/routers/views.py:80-156 | a direct room with no other member and a group room with no group row get no card; otherwise the unread count, the other member with the lowest id and their live status, the member count, and the latest message or the empty-room text |
| Views.PageRoomList | app/routers/views.py:72-80 | the caller's rooms once each, in ascending id |
| Views.ChatPage | app/routers/views.py:63-167 | "User not found" for an unknown caller; otherwise the cards of the caller's rooms, unsorted |
| Views.BuildCards | app/routers/views.py:78-156 | the loop over the rooms appends, in list order, exactly the cards the rooms have |
| Views.CardsSnoc | app/routers/views.py:80-156 | one more room adds its card, if it has one |
| Views.CardsComeFromRooms | app/routers/views.py:80-156 | every card is the card of a listed room |
| Views.CardsCoverKeptRooms | app/routers/views.py:80-156 | every listed room with a card shows it |
| Views.CardsInRoomOrder | app/routers/views.py:158-160 | the cards keep the room order, since the page does not sort them |
| Auth.Expiring | app/routers/auth.py:48-53 | the claims gain an "exp" at the given offset and keep every other claim |
| Auth.AccessClaims | app/routers/auth.py:47-55 | a given non-zero lifetime sets the expiry; none, or a zero one, gives 15 minutes |
| Auth.RegisterRefusal | app/routers/auth.py:97-116 | "Passwords do not match", then "Username already exists", then "Email already registered"; no refusal exactly when all three checks pass |
| Auth.Registered | app/routers/auth.py:117-118 | the new row has the next id, the username as full name, the hash, and is offline |
| Auth.Register | app/routers/auth.py:94-122 | a refusal shows the form with its message and changes nothing; otherwise the user is stored and the browser goes to /login |
| Auth.RegisterKeepsUnique | app/routers/auth.py:103-120 | an accepted sign-up keeps usernames and emails unique, and the name finds the new row |
| Auth.Authenticate | app/routers/auth.py:57-63 | the user exactly when the name is known and the password checks against the stored hash |
| Auth.Session.constructor | app/routers/auth.py:85-86 | a new session holds nothing |
| Auth.Session.Login | app/routers/auth.py:70-88 | a refused sign-in shows the form and leaves the session; otherwise the session gets the token and the username and the browser goes to /chat |
| Auth.Session.Logout | app/routers/auth.py:124-127 | the session is emptied and the browser goes to /login |
| Auth.LoginTokenExpiresInThirtyMinutes | app/routers/auth.py:79-82 | the sign-in token holds only the username and an expiry 1800 seconds on |
| BackendStore.Store.constructor | backend/database.py:15-44 | a fresh database holds no user, message or contact |
| BackendStore.AccountByName | backend/routes/utils.py:21-22 | a row with that username, or none exactly when no row has it |
| BackendStore.AccountByEmail | backend/routes/auth.py:122-123 | a row with that email, or none exactly when no row has it |
| BackendStore.CurrentUser | backend/routes.py:56-77 | 401 "Invalid authentication credentials" without a subject, 401 "User not found" for an unknown one; otherwise the row named by the token |
| BackendAuth.HexHasNoDollar | backend/routes/auth.py:40-42 | hex text never holds the '$' separator |
| BackendAuth.Hash | backend/routes/auth.py:39-42 | the stored form is "sha256", the salt and the digest joined by '$' |
| BackendAuth.Verify | backend/routes/auth.py:26-37 | true exactly when the stored text splits into three parts, the first "sha256", and the digest of salt and password is the third |
| BackendAuth.VerifyHash | backend/routes/auth.py:26-42 | a password verifies against its own hash, and another one exactly when its digest with that salt is the same |
| BackendAuth.VerifyNeedsThreeParts | backend/routes/auth.py:28-30 | a stored text without '$' never verifies |
| BackendAuth.RegisterRefusal | backend/routes/auth.py:113-127 | "Username already registered" first, then "Email already registered"; none exactly when both are free |
| BackendAuth.Register | backend/routes/auth.py:105-139 | a refusal changes nothing; otherwise one row with the next id and the hashed password |
| BackendAuth.RegisterKeepsUnique | backend/database.py:23-24 | an accepted sign-up keeps usernames and emails unique, and the name finds the new row |
| BackendAuth.Login | backend/routes/auth.py:144-165 | 401 with the route's detail exactly when the name is unknown or the password does not verify; otherwise a bearer token naming the user, expiring after the configured minutes |
| BackendAuth.RegisteredUserCanLogIn | backend/routes/auth.py:39-95 | with the fallback hasher, a registered user signs in with their password and the token names them |
| BackendChat.SendMessage | backend/routes/chat.py:11-26 | an unknown token changes nothing; otherwise one unread row with the body's fields under the next id, which is returned |
| BackendChat.SendAddsOneRow | backend/routes/chat.py:17-23 | a send adds exactly one row under a fresh id and keeps every other |
| BackendChat.EarlierOrSameIsTotal | backend/routes/chat.py:39 | ordering rows by timestamp text is a total preorder |
| BackendChat.PairRowsHoldThePair | backend/routes/chat.py:35-42 | the filtered rows are exactly the stored rows between the two names |
| BackendChat.GetMessages | backend/routes/chat.py:28-47 | an unknown token gives its error; otherwise the conversation of the caller with the contact |
| BackendChat.ConversationIsThePair | backend/routes/chat.py:35-44 | the conversation holds exactly the rows between the two names, in either direction, ordered by timestamp |
| BackendChat.PairRowsNone | backend/routes/chat.py:35-42 | no row between the two names gives an empty conversation |
| BackendChat.CounterpartsAreTheConversations | backend/routes/chat.py:56-67 | a name is listed exactly when some row is between it and the caller |
| BackendChat.GetContacts | backend/routes/chat.py:49-72 | an unknown token gives its error; otherwise exactly the names the caller has exchanged messages with |
| BackendChat.WithoutPair | backend/routes/chat.py:81-87 | exactly the rows not between the two names remain, unchanged |
| BackendChat.DeleteMessages | backend/routes/chat.py:74-93 | an unknown token changes nothing; otherwise the conversation's rows are deleted and the reply names the contact |
| BackendChat.DeleteEmptiesTheConversation | backend/routes/chat.py:74-93 | after the delete the conversation is empty from both sides, and deleting again changes nothing |
| BackendContacts.CardOf | backend/routes/contacts.py:30-36 | the card carries the contact's id, username and email |
| BackendContacts.ContactIds | backend/routes/contacts.py:17-25 | exactly the users the caller has a contact edge to, in ascending id |
| BackendContacts.CardsOf | backend/routes/contacts.py:29-38 | one card per contact, in order |
| BackendContacts.GetContacts | backend/routes/contacts.py:10-41 | an unknown token gives its error; otherwise the contact cards |
| BackendContacts.ContactListIsTheOutgoingEdges | backend/routes/contacts.py:10-41 | a user's card is listed exactly when the caller has an edge to them, in ascending id |
| BackendContacts.AddTarget | backend/routes/contacts.py:50-55 | a name with '@' is looked up as an email, any other as a username |
| BackendContacts.AddGuard | backend/routes/contacts.py:58-73 | "User not found", then "You cannot add yourself as a contact", then "User is already in your contacts"; otherwise the contact's id |
| BackendContacts.AddContact | backend/routes/contacts.py:43-88 | a refusal changes nothing; otherwise both directed edges are added |
| BackendContacts.RemoveGuard | backend/routes/contacts.py:100-104 | "User not found" for an unknown username; otherwise the contact's id |
| BackendContacts.RemoveContact | backend/routes/contacts.py:93-120 | a refusal changes nothing; otherwise both directed edges are removed |
| BackendContacts.AddRemoveKeepSymmetric | backend/routes/contacts.py:75-117 | adding or removing both edges keeps the relation symmetric, and removing undoes a fresh add |
| BackendContacts.AddThenBothSee | backend/routes/contacts.py:75-117 | after an add each side lists the other; after a remove neither does |
| Validation.Lower | app/static/js/validation.js:76 | `toLowerCase` on letters A-Z, every other character kept |
| Validation.ValidateEmailIgnoresCase | app/static/js/validation.js:74-77 | the email test gives the same answer on the lowered address, since lowering is idempotent |
| Validation.TrimmedLoginCheck | app/static/js/validation.js:19-32 | the sign-in form goes through exactly when the trimmed username and password are non-empty; otherwise "fill in all fields" |
| Validation.RegistrationGuards | app/static/js/validation.js:45-69 | the first failing guard decides: empty field, bad email, passwords differ, password under six characters; passes exactly when none fails |
| Validation.TrimmedCheckSeesTrimmedValues | app/static/js/validation.js:39-42 | surrounding white space never changes a verdict, and a passed sign-up has equal trimmed passwords of at least six characters |
| Validation.MatchedIsSimpleEmail | frontend/auth/validation.js:31 | what the computed test accepts matches the pattern |
| Validation.SimpleEmailIsMatched | frontend/auth/validation.js:31 | what the pattern matches the computed test accepts |
| Validation.MatchesSimpleEmailIsThePattern | validation.js:28 | the computed test accepts exactly the pattern's strings |
| Validation.RawRegistrationCheck | frontend/auth/validation.js:13-41 | the first failing guard decides: empty field, email not matching the pattern, passwords differ; passes exactly when none fails |
| Validation.RawLoginCheck | frontend/auth/validation.js:79-92 | the sign-in form goes through exactly when neither field is empty |
| Validation.RawCheckNeitherTrimsNorCounts | validation.js:10-58 | a blank username and a one-character password pass the raw check but not the trimmed one |
| Validation.RawPassesBlankForm | validation.js:21-58 | a one-space username with a one-character password, and a one-space login, pass the raw checks |
| Validation.TrimmedRefusesBlankForm | app/static/js/validation.js:19-69 | the same forms are refused by the trimmed checks with "fill in all fields" |
| ClientTranslations.Entries | app/static/js/translations.js:28-29 | nothing stored reads as no translations |
| ClientTranslations.Put | app/static/js/translations.js:32-37 | the new entry is present, replacing the message's old one; every other entry is kept |
| ClientTranslations.OlderFirstIsTotal | app/static/js/translations.js:46 | oldest first by timestamp is a total preorder |
| ClientTranslations.SavedIsBounded | app/static/js/translations.js:39-52 | at most 100 entries are kept; fewer are kept as they are; a longer list is cut to exactly 100 of its entries |
| ClientTranslations.SavedDropsTheOldest | app/static/js/translations.js:44-52 | no dropped entry is newer than a kept one |
| ClientTranslations.SavedKeepsTheNewEntry | app/static/js/translations.js:32-52 | the new entry survives when fewer than 100 were stored or it is newer than all of them |
| ClientTranslations.SavedKeepsOneEntryPerId | app/static/js/translations.js:32-52 | saving keeps one entry per message |
| ClientTranslations.Lookup | app/static/js/translations.js:64 | a stored entry of the message, or none exactly when the message has none |
| ClientTranslations.StoredTranslation | app/static/js/translations.js:59-65 | nothing stored gives none; otherwise the message's stored entry, if any |
| ClientTranslations.SaveThenRead | app/static/js/translations.js:27-65 | a saved translation reads back when it survives the cut |
| ClientTranslations.CacheKey | app/static/js/translations.js:68-70 | the text, a '|', then the language |
| ClientTranslations.CacheKeyInjective | app/static/js/translations.js:68-70 | with languages free of '|', different requests never share a cache key |
| ClientTranslations.TranslationClient.constructor | app/static/js/translations.js:20 | the cache starts empty over what the browser stored |
| ClientTranslations.TranslationClient.SaveTranslation | app/static/js/translations.js:27-56 | the store becomes the saved list with the new entry; the cache is untouched |
| ClientTranslations.TranslationClient.TranslateMessage | app/static/js/translations.js:73-121 | a cached text is returned and saved for a given message; a failed request returns null and changes nothing; a reply is cached, saved and returned |
| ClientTranslations.ReplyIsCached | app/static/js/translations.js:109 | a non-empty reply is a cache hit afterwards |
| ClientTranslations.Toggled | app/static/js/translations.js:358-386 | switches exactly when the text to switch to is present, showing it; otherwise nothing changes; the kept texts and the button's presence never change |
| ClientTranslations.ToggleKeepsConsistent | app/static/js/translations.js:358-386 | a consistent element stays consistent |
| ClientTranslations.ToggleTwiceRestores | app/static/js/translations.js:358-386 | with both texts present each toggle switches, and two toggles restore the element |
| ClientTranslations.MessageElement.constructor | app/static/js/translations.js:358-362 | the element holds the given view |
| ClientTranslations.MessageElement.ToggleOriginalText | app/static/js/translations.js:358-386 | the element becomes its toggled view |
| AdminPagination.RenderPagination | app/static/js/admin.js:549-579 | the loop renders exactly the pagination controls |
| AdminPagination.SlotsShape | app/static/js/admin.js:560-572 | buttons exactly for the first, last and neighbouring pages, active only on the current one; an ellipsis exactly two pages off where no button is; in increasing order |
| AdminPagination.ControlsShape | app/static/js/admin.js:549-579 | none for one page; "Previous" first exactly off the first page, "Next" last exactly off the last page; the buttons and ellipses as the window says |
| Common.Trim | app/routers/groups.py:131 | `strip()` and `trim()`: no white space is left at either end, and the result is empty exactly for a blank text |
| Common.TrimIdempotent | app/static/js/validation.js:39-42 | trimming twice is trimming once |
| Common.Split | app/routers/groups.py:131 | `split(sep)` gives at least one piece and no piece holds the separator |
| Common.SplitJoin | backend/routes/auth.py:28-32 | pieces without the separator, joined and split again, come back unchanged |
| Common.JoinSplit | backend/routes/auth.py:28-32 | a text split and joined again is the same text |
| Common.ParseDecimal | app/routers/groups.py:131 | `int()` reads a decimal numeral back as its number |
| Common.UnderscoreBetweenDigits | app/routers/groups.py:131 | `int()` skips a single underscore between digits: "1_2" reads as 12 |
| Common.DropUnderscores | app/routers/groups.py:131 | removing the underscores of a numeral leaves its digits, and a string of digits unchanged |
| Common.NextId | backend/database.py:22 | an inserted row's id is larger than every id in use |
| Common.Ascending | app/routers/groups.py:21-25 | the rows of a query, once each, in ascending id |
| Sorting.SortWith | app/routers/groups.py:195 | `list.sort` keeps the same rows, and orders them when the key order is a total preorder |
| Sorting.SortWithIsStable | app/routers/groups.py:195 | `list.sort` is stable: rows with equal keys keep the order they had |
| Sorting.InsertTies | app/routers/groups.py:195 | inserting a row puts it after every row with an equal key and leaves the other rows of each key in order |
| Sorting.StrLeTotal | backend/routes/chat.py:39 | any two timestamp texts compare one way or the other under string order |
| Sorting.StrLeTransitive | backend/routes/chat.py:39 | string order is transitive |
| Realtime.Hub.constructor | app/routers/websockets.py:21-26 | the registries and the outbox start empty over the given database |
| LegacyHub.Server.constructor | app/routers/chat/session.py:7-11 | the socket registry, both name maps and the outbox start empty over the given database |
| Schema.Db.constructor | app/database.py:29-142 | the database holds the given tables |

## Left out

- The socket transport is left out: accepting, receiving, JSON parsing, ping/pong and timeouts.
  Each sent frame is an outbox entry, and each close with code 1008 or 1011 (section 7.4.1 of RFC 6455) is a result value.
  The 1011 close of the chat endpoint skips the disconnect cleanup, which leaves the socket registered (`Realtime.Hub.FailChat`, `Realtime.ErrorCloseLeavesUserOnline`).
- Concurrency and async scheduling are left out: every handler and route is one atomic step over the state.
- SQLAlchemy and sqlite sessions are modelled as atomic map updates.
  sqlite errors that the backend reports as 500 "Database error" are not modelled.
  Only the visible partial commit of `create_group` is kept.
- Foreign calls become parameters: the DeepL request, JWT encoding and decoding, bcrypt, SHA-256 (FIPS 180-4), `os.urandom` and the clock.
  The model states what the routes do with the results.
- app/routers/session.py, which `app/routers/websockets.py` and `app/routers/groups.py` import, is not part of this model.
  Its token-to-user step is a partial function given as a parameter.
  The session lookup is modelled on the copy at app/routers/chat/session.py.
- `notify_block_status_change`, imported by app/routers/block_users.py, is not defined in the socket server shown.
  It is kept abstract: the model records which pair was notified, and with which flag.
- Timezones (pytz "Asia/Bishkek") are not modelled.
  Times are civil date-time fields, and the rendered text formats appear only where a label is compared or shown.
- The root redirect (app/routers/views.py:15-26) and the GET routes of the login and register pages only render or redirect, and are not modelled.
- `upload_group_avatar` writes files to disk and is not modelled.
- The statistics endpoints of app/routers/admin.py, and the chart rendering and fetch calls of app/static/js/admin.js, are not modelled.
- The fetch and DOM code of app/static/js/translations.js is not modelled: the language menus, button attachment and styles.
  Only the cache, the local-storage copy and the toggle are modelled.
- UI-only client files and migration scripts are not modelled.
- app/database.py declares neither `name` nor `created_at` on GroupChat (lines 101-106), though the group routes read and write both.
  The model gives the group_chats row both fields (`Schema.GroupChat`).
- backend/database.py does not create the contacts table, nor the status and profile_picture columns the routes read.
  The model gives them their evident shape: a set of (user_id, contact_id) pairs, and two optional columns.
- Rows of a query without ORDER BY, and the members of a Python set, come in ascending id order in the model.
  Rows whose ORDER BY key is equal, to the microsecond, keep that order too.
  Python's sort is stable, and the model's sort is proved stable (`Sorting.SortWithIsStable`).
- GetGroupDetails: the group member rows one request adds (`create_group`, `add_group_members`) share one instant `now` in the model.
  The source reads `datetime.utcnow()` once per row, so those rows get increasing microseconds in request order.
  The model therefore lists the members one request added in ascending user id, where the source lists them in the order of the request's id list.
- MarkRead: every row it marks gets the one instant `now` as its read_at.
  reset_unread_count (app/routers/utils.py:114-116) reads `datetime.now(...)` once per row, so the source's read_at values differ by microseconds, in the order the query returns the rows.
- ResetUnreadCount: it marks through MarkRead, so its rows share one read_at, as described for MarkRead.
- GetUserGroups, GetRoomMessages and PageIsNewest order rows by the stored timestamp to the microsecond.
  Message and group times that one request sets from a single clock reading share that reading, as in the source.
- Each frame handler of app/routers/websockets.py catches every exception and answers a generic error frame such as "Failed to update message".
  The only such failure the model keeps is the edit-window one listed under "Findings".
  Database errors and malformed frame values are not modelled.
- UpdateGuard: it is the intended five-minute window. As written, the age check raises for every edit past the owner check, and the model states that separately (`Realtime.UpdateGuardAsWritten`, see "Findings").
- HandleUpdate: it applies the intended window through UpdateGuard. As written, every owner's edit is answered "Failed to update message" (see "Findings").
- ParseInt accepts ASCII digits only, where Python's `int()` also reads digits of other scripts, such as Arabic-Indic digits.
  Underscores between digits are modelled (`Common.UnderscoreBetweenDigits`).
- GetDirectRoom: the lookup at app/routers/direct_messages.py:138-150 joins room_members a second time without an alias (`room_members.table`).
  The model reads it as the INTERSECT lookup that create_direct_room_by_username uses (lines 228-238): a non-group room both users belong to.
  As written, the query either fails to build or run, or filters a single membership row on both ids; in that case it never finds a room and opens a new one on every call.
  That as-written outcome is not modelled.
- OpenPairRoom: its reuse branch rests on the same reading of the unaliased join as GetDirectRoom.
- ExistingDirectRoom: it is the INTERSECT lookup. It stands in for the unaliased joins of get_direct_room and search_users, which as written do not compute it (see GetDirectRoom).
- SharedDirectRooms: it is faithful for create_direct_room_by_username. Under get_direct_room and search_users it carries the reading described for GetDirectRoom.
- Hit: `has_chat` and `room_id` come from the lookup at app/routers/direct_messages.py:393-405, which joins room_members twice without an alias.
  The model gives it the INTERSECT meaning, as for GetDirectRoom.
- SearchUsers: its `has_chat` and `room_id` rest on Hit's reading of the unaliased join.
  The name match is the LIKE pattern, wildcards included.
- UnreadDirectIds: it selects on `Message.recipient_id`, a column app/database.py does not declare.
  Against that file, the attribute access raises AttributeError.
  The model gives the column its evident meaning: the recipient of a direct message.
- MarkDirectReadEffect: it rests on the undeclared recipient_id column, as UnreadDirectIds does.
- MarkUnreadDirect: it selects through the undeclared recipient_id column, as UnreadDirectIds does.
- OpenDirectChat: as written against app/database.py, the unread query raises AttributeError (app/routers/chat/websockets.py:130-135).
  That happens right after the socket and the id maps are recorded.
  The exception leaves the handler with the socket still registered, and nothing is marked read or sent.
  The model follows the evident intent: it marks the messages read and sends the receipts.
- HandleText: `Message(recipient_id=…)` names a column app/database.py does not declare, and gives no room_id, which that file makes NOT NULL.
  As written, the constructor rejects the keyword and nothing is stored or sent.
  The model stores the row with recipient_id set and room_id null.
- DirectRow: it builds a row with the undeclared recipient_id and a null room_id, which app/database.py:88 forbids.
- The older socket server also imports GroupMessage and GroupMessageRead, as app/routers/groups.py does, though app/database.py declares neither.
  The model gives those tables the shape the routes use.
- In JavaScript, an object enumerates integer-like keys in ascending numeric order before other keys.
  The model enumerates the stored translations in insertion order.
  The JSON text in local storage is not modelled.
- Validation.ValidateEmail: the address pattern of app/static/js/validation.js is a parameter, not a regular expression.
- Validation.Lower lowers only the letters A-Z, where JavaScript's `toLowerCase` also lowers other scripts.
- Common.Trim removes only the six ASCII whitespace characters, where `str.strip()` and `String.prototype.trim()` also remove the other whitespace characters of Python and JavaScript, such as `\x1c`-`\x1f` for Python and the Unicode spaces for both.
- String length counts code points, not JavaScript's UTF-16 units.
- AdminPagination.RenderPagination: the HTML text is modelled as its list of controls.
  The page position an ellipsis carries is a model annotation; the markup shows only "...".
- The older socket server's helpers in app/routers/utils.py import the set-valued registry of app/routers/websockets.py but call `send_json` on its entries.
  They are modelled on the single-socket registry of the older server, the only one on which that call works.
- Auth.LoginTokenExpiresInThirtyMinutes: the lemma is about the claims only; the signed token text is not modelled.

## Findings

| source | as written | input that shows it | evidently intended | confidence | as-written member | corrected member |
|---|---|---|---|---|---|---|
| app/routers/websockets.py:490-493 | the age check subtracts the naive timestamp read back from the DateTime column from an aware Asia/Bishkek time; that raises TypeError, and the `except` at lines 533-535 answers "Failed to update message" | the sender edits, through "update_message", a message of theirs stored at this very instant | an owner may edit a message for five minutes after sending it | high, not executed | Realtime.UpdateGuardAsWritten, Realtime.FreshEditRefusedAsWritten | Realtime.UpdateGuard |
