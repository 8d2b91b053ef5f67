/**
 * The JSON frames of the real-time chat (app/routers/websockets.py): what a
 * client sends, what the server sends back or relays, and how a connection
 * attempt can be refused. Each outbound frame type is one constructor; its
 * fields are the keys of the JSON object.
 */
module Events {
  import opened Common
  import opened Schema

  /** The WebSocket close codes the endpoints use (section 7.4.1 of RFC 6455). */
  datatype CloseCode = PolicyViolation | UnexpectedCondition
  {
    function Code(): nat
    {
      match this
      case PolicyViolation => 1008
      case UnexpectedCondition => 1011
    }
  }

  /**
   * One frame received on the chat socket, with each key it may carry;
   * `None` stands for a key the client left out.
   */
  datatype Inbound = Inbound(
    kind: Option<string>,
    roomId: Option<nat>,
    content: Option<string>,
    tempId: Option<string>,
    messageIds: Option<seq<nat>>,
    status: Option<string>,
    messageId: Option<nat>,
    targetUserId: Option<nat>,
    sdp: Option<string>,
    callType: Option<string>,
    candidate: Option<string>)

  /** The `message` object of a chat frame. */
  datatype ChatPayload = ChatPayload(
    id: nat,
    content: string,
    senderId: nat,
    sender: string,
    senderName: string,
    roomId: nat,
    timestamp: DateTime,
    time: string,
    delivered: bool,
    read: bool,
    isGroup: bool,
    tempId: Option<string>)

  /** The `room` object of a new_room frame: one entry of the client's room list. */
  datatype RoomCard = RoomCard(
    id: nat,
    name: Option<string>,
    username: Option<string>,
    avatar: string,
    userId: Option<nat>,
    isGroup: bool,
    lastMessage: string,
    lastMessageTime: string,
    unreadCount: nat,
    status: Option<string>,
    description: Option<string>)

  datatype Event =
    | Error(error: string)
    | ChatMessage(message: ChatPayload)
    | SeenConfirmation(roomId: nat, messageIds: seq<nat>)
    | MessageRead(roomId: nat, readerId: nat, reader: string, messageIds: seq<nat>)
    | RoomMessagesRead(roomId: nat, readerId: nat, readerName: string, readAt: DateTime, messageIds: seq<nat>, totalRead: nat)
    | Typing(roomId: nat, userId: nat, username: string, status: string)
      /** The acknowledgement of an edit, to the editor. */
    | MessageUpdatedAck(messageId: nat, content: string, editedAt: DateTime, roomId: nat)
      /** The edit as relayed to the other members; it carries `edited: true`. */
    | MessageUpdated(messageId: nat, roomId: nat, content: string, edited: bool, editedAt: DateTime)
    | MessageDeleted(messageId: nat, roomId: nat, deletedBy: Option<string>)
    | CallOffer(roomId: nat, callerId: nat, callerName: string, callerFullName: string, sdp: string, callType: string)
    | CallStatus(status: string, reason: Option<string>)
    | CallResponse(roomId: nat, responderId: nat, responderName: string, status: string, answerSdp: Option<string>)
    | CallResponseSent(status: string, reason: Option<string>)
    | IceCandidate(fromUserId: nat, candidate: string)
    | Status(userId: nat, username: string, status: string)
    | NewRoom(room: RoomCard)
    | GroupDeleted(roomId: nat)
}
