/**
 * The records of the older client (src/types/index.ts). They differ from the
 * shared schema: a message does not carry the id of its room (a room holds its
 * messages), and neither users nor rooms have a creation time.
 */
module LegacyTypes {
  import opened Wrappers
  import opened Reactions
  import opened Kinds

  /** A user; times are milliseconds since the epoch. */
  datatype User = User(id: string, name: string, avatar: string, status: Status, lastSeen: int)

  /** A message; `kind` is the `type` field. */
  datatype Message = Message(
    id: string, content: string, userId: string, timestamp: int,
    edited: Option<bool>, reactions: seq<Reaction>, kind: MessageType)

  /** A chat room with the messages it holds. */
  datatype ChatRoom = ChatRoom(
    id: string, name: string, description: string, members: seq<string>,
    messages: seq<Message>, unreadCount: int, lastActivity: int, kind: RoomType)

  /** The client's whole state. */
  datatype AppState = AppState(
    currentUser: Option<User>, users: seq<User>, rooms: seq<ChatRoom>,
    activeRoomId: Option<string>, theme: Theme, isTyping: map<string, seq<string>>)

  function UserIdOf(u: User): string { u.id }
  function RoomIdOf(r: ChatRoom): string { r.id }
  function HasRoomId(id: string): ChatRoom -> bool { (r: ChatRoom) => r.id == id }
  function HasMessageId(id: string): Message -> bool { (m: Message) => m.id == id }
}
