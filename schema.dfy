/**
 * The shared data model of the chat (shared/schema.ts): the entities, the
 * field constraints the zod schemas place on them, the defaults they fill
 * in, and the insert shapes used to create records.
 */
module Schema {
  import opened Wrappers
  import opened Reactions
  import opened Kinds
  import Strings

  /** A user; times are milliseconds since the epoch. */
  datatype User = User(
    id: string, name: string, avatar: string, status: Status,
    lastSeen: int, createdAt: Option<int>)

  /** A message; `kind` is the schema's `type` field. */
  datatype Message = Message(
    id: string, content: string, userId: string, roomId: string, timestamp: int,
    edited: Option<bool>, reactions: seq<Reaction>, kind: MessageType)

  /** A chat room with the messages it holds. */
  datatype ChatRoom = ChatRoom(
    id: string, name: string, description: string, members: seq<string>,
    messages: seq<Message>, unreadCount: int, lastActivity: int, kind: RoomType,
    createdAt: Option<int>)

  /** The client's whole state. */
  datatype AppState = AppState(
    currentUser: Option<User>, users: seq<User>, rooms: seq<ChatRoom>,
    activeRoomId: Option<string>, theme: Theme, isTyping: map<string, seq<string>>)

  /** `insertUserSchema`: a user without `id` and `createdAt`. */
  datatype InsertUser = InsertUser(name: string, avatar: string, status: Status, lastSeen: int)

  /** `insertMessageSchema`: a message without `id`. */
  datatype InsertMessage = InsertMessage(
    content: string, userId: string, roomId: string, timestamp: int,
    edited: Option<bool>, reactions: seq<Reaction>, kind: MessageType)

  /** `insertChatRoomSchema`: a room without `id` and `createdAt`. */
  datatype InsertChatRoom = InsertChatRoom(
    name: string, description: string, members: seq<string>, messages: seq<Message>,
    unreadCount: int, lastActivity: int, kind: RoomType)

  // ---------------------------------------------------------------------------
  // Field constraints

  /** `z.string().min(1)` on a user name: at least one character, not trimmed first. */
  predicate ValidName(name: string) {
    |name| >= 1
  }

  /** `userSchema` (the avatar URL check is not part of this model). */
  predicate ValidUser(u: User) {
    ValidName(u.name)
  }

  /** `messageSchema`: non-empty content. */
  predicate ValidMessage(m: Message) {
    |m.content| >= 1
  }

  /** `chatRoomSchema`: non-empty name, non-negative unread count, valid messages. */
  predicate ValidRoom(r: ChatRoom) {
    && |r.name| >= 1
    && r.unreadCount >= 0
    && forall i :: 0 <= i < |r.messages| ==> ValidMessage(r.messages[i])
  }

  /** `appStateSchema`. */
  predicate ValidAppState(s: AppState) {
    && (s.currentUser.Some? ==> ValidUser(s.currentUser.value))
    && (forall i :: 0 <= i < |s.users| ==> ValidUser(s.users[i]))
    && (forall i :: 0 <= i < |s.rooms| ==> ValidRoom(s.rooms[i]))
  }

  /** A blank name passes `min(1)`: the schema does not trim. */
  lemma BlankNameAccepted()
    ensures ValidName(" ")
    ensures !ValidName("")
  {
  }

  // ---------------------------------------------------------------------------
  // Defaults

  /** `type` of a room defaults to public. */
  function RoomTypeOrDefault(t: Option<RoomType>): (r: RoomType)
    ensures t.None? ==> r == Public
    ensures t.Some? ==> r == t.value
  {
    t.GetOr(Public)
  }

  /** `unreadCount` defaults to 0. */
  function UnreadOrDefault(n: Option<int>): (r: int)
    ensures n.None? ==> r == 0
    ensures n.Some? ==> r == n.value
  {
    n.GetOr(0)
  }

  // ---------------------------------------------------------------------------
  // Insert schemas: records without the fields the store assigns

  /** The user created from an insert record, as `{ id, ...user, createdAt }` builds it. */
  function UserFromInsert(id: string, u: InsertUser, createdAt: Option<int>): (r: User)
    ensures r.id == id && r.createdAt == createdAt
  {
    User(id, u.name, u.avatar, u.status, u.lastSeen, createdAt)
  }

  /** `insertUserSchema`'s view of a user: `id` and `createdAt` omitted. */
  function InsertOfUser(u: User): InsertUser {
    InsertUser(u.name, u.avatar, u.status, u.lastSeen)
  }

  /** The message created from an insert record, as `{ id, ...message }` builds it. */
  function MessageFromInsert(id: string, m: InsertMessage): (r: Message)
    ensures r.id == id
  {
    Message(id, m.content, m.userId, m.roomId, m.timestamp, m.edited, m.reactions, m.kind)
  }

  /** `insertMessageSchema`'s view of a message: `id` omitted. */
  function InsertOfMessage(m: Message): InsertMessage {
    InsertMessage(m.content, m.userId, m.roomId, m.timestamp, m.edited, m.reactions, m.kind)
  }

  /** The room created from an insert record, as `{ id, ...room, createdAt }` builds it. */
  function RoomFromInsert(id: string, r: InsertChatRoom, createdAt: Option<int>): (c: ChatRoom)
    ensures c.id == id && c.createdAt == createdAt
  {
    ChatRoom(id, r.name, r.description, r.members, r.messages, r.unreadCount, r.lastActivity, r.kind, createdAt)
  }

  /** `insertChatRoomSchema`'s view of a room: `id` and `createdAt` omitted. */
  function InsertOfRoom(c: ChatRoom): InsertChatRoom {
    InsertChatRoom(c.name, c.description, c.members, c.messages, c.unreadCount, c.lastActivity, c.kind)
  }

  /** An insert record is exactly a record minus the omitted fields, in both directions. */
  lemma InsertRoundTrips(id: string, c: Option<int>, u: InsertUser, m: InsertMessage, r: InsertChatRoom,
                         user: User, msg: Message, room: ChatRoom)
    ensures InsertOfUser(UserFromInsert(id, u, c)) == u
    ensures UserFromInsert(user.id, InsertOfUser(user), user.createdAt) == user
    ensures InsertOfMessage(MessageFromInsert(id, m)) == m
    ensures MessageFromInsert(msg.id, InsertOfMessage(msg)) == msg
    ensures InsertOfRoom(RoomFromInsert(id, r, c)) == r
    ensures RoomFromInsert(room.id, InsertOfRoom(room), room.createdAt) == room
  {
  }

  /** `insertChatRoomSchema`'s constraints: those of the room on the fields it keeps. */
  predicate ValidInsertRoom(r: InsertChatRoom) {
    && |r.name| >= 1
    && r.unreadCount >= 0
    && forall i :: 0 <= i < |r.messages| ==> ValidMessage(r.messages[i])
  }

  /** An insert record is valid exactly when every room made from it is. */
  lemma InsertRoomValidity(id: string, r: InsertChatRoom, c: Option<int>)
    ensures ValidInsertRoom(r) <==> ValidRoom(RoomFromInsert(id, r, c))
  {
  }

  // ---------------------------------------------------------------------------
  // Parsing a request body with insertChatRoomSchema

  /** One step of a zod issue path: a property name or an array index. */
  datatype PathItem = Key(name: string) | Index(index: nat)

  /** A zod issue: where it is and what it says. */
  datatype Issue = Issue(path: seq<PathItem>, message: string)

  /**
   * A message inside a room creation request, before `messageSchema` fills
   * in `type`; `None` is a missing `type` property.
   */
  datatype MessageBody = MessageBody(
    id: string, content: string, userId: string, roomId: string, timestamp: int,
    edited: Option<bool>, reactions: seq<Reaction>, kind: Option<MessageType>)

  /** The fields of a room creation request; `None` is a missing property. */
  datatype RoomBody = RoomBody(
    name: Option<string>, description: Option<string>, members: Option<seq<string>>,
    messages: Option<seq<MessageBody>>, unreadCount: Option<int>, lastActivity: Option<int>,
    kind: Option<RoomType>)

  /** The issue zod reports for a missing required property. */
  function Missing(field: string): Issue {
    Issue([Key(field)], "Required")
  }

  /** `messageSchema` on a body message: the message, with `type` defaulting to text. */
  function FillMessage(m: MessageBody): (r: Message)
    ensures m.kind.None? ==> r.kind == Text
    ensures m.kind.Some? ==> r.kind == m.kind.value
    ensures BodyOfMessage(r) == m.(kind := Some(r.kind))
  {
    Message(m.id, m.content, m.userId, m.roomId, m.timestamp, m.edited, m.reactions,
            if m.kind.Some? then m.kind.value else Text)
  }

  /** The body message that spells out every field of a message. */
  function BodyOfMessage(m: Message): MessageBody {
    MessageBody(m.id, m.content, m.userId, m.roomId, m.timestamp, m.edited, m.reactions, Some(m.kind))
  }

  /** Every body message filled in, in order. */
  function FillMessages(ms: seq<MessageBody>): (r: seq<Message>)
    ensures |r| == |ms|
    ensures forall i :: 0 <= i < |ms| ==> r[i] == FillMessage(ms[i])
  {
    seq(|ms|, i requires 0 <= i < |ms| => FillMessage(ms[i]))
  }

  /** The issues of the messages from index `from` on, in order. */
  function MessageIssues(ms: seq<MessageBody>, from: nat): (r: seq<Issue>)
    ensures r == [] <==> forall i :: 0 <= i < |ms| ==> ValidMessage(FillMessage(ms[i]))
    ensures forall k :: 0 <= k < |r| ==>
      exists i :: 0 <= i < |ms| && !ValidMessage(FillMessage(ms[i])) &&
        r[k] == Issue([Key("messages"), Index(from + i), Key("content")], "Message content is required")
    decreases |ms|
  {
    if ms == [] then []
    else
      var head := if |ms[0].content| >= 1 then []
                  else [Issue([Key("messages"), Index(from), Key("content")], "Message content is required")];
      var rest := MessageIssues(ms[1..], from + 1);
      assert forall k :: 0 <= k < |rest| ==>
        exists i :: 0 <= i < |ms| && !ValidMessage(FillMessage(ms[i])) &&
          rest[k] == Issue([Key("messages"), Index(from + i), Key("content")], "Message content is required")
      by {
        forall k | 0 <= k < |rest|
          ensures exists i :: (0 <= i < |ms| && !ValidMessage(FillMessage(ms[i])) &&
            rest[k] == Issue([Key("messages"), Index(from + i), Key("content")], "Message content is required"))
        {
          var j :| 0 <= j < |ms[1..]| && !ValidMessage(FillMessage(ms[1..][j])) &&
            rest[k] == Issue([Key("messages"), Index(from + 1 + j), Key("content")], "Message content is required");
          assert ms[j + 1] == ms[1..][j];
        }
      }
      head + rest
  }

  /** Every issue of a room body, in the order of the schema's properties. */
  function RoomIssues(b: RoomBody): seq<Issue> {
    (match b.name
     case None => [Missing("name")]
     case Some(n) => if |n| >= 1 then [] else [Issue([Key("name")], "Room name is required")])
    + (if b.description.None? then [Missing("description")] else [])
    + (if b.members.None? then [Missing("members")] else [])
    + (match b.messages
       case None => [Missing("messages")]
       case Some(ms) => MessageIssues(ms, 0))
    + (match b.unreadCount
       case Some(n) => if n >= 0 then [] else [Issue([Key("unreadCount")], "Number must be greater than or equal to 0")]
       case None => [])
    + (if b.lastActivity.None? then [Missing("lastActivity")] else [])
  }

  /**
   * `insertChatRoomSchema.parse`: the insert record with defaults filled in,
   * at the room and in each nested message, or every issue found.
   */
  function ParseInsertRoom(b: RoomBody): (r: Result<InsertChatRoom, seq<Issue>>)
    ensures r.Ok? <==>
      && b.name.Some? && |b.name.value| >= 1
      && b.description.Some? && b.members.Some? && b.lastActivity.Some?
      && b.messages.Some? && (forall i :: 0 <= i < |b.messages.value| ==> |b.messages.value[i].content| >= 1)
      && (b.unreadCount.Some? ==> b.unreadCount.value >= 0)
    ensures r.Ok? ==> ValidInsertRoom(r.value)
    ensures r.Ok? ==> r.value == InsertChatRoom(
      b.name.value, b.description.value, b.members.value, FillMessages(b.messages.value),
      UnreadOrDefault(b.unreadCount), b.lastActivity.value, RoomTypeOrDefault(b.kind))
    ensures r.Err? ==> |r.error| >= 1
  {
    var issues := RoomIssues(b);
    if issues == [] then
      Ok(InsertChatRoom(
        b.name.value, b.description.value, b.members.value, FillMessages(b.messages.value),
        UnreadOrDefault(b.unreadCount), b.lastActivity.value, RoomTypeOrDefault(b.kind)))
    else Err(issues)
  }

  /** The request body that spells out every field of an insert record. */
  function BodyOf(r: InsertChatRoom): RoomBody {
    RoomBody(Some(r.name), Some(r.description), Some(r.members),
             Some(seq(|r.messages|, i requires 0 <= i < |r.messages| => BodyOfMessage(r.messages[i]))),
             Some(r.unreadCount), Some(r.lastActivity), Some(r.kind))
  }

  /** A record's full body parses back to the record exactly when the record is valid. */
  lemma ParseRoundTrip(r: InsertChatRoom)
    ensures ParseInsertRoom(BodyOf(r)).Ok? <==> ValidInsertRoom(r)
    ensures ValidInsertRoom(r) ==> ParseInsertRoom(BodyOf(r)) == Ok(r)
  {
    var bodies := BodyOf(r).messages.value;
    forall i | 0 <= i < |r.messages|
      ensures FillMessage(bodies[i]) == r.messages[i]
    {
      assert bodies[i] == BodyOfMessage(r.messages[i]);
    }
    assert FillMessages(bodies) == r.messages;
  }

  /**
   * The defaults: leaving out `unreadCount` and `type` parses, with the same
   * outcome and the same issues, as giving 0 and public.
   */
  lemma ParseFillsDefaults(b: RoomBody)
    ensures ParseInsertRoom(b.(unreadCount := None, kind := None)) ==
            ParseInsertRoom(b.(unreadCount := Some(0), kind := Some(Public)))
  {
  }

  /**
   * The nested default: a message of the body without `type` parses, with the
   * same outcome and the same issues, as one whose `type` is text.
   */
  lemma ParseFillsMessageType(b: RoomBody, i: nat)
    requires b.messages.Some? && i < |b.messages.value| && b.messages.value[i].kind.None?
    ensures var given := b.(messages := Some(b.messages.value[i := b.messages.value[i].(kind := Some(Text))]));
      ParseInsertRoom(b) == ParseInsertRoom(given)
  {
    var ms := b.messages.value;
    var ms' := ms[i := ms[i].(kind := Some(Text))];
    MessageIssuesIgnoreType(ms, ms', 0);
    assert FillMessages(ms) == FillMessages(ms');
  }

  /** The issues of body messages do not depend on their `type`. */
  lemma {:induction false} MessageIssuesIgnoreType(ms: seq<MessageBody>, ms': seq<MessageBody>, from: nat)
    requires |ms| == |ms'|
    requires forall i :: 0 <= i < |ms| ==> ms'[i].content == ms[i].content
    ensures MessageIssues(ms, from) == MessageIssues(ms', from)
    decreases |ms|
  {
    if ms != [] {
      MessageIssuesIgnoreType(ms[1..], ms'[1..], from + 1);
    }
  }

  // ---------------------------------------------------------------------------
  // Reaction updates on one message, shared by the store and the client

  /** The toggle of the (userId, emoji) pair on one message. */
  function Toggled(userId: string, emoji: string, now: int): Message -> Message {
    (m: Message) => m.(reactions := TogglePair(m.reactions, userId, emoji, now))
  }

  /** The removal of the (userId, emoji) pair from one message. */
  function Removed(userId: string, emoji: string): Message -> Message {
    (m: Message) => m.(reactions := RemovePair(m.reactions, userId, emoji))
  }

  // ---------------------------------------------------------------------------
  // The id tests of `find`, `filter` and `map`

  function UserIdOf(u: User): string { u.id }
  function RoomIdOf(r: ChatRoom): string { r.id }

  function HasUserId(id: string): User -> bool { (u: User) => u.id == id }
  function HasRoomId(id: string): ChatRoom -> bool { (r: ChatRoom) => r.id == id }
  function HasMessageId(id: string): Message -> bool { (m: Message) => m.id == id }
  function InRoom(roomId: string): Message -> bool { (m: Message) => m.roomId == roomId }

  const PhotoBase: string := "https://images.pexels.com/photos/"
  const CropQuery: string := ".jpeg?auto=compress&cs=tinysrgb&w=64&h=64&fit=crop"

  /** The 64-pixel square crop of a Pexels photo, the avatar of every sample user. */
  function Avatar(photo: string): string {
    PhotoBase + photo + "/pexels-photo-" + photo + CropQuery
  }
}
