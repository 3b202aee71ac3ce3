/**
 * The REST handlers of server/routes.ts: each one checks the request fields,
 * calls the store and picks the status of the JSON answer. The answer is
 * `{ success, data }` with status 200, or `{ success: false, error }` with
 * 400, 404 or 500 (plus `details` for a validation error).
 */
module Routes {
  import opened Wrappers
  import opened Seqs
  import opened Sorting
  import opened Strings
  import opened Reactions
  import opened Kinds
  import opened Schema
  import opened StoreQueries
  import opened Storage

  datatype Payload =
    | UserData(user: User)
    | UserList(users: seq<User>)
    | RoomData(room: ChatRoom)
    | RoomList(rooms: seq<ChatRoom>)
    | MessageData(message: Message)
    | MessageList(messages: seq<Message>)

  /** The status and JSON body of an answer. */
  datatype Response = Response(
    status: int, success: bool, data: Option<Payload>, error: Option<string>,
    details: Option<seq<Issue>>)

  /** What a handler can throw: a zod validation error with its issues, or anything else. */
  datatype Fault = ZodError(issues: seq<Issue>) | OtherFault

  /** The result of `parseInt` on a query value: an integer or NaN. */
  datatype Parsed = NaN | Int(value: int)

  /** The integer a query value parses to, `d` when it is absent; NaN is read as 0, as `slice` reads it. */
  function IntOr(p: Option<Parsed>, d: int): int {
    match p
    case None => d
    case Some(NaN) => 0
    case Some(Int(v)) => v
  }

  function Success(p: Payload): Response {
    Response(200, true, Some(p), None, None)
  }

  function Failure(status: int, message: string): Response {
    Response(status, false, None, Some(message), None)
  }

  /**
   * The answer convention every handler keeps: `success` exactly on status
   * 200, data only on success, an error message otherwise, and details only
   * with status 400.
   */
  predicate WellFormed(r: Response) {
    && (r.success <==> r.status == 200)
    && (r.success ==> r.data.Some? && r.error.None? && r.details.None?)
    && (!r.success ==> r.data.None? && r.error.Some? && (r.status == 400 || r.status == 404 || r.status == 500))
    && (r.details.Some? ==> r.status == 400)
  }

  /** JavaScript truthiness of an optional string field: present and not empty. */
  predicate Truthy(v: Option<string>) {
    v.Some? && v.value != ""
  }

  /** `handleError`: a validation error is a 400 with its issues, anything else a 500. */
  function HandleError(e: Fault): (r: Response)
    ensures WellFormed(r) && !r.success
    ensures r.status == 400 <==> e.ZodError?
    ensures e.ZodError? ==> r.error == Some("Validation error") && r.details == Some(e.issues)
    ensures e.OtherFault? ==> r.status == 500 && r.error == Some("Internal server error") && r.details.None?
  {
    match e
    case ZodError(issues) => Response(400, false, None, Some("Validation error"), Some(issues))
    case OtherFault => Failure(500, "Internal server error")
  }

  /** The record `POST /users/login` creates: trimmed name, status online, seen now. */
  function LoginRecord(name: string, avatar: string, now: int): (u: InsertUser)
    ensures u.status == Online && u.lastSeen == now && u.avatar == avatar
    ensures u.name == Trim(name)
  {
    InsertUser(Trim(name), avatar, Online, now)
  }

  /**
   * `POST /users/login`: 400 and no change when name or avatar is missing or
   * empty; otherwise a new user is always appended (there is no lookup of an
   * existing user with that name).
   */
  method Login(store: MemStorage, name: Option<string>, avatar: Option<string>, now: nat, random: nat)
    returns (r: Response)
    requires random < 1000
    modifies store
    ensures WellFormed(r)
    ensures r.status == 400 <==> !(Truthy(name) && Truthy(avatar))
    ensures r.status == 400 ==>
      && r.error == Some("Name and avatar are required")
      && store.users == old(store.users) && store.rooms == old(store.rooms) && store.messages == old(store.messages)
    ensures r.status != 400 ==>
      && r.status == 200
      && var u := UserFromInsert(GenerateId("user", now, random), LoginRecord(name.value, avatar.value, now), Some(now));
      && r.data == Some(UserData(u))
      && store.users == old(store.users) + [u]
      && store.rooms == old(store.rooms) && store.messages == old(store.messages)
  {
    if !Truthy(name) || !Truthy(avatar) {
      return Failure(400, "Name and avatar are required");
    }
    var user := store.CreateUser(LoginRecord(name.value, avatar.value, now), now, random);
    r := Success(UserData(user));
  }

  /**
   * The name check of the login route looks at the raw name, the stored name
   * is trimmed: a name of spaces passes and is stored empty, which the user
   * schema would refuse.
   */
  lemma BlankNamePassesLogin(name: string)
    requires name != [] && forall i :: 0 <= i < |name| ==> IsWhitespace(name[i])
    ensures Truthy(Some(name))
    ensures LoginRecord(name, "a", 0).name == ""
    ensures !ValidName(LoginRecord(name, "a", 0).name)
  {
    TrimBlank(name);
  }

  /** `GET /users`. */
  function UsersRoute(store: MemStorage): (r: Response)
    reads store
    ensures WellFormed(r) && r.data == Some(UserList(store.users))
  {
    Success(UserList(store.GetUsers()))
  }

  /** `GET /users/:id`: 404 exactly when no user has that id. */
  function UserRoute(store: MemStorage, id: string): (r: Response)
    reads store
    ensures WellFormed(r)
    ensures r.status == 404 <==> forall i :: 0 <= i < |store.users| ==> store.users[i].id != id
    ensures r.status == 200 <==> exists i :: 0 <= i < |store.users| && store.users[i].id == id
    ensures r.status == 404 ==> r.error == Some("User not found")
    ensures r.success ==> exists k :: FirstMatch(store.users, HasUserId(id), k) && r.data == Some(UserData(store.users[k]))
  {
    match store.GetUserById(id)
    case None => Failure(404, "User not found")
    case Some(u) => Success(UserData(u))
  }

  /**
   * `PUT /users/:id/status`: 404 exactly when no user has that id, and then
   * nothing changes; otherwise the updated user.
   */
  method StatusRoute(store: MemStorage, id: string, status: Status, now: int) returns (r: Response)
    modifies store
    ensures WellFormed(r)
    ensures r.status == 404 <==> forall i :: 0 <= i < |old(store.users)| ==> old(store.users)[i].id != id
    ensures r.status == 200 <==> exists i :: 0 <= i < |old(store.users)| && old(store.users)[i].id == id
    ensures r.status == 404 ==> r.error == Some("User not found") && store.users == old(store.users)
    ensures store.users == UpdateFirst(old(store.users), HasUserId(id), WithStatus(status, now))
    ensures store.rooms == old(store.rooms) && store.messages == old(store.messages)
    ensures r.success ==> r.data.value.UserData? && r.data.value.user.id == id && r.data.value.user.status == status
    ensures r.success ==> exists k :: FirstMatch(old(store.users), HasUserId(id), k) && r.data == Some(UserData(store.users[k]))
  {
    var user := store.UpdateUserStatus(id, status, now);
    if user.None? {
      return Failure(404, "User not found");
    }
    r := Success(UserData(user.value));
  }

  /** `GET /rooms`. */
  function RoomsRoute(store: MemStorage): (r: Response)
    reads store
    ensures WellFormed(r) && r.data.Some? && r.data.value.RoomList?
    ensures |r.data.value.rooms| == |store.rooms|
    ensures forall i :: 0 <= i < |store.rooms| ==> Denormalized(r.data.value.rooms[i], store.rooms[i], store.messages)
  {
    Success(RoomList(store.GetRooms()))
  }

  /** `GET /rooms/:id`: 404 exactly when no room has that id. */
  function RoomRoute(store: MemStorage, id: string): (r: Response)
    reads store
    ensures WellFormed(r)
    ensures r.status == 404 <==> forall i :: 0 <= i < |store.rooms| ==> store.rooms[i].id != id
    ensures r.status == 200 <==> exists i :: 0 <= i < |store.rooms| && store.rooms[i].id == id
    ensures r.status == 404 ==> r.error == Some("Room not found")
    ensures r.success ==> r.data.value.RoomData? && r.data.value.room.id == id
    ensures r.success ==> exists k :: FirstMatch(store.rooms, HasRoomId(id), k)
                                      && Denormalized(r.data.value.room, store.rooms[k], store.messages)
  {
    match store.GetRoomById(id)
    case None => Failure(404, "Room not found")
    case Some(room) => Success(RoomData(room))
  }

  /**
   * `POST /rooms`: a body that `insertChatRoomSchema` rejects is a 400 with
   * the issues and changes nothing; otherwise the room is appended.
   */
  method CreateRoomRoute(store: MemStorage, body: RoomBody, now: nat, random: nat) returns (r: Response)
    requires random < 1000
    modifies store
    ensures WellFormed(r)
    ensures r.status == 400 <==> ParseInsertRoom(body).Err?
    ensures r.status == 400 ==>
      && r.details == Some(ParseInsertRoom(body).error)
      && store.rooms == old(store.rooms)
    ensures r.status != 400 ==>
      && r.status == 200
      && var room := RoomFromInsert(GenerateId("room", now, random), ParseInsertRoom(body).value, Some(now));
      && r.data == Some(RoomData(room))
      && store.rooms == old(store.rooms) + [room]
    ensures store.users == old(store.users) && store.messages == old(store.messages)
  {
    match ParseInsertRoom(body)
    case Err(issues) =>
      r := HandleError(ZodError(issues));
    case Ok(record) =>
      var room := store.CreateRoom(record, now, random);
      r := Success(RoomData(room));
  }

  /** The record `POST /rooms/:roomId/messages` creates: trimmed content, no reactions, text. */
  function PostedMessage(content: string, userId: string, roomId: string, now: int): (m: InsertMessage)
    ensures m.content == Trim(content) && m.userId == userId && m.roomId == roomId
    ensures m.timestamp == now && m.reactions == [] && m.kind == Text && m.edited.None?
  {
    InsertMessage(Trim(content), userId, roomId, now, None, [], Text)
  }

  /**
   * `POST /rooms/:roomId/messages`: 400 and no change when content or userId
   * is missing or empty; otherwise the message is appended whether or not a
   * room has that id, and the room's activity is marked (twice, at the same
   * time, which is marking it once).
   */
  method PostMessageRoute(store: MemStorage, roomId: string, content: Option<string>, userId: Option<string>,
                          now: nat, random: nat) returns (r: Response)
    requires random < 1000
    modifies store
    ensures WellFormed(r)
    ensures r.status == 400 <==> !(Truthy(content) && Truthy(userId))
    ensures r.status == 400 ==>
      && r.error == Some("Content and userId are required")
      && store.users == old(store.users) && store.rooms == old(store.rooms) && store.messages == old(store.messages)
    ensures r.status != 400 ==>
      && r.status == 200
      && var m := MessageFromInsert(GenerateId("msg", now, random), PostedMessage(content.value, userId.value, roomId, now));
      && r.data == Some(MessageData(m))
      && store.messages == old(store.messages) + [m]
      && store.rooms == UpdateFirst(old(store.rooms), HasRoomId(roomId), Touched(now))
    ensures store.users == old(store.users)
    ensures old(store.ReactionsUnique()) ==> store.ReactionsUnique()
  {
    if !Truthy(content) || !Truthy(userId) {
      return Failure(400, "Content and userId are required");
    }
    var message := store.CreateMessage(PostedMessage(content.value, userId.value, roomId, now), now, random);
    store.UpdateRoomActivity(roomId, now);
    TouchTwice(old(store.rooms), roomId, now);
    r := Success(MessageData(message));
  }

  /** Content made only of whitespace passes the check of the message route and is stored empty. */
  lemma BlankContentPassesPost(content: string, userId: string, roomId: string, now: int)
    requires content != [] && forall i :: 0 <= i < |content| ==> IsWhitespace(content[i])
    ensures Truthy(Some(content))
    ensures PostedMessage(content, userId, roomId, now).content == ""
  {
    TrimBlank(content);
  }

  /**
   * The page `GET /rooms/:roomId/messages` answers: `parseInt` of the query
   * values (50 and 0 when absent). A NaN makes the end of the slice NaN,
   * which `slice` reads as 0, so the page is empty.
   */
  function PageOf(store: MemStorage, roomId: string, limit: Option<Parsed>, offset: Option<Parsed>): (r: seq<Message>)
    reads store
    ensures forall i :: 0 <= i < |r| ==> r[i] in store.messages && r[i].roomId == roomId
    ensures forall i, j :: 0 <= i < j < |r| ==> r[i].timestamp <= r[j].timestamp
    ensures (limit == Some(NaN) || offset == Some(NaN)) ==> r == []
    ensures limit.None? && offset.None? ==> r == store.GetMessagesByRoomId(roomId, None, None) && |r| <= 50
    ensures limit != Some(NaN) && offset != Some(NaN) ==>
      r == MessagesPage(store.messages, roomId, IntOr(limit, 50), IntOr(offset, 0))
  {
    if limit == Some(NaN) || offset == Some(NaN) then
      NaNPage(store.messages, roomId, IntOr(offset, 0))
    else
      MessagesPage(store.messages, roomId, IntOr(limit, 50), IntOr(offset, 0))
  }

  /** `GET /rooms/:roomId/messages`: always 200 with the page. */
  function MessagesRoute(store: MemStorage, roomId: string, limit: Option<Parsed>, offset: Option<Parsed>): (r: Response)
    reads store
    ensures WellFormed(r) && r.data == Some(MessageList(PageOf(store, roomId, limit, offset)))
  {
    Success(MessageList(PageOf(store, roomId, limit, offset)))
  }

  /**
   * `POST /messages/:messageId/reactions`: 400 on a missing or empty emoji or
   * userId, 404 when no message has that id, and otherwise the toggle.
   */
  method AddReactionRoute(store: MemStorage, messageId: string, emoji: Option<string>, userId: Option<string>, now: int)
    returns (r: Response)
    modifies store
    ensures WellFormed(r)
    ensures r.status == 400 <==> !(Truthy(emoji) && Truthy(userId))
    ensures r.status == 400 ==> r.error == Some("Emoji and userId are required") && store.messages == old(store.messages)
    ensures r.status == 404 <==> Truthy(emoji) && Truthy(userId) && FindIndex(old(store.messages), HasMessageId(messageId)).None?
    ensures r.status == 404 ==> r.error == Some("Message not found") && store.messages == old(store.messages)
    ensures r.status == 200 <==> Truthy(emoji) && Truthy(userId) && FindIndex(old(store.messages), HasMessageId(messageId)).Some?
    ensures r.success ==> store.messages == UpdateFirst(old(store.messages), HasMessageId(messageId), Toggled(userId.value, emoji.value, now))
    ensures r.success ==> exists k :: FirstMatch(old(store.messages), HasMessageId(messageId), k)
                                      && r.data == Some(MessageData(store.messages[k]))
    ensures r.success ==> r.data.value.MessageData? && r.data.value.message.id == messageId
    ensures store.users == old(store.users) && store.rooms == old(store.rooms)
    ensures old(store.ReactionsUnique()) ==> store.ReactionsUnique()
  {
    if !Truthy(emoji) || !Truthy(userId) {
      return Failure(400, "Emoji and userId are required");
    }
    var message := store.AddReaction(messageId, emoji.value, userId.value, now);
    if message.None? {
      return Failure(404, "Message not found");
    }
    r := Success(MessageData(message.value));
  }

  /**
   * `DELETE /messages/:messageId/reactions`: the same checks, and otherwise
   * the pair is removed (never added).
   */
  method RemoveReactionRoute(store: MemStorage, messageId: string, emoji: Option<string>, userId: Option<string>)
    returns (r: Response)
    modifies store
    ensures WellFormed(r)
    ensures r.status == 400 <==> !(Truthy(emoji) && Truthy(userId))
    ensures r.status == 400 ==> r.error == Some("Emoji and userId are required") && store.messages == old(store.messages)
    ensures r.status == 404 <==> Truthy(emoji) && Truthy(userId) && FindIndex(old(store.messages), HasMessageId(messageId)).None?
    ensures r.status == 404 ==> r.error == Some("Message not found") && store.messages == old(store.messages)
    ensures r.status == 200 <==> Truthy(emoji) && Truthy(userId) && FindIndex(old(store.messages), HasMessageId(messageId)).Some?
    ensures r.success ==> store.messages == UpdateFirst(old(store.messages), HasMessageId(messageId), Removed(userId.value, emoji.value))
    ensures r.success ==> exists k :: FirstMatch(old(store.messages), HasMessageId(messageId), k)
                                      && r.data == Some(MessageData(store.messages[k]))
    ensures r.success ==> r.data.value.MessageData? && !HasPair(r.data.value.message.reactions, userId.value, emoji.value)
    ensures store.users == old(store.users) && store.rooms == old(store.rooms)
    ensures old(store.ReactionsUnique()) ==> store.ReactionsUnique()
  {
    if !Truthy(emoji) || !Truthy(userId) {
      return Failure(400, "Emoji and userId are required");
    }
    var message := store.RemoveReaction(messageId, emoji.value, userId.value);
    if message.None? {
      return Failure(404, "Message not found");
    }
    r := Success(MessageData(message.value));
  }

  /** `GET /search/messages`: 400 without a query, otherwise the search. */
  function SearchMessagesRoute(store: MemStorage, q: Option<string>, roomId: Option<string>): (r: Response)
    reads store
    ensures WellFormed(r)
    ensures r.status == 400 <==> !Truthy(q)
    ensures r.status == 200 <==> Truthy(q)
    ensures r.status == 400 ==> r.error == Some("Search query is required")
    ensures r.success ==> r.data == Some(MessageList(SearchMessagesIn(store.messages, q.value, roomId)))
    ensures r.success ==> r.data.value.MessageList? && |r.data.value.messages| <= MessageSearchCap
    ensures r.success ==> forall m :: m in r.data.value.messages ==> m in store.messages && SearchMatch(q.value, roomId)(m)
  {
    if !Truthy(q) then Failure(400, "Search query is required")
    else Success(MessageList(store.SearchMessages(q.value, roomId)))
  }

  /** `GET /search/users`: 400 without a query, otherwise the search. */
  function SearchUsersRoute(store: MemStorage, q: Option<string>): (r: Response)
    reads store
    ensures WellFormed(r)
    ensures r.status == 400 <==> !Truthy(q)
    ensures r.status == 200 <==> Truthy(q)
    ensures r.status == 400 ==> r.error == Some("Search query is required")
    ensures r.success ==> r.data == Some(UserList(SearchUsersIn(store.users, q.value)))
    ensures r.success ==> r.data.value.UserList? && |r.data.value.users| <= UserSearchCap
    ensures r.success ==> forall u :: u in r.data.value.users ==> u in store.users && NameMatch(q.value)(u)
  {
    if !Truthy(q) then Failure(400, "Search query is required")
    else Success(UserList(store.SearchUsers(q.value)))
  }
}
