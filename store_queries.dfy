/**
 * The read side of `MemStorage` (server/storage.ts): the lookups and the
 * filter/sort/slice chains, as functions of the store's three arrays.
 */
module StoreQueries {
  import opened Wrappers
  import opened Seqs
  import opened Sorting
  import opened Strings
  import opened Kinds
  import opened Schema

  /** The largest page `searchMessages` returns. */
  const MessageSearchCap := 20
  /** The largest page `searchUsers` returns. */
  const UserSearchCap := 10

  /** The sort key of `a.timestamp.getTime() - b.timestamp.getTime()` (oldest first). */
  function Timestamp(m: Message): int { m.timestamp }
  /** The sort key of `b.timestamp.getTime() - a.timestamp.getTime()` (newest first). */
  function Recency(m: Message): int { -m.timestamp }

  /** `getUserById`: the first user with that id, or `None` (null). */
  function FindUser(users: seq<User>, id: string): (r: Option<User>)
    ensures r.Some? ==> r.value in users && r.value.id == id
    ensures r.Some? ==> exists k :: FirstMatch(users, HasUserId(id), k) && r.value == users[k]
    ensures r.None? <==> forall i :: 0 <= i < |users| ==> users[i].id != id
  {
    Find(users, HasUserId(id))
  }

  /**
   * `view` is `room` as the read side returns it: every field kept except
   * `messages`, which are exactly the stored messages of that room, in stored
   * order.
   */
  ghost predicate Denormalized(view: ChatRoom, room: ChatRoom, messages: seq<Message>) {
    && view == room.(messages := view.messages)
    && IsSubsequence(view.messages, messages)
    && |view.messages| == Count(messages, InRoom(room.id))
    && (forall i :: 0 <= i < |view.messages| ==> view.messages[i].roomId == room.id)
    && (forall i :: 0 <= i < |messages| && messages[i].roomId == room.id ==> messages[i] in view.messages)
  }

  /** `{ ...room, messages: messages.filter(msg => msg.roomId === room.id) }`. */
  function WithMessages(room: ChatRoom, messages: seq<Message>): (r: ChatRoom)
    ensures Denormalized(r, room, messages)
  {
    CountIsFilterLength(messages, InRoom(room.id));
    FilterIsSubsequence(messages, InRoom(room.id));
    room.(messages := Filter(messages, InRoom(room.id)))
  }

  /** `getRooms`: one view per stored room, in stored order. */
  function RoomsView(rooms: seq<ChatRoom>, messages: seq<Message>): (r: seq<ChatRoom>)
    ensures |r| == |rooms|
    ensures forall i :: 0 <= i < |r| ==> Denormalized(r[i], rooms[i], messages)
  {
    seq(|rooms|, i requires 0 <= i < |rooms| => WithMessages(rooms[i], messages))
  }

  /** `getRoomById`: the view of the first room with that id, or `None` (null). */
  function RoomView(rooms: seq<ChatRoom>, messages: seq<Message>, id: string): (r: Option<ChatRoom>)
    ensures r.None? <==> forall i :: 0 <= i < |rooms| ==> rooms[i].id != id
    ensures r.Some? ==> r.value.id == id
    ensures r.Some? ==> exists k :: FirstMatch(rooms, HasRoomId(id), k) && Denormalized(r.value, rooms[k], messages)
  {
    match FindIndex(rooms, HasRoomId(id))
    case None => None
    case Some(k) => Some(WithMessages(rooms[k], messages))
  }

  /**
   * `getMessagesByRoomId`: the room's messages sorted oldest first (stably),
   * then `slice(offset, offset + limit)`. For a non-negative offset and limit
   * the page is positions [offset, offset + limit) of that order, cut at its end.
   */
  function MessagesPage(messages: seq<Message>, roomId: string, limit: int, offset: int): (r: seq<Message>)
    ensures forall i :: 0 <= i < |r| ==> r[i] in messages && r[i].roomId == roomId
    ensures forall i, j :: 0 <= i < j < |r| ==> r[i].timestamp <= r[j].timestamp
    ensures 0 <= offset && 0 <= limit ==> |r| <= limit
    ensures 0 <= offset && 0 <= limit ==>
      var s := SortBy(Filter(messages, InRoom(roomId)), Timestamp);
      var lo := if offset < |s| then offset else |s|;
      var hi := if offset + limit < |s| then offset + limit else |s|;
      r == s[lo..hi]
  {
    var sorted := SortBy(Filter(messages, InRoom(roomId)), Timestamp);
    PageOfTimeline(messages, roomId, sorted, offset, offset + limit);
    JsSlice(sorted, offset, offset + limit)
  }

  /** A slice of the room's timeline holds messages of the room only, oldest first. */
  lemma PageOfTimeline(messages: seq<Message>, roomId: string, sorted: seq<Message>, start: int, end: int)
    requires sorted == SortBy(Filter(messages, InRoom(roomId)), Timestamp)
    ensures var r := JsSlice(sorted, start, end);
            && (forall i :: 0 <= i < |r| ==> r[i] in messages && r[i].roomId == roomId)
            && (forall i, j :: 0 <= i < j < |r| ==> r[i].timestamp <= r[j].timestamp)
            && (0 <= start <= end ==> |r| <= end - start)
            && (0 <= start <= end ==>
                 r == sorted[(if start < |sorted| then start else |sorted|)..(if end < |sorted| then end else |sorted|)])
  {
    RoomOrder(messages, roomId);
    SliceOfOrdered(messages, roomId, sorted, start, end);
    SliceInRange(sorted, start, end);
  }

  /** A slice of an ordered list of one room's messages is again one. */
  lemma SliceOfOrdered(messages: seq<Message>, roomId: string, s: seq<Message>, start: int, end: int)
    requires SortedBy(s, Timestamp)
    requires forall i :: 0 <= i < |s| ==> s[i] in messages && s[i].roomId == roomId
    ensures var r := JsSlice(s, start, end);
            && (forall i :: 0 <= i < |r| ==> r[i] in messages && r[i].roomId == roomId)
            && (forall i, j :: 0 <= i < j < |r| ==> r[i].timestamp <= r[j].timestamp)
  {
    var r := JsSlice(s, start, end);
    var a := SliceBound(start, |s|);
    SortedSlice(s, Timestamp, a, a + |r|);
    forall i | 0 <= i < |r| ensures r[i] in messages && r[i].roomId == roomId {
      assert r[i] == s[a + i];
    }
  }

  /**
   * `getMessagesByRoomId` when `offset + limit` is NaN: `slice(offset, NaN)`
   * reads the end as 0, so the page is empty.
   */
  function NaNPage(messages: seq<Message>, roomId: string, offset: int): (r: seq<Message>)
    ensures r == []
  {
    var sorted := SortBy(Filter(messages, InRoom(roomId)), Timestamp);
    SliceToZeroEmpty(sorted, offset);
    JsSlice(sorted, offset, 0)
  }

  /** The room's messages, oldest first: all from the store and all of that room. */
  lemma RoomOrder(messages: seq<Message>, roomId: string)
    ensures var s := SortBy(Filter(messages, InRoom(roomId)), Timestamp);
            && SortedBy(s, Timestamp)
            && forall i :: 0 <= i < |s| ==> s[i] in messages && s[i].roomId == roomId
  {
    var f := Filter(messages, InRoom(roomId));
    var s := SortBy(f, Timestamp);
    SortBySorted(f, Timestamp);
    forall i | 0 <= i < |s| ensures s[i] in messages && s[i].roomId == roomId {
      assert s[i] in multiset(f);
    }
  }

  /**
   * The first page of one message is the oldest message of the room; among
   * several with the oldest timestamp, the one stored first.
   */
  lemma OldestFirst(messages: seq<Message>, roomId: string, t: int)
    requires exists i :: 0 <= i < |messages| && messages[i].roomId == roomId && messages[i].timestamp == t
    requires forall i :: 0 <= i < |messages| && messages[i].roomId == roomId ==> t <= messages[i].timestamp
    ensures Filter(Filter(messages, InRoom(roomId)), KeyIs(Timestamp, t)) != []
    ensures MessagesPage(messages, roomId, 1, 0) == [Filter(Filter(messages, InRoom(roomId)), KeyIs(Timestamp, t))[0]]
  {
    var f := Filter(messages, InRoom(roomId));
    var i :| 0 <= i < |messages| && messages[i].roomId == roomId && messages[i].timestamp == t;
    assert messages[i] in f;
    SortedStartsWithFirstLeast(f, Timestamp, t);
    FirstPageOfOne(messages, roomId);
  }

  /** A first page of one holds the head of the room's timeline, when the room has messages. */
  lemma FirstPageOfOne(messages: seq<Message>, roomId: string)
    ensures var s := SortBy(Filter(messages, InRoom(roomId)), Timestamp);
            s != [] ==> MessagesPage(messages, roomId, 1, 0) == [s[0]]
  {
    var s := SortBy(Filter(messages, InRoom(roomId)), Timestamp);
    if s != [] {
      assert MessagesPage(messages, roomId, 1, 0) == s[0..1];
    }
  }

  /** When a room's first stored message is also its oldest, a first page of one holds exactly that message. */
  lemma OldestStoredFirst(messages: seq<Message>, roomId: string)
    requires messages != [] && messages[0].roomId == roomId
    requires forall i :: 0 <= i < |messages| ==> messages[0].timestamp <= messages[i].timestamp
    ensures MessagesPage(messages, roomId, 1, 0) == [messages[0]]
  {
    var t := messages[0].timestamp;
    OldestFirst(messages, roomId, t);
    FilterHead(messages, InRoom(roomId));
    FilterHead(Filter(messages, InRoom(roomId)), KeyIs(Timestamp, t));
  }

  /**
   * The matcher of `searchMessages`: the lower-cased content includes the
   * lower-cased query, and the room matches unless no room id (or an empty one)
   * was given.
   */
  function SearchMatch(query: string, roomId: Option<string>): Message -> bool {
    (m: Message) => Contains(ToLower(m.content), ToLower(query))
         && (roomId.None? || roomId.value == "" || m.roomId == roomId.value)
  }

  /** `searchMessages`: matches sorted newest first (stably), at most 20 of them. */
  function SearchMessagesIn(messages: seq<Message>, query: string, roomId: Option<string>): (r: seq<Message>)
    ensures |r| <= MessageSearchCap
    ensures forall i :: 0 <= i < |r| ==> r[i] in messages && SearchMatch(query, roomId)(r[i])
    ensures forall i, j :: 0 <= i < j < |r| ==> r[i].timestamp >= r[j].timestamp
  {
    var matches := Filter(messages, SearchMatch(query, roomId));
    SortedHead(matches, Recency, MessageSearchCap);
    JsSlice(SortBy(matches, Recency), 0, MessageSearchCap)
  }

  /**
   * The 20-result cap keeps the most recent matches: with at most 20 matches
   * all are returned, and no match left out is newer than any match returned.
   */
  lemma SearchKeepsMostRecent(messages: seq<Message>, query: string, roomId: Option<string>)
    ensures var matches := Filter(messages, SearchMatch(query, roomId));
            var r := SearchMessagesIn(messages, query, roomId);
            && (|matches| <= MessageSearchCap ==> multiset(r) == multiset(matches))
            && (|matches| > MessageSearchCap ==> |r| == MessageSearchCap)
            && forall x, i :: x in matches && x !in r && 0 <= i < |r| ==> x.timestamp <= r[i].timestamp
  {
    var matches := Filter(messages, SearchMatch(query, roomId));
    var sorted := SortBy(matches, Recency);
    var r := SearchMessagesIn(messages, query, roomId);
    SortBySorted(matches, Recency);
    SliceFromStart(sorted, MessageSearchCap);
    forall x, i | x in matches && x !in r && 0 <= i < |r| ensures x.timestamp <= r[i].timestamp {
      assert x in multiset(sorted);
      var j :| 0 <= j < |sorted| && sorted[j] == x;
      assert r[i] == sorted[i];
    }
  }

  /** The matcher of `searchUsers`: the lower-cased name includes the lower-cased query. */
  function NameMatch(query: string): User -> bool {
    (u: User) => Contains(ToLower(u.name), ToLower(query))
  }

  /** `searchUsers`: the matching users in stored order, at most 10 of them. */
  function SearchUsersIn(users: seq<User>, query: string): (r: seq<User>)
    ensures |r| <= UserSearchCap
    ensures forall i :: 0 <= i < |r| ==> r[i] in users && NameMatch(query)(r[i])
    ensures |Filter(users, NameMatch(query))| <= UserSearchCap ==> r == Filter(users, NameMatch(query))
    ensures r == Filter(users, NameMatch(query))[..|r|]
    ensures |r| == if |Filter(users, NameMatch(query))| < UserSearchCap then |Filter(users, NameMatch(query))| else UserSearchCap
  {
    var matches := Filter(users, NameMatch(query));
    JsSlice(matches, 0, UserSearchCap)
  }
}
