/**
 * `MemStorage` (server/storage.ts): the in-memory store of the chat server,
 * three arrays changed in place. The clock and `Math.random` are parameters
 * of the operations that read them.
 */
module Storage {
  import opened Wrappers
  import opened Seqs
  import opened Strings
  import opened Reactions
  import opened Kinds
  import opened Schema
  import opened StoreQueries
  import opened StoreSeed

  // ---------------------------------------------------------------------------
  // Identifiers

  /** `generateId`: `${prefix}_${Date.now()}_${Math.floor(Math.random() * 1000)}`. */
  function GenerateId(prefix: string, stamp: nat, random: nat): (id: string)
    requires random < 1000
    ensures |id| >= |prefix| + 4
    ensures id[..|prefix| + 1] == prefix + "_"
  {
    prefix + "_" + NatToDecimal(stamp) + "_" + NatToDecimal(random)
  }

  /** Decimal numerals hold no underscore. */
  lemma NoUnderscore(n: nat)
    ensures '_' !in NatToDecimal(n)
  {
  }

  /** A sequence split at the first occurrence of a separator splits in one way only. */
  lemma SplitUnique(a: string, b: string, a2: string, b2: string, c: char)
    requires c !in a && c !in a2
    requires a + [c] + b == a2 + [c] + b2
    ensures a == a2 && b == b2
  {
    var s := a + [c] + b;
    assert |a| == |a2| by {
      assert forall i :: 0 <= i < |a| ==> s[i] == a[i];
      assert forall i :: 0 <= i < |a2| ==> s[i] == a2[i];
      assert s[|a|] == c && s[|a2|] == c;
    }
    assert a == s[..|a|] && a2 == s[..|a2|];
    assert b == s[|a| + 1..] && b2 == s[|a2| + 1..];
  }

  /**
   * Ids generated with the same prefix differ whenever the clock or the random
   * draw differs; the store has no other guard against duplicate ids.
   */
  lemma GenerateIdInjective(prefix: string, t1: nat, r1: nat, t2: nat, r2: nat)
    requires r1 < 1000 && r2 < 1000
    requires GenerateId(prefix, t1, r1) == GenerateId(prefix, t2, r2)
    ensures t1 == t2 && r1 == r2
  {
    var d1, e1, d2, e2 := NatToDecimal(t1), NatToDecimal(r1), NatToDecimal(t2), NatToDecimal(r2);
    var head := prefix + "_";
    assert GenerateId(prefix, t1, r1) == head + (d1 + ['_'] + e1);
    assert GenerateId(prefix, t2, r2) == head + (d2 + ['_'] + e2);
    assert d1 + ['_'] + e1 == d2 + ['_'] + e2 by {
      var g := GenerateId(prefix, t1, r1);
      assert d1 + ['_'] + e1 == g[|head|..];
      assert d2 + ['_'] + e2 == g[|head|..];
    }
    NoUnderscore(t1);
    NoUnderscore(t2);
    SplitUnique(d1, e1, d2, e2, '_');
    DecimalInjective(t1, t2);
    DecimalInjective(r1, r2);
  }

  /** A generated user id never equals a seeded one: it is longer than all of them. */
  lemma GeneratedUserIdFresh(now: int, stamp: nat, random: nat)
    requires random < 1000
    ensures forall i :: 0 <= i < |SeedUsers(now)| ==> SeedUsers(now)[i].id != GenerateId("user", stamp, random)
  {
    var us := SeedUsers(now);
    assert |us[0].id| == |us[1].id| == |us[2].id| == |us[3].id| == 6;
  }

  /** A generated room id never equals a seeded one. */
  lemma GeneratedRoomIdFresh(now: int, stamp: nat, random: nat)
    requires random < 1000
    ensures forall i :: 0 <= i < |SeedRooms(now)| ==> SeedRooms(now)[i].id != GenerateId("room", stamp, random)
  {
    var rs := SeedRooms(now);
    assert |rs[0].id| == |rs[1].id| == |rs[2].id| == 6;
  }

  /** A generated message id never equals a seeded one. */
  lemma GeneratedMessageIdFresh(now: int, stamp: nat, random: nat)
    requires random < 1000
    ensures forall i :: 0 <= i < |SeedMessages(now)| ==> SeedMessages(now)[i].id != GenerateId("msg", stamp, random)
  {
    var ms := SeedMessages(now);
    assert |ms[0].id| == |ms[1].id| == |ms[2].id| == |ms[3].id| == |ms[4].id| == 5;
  }

  // ---------------------------------------------------------------------------
  // The in-place updates, as functions of one element

  /** `user.status = status; user.lastSeen = new Date()`. */
  function WithStatus(status: Status, now: int): User -> User {
    (u: User) => u.(status := status, lastSeen := now)
  }

  /** `room.lastActivity = new Date()`. */
  function Touched(now: int): ChatRoom -> ChatRoom {
    (r: ChatRoom) => r.(lastActivity := now)
  }

  /** Marking activity twice at the same time is marking it once. */
  lemma TouchTwice(rooms: seq<ChatRoom>, id: string, now: int)
    ensures var once := UpdateFirst(rooms, HasRoomId(id), Touched(now));
            UpdateFirst(once, HasRoomId(id), Touched(now)) == once
  {
    var once := UpdateFirst(rooms, HasRoomId(id), Touched(now));
    forall i | 0 <= i < |rooms| ensures once[i].id == rooms[i].id {}
    forall i | 0 <= i < |rooms| ensures FirstMatch(once, HasRoomId(id), i) == FirstMatch(rooms, HasRoomId(id), i) {}
  }

  /**
   * Starting from a message without the (userId, emoji) pair, two
   * `addReaction` calls restore the stored messages.
   */
  lemma AddReactionTwiceRestores(messages: seq<Message>, messageId: string, userId: string, emoji: string, t1: int, t2: int)
    requires forall i :: FirstMatch(messages, HasMessageId(messageId), i) ==> !HasPair(messages[i].reactions, userId, emoji)
    ensures var once := UpdateFirst(messages, HasMessageId(messageId), Toggled(userId, emoji, t1));
            UpdateFirst(once, HasMessageId(messageId), Toggled(userId, emoji, t2)) == messages
  {
    var p := HasMessageId(messageId);
    var once := UpdateFirst(messages, p, Toggled(userId, emoji, t1));
    var twice := UpdateFirst(once, p, Toggled(userId, emoji, t2));
    forall i | 0 <= i < |messages| ensures once[i].id == messages[i].id {}
    forall i | 0 <= i < |messages| ensures twice[i] == messages[i] {
      assert FirstMatch(once, p, i) == FirstMatch(messages, p, i);
      if FirstMatch(messages, p, i) {
        ToggleTwiceRestores(messages[i].reactions, userId, emoji, t1, t2);
      }
    }
  }

  /** Two `removeReaction` calls leave the store as one does. */
  lemma RemoveReactionTwiceIsOnce(messages: seq<Message>, messageId: string, userId: string, emoji: string)
    ensures var once := UpdateFirst(messages, HasMessageId(messageId), Removed(userId, emoji));
            UpdateFirst(once, HasMessageId(messageId), Removed(userId, emoji)) == once
  {
    var p := HasMessageId(messageId);
    var once := UpdateFirst(messages, p, Removed(userId, emoji));
    var twice := UpdateFirst(once, p, Removed(userId, emoji));
    forall i | 0 <= i < |messages| ensures once[i].id == messages[i].id {}
    forall i | 0 <= i < |messages| ensures twice[i] == once[i] {
      assert FirstMatch(once, p, i) == FirstMatch(messages, p, i);
      if FirstMatch(messages, p, i) {
        RemoveIdempotent(messages[i].reactions, userId, emoji);
      }
    }
  }

  // ---------------------------------------------------------------------------
  // The store

  class MemStorage {
    var users: seq<User>
    var rooms: seq<ChatRoom>
    var messages: seq<Message>

    /** No stored message carries a (userId, emoji) pair twice. */
    predicate ReactionsUnique()
      reads this
    {
      forall i :: 0 <= i < |messages| ==> NoDuplicatePairs(messages[i].reactions)
    }

    /** A store holding the seed, created at time `now`. */
    constructor (now: int)
      ensures users == SeedUsers(now) && messages == SeedMessages(now)
      ensures rooms == RoomsView(SeedRooms(now), SeedMessages(now))
      ensures ReactionsUnique()
    {
      users, rooms, messages := [], [], [];
      new;
      SeedData(now);
    }

    /** `seedData`: stores the seed and attaches to each room its messages. */
    method SeedData(now: int)
      modifies this
      ensures users == SeedUsers(now) && messages == SeedMessages(now)
      ensures rooms == RoomsView(SeedRooms(now), SeedMessages(now))
      ensures ReactionsUnique()
    {
      users := SeedUsers(now);
      rooms := SeedRooms(now);
      messages := SeedMessages(now);
      AttachMessages();
      SeedRecordsValid(now);
    }

    /** The `forEach` of `seedData`: sets each stored room's messages to the stored messages of that room. */
    method AttachMessages()
      modifies this
      ensures rooms == RoomsView(old(rooms), messages)
      ensures users == old(users) && messages == old(messages)
    {
      var i := 0;
      while i < |rooms|
        invariant 0 <= i <= |rooms| == |old(rooms)|
        invariant forall k :: 0 <= k < i ==> rooms[k] == WithMessages(old(rooms)[k], messages)
        invariant forall k :: i <= k < |rooms| ==> rooms[k] == old(rooms)[k]
        invariant users == old(users) && messages == old(messages)
      {
        rooms := rooms[i := rooms[i].(messages := Filter(messages, InRoom(rooms[i].id)))];
        i := i + 1;
      }
    }

    /** `createUser`: appends a user with a fresh id and `createdAt` now. */
    method CreateUser(user: InsertUser, now: nat, random: nat) returns (r: User)
      requires random < 1000
      modifies this
      ensures r == UserFromInsert(GenerateId("user", now, random), user, Some(now))
      ensures users == old(users) + [r]
      ensures rooms == old(rooms) && messages == old(messages)
    {
      r := UserFromInsert(GenerateId("user", now, random), user, Some(now));
      users := users + [r];
    }

    /** `getUserById`. */
    function GetUserById(id: string): Option<User>
      reads this
    {
      FindUser(users, id)
    }

    /** `getUsers`. */
    function GetUsers(): seq<User>
      reads this
    {
      users
    }

    /**
     * `updateUserStatus`: the first user with that id gets the status and
     * `lastSeen` now and is returned; without one, nothing changes.
     */
    method UpdateUserStatus(id: string, status: Status, now: int) returns (r: Option<User>)
      modifies this
      ensures users == UpdateFirst(old(users), HasUserId(id), WithStatus(status, now))
      ensures rooms == old(rooms) && messages == old(messages) && ReactionsUnique() == old(ReactionsUnique())
      ensures r.None? <==> FindUser(old(users), id).None?
      ensures r.Some? ==> r.value.id == id && r.value.status == status && r.value.lastSeen == now && r.value in users
      ensures r.Some? ==> FindIndex(old(users), HasUserId(id)).Some? && r.value == users[FindIndex(old(users), HasUserId(id)).value]
    {
      var k := FindIndex(users, HasUserId(id));
      if k.Some? {
        users := users[k.value := WithStatus(status, now)(users[k.value])];
        r := Some(users[k.value]);
      } else {
        r := None;
      }
    }

    /** `createRoom`: appends a room with a fresh id and `createdAt` now. */
    method CreateRoom(room: InsertChatRoom, now: nat, random: nat) returns (r: ChatRoom)
      requires random < 1000
      modifies this
      ensures r == RoomFromInsert(GenerateId("room", now, random), room, Some(now))
      ensures rooms == old(rooms) + [r]
      ensures users == old(users) && messages == old(messages)
    {
      r := RoomFromInsert(GenerateId("room", now, random), room, Some(now));
      rooms := rooms + [r];
    }

    /** `getRooms`. */
    function GetRooms(): seq<ChatRoom>
      reads this
    {
      RoomsView(rooms, messages)
    }

    /** `getRoomById`. */
    function GetRoomById(id: string): Option<ChatRoom>
      reads this
    {
      RoomView(rooms, messages, id)
    }

    /** `updateRoomActivity`: the first room with that id gets `lastActivity` now. */
    method UpdateRoomActivity(id: string, now: int)
      modifies this
      ensures rooms == UpdateFirst(old(rooms), HasRoomId(id), Touched(now))
      ensures users == old(users) && messages == old(messages)
    {
      var k := FindIndex(rooms, HasRoomId(id));
      if k.Some? {
        rooms := rooms[k.value := Touched(now)(rooms[k.value])];
      }
    }

    /**
     * `createMessage`: appends a message with a fresh id and marks activity
     * now on the first room with the message's room id, if there is one.
     */
    method CreateMessage(message: InsertMessage, now: nat, random: nat) returns (r: Message)
      requires random < 1000
      modifies this
      ensures r == MessageFromInsert(GenerateId("msg", now, random), message)
      ensures messages == old(messages) + [r]
      ensures rooms == UpdateFirst(old(rooms), HasRoomId(message.roomId), Touched(now))
      ensures users == old(users)
      ensures old(ReactionsUnique()) && NoDuplicatePairs(message.reactions) ==> ReactionsUnique()
    {
      r := MessageFromInsert(GenerateId("msg", now, random), message);
      messages := messages + [r];
      UpdateRoomActivity(message.roomId, now);
    }

    /** `getMessagesByRoomId`, with the defaults `limit = 50` and `offset = 0`. */
    function GetMessagesByRoomId(roomId: string, limit: Option<int>, offset: Option<int>): seq<Message>
      reads this
    {
      MessagesPage(messages, roomId, limit.GetOr(50), offset.GetOr(0))
    }

    /**
     * `addReaction`: on the first message with that id, toggles the
     * (userId, emoji) pair and returns the message; `None` and no change
     * when no message has that id.
     */
    method AddReaction(messageId: string, emoji: string, userId: string, now: int) returns (r: Option<Message>)
      modifies this
      ensures messages == UpdateFirst(old(messages), HasMessageId(messageId), Toggled(userId, emoji, now))
      ensures users == old(users) && rooms == old(rooms)
      ensures r.None? <==> FindIndex(old(messages), HasMessageId(messageId)).None?
      ensures r.Some? ==> r.value.id == messageId && r.value in messages
      ensures r.Some? ==> FindIndex(old(messages), HasMessageId(messageId)).Some?
                          && r.value == messages[FindIndex(old(messages), HasMessageId(messageId)).value]
                          && (HasPair(r.value.reactions, userId, emoji) <==> !HasPair(old(messages)[FindIndex(old(messages), HasMessageId(messageId)).value].reactions, userId, emoji))
      ensures old(ReactionsUnique()) ==> ReactionsUnique()
    {
      var k := FindIndex(messages, HasMessageId(messageId));
      if k.None? {
        return None;
      }
      var i := k.value;
      ghost var before := messages;
      messages := messages[i := Toggled(userId, emoji, now)(messages[i])];
      r := Some(messages[i]);
      forall j | 0 <= j < |messages| && NoDuplicatePairs(before[j].reactions)
        ensures NoDuplicatePairs(messages[j].reactions)
      {
        if j == i {
          ToggleKeepsNoDuplicates(before[j].reactions, userId, emoji, now);
        }
      }
    }

    /**
     * `removeReaction`: on the first message with that id, drops every
     * reaction of `userId` with `emoji` and returns the message; `None` and no
     * change when no message has that id.
     */
    method RemoveReaction(messageId: string, emoji: string, userId: string) returns (r: Option<Message>)
      modifies this
      ensures messages == UpdateFirst(old(messages), HasMessageId(messageId), Removed(userId, emoji))
      ensures users == old(users) && rooms == old(rooms)
      ensures r.None? <==> FindIndex(old(messages), HasMessageId(messageId)).None?
      ensures r.Some? ==> r.value.id == messageId && r.value in messages && !HasPair(r.value.reactions, userId, emoji)
      ensures r.Some? ==> FindIndex(old(messages), HasMessageId(messageId)).Some?
                          && r.value == messages[FindIndex(old(messages), HasMessageId(messageId)).value]
      ensures old(ReactionsUnique()) ==> ReactionsUnique()
    {
      var k := FindIndex(messages, HasMessageId(messageId));
      if k.None? {
        return None;
      }
      var i := k.value;
      ghost var before := messages;
      messages := messages[i := Removed(userId, emoji)(messages[i])];
      r := Some(messages[i]);
      forall j | 0 <= j < |messages| && NoDuplicatePairs(before[j].reactions)
        ensures NoDuplicatePairs(messages[j].reactions)
      {
        if j == i {
          RemoveKeepsNoDuplicates(before[j].reactions, userId, emoji);
        }
      }
    }

    /** `searchMessages`. */
    function SearchMessages(query: string, roomId: Option<string>): seq<Message>
      reads this
    {
      SearchMessagesIn(messages, query, roomId)
    }

    /** `searchUsers`. */
    function SearchUsers(query: string): seq<User>
      reads this
    {
      SearchUsersIn(users, query)
    }
  }
}
