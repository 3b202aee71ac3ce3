/**
 * The initial state the older client's `generateMockData` builds
 * (src/utils/mockData.ts): four users, three rooms holding five messages, no
 * current user, room 1 active and the light theme. Every `new Date()` is the
 * parameter `now`; the offsets are in milliseconds.
 */
module LegacyMockData {
  import opened Wrappers
  import opened Seqs
  import opened Reactions
  import opened Kinds
  import opened SampleText
  import opened LegacyTypes
  import opened LegacyChat
  import Schema

  function LegacyUsers(now: int): seq<User> {
    [ User("1", "Alex Johnson", Schema.Avatar("1040880"), Online, now),
      User("2", "Sarah Chen", Schema.Avatar("1036623"), Online, now),
      User("3", "Mike Rodriguez", Schema.Avatar("1043471"), Away, now - 900000),
      User("4", "Emma Wilson", Schema.Avatar("1130626"), Offline, now - 7200000) ]
  }

  /** The three messages of the General room. */
  function GeneralMessages(now: int): seq<Message> {
    [ Message("1", WelcomeText, "2", now - 7200000, None,
              [Reaction("\U{1F44B}", "1", now - 7200000), Reaction("\U{1F389}", "3", now - 7200000)], Text),
      Message("2", ThanksText, "1", now - 5400000, None,
              [Reaction("\U{2764}\U{FE0F}", "2", now - 5400000)], Text),
      Message("3", UpdatesText, "3", now - 3600000, None, [], Text) ]
  }

  function DevelopmentMessage(now: int): Message {
    Message("4", AuthText, "1", now - 1800000, None, [Reaction("\U{1F525}", "2", now - 1500000)], Text)
  }

  function RandomMessage(now: int): Message {
    Message("5", WeekendText, "4", now - 2700000, None,
            [Reaction("\U{1F355}", "1", now - 2400000), Reaction("\U{1F60B}", "2", now - 2100000)], Text)
  }

  const AllFour: seq<string> := ["1", "2", "3", "4"]
  const FirstThree: seq<string> := ["1", "2", "3"]

  function LegacyRooms(now: int): seq<ChatRoom> {
    [ ChatRoom("1", "General", GeneralAbout, AllFour, GeneralMessages(now), 0, now - 3600000, Public),
      ChatRoom("2", "Development", DevelopmentAbout, FirstThree, [DevelopmentMessage(now)], 2, now - 1800000, Public),
      ChatRoom("3", "Random", RandomAbout, AllFour, [RandomMessage(now)], 1, now - 2700000, Public) ]
  }

  /** `generateMockData()`. */
  function LegacyState(now: int): AppState {
    AppState(None, LegacyUsers(now), LegacyRooms(now), Some("1"), Light, map[])
  }

  // ---------------------------------------------------------------------------
  // Properties of the sample data

  /** The messages of all rooms, room after room. */
  function AllMessages(rooms: seq<ChatRoom>): (r: seq<Message>)
    ensures forall i, k :: 0 <= i < |rooms| && 0 <= k < |rooms[i].messages| ==> rooms[i].messages[k] in r
    ensures forall m :: m in r ==> exists i :: 0 <= i < |rooms| && m in rooms[i].messages
  {
    if rooms == [] then []
    else
      var rest := AllMessages(rooms[1..]);
      assert forall i :: 1 <= i < |rooms| ==> rooms[i] == rooms[1..][i - 1];
      rooms[0].messages + rest
  }

  /** The author and every reactor of the message are among `members`. */
  predicate Involves(m: Message, members: seq<string>) {
    && m.userId in members
    && forall j :: 0 <= j < |m.reactions| ==> m.reactions[j].userId in members
  }

  /** Every author and every reactor of a message of the room is a member of it. */
  predicate MembersOnly(room: ChatRoom) {
    forall k :: 0 <= k < |room.messages| ==> Involves(room.messages[k], room.members)
  }

  /** The room's messages are in ascending timestamp order. */
  predicate Chronological(room: ChatRoom) {
    forall k, l :: 0 <= k < l < |room.messages| ==> room.messages[k].timestamp <= room.messages[l].timestamp
  }

  /** The user ids '1' to '4' are pairwise distinct. */
  lemma LegacyUserIdsDistinct(now: int)
    ensures UniqueBy(LegacyUsers(now), UserIdOf)
  {
    var us := LegacyUsers(now);
    assert us[0].id[0] == '1' && us[1].id[0] == '2' && us[2].id[0] == '3' && us[3].id[0] == '4';
  }

  /** The room ids '1' to '3' are pairwise distinct. */
  lemma LegacyRoomIdsDistinct(now: int)
    ensures UniqueBy(LegacyRooms(now), RoomIdOf)
  {
    var rs := LegacyRooms(now);
    assert rs[0].id[0] == '1' && rs[1].id[0] == '2' && rs[2].id[0] == '3';
  }

  /** The five sample messages, in room order. */
  function LegacyMessages(now: int): seq<Message> {
    GeneralMessages(now) + [DevelopmentMessage(now), RandomMessage(now)]
  }

  /** The rooms hold the five sample messages and no other, in room order. */
  lemma LegacyAllMessages(now: int)
    ensures AllMessages(LegacyRooms(now)) == LegacyMessages(now)
  {
    var rs := LegacyRooms(now);
    assert rs[1..][1..][1..] == [];
    assert AllMessages(rs[1..][1..]) == [RandomMessage(now)];
  }

  /** The message ids '1' to '5' are pairwise distinct. */
  lemma LegacyMessageIdsDistinct(now: int)
    ensures var ms := LegacyMessages(now);
            |ms| == 5 && forall i, j :: 0 <= i < j < |ms| ==> ms[i].id != ms[j].id
  {
    var ms := LegacyMessages(now);
    assert ms[0].id[0] == '1' && ms[1].id[0] == '2' && ms[2].id[0] == '3' && ms[3].id[0] == '4' && ms[4].id[0] == '5';
  }

  /** Every author and every reactor is a member of the room holding the message. */
  lemma LegacyMembersOnly(now: int)
    ensures forall r :: r in LegacyRooms(now) ==> MembersOnly(r)
  {
    var rs := LegacyRooms(now);
    assert MembersOnly(rs[0]) && MembersOnly(rs[2]) by {
      assert AllFour[0] == "1" && AllFour[1] == "2" && AllFour[2] == "3" && AllFour[3] == "4";
    }
    assert MembersOnly(rs[1]) by {
      assert FirstThree[0] == "1" && FirstThree[1] == "2";
    }
  }

  /** Each room's messages, and in particular the three of General, are in ascending time order. */
  lemma LegacyChronological(now: int)
    ensures forall r :: r in LegacyRooms(now) ==> Chronological(r)
  {
    var ms := GeneralMessages(now);
    forall k, l | 0 <= k < l < 3 ensures ms[k].timestamp <= ms[l].timestamp {
      if k == 1 { assert l == 2; }
    }
  }

  /** No message carries a (userId, emoji) pair twice. */
  lemma LegacyPairsUnique(now: int)
    ensures PairsUnique(LegacyRooms(now))
  {
    var ms := GeneralMessages(now);
    assert ms[0].reactions[0].userId[0] != ms[0].reactions[1].userId[0];
    var m := RandomMessage(now);
    assert m.reactions[0].userId[0] != m.reactions[1].userId[0];
  }

  /**
   * The initial state satisfies the invariant the transitions keep: no current
   * user, unique ids, unread counts at least 0, and the active room '1' exists
   * with nothing unread.
   */
  lemma LegacyStateInv(now: int)
    ensures Inv(LegacyState(now))
    ensures LegacyState(now).currentUser.None? && LegacyState(now).theme == Light
    ensures exists i :: 0 <= i < |LegacyState(now).rooms| && Some(LegacyState(now).rooms[i].id) == LegacyState(now).activeRoomId
  {
    LegacyUserIdsDistinct(now);
    LegacyRoomIdsDistinct(now);
    LegacyPairsUnique(now);
    var rs := LegacyRooms(now);
    assert rs[1].id[0] != '1' && rs[2].id[0] != '1';
    assert Some(rs[0].id) == LegacyState(now).activeRoomId;
  }

  /** Whatever the user does from the initial state, the invariant holds. */
  lemma LegacyRunKeepsInv(now: int, actions: seq<Action>)
    ensures Inv(Run(LegacyState(now), actions))
  {
    LegacyStateInv(now);
    RunKeepsInv(LegacyState(now), actions);
  }

  /**
   * Whoever of the sample users logs in, every reply comes from the same user:
   * Alex (id '1'), or Sarah (id '2') when Alex is the one logged in.
   */
  lemma LegacyReplyAuthor(now: int, who: nat)
    requires who < 4
    ensures var s := SetCurrentUser(LegacyState(now), LegacyUsers(now)[who]);
            BotAuthor(s) == Some(if who == 0 then LegacyUsers(now)[1] else LegacyUsers(now)[0])
  {
    var us := LegacyUsers(now);
    LegacyUserIdsDistinct(now);
    var s := SetCurrentUser(LegacyState(now), us[who]);
    assert s.users == us by {
      assert us[who] in us;
      assert forall i :: 0 <= i < |us| ==> (us[i].id == us[who].id <==> i == who);
    }
    if who == 0 {
      assert us[0].id[0] != us[1].id[0];
      assert FindIndex(us, NotCurrent(s.currentUser)) == Some(1);
    } else {
      assert FindIndex(us, NotCurrent(s.currentUser)) == Some(0);
    }
  }
}
