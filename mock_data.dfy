/**
 * The initial client state `generateMockData` builds
 * (client/src/utils/mockData.ts): six users, six messages spread over four
 * rooms by `filter` on their room id, no current user, room_1 active and the
 * light theme. Every `new Date()` is the parameter `now`; the offsets are in
 * milliseconds.
 */
module MockData {
  import opened Wrappers
  import opened Seqs
  import opened Reactions
  import opened Kinds
  import opened Schema
  import opened SampleText
  import opened ChatState

  function MockUsers(now: int): seq<User> {
    [ User("user_1", "Alex Johnson", Avatar("1040880"), Online, now, Some(now)),
      User("user_2", "Sarah Chen", Avatar("1036623"), Online, now, Some(now)),
      User("user_3", "Mike Rodriguez", Avatar("1043471"), Away, now - 900000, Some(now)),
      User("user_4", "Emma Wilson", Avatar("1130626"), Offline, now - 7200000, Some(now)),
      User("user_5", "David Kim", Avatar("1065084"), Online, now, Some(now)),
      User("user_6", "Lisa Zhang", Avatar("1239291"), Away, now - 1800000, Some(now)) ]
  }

  function MockMessages(now: int): seq<Message> {
    [ Message("msg_1", WelcomeText, "user_2", "room_1",
              now - 7200000, None,
              [Reaction("\U{1F44B}", "user_1", now - 7200000), Reaction("\U{1F389}", "user_3", now - 7200000)], Text),
      Message("msg_2", ThanksText, "user_1", "room_1",
              now - 5400000, None,
              [Reaction("\U{2764}\U{FE0F}", "user_2", now - 5400000)], Text),
      Message("msg_3", UpdatesText,
              "user_3", "room_1", now - 3600000, None, [], Text),
      Message("msg_4", AuthText, "user_1", "room_2",
              now - 1800000, None,
              [Reaction("\U{1F525}", "user_2", now - 1500000), Reaction("\U{1F44D}", "user_5", now - 1200000)], Text),
      Message("msg_5", StagingText, "user_5", "room_2",
              now - 1500000, None, [], Text),
      Message("msg_6", WeekendText,
              "user_4", "room_3", now - 2700000, None,
              [Reaction("\U{1F355}", "user_1", now - 2400000), Reaction("\U{1F60B}", "user_2", now - 2100000)], Text) ]
  }

  const GeneralMembers: seq<string> := ["user_1", "user_2", "user_3", "user_4", "user_5", "user_6"]
  const DevelopmentMembers: seq<string> := ["user_1", "user_2", "user_3", "user_5"]
  const RandomMembers: seq<string> := ["user_1", "user_2", "user_3", "user_4", "user_6"]
  const DesignMembers: seq<string> := ["user_2", "user_4", "user_6"]

  /** The four rooms, the first three holding the messages of `sample` that carry their id. */
  function RoomsOver(sample: seq<Message>, now: int): seq<ChatRoom> {
    [ ChatRoom("room_1", "General", GeneralAbout, GeneralMembers,
               Filter(sample, InRoom("room_1")), 0, now - 3600000, Public, Some(now)),
      ChatRoom("room_2", "Development", DevelopmentAbout, DevelopmentMembers,
               Filter(sample, InRoom("room_2")), 2, now - 1500000, Public, Some(now)),
      ChatRoom("room_3", "Random", RandomAbout, RandomMembers,
               Filter(sample, InRoom("room_3")), 1, now - 2700000, Public, Some(now)),
      ChatRoom("room_4", "Design Team", DesignAbout, DesignMembers,
               [], 0, now - 7200000, Public, Some(now)) ]
  }

  function MockRooms(now: int): seq<ChatRoom> {
    RoomsOver(MockMessages(now), now)
  }

  /** `generateMockData()`. */
  function MockState(now: int): AppState {
    AppState(None, MockUsers(now), MockRooms(now), Some("room_1"), Light, map[])
  }

  // ---------------------------------------------------------------------------
  // Properties of the sample data

  /** Every message of the room has the room's id. */
  predicate Placed(room: ChatRoom) {
    forall k :: 0 <= k < |room.messages| ==> room.messages[k].roomId == room.id
  }

  /** The author and every reactor of the message are among `members`. */
  predicate Involves(m: Message, members: seq<string>) {
    && m.userId in members
    && forall j :: 0 <= j < |m.reactions| ==> m.reactions[j].userId in members
  }

  /** Every author and every reactor of a message of the room is a member of it. */
  predicate MembersOnly(room: ChatRoom) {
    forall k :: 0 <= k < |room.messages| ==> Involves(room.messages[k], room.members)
  }

  /** The messages are in ascending timestamp order. */
  predicate Ascending(ms: seq<Message>) {
    forall k, l :: 0 <= k < l < |ms| ==> ms[k].timestamp <= ms[l].timestamp
  }

  /** The room's messages are in ascending timestamp order. */
  predicate Chronological(room: ChatRoom) {
    Ascending(room.messages)
  }

  /** Six messages: three of room_1, then two of room_2, then one of room_3. */
  predicate Grouped(ms: seq<Message>) {
    && |ms| == 6
    && ms[0].roomId == "room_1" && ms[1].roomId == "room_1" && ms[2].roomId == "room_1"
    && ms[3].roomId == "room_2" && ms[4].roomId == "room_2" && ms[5].roomId == "room_3"
  }

  /** The three room ids differ (at their sixth character). */
  lemma RoomIdsDiffer()
    ensures "room_1" != "room_2" && "room_1" != "room_3" && "room_2" != "room_3"
  {
    assert "room_1"[5] == '1' && "room_2"[5] == '2' && "room_3"[5] == '3';
  }

  /** The room of each position of grouped messages. */
  lemma GroupedRooms(ms: seq<Message>)
    requires Grouped(ms)
    ensures forall i :: 0 <= i < 3 ==> ms[i].roomId == "room_1"
    ensures forall i :: 3 <= i < 5 ==> ms[i].roomId == "room_2"
    ensures ms[5].roomId == "room_3"
  {
  }

  /** `filter` on room_1 keeps the first three of grouped messages. */
  lemma GeneralBlock(ms: seq<Message>)
    requires Grouped(ms)
    ensures Filter(ms, InRoom("room_1")) == [ms[0], ms[1], ms[2]]
  {
    RoomIdsDiffer();
    GroupedRooms(ms);
    FilterBlock(ms, InRoom("room_1"), 0, 3);
    assert ms[0..3] == [ms[0], ms[1], ms[2]];
  }

  /** `filter` on room_2 keeps the fourth and fifth of grouped messages. */
  lemma DevelopmentBlock(ms: seq<Message>)
    requires Grouped(ms)
    ensures Filter(ms, InRoom("room_2")) == [ms[3], ms[4]]
  {
    RoomIdsDiffer();
    GroupedRooms(ms);
    FilterBlock(ms, InRoom("room_2"), 3, 5);
    assert ms[3..5] == [ms[3], ms[4]];
  }

  /** `filter` on room_3 keeps the last of grouped messages. */
  lemma RandomBlock(ms: seq<Message>)
    requires Grouped(ms)
    ensures Filter(ms, InRoom("room_3")) == [ms[5]]
  {
    RoomIdsDiffer();
    GroupedRooms(ms);
    FilterBlock(ms, InRoom("room_3"), 5, 6);
    assert ms[5..6] == [ms[5]];
  }

  /** The sample messages are grouped by room, and each room's part is in ascending time order. */
  lemma MockGrouped(now: int)
    ensures var ms := MockMessages(now);
            && Grouped(ms)
            && ms[0].timestamp <= ms[1].timestamp <= ms[2].timestamp
            && ms[3].timestamp <= ms[4].timestamp
  {
  }

  /** Grouped messages whose room parts are in time order give chronological rooms. */
  lemma RoomsChronological(ms: seq<Message>, now: int)
    requires Grouped(ms)
    requires ms[0].timestamp <= ms[1].timestamp <= ms[2].timestamp && ms[3].timestamp <= ms[4].timestamp
    ensures forall r :: r in RoomsOver(ms, now) ==> Chronological(r)
  {
    GeneralChronological(ms, now);
    DevelopmentChronological(ms, now);
    RandomChronological(ms, now);
    assert RoomsOver(ms, now)[3].messages == [];
  }

  lemma GeneralChronological(ms: seq<Message>, now: int)
    requires Grouped(ms)
    requires ms[0].timestamp <= ms[1].timestamp <= ms[2].timestamp
    ensures Chronological(RoomsOver(ms, now)[0])
  {
    GeneralBlock(ms);
    AscendingTriple(ms[0], ms[1], ms[2]);
  }

  lemma DevelopmentChronological(ms: seq<Message>, now: int)
    requires Grouped(ms)
    requires ms[3].timestamp <= ms[4].timestamp
    ensures Chronological(RoomsOver(ms, now)[1])
  {
    DevelopmentBlock(ms);
    AscendingPair(ms[3], ms[4]);
  }

  lemma RandomChronological(ms: seq<Message>, now: int)
    requires Grouped(ms)
    ensures Chronological(RoomsOver(ms, now)[2])
  {
    RandomBlock(ms);
    AscendingSingle(ms[5]);
  }

  /** A single message is ascending. */
  lemma AscendingSingle(a: Message)
    ensures Ascending([a])
  {
  }

  /** Two messages in time order are ascending. */
  lemma AscendingPair(a: Message, b: Message)
    requires a.timestamp <= b.timestamp
    ensures Ascending([a, b])
  {
  }

  /** Three messages in time order are ascending. */
  lemma AscendingTriple(a: Message, b: Message, c: Message)
    requires a.timestamp <= b.timestamp <= c.timestamp
    ensures Ascending([a, b, c])
  {
    var ms := [a, b, c];
    forall k, l | 0 <= k < l < 3 ensures ms[k].timestamp <= ms[l].timestamp {
      if k == 1 { assert l == 2; }
    }
  }

  /** Grouped messages whose authors and reactors belong to their rooms give rooms of members only. */
  lemma RoomsMembersOnly(ms: seq<Message>, now: int)
    requires Grouped(ms)
    requires Involves(ms[0], GeneralMembers) && Involves(ms[1], GeneralMembers) && Involves(ms[2], GeneralMembers)
    requires Involves(ms[3], DevelopmentMembers) && Involves(ms[4], DevelopmentMembers)
    requires Involves(ms[5], RandomMembers)
    ensures forall r :: r in RoomsOver(ms, now) ==> MembersOnly(r)
  {
    GeneralMembersOnly(ms, now);
    DevelopmentMembersOnly(ms, now);
    RandomMembersOnly(ms, now);
    assert RoomsOver(ms, now)[3].messages == [];
  }

  lemma GeneralMembersOnly(ms: seq<Message>, now: int)
    requires Grouped(ms)
    requires Involves(ms[0], GeneralMembers) && Involves(ms[1], GeneralMembers) && Involves(ms[2], GeneralMembers)
    ensures MembersOnly(RoomsOver(ms, now)[0])
  {
    GeneralBlock(ms);
  }

  lemma DevelopmentMembersOnly(ms: seq<Message>, now: int)
    requires Grouped(ms)
    requires Involves(ms[3], DevelopmentMembers) && Involves(ms[4], DevelopmentMembers)
    ensures MembersOnly(RoomsOver(ms, now)[1])
  {
    DevelopmentBlock(ms);
  }

  lemma RandomMembersOnly(ms: seq<Message>, now: int)
    requires Grouped(ms)
    requires Involves(ms[5], RandomMembers)
    ensures MembersOnly(RoomsOver(ms, now)[2])
  {
    RandomBlock(ms);
  }

  /** Whatever messages they hold, the rooms have non-negative unread counts and room_1 has none. */
  lemma RoomsCounts(ms: seq<Message>, now: int)
    ensures UnreadNonNegative(RoomsOver(ms, now))
    ensures ActiveRoomRead(RoomsOver(ms, now), Some("room_1"))
  {
    RoomIdsDistinct(ms, now);
  }

  /** The user ids user_1 to user_6 are pairwise distinct. */
  lemma MockUserIdsDistinct(now: int)
    ensures UniqueUserIds(MockUsers(now))
  {
    var us := MockUsers(now);
    assert us[0].id[5] == '1' && us[1].id[5] == '2' && us[2].id[5] == '3';
    assert us[3].id[5] == '4' && us[4].id[5] == '5' && us[5].id[5] == '6';
  }

  /** The room ids room_1 to room_4 are pairwise distinct, whatever messages they hold. */
  lemma RoomIdsDistinct(ms: seq<Message>, now: int)
    ensures UniqueRoomIds(RoomsOver(ms, now))
  {
    var rs := RoomsOver(ms, now);
    assert rs[0].id[5] == '1' && rs[1].id[5] == '2' && rs[2].id[5] == '3' && rs[3].id[5] == '4';
  }

  /** Every message a room holds carries that room's id, whatever the sample. */
  lemma RoomsPlaced(ms: seq<Message>, now: int)
    ensures forall i :: 0 <= i < |RoomsOver(ms, now)| ==> Placed(RoomsOver(ms, now)[i])
  {
  }

  /** The author and reactors of each sample message are members of its room. */
  lemma MockInvolvement(now: int)
    ensures var ms := MockMessages(now);
            && Involves(ms[0], GeneralMembers) && Involves(ms[1], GeneralMembers) && Involves(ms[2], GeneralMembers)
            && Involves(ms[3], DevelopmentMembers) && Involves(ms[4], DevelopmentMembers)
            && Involves(ms[5], RandomMembers)
  {
    var ms := MockMessages(now);
    assert Involves(ms[0], GeneralMembers) && Involves(ms[1], GeneralMembers) && Involves(ms[2], GeneralMembers) by {
      assert GeneralMembers[0] == "user_1" && GeneralMembers[1] == "user_2" && GeneralMembers[2] == "user_3";
    }
    assert Involves(ms[3], DevelopmentMembers) && Involves(ms[4], DevelopmentMembers) by {
      assert DevelopmentMembers[0] == "user_1" && DevelopmentMembers[1] == "user_2" && DevelopmentMembers[3] == "user_5";
    }
    assert Involves(ms[5], RandomMembers) by {
      assert RandomMembers[0] == "user_1" && RandomMembers[1] == "user_2" && RandomMembers[3] == "user_4";
    }
  }

  /** Every author and every reactor is a member of the room holding the message. */
  lemma MockMembersOnly(now: int)
    ensures forall r :: r in MockRooms(now) ==> MembersOnly(r)
  {
    MockGrouped(now);
    MockInvolvement(now);
    RoomsMembersOnly(MockMessages(now), now);
  }

  /** Each room's messages are in ascending timestamp order. */
  lemma MockChronological(now: int)
    ensures forall r :: r in MockRooms(now) ==> Chronological(r)
  {
    MockGrouped(now);
    RoomsChronological(MockMessages(now), now);
  }

  /** When no sample message carries a pair twice, no room message does. */
  lemma RoomsPairsUnique(ms: seq<Message>, now: int)
    requires forall k :: 0 <= k < |ms| ==> NoDuplicatePairs(ms[k].reactions)
    ensures PairsUnique(RoomsOver(ms, now))
  {
  }

  /** No sample message carries a (userId, emoji) pair twice. */
  lemma MockReactionsUnique(now: int)
    ensures var ms := MockMessages(now);
            forall k :: 0 <= k < |ms| ==> NoDuplicatePairs(ms[k].reactions)
  {
    var ms := MockMessages(now);
    assert ms[0].reactions[0].userId[5] != ms[0].reactions[1].userId[5];
    assert ms[3].reactions[0].userId[5] != ms[3].reactions[1].userId[5];
    assert ms[5].reactions[0].userId[5] != ms[5].reactions[1].userId[5];
  }

  /**
   * The initial state satisfies the invariant the transitions keep: no current
   * user, unique ids, unread counts at least 0, and the active room_1 exists
   * with nothing unread.
   */
  lemma MockStateInv(now: int)
    ensures Inv(MockState(now))
    ensures MockState(now).currentUser.None? && MockState(now).theme == Light
    ensures exists i :: 0 <= i < |MockState(now).rooms| && Some(MockState(now).rooms[i].id) == MockState(now).activeRoomId
  {
    var ms := MockMessages(now);
    MockUserIdsDistinct(now);
    RoomIdsDistinct(ms, now);
    RoomsCounts(ms, now);
    MockReactionsUnique(now);
    RoomsPairsUnique(ms, now);
    assert Some(RoomsOver(ms, now)[0].id) == MockState(now).activeRoomId;
  }

  /** Whatever the user does from the initial state, the invariant holds. */
  lemma MockRunKeepsInv(now: int, actions: seq<Action>)
    ensures Inv(Run(MockState(now), actions))
  {
    MockStateInv(now);
    RunKeepsInv(MockState(now), actions);
  }
}
