/**
 * The records `MemStorage.seedData` (server/storage.ts) puts in a fresh store.
 * Every `new Date()` of the seed is the parameter `now`; the offsets are in
 * milliseconds.
 */
module StoreSeed {
  import opened Wrappers
  import opened Seqs
  import opened Reactions
  import opened Kinds
  import opened Schema
  import opened SampleText
  import opened StoreQueries

  function SeedUsers(now: int): seq<User> {
    [ User("user_1", "Alex Johnson",
           Avatar("1040880"),
           Online, now, Some(now)),
      User("user_2", "Sarah Chen",
           Avatar("1036623"),
           Online, now, Some(now)),
      User("user_3", "Mike Rodriguez",
           Avatar("1043471"),
           Away, now - 900000, Some(now)),
      User("user_4", "Emma Wilson",
           Avatar("1130626"),
           Offline, now - 7200000, Some(now)) ]
  }

  /** The seed rooms as written, before `seedData` attaches their messages. */
  function SeedRooms(now: int): seq<ChatRoom> {
    [ ChatRoom("room_1", "General", GeneralAbout,
               ["user_1", "user_2", "user_3", "user_4"], [], 0, now, Public, Some(now)),
      ChatRoom("room_2", "Development", DevelopmentAbout,
               ["user_1", "user_2", "user_3"], [], 0, now - 1800000, Public, Some(now)),
      ChatRoom("room_3", "Random", RandomAbout,
               ["user_1", "user_2", "user_3", "user_4"], [], 0, now - 2700000, Public, Some(now)) ]
  }

  function SeedMessages(now: int): seq<Message> {
    [ Message("msg_1", WelcomeText, "user_2", "room_1",
              now - 7200000, None,
              [Reaction("👋", "user_1", now - 7200000), Reaction("🎉", "user_3", now - 7200000)], Text),
      Message("msg_2", ThanksText, "user_1", "room_1",
              now - 5400000, None,
              [Reaction("❤️", "user_2", now - 5400000)], Text),
      Message("msg_3", UpdatesText,
              "user_3", "room_1", now - 3600000, None, [], Text),
      Message("msg_4", AuthText, "user_1", "room_2",
              now - 1800000, None,
              [Reaction("🔥", "user_2", now - 1500000)], Text),
      Message("msg_5", WeekendText,
              "user_4", "room_3", now - 2700000, None,
              [Reaction("🍕", "user_1", now - 2400000), Reaction("😋", "user_2", now - 2100000)], Text) ]
  }

  /** The seed's user ids are pairwise distinct. */
  lemma SeedUserIdsDistinct(now: int)
    ensures var us := SeedUsers(now);
            forall i, j :: 0 <= i < j < |us| ==> us[i].id != us[j].id
  {
    var us := SeedUsers(now);
    assert us[0].id[5] == '1' && us[1].id[5] == '2' && us[2].id[5] == '3' && us[3].id[5] == '4';
  }

  /** The seed's room ids are pairwise distinct. */
  lemma SeedRoomIdsDistinct(now: int)
    ensures var rs := SeedRooms(now);
            forall i, j :: 0 <= i < j < |rs| ==> rs[i].id != rs[j].id
  {
    var rs := SeedRooms(now);
    assert rs[0].id[5] == '1' && rs[1].id[5] == '2' && rs[2].id[5] == '3';
  }

  /** The seed's message ids are pairwise distinct. */
  lemma SeedMessageIdsDistinct(now: int)
    ensures var ms := SeedMessages(now);
            forall i, j :: 0 <= i < j < |ms| ==> ms[i].id != ms[j].id
  {
    var ms := SeedMessages(now);
    assert ms[0].id[4] == '1' && ms[1].id[4] == '2' && ms[2].id[4] == '3' && ms[3].id[4] == '4' && ms[4].id[4] == '5';
  }

  /** Every seeded message belongs to a seeded room and is written by one of its members. */
  lemma SeedMessagesPlaced(now: int)
    ensures forall m :: m in SeedMessages(now) ==>
              exists r :: r in SeedRooms(now) && r.id == m.roomId && m.userId in r.members
  {
    var rs, ms := SeedRooms(now), SeedMessages(now);
    forall m | m in ms
      ensures exists r :: r in rs && r.id == m.roomId && m.userId in r.members
    {
      if m == ms[0] || m == ms[1] || m == ms[2] { assert rs[0] in rs; }
      else if m == ms[3] { assert rs[1] in rs; }
      else { assert rs[2] in rs; }
    }
  }

  /** Every seeded record satisfies its schema, and no message carries a (userId, emoji) pair twice. */
  lemma SeedRecordsValid(now: int)
    ensures forall u :: u in SeedUsers(now) ==> ValidUser(u)
    ensures forall r :: r in SeedRooms(now) ==> ValidRoom(r)
    ensures forall m :: m in SeedMessages(now) ==> ValidMessage(m) && NoDuplicatePairs(m.reactions)
  {
    var ms := SeedMessages(now);
    assert ms[0].reactions[0].userId[5] != ms[0].reactions[1].userId[5];
    assert ms[4].reactions[0].userId[5] != ms[4].reactions[1].userId[5];
  }

  /** A message of another room never matches a search restricted to a room. */
  lemma OtherRoomNoMatch(m: Message, query: string, roomId: string)
    requires roomId != "" && m.roomId != roomId
    ensures !SearchMatch(query, Some(roomId))(m)
  {
  }

  /** The content of msg_4 includes "auth": "authentication" starts at index 20. */
  lemma AuthInContent(content: string)
    requires content == AuthText
    ensures Strings.Contains(Strings.ToLower(content), Strings.ToLower("auth"))
  {
    var lower, query := Strings.ToLower(content), Strings.ToLower("auth");
    assert lower[20..24] == query by {
      assert content[20] == 'a' && content[21] == 'u' && content[22] == 't' && content[23] == 'h';
    }
    Strings.ContainsAt(lower, query, 20);
  }

  /** On the seed, searching "auth" in room_2 finds exactly msg_4. */
  lemma SeedSearchAuth(now: int)
    ensures SearchMessagesIn(SeedMessages(now), "auth", Some("room_2")) == [SeedMessages(now)[3]]
  {
    var ms := SeedMessages(now);
    var p := SearchMatch("auth", Some("room_2"));
    AuthInContent(ms[3].content);
    forall i | 0 <= i < |ms| && i != 3 ensures !p(ms[i]) {
      assert ms[i].roomId[5] != '2';
      OtherRoomNoMatch(ms[i], "auth", "room_2");
    }
    FilterBlock(ms, p, 3, 4);
    assert Sorting.SortBy([ms[3]], Recency) == [ms[3]];
  }

  /** On the seed, the first page of one message in room_1 is msg_1, the oldest. */
  lemma SeedOldestInGeneral(now: int)
    ensures MessagesPage(SeedMessages(now), "room_1", 1, 0) == [SeedMessages(now)[0]]
  {
    var ms := SeedMessages(now);
    assert ms[0].roomId == "room_1";
    OldestStoredFirst(ms, "room_1");
  }
}
