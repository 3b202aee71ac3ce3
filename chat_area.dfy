/**
 * The rules the older client's chat pane (src/components/ChatArea.tsx)
 * renders by: the search filter, the grouping of messages by day, when a
 * message shows its author's avatar, whose bubble it is, and when "No
 * messages found" appears. The local calendar day of a time
 * (`toDateString`) is the parameter `dayOf`.
 */
module ChatArea {
  import opened Wrappers
  import opened Seqs
  import opened Keyed
  import opened LegacyTypes
  import Strings

  // ---------------------------------------------------------------------------
  // filteredMessages

  /** `message.content.toLowerCase().includes(searchQuery.toLowerCase())`. */
  function MatchesQuery(query: string): Message -> bool {
    (m: Message) => Strings.Contains(Strings.ToLower(m.content), Strings.ToLower(query))
  }

  /**
   * `room?.messages.filter(...) || []`: no room gives no messages; a room gives
   * its messages that contain the query, ignoring case, in their order.
   */
  function FilteredMessages(room: Option<ChatRoom>, query: string): (r: seq<Message>)
    ensures room.None? ==> r == []
    ensures room.Some? ==> IsSubsequence(r, room.value.messages)
    ensures room.Some? ==> forall m :: m in r <==> m in room.value.messages && MatchesQuery(query)(m)
  {
    match room
    case None => []
    case Some(rm) =>
      FilterIsSubsequence(rm.messages, MatchesQuery(query));
      Filter(rm.messages, MatchesQuery(query))
  }

  /** An empty query keeps every message of the room. */
  lemma EmptyQueryKeepsAll(room: ChatRoom)
    ensures FilteredMessages(Some(room), "") == room.messages
  {
    forall i | 0 <= i < |room.messages| ensures MatchesQuery("")(room.messages[i]) {
      Strings.ContainsEmpty(Strings.ToLower(room.messages[i].content));
    }
    FilterKeepsAll(room.messages, MatchesQuery(""));
  }

  /** `filteredMessages.length === 0 && searchQuery`: an empty string is falsy. */
  predicate ShowNoResults(filtered: seq<Message>, query: string) {
    |filtered| == 0 && query != ""
  }

  /** "No messages found" appears exactly when the query is non-empty and no message of the room contains it. */
  lemma NoResultsMeaning(room: ChatRoom, query: string)
    ensures ShowNoResults(FilteredMessages(Some(room), query), query) <==>
            query != "" && forall k :: 0 <= k < |room.messages| ==> !MatchesQuery(query)(room.messages[k])
  {
    var f := FilteredMessages(Some(room), query);
    if f != [] {
      assert f[0] in room.messages && MatchesQuery(query)(f[0]);
    }
  }

  // ---------------------------------------------------------------------------
  // groupMessagesByDate

  /** The day key of a message: `message.timestamp.toDateString()`. */
  function DayOf(dayOf: int -> string): Message -> string {
    (m: Message) => dayOf(m.timestamp)
  }

  /**
   * `keys` and `groups` are the key order and the dictionary of the messages
   * `ms` split by day: the days in order of first occurrence, each mapped to
   * its messages in their order.
   */
  ghost predicate GroupedAs(keys: seq<string>, groups: map<string, seq<Message>>, ms: seq<Message>, dayOf: int -> string) {
    && keys == DistinctKeys(ms, DayOf(dayOf))
    && (forall d :: d in groups <==> d in keys)
    && (forall d :: d in groups ==> groups[d] == Filter(ms, HasKey(DayOf(dayOf), d)) && groups[d] != [])
  }

  /**
   * One iteration of the `forEach`: creating the day's group if needed and
   * pushing the message onto it; `keys2` and `groups2` are the state after it.
   */
  lemma GroupStep(keys: seq<string>, groups: map<string, seq<Message>>, ms: seq<Message>, m: Message,
                  dayOf: int -> string, date: string, keys2: seq<string>, groups2: map<string, seq<Message>>)
    requires GroupedAs(keys, groups, ms, dayOf)
    requires date == dayOf(m.timestamp)
    requires keys2 == if date in groups then keys else keys + [date]
    requires groups2 == groups[date := (if date in groups then groups[date] else []) + [m]]
    ensures GroupedAs(keys2, groups2, ms + [m], dayOf)
  {
    KeyOrderStep(keys, groups, ms, m, DayOf(dayOf), keys2, groups2);
    EntriesStep(groups, ms, m, DayOf(dayOf), date);
  }

  /** The dictionary part of one iteration: only the group of the message's day grows, by that message. */
  lemma EntriesStep(groups: map<string, seq<Message>>, ms: seq<Message>, m: Message, key: Message -> string, date: string)
    requires date == key(m)
    requires forall d :: d in groups <==> d in DistinctKeys(ms, key)
    requires forall d :: d in groups ==> groups[d] == Filter(ms, HasKey(key, d)) && groups[d] != []
    ensures var groups2 := groups[date := (if date in groups then groups[date] else []) + [m]];
            forall d :: d in groups2 ==> groups2[d] == Filter(ms + [m], HasKey(key, d)) && groups2[d] != []
  {
    var groups2 := groups[date := (if date in groups then groups[date] else []) + [m]];
    if date !in groups {
      AbsentKeyEmpty(ms, key, date);
    }
    forall d | d in groups2
      ensures groups2[d] == Filter(ms + [m], HasKey(key, d)) && groups2[d] != []
    {
      FilterSnoc(ms, m, HasKey(key, d));
      if d != date {
        assert groups2[d] == groups[d];
      }
    }
  }

  /**
   * `groupMessagesByDate`: a dictionary from day to the messages of that day,
   * built by one pass that creates a group on a day's first message and
   * pushes every message onto its day's group. `keys` is the dictionary's key
   * order, which for these non-numeric keys is the order of insertion.
   */
  method GroupMessagesByDate(messages: seq<Message>, dayOf: int -> string)
    returns (keys: seq<string>, groups: map<string, seq<Message>>)
    ensures keys == DistinctKeys(messages, DayOf(dayOf))
    ensures forall d :: d in groups <==> d in keys
    ensures forall d :: d in groups ==> groups[d] == Filter(messages, HasKey(DayOf(dayOf), d)) && groups[d] != []
  {
    keys := [];
    groups := map[];
    ghost var seen: seq<Message> := [];
    var i := 0;
    while i < |messages|
      invariant 0 <= i <= |messages|
      invariant seen == messages[..i]
      invariant GroupedAs(keys, groups, seen, dayOf)
    {
      var message := messages[i];
      var date := dayOf(message.timestamp);
      ghost var keys0, groups0 := keys, groups;
      if date !in groups {
        groups := groups[date := []];
        keys := keys + [date];
      }
      groups := groups[date := groups[date] + [message]];
      GroupStep(keys0, groups0, seen, message, dayOf, date, keys, groups);
      PrefixSnoc(messages, i);
      seen := seen + [message];
      i := i + 1;
    }
    assert seen == messages;
  }

  /**
   * Every message is in the group of its own day and in no other, each group
   * keeps the order of the messages, and the group sizes add up to the number
   * of messages.
   */
  lemma GroupsPartition(messages: seq<Message>, dayOf: int -> string)
    ensures forall k, d :: 0 <= k < |messages| ==>
              (messages[k] in Filter(messages, HasKey(DayOf(dayOf), d)) <==> d == dayOf(messages[k].timestamp))
    ensures forall d :: IsSubsequence(Filter(messages, HasKey(DayOf(dayOf), d)), messages)
    ensures CountSum(messages, DayOf(dayOf), DistinctKeys(messages, DayOf(dayOf))) == |messages|
  {
    forall d ensures IsSubsequence(Filter(messages, HasKey(DayOf(dayOf), d)), messages) {
      FilterIsSubsequence(messages, HasKey(DayOf(dayOf), d));
    }
    CountsSumToLength(messages, DayOf(dayOf));
  }

  // ---------------------------------------------------------------------------
  // The bubble of one message of a day group

  /** `showAvatar`: first of its group, another author than the previous message, or more than five minutes after it. */
  predicate ShowAvatar(group: seq<Message>, index: nat)
    requires index < |group|
  {
    index == 0
    || group[index - 1].userId != group[index].userId
    || group[index].timestamp - group[index - 1].timestamp > 300000
  }

  /**
   * In a run of one author's messages, each within five minutes of the
   * previous one, only the first shows the avatar; a gap of exactly five
   * minutes does not break the run.
   */
  lemma AvatarOncePerRun(group: seq<Message>)
    requires forall i :: 0 < i < |group| ==>
               group[i].userId == group[0].userId && group[i].timestamp - group[i - 1].timestamp <= 300000
    ensures forall i :: 0 <= i < |group| ==> (ShowAvatar(group, i) <==> i == 0)
  {
    forall i | 0 < i < |group| ensures !ShowAvatar(group, i) {
      assert group[i - 1].userId == group[0].userId;
    }
  }

  /**
   * Every message sits under an avatar of its own author: the nearest message
   * at or above it that shows an avatar has the same author.
   */
  lemma {:induction false} OwnAvatarAbove(group: seq<Message>, i: nat)
    requires i < |group|
    ensures exists k :: 0 <= k <= i && ShowAvatar(group, k) && group[k].userId == group[i].userId
                        && forall j :: k < j <= i ==> !ShowAvatar(group, j)
  {
    if !ShowAvatar(group, i) {
      OwnAvatarAbove(group, i - 1);
      var k :| 0 <= k <= i - 1 && ShowAvatar(group, k) && group[k].userId == group[i - 1].userId
               && forall j :: k < j <= i - 1 ==> !ShowAvatar(group, j);
      assert forall j :: k < j <= i ==> !ShowAvatar(group, j);
    }
  }

  /** `isCurrentUser`: the message is the current user's. */
  predicate IsCurrentUser(m: Message, current: User) {
    m.userId == current.id
  }

  /** `users.find(u => u.id === message.userId) || currentUser`: the author shown on the bubble. */
  function DisplayedUser(users: seq<User>, current: User, m: Message): (u: User)
    ensures (exists i :: 0 <= i < |users| && users[i].id == m.userId) ==>
              u.id == m.userId && exists k :: FirstMatch(users, (v: User) => v.id == m.userId, k) && u == users[k]
    ensures (forall i :: 0 <= i < |users| ==> users[i].id != m.userId) ==> u == current
  {
    var p := (v: User) => v.id == m.userId;
    match FindIndex(users, p)
    case None => current
    case Some(k) =>
      assert FirstMatch(users, p, k);
      users[k]
  }

  /**
   * The current user's messages always show a user with the author's id; a
   * message whose author is not among the users is shown as the current
   * user's, under the current user's name and avatar.
   */
  lemma DisplayedAuthor(users: seq<User>, current: User, m: Message)
    ensures IsCurrentUser(m, current) ==> DisplayedUser(users, current, m).id == m.userId
    ensures (forall i :: 0 <= i < |users| ==> users[i].id != m.userId) && !IsCurrentUser(m, current) ==>
              DisplayedUser(users, current, m) == current && DisplayedUser(users, current, m).id != m.userId
  {
  }
}
