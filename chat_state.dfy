/**
 * The state transitions of the client's `useChat` hook
 * (client/src/hooks/useChat.ts): each `setState(prev => newState)` as a
 * function from the previous `AppState` to the next. The clock, the generated
 * message ids and the random draws are parameters.
 */
module ChatState {
  import opened Wrappers
  import opened Seqs
  import opened Reactions
  import opened Kinds
  import opened Schema

  // ---------------------------------------------------------------------------
  // The invariants the transitions keep

  predicate UniqueUserIds(users: seq<User>) {
    UniqueBy(users, UserIdOf)
  }

  predicate UniqueRoomIds(rooms: seq<ChatRoom>) {
    UniqueBy(rooms, RoomIdOf)
  }

  predicate UnreadNonNegative(rooms: seq<ChatRoom>) {
    forall i :: 0 <= i < |rooms| ==> rooms[i].unreadCount >= 0
  }

  /** No message of any room carries a (userId, emoji) pair twice. */
  predicate PairsUnique(rooms: seq<ChatRoom>) {
    forall i, k :: 0 <= i < |rooms| && 0 <= k < |rooms[i].messages| ==>
      NoDuplicatePairs(rooms[i].messages[k].reactions)
  }

  /** The room being viewed has nothing unread. */
  predicate ActiveRoomRead(rooms: seq<ChatRoom>, active: Option<string>) {
    forall i :: 0 <= i < |rooms| && active == Some(rooms[i].id) ==> rooms[i].unreadCount == 0
  }

  predicate Inv(s: AppState) {
    && UniqueUserIds(s.users)
    && UniqueRoomIds(s.rooms)
    && UnreadNonNegative(s.rooms)
    && PairsUnique(s.rooms)
    && ActiveRoomRead(s.rooms, s.activeRoomId)
    && (s.currentUser.Some? ==> s.currentUser.value in s.users)
  }

  // ---------------------------------------------------------------------------
  // setCurrentUser

  /** `setCurrentUser`: the user becomes current and is upserted by id. */
  function SetCurrentUser(s: AppState, user: User): (r: AppState)
    ensures r.currentUser == Some(user) && r.users == Upsert(s.users, user, UserIdOf)
    ensures r.(currentUser := s.currentUser, users := s.users) == s
  {
    s.(currentUser := Some(user), users := Upsert(s.users, user, UserIdOf))
  }

  /** Logging in keeps the invariant: ids stay unique and the current user is a known user. */
  lemma SetCurrentUserKeepsInv(s: AppState, user: User)
    requires Inv(s)
    ensures Inv(SetCurrentUser(s, user))
  {
    UpsertKeepsUnique(s.users, user, UserIdOf);
  }

  // ---------------------------------------------------------------------------
  // sendMessage

  /** The message `sendMessage` builds: the current user's, text, no reactions. */
  function Composed(author: User, roomId: string, content: string, id: string, now: int): (m: Message)
    ensures m.id == id && m.content == content && m.userId == author.id && m.roomId == roomId
    ensures m.timestamp == now && m.reactions == [] && m.kind == Text && m.edited.None?
  {
    Message(id, content, author.id, roomId, now, None, [], Text)
  }

  /** The update of the target room: message appended, activity now, the unread rule. */
  function Delivered(m: Message, now: int, active: Option<string>): ChatRoom -> ChatRoom {
    (room: ChatRoom) => room.(
      messages := room.messages + [m],
      lastActivity := now,
      unreadCount := if active == Some(room.id) then 0 else room.unreadCount + 1)
  }

  /**
   * `sendMessage`: nothing without a current user; otherwise every room with
   * that id gets the message appended, its activity set to now, and its unread
   * count reset to 0 when it is the active room or raised by one otherwise.
   */
  function SendMessage(s: AppState, roomId: string, content: string, id: string, now: int): (r: AppState)
    ensures s.currentUser.None? ==> r == s
    ensures r.(rooms := s.rooms) == s
    ensures |r.rooms| == |s.rooms|
    ensures forall i :: 0 <= i < |s.rooms| && s.rooms[i].id != roomId ==> r.rooms[i] == s.rooms[i]
    ensures s.currentUser.Some? ==> forall i :: 0 <= i < |s.rooms| && s.rooms[i].id == roomId ==>
              && r.rooms[i].messages == s.rooms[i].messages + [Composed(s.currentUser.value, roomId, content, id, now)]
              && r.rooms[i].lastActivity == now
              && r.rooms[i].unreadCount == (if s.activeRoomId == Some(roomId) then 0 else s.rooms[i].unreadCount + 1)
              && r.rooms[i].(messages := s.rooms[i].messages, lastActivity := s.rooms[i].lastActivity,
                             unreadCount := s.rooms[i].unreadCount) == s.rooms[i]
    ensures (forall i :: 0 <= i < |s.rooms| ==> s.rooms[i].id != roomId) ==> r == s
  {
    if s.currentUser.None? then s
    else
      var m := Composed(s.currentUser.value, roomId, content, id, now);
      s.(rooms := MapWhere(s.rooms, HasRoomId(roomId), Delivered(m, now, s.activeRoomId)))
  }

  /** Sending keeps the invariant; in particular unread counts stay non-negative. */
  lemma SendMessageKeepsInv(s: AppState, roomId: string, content: string, id: string, now: int)
    requires Inv(s)
    ensures Inv(SendMessage(s, roomId, content, id, now))
  {
    var r := SendMessage(s, roomId, content, id, now);
    if s.currentUser.Some? {
      forall i, k | 0 <= i < |r.rooms| && 0 <= k < |r.rooms[i].messages|
        ensures NoDuplicatePairs(r.rooms[i].messages[k].reactions)
      {
        if s.rooms[i].id == roomId && k == |s.rooms[i].messages| {
          assert r.rooms[i].messages[k].reactions == [];
        } else {
          assert r.rooms[i].messages[k] == s.rooms[i].messages[k];
        }
      }
      assert forall i :: 0 <= i < |r.rooms| ==> r.rooms[i].id == s.rooms[i].id;
    }
  }

  // ---------------------------------------------------------------------------
  // The simulated reply

  /** The ten replies the simulated participant picks from. */
  const BotPhrases: seq<string> := [
    "That's a great point!",
    "I totally agree with that.",
    "Interesting perspective 🤔",
    "Thanks for sharing that!",
    "Let me think about this...",
    "Good question! 👍",
    "Absolutely! 💯",
    "I see what you mean.",
    "That makes sense.",
    "Great idea! 🚀"
  ]

  /** `users.filter(u => u.id !== currentUser?.id)`. */
  function NotCurrent(current: Option<User>): User -> bool {
    (u: User) => current.None? || u.id != current.value.id
  }

  /**
   * The author of the reply, drawn from the state the message was sent in:
   * the `pick`-th user other than the current one. A draw past the end (there
   * is no other user) is `undefined`, and no reply is sent.
   */
  function BotAuthor(sentFrom: AppState, pick: nat): (r: Option<User>)
    ensures r.Some? ==> r.value in sentFrom.users
    ensures r.Some? && sentFrom.currentUser.Some? ==> r.value.id != sentFrom.currentUser.value.id
    ensures r.None? <==> pick >= |Filter(sentFrom.users, NotCurrent(sentFrom.currentUser))|
  {
    var others := Filter(sentFrom.users, NotCurrent(sentFrom.currentUser));
    if pick < |others| then Some(others[pick]) else None
  }

  /** There is a reply author for some draw exactly when a user other than the current one exists. */
  lemma BotAuthorExists(sentFrom: AppState)
    requires sentFrom.currentUser.Some?
    ensures BotAuthor(sentFrom, 0).Some? <==>
            exists i :: 0 <= i < |sentFrom.users| && sentFrom.users[i].id != sentFrom.currentUser.value.id
  {
    var others := Filter(sentFrom.users, NotCurrent(sentFrom.currentUser));
    if exists i :: 0 <= i < |sentFrom.users| && sentFrom.users[i].id != sentFrom.currentUser.value.id {
      var i :| 0 <= i < |sentFrom.users| && sentFrom.users[i].id != sentFrom.currentUser.value.id;
      assert sentFrom.users[i] in others;
    }
  }

  /** The reply message: a fixed phrase by another user, to the same room, without reactions. */
  function BotMessage(sentFrom: AppState, roomId: string, phrase: nat, pick: nat, id: string, now: int): (r: Option<Message>)
    requires phrase < |BotPhrases|
    ensures r.None? <==> BotAuthor(sentFrom, pick).None?
    ensures r.Some? ==> && r.value.content in BotPhrases && r.value.roomId == roomId && r.value.reactions == []
                        && r.value.userId == BotAuthor(sentFrom, pick).value.id
                        && (sentFrom.currentUser.Some? ==> r.value.userId != sentFrom.currentUser.value.id)
    ensures r.Some? ==> && r.value.content == BotPhrases[phrase] && r.value.id == id
                        && r.value.timestamp == now && r.value.kind == Text && r.value.edited.None?
  {
    match BotAuthor(sentFrom, pick)
    case None => None
    case Some(author) => Some(Message(id, BotPhrases[phrase], author.id, roomId, now, None, [], Text))
  }

  /** The update of the room the reply goes to: appended, activity now, unread untouched. */
  function Replied(m: Message, now: int): ChatRoom -> ChatRoom {
    (room: ChatRoom) => room.(messages := room.messages + [m], lastActivity := now)
  }

  /** The deferred reply: appended to every room with that id, leaving unread counts alone. */
  function BotReply(s: AppState, roomId: string, reply: Option<Message>, now: int): (r: AppState)
    ensures reply.None? ==> r == s
    ensures r.(rooms := s.rooms) == s
    ensures |r.rooms| == |s.rooms|
    ensures forall i :: 0 <= i < |s.rooms| ==> r.rooms[i].unreadCount == s.rooms[i].unreadCount && r.rooms[i].id == s.rooms[i].id
    ensures forall i :: 0 <= i < |s.rooms| && s.rooms[i].id != roomId ==> r.rooms[i] == s.rooms[i]
    ensures reply.Some? ==> forall i :: 0 <= i < |s.rooms| && s.rooms[i].id == roomId ==>
              && r.rooms[i].messages == s.rooms[i].messages + [reply.value]
              && r.rooms[i].lastActivity == now
              && r.rooms[i].(messages := s.rooms[i].messages, lastActivity := s.rooms[i].lastActivity) == s.rooms[i]
  {
    match reply
    case None => s
    case Some(m) => s.(rooms := MapWhere(s.rooms, HasRoomId(roomId), Replied(m, now)))
  }

  /** The reply keeps the invariant when its reactions hold no pair twice (a composed reply has none). */
  lemma BotReplyKeepsInv(s: AppState, roomId: string, reply: Option<Message>, now: int)
    requires Inv(s)
    requires reply.Some? ==> NoDuplicatePairs(reply.value.reactions)
    ensures Inv(BotReply(s, roomId, reply, now))
  {
    var r := BotReply(s, roomId, reply, now);
    if reply.Some? {
      forall i, k | 0 <= i < |r.rooms| && 0 <= k < |r.rooms[i].messages|
        ensures NoDuplicatePairs(r.rooms[i].messages[k].reactions)
      {
        if s.rooms[i].id == roomId && k == |s.rooms[i].messages| {
          assert r.rooms[i].messages[k] == reply.value;
        } else {
          assert r.rooms[i].messages[k] == s.rooms[i].messages[k];
        }
      }
    }
  }

  // ---------------------------------------------------------------------------
  // setActiveRoom, toggleTheme

  function MarkedRead(room: ChatRoom): ChatRoom {
    room.(unreadCount := 0)
  }

  /**
   * `setActiveRoom`: the id becomes active even when no room has it, and
   * every room with that id has its unread count reset to 0.
   */
  function SetActiveRoom(s: AppState, roomId: string): (r: AppState)
    ensures r.activeRoomId == Some(roomId)
    ensures r.(activeRoomId := s.activeRoomId, rooms := s.rooms) == s
    ensures |r.rooms| == |s.rooms|
    ensures forall i :: 0 <= i < |s.rooms| ==> r.rooms[i] == if s.rooms[i].id == roomId then s.rooms[i].(unreadCount := 0) else s.rooms[i]
    ensures ActiveRoomRead(r.rooms, r.activeRoomId)
  {
    s.(activeRoomId := Some(roomId), rooms := MapWhere(s.rooms, HasRoomId(roomId), MarkedRead))
  }

  lemma SetActiveRoomKeepsInv(s: AppState, roomId: string)
    requires Inv(s)
    ensures Inv(SetActiveRoom(s, roomId))
  {
    var r := SetActiveRoom(s, roomId);
    assert forall i :: 0 <= i < |r.rooms| ==> r.rooms[i].id == s.rooms[i].id && r.rooms[i].messages == s.rooms[i].messages;
  }

  /** `toggleTheme`: light becomes dark and dark becomes light; nothing else changes. */
  function ToggleTheme(s: AppState): (r: AppState)
    ensures r.theme != s.theme
    ensures r.(theme := s.theme) == s
  {
    s.(theme := if s.theme == Light then Dark else Light)
  }

  /** Toggling the theme twice restores it. */
  lemma ToggleThemeTwice(s: AppState)
    ensures ToggleTheme(ToggleTheme(s)) == s
  {
    assert ToggleTheme(s).theme != s.theme;
  }

  // ---------------------------------------------------------------------------
  // addReaction

  /** In a room with the given id, the toggle of the pair on every message with the given id. */
  function ReactedIn(messageId: string, userId: string, emoji: string, now: int): ChatRoom -> ChatRoom {
    (room: ChatRoom) => room.(messages := MapWhere(room.messages, HasMessageId(messageId), Toggled(userId, emoji, now)))
  }

  /**
   * `addReaction`: nothing without a current user; otherwise, on the messages
   * with that id in the rooms with that id, the current user's pair with the
   * emoji is toggled; everything else stays.
   */
  function AddReaction(s: AppState, roomId: string, messageId: string, emoji: string, now: int): (r: AppState)
    ensures s.currentUser.None? ==> r == s
    ensures r.(rooms := s.rooms) == s
    ensures |r.rooms| == |s.rooms|
    ensures forall i :: 0 <= i < |s.rooms| ==>
              && r.rooms[i].(messages := s.rooms[i].messages) == s.rooms[i]
              && |r.rooms[i].messages| == |s.rooms[i].messages|
    ensures forall i, k :: 0 <= i < |s.rooms| && 0 <= k < |s.rooms[i].messages| ==>
              var m := s.rooms[i].messages[k];
              r.rooms[i].messages[k] ==
                if s.currentUser.Some? && s.rooms[i].id == roomId && m.id == messageId
                then m.(reactions := TogglePair(m.reactions, s.currentUser.value.id, emoji, now))
                else m
  {
    if s.currentUser.None? then s
    else s.(rooms := MapWhere(s.rooms, HasRoomId(roomId), ReactedIn(messageId, s.currentUser.value.id, emoji, now)))
  }

  lemma AddReactionKeepsInv(s: AppState, roomId: string, messageId: string, emoji: string, now: int)
    requires Inv(s)
    ensures Inv(AddReaction(s, roomId, messageId, emoji, now))
  {
    var r := AddReaction(s, roomId, messageId, emoji, now);
    if s.currentUser.Some? {
      forall i, k | 0 <= i < |r.rooms| && 0 <= k < |r.rooms[i].messages|
        ensures NoDuplicatePairs(r.rooms[i].messages[k].reactions)
      {
        var m := s.rooms[i].messages[k];
        if s.rooms[i].id == roomId && m.id == messageId {
          ToggleKeepsNoDuplicates(m.reactions, s.currentUser.value.id, emoji, now);
        }
      }
    }
  }

  /**
   * Starting from messages (with that id, in rooms with that id) that do not
   * have the current user's pair, reacting twice restores the state.
   */
  lemma AddReactionTwiceRestores(s: AppState, roomId: string, messageId: string, emoji: string, t1: int, t2: int)
    requires s.currentUser.Some?
    requires forall i, k ::
               (0 <= i < |s.rooms| && 0 <= k < |s.rooms[i].messages| &&
                s.rooms[i].id == roomId && s.rooms[i].messages[k].id == messageId) ==>
               !HasPair(s.rooms[i].messages[k].reactions, s.currentUser.value.id, emoji)
    ensures AddReaction(AddReaction(s, roomId, messageId, emoji, t1), roomId, messageId, emoji, t2) == s
  {
    var once := AddReaction(s, roomId, messageId, emoji, t1);
    var twice := AddReaction(once, roomId, messageId, emoji, t2);
    forall i | 0 <= i < |s.rooms| ensures twice.rooms[i] == s.rooms[i] {
      forall k | 0 <= k < |s.rooms[i].messages| ensures twice.rooms[i].messages[k] == s.rooms[i].messages[k] {
        var m := s.rooms[i].messages[k];
        if s.rooms[i].id == roomId && m.id == messageId {
          ToggleTwiceRestores(m.reactions, s.currentUser.value.id, emoji, t1, t2);
        }
      }
    }
  }

  // ---------------------------------------------------------------------------
  // Runs of transitions

  /** One user action or timer callback, with its clock reading, fresh id and random draws. */
  datatype Action =
    | Login(user: User)
    | Send(roomId: string, content: string, id: string, now: int)
    | Reply(sentFrom: AppState, roomId: string, phrase: nat, pick: nat, id: string, now: int)
    | Open(roomId: string)
    | FlipTheme
    | React(roomId: string, messageId: string, emoji: string, now: int)

  /** One transition. A reply whose phrase draw is out of range (which `Math.random` never yields) is dropped. */
  function Step(s: AppState, a: Action): AppState {
    match a
    case Login(user) => SetCurrentUser(s, user)
    case Send(roomId, content, id, now) => SendMessage(s, roomId, content, id, now)
    case Reply(sentFrom, roomId, phrase, pick, id, now) =>
      if phrase < |BotPhrases| then BotReply(s, roomId, BotMessage(sentFrom, roomId, phrase, pick, id, now), now)
      else s
    case Open(roomId) => SetActiveRoom(s, roomId)
    case FlipTheme => ToggleTheme(s)
    case React(roomId, messageId, emoji, now) => AddReaction(s, roomId, messageId, emoji, now)
  }

  /** The actions applied in order. */
  function Run(s: AppState, actions: seq<Action>): AppState
    decreases |actions|
  {
    if actions == [] then s else Run(Step(s, actions[0]), actions[1..])
  }

  /** Every transition keeps the invariant. */
  lemma StepKeepsInv(s: AppState, a: Action)
    requires Inv(s)
    ensures Inv(Step(s, a))
  {
    match a
    case Login(user) => SetCurrentUserKeepsInv(s, user);
    case Send(roomId, content, id, now) => SendMessageKeepsInv(s, roomId, content, id, now);
    case Reply(sentFrom, roomId, phrase, pick, id, now) =>
      if phrase < |BotPhrases| {
        BotReplyKeepsInv(s, roomId, BotMessage(sentFrom, roomId, phrase, pick, id, now), now);
      }
    case Open(roomId) => SetActiveRoomKeepsInv(s, roomId);
    case FlipTheme =>
    case React(roomId, messageId, emoji, now) => AddReactionKeepsInv(s, roomId, messageId, emoji, now);
  }

  /** Any run from a state satisfying the invariant ends in one. */
  lemma {:induction false} RunKeepsInv(s: AppState, actions: seq<Action>)
    requires Inv(s)
    ensures Inv(Run(s, actions))
    decreases |actions|
  {
    if actions != [] {
      StepKeepsInv(s, actions[0]);
      RunKeepsInv(Step(s, actions[0]), actions[1..]);
    }
  }
}
