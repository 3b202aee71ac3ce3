/**
 * The state transitions of the older client's `useChat` hook
 * (src/hooks/useChat.ts), each `setState(prev => newState)` as a function
 * from the previous state to the next. Message ids are the decimal clock
 * reading (`Date.now().toString()`); the clock and the random draws are
 * parameters.
 */
module LegacyChat {
  import opened Wrappers
  import opened Seqs
  import opened Reactions
  import opened Kinds
  import opened LegacyTypes
  import Strings
  import ChatState

  // ---------------------------------------------------------------------------
  // The invariants the transitions keep

  predicate UnreadNonNegative(rooms: seq<ChatRoom>) {
    forall i :: 0 <= i < |rooms| ==> rooms[i].unreadCount >= 0
  }

  /** No message of any room carries a (userId, emoji) pair twice. */
  predicate PairsUnique(rooms: seq<ChatRoom>) {
    forall i, k :: 0 <= i < |rooms| && 0 <= k < |rooms[i].messages| ==>
      NoDuplicatePairs(rooms[i].messages[k].reactions)
  }

  /** The room being viewed has nothing unread. */
  predicate ActiveRoomRead(rooms: seq<ChatRoom>, active: Option<string>) {
    forall i :: 0 <= i < |rooms| && active == Some(rooms[i].id) ==> rooms[i].unreadCount == 0
  }

  predicate Inv(s: AppState) {
    && UniqueBy(s.users, UserIdOf)
    && UniqueBy(s.rooms, RoomIdOf)
    && UnreadNonNegative(s.rooms)
    && PairsUnique(s.rooms)
    && ActiveRoomRead(s.rooms, s.activeRoomId)
    && (s.currentUser.Some? ==> s.currentUser.value in s.users)
  }

  // ---------------------------------------------------------------------------
  // setCurrentUser

  /** `setCurrentUser`: the user becomes current and replaces the user with its id, or is appended. */
  function SetCurrentUser(s: AppState, user: User): (r: AppState)
    ensures r.currentUser == Some(user) && r.users == Upsert(s.users, user, UserIdOf)
    ensures r.(currentUser := s.currentUser, users := s.users) == s
  {
    s.(currentUser := Some(user), users := Upsert(s.users, user, UserIdOf))
  }

  lemma SetCurrentUserKeepsInv(s: AppState, user: User)
    requires Inv(s)
    ensures Inv(SetCurrentUser(s, user))
  {
    UpsertKeepsUnique(s.users, user, UserIdOf);
  }

  // ---------------------------------------------------------------------------
  // sendMessage

  /** The id of a message created at clock reading `clock`. */
  function ClockId(clock: nat): (id: string)
    ensures |id| >= 1 && forall i :: 0 <= i < |id| ==> '0' <= id[i] <= '9'
  {
    Strings.NatToDecimal(clock)
  }

  /** Two clock readings give the same id exactly when they are equal. */
  lemma ClockIdInjective(t1: nat, t2: nat)
    ensures ClockId(t1) == ClockId(t2) <==> t1 == t2
  {
    if ClockId(t1) == ClockId(t2) {
      Strings.DecimalInjective(t1, t2);
    }
  }

  /** The message `sendMessage` builds at clock reading `clock`. */
  function Composed(author: User, content: string, clock: nat): (m: Message)
    ensures m.id == ClockId(clock) && m.content == content && m.userId == author.id
    ensures m.timestamp == clock && m.reactions == [] && m.kind == Text && m.edited.None?
  {
    Message(ClockId(clock), content, author.id, clock, None, [], Text)
  }

  /** The update of the target room: message appended, activity now, the unread rule. */
  function Delivered(m: Message, now: int, active: Option<string>): ChatRoom -> ChatRoom {
    (room: ChatRoom) => room.(
      messages := room.messages + [m],
      lastActivity := now,
      unreadCount := if active == Some(room.id) then 0 else room.unreadCount + 1)
  }

  /**
   * `sendMessage`: nothing without a current user; otherwise every room with
   * that id gets the message appended, its activity set to the clock, and its
   * unread count reset to 0 when it is the active room or raised by one otherwise.
   */
  function SendMessage(s: AppState, roomId: string, content: string, clock: nat): (r: AppState)
    ensures s.currentUser.None? ==> r == s
    ensures r.(rooms := s.rooms) == s
    ensures |r.rooms| == |s.rooms|
    ensures forall i :: 0 <= i < |s.rooms| && s.rooms[i].id != roomId ==> r.rooms[i] == s.rooms[i]
    ensures s.currentUser.Some? ==> forall i :: 0 <= i < |s.rooms| && s.rooms[i].id == roomId ==>
              && r.rooms[i].messages == s.rooms[i].messages + [Composed(s.currentUser.value, content, clock)]
              && r.rooms[i].lastActivity == clock
              && r.rooms[i].unreadCount == (if s.activeRoomId == Some(roomId) then 0 else s.rooms[i].unreadCount + 1)
              && r.rooms[i].(messages := s.rooms[i].messages, lastActivity := s.rooms[i].lastActivity,
                             unreadCount := s.rooms[i].unreadCount) == s.rooms[i]
    ensures (forall i :: 0 <= i < |s.rooms| ==> s.rooms[i].id != roomId) ==> r == s
  {
    if s.currentUser.None? then s
    else
      var m := Composed(s.currentUser.value, content, clock);
      s.(rooms := MapWhere(s.rooms, HasRoomId(roomId), Delivered(m, clock, s.activeRoomId)))
  }

  lemma SendMessageKeepsInv(s: AppState, roomId: string, content: string, clock: nat)
    requires Inv(s)
    ensures Inv(SendMessage(s, roomId, content, clock))
  {
    var r := SendMessage(s, roomId, content, clock);
    if s.currentUser.Some? {
      forall i, k | 0 <= i < |r.rooms| && 0 <= k < |r.rooms[i].messages|
        ensures NoDuplicatePairs(r.rooms[i].messages[k].reactions)
      {
        if s.rooms[i].id == roomId && k == |s.rooms[i].messages| {
          assert r.rooms[i].messages[k].reactions == [];
        } else {
          assert r.rooms[i].messages[k] == s.rooms[i].messages[k];
        }
      }
      assert forall i :: 0 <= i < |r.rooms| ==> r.rooms[i].id == s.rooms[i].id;
    }
  }

  // ---------------------------------------------------------------------------
  // The simulated reply

  /**
   * The six replies as the file holds them: the emoji of the third and the
   * sixth are stored as the UTF-8 bytes of the emoji read one byte per
   * Windows-1252 character.
   */
  const GarbledPhrases: seq<string> := [
    "That's a great point!",
    "I totally agree with that.",
    "Interesting perspective \U{00F0}\U{0178}\U{00A4}\U{201D}",
    "Thanks for sharing that!",
    "Let me think about this...",
    "Good question! \U{00F0}\U{0178}\U{2018}"
  ]

  /** The six replies with their emoji, as the newer client spells them. */
  const BotPhrases: seq<string> := [
    "That's a great point!",
    "I totally agree with that.",
    "Interesting perspective \U{1F914}",
    "Thanks for sharing that!",
    "Let me think about this...",
    "Good question! \U{1F44D}"
  ]

  /**
   * The garbled list differs from the intended one exactly in the third and
   * sixth phrase, where one emoji became several other characters after the
   * same text.
   */
  lemma GarbledPhrasesDiffer()
    ensures |GarbledPhrases| == |BotPhrases|
    ensures forall i :: 0 <= i < |BotPhrases| ==> (GarbledPhrases[i] == BotPhrases[i] <==> i != 2 && i != 5)
    ensures |GarbledPhrases[2]| == |BotPhrases[2]| + 3 && GarbledPhrases[2][..24] == BotPhrases[2][..24]
    ensures |GarbledPhrases[5]| == |BotPhrases[5]| + 2 && GarbledPhrases[5][..15] == BotPhrases[5][..15]
  {
    assert |GarbledPhrases[2]| != |BotPhrases[2]| && |GarbledPhrases[5]| != |BotPhrases[5]|;
  }

  /** The intended replies are the first six of the newer client's ten. */
  lemma BotPhrasesMatchClient()
    ensures BotPhrases == ChatState.BotPhrases[..6]
  {
  }

  /** `users.find(u => u.id !== currentUser?.id)`. */
  function NotCurrent(current: Option<User>): User -> bool {
    (u: User) => current.None? || u.id != current.value.id
  }

  /**
   * The author of the reply, from the state the message was sent in: always
   * the first user other than the current one, `undefined` when there is none.
   */
  function BotAuthor(sentFrom: AppState): (r: Option<User>)
    ensures r.Some? ==> exists k :: FirstMatch(sentFrom.users, NotCurrent(sentFrom.currentUser), k) && r.value == sentFrom.users[k]
    ensures r.Some? && sentFrom.currentUser.Some? ==> r.value.id != sentFrom.currentUser.value.id
    ensures sentFrom.currentUser.Some? ==>
              (r.None? <==> forall i :: 0 <= i < |sentFrom.users| ==> sentFrom.users[i].id == sentFrom.currentUser.value.id)
  {
    var p := NotCurrent(sentFrom.currentUser);
    match FindIndex(sentFrom.users, p)
    case None => None
    case Some(k) =>
      assert FirstMatch(sentFrom.users, p, k);
      Some(sentFrom.users[k])
  }

  /**
   * The reply: the drawn phrase of `phrases` by the first other user, stamped
   * with the clock at the callback and given the id of the next millisecond.
   * The hook draws from `GarbledPhrases`, the list as the file holds it.
   */
  function BotMessage(phrases: seq<string>, sentFrom: AppState, phrase: nat, clock: nat): (r: Option<Message>)
    requires phrase < |phrases|
    ensures r.None? <==> BotAuthor(sentFrom).None?
    ensures r.Some? ==> && r.value.content == phrases[phrase] && r.value.reactions == []
                        && r.value.id == ClockId(clock + 1) && r.value.timestamp == clock
                        && r.value.userId == BotAuthor(sentFrom).value.id
                        && (sentFrom.currentUser.Some? ==> r.value.userId != sentFrom.currentUser.value.id)
  {
    match BotAuthor(sentFrom)
    case None => None
    case Some(author) => Some(Message(ClockId(clock + 1), phrases[phrase], author.id, clock, None, [], Text))
  }

  /**
   * The replies the hook posts, drawn from the list as written: the same
   * message as with the intended list except for the third and sixth phrase,
   * whose text differs.
   */
  lemma ReplyTextAsWritten(sentFrom: AppState, phrase: nat, clock: nat)
    requires phrase < |GarbledPhrases| && BotAuthor(sentFrom).Some?
    ensures phrase < |BotPhrases|
    ensures BotMessage(GarbledPhrases, sentFrom, phrase, clock) == BotMessage(BotPhrases, sentFrom, phrase, clock)
            <==> phrase != 2 && phrase != 5
  {
    GarbledPhrasesDiffer();
  }

  /** With the intended list every reply is one of the newer client's phrases, at the same position. */
  lemma IntendedReplyText(sentFrom: AppState, phrase: nat, clock: nat)
    requires phrase < |BotPhrases| && BotAuthor(sentFrom).Some?
    ensures BotMessage(BotPhrases, sentFrom, phrase, clock).value.content == ChatState.BotPhrases[phrase]
  {
    BotPhrasesMatchClient();
  }

  /** A reply has the id of a message sent one millisecond after its callback ran. */
  lemma ReplyIdIsNextClock(phrases: seq<string>, sentFrom: AppState, phrase: nat, clock: nat, author: User, content: string)
    requires phrase < |phrases| && BotAuthor(sentFrom).Some?
    ensures BotMessage(phrases, sentFrom, phrase, clock).value.id == Composed(author, content, clock + 1).id
    ensures BotMessage(phrases, sentFrom, phrase, clock).value.id != Composed(author, content, clock).id
  {
    ClockIdInjective(clock + 1, clock);
  }

  /** The update of the room the reply goes to: appended, activity now, unread untouched. */
  function Replied(m: Message, now: int): ChatRoom -> ChatRoom {
    (room: ChatRoom) => room.(messages := room.messages + [m], lastActivity := now)
  }

  /** The deferred reply: appended to every room with that id, leaving unread counts alone. */
  function BotReply(s: AppState, roomId: string, reply: Option<Message>, now: int): (r: AppState)
    ensures reply.None? ==> r == s
    ensures r.(rooms := s.rooms) == s
    ensures |r.rooms| == |s.rooms|
    ensures forall i :: 0 <= i < |s.rooms| ==> r.rooms[i].unreadCount == s.rooms[i].unreadCount && r.rooms[i].id == s.rooms[i].id
    ensures forall i :: 0 <= i < |s.rooms| && s.rooms[i].id != roomId ==> r.rooms[i] == s.rooms[i]
    ensures reply.Some? ==> forall i :: 0 <= i < |s.rooms| && s.rooms[i].id == roomId ==>
              && r.rooms[i].messages == s.rooms[i].messages + [reply.value]
              && r.rooms[i].lastActivity == now
              && r.rooms[i].(messages := s.rooms[i].messages, lastActivity := s.rooms[i].lastActivity) == s.rooms[i]
  {
    match reply
    case None => s
    case Some(m) => s.(rooms := MapWhere(s.rooms, HasRoomId(roomId), Replied(m, now)))
  }

  lemma BotReplyKeepsInv(s: AppState, roomId: string, reply: Option<Message>, now: int)
    requires Inv(s)
    requires reply.Some? ==> NoDuplicatePairs(reply.value.reactions)
    ensures Inv(BotReply(s, roomId, reply, now))
  {
    var r := BotReply(s, roomId, reply, now);
    if reply.Some? {
      forall i, k | 0 <= i < |r.rooms| && 0 <= k < |r.rooms[i].messages|
        ensures NoDuplicatePairs(r.rooms[i].messages[k].reactions)
      {
        if s.rooms[i].id == roomId && k == |s.rooms[i].messages| {
          assert r.rooms[i].messages[k] == reply.value;
        } else {
          assert r.rooms[i].messages[k] == s.rooms[i].messages[k];
        }
      }
    }
  }

  // ---------------------------------------------------------------------------
  // setActiveRoom, toggleTheme

  function MarkedRead(room: ChatRoom): ChatRoom {
    room.(unreadCount := 0)
  }

  /** `setActiveRoom`: the id becomes active, and every room with that id has nothing unread. */
  function SetActiveRoom(s: AppState, roomId: string): (r: AppState)
    ensures r.activeRoomId == Some(roomId)
    ensures r.(activeRoomId := s.activeRoomId, rooms := s.rooms) == s
    ensures |r.rooms| == |s.rooms|
    ensures forall i :: 0 <= i < |s.rooms| ==> r.rooms[i] == if s.rooms[i].id == roomId then s.rooms[i].(unreadCount := 0) else s.rooms[i]
    ensures ActiveRoomRead(r.rooms, r.activeRoomId)
  {
    s.(activeRoomId := Some(roomId), rooms := MapWhere(s.rooms, HasRoomId(roomId), MarkedRead))
  }

  lemma SetActiveRoomKeepsInv(s: AppState, roomId: string)
    requires Inv(s)
    ensures Inv(SetActiveRoom(s, roomId))
  {
    var r := SetActiveRoom(s, roomId);
    assert forall i :: 0 <= i < |r.rooms| ==> r.rooms[i].id == s.rooms[i].id && r.rooms[i].messages == s.rooms[i].messages;
  }

  /** `toggleTheme`: light becomes dark and dark becomes light; nothing else changes. */
  function ToggleTheme(s: AppState): (r: AppState)
    ensures r.theme != s.theme
    ensures r.(theme := s.theme) == s
  {
    s.(theme := if s.theme == Light then Dark else Light)
  }

  /** Toggling the theme twice restores it. */
  lemma ToggleThemeTwice(s: AppState)
    ensures ToggleTheme(ToggleTheme(s)) == s
  {
    assert ToggleTheme(s).theme != s.theme;
  }

  // ---------------------------------------------------------------------------
  // addReaction

  /** The toggle of the pair on one message. */
  function Toggled(userId: string, emoji: string, now: int): Message -> Message {
    (m: Message) => m.(reactions := TogglePair(m.reactions, userId, emoji, now))
  }

  /** In a room, the toggle of the pair on every message with the given id. */
  function ReactedIn(messageId: string, userId: string, emoji: string, now: int): ChatRoom -> ChatRoom {
    (room: ChatRoom) => room.(messages := MapWhere(room.messages, HasMessageId(messageId), Toggled(userId, emoji, now)))
  }

  /**
   * `addReaction`: nothing without a current user; otherwise, on the messages
   * with that id in the rooms with that id, the current user's pair with the
   * emoji is toggled; everything else stays.
   */
  function AddReaction(s: AppState, roomId: string, messageId: string, emoji: string, now: int): (r: AppState)
    ensures s.currentUser.None? ==> r == s
    ensures r.(rooms := s.rooms) == s
    ensures |r.rooms| == |s.rooms|
    ensures forall i :: 0 <= i < |s.rooms| ==>
              && r.rooms[i].(messages := s.rooms[i].messages) == s.rooms[i]
              && |r.rooms[i].messages| == |s.rooms[i].messages|
    ensures forall i, k :: 0 <= i < |s.rooms| && 0 <= k < |s.rooms[i].messages| ==>
              var m := s.rooms[i].messages[k];
              r.rooms[i].messages[k] ==
                if s.currentUser.Some? && s.rooms[i].id == roomId && m.id == messageId
                then m.(reactions := TogglePair(m.reactions, s.currentUser.value.id, emoji, now))
                else m
  {
    if s.currentUser.None? then s
    else s.(rooms := MapWhere(s.rooms, HasRoomId(roomId), ReactedIn(messageId, s.currentUser.value.id, emoji, now)))
  }

  lemma AddReactionKeepsInv(s: AppState, roomId: string, messageId: string, emoji: string, now: int)
    requires Inv(s)
    ensures Inv(AddReaction(s, roomId, messageId, emoji, now))
  {
    var r := AddReaction(s, roomId, messageId, emoji, now);
    if s.currentUser.Some? {
      forall i, k | 0 <= i < |r.rooms| && 0 <= k < |r.rooms[i].messages|
        ensures NoDuplicatePairs(r.rooms[i].messages[k].reactions)
      {
        var m := s.rooms[i].messages[k];
        if s.rooms[i].id == roomId && m.id == messageId {
          ToggleKeepsNoDuplicates(m.reactions, s.currentUser.value.id, emoji, now);
        }
      }
    }
  }

  // ---------------------------------------------------------------------------
  // Runs of transitions

  /** One user action or timer callback, with its clock reading and random draw. */
  datatype Action =
    | Login(user: User)
    | Send(roomId: string, content: string, clock: nat)
    | Reply(sentFrom: AppState, roomId: string, phrase: nat, clock: nat)
    | Open(roomId: string)
    | FlipTheme
    | React(roomId: string, messageId: string, emoji: string, now: int)

  /** One transition. A reply whose phrase draw is out of range (which `Math.random` never yields) is dropped. */
  function Step(s: AppState, a: Action): AppState {
    match a
    case Login(user) => SetCurrentUser(s, user)
    case Send(roomId, content, clock) => SendMessage(s, roomId, content, clock)
    case Reply(sentFrom, roomId, phrase, clock) =>
      if phrase < |GarbledPhrases| then BotReply(s, roomId, BotMessage(GarbledPhrases, sentFrom, phrase, clock), clock)
      else s
    case Open(roomId) => SetActiveRoom(s, roomId)
    case FlipTheme => ToggleTheme(s)
    case React(roomId, messageId, emoji, now) => AddReaction(s, roomId, messageId, emoji, now)
  }

  /** The actions applied in order. */
  function Run(s: AppState, actions: seq<Action>): AppState
    decreases |actions|
  {
    if actions == [] then s else Run(Step(s, actions[0]), actions[1..])
  }

  /** Every transition keeps the invariant. */
  lemma StepKeepsInv(s: AppState, a: Action)
    requires Inv(s)
    ensures Inv(Step(s, a))
  {
    match a
    case Login(user) => SetCurrentUserKeepsInv(s, user);
    case Send(roomId, content, clock) => SendMessageKeepsInv(s, roomId, content, clock);
    case Reply(sentFrom, roomId, phrase, clock) =>
      if phrase < |GarbledPhrases| {
        BotReplyKeepsInv(s, roomId, BotMessage(GarbledPhrases, sentFrom, phrase, clock), clock);
      }
    case Open(roomId) => SetActiveRoomKeepsInv(s, roomId);
    case FlipTheme =>
    case React(roomId, messageId, emoji, now) => AddReactionKeepsInv(s, roomId, messageId, emoji, now);
  }

  /** Any run from a state satisfying the invariant ends in one. */
  lemma {:induction false} RunKeepsInv(s: AppState, actions: seq<Action>)
    requires Inv(s)
    ensures Inv(Run(s, actions))
    decreases |actions|
  {
    if actions != [] {
      StepKeepsInv(s, actions[0]);
      RunKeepsInv(Step(s, actions[0]), actions[1..]);
    }
  }
}
