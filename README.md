# ChatFlow chat core in Dafny

This project models the core of ChatFlow, a team chat application, in Dafny and proves properties of the model.

- **Server side.** The in-memory store `MemStorage` (`server/storage.ts`) is modelled as a class. Its users, rooms and messages are sequence fields that its methods reassign. Its queries are pure functions of those fields. The REST handlers of `server/routes.ts` are methods over the store. Each handler returns the status and the JSON body it would send.
- **Shared data model.** `shared/schema.ts` becomes datatypes: the entities, the field constraints the zod schemas place on them, the defaults, and the insert shapes. The `insertChatRoomSchema.parse` call that the room route makes is modelled with its issues, on the body after decoding (see "Left out").
- **Client.** The client's `useChat` hook (`client/src/hooks/useChat.ts`) becomes functions from state to state, one per `setState(prev => …)` update. So does the older client's hook (`src/hooks/useChat.ts`). The hooks' sample data (`client/src/utils/mockData.ts`, `src/utils/mockData.ts`) is modelled as constant states. Each sample state is shown to satisfy the invariant every transition keeps. The older hook's replies and the message bubble's picker buttons use the strings as the files hold them; the lists the authors evidently meant are stated beside them (see "Findings").
- **Components.** The rules the components render by are modelled as functions. These are:
  - the sidebar's status colours, activity labels, unread badge and online lists (`src/components/Sidebar.tsx`);
  - the chat area's search filter, grouping by day and avatar rule (`src/components/ChatArea.tsx`);
  - the message bubble's reaction counts, chip highlight and emoji picker (`client/src/components/MessageBubble.tsx`).

## Modules

| file | module | models |
|---|---|---|
| wrappers.dfy | `Wrappers` | `Option` and `Result` |
| seqs.dfy | `Seqs` | `filter`, `find`, `findIndex`, `slice` and the in-place update of a found element |
| sorting.dfy | `Sorting` | `Array.prototype.sort` with a numeric comparator, which is stable, as an insertion sort by key |
| strings.dfy | `Strings` | `toLowerCase`, `includes`, `trim` and decimal numerals |
| keyed.dfy | `Keyed` | the first-seen key order of a JavaScript object used as a dictionary, and per-key tallies |
| kinds.dfy | `Kinds` | the enumerations of the schema: status, message type, room type and theme |
| sample_text.dfy | `SampleText` | the texts of the sample messages and room descriptions |
| reactions.dfy | `Reactions` | the reaction toggle shared by the store and the hooks, and the removal |
| schema.dfy | `Schema` | `shared/schema.ts` |
| store_queries.dfy | `StoreQueries` | the read side of `MemStorage` |
| store_seed.dfy | `StoreSeed` | `MemStorage.seedData` |
| storage.dfy | `Storage` | `MemStorage` |
| routes.dfy | `Routes` | `server/routes.ts` |
| chat_state.dfy | `ChatState` | `client/src/hooks/useChat.ts` |
| mock_data.dfy | `MockData` | `client/src/utils/mockData.ts` |
| legacy_types.dfy | `LegacyTypes` | `src/types/index.ts` |
| legacy_chat.dfy | `LegacyChat` | `src/hooks/useChat.ts` |
| legacy_mock_data.dfy | `LegacyMockData` | `src/utils/mockData.ts` |
| sidebar.dfy | `Sidebar` | `src/components/Sidebar.tsx` |
| chat_area.dfy | `ChatArea` | `src/components/ChatArea.tsx` |
| message_bubble.dfy | `MessageBubble` | `client/src/components/MessageBubble.tsx` |

Times are integers: milliseconds since the epoch. Every `new Date()` and `Date.now()` becomes a parameter, and so does every `Math.random()` draw. The schema's `type` field is named `kind`, because `type` is a Dafny keyword.

## Model

| member | source | states |
|---|---|---|
| Seqs.FindIndex | server/storage.ts:221 | the first index whose element satisfies the test; `None` exactly when no element does |
| Seqs.Find | server/storage.ts:213 | the element found is the first one that satisfies the test; `None` exactly when no element does |
| Seqs.UpdateFirst | server/storage.ts:220-227 | finding an element and updating it in place: only the first match changes, and with no match nothing changes |
| Seqs.MapWhereOnUniqueIsUpdateFirst | client/src/hooks/useChat.ts:145-149 | on a list where at most one element matches (unique ids), the client's `map` by id and the store's `find`-then-update give the same list |
| Seqs.Upsert | client/src/hooks/useChat.ts:48-50 | the user replaces every entry with its id, or is appended when no entry has it |
| Seqs.UpsertKeepsUnique | client/src/hooks/useChat.ts:48-50 | an upsert keeps ids unique |
| Seqs.JsSlice | server/storage.ts:283 | `slice(start, end)`: the contiguous part between the two positions, negative positions counting from the end; its length is the distance between them, or 0 when the end is not after the start |
| Seqs.SliceFromEnd | server/storage.ts:283 | a negative start counts from the end: `slice(-n)` is the last n elements, or everything |
| Seqs.SliceToZeroEmpty | server/routes.ts:206-210 | a slice that ends at 0, which is where NaN puts it, is empty |
| Seqs.FilterIsSubsequence | server/storage.ts:243 | `filter` keeps elements in order, and keeps exactly those that pass the test |
| Seqs.CountIsFilterLength | server/storage.ts:243 | the length of a filter is the number of elements that pass the test |
| Seqs.FilterBlock | client/src/utils/mockData.ts:129 | filtering a sequence whose passing elements form one block yields that block |
| Sorting.SortBy | server/storage.ts:282 | the sort returns a permutation of its input |
| Sorting.SortBySorted | server/storage.ts:282 | the sort output is in ascending key order |
| Sorting.SortByStable | server/storage.ts:282 | the sort is stable: the elements with any one key keep their input order |
| Sorting.InsertSorted | server/storage.ts:282 | inserting into a sorted sequence keeps it sorted |
| Sorting.InsertStable | server/storage.ts:282 | insertion puts the new element in front of the elements with an equal key |
| Sorting.SortedRunsDetermine | server/storage.ts:282 | two sorted sequences that agree on the order of every key's elements are equal, so any stable sort gives `SortBy`'s result |
| Sorting.SortedStartsWithFirstLeast | server/storage.ts:279-283 | a sort starts with the first element, in input order, that has the least key |
| Sorting.SortedHead | server/storage.ts:332-333 | the first `n` of a sort are at most `n` elements of the input, in order |
| Strings.ToLower | server/storage.ts:325 | the length is kept, no upper-case ASCII letter remains, exactly the upper-case ASCII letters change, and each becomes the letter 32 code points on |
| Strings.ToLowerIdempotent | server/storage.ts:325 | lower-casing twice is lower-casing once |
| Strings.ContainsEmpty | src/components/ChatArea.tsx:36-38 | every string includes the empty string |
| Strings.ContainsAt | server/storage.ts:328 | a string includes every one of its substrings |
| Strings.Trim | server/routes.ts:48 | `trim` drops exactly the leading and trailing whitespace and keeps the middle |
| Strings.TrimBlank | server/routes.ts:48 | a string of whitespace trims to the empty string |
| Strings.TrimIdempotent | server/routes.ts:48 | trimming twice is trimming once |
| Strings.NatToDecimal | server/storage.ts:51 | a decimal numeral: digits only, with no leading zero |
| Strings.DecimalRoundTrip | server/storage.ts:51 | reading a numeral back gives the number |
| Strings.DecimalInjective | server/storage.ts:51 | different numbers have different numerals |
| Keyed.DistinctKeys | client/src/components/MessageBubble.tsx:34-37 | the keys of the record in first-seen order: no repeats, exactly the keys present |
| Keyed.TallyStep | client/src/components/MessageBubble.tsx:35 | adding one element keeps a tally exact: the keys in first-seen order, and per key the number of elements |
| Keyed.TalliedMeaning | client/src/components/MessageBubble.tsx:34-37 | a tally holds exactly the keys present, each with a count of at least 1 |
| Keyed.CountsSumToLength | client/src/components/MessageBubble.tsx:34-37 | the per-key counts add up to the number of elements |
| Reactions.RemovePair | server/storage.ts:316-318 | after removal the pair is absent, every other reaction is kept, and the order is kept |
| Reactions.TogglePair | server/storage.ts:291-307 | the toggle flips the presence of the (user, emoji) pair: it removes every copy if there is one, and otherwise appends one stamped now |
| Reactions.RemoveAbsent | server/storage.ts:316-318 | removing an absent pair changes nothing |
| Reactions.RemoveIdempotent | server/storage.ts:316-318 | removing twice is removing once |
| Reactions.RemoveKeepsNoDuplicates | server/storage.ts:316-318 | removal keeps each (user, emoji) pair at most once |
| Reactions.ToggleKeepsNoDuplicates | server/storage.ts:291-307 | the toggle keeps each (user, emoji) pair at most once |
| Reactions.ToggleTwiceRestores | client/src/hooks/useChat.ts:187-189 | starting without the pair, toggling twice restores the reactions |
| Reactions.ToggleTwiceMovesPair | client/src/hooks/useChat.ts:187-189 | starting with the pair, toggling twice moves it to the end, restamped |
| Schema.BlankNameAccepted | shared/schema.ts:6 | `min(1)` accepts a name of spaces and refuses the empty name |
| Schema.UserFromInsert | server/storage.ts:203-207 | the created user has the given id and creation time |
| Schema.MessageFromInsert | server/storage.ts:267-270 | the created message has the given id |
| Schema.RoomFromInsert | server/storage.ts:231-235 | the created room has the given id and creation time |
| Schema.InsertRoundTrips | shared/schema.ts:60-62 | an insert record is a record minus the omitted fields, in both directions |
| Schema.InsertRoomValidity | shared/schema.ts:62 | an insert record satisfies the insert schema exactly when every room made from it satisfies the room schema |
| Schema.MessageIssues | shared/schema.ts:16 | there are no issues exactly when every message has content; each issue names an offending message by its numeric index in the path `messages`, index, `content` |
| Schema.FillMessage | shared/schema.ts:26 | a body message without `type` becomes a text message, one with `type` keeps it, and every other field is carried over unchanged |
| Schema.ParseInsertRoom | shared/schema.ts:30-40 | parsing succeeds exactly when the required fields are present, the name is non-empty, every message has content and any unread count is at least 0; success fills in the defaults, at the room and in each nested message, and yields a valid record; failure has at least one issue |
| Schema.ParseRoundTrip | shared/schema.ts:62 | a record's full request body parses back to that record exactly when the record satisfies the insert schema |
| Schema.ParseFillsDefaults | shared/schema.ts:36-38 | leaving out `unreadCount` and `type` parses, with the same outcome and issues, as giving 0 and public |
| Schema.ParseFillsMessageType | shared/schema.ts:26-34 | leaving out `type` on a nested message parses, with the same outcome and issues, as giving text |
| StoreQueries.FindUser | server/storage.ts:212-214 | the user found is the first with that id; null exactly when no user has it |
| StoreQueries.WithMessages | server/storage.ts:241-244 | the room view keeps every field except `messages`, which holds exactly the room's stored messages, in stored order |
| StoreQueries.RoomsView | server/storage.ts:240-245 | one view per stored room, in order, each holding that room's messages |
| StoreQueries.RoomView | server/storage.ts:247-256 | null exactly when no room has the id; otherwise the view of the first room with that id, carrying exactly its messages |
| StoreQueries.MessagesPage | server/storage.ts:279-284 | the page holds messages of the room only, oldest first, at most `limit` of them; for a non-negative offset and limit it is exactly positions [offset, offset + limit) of the room's messages stably sorted by time, cut at the end |
| StoreQueries.RoomOrder | server/storage.ts:280-282 | a room's sorted messages are all stored messages of that room, in ascending time order |
| StoreQueries.OldestFirst | server/storage.ts:279-284 | a page of one is the oldest message of the room; among equally old messages it is the one stored first |
| StoreQueries.OldestStoredFirst | server/storage.ts:279-284 | when the first stored message is the oldest of its room, a page of one holds exactly that message |
| StoreQueries.SearchMessagesIn | server/storage.ts:324-334 | at most 20 results, every one a stored match, newest first |
| StoreQueries.SearchKeepsMostRecent | server/storage.ts:332-333 | with at most 20 matches all are returned; otherwise 20 are, and no match left out is newer than one returned |
| StoreQueries.SearchUsersIn | server/storage.ts:336-341 | a prefix of the matching users in stored order, of length exactly the smaller of 10 and the number of matches |
| StoreSeed.SeedUserIdsDistinct | server/storage.ts:56-89 | the seed's user ids are distinct |
| StoreSeed.SeedRoomIdsDistinct | server/storage.ts:92-126 | the seed's room ids are distinct |
| StoreSeed.SeedMessageIdsDistinct | server/storage.ts:129-185 | the seed's message ids are distinct |
| StoreSeed.SeedMessagesPlaced | server/storage.ts:92-185 | every seeded message is in a seeded room and written by a member of that room |
| StoreSeed.SeedRecordsValid | server/storage.ts:54-199 | every seeded record satisfies its schema, and no message has a reaction pair twice |
| StoreSeed.OtherRoomNoMatch | server/storage.ts:329 | a search restricted to a room never matches a message of another room |
| StoreSeed.AuthInContent | server/storage.ts:328 | msg_4's lower-cased content includes "auth" |
| StoreSeed.SeedSearchAuth | server/storage.ts:324-334 | on the seed, searching "auth" in room_2 yields exactly msg_4 |
| StoreSeed.SeedOldestInGeneral | server/storage.ts:279-284 | on the seed, the first page of one in room_1 is msg_1 |
| Storage.GenerateId | server/storage.ts:48-52 | for a random draw below 1000, as `Math.floor(Math.random() * 1000)` gives, an id is the prefix and an underscore, followed by more characters |
| Storage.SplitUnique | server/storage.ts:51 | text split at the first underscore splits in one way only |
| Storage.GenerateIdInjective | server/storage.ts:48-52 | two ids with the same prefix are equal only when both the clock and the random draw are equal |
| Storage.GeneratedUserIdFresh | server/storage.ts:204 | a generated user id never equals a seeded one |
| Storage.GeneratedRoomIdFresh | server/storage.ts:232 | a generated room id never equals a seeded one |
| Storage.GeneratedMessageIdFresh | server/storage.ts:268 | a generated message id never equals a seeded one |
| Storage.TouchTwice | server/routes.ts:180-190 | marking a room's activity twice at the same time is marking it once |
| Storage.AddReactionTwiceRestores | server/storage.ts:286-310 | starting without the pair, two `addReaction` calls restore the stored messages |
| Storage.RemoveReactionTwiceIsOnce | server/storage.ts:312-321 | a second `removeReaction` changes nothing |
| Storage.MemStorage.constructor | server/storage.ts:44-46 | a new store holds the seed, with each room holding its messages, and no reaction pair twice |
| Storage.MemStorage.SeedData | server/storage.ts:54-199 | the seed is stored, and each room holds its messages |
| Storage.MemStorage.AttachMessages | server/storage.ts:192-194 | each stored room's messages become the stored messages of that room, and nothing else changes |
| Storage.MemStorage.CreateUser | server/storage.ts:202-210 | the new user is appended with a generated id and is returned |
| Storage.MemStorage.UpdateUserStatus | server/storage.ts:220-227 | the first user with the id gets the status and is seen now; null and no change when no user has the id |
| Storage.MemStorage.CreateRoom | server/storage.ts:230-238 | the new room is appended with a generated id and is returned |
| Storage.MemStorage.UpdateRoomActivity | server/storage.ts:258-263 | the first room with the id is marked active now; nothing else changes |
| Storage.MemStorage.CreateMessage | server/storage.ts:266-277 | the message is appended with a generated id, and its room's activity is marked now; reaction pairs stay unique |
| Storage.MemStorage.AddReaction | server/storage.ts:286-310 | the pair is toggled on the first message with the id, which is returned; null and no change when no message has the id; reaction pairs stay unique |
| Storage.MemStorage.RemoveReaction | server/storage.ts:312-321 | the pair is removed from the first message with the id, which is returned; null and no change when no message has the id |
| Routes.HandleError | server/routes.ts:18-33 | a validation error gives 400 with its issues; anything else gives 500 |
| Routes.LoginRecord | server/routes.ts:47-52 | the login record has the trimmed name, is online, and is seen now |
| Routes.Login | server/routes.ts:36-61 | 400 and no change exactly when the name or avatar is missing or empty; otherwise a new user is appended and returned |
| Routes.BlankNamePassesLogin | server/routes.ts:40-48 | a name of spaces passes the check and is stored empty, which the user schema refuses |
| Routes.UsersRoute | server/routes.ts:63-73 | 200 with the stored users |
| Routes.UserRoute | server/routes.ts:75-94 | 404 exactly when no user has the id, 200 exactly when one does, with the first such user |
| Routes.StatusRoute | server/routes.ts:96-117 | 404 and no change exactly when no user has the id; 200 exactly when one does, with the first such user after the update, which changes only that user |
| Routes.RoomsRoute | server/routes.ts:120-130 | 200 with one view per stored room, each with its messages |
| Routes.RoomRoute | server/routes.ts:132-151 | 404 exactly when no room has the id, 200 exactly when one does, with the view of the first such room |
| Routes.CreateRoomRoute | server/routes.ts:153-165 | 400 with the schema's issues and no change exactly when parsing fails; otherwise the room is appended and returned |
| Routes.PostedMessage | server/routes.ts:180-187 | the posted record has trimmed content, no reactions, type text and time now |
| Routes.PostMessageRoute | server/routes.ts:168-199 | 400 and no change exactly when the content or userId is missing or empty; otherwise the message is appended whether or not the room exists, and the room's activity is marked |
| Routes.BlankContentPassesPost | server/routes.ts:173-181 | content of spaces passes the check and is stored empty |
| Routes.PageOf | server/routes.ts:201-210 | a NaN limit or offset gives an empty page; otherwise the page is the store's page for the parsed limit and offset, 50 and 0 when absent |
| Routes.MessagesRoute | server/routes.ts:201-219 | always 200 with the page |
| Routes.AddReactionRoute | server/routes.ts:222-250 | 400 when the emoji or userId is missing or empty; 404 when no message has the id; 200 exactly otherwise, with the first such message after the toggle; no change on an error |
| Routes.RemoveReactionRoute | server/routes.ts:252-280 | the same errors; 200 exactly otherwise, with the first such message after the pair is removed, which no longer holds the pair |
| Routes.SearchMessagesRoute | server/routes.ts:283-306 | 400 exactly without a query, 200 exactly with one, answering the message search of the store |
| Routes.SearchUsersRoute | server/routes.ts:308-328 | 400 exactly without a query, 200 exactly with one, answering the user search of the store |
| ChatState.SetCurrentUser | client/src/hooks/useChat.ts:43-55 | the user becomes current and is upserted by id; nothing else changes |
| ChatState.SetCurrentUserKeepsInv | client/src/hooks/useChat.ts:43-55 | logging in keeps the state invariant |
| ChatState.Composed | client/src/hooks/useChat.ts:60-68 | the sent message is the current user's, of type text, with no reactions |
| ChatState.SendMessage | client/src/hooks/useChat.ts:57-87 | nothing changes without a current user; otherwise each room with the id gets the message and the activity time; its unread count is reset to 0 when the room is active and raised by one otherwise; other rooms are untouched |
| ChatState.SendMessageKeepsInv | client/src/hooks/useChat.ts:70-86 | sending keeps the invariant, including unread counts at least 0 |
| ChatState.BotAuthor | client/src/hooks/useChat.ts:105-106 | the reply author is a known user other than the current one; none exactly when the draw is past the other users |
| ChatState.BotAuthorExists | client/src/hooks/useChat.ts:105-108 | a reply author exists exactly when some user other than the current one does |
| ChatState.BotMessage | client/src/hooks/useChat.ts:89-117 | the reply is the chosen phrase of the ten, with the given id and time, by the chosen other user, in the same room, as text with no reactions; none exactly when there is no author |
| ChatState.BotReply | client/src/hooks/useChat.ts:119-134 | the reply is appended to each room with the id and sets its activity; unread counts are untouched |
| ChatState.BotReplyKeepsInv | client/src/hooks/useChat.ts:119-134 | the reply keeps the invariant |
| ChatState.SetActiveRoom | client/src/hooks/useChat.ts:140-154 | the room becomes active and has nothing unread; other rooms are untouched |
| ChatState.SetActiveRoomKeepsInv | client/src/hooks/useChat.ts:140-154 | opening a room keeps the invariant |
| ChatState.ToggleTheme | client/src/hooks/useChat.ts:156-171 | the theme flips and nothing else changes |
| ChatState.ToggleThemeTwice | client/src/hooks/useChat.ts:156-171 | toggling twice restores the state |
| ChatState.AddReaction | client/src/hooks/useChat.ts:173-200 | nothing changes without a current user; otherwise the current user's pair is toggled on the messages with the id in the rooms with the id, and everything else stays |
| ChatState.AddReactionKeepsInv | client/src/hooks/useChat.ts:173-200 | reacting keeps the invariant |
| ChatState.AddReactionTwiceRestores | client/src/hooks/useChat.ts:173-200 | starting without the pair, reacting twice restores the state |
| ChatState.StepKeepsInv | client/src/hooks/useChat.ts:43-200 | every transition, user action or timer callback, keeps the invariant |
| ChatState.RunKeepsInv | client/src/hooks/useChat.ts:43-200 | any sequence of transitions keeps the invariant |
| MockData.GroupedRooms | client/src/utils/mockData.ts:55-121 | the room of each position of the grouped sample |
| MockData.GeneralBlock | client/src/utils/mockData.ts:129 | room_1's filter keeps the first three sample messages |
| MockData.DevelopmentBlock | client/src/utils/mockData.ts:140 | room_2's filter keeps the fourth and fifth |
| MockData.RandomBlock | client/src/utils/mockData.ts:151 | room_3's filter keeps the last |
| MockData.MockGrouped | client/src/utils/mockData.ts:55-121 | the sample is grouped by room, and each group is in time order |
| MockData.RoomsChronological | client/src/utils/mockData.ts:123-168 | grouped, ordered messages give rooms whose messages are in time order |
| MockData.RoomsMembersOnly | client/src/utils/mockData.ts:123-168 | grouped messages whose people belong to their rooms give rooms of members only |
| MockData.RoomsCounts | client/src/utils/mockData.ts:130-164 | unread counts are at least 0, and the active room_1 has none |
| MockData.MockUserIdsDistinct | client/src/utils/mockData.ts:4-53 | the six user ids are distinct |
| MockData.RoomIdsDistinct | client/src/utils/mockData.ts:123-168 | the four room ids are distinct |
| MockData.RoomsPlaced | client/src/utils/mockData.ts:129-162 | every message a room holds carries that room's id |
| MockData.MockInvolvement | client/src/utils/mockData.ts:55-168 | each sample message's author and reactors are members of its room |
| MockData.MockMembersOnly | client/src/utils/mockData.ts:55-168 | every author and reactor is a member of the room holding the message |
| MockData.MockChronological | client/src/utils/mockData.ts:55-168 | each room's messages are in ascending time order |
| MockData.MockReactionsUnique | client/src/utils/mockData.ts:55-121 | no sample message has a reaction pair twice |
| MockData.MockStateInv | client/src/utils/mockData.ts:170-177 | the initial state satisfies the invariant: no current user, light theme, and the active room_1 exists |
| MockData.MockRunKeepsInv | client/src/utils/mockData.ts:3-178 | every run from the initial state keeps the invariant |
| LegacyChat.SetCurrentUser | src/hooks/useChat.ts:34-46 | the user becomes current and is upserted by id |
| LegacyChat.SetCurrentUserKeepsInv | src/hooks/useChat.ts:34-46 | logging in keeps the invariant |
| LegacyChat.ClockId | src/hooks/useChat.ts:52 | a message id is the clock reading in decimal |
| LegacyChat.ClockIdInjective | src/hooks/useChat.ts:52 | two clock readings give the same id exactly when they are equal |
| LegacyChat.Composed | src/hooks/useChat.ts:51-58 | the sent message is the current user's, with the clock's id and no reactions |
| LegacyChat.SendMessage | src/hooks/useChat.ts:48-76 | the same update as the newer client: append, activity time, and the unread rule |
| LegacyChat.SendMessageKeepsInv | src/hooks/useChat.ts:60-76 | sending keeps the invariant |
| LegacyChat.GarbledPhrasesDiffer | src/hooks/useChat.ts:81-88 | as written, the third and sixth replies differ from the intended ones: each emoji became several other characters |
| LegacyChat.BotPhrasesMatchClient | src/hooks/useChat.ts:81-88 | the intended replies are the first six of the newer client's |
| LegacyChat.BotAuthor | src/hooks/useChat.ts:91 | the reply author is the first user other than the current one; none exactly when there is no other user |
| LegacyChat.BotMessage | src/hooks/useChat.ts:90-101 | the reply is the drawn phrase of the list, by the first other user, with the id of the next millisecond; none exactly when there is no other user |
| LegacyChat.ReplyTextAsWritten | src/hooks/useChat.ts:81-101 | the reply the hook posts from its list as written equals the intended one except for the third and sixth phrase |
| LegacyChat.IntendedReplyText | src/hooks/useChat.ts:81-101 | with the intended list each reply is the newer client's phrase at the same position |
| LegacyChat.ReplyIdIsNextClock | src/hooks/useChat.ts:52-95 | a reply's id equals that of a message sent one millisecond after its callback ran |
| LegacyChat.BotReply | src/hooks/useChat.ts:103-118 | the reply is appended to each room with the id; unread counts are untouched |
| LegacyChat.BotReplyKeepsInv | src/hooks/useChat.ts:103-118 | the reply keeps the invariant |
| LegacyChat.SetActiveRoom | src/hooks/useChat.ts:124-138 | the room becomes active and has nothing unread |
| LegacyChat.SetActiveRoomKeepsInv | src/hooks/useChat.ts:124-138 | opening a room keeps the invariant |
| LegacyChat.ToggleTheme | src/hooks/useChat.ts:140-146 | the theme flips and nothing else changes |
| LegacyChat.ToggleThemeTwice | src/hooks/useChat.ts:140-146 | toggling twice restores the state |
| LegacyChat.AddReaction | src/hooks/useChat.ts:148-175 | the current user's pair is toggled on the messages with the id in the rooms with the id |
| LegacyChat.AddReactionKeepsInv | src/hooks/useChat.ts:148-175 | reacting keeps the invariant |
| LegacyChat.StepKeepsInv | src/hooks/useChat.ts:34-175 | every transition keeps the invariant |
| LegacyChat.RunKeepsInv | src/hooks/useChat.ts:34-175 | any sequence of transitions keeps the invariant |
| LegacyMockData.AllMessages | src/utils/mockData.ts:67-121 | the messages of all rooms: each room message is included, and nothing else |
| LegacyMockData.LegacyUserIdsDistinct | src/utils/mockData.ts:4-33 | the user ids '1' to '4' are distinct |
| LegacyMockData.LegacyRoomIdsDistinct | src/utils/mockData.ts:67-121 | the room ids are distinct |
| LegacyMockData.LegacyAllMessages | src/utils/mockData.ts:35-121 | the rooms hold the three general messages, then one development message and one random message |
| LegacyMockData.LegacyMessageIdsDistinct | src/utils/mockData.ts:35-115 | message ids are distinct across rooms |
| LegacyMockData.LegacyMembersOnly | src/utils/mockData.ts:35-121 | every author and reactor is a member of the room |
| LegacyMockData.LegacyChronological | src/utils/mockData.ts:35-121 | each room's messages are in time order |
| LegacyMockData.LegacyPairsUnique | src/utils/mockData.ts:35-121 | no message has a reaction pair twice |
| LegacyMockData.LegacyStateInv | src/utils/mockData.ts:123-130 | the initial state satisfies the invariant, and the active room '1' exists |
| LegacyMockData.LegacyRunKeepsInv | src/utils/mockData.ts:3-131 | every run from the initial state keeps the invariant |
| LegacyMockData.LegacyReplyAuthor | src/hooks/useChat.ts:91 | whoever of the sample users logs in, every reply comes from Alex, or from Sarah when Alex is logged in |
| Sidebar.StatusColor | src/components/Sidebar.tsx:24-31 | each status maps to a `bg-…-400` class |
| Sidebar.StatusColorInjective | src/components/Sidebar.tsx:24-31 | different statuses get different classes |
| Sidebar.FormatLastActivity | src/components/Sidebar.tsx:33-44 | "now" exactly when less than a minute has passed; otherwise a label ending in m, h or d |
| Sidebar.FormatLastActivityBuckets | src/components/Sidebar.tsx:36-43 | the label counts whole minutes under an hour, whole hours under a day, and whole days from then on |
| Sidebar.FloorBounds | src/components/Sidebar.tsx:36-38 | `Math.floor` of a quotient by a positive unit brackets the difference |
| Sidebar.FormatLastActivityReadBack | src/components/Sidebar.tsx:33-44 | the number shown is the count of whole units in the difference |
| Sidebar.UnreadBadge | src/components/Sidebar.tsx:150-153 | a badge exactly when the count is positive; "99+" above 99; otherwise at most two characters |
| Sidebar.UnreadBadgeExact | src/components/Sidebar.tsx:152 | up to 99, the badge reads back as the count |
| Sidebar.OnlineCount | src/components/Sidebar.tsx:178 | the header counts the online users |
| Sidebar.OnlineList | src/components/Sidebar.tsx:186-187 | the list holds exactly the online users other than the current one, in order |
| Sidebar.OnlineCountSplit | src/components/Sidebar.tsx:178-187 | the online count is the list's length plus the online users with the current id |
| Sidebar.SelfCountedOnce | src/components/Sidebar.tsx:178 | with unique ids, an online current user is counted once |
| Sidebar.OnlineCountVersusList | src/components/Sidebar.tsx:178-187 | the header exceeds the list by one when the current user is online and known, and equals it when the current user is unknown |
| ChatArea.FilteredMessages | src/components/ChatArea.tsx:36-38 | no room gives no messages; otherwise the room's messages that contain the query, in order |
| ChatArea.EmptyQueryKeepsAll | src/components/ChatArea.tsx:36-38 | an empty query keeps every message |
| ChatArea.NoResultsMeaning | src/components/ChatArea.tsx:226 | "No messages found" appears exactly when the query is non-empty and no message contains it |
| ChatArea.GroupStep | src/components/ChatArea.tsx:43-49 | one message added keeps the groups exact: day keys in first-seen order, and per day its messages |
| ChatArea.EntriesStep | src/components/ChatArea.tsx:45-48 | creating the group if absent and pushing the message gives each day the messages of that day |
| ChatArea.GroupMessagesByDate | src/components/ChatArea.tsx:40-52 | the groups hold exactly the days present, in first-seen order, each with its messages in order, none empty |
| ChatArea.GroupsPartition | src/components/ChatArea.tsx:40-52 | every message is in the group of its day; each group is in message order; the groups' sizes add up to the number of messages |
| ChatArea.AvatarOncePerRun | src/components/ChatArea.tsx:206-208 | in a run by one author with gaps of at most five minutes, only the first message shows the avatar |
| ChatArea.OwnAvatarAbove | src/components/ChatArea.tsx:206-208 | every message sits under an avatar of its own author: the nearest message at or above it showing an avatar has the same author |
| ChatArea.DisplayedUser | src/components/ChatArea.tsx:204-214 | the bubble shows the first user with the author's id, or the current user when none has it |
| ChatArea.DisplayedAuthor | src/components/ChatArea.tsx:204-214 | a message by an unknown author is shown under the current user's name |
| MessageBubble.TotalIsCountSum | client/src/components/MessageBubble.tsx:34-37 | the total of the counts is the total over the keys of their counts |
| MessageBubble.TallyMeaning | client/src/components/MessageBubble.tsx:34-37 | a tally holds exactly the emojis present, each at least 1, adding up to the number of reactions |
| MessageBubble.ReactionCounts | client/src/components/MessageBubble.tsx:34-37 | the record holds exactly the emojis present, in first-seen order, each with its number of reactions; the counts add up to the number of reactions |
| MessageBubble.ReactionRowMeaning | client/src/components/MessageBubble.tsx:111 | the row of chips appears exactly when the message has a reaction |
| MessageBubble.EveryChipHighlighted | client/src/components/MessageBubble.tsx:113-118 | as written, every chip shown is highlighted |
| MessageBubble.HighlightMisleads | client/src/components/MessageBubble.tsx:116-118 | as written, a chip can be highlighted while the viewer's click adds a reaction |
| MessageBubble.HighlightMatchesClick | client/src/components/MessageBubble.tsx:116-118 | with the viewer-based highlight, a click removes exactly when the chip is highlighted, and flips the highlight |
| MessageBubble.GarbledPickerCollides | client/src/components/MessageBubble.tsx:32 | as written, the picker's first and last strings are equal, and none of them is the fire emoji |
| MessageBubble.CommonEmojisDistinct | client/src/components/MessageBubble.tsx:32 | the intended picker offers eight different emojis, fire among them |
| MessageBubble.OnBubbleEvent | client/src/components/MessageBubble.tsx:116-166 | the smile button toggles the picker; a picker button reacts with its string and closes the picker; a chip reacts with its emoji; every call carries the message id |
| MessageBubble.PickerFirstLastAlike | client/src/components/MessageBubble.tsx:32 | with the picker as written, the first and last buttons make the same call and no button reacts with fire |
| MessageBubble.PickerCallsDistinct | client/src/components/MessageBubble.tsx:32 | with the intended picker, different buttons make different calls |

## Left out

- Persistence: `localStorage`, the JSON round trip and its date revival are left out (client/src/hooks/useChat.ts:6-41, src/hooks/useChat.ts:6-32). The initial state is the sample state.
- React scheduling: the timer of the simulated reply and its delay are left out. The reply is an action that may run at any later point, holding the state it was sent from, as the hook's closure does.
- The clock and random draws are parameters of each operation. One operation reads the clock once, so `timestamp` and `lastActivity` set together share a reading.
- Document side effects and styling are left out: the `dark` class, theme-dependent classes, room icons, scrolling and focus.
- Locale formatting is left out: `toLocaleTimeString`, `toLocaleDateString` and `formatDateHeader`. The day key `toDateString` is the function parameter `dayOf`.
- Strings.ToLower: lower-cases ASCII letters only; the Unicode case mapping of `toLowerCase` is not modelled.
- The unused id counters `nextUserId`, `nextRoomId` and `nextMessageId` (server/storage.ts:40-42, 196-198) are not modelled.
- Schema.ValidUser: does not check that the avatar is a URL; `z.date()` checks are replaced by integer times.
- Routes.StatusRoute: the status is taken as one of the three values. The handler passes the body's status to the store unchecked, and a value outside the three is not modelled.
- Routes.CreateRoomRoute: the body is modelled after decoding, with `lastActivity` already a time. A JSON body can only carry a string or a number there, and `z.date()` (shared/schema.ts:37) accepts only a `Date`, so over HTTP every request to this route gets the 400 answer; the model does not capture that decoding step.
- The default of the state's `theme` (shared/schema.ts:55) is not modelled: `appStateSchema` is never parsed by the core, and the hooks set the theme explicitly. The message `type` default (shared/schema.ts:26) is modelled where a schema parse applies it, on the messages nested in a room creation body (Schema.FillMessage); the store and the hooks set `type` explicitly on every message they build.
- Sidebar.StatusColor: the `default` branch for a status outside the three is not modelled, since the status type has only three values.
- Routes.Login and Routes.PostMessageRoute: a `name` or `content` that is truthy but not a string (a number, an object, an array) reaches `.trim()` (server/routes.ts:48, 181), which throws a TypeError that `handleError` answers with 500. The model takes these fields as strings, so that 500 path is not modelled.
- Routes.SearchMessagesRoute and Routes.SearchUsersRoute: a repeated `q` query parameter makes `q` an array, and `toLowerCase` (server/storage.ts:325, 338) then throws, so the answer is 500. The model takes `q` as a string, so that 500 path is not modelled.
- Console logging in `handleError` and in the hooks is left out. Express request parsing and zod's internal behaviour beyond `insertChatRoomSchema.parse` are left out too.
- The stored rooms' `messages` field set by `seedData` shares message objects with the `messages` array in the source. The model copies values, so the stored room field does not follow later reaction changes. The queries recompute messages from the store, so their answers are unaffected.
- Id uniqueness is not guaranteed by the source. The model proves that ids generated by the store differ whenever the clock or the draw differs, and that they differ from the seeded ids.
- The newer client's random id suffix `Math.random().toString(36).substr(2, 9)` is an id parameter.
- Sidebar.FormatLastActivity: uses exact integer division; JavaScript's floating point is not modelled for differences beyond 2^53 ms.
- MessageBubble.ReactionCounts: the tally is modelled with keys in first-seen order and numeric counts. That holds only for emoji strings that are not integer-like (such as "1", which an object lists first), not `__proto__` (whose assignment is not stored) and not the name of an `Object.prototype` property such as `constructor` or `toString` (whose count starts from the inherited function and becomes a string). The reaction route accepts any non-empty string as an emoji (server/routes.ts:225-227), so nothing enforces this; the model does not capture those keys.
- The `isTyping` map of the state is carried unchanged by every transition; nothing in the core writes it.

## Findings

| source | as written | input that shows it | evidently intended | confidence | as-written member | corrected member |
|---|---|---|---|---|---|---|
| src/hooks/useChat.ts:84-87 | the emoji of the third and sixth replies are stored as UTF-8 bytes read as Windows-1252 text | the third reply renders as "Interesting perspective ðŸ¤”" | the replies of the newer client, with 🤔 and 👍 | high, not executed | LegacyChat.ReplyTextAsWritten | LegacyChat.IntendedReplyText |
| client/src/components/MessageBubble.tsx:32 | the picker's emojis are stored as UTF-8 bytes read as Windows-1252 text | thumbs up and clapping become the same string, so the first and last buttons react alike and share a React key | eight distinct emojis: 👍 ❤️ 😂 😮 😢 🔥 🎉 👏 | high, not executed | MessageBubble.PickerFirstLastAlike | MessageBubble.PickerCallsDistinct |
| client/src/components/MessageBubble.tsx:118 | a chip is highlighted when anyone reacted with its emoji | user_2 reacted with 🔥; for viewer user_1 the chip is highlighted, and the click adds a second 🔥 | highlight when the viewer reacted, which is what the click toggles | medium, not executed | MessageBubble.HighlightMisleads | MessageBubble.HighlightMatchesClick |
