/**
 * The rules the client's message bubble (client/src/components/MessageBubble.tsx)
 * renders by: the per-emoji reaction counts, when the reaction row appears,
 * which chips are highlighted, and the emoji picker.
 */
module MessageBubble {
  import opened Wrappers
  import opened Seqs
  import opened Keyed
  import opened Reactions
  import opened Schema

  function EmojiOf(r: Reaction): string { r.emoji }

  // ---------------------------------------------------------------------------
  // reactionCounts

  /** The sum of the counts of `keys`. */
  function Total(keys: seq<string>, counts: map<string, nat>): nat
    requires forall k :: k in keys ==> k in counts
    decreases |keys|
  {
    if keys == [] then 0 else counts[keys[0]] + Total(keys[1..], counts)
  }

  /** The total of the counts is the total over the keys of the counts they stand for. */
  lemma {:induction false} TotalIsCountSum(keys: seq<string>, counts: map<string, nat>, rs: seq<Reaction>)
    requires forall k :: k in keys ==> k in counts && counts[k] == Count(rs, HasKey(EmojiOf, k))
    ensures Total(keys, counts) == CountSum(rs, EmojiOf, keys)
    decreases |keys|
  {
    if keys != [] {
      TotalIsCountSum(keys[1..], counts, rs);
    }
  }

  /** What a tally of the reactions by emoji holds. */
  lemma TallyMeaning(keys: seq<string>, counts: map<string, nat>, reactions: seq<Reaction>)
    requires Tallied(keys, counts, reactions, EmojiOf)
    ensures forall e :: e in counts <==> exists j :: 0 <= j < |reactions| && reactions[j].emoji == e
    ensures forall e :: e in counts ==> counts[e] >= 1
    ensures Total(keys, counts) == |reactions|
  {
    TalliedMeaning(keys, counts, reactions, EmojiOf);
    TotalIsCountSum(keys, counts, reactions);
    CountsSumToLength(reactions, EmojiOf);
  }

  /**
   * `reactionCounts`: one pass over the reactions adding one to the count of
   * each reaction's emoji. The record holds exactly the emojis present, each
   * with its number of reactions, and the counts add up to the number of
   * reactions. `keys` is the record's key order.
   */
  method ReactionCounts(reactions: seq<Reaction>) returns (keys: seq<string>, counts: map<string, nat>)
    ensures keys == DistinctKeys(reactions, EmojiOf)
    ensures forall e :: e in counts <==> exists j :: 0 <= j < |reactions| && reactions[j].emoji == e
    ensures forall e :: e in counts ==> counts[e] == Count(reactions, HasKey(EmojiOf, e)) && counts[e] >= 1
    ensures forall e :: e in counts <==> e in keys
    ensures Total(keys, counts) == |reactions|
  {
    keys := [];
    counts := map[];
    ghost var seen: seq<Reaction> := [];
    var i := 0;
    while i < |reactions|
      invariant 0 <= i <= |reactions|
      invariant seen == reactions[..i]
      invariant Tallied(keys, counts, seen, EmojiOf)
    {
      var reaction := reactions[i];
      var e := reaction.emoji;
      var keys' := if e in counts then keys else keys + [e];
      var counts' := counts[e := (if e in counts then counts[e] else 0) + 1];
      TallyStep(keys, counts, seen, reaction, EmojiOf, e, keys', counts');
      keys, counts := keys', counts';
      PrefixSnoc(reactions, i);
      seen := seen + [reaction];
      i := i + 1;
    }
    assert seen == reactions;
    TallyMeaning(keys, counts, reactions);
  }

  // ---------------------------------------------------------------------------
  // The reaction row and its chips

  /** `Object.keys(reactionCounts).length > 0`. */
  predicate ReactionRowShown(keys: seq<string>) {
    |keys| > 0
  }

  /** The row of chips appears exactly when the message has a reaction. */
  lemma ReactionRowMeaning(reactions: seq<Reaction>)
    ensures ReactionRowShown(DistinctKeys(reactions, EmojiOf)) <==> reactions != []
  {
    if reactions != [] {
      assert EmojiOf(reactions[0]) in DistinctKeys(reactions, EmojiOf);
    }
  }

  /** The highlight test as written: `message.reactions.some(r => r.emoji === emoji)`. */
  predicate HighlightedAsWritten(reactions: seq<Reaction>, emoji: string) {
    exists j :: 0 <= j < |reactions| && reactions[j].emoji == emoji
  }

  /** Every chip shown is highlighted: the test ignores who reacted. */
  lemma EveryChipHighlighted(reactions: seq<Reaction>)
    ensures forall e :: e in DistinctKeys(reactions, EmojiOf) ==> HighlightedAsWritten(reactions, e)
  {
  }

  /**
   * A highlighted chip whose click adds a reaction: another user's fire
   * reaction highlights the chip for a viewer who has not reacted, and the
   * viewer's click then adds a second one instead of removing anything.
   */
  lemma HighlightMisleads()
    ensures var rs := [Reaction("\U{1F525}", "user_2", 0)];
            && HighlightedAsWritten(rs, "\U{1F525}")
            && !HasPair(rs, "user_1", "\U{1F525}")
            && |TogglePair(rs, "user_1", "\U{1F525}", 1)| == 2
  {
    var rs := [Reaction("\U{1F525}", "user_2", 0)];
    assert rs[0].userId[5] != "user_1"[5];
  }

  /** The highlight the toggle calls for: the viewer has reacted with this emoji. */
  predicate HighlightedFor(reactions: seq<Reaction>, viewerId: string, emoji: string) {
    HasPair(reactions, viewerId, emoji)
  }

  /**
   * With the viewer-based highlight, a click removes the viewer's reaction
   * exactly when the chip is highlighted, adds one exactly when it is not,
   * and flips the highlight.
   */
  lemma HighlightMatchesClick(reactions: seq<Reaction>, viewerId: string, emoji: string, now: int)
    ensures HighlightedFor(reactions, viewerId, emoji) ==>
              TogglePair(reactions, viewerId, emoji, now) == RemovePair(reactions, viewerId, emoji)
    ensures !HighlightedFor(reactions, viewerId, emoji) ==>
              TogglePair(reactions, viewerId, emoji, now) == reactions + [Reaction(emoji, viewerId, now)]
    ensures HighlightedFor(TogglePair(reactions, viewerId, emoji, now), viewerId, emoji) <==>
            !HighlightedFor(reactions, viewerId, emoji)
  {
  }

  // ---------------------------------------------------------------------------
  // The emoji picker

  /**
   * `commonEmojis` as the file holds it: the UTF-8 bytes of each emoji read
   * one byte per Windows-1252 character, the bytes that code page leaves
   * undefined dropped.
   */
  const GarbledEmojis: seq<string> := [
    "\U{00F0}\U{0178}\U{2018}",
    "\U{00E2}\U{00A4}\U{00EF}\U{00B8}",
    "\U{00F0}\U{0178}\U{02DC}\U{201A}",
    "\U{00F0}\U{0178}\U{02DC}\U{00AE}",
    "\U{00F0}\U{0178}\U{02DC}\U{00A2}",
    "\U{00F0}\U{0178}\U{201D}\U{00A5}",
    "\U{00F0}\U{0178}\U{017D}\U{2030}",
    "\U{00F0}\U{0178}\U{2018}"
  ]

  /** The eight picker emojis the bytes encode: thumbs up, heart, laughing, surprised, crying, fire, party, clapping. */
  const CommonEmojis: seq<string> := [
    "\U{1F44D}", "\U{2764}\U{FE0F}", "\U{1F602}", "\U{1F62E}",
    "\U{1F622}", "\U{1F525}", "\U{1F389}", "\U{1F44F}"
  ]

  /**
   * The garbled picker offers the same string first and last (thumbs up and
   * clapping lose their distinguishing byte), and none of its strings is an
   * emoji the sample messages react with, such as fire.
   */
  lemma GarbledPickerCollides()
    ensures |GarbledEmojis| == 8 && GarbledEmojis[0] == GarbledEmojis[7]
    ensures "\U{1F525}" !in GarbledEmojis
  {
    assert forall i :: 0 <= i < |GarbledEmojis| ==> |GarbledEmojis[i]| >= 3;
  }

  /** The intended picker offers eight different emojis, fire among them. */
  lemma CommonEmojisDistinct()
    ensures forall i, j :: 0 <= i < j < |CommonEmojis| ==> CommonEmojis[i] != CommonEmojis[j]
    ensures CommonEmojis[5] == "\U{1F525}"
  {
    assert CommonEmojis[1][0] == '\U{2764}';
    assert forall i :: 0 <= i < |CommonEmojis| && i != 1 ==> |CommonEmojis[i]| == 1;
  }

  /** What the user does on a bubble. */
  datatype BubbleEvent =
    | SmileClicked              // the reaction button
    | PickerClicked(index: nat) // the index-th picker button
    | ChipClicked(emoji: string)

  /** The bubble's picker state and the `onAddReaction(messageId, emoji)` call an event makes, if any. */
  datatype BubbleOutcome = BubbleOutcome(pickerOpen: bool, call: Option<(string, string)>)

  /**
   * The bubble's handlers, with `picker` the strings on the picker buttons
   * (the component holds `GarbledEmojis`): the reaction button toggles the
   * picker; a picker button, present only while the picker is open, reacts
   * with its string and closes the picker; a chip reacts with its emoji and
   * leaves the picker as it is.
   */
  function OnBubbleEvent(picker: seq<string>, pickerOpen: bool, messageId: string, ev: BubbleEvent): (r: BubbleOutcome)
    ensures ev.SmileClicked? ==> r.pickerOpen == !pickerOpen && r.call.None?
    ensures ev.PickerClicked? && pickerOpen && ev.index < |picker| ==>
              !r.pickerOpen && r.call == Some((messageId, picker[ev.index]))
    ensures ev.PickerClicked? && !(pickerOpen && ev.index < |picker|) ==> r == BubbleOutcome(pickerOpen, None)
    ensures ev.ChipClicked? ==> r.pickerOpen == pickerOpen && r.call == Some((messageId, ev.emoji))
    ensures r.call.Some? ==> r.call.value.0 == messageId
  {
    match ev
    case SmileClicked => BubbleOutcome(!pickerOpen, None)
    case PickerClicked(i) =>
      if pickerOpen && i < |picker| then BubbleOutcome(false, Some((messageId, picker[i])))
      else BubbleOutcome(pickerOpen, None)
    case ChipClicked(e) => BubbleOutcome(pickerOpen, Some((messageId, e)))
  }

  /**
   * With the picker as written, the first and last buttons make the same
   * call, and no button reacts with fire.
   */
  lemma PickerFirstLastAlike(messageId: string)
    ensures OnBubbleEvent(GarbledEmojis, true, messageId, PickerClicked(0)) ==
            OnBubbleEvent(GarbledEmojis, true, messageId, PickerClicked(7))
    ensures forall i :: 0 <= i < |GarbledEmojis| ==>
              OnBubbleEvent(GarbledEmojis, true, messageId, PickerClicked(i)).call != Some((messageId, "\U{1F525}"))
  {
    GarbledPickerCollides();
  }

  /** With the intended picker, different buttons make different calls. */
  lemma PickerCallsDistinct(messageId: string, i: nat, j: nat)
    requires i < |CommonEmojis| && j < |CommonEmojis| && i != j
    ensures OnBubbleEvent(CommonEmojis, true, messageId, PickerClicked(i)).call !=
            OnBubbleEvent(CommonEmojis, true, messageId, PickerClicked(j)).call
  {
    CommonEmojisDistinct();
  }
}
