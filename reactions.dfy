/**
 * Reactions on a message and the two ways the code changes them: the toggle
 * used by the client hooks and by `MemStorage.addReaction`, and the
 * unconditional removal of `MemStorage.removeReaction`.
 */
module Reactions {
  import opened Seqs

  /** One user's emoji reaction, stamped with the time it was added (ms). */
  datatype Reaction = Reaction(emoji: string, userId: string, timestamp: int)

  /** `r` is the reaction of `userId` with `emoji`. */
  predicate IsPair(r: Reaction, userId: string, emoji: string) {
    r.userId == userId && r.emoji == emoji
  }

  /** The filter predicate `r => !(r.userId === userId && r.emoji === emoji)`. */
  function NotPair(userId: string, emoji: string): Reaction -> bool {
    r => !IsPair(r, userId, emoji)
  }

  /** `reactions.some(r => r.userId === userId && r.emoji === emoji)`. */
  predicate HasPair(rs: seq<Reaction>, userId: string, emoji: string) {
    exists i | 0 <= i < |rs| :: IsPair(rs[i], userId, emoji)
  }

  /** No (userId, emoji) pair occurs twice. */
  predicate NoDuplicatePairs(rs: seq<Reaction>) {
    forall i, j :: 0 <= i < j < |rs| ==> !IsPair(rs[j], rs[i].userId, rs[i].emoji)
  }

  /** Drops every reaction of `userId` with `emoji`, keeping the others in order. */
  function RemovePair(rs: seq<Reaction>, userId: string, emoji: string): (r: seq<Reaction>)
    ensures !HasPair(r, userId, emoji)
    ensures forall i :: 0 <= i < |r| ==> r[i] in rs
    ensures forall i :: 0 <= i < |rs| && !IsPair(rs[i], userId, emoji) ==> rs[i] in r
    ensures IsSubsequence(r, rs)
  {
    FilterIsSubsequence(rs, NotPair(userId, emoji));
    Filter(rs, NotPair(userId, emoji))
  }

  /**
   * The toggle: removes every reaction of `userId` with `emoji` when there is
   * one, and otherwise appends a new one stamped `now`.
   */
  function TogglePair(rs: seq<Reaction>, userId: string, emoji: string, now: int): (r: seq<Reaction>)
    ensures HasPair(r, userId, emoji) <==> !HasPair(rs, userId, emoji)
    ensures HasPair(rs, userId, emoji) ==> r == RemovePair(rs, userId, emoji)
    ensures !HasPair(rs, userId, emoji) ==> r == rs + [Reaction(emoji, userId, now)]
  {
    if HasPair(rs, userId, emoji) then RemovePair(rs, userId, emoji)
    else
      assert IsPair((rs + [Reaction(emoji, userId, now)])[|rs|], userId, emoji);
      rs + [Reaction(emoji, userId, now)]
  }

  /** Removing a pair that is not there changes nothing. */
  lemma RemoveAbsent(rs: seq<Reaction>, userId: string, emoji: string)
    requires !HasPair(rs, userId, emoji)
    ensures RemovePair(rs, userId, emoji) == rs
  {
    FilterKeepsAll(rs, NotPair(userId, emoji));
  }

  /** Removing twice is removing once. */
  lemma RemoveIdempotent(rs: seq<Reaction>, userId: string, emoji: string)
    ensures RemovePair(RemovePair(rs, userId, emoji), userId, emoji) == RemovePair(rs, userId, emoji)
  {
    RemoveAbsent(RemovePair(rs, userId, emoji), userId, emoji);
  }

  /** Removal only ever drops reactions, so it keeps pairs unique. */
  lemma {:induction false} RemoveKeepsNoDuplicates(rs: seq<Reaction>, userId: string, emoji: string)
    requires NoDuplicatePairs(rs)
    ensures NoDuplicatePairs(RemovePair(rs, userId, emoji))
  {
    if rs != [] {
      var tail := RemovePair(rs[1..], userId, emoji);
      RemoveKeepsNoDuplicates(rs[1..], userId, emoji);
      forall j | 0 <= j < |tail| ensures !IsPair(tail[j], rs[0].userId, rs[0].emoji) {
        var k :| 0 <= k < |rs[1..]| && rs[1..][k] == tail[j];
        assert rs[k + 1] == tail[j];
      }
      FilterCons(rs, NotPair(userId, emoji));
      if NotPair(userId, emoji)(rs[0]) {
        NoDuplicatesCons(rs[0], tail);
      }
    }
  }

  /** A reaction in front of reactions without duplicates, none of them its own pair, leaves no duplicates. */
  lemma NoDuplicatesCons(r: Reaction, rs: seq<Reaction>)
    requires NoDuplicatePairs(rs)
    requires forall j :: 0 <= j < |rs| ==> !IsPair(rs[j], r.userId, r.emoji)
    ensures NoDuplicatePairs([r] + rs)
  {
    var s := [r] + rs;
    forall i, j | 0 <= i < j < |s| ensures !IsPair(s[j], s[i].userId, s[i].emoji) {
      assert s[j] == rs[j - 1];
      if i > 0 {
        assert s[i] == rs[i - 1];
      }
    }
  }

  /** The toggle keeps pairs unique. */
  lemma ToggleKeepsNoDuplicates(rs: seq<Reaction>, userId: string, emoji: string, now: int)
    requires NoDuplicatePairs(rs)
    ensures NoDuplicatePairs(TogglePair(rs, userId, emoji, now))
  {
    if HasPair(rs, userId, emoji) {
      RemoveKeepsNoDuplicates(rs, userId, emoji);
    }
  }

  /** Starting without the pair, toggling twice restores the original reactions. */
  lemma ToggleTwiceRestores(rs: seq<Reaction>, userId: string, emoji: string, t1: int, t2: int)
    requires !HasPair(rs, userId, emoji)
    ensures TogglePair(TogglePair(rs, userId, emoji, t1), userId, emoji, t2) == rs
  {
    var added := Reaction(emoji, userId, t1);
    FilterConcat(rs, [added], NotPair(userId, emoji));
    RemoveAbsent(rs, userId, emoji);
  }

  /**
   * Starting with the pair, toggling twice does not restore the reactions: the
   * pair moves to the end, restamped with the second time.
   */
  lemma ToggleTwiceMovesPair(rs: seq<Reaction>, userId: string, emoji: string, t1: int, t2: int)
    requires HasPair(rs, userId, emoji)
    ensures TogglePair(TogglePair(rs, userId, emoji, t1), userId, emoji, t2)
         == RemovePair(rs, userId, emoji) + [Reaction(emoji, userId, t2)]
  {
  }
}
