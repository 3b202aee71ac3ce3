/**
 * The rules the older client's sidebar (src/components/Sidebar.tsx) renders
 * by: the colour of a status dot, the age of a room's last activity, the
 * unread badge, and the online users' header count and list.
 */
module Sidebar {
  import opened Wrappers
  import opened Seqs
  import opened Kinds
  import opened LegacyTypes
  import Strings

  // ---------------------------------------------------------------------------
  // getStatusColor

  /** `getStatusColor`: one class per status. */
  function StatusColor(status: Status): (c: string)
    ensures |c| >= 10 && c[..3] == "bg-" && c[|c| - 4..] == "-400"
  {
    match status
    case Online => "bg-green-400"
    case Away => "bg-yellow-400"
    case Offline => "bg-gray-400"
  }

  /** Different statuses get different colours. */
  lemma StatusColorInjective(a: Status, b: Status)
    ensures StatusColor(a) == StatusColor(b) <==> a == b
  {
    assert StatusColor(Online)[3] == 'g' && StatusColor(Away)[3] == 'y' && StatusColor(Offline)[3] == 'g';
    assert StatusColor(Online)[5] == 'e' && StatusColor(Offline)[5] == 'a';
  }

  // ---------------------------------------------------------------------------
  // formatLastActivity

  const MinuteMs := 60000
  const HourMs := 3600000
  const DayMs := 86400000

  /** A count followed by its unit letter, as `${n}m` renders it. */
  function Label(n: nat, unit: char): (r: string)
    ensures |r| >= 2 && r[|r| - 1] == unit && r[..|r| - 1] == Strings.NatToDecimal(n)
  {
    Strings.NatToDecimal(n) + [unit]
  }

  /**
   * `formatLastActivity` at clock reading `now`. `Math.floor` of a quotient by
   * a positive constant is Dafny's `/`, which rounds toward minus infinity
   * for a positive divisor, negative differences included.
   */
  function FormatLastActivity(now: int, date: int): (r: string)
    ensures r == "now" <==> now - date < MinuteMs
    ensures r != "now" ==> |r| >= 2 && r[|r| - 1] in {'m', 'h', 'd'}
  {
    var diff := now - date;
    var minutes := diff / MinuteMs;
    var hours := diff / HourMs;
    var days := diff / DayMs;
    assert "now"[2] == 'w';
    if minutes < 1 then "now"
    else if minutes < 60 then Label(minutes, 'm')
    else if hours < 24 then Label(hours, 'h')
    else Label(days, 'd')
  }

  /** The unit letter the label of a difference carries, decided on the difference itself. */
  function UnitOf(diff: int): char {
    if diff < HourMs then 'm' else if diff < DayMs then 'h' else 'd'
  }

  /** The unit, in milliseconds, that a unit letter stands for. */
  function UnitMs(unit: char): (u: nat)
    ensures u > 0
  {
    if unit == 'm' then MinuteMs else if unit == 'h' then HourMs else DayMs
  }

  /**
   * Away from "now", the label is the number of whole units in the
   * difference followed by the unit: minutes under an hour, hours under a
   * day, days from then on.
   */
  lemma FormatLastActivityBuckets(now: int, date: int)
    requires now - date >= MinuteMs
    ensures FormatLastActivity(now, date) == Label((now - date) / UnitMs(UnitOf(now - date)), UnitOf(now - date))
  {
  }

  /** Euclidean division by a positive divisor rounds down. */
  lemma FloorBounds(diff: int, u: int)
    requires u > 0
    ensures (diff / u) * u <= diff < (diff / u + 1) * u
  {
    var q, m := diff / u, diff % u;
    assert diff == q * u + m;
  }

  /**
   * Reading the label back: the number shown is the count of whole units in
   * the difference, so the difference lies in [n * unit, (n + 1) * unit).
   */
  lemma FormatLastActivityReadBack(now: int, date: int)
    requires FormatLastActivity(now, date) != "now"
    ensures var r := FormatLastActivity(now, date);
            var n := Strings.DecimalValue(r[..|r| - 1]);
            var u := UnitMs(r[|r| - 1]);
            n >= 1 && n * u <= now - date < (n + 1) * u
  {
    var diff := now - date;
    var u := UnitMs(UnitOf(diff));
    var q := diff / u;
    FormatLastActivityBuckets(now, date);
    Strings.DecimalRoundTrip(q);
    FloorBounds(diff, u);
  }

  // ---------------------------------------------------------------------------
  // The unread badge

  /** The badge of a room: none for no unread messages, the count up to 99, and "99+" above. */
  function UnreadBadge(unreadCount: int): (r: Option<string>)
    ensures r.Some? <==> unreadCount > 0
    ensures unreadCount > 99 ==> r == Some("99+")
    ensures 0 < unreadCount <= 99 ==> r.Some? && |r.value| <= 2
  {
    if unreadCount <= 0 then None
    else if unreadCount > 99 then Some("99+")
    else
      assert unreadCount >= 10 ==> |Strings.NatToDecimal(unreadCount / 10)| == 1;
      Some(Strings.NatToDecimal(unreadCount))
  }

  /** A badge of 1 to 99 reads back as the exact count. */
  lemma UnreadBadgeExact(unreadCount: int)
    requires 0 < unreadCount <= 99
    ensures Strings.DecimalValue(UnreadBadge(unreadCount).value) == unreadCount
  {
    Strings.DecimalRoundTrip(unreadCount);
  }

  // ---------------------------------------------------------------------------
  // The online users

  function IsOnline(u: User): bool { u.status == Online }

  /** `user => user.status === 'online' && user.id !== currentUser.id`. */
  function OnlineOther(currentId: string): User -> bool {
    (u: User) => u.status == Online && u.id != currentId
  }

  /** The online users with the current user's id. */
  function OnlineSelf(currentId: string): User -> bool {
    (u: User) => u.status == Online && u.id == currentId
  }

  /** The header's number: every online user, the current user included. */
  function OnlineCount(users: seq<User>): (n: nat)
    ensures n <= |users|
  {
    |Filter(users, IsOnline)|
  }

  /** The list under the header: the online users other than the current user, in order. */
  function OnlineList(users: seq<User>, current: User): (r: seq<User>)
    ensures forall u :: u in r <==> u in users && u.status == Online && u.id != current.id
    ensures IsSubsequence(r, users)
  {
    FilterIsSubsequence(users, OnlineOther(current.id));
    Filter(users, OnlineOther(current.id))
  }

  /** The header counts the listed users plus the online users with the current user's id. */
  lemma {:induction false} OnlineCountSplit(users: seq<User>, current: User)
    ensures OnlineCount(users) == |OnlineList(users, current)| + Count(users, OnlineSelf(current.id))
    decreases |users|
  {
    if users != [] {
      OnlineCountSplit(users[1..], current);
    }
  }

  /** With unique ids, a user present in the list is counted once. */
  lemma {:induction false} SelfCountedOnce(users: seq<User>, me: User)
    requires UniqueBy(users, UserIdOf) && me in users && me.status == Online
    ensures Count(users, OnlineSelf(me.id)) == 1
    decreases |users|
  {
    var rest := users[1..];
    assert forall i :: 0 <= i < |rest| ==> rest[i] == users[i + 1];
    if users[0] == me {
      assert forall i :: 0 <= i < |rest| ==> !OnlineSelf(me.id)(rest[i]);
    } else {
      assert UniqueBy(rest, UserIdOf);
      SelfCountedOnce(rest, me);
      assert users[0].id != me.id by {
        var j :| 0 <= j < |rest| && rest[j] == me;
        assert users[j + 1] == me;
      }
    }
  }

  /**
   * When the current user is online and among the users (ids unique), the
   * header shows one more than the list holds; otherwise, with no user
   * sharing that id, the two agree.
   */
  lemma OnlineCountVersusList(users: seq<User>, current: User)
    requires UniqueBy(users, UserIdOf)
    ensures current in users && current.status == Online ==> OnlineCount(users) == |OnlineList(users, current)| + 1
    ensures (forall i :: 0 <= i < |users| ==> users[i].id != current.id) ==> OnlineCount(users) == |OnlineList(users, current)|
  {
    OnlineCountSplit(users, current);
    if current in users && current.status == Online {
      SelfCountedOnce(users, current);
    }
  }
}
