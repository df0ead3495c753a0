/**
 * Read-only statistics over the stored `DailySubmission` records: the current streak
 * of a member, the number of completions in a week or a month, and the streak
 * leaderboard of a guild. Each is a function of the records, so none of them changes
 * the store.
 */
module StatsUtils {
  import opened Common
  import opened DailySubmission

  predicate IsCompletedBy(r: Record, userId: string, guildId: string) {
    r.userId == userId && r.guildId == guildId && r.completed
  }

  // ---------------------------------------------------------------------------
  // calculateStreak

  /**
   * The streak query (modules/statsUtils.js:10-14): a completed record of the member in
   * the guild with the latest date (among equal dates, the first one stored).
   */
  function Latest(rs: seq<Record>, userId: string, guildId: string): (l: Option<Record>)
    ensures l.None? <==> forall i :: 0 <= i < |rs| ==> !IsCompletedBy(rs[i], userId, guildId)
    ensures l.Some? ==> l.value in rs && IsCompletedBy(l.value, userId, guildId)
    ensures l.Some? ==> forall i :: 0 <= i < |rs| && IsCompletedBy(rs[i], userId, guildId) ==> rs[i].date <= l.value.date
  {
    if rs == [] then None
    else
      var rest := Latest(rs[1..], userId, guildId);
      assert forall i :: 1 <= i < |rs| ==> rs[i] == rs[1..][i - 1];
      if !IsCompletedBy(rs[0], userId, guildId) then rest
      else if rest.None? || rest.value.date <= rs[0].date then Some(rs[0])
      else rest
  }

  /**
   * `calculateStreak(userId, guildId)` on day `today`: the stored streak of the latest
   * completed record when that record is dated today or yesterday, and 0 otherwise.
   */
  function CalculateStreak(rs: seq<Record>, userId: string, guildId: string, today: int): (n: int)
    ensures n != 0 ==> exists i :: (0 <= i < |rs| && IsCompletedBy(rs[i], userId, guildId)
      && n == rs[i].streakCount && today - 1 <= rs[i].date <= today
      && forall j :: 0 <= j < |rs| && IsCompletedBy(rs[j], userId, guildId) ==> rs[j].date <= rs[i].date)
  {
    match Latest(rs, userId, guildId)
    case None => 0
    case Some(l) => if l.date == today || l.date == today - 1 then l.streakCount else 0
  }

  /** Without a completed record of the member in the guild, the streak is 0. */
  lemma StreakWithoutRecordIsZero(rs: seq<Record>, userId: string, guildId: string, today: int)
    requires forall i :: 0 <= i < |rs| ==> !IsCompletedBy(rs[i], userId, guildId)
    ensures CalculateStreak(rs, userId, guildId, today) == 0
  {
  }

  /**
   * Lazy invalidation: when the member's latest completion is dated before yesterday
   * (or after today), the streak reads as 0 although the stored record keeps its value.
   */
  lemma StreakOfStaleRecordIsZero(rs: seq<Record>, userId: string, guildId: string, today: int, i: nat)
    requires i < |rs| && IsCompletedBy(rs[i], userId, guildId)
    requires forall j :: 0 <= j < |rs| && IsCompletedBy(rs[j], userId, guildId) ==> rs[j].date <= rs[i].date
    requires rs[i].date < today - 1 || rs[i].date > today
    ensures CalculateStreak(rs, userId, guildId, today) == 0
  {
  }

  /**
   * When the member's latest completion is dated today or yesterday (and every record
   * of that date carries the same streak), the stored streak is returned.
   */
  lemma StreakOfRecentRecordIsStored(rs: seq<Record>, userId: string, guildId: string, today: int, i: nat)
    requires i < |rs| && IsCompletedBy(rs[i], userId, guildId)
    requires forall j :: 0 <= j < |rs| && IsCompletedBy(rs[j], userId, guildId) ==> rs[j].date <= rs[i].date
    requires forall j :: 0 <= j < |rs| && IsCompletedBy(rs[j], userId, guildId) && rs[j].date == rs[i].date ==> rs[j].streakCount == rs[i].streakCount
    requires rs[i].date == today || rs[i].date == today - 1
    ensures CalculateStreak(rs, userId, guildId, today) == rs[i].streakCount
  {
    var l := Latest(rs, userId, guildId).value;
    var k :| 0 <= k < |rs| && rs[k] == l;
  }

  // ---------------------------------------------------------------------------
  // calculateCompletionRates

  const MsPerDay: int := 86_400_000

  /** The current instant as a local calendar day and the milliseconds elapsed since its midnight. */
  datatype Clock = Clock(day: int, msOfDay: int)

  predicate ValidClock(c: Clock) {
    0 <= c.msOfDay < MsPerDay
  }

  /** A record dated midnight of `day` is at or after the instant `start` (the query's lower bound on `date`). */
  predicate AtOrAfter(day: int, start: Clock) {
    day > start.day || (day == start.day && start.msOfDay == 0)
  }

  /**
   * The start of the counting window (modules/statsUtils.js:42-45): seven calendar days
   * back for "weekly" and one calendar month back for any other period, both at the
   * current time of day. `monthAgo` is the calendar day one month before today, which
   * the caller supplies.
   */
  function WindowStart(now: Clock, period: string, monthAgo: int): (start: Clock)
    ensures start.msOfDay == now.msOfDay
    ensures ValidClock(now) ==> ValidClock(start)
    ensures period == "weekly" ==> start.day == now.day - 7
    ensures period != "weekly" ==> start.day == monthAgo
  {
    if period == "weekly" then Clock(now.day - 7, now.msOfDay) else Clock(monthAgo, now.msOfDay)
  }

  predicate InWindow(r: Record, userId: string, guildId: string, start: Clock) {
    IsCompletedBy(r, userId, guildId) && AtOrAfter(r.date, start)
  }

  /** The records the window query returns, in store order: the member's completions in the guild dated at or after `start` (modules/statsUtils.js:47-52). */
  function FindInWindow(rs: seq<Record>, userId: string, guildId: string, start: Clock): (found: seq<Record>)
    ensures |found| <= |rs|
    ensures forall r :: r in found <==> r in rs && InWindow(r, userId, guildId, start)
  {
    if rs == [] then []
    else
      var rest := FindInWindow(rs[..|rs| - 1], userId, guildId, start);
      assert forall r :: r in rs <==> r in rs[..|rs| - 1] || r == rs[|rs| - 1];
      if InWindow(rs[|rs| - 1], userId, guildId, start) then rest + [rs[|rs| - 1]] else rest
  }

  /** The window query keeps every matching record as often as it is stored and drops the rest. */
  lemma {:induction false} FindInWindowCounts(rs: seq<Record>, userId: string, guildId: string, start: Clock, r: Record)
    ensures multiset(FindInWindow(rs, userId, guildId, start))[r]
      == if InWindow(r, userId, guildId, start) then multiset(rs)[r] else 0
  {
    if rs != [] {
      var init := rs[..|rs| - 1];
      FindInWindowCounts(init, userId, guildId, start, r);
      assert rs == init + [rs[|rs| - 1]];
    }
  }

  datatype CompletionRate = CompletionRate(total: nat, period: string)

  /** `calculateCompletionRates(userId, guildId, period)`: the number of completions in the window, with the period echoed. */
  function CalculateCompletionRates(rs: seq<Record>, userId: string, guildId: string, period: string,
                                    now: Clock, monthAgo: int): (c: CompletionRate)
    requires ValidClock(now)
    ensures c.period == period
    ensures c.total == |FindInWindow(rs, userId, guildId, WindowStart(now, period, monthAgo))|
  {
    CompletionRate(|FindInWindow(rs, userId, guildId, WindowStart(now, period, monthAgo))|, period)
  }

  /** A new record raises the count by one exactly when it is a completion of the member inside the window. */
  lemma {:induction false} CompletionCountAppend(rs: seq<Record>, r: Record, userId: string, guildId: string, period: string,
                                                 now: Clock, monthAgo: int)
    requires ValidClock(now)
    ensures CalculateCompletionRates(rs + [r], userId, guildId, period, now, monthAgo).total
         == CalculateCompletionRates(rs, userId, guildId, period, now, monthAgo).total
            + (if InWindow(r, userId, guildId, WindowStart(now, period, monthAgo)) then 1 else 0)
  {
    assert (rs + [r])[..|rs + [r]| - 1] == rs;
  }

  /**
   * A weekly count includes a completion dated exactly seven days ago only when it is
   * asked for at midnight; completions of the last six days always count.
   */
  lemma WeeklyWindowBoundary(r: Record, now: Clock, monthAgo: int)
    requires ValidClock(now) && r.completed
    ensures r.date == now.day - 7 ==> (InWindow(r, r.userId, r.guildId, WindowStart(now, "weekly", monthAgo)) <==> now.msOfDay == 0)
    ensures now.day - 7 < r.date ==> InWindow(r, r.userId, r.guildId, WindowStart(now, "weekly", monthAgo))
    ensures r.date < now.day - 7 ==> !InWindow(r, r.userId, r.guildId, WindowStart(now, "weekly", monthAgo))
  {
  }

  // ---------------------------------------------------------------------------
  // generateLeaderboard

  const LeaderboardSize: nat := 10

  /** The filter of the leaderboard query: the guild's completed records since yesterday's midnight with a positive streak. */
  predicate OnBoard(r: Record, guildId: string, today: int) {
    r.guildId == guildId && r.completed && r.date >= today - 1 && r.streakCount > 0
  }

  function Eligible(rs: seq<Record>, guildId: string, today: int): (e: seq<Record>)
    ensures forall r :: r in e <==> r in rs && OnBoard(r, guildId, today)
  {
    if rs == [] then []
    else
      var rest := Eligible(rs[1..], guildId, today);
      assert forall r :: r in rs <==> r == rs[0] || r in rs[1..];
      if OnBoard(rs[0], guildId, today) then [rs[0]] + rest else rest
  }

  /** The leaderboard filter keeps every qualifying record as often as it is stored and drops the rest. */
  lemma {:induction false} EligibleCounts(rs: seq<Record>, guildId: string, today: int, r: Record)
    ensures multiset(Eligible(rs, guildId, today))[r]
      == if OnBoard(r, guildId, today) then multiset(rs)[r] else 0
  {
    if rs != [] {
      EligibleCounts(rs[1..], guildId, today, r);
      assert rs == [rs[0]] + rs[1..];
    }
  }

  /** The leaderboard's order, streak descending and then date descending: `a` may come before `b` (modules/statsUtils.js:79). */
  predicate RanksBefore(a: Record, b: Record) {
    a.streakCount > b.streakCount || (a.streakCount == b.streakCount && a.date >= b.date)
  }

  predicate SortedForBoard(s: seq<Record>) {
    forall i, j :: 0 <= i < j < |s| ==> RanksBefore(s[i], s[j])
  }

  /** A record that ranks before every element of a sorted sequence can be put in front of it. */
  lemma PrependSorted(a: Record, s: seq<Record>)
    requires SortedForBoard(s)
    requires forall y :: y in s ==> RanksBefore(a, y)
    ensures SortedForBoard([a] + s)
  {
    var t := [a] + s;
    forall i, j | 0 <= i < j < |t|
      ensures RanksBefore(t[i], t[j])
    {
      if i > 0 {
        assert t[i] == s[i - 1] && t[j] == s[j - 1];
      } else {
        assert t[j] == s[j - 1] && t[j] in s;
      }
    }
  }

  function InsertByRank(x: Record, s: seq<Record>): (r: seq<Record>)
    requires SortedForBoard(s)
    ensures SortedForBoard(r)
    ensures |r| == |s| + 1
    ensures forall y :: y in r <==> y == x || y in s
    ensures multiset(r) == multiset(s) + multiset{x}
  {
    if s == [] then [x]
    else if RanksBefore(x, s[0]) then
      assert forall y :: y in s ==> RanksBefore(x, y) by {
        forall y | y in s
          ensures RanksBefore(x, y)
        {
          var k :| 0 <= k < |s| && s[k] == y;
          if k > 0 {
            assert RanksBefore(s[0], s[k]);
          }
        }
      }
      PrependSorted(x, s);
      [x] + s
    else
      var rest := InsertByRank(x, s[1..]);
      assert s == [s[0]] + s[1..];
      assert forall y :: y in rest ==> RanksBefore(s[0], y) by {
        forall y | y in rest
          ensures RanksBefore(s[0], y)
        {
          if y != x {
            var k :| 0 <= k < |s[1..]| && s[1..][k] == y;
            assert y == s[k + 1];
          }
        }
      }
      PrependSorted(s[0], rest);
      [s[0]] + rest
  }

  /** Insertion sort by streak, then date, both descending; records that tie on both keep their store order. */
  function SortForBoard(s: seq<Record>): (r: seq<Record>)
    ensures SortedForBoard(r)
    ensures |r| == |s|
    ensures forall y :: y in r <==> y in s
    ensures multiset(r) == multiset(s)
  {
    if s == [] then []
    else
      assert s == [s[0]] + s[1..];
      InsertByRank(s[0], SortForBoard(s[1..]))
  }

  /** The records behind the leaderboard: the sorted eligible records, cut after the first ten. */
  function TopRecords(rs: seq<Record>, guildId: string, today: int): seq<Record> {
    var sorted := SortForBoard(Eligible(rs, guildId, today));
    if |sorted| <= LeaderboardSize then sorted else sorted[..LeaderboardSize]
  }

  datatype Entry = Entry(rank: nat, userId: string, streak: int)

  /**
   * `generateLeaderboard(guildId)` on day `today`: at most ten entries, ranked 1..n, each
   * taken from an eligible record, ordered by streak.
   */
  function GenerateLeaderboard(rs: seq<Record>, guildId: string, today: int): (board: seq<Entry>)
    ensures |board| <= LeaderboardSize
    ensures |board| == if |Eligible(rs, guildId, today)| <= LeaderboardSize then |Eligible(rs, guildId, today)| else LeaderboardSize
    ensures forall i :: 0 <= i < |board| ==> board[i].rank == i + 1
    ensures forall i :: 0 <= i < |board| ==> exists r :: (r in rs && OnBoard(r, guildId, today)
      && board[i].userId == r.userId && board[i].streak == r.streakCount)
    ensures forall i, j :: 0 <= i < j < |board| ==> board[i].streak >= board[j].streak
    ensures board == RankEntries(TopRecords(rs, guildId, today))
  {
    var top := TopRecords(rs, guildId, today);
    TopRecordsOrdered(rs, guildId, today);
    assert forall i :: 0 <= i < |top| ==> top[i] in rs && OnBoard(top[i], guildId, today) by {
      forall i | 0 <= i < |top|
        ensures top[i] in rs && OnBoard(top[i], guildId, today)
      {
        assert top[i] in top;
      }
    }
    RankEntries(top)
  }

  /** The entries of the leaderboard: entry `i` is ranked `i + 1` (modules/statsUtils.js:82-86). */
  function RankEntries(top: seq<Record>): (board: seq<Entry>)
    ensures |board| == |top|
    ensures forall i :: 0 <= i < |top| ==> board[i] == Entry(i + 1, top[i].userId, top[i].streakCount)
  {
    seq(|top|, i requires 0 <= i < |top| => Entry(i + 1, top[i].userId, top[i].streakCount))
  }

  /** The leaderboard's records are eligible, ordered by streak and then by date, both descending. */
  lemma TopRecordsOrdered(rs: seq<Record>, guildId: string, today: int)
    ensures |TopRecords(rs, guildId, today)| == if |Eligible(rs, guildId, today)| <= LeaderboardSize then |Eligible(rs, guildId, today)| else LeaderboardSize
    ensures SortedForBoard(TopRecords(rs, guildId, today))
    ensures forall r :: r in TopRecords(rs, guildId, today) ==> r in rs && OnBoard(r, guildId, today)
  {
    var sorted := SortForBoard(Eligible(rs, guildId, today));
    var top := TopRecords(rs, guildId, today);
    assert forall r :: r in top ==> r in sorted;
  }

  /**
   * The cut keeps the best: an eligible record left off the leaderboard ranks no
   * higher than the tenth entry.
   */
  lemma TopRecordsAreTheBest(rs: seq<Record>, guildId: string, today: int, x: Record)
    requires x in multiset(Eligible(rs, guildId, today)) - multiset(TopRecords(rs, guildId, today))
    ensures |TopRecords(rs, guildId, today)| == LeaderboardSize
    ensures RanksBefore(TopRecords(rs, guildId, today)[LeaderboardSize - 1], x)
  {
    var sorted := SortForBoard(Eligible(rs, guildId, today));
    var top := TopRecords(rs, guildId, today);
    if |sorted| <= LeaderboardSize {
      assert false;
    }
    assert sorted == top + sorted[LeaderboardSize..];
    assert multiset(sorted) == multiset(top) + multiset(sorted[LeaderboardSize..]);
    assert x in sorted[LeaderboardSize..];
    var k :| LeaderboardSize <= k < |sorted| && sorted[k] == x;
    assert top[LeaderboardSize - 1] == sorted[LeaderboardSize - 1];
  }

  /**
   * The leaderboard has one entry per record, not per member: a member with completions
   * today and yesterday holds two places.
   */
  lemma MemberCanAppearTwice(today: int)
    ensures var yesterday := Record("g", "u", "alice", today - 1, "Two Sum", "two-sum", Easy, 0, true, 1);
            var todays := Record("g", "u", "alice", today, "Add Two Numbers", "add-two-numbers", Medium, 0, true, 2);
            GenerateLeaderboard([yesterday, todays], "g", today)
              == [Entry(1, "u", 2), Entry(2, "u", 1)]
  {
    var yesterday := Record("g", "u", "alice", today - 1, "Two Sum", "two-sum", Easy, 0, true, 1);
    var todays := Record("g", "u", "alice", today, "Add Two Numbers", "add-two-numbers", Medium, 0, true, 2);
    var rs := [yesterday, todays];
    assert rs[1..] == [todays] && [todays][1..] == [];
    assert Eligible([todays], "g", today) == [todays];
    assert Eligible(rs, "g", today) == [yesterday, todays];
    assert SortForBoard([todays]) == [todays] by {
      assert InsertByRank(todays, []) == [todays];
    }
    assert InsertByRank(yesterday, [todays]) == [todays, yesterday] by {
      assert !RanksBefore(yesterday, todays);
      assert [todays][1..] == [];
      assert InsertByRank(yesterday, []) == [yesterday];
    }
    assert SortForBoard(rs) == [todays, yesterday];
    assert TopRecords(rs, "g", today) == [todays, yesterday];
  }
}
