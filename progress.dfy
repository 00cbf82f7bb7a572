/** The progress record kept per user (`user_stats`) and the transition one
    completed analysis makes on it. Calendar dates are day numbers, so the
    day before `today` is `today - 1`. */
module Progress {
  import opened Arith
  import opened Wrappers

  /** A `user_stats` row: the counters and the day of the last analysis. */
  datatype UserStats = UserStats(
    currentStreak: nat,
    longestStreak: nat,
    totalAnalyses: nat,
    lastAnalysisDate: Option<int>)

  /** The record's own invariant: the longest streak covers the current one. */
  predicate ValidStats(s: UserStats)
  {
    s.currentStreak <= s.longestStreak
  }

  /** `stats?.current_streak || 0` and its siblings: the field of a record
      that may be absent, with 0 for the absent record. */
  function CurrentOf(stats: Option<UserStats>): nat
  {
    if stats.Some? then stats.value.currentStreak else 0
  }

  function LongestOf(stats: Option<UserStats>): nat
  {
    if stats.Some? then stats.value.longestStreak else 0
  }

  function TotalOf(stats: Option<UserStats>): nat
  {
    if stats.Some? then stats.value.totalAnalyses else 0
  }

  /** The streak rule, case by case: a first analysis, or one after a record
      without a date, starts at 1; a repeat on the same day keeps the streak;
      an analysis on the day after the last one extends it; any other gap
      restarts it at 1. */
  function NextStreak(stats: Option<UserStats>, today: int): (n: nat)
    ensures n <= CurrentOf(stats) + 1
    ensures n != 1 ==>
      stats.Some? && stats.value.lastAnalysisDate.Some? &&
      today - 1 <= stats.value.lastAnalysisDate.value <= today
  {
    match stats
    case None => 1
    case Some(s) =>
      match s.lastAnalysisDate
      case None => 1
      case Some(last) =>
        if last == today then s.currentStreak
        else if last == today - 1 then s.currentStreak + 1
        else 1
  }

  /** The record after one analysis on `today`. */
  function Advance(stats: Option<UserStats>, today: int): (next: UserStats)
    ensures ValidStats(next)
    ensures next.longestStreak >= LongestOf(stats)
    ensures next.totalAnalyses > TotalOf(stats)
    ensures next.lastAnalysisDate == Some(today)
  {
    var streak := NextStreak(stats, today);
    UserStats(streak, Max(streak, LongestOf(stats)), TotalOf(stats) + 1, Some(today))
  }

  /** The computation of `newStreak`, `newTotal` and `newLongest` in
      `handleAnalyze`, in its own shape: the streak is read from the old
      record and reassigned through nested tests on the last date. */
  method ComputeProgress(stats: Option<UserStats>, today: int) returns (next: UserStats)
    ensures next == Advance(stats, today)
    ensures stats.None? ==> next.currentStreak == 1
    ensures stats.Some? && stats.value.lastAnalysisDate.None? ==> next.currentStreak == 1
    ensures stats.Some? && stats.value.lastAnalysisDate == Some(today) ==>
      next.currentStreak == stats.value.currentStreak
    ensures stats.Some? && stats.value.lastAnalysisDate == Some(today - 1) ==>
      next.currentStreak == stats.value.currentStreak + 1
    ensures stats.Some? && stats.value.lastAnalysisDate.Some? ==>
      var last := stats.value.lastAnalysisDate.value;
      (last != today && last != today - 1 ==> next.currentStreak == 1)
    ensures next.totalAnalyses == TotalOf(stats) + 1
    ensures next.longestStreak == Max(next.currentStreak, LongestOf(stats))
    ensures next.longestStreak >= next.currentStreak
    ensures next.lastAnalysisDate == Some(today)
  {
    var lastDate := if stats.Some? then stats.value.lastAnalysisDate else None;
    var newStreak := CurrentOf(stats);
    if lastDate.None? || lastDate.value != today {
      if lastDate.Some? {
        var yesterday := today - 1;
        if lastDate.value == yesterday {
          newStreak := newStreak + 1;
        } else {
          newStreak := 1;
        }
      } else {
        newStreak := 1;
      }
    }
    var newTotal := TotalOf(stats) + 1;
    var newLongest := Max(newStreak, LongestOf(stats));
    next := UserStats(newStreak, newLongest, newTotal, Some(today));
  }

  /** The record after analyses on each of `days` in turn. */
  function Replay(stats: Option<UserStats>, days: seq<int>): Option<UserStats>
    decreases |days|
  {
    if days == [] then stats else Replay(Some(Advance(stats, days[0])), days[1..])
  }

  lemma {:induction false} ReplayAppend(stats: Option<UserStats>, a: seq<int>, b: seq<int>)
    ensures Replay(stats, a + b) == Replay(Replay(stats, a), b)
    decreases |a|
  {
    if a != [] {
      assert (a + b)[1..] == a[1..] + b;
      ReplayAppend(Some(Advance(stats, a[0])), a[1..], b);
    } else {
      assert a + b == b;
    }
  }

  /** Every analysis is counted, same-day repeats included. */
  lemma {:induction false} ReplayTotal(stats: Option<UserStats>, days: seq<int>)
    ensures TotalOf(Replay(stats, days)) == TotalOf(stats) + |days|
    decreases |days|
  {
    if days != [] {
      ReplayTotal(Some(Advance(stats, days[0])), days[1..]);
    }
  }

  /** After at least one analysis the record exists, is valid and carries
      the last day analysed. */
  lemma {:induction false} ReplayValid(stats: Option<UserStats>, days: seq<int>)
    requires days != []
    ensures Replay(stats, days).Some?
    ensures ValidStats(Replay(stats, days).value)
    ensures Replay(stats, days).value.lastAnalysisDate == Some(days[|days| - 1])
    decreases |days|
  {
    if |days| > 1 {
      ReplayValid(Some(Advance(stats, days[0])), days[1..]);
    }
  }

  /** The longest streak never decreases, whatever the days. */
  lemma {:induction false} ReplayLongestMonotone(stats: Option<UserStats>, days: seq<int>)
    ensures LongestOf(Replay(stats, days)) >= LongestOf(stats)
    decreases |days|
  {
    if days != [] {
      ReplayLongestMonotone(Some(Advance(stats, days[0])), days[1..]);
    }
  }

  /** ... and so it never decreases from one prefix of the days to a longer one. */
  lemma LongestAlongPrefixes(stats: Option<UserStats>, days: seq<int>, j: nat, k: nat)
    requires j <= k <= |days|
    ensures LongestOf(Replay(stats, days[..j])) <= LongestOf(Replay(stats, days[..k]))
  {
    assert days[..k] == days[..j] + days[j..k];
    ReplayAppend(stats, days[..j], days[j..k]);
    ReplayLongestMonotone(Replay(stats, days[..j]), days[j..k]);
  }

  /** `n` consecutive days. */
  function Days(first: int, n: nat): seq<int>
  {
    seq(n, i => first + i)
  }

  /** Analysing on each of `n` consecutive days, starting the day after the
      last recorded one, extends the streak by `n`. */
  lemma {:induction false} ConsecutiveDaysExtend(s: UserStats, first: int, n: nat)
    requires s.lastAnalysisDate == Some(first - 1)
    ensures Replay(Some(s), Days(first, n)).Some?
    ensures Replay(Some(s), Days(first, n)).value.currentStreak == s.currentStreak + n
    decreases n
  {
    if n > 0 {
      var s' := Advance(Some(s), first);
      assert Days(first, n)[1..] == Days(first + 1, n - 1);
      ConsecutiveDaysExtend(s', first + 1, n - 1);
    }
  }

  /** A new user who analyses on `n` consecutive days has a streak of `n`. */
  lemma ConsecutiveDaysFromScratch(first: int, n: nat)
    requires n > 0
    ensures Replay(None, Days(first, n)).Some?
    ensures Replay(None, Days(first, n)).value.currentStreak == n
  {
    var s := Advance(None, first);
    assert Days(first, n)[1..] == Days(first + 1, n - 1);
    ConsecutiveDaysExtend(s, first + 1, n - 1);
  }

  /** The worked streak scenarios: days D, D+1, D+3 give streaks 1, 2, 1; two
      analyses on one day keep the streak and count twice; a six-day streak
      extended on the next day reaches 7. */
  lemma StreakScenarios(d: int, s: UserStats)
    requires s.lastAnalysisDate == Some(d) && s.currentStreak == 6 && s.longestStreak == 6
    ensures Advance(None, d) == UserStats(1, 1, 1, Some(d))
    ensures Advance(Some(Advance(None, d)), d + 1).currentStreak == 2
    ensures Advance(Some(Advance(Some(Advance(None, d)), d + 1)), d + 3).currentStreak == 1
    ensures Advance(Some(Advance(None, d)), d) == UserStats(1, 1, 2, Some(d))
    ensures Advance(Some(s), d + 1) == UserStats(7, 7, s.totalAnalyses + 1, Some(d + 1))
  {
  }
}
