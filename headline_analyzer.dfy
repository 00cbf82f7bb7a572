/** `handleAnalyze` and `checkAndAwardBadges` over in-memory stand-ins for the
    `user_stats`, `user_badges` and `analysis_history` tables. The signed-in
    user and the current day are parameters. */
module HeadlineAnalyzer {
  import opened Wrappers
  import opened Text
  import opened BiasScorer
  import opened Progress
  import opened Badges

  /** An `analysis_history` row. */
  datatype HistoryRow = HistoryRow(userId: string, headline: string, predictedBias: string)

  class Backend {
    /** `user_stats`, keyed by `user_id`. */
    var stats: map<string, UserStats>
    /** `user_badges`. */
    var badges: seq<BadgeRow>
    /** `analysis_history`, in insertion order. */
    var history: seq<HistoryRow>

    /** The tables as analyses leave them: every progress record is valid, no
        badge is recorded twice, and a user holds a badge exactly when their
        recorded counters reach one of its milestones. */
    ghost predicate Valid()
      reads this
    {
      && (forall u :: u in stats ==> ValidStats(stats[u]))
      && NoDuplicates(badges)
      && (forall u, t :: HasBadge(badges, u, t) <==>
            u in stats && Earns(BadgesToCheck, t, stats[u].totalAnalyses, stats[u].longestStreak))
    }

    constructor ()
      ensures Valid()
      ensures stats == map[] && badges == [] && history == []
    {
      stats := map[];
      badges := [];
      history := [];
    }

    /** The previous record of `userId`, as `maybeSingle()` returns it. */
    function StatsOf(userId: string): (r: Option<UserStats>)
      reads this
      ensures r.Some? <==> userId in stats
      ensures r.Some? ==> r.value == stats[userId]
    {
      if userId in stats then Some(stats[userId]) else None
    }

    /** `checkAndAwardBadges`: walk the milestone table and insert each badge
        that the counters reach and the user does not hold yet. */
    method CheckAndAwardBadges(userId: string, totalAnalyses: nat, longestStreak: nat)
      modifies this
      ensures badges == AwardAll(old(badges), userId, BadgesToCheck, totalAnalyses, longestStreak)
      ensures stats == old(stats) && history == old(history)
    {
      var i := 0;
      while i < |BadgesToCheck|
        invariant 0 <= i <= |BadgesToCheck|
        invariant AwardAll(badges, userId, BadgesToCheck[i..], totalAnalyses, longestStreak) ==
          AwardAll(old(badges), userId, BadgesToCheck, totalAnalyses, longestStreak)
        invariant stats == old(stats) && history == old(history)
      {
        var badge := BadgesToCheck[i];
        if Qualifies(badge, totalAnalyses, longestStreak) {
          var existing := HasBadge(badges, userId, badge.badgeType);
          if !existing {
            badges := badges + [BadgeRow(userId, badge.badgeType)];
          }
        }
        assert BadgesToCheck[i..][1..] == BadgesToCheck[i + 1..];
        i := i + 1;
      }
    }

    /** `handleAnalyze`: refuse a blank headline; otherwise score it and, for
        a signed-in user, append to the history, write the advanced progress
        record and award the badges it reaches. */
    method HandleAnalyze(headline: string, user: Option<string>, today: int) returns (result: Option<Analysis>)
      requires Valid()
      modifies this
      ensures Valid()
      ensures result.None? <==> IsBlank(headline)
      ensures result.Some? ==> result.value == Classify(headline)
      ensures IsBlank(headline) || user.None? ==>
        stats == old(stats) && badges == old(badges) && history == old(history)
      ensures !IsBlank(headline) && user.Some? ==>
        var u := user.value;
        var next := Advance(old(StatsOf(u)), today);
        && history == old(history) + [HistoryRow(u, headline, Classify(headline).bias)]
        && stats == old(stats)[u := next]
        && badges == AwardAll(old(badges), u, BadgesToCheck, next.totalAnalyses, next.longestStreak)
    {
      if IsBlank(headline) {
        return None;
      }
      var analysisResult := AnalyzeBias(headline);
      if user.Some? {
        var u := user.value;
        history := history + [HistoryRow(u, headline, analysisResult.bias)];
        var previous := StatsOf(u);
        var next := ComputeProgress(previous, today);
        ghost var oldBadges := badges;
        ghost var oldStats := stats;
        stats := stats[u := next];
        CheckAndAwardBadges(u, next.totalAnalyses, next.longestStreak);
        AwardAllKeepsValid(oldStats, oldBadges, u, next);
      }
      result := Some(analysisResult);
    }
  }

  /** One analysis by `u` keeps the tables' invariant: the new record is
      valid and dominates the old one, and the badge loop adds exactly what
      the new counters reach. */
  lemma AwardAllKeepsValid(stats: map<string, UserStats>, badges: seq<BadgeRow>, u: string, next: UserStats)
    requires forall v :: v in stats ==> ValidStats(stats[v])
    requires NoDuplicates(badges)
    requires forall v, t :: HasBadge(badges, v, t) <==>
      v in stats && Earns(BadgesToCheck, t, stats[v].totalAnalyses, stats[v].longestStreak)
    requires ValidStats(next)
    requires u in stats ==> stats[u].totalAnalyses <= next.totalAnalyses && stats[u].longestStreak <= next.longestStreak
    ensures var stats' := stats[u := next];
      var badges' := AwardAll(badges, u, BadgesToCheck, next.totalAnalyses, next.longestStreak);
      && (forall v :: v in stats' ==> ValidStats(stats'[v]))
      && NoDuplicates(badges')
      && (forall v, t :: HasBadge(badges', v, t) <==>
            v in stats' && Earns(BadgesToCheck, t, stats'[v].totalAnalyses, stats'[v].longestStreak))
  {
    var stats' := stats[u := next];
    var badges' := AwardAll(badges, u, BadgesToCheck, next.totalAnalyses, next.longestStreak);
    AwardAllNoDuplicates(badges, u, BadgesToCheck, next.totalAnalyses, next.longestStreak);
    forall v, t
      ensures HasBadge(badges', v, t) <==>
        v in stats' && Earns(BadgesToCheck, t, stats'[v].totalAnalyses, stats'[v].longestStreak)
    {
      AwardAllHolds(badges, u, BadgesToCheck, next.totalAnalyses, next.longestStreak, v, t);
      if v == u && HasBadge(badges, v, t) {
        EarnsMonotone(BadgesToCheck, t, stats[u].totalAnalyses, stats[u].longestStreak,
          next.totalAnalyses, next.longestStreak);
      }
    }
  }
}
