/** The milestone table of `checkAndAwardBadges` and the effect of its loop
    on the `user_badges` table, as functions on the table's rows. */
module Badges {

  /** Which counter a milestone is measured on. */
  datatype Metric = TotalAnalyses | LongestStreak

  datatype Milestone = Milestone(badgeType: string, threshold: nat, metric: Metric)

  /** `badgesToCheck`, in order. */
  const BadgesToCheck: seq<Milestone> := [
    Milestone("first_analysis", 1, TotalAnalyses),
    Milestone("analyst_10", 10, TotalAnalyses),
    Milestone("analyst_50", 50, TotalAnalyses),
    Milestone("analyst_100", 100, TotalAnalyses),
    Milestone("streak_7", 7, LongestStreak),
    Milestone("streak_30", 30, LongestStreak)
  ]

  /** A `user_badges` row: who earned which badge. */
  datatype BadgeRow = BadgeRow(userId: string, badgeType: string)

  /** `badge.field >= badge.threshold`. */
  predicate Qualifies(m: Milestone, totalAnalyses: nat, longestStreak: nat)
  {
    (if m.metric == TotalAnalyses then totalAnalyses else longestStreak) >= m.threshold
  }

  /** The select `.eq('user_id', userId).eq('badge_type', badgeType)` finds a row. */
  predicate HasBadge(rows: seq<BadgeRow>, userId: string, badgeType: string)
  {
    BadgeRow(userId, badgeType) in rows
  }

  /** Some milestone of `ms` for `badgeType` is reached by the counters. */
  predicate Earns(ms: seq<Milestone>, badgeType: string, totalAnalyses: nat, longestStreak: nat)
  {
    exists j :: 0 <= j < |ms| && ms[j].badgeType == badgeType && Qualifies(ms[j], totalAnalyses, longestStreak)
  }

  /** No two rows record the same badge for the same user. */
  predicate NoDuplicates(rows: seq<BadgeRow>)
  {
    forall i, j :: 0 <= i < j < |rows| ==> rows[i] != rows[j]
  }

  /** One pass of the loop body: insert the badge if it qualifies and the
      user does not hold it yet. At most one row is appended; what the user
      holds after the whole loop is stated by `AwardAllHolds`. */
  function AwardStep(rows: seq<BadgeRow>, userId: string, m: Milestone, totalAnalyses: nat, longestStreak: nat): (r: seq<BadgeRow>)
    ensures rows <= r && |r| <= |rows| + 1
  {
    if Qualifies(m, totalAnalyses, longestStreak) && !HasBadge(rows, userId, m.badgeType)
    then rows + [BadgeRow(userId, m.badgeType)]
    else rows
  }

  /** The table after the loop over `ms`: the old rows followed by at most
      one new row per milestone. */
  function AwardAll(rows: seq<BadgeRow>, userId: string, ms: seq<Milestone>, totalAnalyses: nat, longestStreak: nat): (r: seq<BadgeRow>)
    ensures rows <= r && |r| <= |rows| + |ms|
    decreases |ms|
  {
    if ms == [] then rows
    else AwardAll(AwardStep(rows, userId, ms[0], totalAnalyses, longestStreak), userId, ms[1..], totalAnalyses, longestStreak)
  }

  /** The loop only appends: the old rows stay, in place, and every new row
      is a badge of this user whose milestone is reached. */
  lemma {:induction false} AwardAllOnlyAdds(rows: seq<BadgeRow>, userId: string, ms: seq<Milestone>, total: nat, longest: nat)
    ensures rows <= AwardAll(rows, userId, ms, total, longest)
    ensures forall k :: |rows| <= k < |AwardAll(rows, userId, ms, total, longest)| ==>
      AwardAll(rows, userId, ms, total, longest)[k].userId == userId &&
      Earns(ms, AwardAll(rows, userId, ms, total, longest)[k].badgeType, total, longest)
    decreases |ms|
  {
    if ms != [] {
      var step := AwardStep(rows, userId, ms[0], total, longest);
      AwardAllOnlyAdds(step, userId, ms[1..], total, longest);
      var r := AwardAll(rows, userId, ms, total, longest);
      forall k | |rows| <= k < |r|
        ensures r[k].userId == userId && Earns(ms, r[k].badgeType, total, longest)
      {
        if k < |step| {
          assert r[k] == step[k] == BadgeRow(userId, ms[0].badgeType);
          assert ms[0].badgeType == r[k].badgeType && Qualifies(ms[0], total, longest);
        } else {
          var j :| 0 <= j < |ms[1..]| && ms[1..][j].badgeType == r[k].badgeType && Qualifies(ms[1..][j], total, longest);
          assert ms[j + 1] == ms[1..][j];
        }
      }
    }
  }

  /** After the loop a user holds a badge exactly when they held it before
      or, for the user being checked, one of its milestones is reached. */
  lemma {:induction false} AwardAllHolds(rows: seq<BadgeRow>, userId: string, ms: seq<Milestone>, total: nat, longest: nat, who: string, badgeType: string)
    ensures HasBadge(AwardAll(rows, userId, ms, total, longest), who, badgeType) <==>
      HasBadge(rows, who, badgeType) || (who == userId && Earns(ms, badgeType, total, longest))
    decreases |ms|
  {
    if ms != [] {
      var step := AwardStep(rows, userId, ms[0], total, longest);
      AwardAllHolds(step, userId, ms[1..], total, longest, who, badgeType);
      assert HasBadge(step, who, badgeType) <==>
        HasBadge(rows, who, badgeType) ||
        (who == userId && ms[0].badgeType == badgeType && Qualifies(ms[0], total, longest));
      if Earns(ms, badgeType, total, longest) {
        var j :| 0 <= j < |ms| && ms[j].badgeType == badgeType && Qualifies(ms[j], total, longest);
        if j > 0 {
          assert ms[1..][j - 1] == ms[j];
        }
      }
      if Earns(ms[1..], badgeType, total, longest) {
        var j :| 0 <= j < |ms[1..]| && ms[1..][j].badgeType == badgeType && Qualifies(ms[1..][j], total, longest);
        assert ms[j + 1] == ms[1..][j];
      }
    }
  }

  /** The loop never records a badge twice. */
  lemma {:induction false} AwardAllNoDuplicates(rows: seq<BadgeRow>, userId: string, ms: seq<Milestone>, total: nat, longest: nat)
    requires NoDuplicates(rows)
    ensures NoDuplicates(AwardAll(rows, userId, ms, total, longest))
    decreases |ms|
  {
    if ms != [] {
      var step := AwardStep(rows, userId, ms[0], total, longest);
      assert NoDuplicates(step);
      AwardAllNoDuplicates(step, userId, ms[1..], total, longest);
    }
  }

  /** When the user already holds every badge the counters reach, the loop
      changes nothing. */
  lemma {:induction false} AwardAllNothingToDo(rows: seq<BadgeRow>, userId: string, ms: seq<Milestone>, total: nat, longest: nat)
    requires forall j :: 0 <= j < |ms| && Qualifies(ms[j], total, longest) ==> HasBadge(rows, userId, ms[j].badgeType)
    ensures AwardAll(rows, userId, ms, total, longest) == rows
    decreases |ms|
  {
    if ms != [] {
      assert Qualifies(ms[0], total, longest) ==> HasBadge(rows, userId, ms[0].badgeType);
      assert forall j :: 0 <= j < |ms[1..]| ==> ms[1..][j] == ms[j + 1];
      AwardAllNothingToDo(rows, userId, ms[1..], total, longest);
    }
  }

  /** A second run with the same arguments inserts nothing. */
  lemma AwardAllIdempotent(rows: seq<BadgeRow>, userId: string, ms: seq<Milestone>, total: nat, longest: nat)
    ensures AwardAll(AwardAll(rows, userId, ms, total, longest), userId, ms, total, longest) ==
      AwardAll(rows, userId, ms, total, longest)
  {
    var r := AwardAll(rows, userId, ms, total, longest);
    forall j | 0 <= j < |ms| && Qualifies(ms[j], total, longest)
      ensures HasBadge(r, userId, ms[j].badgeType)
    {
      AwardAllHolds(rows, userId, ms, total, longest, userId, ms[j].badgeType);
    }
    AwardAllNothingToDo(r, userId, ms, total, longest);
  }

  /** No two milestones of `ms` share a badge type. */
  predicate DistinctTypes(ms: seq<Milestone>)
  {
    forall i, j :: 0 <= i < j < |ms| ==> ms[i].badgeType != ms[j].badgeType
  }

  lemma BadgesToCheckDistinct()
    ensures DistinctTypes(BadgesToCheck)
  {
  }

  /** With distinct types, a badge is earned exactly when its own milestone
      is reached. */
  lemma EarnsOwnMilestone(ms: seq<Milestone>, j: nat, total: nat, longest: nat)
    requires DistinctTypes(ms) && j < |ms|
    ensures Earns(ms, ms[j].badgeType, total, longest) <==> Qualifies(ms[j], total, longest)
  {
  }

  /** For the fixed table: a badge is held after the loop exactly when it was
      held before or its counter has reached its threshold; in particular
      `analyst_10` from 10 analyses on, `streak_7` from a longest streak of 7. */
  lemma BadgesToCheckHolds(rows: seq<BadgeRow>, userId: string, total: nat, longest: nat)
    ensures HasBadge(AwardAll(rows, userId, BadgesToCheck, total, longest), userId, "first_analysis") <==>
      HasBadge(rows, userId, "first_analysis") || total >= 1
    ensures HasBadge(AwardAll(rows, userId, BadgesToCheck, total, longest), userId, "analyst_10") <==>
      HasBadge(rows, userId, "analyst_10") || total >= 10
    ensures HasBadge(AwardAll(rows, userId, BadgesToCheck, total, longest), userId, "analyst_50") <==>
      HasBadge(rows, userId, "analyst_50") || total >= 50
    ensures HasBadge(AwardAll(rows, userId, BadgesToCheck, total, longest), userId, "analyst_100") <==>
      HasBadge(rows, userId, "analyst_100") || total >= 100
    ensures HasBadge(AwardAll(rows, userId, BadgesToCheck, total, longest), userId, "streak_7") <==>
      HasBadge(rows, userId, "streak_7") || longest >= 7
    ensures HasBadge(AwardAll(rows, userId, BadgesToCheck, total, longest), userId, "streak_30") <==>
      HasBadge(rows, userId, "streak_30") || longest >= 30
  {
    BadgesToCheckDistinct();
    forall j | 0 <= j < |BadgesToCheck|
      ensures HasBadge(AwardAll(rows, userId, BadgesToCheck, total, longest), userId, BadgesToCheck[j].badgeType) <==>
        HasBadge(rows, userId, BadgesToCheck[j].badgeType) || Qualifies(BadgesToCheck[j], total, longest)
    {
      EarnsOwnMilestone(BadgesToCheck, j, total, longest);
      AwardAllHolds(rows, userId, BadgesToCheck, total, longest, userId, BadgesToCheck[j].badgeType);
    }
    assert BadgesToCheck[0].badgeType == "first_analysis";
    assert BadgesToCheck[1].badgeType == "analyst_10";
    assert BadgesToCheck[2].badgeType == "analyst_50";
    assert BadgesToCheck[3].badgeType == "analyst_100";
    assert BadgesToCheck[4].badgeType == "streak_7";
    assert BadgesToCheck[5].badgeType == "streak_30";
  }

  /** Reaching a milestone is monotone in both counters. */
  lemma EarnsMonotone(ms: seq<Milestone>, badgeType: string, total: nat, longest: nat, total': nat, longest': nat)
    requires total <= total' && longest <= longest'
    requires Earns(ms, badgeType, total, longest)
    ensures Earns(ms, badgeType, total', longest')
  {
  }
}
