# Unbiased News: verified model of the scoring, streak and badge logic

This project is a Dafny model of the small amount of deterministic logic in
the Unbiased News dashboard, a React app. The rest of the app is UI and
database plumbing. The model covers five pieces:

- **The headline bias scorer** (`analyzeBias`). The headline is lower-cased.
  Three fixed vocabularies are then counted: left (7 keywords), right (6) and
  center (5). A keyword scores one point if it occurs anywhere in the text,
  however many times. A strict ladder maps the three scores to one of five
  labels (`Left`, `Left-Center`, `Center`, `Right-Center`, `Right`) and an
  integer confidence.
- **The progress record** (`user_stats`) and how one analysis on a given day
  updates it: the current streak, the longest streak, the total and the last
  analysis day.
- **Badge awarding** (`checkAndAwardBadges`). A loop walks a fixed milestone
  table and inserts into `user_badges` every badge whose counter has reached
  its threshold and that the user does not hold yet.
- **The dashboard list views**: the bias filter, the related-articles
  lookup, and attaching each article's source.
- **The bias badge colour** (`BiasBadge`). A null guard, then ordered
  case-insensitive substring tests pick one of four colour classes.

Modules, one file each:

- `Wrappers`: `Option` and JavaScript truthiness of a nullable string.
- `Arith`: `Math.min` and `Math.max`.
- `Text`: `toLowerCase`, `includes` and `trim`.
- `BiasScorer`: keyword counting, the ladder, and the `AnalyzeBias` method with
  its counting loops.
- `Progress`: the stats record, the streak transition, and what a sequence of
  analyses does to it.
- `Badges`: the milestone table and the award loop as a function on the
  table's rows.
- `HeadlineAnalyzer`: a `Backend` class that holds the three tables in memory.
  `CheckAndAwardBadges` and `HandleAnalyze` update them.
- `Dashboard`: `filter`/`find` and the three views built on them.
- `BiasBadge`: the colour classifier.

Outside inputs are parameters:

- the signed-in user (`Option<string>`);
- "today", as an integer day number, so yesterday is `today - 1`.

The Supabase database is replaced by the fields of `Backend`.

Three behaviours of the code that the model keeps:

- The filter and the related view test their bias with JavaScript truthiness,
  and `""` is falsy. An empty filter therefore shows every article, and an
  article whose predicted bias is `""` has no related view.
- `checkAndAwardBadges` looks up and inserts one milestone at a time, each
  against the badge table as the previous inserts left it. It returns nothing.
- `handleAnalyze` writes history, progress and badges only when a user is
  signed in. It refuses a blank headline before anything is scored or stored.

## Model

| member | source | states |
|---|---|---|
| `Text.Includes` | src/components/HeadlineAnalyzer.tsx:30-40 | `includes` is true exactly when the keyword occurs at some position of the text |
| `Text.SkipSpace` | src/components/HeadlineAnalyzer.tsx:68 | the leading scan stops at the first character that is not white space, or at the end, and skips only white space |
| `Text.SkipSpaceBack` | src/components/HeadlineAnalyzer.tsx:68 | the trailing scan stops after the last character that is not white space, never passing the lower bound, and skips only white space |
| `Text.Trim` | src/components/HeadlineAnalyzer.tsx:68-75 | the trimmed headline occurs in the input, everything before and after that occurrence is white space, and it has no white space at either end; it is empty exactly when every character is ECMAScript white space |
| `Text.IsBlank` | src/components/HeadlineAnalyzer.tsx:68 | the headline is refused exactly when every character of it is ECMAScript white space, the empty headline included |
| `Text.ToLower` | src/components/HeadlineAnalyzer.tsx:20 | lower-casing keeps the length, turns each ASCII capital into its own lower-case letter and the Kelvin sign into `k`, and keeps every other character in place |
| `Text.ToLowerIdempotent` | src/components/BiasBadge.tsx:12 | lower-casing twice is the same as lower-casing once |
| `BiasScorer.Hits` | src/components/HeadlineAnalyzer.tsx:30-40 | a vocabulary scores at most one point per keyword, so at most its size |
| `BiasScorer.HitsZeroIff` | src/components/HeadlineAnalyzer.tsx:30-40 | a score is 0 exactly when no keyword of the vocabulary occurs |
| `BiasScorer.HitsFullIff` | src/components/HeadlineAnalyzer.tsx:30-40 | a score equals the vocabulary size exactly when every keyword occurs |
| `BiasScorer.Decide` | src/components/HeadlineAnalyzer.tsx:42-62 | the label is one of the five labels; confidence lies in [50, 90]; `Left-Center` and `Right-Center` are capped at 85 and `Center` at 80; equal left and right scores always give `Center` |
| `BiasScorer.Classify` | src/components/HeadlineAnalyzer.tsx:19-63 | every headline gets one of the five labels, with a confidence in [50, 90] |
| `BiasScorer.CountHits` | src/components/HeadlineAnalyzer.tsx:30-40 | the `forEach` counting loop computes the vocabulary's score |
| `BiasScorer.AnalyzeBias` | src/components/HeadlineAnalyzer.tsx:19-63 | lower-cases the text, counts the three vocabularies, and returns the ladder's verdict on the three scores |
| `BiasScorer.ScoreBounds` | src/components/HeadlineAnalyzer.tsx:22-40 | for every headline the left, right and center scores are at most 7, 6 and 5 |
| `BiasScorer.NoKeywordIsCenter50` | src/components/HeadlineAnalyzer.tsx:44-46 | a headline with no keyword of any vocabulary is `Center` with confidence 50 |
| `BiasScorer.Center50MeansNoKeyword` | src/components/HeadlineAnalyzer.tsx:44-62 | conversely, `Center` at 50 happens only when no keyword occurs |
| `BiasScorer.LeftDominant` | src/components/HeadlineAnalyzer.tsx:48-53 | a left-leaning label is given exactly when L > R and L > C; `Left` exactly when also L > 2R, with confidence min(90, 60+5L); otherwise `Left-Center` with min(85, 60+4L) |
| `BiasScorer.RightDominant` | src/components/HeadlineAnalyzer.tsx:55-60 | the same for the right: R > L and R > C; `Right` when R > 2L with min(90, 60+5R); otherwise `Right-Center` with min(85, 60+4R) |
| `BiasScorer.CenterFallThrough` | src/components/HeadlineAnalyzer.tsx:44-62 | `Center` exactly when neither side strictly beats both others, ties included; confidence is 50 without keywords, else min(80, 60+3C) |
| `BiasScorer.DecideSymmetric` | src/components/HeadlineAnalyzer.tsx:48-60 | swapping the left and right scores mirrors the label and keeps the confidence |
| `BiasScorer.DecideExamples` | src/components/HeadlineAnalyzer.tsx:44-62 | (3,0,0) gives `Left` 75, (0,0,2) gives `Center` 66, (0,0,0) gives `Center` 50, and the tie (2,2,1) gives `Center` 63 |
| `Progress.NextStreak` | src/components/HeadlineAnalyzer.tsx:109-125 | the new streak exceeds the old one by at most 1; any streak other than 1 is carried over from a record whose last day is today or yesterday |
| `Progress.Advance` | src/components/HeadlineAnalyzer.tsx:106-128 | the new record is valid (longest ≥ current), its longest streak is at least the old one, its total exceeds the old one, and its last day is today |
| `Progress.ComputeProgress` | src/components/HeadlineAnalyzer.tsx:106-128 | the streak is 1 with no record or no last day; unchanged when the last day is today; previous + 1 when it was yesterday; 1 after any other gap. Total is old + 1, longest is max(new streak, old longest), last day is today |
| `Progress.ReplayAppend` | src/components/HeadlineAnalyzer.tsx:106-128 | analysing on days a then b ends in the same record as replaying b from the record after a |
| `Progress.ReplayTotal` | src/components/HeadlineAnalyzer.tsx:127 | after analyses on n days, same-day repeats included, the total has grown by exactly n |
| `Progress.ReplayValid` | src/components/HeadlineAnalyzer.tsx:106-150 | after at least one analysis the record exists, has longest ≥ current, and its last day is the last day analysed |
| `Progress.ReplayLongestMonotone` | src/components/HeadlineAnalyzer.tsx:128 | the longest streak never decreases, whatever the sequence of days |
| `Progress.LongestAlongPrefixes` | src/components/HeadlineAnalyzer.tsx:128 | along any sequence of days, the longest streak after a shorter prefix is at most that after a longer one |
| `Progress.ConsecutiveDaysExtend` | src/components/HeadlineAnalyzer.tsx:111-121 | n analyses on consecutive days, starting the day after the last recorded one, add n to the streak |
| `Progress.ConsecutiveDaysFromScratch` | src/components/HeadlineAnalyzer.tsx:109-124 | a user without a record who analyses on n consecutive days has a streak of n |
| `Progress.StreakScenarios` | src/components/HeadlineAnalyzer.tsx:106-128 | days D, D+1, D+3 give streaks 1, 2, 1; two analyses on one day give streak 1 and total 2; a streak of 6 extended the next day gives 7 and 7 |
| `Badges.AwardStep` | src/components/HeadlineAnalyzer.tsx:183-198 | one milestone's check keeps the old rows as a prefix and inserts at most one row |
| `Badges.AwardAll` | src/components/HeadlineAnalyzer.tsx:182-200 | the loop keeps the old rows as a prefix and inserts at most one row per milestone |
| `Badges.AwardAllOnlyAdds` | src/components/HeadlineAnalyzer.tsx:182-200 | the loop keeps the old rows as a prefix; every inserted row belongs to the checked user and to a milestone its counter has reached |
| `Badges.AwardAllHolds` | src/components/HeadlineAnalyzer.tsx:182-200 | after the loop a user holds a badge exactly when they held it before or, being the checked user, reached one of its milestones |
| `Badges.AwardAllNoDuplicates` | src/components/HeadlineAnalyzer.tsx:184-198 | a table without duplicate (user, badge) rows keeps none after the loop |
| `Badges.AwardAllNothingToDo` | src/components/HeadlineAnalyzer.tsx:183-191 | when every reached badge is already held, the loop changes nothing |
| `Badges.AwardAllIdempotent` | src/components/HeadlineAnalyzer.tsx:172-201 | a second call with the same arguments leaves the table as the first left it |
| `Badges.BadgesToCheckHolds` | src/components/HeadlineAnalyzer.tsx:173-180 | for the fixed table, each of the six badges is held afterwards exactly when it was held before or its threshold (1, 10, 50, 100 analyses; 7, 30 longest streak) is reached |
| `Badges.EarnsOwnMilestone` | src/components/HeadlineAnalyzer.tsx:173-183 | in a table with distinct badge types, a badge is earned exactly when its own milestone's counter reaches its threshold |
| `Badges.EarnsMonotone` | src/components/HeadlineAnalyzer.tsx:183 | a milestone reached stays reached when both counters grow |
| `HeadlineAnalyzer.Backend.StatsOf` | src/components/HeadlineAnalyzer.tsx:100-104 | the lookup returns the user's record exactly when one is stored |
| `HeadlineAnalyzer.Backend.CheckAndAwardBadges` | src/components/HeadlineAnalyzer.tsx:172-201 | the badge table becomes the result of the award loop on the old table; stats and history are unchanged |
| `HeadlineAnalyzer.Backend.HandleAnalyze` | src/components/HeadlineAnalyzer.tsx:65-155 | a blank headline returns nothing and changes nothing. Otherwise it returns the headline's analysis. For a signed-in user it also appends a history row, stores the advanced record and runs the award loop on the new counters. The table invariant is kept: records valid, no duplicate badges, a badge held exactly when the user's counters reach it |
| `HeadlineAnalyzer.AwardAllKeepsValid` | src/components/HeadlineAnalyzer.tsx:127-152 | an analysis whose new record dominates the old one keeps the records valid, the badges free of duplicates, and badges held exactly when earned |
| `Dashboard.Filter` | src/pages/Dashboard.tsx:86-88 | `filter` keeps exactly the matching elements, each as often as it occurs, in their original order |
| `Dashboard.Find` | src/pages/Dashboard.tsx:83 | `find` returns nothing exactly when no element matches, otherwise the first match |
| `Dashboard.FilteredArticles` | src/pages/Dashboard.tsx:104-106 | with no (truthy) filter every article is shown; with one, exactly the articles of that predicted bias are shown, each as often as it occurs, in order |
| `Dashboard.ViewRelated` | src/pages/Dashboard.tsx:82-93 | an unknown id, or a first match with no truthy bias, leaves the view unchanged. Otherwise the related list holds exactly the other articles with the same predicted bias, each as often as it occurs, in order and never the article itself; it is selected and shown |
| `Dashboard.ArticleWithItsSource` | src/pages/Dashboard.tsx:95-98 | the article is kept unchanged; the attached source is the first whose id equals `source_id`, or none when no source matches or `source_id` is null |
| `BiasBadge.BiasColor` | src/components/BiasBadge.tsx:14-19 | the colour is one of the four classes, and it is muted exactly when the label contains none of "left", "right", "center" and "neutral" |
| `BiasBadge.Badge` | src/components/BiasBadge.tsx:9-19 | a null or empty bias renders nothing. Otherwise the colour is one of four classes: left exactly when the lower-cased label contains "left"; right when it contains "right" but not "left"; center when it contains neither but has "center" or "neutral"; muted otherwise |
| `BiasBadge.AbsentFirstLetter` | src/components/BiasBadge.tsx:15-17 | a word whose first letter appears at no possible start position is not included |
| `BiasBadge.BadgeIgnoresCase` | src/components/BiasBadge.tsx:12 | a label and its lower-cased form get the same badge |
| `BiasBadge.BadgeSameUpToCase` | src/components/BiasBadge.tsx:12 | two labels equal up to letter case get the same badge |
| `BiasBadge.LabelColors` | src/components/BiasBadge.tsx:14-18 | `Left` and `Left-Center` are left-coloured, `Right` and `Right-Center` right-coloured, and `Center` center-coloured |
| `BiasBadge.AnalysisColor` | src/components/BiasBadge.tsx:15-17 | every analysis is drawn left-coloured when L dominates, right-coloured when R dominates, and center-coloured otherwise |

## Left out

- All Supabase calls become reads and writes of the `Backend` fields, and every
  call is taken to succeed. The auth lookup becomes the `user` parameter.
- A failing database call is not modelled. The source logs only a failed
  history insert. It drops the errors of the stats select, the stats update or
  insert, and the badge select and insert without a word.
- A failed stats select is not modelled. The source then sees no record, so
  it computes a first analysis (streak 1, total 1) and tries to insert a new
  record for a user who already has one.
- A select in the badge loop is taken to find the row whenever it exists.
  `maybeSingle()` also returns no data on an error, including when several rows
  match; this is not modelled. The table invariant keeps at most one row per
  (user, badge), so several rows never match in the model.
- `toLowerCase` is modelled as ASCII case folding plus U+212A KELVIN SIGN → `k`.
  Other non-ASCII case mappings are not modelled; that includes U+0130, which
  becomes two characters. Strings are sequences of Unicode characters, not
  UTF-16 code units.
- Dates are integer day numbers. The source builds "today" from the UTC date
  and "yesterday" by subtracting one local calendar day before converting to
  UTC. Around a daylight-saving change the two can disagree; this is not
  modelled.
- Two analyses racing for the same user are not modelled. The source reads
  and then writes the stats and badge rows without a guard, so the last writer
  wins.
- `earned_at`, `created_at` and the row ids are not modelled. They are set by
  the database.
- React state setters, toasts, the one-second delay, and the
  `onAnalysisComplete` callback are not modelled. The callback sets the
  dashboard filter; `FilteredArticles` models what that filter does.
- `UserStats.tsx`, `Index.tsx`, `ArticleCard.tsx` and the table declarations
  in `types.ts` are not modelled. They are markup, data fetching and type
  declarations with no logic to verify.
