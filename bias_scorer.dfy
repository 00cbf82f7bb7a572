/** The keyword heuristic of `analyzeBias`: three fixed vocabularies, one
    point per keyword found in the lower-cased headline, and a strict
    decision ladder from the three scores to a label and a confidence. */
module BiasScorer {
  import opened Arith
  import opened Text

  const LeftKeywords: seq<string> :=
    ["progressive", "liberal", "democrat", "socialist", "climate change", "equality", "reform"]
  const RightKeywords: seq<string> :=
    ["conservative", "republican", "traditional", "free market", "freedom", "patriot"]
  const CenterKeywords: seq<string> :=
    ["bipartisan", "moderate", "balanced", "neutral", "both sides"]

  /** The five labels the scorer can produce. */
  const Labels: set<string> := {"Left", "Left-Center", "Center", "Right-Center", "Right"}

  /** `{ bias, confidence }` as returned by `analyzeBias`. */
  datatype Analysis = Analysis(bias: string, confidence: int)

  /** How many of `keywords` occur in `text`; a keyword found many times
      still scores once, so the score is at most the size of the vocabulary. */
  function Hits(keywords: seq<string>, text: string): (n: nat)
    ensures n <= |keywords|
  {
    if keywords == [] then 0
    else
      var last := keywords[|keywords| - 1];
      Hits(keywords[..|keywords| - 1], text) + (if Includes(text, last) then 1 else 0)
  }

  /** The score is zero exactly when no keyword of the vocabulary occurs. */
  lemma {:induction false} HitsZeroIff(keywords: seq<string>, text: string)
    ensures Hits(keywords, text) == 0 <==> forall k :: k in keywords ==> !Includes(text, k)
  {
    if keywords != [] {
      var init := keywords[..|keywords| - 1];
      HitsZeroIff(init, text);
      var last := keywords[|keywords| - 1];
      assert keywords == init + [last];
      assert forall k :: k in keywords <==> k in init || k == last;
      assert Hits(keywords, text) == Hits(init, text) + (if Includes(text, last) then 1 else 0);
    }
  }

  /** The score is the whole vocabulary exactly when every keyword occurs. */
  lemma {:induction false} HitsFullIff(keywords: seq<string>, text: string)
    ensures Hits(keywords, text) == |keywords| <==> forall k :: k in keywords ==> Includes(text, k)
  {
    if keywords != [] {
      var init := keywords[..|keywords| - 1];
      HitsFullIff(init, text);
      var last := keywords[|keywords| - 1];
      assert keywords == init + [last];
      assert forall k :: k in keywords <==> k in init || k == last;
      assert Hits(keywords, text) == Hits(init, text) + (if Includes(text, last) then 1 else 0);
    }
  }

  /** The decision ladder on the three scores. */
  function Decide(leftScore: nat, rightScore: nat, centerScore: nat): (r: Analysis)
    ensures r.bias in Labels
    ensures 50 <= r.confidence <= 90
    ensures r.bias == "Left-Center" ==> r.confidence <= 85
    ensures r.bias == "Right-Center" ==> r.confidence <= 85
    ensures r.bias == "Center" ==> r.confidence <= 80
    ensures leftScore == rightScore ==> r.bias == "Center"
  {
    if leftScore + rightScore + centerScore == 0 then Analysis("Center", 50)
    else if leftScore > rightScore && leftScore > centerScore then
      if leftScore > rightScore * 2 then Analysis("Left", Min(90, 60 + leftScore * 5))
      else Analysis("Left-Center", Min(85, 60 + leftScore * 4))
    else if rightScore > leftScore && rightScore > centerScore then
      if rightScore > leftScore * 2 then Analysis("Right", Min(90, 60 + rightScore * 5))
      else Analysis("Right-Center", Min(85, 60 + rightScore * 4))
    else Analysis("Center", Min(80, 60 + centerScore * 3))
  }

  /** The analysis of a headline: the ladder applied to the scores of its
      lower-cased text. */
  function Classify(text: string): (r: Analysis)
    ensures r.bias in Labels
    ensures 50 <= r.confidence <= 90
  {
    var lowerText := ToLower(text);
    Decide(Hits(LeftKeywords, lowerText), Hits(RightKeywords, lowerText), Hits(CenterKeywords, lowerText))
  }

  /** One `forEach` over a vocabulary, incrementing the score for each
      keyword the text includes. */
  method CountHits(keywords: seq<string>, lowerText: string) returns (score: nat)
    ensures score == Hits(keywords, lowerText)
  {
    score := 0;
    for i := 0 to |keywords|
      invariant score == Hits(keywords[..i], lowerText)
    {
      assert keywords[..i + 1][..i] == keywords[..i];
      if Includes(lowerText, keywords[i]) {
        score := score + 1;
      }
    }
    assert keywords[..|keywords|] == keywords;
  }

  /** `analyzeBias`. */
  method AnalyzeBias(text: string) returns (result: Analysis)
    ensures result == Classify(text)
  {
    var lowerText := ToLower(text);
    var leftScore := CountHits(LeftKeywords, lowerText);
    var rightScore := CountHits(RightKeywords, lowerText);
    var centerScore := CountHits(CenterKeywords, lowerText);
    result := Decide(leftScore, rightScore, centerScore);
  }

  /** The per-vocabulary scores of a headline never exceed 7, 6 and 5. */
  lemma ScoreBounds(text: string)
    ensures Hits(LeftKeywords, ToLower(text)) <= 7
    ensures Hits(RightKeywords, ToLower(text)) <= 6
    ensures Hits(CenterKeywords, ToLower(text)) <= 5
  {
  }

  /** A headline containing no keyword of any vocabulary is `Center` at 50. */
  lemma NoKeywordIsCenter50(text: string)
    requires forall k :: k in LeftKeywords + RightKeywords + CenterKeywords ==> !Includes(ToLower(text), k)
    ensures Classify(text) == Analysis("Center", 50)
  {
    HitsZeroIff(LeftKeywords, ToLower(text));
    HitsZeroIff(RightKeywords, ToLower(text));
    HitsZeroIff(CenterKeywords, ToLower(text));
  }

  /** Conversely, a `Center` verdict at 50 means that no keyword occurs. */
  lemma Center50MeansNoKeyword(text: string)
    requires Classify(text) == Analysis("Center", 50)
    ensures forall k :: k in LeftKeywords + RightKeywords + CenterKeywords ==> !Includes(ToLower(text), k)
  {
    var t := ToLower(text);
    HitsZeroIff(LeftKeywords, t);
    HitsZeroIff(RightKeywords, t);
    HitsZeroIff(CenterKeywords, t);
  }

  /** A left-leaning label is given exactly when the left score beats both
      others; `Left` needs it to exceed twice the right score too; the
      confidences are 60 + 5L capped at 90, and 60 + 4L capped at 85. */
  lemma LeftDominant(l: nat, r: nat, c: nat)
    ensures Decide(l, r, c).bias in {"Left", "Left-Center"} <==> l > r && l > c
    ensures Decide(l, r, c).bias == "Left" <==> l > r && l > c && l > 2 * r
    ensures Decide(l, r, c).bias == "Left" ==> Decide(l, r, c).confidence == Min(90, 60 + 5 * l)
    ensures Decide(l, r, c).bias == "Left-Center" ==> Decide(l, r, c).confidence == Min(85, 60 + 4 * l)
  {
  }

  /** The mirror image for right-leaning labels. */
  lemma RightDominant(l: nat, r: nat, c: nat)
    ensures Decide(l, r, c).bias in {"Right", "Right-Center"} <==> r > l && r > c
    ensures Decide(l, r, c).bias == "Right" <==> r > l && r > c && r > 2 * l
    ensures Decide(l, r, c).bias == "Right" ==> Decide(l, r, c).confidence == Min(90, 60 + 5 * r)
    ensures Decide(l, r, c).bias == "Right-Center" ==> Decide(l, r, c).confidence == Min(85, 60 + 4 * r)
  {
  }

  /** Every case in which no side strictly dominates, ties included, is
      `Center`, at 50 without keywords and at 60 + 3C capped at 80 otherwise. */
  lemma CenterFallThrough(l: nat, r: nat, c: nat)
    ensures Decide(l, r, c).bias == "Center" <==> !(l > r && l > c) && !(r > l && r > c)
    ensures Decide(l, r, c).bias == "Center" ==>
      Decide(l, r, c).confidence == if l + r + c == 0 then 50 else Min(80, 60 + 3 * c)
  {
  }

  /** The label side of an analysis, swapped left for right. */
  function Mirror(a: Analysis): Analysis
  {
    match a.bias
    case "Left" => Analysis("Right", a.confidence)
    case "Left-Center" => Analysis("Right-Center", a.confidence)
    case "Right" => Analysis("Left", a.confidence)
    case "Right-Center" => Analysis("Left-Center", a.confidence)
    case _ => a
  }

  /** The ladder treats left and right symmetrically: swapping the two
      scores mirrors the label and keeps the confidence. */
  lemma DecideSymmetric(l: nat, r: nat, c: nat)
    ensures Decide(r, l, c) == Mirror(Decide(l, r, c))
  {
  }

  /** The worked examples: three left keywords give `Left` at 75, two center
      keywords give `Center` at 66, none gives `Center` at 50. */
  lemma DecideExamples()
    ensures Decide(3, 0, 0) == Analysis("Left", 75)
    ensures Decide(0, 0, 2) == Analysis("Center", 66)
    ensures Decide(0, 0, 0) == Analysis("Center", 50)
    ensures Decide(2, 2, 1) == Analysis("Center", 63)
  {
  }
}
