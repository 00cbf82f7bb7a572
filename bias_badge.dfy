/** `BiasBadge`: the colour class of a bias label, chosen by ordered,
    case-insensitive substring tests. */
module BiasBadge {
  import opened Wrappers
  import opened Text
  import BiasScorer

  const LeftColor := "bg-bias-left"
  const RightColor := "bg-bias-right"
  const CenterColor := "bg-bias-center"
  const MutedColor := "bg-muted"

  /** `getBiasColor` on the lower-cased label: one of the four classes, and
      muted exactly when none of the four words occurs. */
  function BiasColor(biasLower: string): (color: string)
    ensures color in {LeftColor, RightColor, CenterColor, MutedColor}
    ensures color == MutedColor <==>
      && !Includes(biasLower, "left") && !Includes(biasLower, "right")
      && !Includes(biasLower, "center") && !Includes(biasLower, "neutral")
  {
    if Includes(biasLower, "left") then LeftColor
    else if Includes(biasLower, "right") then RightColor
    else if Includes(biasLower, "center") || Includes(biasLower, "neutral") then CenterColor
    else MutedColor
  }

  /** The badge for `bias`: `None` when it renders nothing, otherwise the
      colour class it is drawn with. */
  function Badge(bias: Option<string>): (r: Option<string>)
    ensures r.None? <==> !Truthy(bias)
    ensures r.Some? ==> r.value in {LeftColor, RightColor, CenterColor, MutedColor}
    ensures r.Some? ==> (r.value == LeftColor <==> Includes(ToLower(bias.value), "left"))
    ensures r.Some? ==> (r.value == RightColor <==>
      !Includes(ToLower(bias.value), "left") && Includes(ToLower(bias.value), "right"))
    ensures r.Some? ==> (r.value == CenterColor <==>
      !Includes(ToLower(bias.value), "left") && !Includes(ToLower(bias.value), "right") &&
      (Includes(ToLower(bias.value), "center") || Includes(ToLower(bias.value), "neutral")))
  {
    if !Truthy(bias) then None
    else Some(BiasColor(ToLower(bias.value)))
  }

  /** The badge ignores letter case: a label and its lower-cased form get the
      same badge. */
  lemma BadgeIgnoresCase(bias: string)
    ensures Badge(Some(bias)) == Badge(Some(ToLower(bias)))
  {
    ToLowerIdempotent(bias);
  }

  /** Two labels that differ only in letter case get the same badge. */
  lemma BadgeSameUpToCase(a: string, b: string)
    requires ToLower(a) == ToLower(b)
    ensures Badge(Some(a)) == Badge(Some(b))
  {
  }

  /** A keyword whose first letter appears nowhere it could start is absent. */
  lemma {:induction false} AbsentFirstLetter(s: string, k: string)
    requires k != []
    requires forall i :: 0 <= i <= |s| - |k| ==> s[i] != k[0]
    ensures !Includes(s, k)
  {
    forall i ensures !OccursAt(s, k, i) {
      if 0 <= i <= |s| - |k| {
        assert s[i..i + |k|][0] == s[i];
      }
    }
  }

  /** The colour of each label the scorer produces, one label per lemma so
      that each proof about a literal string stays small; `LabelColors`
      collects them. */
  lemma ColorOfLeft()
    ensures Badge(Some("Left")) == Some(LeftColor)
  {
    assert ToLower("Left") == "left";
    assert OccursAt("left", "left", 0);
  }

  lemma ColorOfLeftCenter()
    ensures Badge(Some("Left-Center")) == Some(LeftColor)
  {
    assert ToLower("Left-Center")[..4] == "left";
    assert OccursAt(ToLower("Left-Center"), "left", 0);
  }

  lemma LowerCenter()
    ensures ToLower("Center") == "center"
  {
  }

  lemma ColorOfCenter()
    ensures Badge(Some("Center")) == Some(CenterColor)
  {
    LowerCenter();
    AbsentFirstLetter("center", "left");
    AbsentFirstLetter("center", "right");
    assert OccursAt("center", "center", 0);
  }

  lemma LowerRightCenter()
    ensures ToLower("Right-Center") == "right-center"
  {
  }

  lemma RightCenterNotLeft()
    ensures !Includes("right-center", "left")
  {
    AbsentFirstLetter("right-center", "left");
  }

  lemma ColorOfRightCenter()
    ensures Badge(Some("Right-Center")) == Some(RightColor)
  {
    LowerRightCenter();
    RightCenterNotLeft();
    assert OccursAt("right-center", "right", 0);
  }

  lemma LowerRight()
    ensures ToLower("Right") == "right"
  {
  }

  lemma ColorOfRight()
    ensures Badge(Some("Right")) == Some(RightColor)
  {
    LowerRight();
    AbsentFirstLetter("right", "left");
    assert OccursAt("right", "right", 0);
  }

  /** The colours of the scorer's five labels: both left-leaning labels are
      left-coloured, both right-leaning ones right-coloured, and `Center`
      center-coloured. */
  lemma LabelColors()
    ensures Badge(Some("Left")) == Some(LeftColor)
    ensures Badge(Some("Left-Center")) == Some(LeftColor)
    ensures Badge(Some("Center")) == Some(CenterColor)
    ensures Badge(Some("Right-Center")) == Some(RightColor)
    ensures Badge(Some("Right")) == Some(RightColor)
  {
    ColorOfLeft();
    ColorOfLeftCenter();
    ColorOfCenter();
    ColorOfRightCenter();
    ColorOfRight();
  }

  /** Every analysis the scorer produces is drawn with the colour of its
      leaning: left when the left score dominates, right when the right
      score does, center otherwise. */
  lemma AnalysisColor(l: nat, r: nat, c: nat)
    ensures Badge(Some(BiasScorer.Decide(l, r, c).bias)) ==
      if l > r && l > c then Some(LeftColor)
      else if r > l && r > c then Some(RightColor)
      else Some(CenterColor)
  {
    LabelColors();
    BiasScorer.LeftDominant(l, r, c);
    BiasScorer.RightDominant(l, r, c);
    BiasScorer.CenterFallThrough(l, r, c);
  }
}
