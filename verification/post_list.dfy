/** The inbox list's per-post decisions: the colour band of the relevance
    badge and the content preview. */
module PostList {
  import opened Basics

  /** The badge colours, from most to least relevant. */
  datatype Badge = Green | Yellow | Gray

  const GreenFloor: int := 80
  const YellowFloor: int := 60
  const PreviewLength: nat := 100

  /** The badge of a relevance score: green from 80, yellow from 60, gray
      below. */
  function BadgeFor(score: int): (b: Badge)
    ensures b == Green <==> score >= 80
    ensures b == Yellow <==> 60 <= score < 80
    ensures b == Gray <==> score < 60
  {
    if score >= GreenFloor then Green else if score >= YellowFloor then Yellow else Gray
  }

  /** The bands' order: a higher band means a more relevant post. */
  function Rank(b: Badge): nat {
    match b
    case Gray => 0
    case Yellow => 1
    case Green => 2
  }

  /** A higher score never gets a lower band. */
  lemma BadgeIsMonotone(a: int, b: int)
    requires a <= b
    ensures Rank(BadgeFor(a)) <= Rank(BadgeFor(b))
  {
  }

  /** The preview under a post: its first 100 characters followed by
      "...", even when the content is shorter; none when there is no
      content or it is empty. */
  function Preview(content: Option<string>): (p: Option<string>)
    ensures p.Some? <==> content.Some? && content.value != ""
    ensures p.Some? ==>
      && |p.value| == (if |content.value| < PreviewLength then |content.value| else PreviewLength) + 3
      && p.value[..|p.value| - 3] <= content.value
      && p.value[|p.value| - 3..] == "..."
  {
    match content
    case None => None
    case Some(text) =>
      if text == "" then None
      else Some(text[..if |text| < PreviewLength then |text| else PreviewLength] + "...")
  }

  /** Short content is shown whole, with the ellipsis still appended. */
  lemma ShortContentKeptWhole(text: string)
    requires 0 < |text| <= 100
    ensures Preview(Some(text)) == Some(text + "...")
  {
    assert text[..|text|] == text;
  }

  /** Long content is cut to exactly 100 characters before the ellipsis. */
  lemma LongContentCut(text: string)
    requires |text| > 100
    ensures Preview(Some(text)) == Some(text[..100] + "...")
  {
  }
}
