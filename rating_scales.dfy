/**
 * The two rating scales the rater is asked to answer in: a five-point scale
 * for likelihood and impact and a four-point scale for each part of the
 * confidentiality/integrity/availability breakdown.  Stored assessments keep
 * the label as text, so every consumer looks the text up and must cope with
 * a label outside the scale: `ParseLevel` and `ParseCiaLevel` answer `None`
 * for such an unknown label.
 */
module RatingScales {
  import opened Wrappers

  /** The five-point `ratingScale`, in its declared order. */
  datatype Level = VeryLow | Low | Medium | High | VeryHigh

  /** The four-point `ciaRatingScale`, in its declared order. */
  datatype CiaLevel = CiaLow | CiaMedium | CiaHigh | Critical

  /** A rating as the rater returns it: the label text and its justification. */
  datatype Rating = Rating(rating: string, justification: string)

  const Levels: seq<Level> := [VeryLow, Low, Medium, High, VeryHigh]
  const CiaLevels: seq<CiaLevel> := [CiaLow, CiaMedium, CiaHigh, Critical]

  function LevelLabel(l: Level): string {
    match l
    case VeryLow => "Very Low"
    case Low => "Low"
    case Medium => "Medium"
    case High => "High"
    case VeryHigh => "Very High"
  }

  function CiaLevelLabel(l: CiaLevel): string {
    match l
    case CiaLow => "Low"
    case CiaMedium => "Medium"
    case CiaHigh => "High"
    case Critical => "Critical"
  }

  /** Looks a label up on the five-point scale; `None` for an unknown label. */
  function ParseLevel(s: string): (r: Option<Level>)
    ensures r.Some? ==> LevelLabel(r.value) == s
    ensures r.None? <==> forall l: Level :: LevelLabel(l) != s
  {
    if s == "Very Low" then Some(VeryLow)
    else if s == "Low" then Some(Low)
    else if s == "Medium" then Some(Medium)
    else if s == "High" then Some(High)
    else if s == "Very High" then Some(VeryHigh)
    else None
  }

  /** Looks a label up on the four-point scale; `None` for an unknown label. */
  function ParseCiaLevel(s: string): (r: Option<CiaLevel>)
    ensures r.Some? ==> CiaLevelLabel(r.value) == s
    ensures r.None? <==> forall l: CiaLevel :: CiaLevelLabel(l) != s
  {
    if s == "Low" then Some(CiaLow)
    else if s == "Medium" then Some(CiaMedium)
    else if s == "High" then Some(CiaHigh)
    else if s == "Critical" then Some(Critical)
    else None
  }

  /** Each label is read back as its own level, and the scales list every level once. */
  lemma LabelsRoundTrip()
    ensures forall l: Level :: ParseLevel(LevelLabel(l)) == Some(l)
    ensures forall l: CiaLevel :: ParseCiaLevel(CiaLevelLabel(l)) == Some(l)
    ensures forall i, j :: 0 <= i < j < |Levels| ==> Levels[i] != Levels[j]
    ensures forall i, j :: 0 <= i < j < |CiaLevels| ==> CiaLevels[i] != CiaLevels[j]
  {
  }
}
