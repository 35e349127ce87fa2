/**
 * The bar-chart data of the confidentiality/integrity/availability
 * breakdown: one entry per component with the numeric residual and
 * inherent values (0 when unknown or absent) and the raw labels, and the
 * Y-axis formatter that turns the values 1 .. 4 back into labels.
 */
module CiaChart {
  import opened Wrappers
  import opened RatingScales

  datatype CiaImpact = CiaImpact(confidentiality: Rating, integrity: Rating, availability: Rating)

  /** One bar group of the chart: the values drawn and the labels shown in the tooltip. */
  datatype ChartEntry = ChartEntry(
    name: string,
    residual: nat,
    inherent: nat,
    residualLabel: string,
    inherentLabel: string)

  /** The components in the order the chart lists them. */
  const ComponentNames: seq<string> := ["Confidentiality", "Integrity", "Availability"]

  function Component(c: CiaImpact, i: nat): Rating
    requires i < 3
  {
    if i == 0 then c.confidentiality else if i == 1 then c.integrity else c.availability
  }

  /** The entries of `ratingValueMap`: Low .. Critical are 1 .. 4. */
  function CiaOrdinal(l: CiaLevel): (n: nat)
    ensures 1 <= n <= 4
  {
    match l
    case CiaLow => 1
    case CiaMedium => 2
    case CiaHigh => 3
    case Critical => 4
  }

  /** `ratingValueMap[text] || 0`: the value of a known label, 0 for any other text. */
  function CiaValue(text: string): (v: nat)
    ensures v <= 4
    ensures v == 0 <==> ParseCiaLevel(text).None?
    ensures forall l: CiaLevel :: text == CiaLevelLabel(l) ==> v == CiaOrdinal(l)
  {
    match ParseCiaLevel(text)
    case Some(l) => CiaOrdinal(l)
    case None => 0
  }

  /** The values follow the scale's order: the i-th level is worth i + 1. */
  lemma CiaOrdinalFollowsScale()
    ensures forall i :: 0 <= i < |CiaLevels| ==> CiaOrdinal(CiaLevels[i]) == i + 1
  {
  }

  /** One entry of `chartData`; an absent inherent impact draws 0 and is labelled "N/A", as is an empty label. */
  function Entry(name: string, residual: Rating, inherent: Option<Rating>): ChartEntry {
    ChartEntry(
      name,
      CiaValue(residual.rating),
      if inherent.Some? then CiaValue(inherent.value.rating) else 0,
      residual.rating,
      if inherent.Some? && inherent.value.rating != "" then inherent.value.rating else "N/A")
  }

  function InherentComponent(inherent: Option<CiaImpact>, i: nat): Option<Rating>
    requires i < 3
  {
    if inherent.Some? then Some(Component(inherent.value, i)) else None
  }

  /** `chartData`. */
  function ChartData(residual: CiaImpact, inherent: Option<CiaImpact>): (d: seq<ChartEntry>)
    ensures |d| == 3
    ensures forall i :: 0 <= i < 3 ==> d[i].name == ComponentNames[i]
    ensures forall i :: 0 <= i < 3 ==>
      d[i].residual == CiaValue(Component(residual, i).rating) && d[i].residualLabel == Component(residual, i).rating
    ensures inherent.None? ==> forall i :: 0 <= i < 3 ==> d[i].inherent == 0 && d[i].inherentLabel == "N/A"
    ensures inherent.Some? ==> forall i :: 0 <= i < 3 ==>
      && d[i].inherent == CiaValue(Component(inherent.value, i).rating)
      && d[i].inherentLabel == (if Component(inherent.value, i).rating == "" then "N/A" else Component(inherent.value, i).rating)
    ensures forall i :: 0 <= i < 3 ==> d[i].residual <= 4 && d[i].inherent <= 4
  {
    seq(3, i requires 0 <= i < 3 =>
      Entry(ComponentNames[i], Component(residual, i), InherentComponent(inherent, i)))
  }

  /** The Y-axis `tickFormatter`: `['Low', 'Medium', 'High', 'Critical'][value - 1]`, undefined off 1 .. 4. */
  function TickFormatter(value: int): (r: Option<string>)
    ensures r.Some? <==> 1 <= value <= 4
  {
    if 1 <= value <= 4 then Some(CiaLevelLabel(CiaLevels[value - 1])) else None
  }

  /** The formatter and the value map are inverse to each other on the four labels and the ticks 1 .. 4. */
  lemma TickFormatterInvertsValue()
    ensures forall l: CiaLevel :: TickFormatter(CiaValue(CiaLevelLabel(l))) == Some(CiaLevelLabel(l))
    ensures forall v :: 1 <= v <= 4 ==> TickFormatter(v).Some? && CiaValue(TickFormatter(v).value) == v
  {
    forall l: CiaLevel ensures TickFormatter(CiaValue(CiaLevelLabel(l))) == Some(CiaLevelLabel(l)) {
      match l
      case CiaLow => assert CiaLevels[0] == l;
      case CiaMedium => assert CiaLevels[1] == l;
      case CiaHigh => assert CiaLevels[2] == l;
      case Critical => assert CiaLevels[3] == l;
    }
  }

  /** An unknown label draws a zero-height bar, which the formatter gives no label. */
  lemma UnknownLabelHasNoTick(text: string)
    requires ParseCiaLevel(text).None?
    ensures CiaValue(text) == 0 && TickFormatter(CiaValue(text)).None?
  {
  }
}
