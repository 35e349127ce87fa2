/**
 * The saved-risks register page: the numeric value of a five-point label,
 * the total rating of a record (likelihood value times impact value), the
 * badge that colours the total, and removal of a record by id.
 */
module RiskRegister {
  import opened Wrappers
  import opened RatingScales
  import opened Badge

  /** A saved record as the register page reads it: `likelihood` and `impact` carry a `rating` field. */
  datatype RiskRecord = RiskRecord(
    id: string,
    technology: string,
    riskStatement: string,
    likelihood: Rating,
    impact: Rating)

  /** The entries of `ratingValueMap`: Very Low .. Very High are 1 .. 5. */
  function Ordinal(l: Level): (n: nat)
    ensures 1 <= n <= 5
  {
    match l
    case VeryLow => 1
    case Low => 2
    case Medium => 3
    case High => 4
    case VeryHigh => 5
  }

  /** The values follow the scale's order: the i-th level is worth i + 1, so the map is strictly increasing. */
  lemma OrdinalFollowsScale()
    ensures forall i :: 0 <= i < |Levels| ==> Ordinal(Levels[i]) == i + 1
    ensures forall i, j :: 0 <= i < j < |Levels| ==> Ordinal(Levels[i]) < Ordinal(Levels[j])
  {
  }

  /** `ratingValueMap[text] || 0`: the value of a known label, 0 for any other text. */
  function RatingValue(text: string): (v: nat)
    ensures v <= 5
    ensures v == 0 <==> ParseLevel(text).None?
    ensures forall l: Level :: text == LevelLabel(l) ==> v == Ordinal(l)
  {
    match ParseLevel(text)
    case Some(l) => Ordinal(l)
    case None => 0
  }

  predicate KnownLabels(r: RiskRecord) {
    ParseLevel(r.likelihood.rating).Some? && ParseLevel(r.impact.rating).Some?
  }

  /** The total rating shown for a record. */
  function TotalRating(r: RiskRecord): (t: nat)
    ensures KnownLabels(r) ==> 1 <= t <= 25
    ensures KnownLabels(r) ==>
      t == Ordinal(ParseLevel(r.likelihood.rating).value) * Ordinal(ParseLevel(r.impact.rating).value)
    ensures !KnownLabels(r) ==> t == 0
  {
    var a, b := RatingValue(r.likelihood.rating), RatingValue(r.impact.rating);
    assert a * b <= 25 by {
      assert a * b <= 5 * b <= 25;
    }
    a * b
  }

  /** Products of two values in 1 .. 5 reach 25 only as 5 * 5. */
  lemma ProductIs25(a: nat, b: nat)
    requires 1 <= a <= 5 && 1 <= b <= 5
    ensures a * b == 25 <==> a == 5 && b == 5
  {
    if a < 5 {
      assert a * b <= 4 * b <= 20;
    } else if b < 5 {
      assert a * b <= a * 4 <= 20;
    }
  }

  /** Only a Very High likelihood with a Very High impact reaches the maximum of 25. */
  lemma TotalIs25Iff(r: RiskRecord)
    ensures TotalRating(r) == 25 <==>
      r.likelihood.rating == "Very High" && r.impact.rating == "Very High"
  {
    if KnownLabels(r) {
      ProductIs25(RatingValue(r.likelihood.rating), RatingValue(r.impact.rating));
    }
  }

  /** `getTotalRatingBadgeVariant`: destructive from 16, secondary from 6, outline below (0 included). */
  function TotalRatingBadge(rating: int): (v: Variant)
    ensures v == Destructive <==> rating >= 16
    ensures v == Secondary <==> 6 <= rating < 16
    ensures v == Outline <==> rating < 6
  {
    if rating >= 16 then Destructive
    else if rating >= 6 then Secondary
    else Outline
  }

  /** A larger total never gets a calmer badge. */
  lemma TotalRatingBadgeMonotone(a: int, b: int)
    requires a <= b
    ensures Severity(TotalRatingBadge(a)) <= Severity(TotalRatingBadge(b))
  {
  }

  /** Products of two values in 1 .. 5 are at least 16 exactly when both factors are at least 4. */
  lemma ProductAtLeast16(a: nat, b: nat)
    requires 1 <= a <= 5 && 1 <= b <= 5
    ensures a * b >= 16 <==> a >= 4 && b >= 4
  {
    if a <= 3 {
      assert a * b <= 3 * b <= 15;
    } else if b <= 3 {
      assert a * b <= a * 3 <= 15;
    } else {
      assert a * b >= 4 * b >= 16;
    }
  }

  /** Products of two values in 1 .. 5 stay below 6 exactly when one factor is 1, or both are at most 2. */
  lemma ProductBelow6(a: nat, b: nat)
    requires 1 <= a <= 5 && 1 <= b <= 5
    ensures a * b < 6 <==> a == 1 || b == 1 || (a == 2 && b == 2)
  {
    if a == 1 || b == 1 {
    } else if a == 2 && b == 2 {
    } else if a == 2 {
      assert a * b == 2 * b >= 6;
    } else if b == 2 {
      assert a * b == a * 2 >= 6;
    } else {
      assert a * b >= 3 * b >= 9;
    }
  }

  /**
   * For a record with known labels the total is destructive exactly when both
   * likelihood and impact are High or Very High, and outline exactly when one
   * of them is Very Low or both are at most Low.
   */
  lemma TotalBadgeByLevels(r: RiskRecord)
    requires KnownLabels(r)
    ensures var l, i := ParseLevel(r.likelihood.rating).value, ParseLevel(r.impact.rating).value;
      && (TotalRatingBadge(TotalRating(r)) == Destructive <==> Ordinal(l) >= 4 && Ordinal(i) >= 4)
      && (TotalRatingBadge(TotalRating(r)) == Outline <==>
            l == VeryLow || i == VeryLow || (l == Low && i == Low))
  {
    var l, i := ParseLevel(r.likelihood.rating).value, ParseLevel(r.impact.rating).value;
    ProductAtLeast16(Ordinal(l), Ordinal(i));
    ProductBelow6(Ordinal(l), Ordinal(i));
  }

  /** A record whose likelihood or impact label is unknown shows total 0 with an outline badge. */
  lemma UnknownLabelIsOutline(r: RiskRecord)
    requires ParseLevel(r.likelihood.rating).None? || ParseLevel(r.impact.rating).None?
    ensures TotalRating(r) == 0 && TotalRatingBadge(TotalRating(r)) == Outline
  {
  }

  /** `risks.filter(risk => risk.id !== id)`. */
  function DeleteRisk(risks: seq<RiskRecord>, id: string): (kept: seq<RiskRecord>)
    ensures |kept| <= |risks|
    ensures forall r :: r in kept <==> r in risks && r.id != id
    decreases |risks|
  {
    if risks == [] then []
    else
      var rest := DeleteRisk(risks[1..], id);
      if risks[0].id != id then [risks[0]] + rest else rest
  }

  /** Removal works piecewise: deleting from a concatenation deletes from each part, keeping the parts' order. */
  lemma {:induction false} DeleteRiskConcat(a: seq<RiskRecord>, b: seq<RiskRecord>, id: string)
    ensures DeleteRisk(a + b, id) == DeleteRisk(a, id) + DeleteRisk(b, id)
    decreases |a|
  {
    if a == [] {
      assert a + b == b;
    } else {
      assert (a + b)[1..] == a[1..] + b;
      DeleteRiskConcat(a[1..], b, id);
    }
  }

  /** `xs` can be obtained from `ys` by dropping elements, without reordering. */
  predicate IsSubsequence<T(==)>(xs: seq<T>, ys: seq<T>)
    decreases |ys|
  {
    if ys == [] then xs == []
    else (xs != [] && xs[0] == ys[0] && IsSubsequence(xs[1..], ys[1..])) || IsSubsequence(xs, ys[1..])
  }

  /**
   * The kept records appear in their original relative order, and each record
   * with a different id is kept as many times as it occurred while records
   * with this id are all gone.
   */
  lemma {:induction false} DeleteRiskKeepsOthersInOrder(risks: seq<RiskRecord>, id: string)
    ensures IsSubsequence(DeleteRisk(risks, id), risks)
    ensures forall r: RiskRecord :: r.id != id ==> multiset(DeleteRisk(risks, id))[r] == multiset(risks)[r]
    ensures forall r: RiskRecord :: r.id == id ==> multiset(DeleteRisk(risks, id))[r] == 0
    decreases |risks|
  {
    if risks != [] {
      DeleteRiskKeepsOthersInOrder(risks[1..], id);
      assert risks == [risks[0]] + risks[1..];
      var rest := DeleteRisk(risks[1..], id);
      if risks[0].id != id {
        assert ([risks[0]] + rest)[1..] == rest;
      } else {
        assert multiset(risks) == multiset{risks[0]} + multiset(risks[1..]);
      }
    }
  }

  /** Deleting the same id a second time changes nothing. */
  lemma {:induction false} DeleteRiskIdempotent(risks: seq<RiskRecord>, id: string)
    ensures DeleteRisk(DeleteRisk(risks, id), id) == DeleteRisk(risks, id)
    decreases |risks|
  {
    if risks != [] {
      DeleteRiskIdempotent(risks[1..], id);
      var rest := DeleteRisk(risks[1..], id);
      if risks[0].id != id {
        assert ([risks[0]] + rest)[1..] == rest;
      }
    }
  }

  /** A list with no record of that id is left as it is. */
  lemma {:induction false} DeleteRiskAbsentId(risks: seq<RiskRecord>, id: string)
    requires forall i :: 0 <= i < |risks| ==> risks[i].id != id
    ensures DeleteRisk(risks, id) == risks
    decreases |risks|
  {
    if risks != [] {
      DeleteRiskAbsentId(risks[1..], id);
      assert risks == [risks[0]] + risks[1..];
    }
  }
}
