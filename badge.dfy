/** The three badge variants the UI colours a rating with, ordered by how alarming they look. */
module Badge {

  datatype Variant = Outline | Secondary | Destructive

  /** Outline is the calmest, destructive the most severe. */
  function Severity(v: Variant): (n: nat)
    ensures n <= 2
    ensures v == Outline <==> n == 0
    ensures v == Destructive <==> n == 2
  {
    match v
    case Outline => 0
    case Secondary => 1
    case Destructive => 2
  }
}
