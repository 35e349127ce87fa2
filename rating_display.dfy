/**
 * How the results view shows a likelihood or impact given as text: the
 * badge chosen from the label's lower-cased prefix, and the split of
 * "<label> - <justification>" or "<label>: <justification>" into its parts.
 */
module RatingDisplay {
  import opened JsStrings
  import opened Badge

  /** `getBadgeVariant`: destructive for labels starting with "high", secondary for "medium", in any case. */
  function BadgeVariant(level: string): (v: Variant)
    ensures v == Destructive <==> "high" <= ToLowerAscii(level)
    ensures v == Secondary <==> "medium" <= ToLowerAscii(level)
    ensures v == Outline <==> !("high" <= ToLowerAscii(level)) && !("medium" <= ToLowerAscii(level))
  {
    var lower := ToLowerAscii(level);
    assert "high" <= lower ==> lower[0] == 'h';
    assert "medium" <= lower ==> lower[0] == 'm';
    if "high" <= lower then Destructive
    else if "medium" <= lower then Secondary
    else Outline
  }

  /** The badge depends on the label only up to letter case. */
  lemma BadgeVariantIgnoresCase(level: string)
    ensures BadgeVariant(ToLowerAscii(level)) == BadgeVariant(level)
  {
    ToLowerAsciiIdempotent(level);
  }

  /**
   * On the five-point scale only High is destructive and only Medium is
   * secondary; Very High, whose lower-cased text starts with "very", gets
   * the calm outline badge although it is the more severe rating.
   */
  lemma BadgeVariantOnFivePointLabels()
    ensures BadgeVariant("High") == Destructive
    ensures BadgeVariant("Medium") == Secondary
    ensures BadgeVariant("Very High") == Outline
    ensures BadgeVariant("Low") == Outline && BadgeVariant("Very Low") == Outline
    ensures Severity(BadgeVariant("Very High")) < Severity(BadgeVariant("High"))
  {
    assert ToLowerAscii("High")[..4] == "high";
    assert ToLowerAscii("Medium")[..6] == "medium";
    assert ToLowerAscii("Very High")[0] == 'v';
    assert ToLowerAscii("Low")[0] == 'l';
    assert ToLowerAscii("Very Low")[0] == 'v';
  }

  /** A separator of the pattern / - |: / starts `s`. */
  predicate StartsWithSep(s: string) {
    || (|s| >= 3 && s[0] == ' ' && s[1] == '-' && s[2] == ' ')
    || (|s| >= 2 && s[0] == ':' && s[1] == ' ')
  }

  function SepLength(s: string): (n: nat)
    requires StartsWithSep(s)
    ensures n <= |s| && (n == 3 || n == 2)
  {
    if s[0] == ' ' then 3 else 2
  }

  /** The text holds ": " somewhere. */
  predicate ContainsColonSep(s: string)
    decreases |s|
  {
    s != [] && ((|s| >= 2 && s[0] == ':' && s[1] == ' ') || ContainsColonSep(s[1..]))
  }

  predicate ContainsSep(s: string)
    decreases |s|
  {
    s != [] && (StartsWithSep(s) || ContainsSep(s[1..]))
  }

  /** Where the leftmost separator begins. */
  function FirstSep(s: string): (k: nat)
    requires ContainsSep(s)
    ensures k < |s| && StartsWithSep(s[k..])
    decreases |s|
  {
    if StartsWithSep(s) then 0
    else
      var k := FirstSep(s[1..]);
      assert s[1..][k..] == s[k + 1..];
      k + 1
  }

  /** No separator begins before `FirstSep`. */
  lemma {:induction false} FirstSepIsLeftmost(s: string, j: nat)
    requires ContainsSep(s) && j < FirstSep(s)
    ensures !StartsWithSep(s[j..])
    decreases |s|
  {
    if j > 0 {
      FirstSepIsLeftmost(s[1..], j - 1);
      assert s[1..][j - 1..] == s[j..];
    }
  }

  /** `text.split(/ - |: /)`: the text between separators, scanned from the left. */
  function SplitRating(s: string): (parts: seq<string>)
    ensures |parts| >= 1
    decreases |s|
  {
    if s == [] then [""]
    else if StartsWithSep(s) then [""] + SplitRating(s[SepLength(s)..])
    else
      var t := SplitRating(s[1..]);
      [[s[0]] + t[0]] + t[1..]
  }

  /** The text with every separator written as " - ", the way `join(' - ')` puts the parts back. */
  function NormaliseSeps(s: string): string
    decreases |s|
  {
    if s == [] then ""
    else if StartsWithSep(s) then " - " + NormaliseSeps(s[SepLength(s)..])
    else [s[0]] + NormaliseSeps(s[1..])
  }

  lemma {:induction false} SplitNoSep(s: string)
    requires !ContainsSep(s)
    ensures SplitRating(s) == [s]
    decreases |s|
  {
    if s != [] {
      SplitNoSep(s[1..]);
      assert s == [s[0]] + s[1..];
    }
  }

  /** The first part is the text before the leftmost separator; the rest is the split of what follows it. */
  lemma {:induction false} SplitAtFirstSep(s: string)
    requires ContainsSep(s)
    ensures SplitRating(s) == [s[..FirstSep(s)]] + SplitRating(s[FirstSep(s) + SepLength(s[FirstSep(s)..])..])
    decreases |s|
  {
    if StartsWithSep(s) {
      assert FirstSep(s) == 0 && s[..0] == "" && s[0..] == s;
    } else {
      var s1 := s[1..];
      var k := FirstSep(s1);
      var n := SepLength(s1[k..]);
      SplitAtFirstSep(s1);
      assert FirstSep(s) == k + 1;
      assert s[k + 1..] == s1[k..];
      assert s[k + 1 + n..] == s1[k + n..];
      assert s[..k + 1] == [s[0]] + s1[..k];
      calc {
        SplitRating(s);
        [[s[0]] + SplitRating(s1)[0]] + SplitRating(s1)[1..];
        [[s[0]] + s1[..k]] + SplitRating(s1[k + n..]);
      }
    }
  }

  /** Rejoining the parts with " - " gives the text with its separators normalised. */
  lemma {:induction false} JoinSplitRating(s: string)
    ensures Join(SplitRating(s), " - ") == NormaliseSeps(s)
    decreases |s|
  {
    if s != [] {
      if StartsWithSep(s) {
        var rest := s[SepLength(s)..];
        JoinSplitRating(rest);
        assert Join([""] + SplitRating(rest), " - ") == "" + " - " + Join(SplitRating(rest), " - ");
      } else {
        JoinSplitRating(s[1..]);
        var t := SplitRating(s[1..]);
        if |t| == 1 {
          assert Join([[s[0]] + t[0]], " - ") == [s[0]] + t[0];
        } else {
          assert ([[s[0]] + t[0]] + t[1..])[1..] == t[1..];
          assert Join(t, " - ") == t[0] + " - " + Join(t[1..], " - ");
        }
      }
    }
  }

  /** Text without ": " is already normal. */
  lemma {:induction false} NormaliseWithoutColon(s: string)
    requires !ContainsColonSep(s)
    ensures NormaliseSeps(s) == s
    decreases |s|
  {
    if s != [] {
      if StartsWithSep(s) {
        assert s[3..] == s[1..][1..][1..];
        assert !ContainsColonSep(s[1..][1..]);
        NormaliseWithoutColon(s[3..]);
        assert s == s[..3] + s[3..];
      } else {
        NormaliseWithoutColon(s[1..]);
        assert s == [s[0]] + s[1..];
      }
    }
  }

  /** A rating as the view shows it. */
  datatype ParsedRating = ParsedRating(rating: string, justification: string)

  /**
   * `parseRating`: empty text is not available; text without a separator is
   * all rating; otherwise the rating is the text before the leftmost
   * separator ("N/A" when that is empty) and the justification is the rest
   * with its separators written as " - ".
   */
  function ParseRating(text: string): (r: ParsedRating)
    ensures text == "" ==> r == ParsedRating("N/A", "Not available.")
    ensures text != "" && !ContainsSep(text) ==> r == ParsedRating(text, "No justification provided.")
    ensures ContainsSep(text) ==>
      var k := FirstSep(text);
      && r.rating == (if k == 0 then "N/A" else text[..k])
      && r.justification == NormaliseSeps(text[k + SepLength(text[k..])..])
      && forall j :: 0 <= j < k ==> !StartsWithSep(text[j..])
  {
    if text == "" then ParsedRating("N/A", "Not available.")
    else
      var parts := SplitRating(text);
      var rating := if parts[0] == "" then "N/A" else parts[0];
      var justification := if |parts| > 1 then Join(parts[1..], " - ") else "No justification provided.";
      if !ContainsSep(text) then
        SplitNoSep(text);
        ParsedRating(rating, justification)
      else
        SplitAtFirstSep(text);
        var k := FirstSep(text);
        JoinSplitRating(text[k + SepLength(text[k..])..]);
        forall j | 0 <= j < k ensures !StartsWithSep(text[j..]) {
          FirstSepIsLeftmost(text, j);
        }
        ParsedRating(rating, justification)
  }

  lemma {:induction false} SplitAfterPlainPrefix(p: string, sep: string, rest: string)
    requires sep == " - " || sep == ": "
    requires !ContainsSep(p + " ")
    ensures SplitRating(p + sep + rest) == [p] + SplitRating(rest)
    decreases |p|
  {
    var s := p + sep + rest;
    if p == [] {
      assert s == sep + rest && s[|sep|..] == rest;
    } else {
      var q := p + " ";
      assert !StartsWithSep(q);
      assert q[1..] == p[1..] + " ";
      assert s[0] == q[0];
      assert |p| >= 2 ==> s[1] == q[1];
      assert |p| >= 3 ==> s[2] == q[2];
      assert |p| == 2 ==> s[2] == sep[0];
      assert |p| == 1 ==> s[1] == sep[0];
      SplitAfterPlainPrefix(p[1..], sep, rest);
      assert s[1..] == p[1..] + sep + rest;
      assert [p[0]] + p[1..] == p;
    }
  }

  /**
   * Writing a label and a justification as "<label> - <justification>" or
   * "<label>: <justification>" and parsing it gives both back, provided the
   * label is not empty and cannot run into the separator, and the
   * justification holds no ": ".
   */
  lemma ParseRatingRoundTrip(level: string, sep: string, justification: string)
    requires sep == " - " || sep == ": "
    requires level != "" && !ContainsSep(level + " ")
    requires !ContainsColonSep(justification)
    ensures ParseRating(level + sep + justification) == ParsedRating(level, justification)
  {
    SplitAfterPlainPrefix(level, sep, justification);
    JoinSplitRating(justification);
    NormaliseWithoutColon(justification);
  }
}
