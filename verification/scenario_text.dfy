/** Facts about literal texts. It holds facts about the seeded table's texts and
    the filter values the repository's tests search for: which search terms are
    wildcard-free, and which texts contain them ignoring case. It also holds
    two `Int32.Parse` examples: one padded numeral with a plus sign and
    leading zeros that parses, and one with white space after the sign that
    does not. */
module ScenarioText {
  import opened Wrappers
  import opened SqlValues
  import opened Conversion

  /** A text lacking one of the characters of `v` (up to case) cannot
      contain `v`. */
  lemma MissingCharNotContained(s: string, v: string, j: nat)
    requires j < |v|
    requires forall i :: 0 <= i < |s| ==> Fold(s[i]) != Fold(v[j])
    ensures !ContainsCI(s, v)
  {
    forall k | 0 <= k <= |s| ensures !PrefixCI(v, s[k..]) {
      if |v| <= |s| - k {
        assert Fold(s[k..][j]) == Fold(s[k + j]) != Fold(v[j]);
      }
    }
  }

  /** A text that starts with `v` (up to case) contains it. */
  lemma PrefixContained(s: string, v: string)
    requires PrefixCI(v, s)
    ensures ContainsCI(s, v)
  {
    assert s[0..] == s;
  }

  /** The search terms the tests use hold no `%` or `_`. */
  lemma SearchTermsAreLiteral()
    ensures NoWildcards("acro")
    ensures NoWildcards("Phys")
    ensures NoWildcards("hide")
  {
  }

  lemma AcroFacts()
    ensures ContainsCI("Acrobatics", "acro")
  {
    assert PrefixCI("acro", "Acrobatics");
    PrefixContained("Acrobatics", "acro");
  }

  lemma AcroNotInStealth()
    ensures !ContainsCI("Stealth", "acro")
  {
    var stealth := "Stealth";
    assert forall i :: 0 <= i < |stealth| ==> Fold(stealth[i]) != 'c';
    MissingCharNotContained(stealth, "acro", 1);
  }

  lemma PhysFacts()
    ensures ContainsCI("Physical", "Phys")
  {
    assert PrefixCI("Phys", "Physical");
    PrefixContained("Physical", "Phys");
  }

  lemma HideFacts()
    ensures ContainsCI("Hide from sight", "hide")
  {
    assert PrefixCI("hide", "Hide from sight");
    PrefixContained("Hide from sight", "hide");
  }

  lemma HideNotInMovement()
    ensures !ContainsCI("Movement maneuvers", "hide")
  {
    var movement := "Movement maneuvers";
    assert forall i :: 0 <= i < |movement| ==> Fold(movement[i]) != 'h';
    MissingCharNotContained(movement, "hide", 0);
  }

  /** `Int32.Parse` accepts padding, a plus sign and leading zeros. */
  lemma ParsePaddedPlusZeros()
    ensures ParseInt32(" +007\t") == Some(7)
  {
    var t := "+007";
    assert t[1..] == "007";
    assert DigitsValue("007") == 7 by {
      assert "007"[..2] == "00" && "00"[..1] == "0" && "0"[..0] == "";
    }
    assert " " + t + "\t" == " +007\t";
    ParsePadded(" ", t, "\t");
  }

  /** `Int32.Parse` rejects a sign separated from its digits. */
  lemma ParseDetachedSignFails()
    ensures ParseInt32("- 1").None?
  {
    assert TrimStart("- 1") == "- 1";
    assert TrimEnd("- 1") == "- 1";
    assert !IsDigit("- 1"[1..][0]);
  }
}
