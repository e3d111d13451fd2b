/** The literal character subsets both password builders are assembled
    from, and the facts about them that the charset proofs rest on. The
    non-ambiguous reference strings of the builders are written in the
    source as one literal each; here they are the concatenation of the
    pieces below, which spells the same characters in the same order. */
module Alphabets {
  import opened Text

  const Lowercase: string := "abcdefghijklmnopqrstuvwxyz"
  const Uppercase: string := "ABCDEFGHIJKLMNOPQRSTUVWXYZ"
  const Digits: string := "0123456789"
  const Specials: string := "!@#$%^&*()-_=+[]{}|;:,.<>?"

  /** The non-ambiguous pieces: no `I O`, no `l o`, no `0 1`, and the
      specials without `( ) _ { } ; .`. */
  const NonAmbiguousUpper: string := "ABCDEFGHJKLMNPQRSTUVWXYZ"
  const NonAmbiguousLower: string := "abcdefghijkmnpqrstuvwxyz"
  const NonAmbiguousDigits: string := "23456789"
  const NonAmbiguousSpecials: string := "!@#$%^&*-=+[]|:,<>?"

  lemma LowercaseShape()
    ensures |Lowercase| == 26
    ensures forall i :: 0 <= i < 26 ==> Lowercase[i] == (97 + i) as char
  {
  }

  lemma UppercaseShape()
    ensures |Uppercase| == 26
    ensures forall i :: 0 <= i < 26 ==> Uppercase[i] == (65 + i) as char
  {
  }

  lemma DigitsShape()
    ensures |Digits| == 10
    ensures forall i :: 0 <= i < 10 ==> Digits[i] == (48 + i) as char
  {
  }

  /** Membership in the three ranges is the ASCII character class. */
  lemma RangeMembers()
    ensures forall c :: c in Lowercase <==> IsLower(c)
    ensures forall c :: c in Uppercase <==> IsUpper(c)
    ensures forall c :: c in Digits <==> IsDigit(c)
  {
    LowercaseShape();
    UppercaseShape();
    DigitsShape();
    forall c | IsLower(c) ensures c in Lowercase {
      assert Lowercase[c as int - 97] == c;
    }
    forall c | IsUpper(c) ensures c in Uppercase {
      assert Uppercase[c as int - 65] == c;
    }
    forall c | IsDigit(c) ensures c in Digits {
      assert Digits[c as int - 48] == c;
    }
  }

  lemma RangesDistinct()
    ensures Distinct(Lowercase) && Distinct(Uppercase) && Distinct(Digits)
  {
    LowercaseShape();
    UppercaseShape();
    DigitsShape();
  }

  /** The two halves of `Specials`, each free of repetitions and sharing no
      character. */
  lemma SpecialsHalves()
    ensures Specials == "!@#$%^&*()-_=" + "+[]{}|;:,.<>?"
    ensures Distinct("!@#$%^&*()-_=") && Distinct("+[]{}|;:,.<>?")
  {
  }

  lemma SpecialsHalvesDisjoint()
    ensures forall c :: c in "!@#$%^&*()-_=" ==> c !in "+[]{}|;:,.<>?"
  {
  }

  lemma SpecialsDistinct()
    ensures |Specials| == 26 && Distinct(Specials)
  {
    SpecialsHalves();
    SpecialsHalvesDisjoint();
    DistinctAppend("!@#$%^&*()-_=", "+[]{}|;:,.<>?");
  }

  lemma SpecialsMembers()
    ensures forall c :: c in Specials ==> !IsAlphanumeric(c)
  {
  }

  lemma SpecialsFacts()
    ensures |Specials| == 26 && Distinct(Specials)
    ensures forall c :: c in Specials ==> !IsAlphanumeric(c)
  {
    SpecialsDistinct();
    SpecialsMembers();
  }

  lemma NonAmbiguousUpperAscending()
    ensures |NonAmbiguousUpper| == 24 && Ascending(NonAmbiguousUpper)
  {
  }

  lemma NonAmbiguousUpperMembers()
    ensures forall c :: c in NonAmbiguousUpper ==> IsUpper(c) && c != 'I' && c != 'O'
  {
  }

  lemma NonAmbiguousUpperFacts()
    ensures |NonAmbiguousUpper| == 24 && Distinct(NonAmbiguousUpper)
    ensures forall c :: c in NonAmbiguousUpper ==> IsUpper(c) && c != 'I' && c != 'O'
  {
    NonAmbiguousUpperAscending();
    AscendingDistinct(NonAmbiguousUpper);
    NonAmbiguousUpperMembers();
  }

  lemma NonAmbiguousLowerAscending()
    ensures |NonAmbiguousLower| == 24 && Ascending(NonAmbiguousLower)
  {
  }

  lemma NonAmbiguousLowerMembers()
    ensures forall c :: c in NonAmbiguousLower ==> IsLower(c) && c != 'l' && c != 'o'
  {
  }

  lemma NonAmbiguousLowerFacts()
    ensures |NonAmbiguousLower| == 24 && Distinct(NonAmbiguousLower)
    ensures forall c :: c in NonAmbiguousLower ==> IsLower(c) && c != 'l' && c != 'o'
  {
    NonAmbiguousLowerAscending();
    AscendingDistinct(NonAmbiguousLower);
    NonAmbiguousLowerMembers();
  }

  lemma NonAmbiguousDigitsFacts()
    ensures |NonAmbiguousDigits| == 8 && Distinct(NonAmbiguousDigits)
    ensures forall c :: c in NonAmbiguousDigits ==> '2' <= c <= '9'
  {
  }

  lemma NonAmbiguousSpecialsDistinct()
    ensures |NonAmbiguousSpecials| == 19 && Distinct(NonAmbiguousSpecials)
  {
  }

  lemma NonAmbiguousSpecialsMembers()
    ensures forall c :: c in NonAmbiguousSpecials ==> c in Specials && c != '_' && c != '{'
  {
  }

  lemma NonAmbiguousSpecialsFacts()
    ensures |NonAmbiguousSpecials| == 19 && Distinct(NonAmbiguousSpecials)
    ensures forall c :: c in NonAmbiguousSpecials ==> c in Specials && c != '_' && c != '{'
  {
    NonAmbiguousSpecialsDistinct();
    NonAmbiguousSpecialsMembers();
  }
}
