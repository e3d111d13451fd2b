/** `PasswordBuilder`, the earlier builder: its charset always starts from
    the 52 letters before filtering, its non-ambiguous reference set has no
    specials, each character is the
    plain remainder `charSet[b % n]` of one random byte, and `Build`
    dispatches on the chosen algorithm. The random bytes the secure source
    would fill are the input `randomBytes`. */
module LegacyPassword {
  import opened Common
  import opened Text
  import opened Alphabets
  import Counting

  /** The 52 letters, uppercase first. */
  const Letters: string := Uppercase + Lowercase

  /** The reference set of non-ambiguous mode: letters without `I O l o`
      and the digits `2`..`9`; no specials. */
  const NonAmbiguousChars: string := NonAmbiguousUpper + NonAmbiguousLower + NonAmbiguousDigits

  /** The characters non-ambiguous mode is meant to drop. */
  const AmbiguousChars: string := "l1IoO0"

  /** An integer a `PasswordAlgorithm` variable can hold that is none of the
      named members `Basic` (0), `Dictionary` (1) and `Diceware` (2). */
  type UnnamedAlgorithmValue = v: int32 | v < 0 || 2 < v witness -1

  /** The `PasswordAlgorithm` enum nested in `PasswordBuilder`. A C# enum
      variable can hold any integer; `Unknown` stands for a value outside the
      three named members. */
  datatype PasswordAlgorithm = Basic | Dictionary | Diceware | Unknown(value: UnnamedAlgorithmValue)

  /** A snapshot of the builder's fields. */
  datatype Options = Options(
    length: int32,
    useNumbers: bool,
    useSpecialChars: bool,
    useNonAmbiguousChars: bool,
    excludedChars: string,
    algorithm: PasswordAlgorithm)

  /** The field initialisers. */
  const DefaultOptions := Options(8, true, true, false, "", Basic)

  /** The letters followed by the enabled subsets, in append order. */
  function AssembledCharSet(o: Options): string {
    Letters + (if o.useNumbers then Digits else "") + (if o.useSpecialChars then Specials else "")
  }

  /** The charset `GenerateBasicPassword` draws from. */
  function CharSetFor(o: Options): string {
    var assembled := AssembledCharSet(o);
    var filtered := if o.useNonAmbiguousChars then Intersect(assembled, NonAmbiguousChars) else assembled;
    KeepOut(filtered, o.excludedChars)
  }

  // ---------------------------------------------------------------------
  // The character set

  /** Before filtering the charset starts with the 52 letters, uppercase then
      lowercase, followed by the digits and the specials when enabled; no
      character occurs twice. */
  lemma AssembledCharSetFacts(o: Options)
    ensures |AssembledCharSet(o)| == 52 + (if o.useNumbers then 10 else 0) + (if o.useSpecialChars then 26 else 0)
    ensures AssembledCharSet(o)[..52] == Letters
    ensures Distinct(AssembledCharSet(o))
    ensures forall c :: c in AssembledCharSet(o) <==>
              IsUpper(c) || IsLower(c) || (o.useNumbers && IsDigit(c)) || (o.useSpecialChars && c in Specials)
  {
    RangeMembers();
    RangesDistinct();
    SpecialsFacts();
    var d := if o.useNumbers then Digits else "";
    var s := if o.useSpecialChars then Specials else "";
    DistinctAppend(Uppercase, Lowercase);
    DistinctAppend(Letters, d);
    DistinctAppend(Letters + d, s);
    assert AssembledCharSet(o) == Letters + (d + s);
  }

  lemma NonAmbiguousCharsFacts()
    ensures |NonAmbiguousChars| == 56 && Distinct(NonAmbiguousChars)
    ensures forall c :: c in NonAmbiguousChars ==> IsAlphanumeric(c)
    ensures forall c :: c in AmbiguousChars ==> c !in NonAmbiguousChars
  {
    NonAmbiguousUpperFacts();
    NonAmbiguousLowerFacts();
    NonAmbiguousDigitsFacts();
    DistinctAppend(NonAmbiguousUpper, NonAmbiguousLower);
    DistinctAppend(NonAmbiguousUpper + NonAmbiguousLower, NonAmbiguousDigits);
  }

  /** The final charset repeats no character, holds exactly the assembled
      characters that pass the non-ambiguous filter (when on) and are not
      excluded, and keeps their assembled order. */
  lemma CharSetFacts(o: Options)
    ensures Distinct(CharSetFor(o))
    ensures forall c :: c in CharSetFor(o) <==>
              c in AssembledCharSet(o)
              && (o.useNonAmbiguousChars ==> c in NonAmbiguousChars)
              && c !in o.excludedChars
    ensures CharSetFor(o) == KeepOut(
              if o.useNonAmbiguousChars then KeepIn(AssembledCharSet(o), NonAmbiguousChars)
              else AssembledCharSet(o),
              o.excludedChars)
  {
    AssembledCharSetFacts(o);
    FilteredCharSetFacts(AssembledCharSet(o), NonAmbiguousChars, o.useNonAmbiguousChars, o.excludedChars);
  }

  /** Non-ambiguous mode removes every special character, even with specials
      enabled, together with `l 1 I o 0 O`: only letters and digits remain. */
  lemma NonAmbiguousRemovesSpecials(o: Options)
    requires o.useNonAmbiguousChars
    ensures forall c :: c in CharSetFor(o) ==> IsAlphanumeric(c)
    ensures forall c :: c in Specials ==> c !in CharSetFor(o)
    ensures forall c :: c in AmbiguousChars ==> c !in CharSetFor(o)
  {
    NonAmbiguousCharsFacts();
    SpecialsFacts();
    CharSetFacts(o);
  }

  lemma ExcludedAbsent(o: Options)
    ensures forall c :: c in o.excludedChars ==> c !in CharSetFor(o)
  {
    CharSetFacts(o);
  }

  /** With nothing excluded the charset is never empty: the letters are
      always there (all 52, or 48 in non-ambiguous mode). */
  lemma CharSetNonEmptyWithoutExclusions(o: Options)
    requires o.excludedChars == ""
    ensures |CharSetFor(o)| >= 48
  {
    CharSetFacts(o);
    AssembledCharSetFacts(o);
    NonAmbiguousUpperFacts();
    NonAmbiguousLowerFacts();
    var r := CharSetFor(o);
    var ref := NonAmbiguousUpper + NonAmbiguousLower;
    DistinctAppend(NonAmbiguousUpper, NonAmbiguousLower);
    assert Chars(ref) <= Chars(r) by {
      forall c | c in ref ensures c in r {
        assert c in NonAmbiguousUpper || c in NonAmbiguousLower;
      }
    }
    DistinctCard(ref);
    DistinctCard(r);
    assert |Chars(ref)| <= |Chars(r)| by {
      SubsetCard(Chars(ref), Chars(r));
    }
  }

  lemma SubsetCard(a: set<char>, b: set<char>)
    requires a <= b
    ensures |a| <= |b|
  {
    assert b == a + (b - a);
  }

  /** The default options give the 88 characters letters, digits, specials. */
  lemma DefaultCharSet()
    ensures CharSetFor(DefaultOptions) == Letters + Digits + Specials
    ensures |CharSetFor(DefaultOptions)| == 88
  {
    AssembledCharSetFacts(DefaultOptions);
    KeepOutNothing(AssembledCharSet(DefaultOptions));
  }

  // ---------------------------------------------------------------------
  // Plain modulo mapping

  /** For the default 88-character charset the first 80 characters are
      drawn by three byte values each and the last 8 by only two. */
  lemma DefaultCharSetBias()
    ensures |Counting.Residues(88, 0, 256)| == 3
    ensures |Counting.Residues(88, 87, 256)| == 2
  {
    Counting.ByteResidues(88, 0);
    Counting.ByteResidues(88, 87);
  }

  /** `GenerateRandomPassword`: character `i` is `charSet[randomBytes[i] % n]`.
      A negative length makes the array allocation throw; an empty charset
      with a positive length divides by zero. */
  method GenerateRandomPassword(length: int32, charSet: string, randomBytes: seq<byte>) returns (r: Result<string>)
    requires length >= 0 ==> |randomBytes| == length
    ensures length < 0 ==> r == Err(Overflow)
    ensures length > 0 && |charSet| == 0 ==> r == Err(DivideByZero)
    ensures length == 0 ==> r == Ok("")
    ensures length > 0 && |charSet| > 0 ==> r.Ok? && |r.value| == length
    ensures r.Ok? ==> forall i :: 0 <= i < |r.value| ==>
              r.value[i] == charSet[randomBytes[i] % |charSet|] && r.value[i] in charSet
  {
    if length < 0 {
      return Err(Overflow);
    }
    var chars := new char[length];
    for i := 0 to length
      invariant i > 0 ==> |charSet| > 0
      invariant forall j :: 0 <= j < i ==> |charSet| > 0 && chars[j] == charSet[randomBytes[j] % |charSet|]
    {
      if |charSet| == 0 {
        return Err(DivideByZero);
      }
      chars[i] := charSet[randomBytes[i] % |charSet|];
    }
    return Ok(chars[..]);
  }

  // ---------------------------------------------------------------------
  // The builder

  class PasswordBuilder {
    var length: int32
    var useNumbers: bool
    var useSpecialChars: bool
    var useNonAmbiguousChars: bool
    var excludedChars: string
    var algorithm: PasswordAlgorithm

    function Current(): Options
      reads this
    {
      Options(length, useNumbers, useSpecialChars, useNonAmbiguousChars, excludedChars, algorithm)
    }

    function CharSet(): string
      reads this
    {
      CharSetFor(Current())
    }

    /** Length 8, numbers and specials on, non-ambiguous off, nothing
        excluded, the basic algorithm. */
    constructor ()
      ensures Current() == DefaultOptions
    {
      length := 8;
      useNumbers := true;
      useSpecialChars := true;
      useNonAmbiguousChars := false;
      excludedChars := "";
      algorithm := Basic;
    }

    method SetLength(length: int32) returns (self: PasswordBuilder)
      modifies this
      ensures self == this && Current() == old(Current()).(length := length)
    {
      this.length := length;
      self := this;
    }

    method UseNumbers(useNumbers: bool) returns (self: PasswordBuilder)
      modifies this
      ensures self == this && Current() == old(Current()).(useNumbers := useNumbers)
    {
      this.useNumbers := useNumbers;
      self := this;
    }

    method UseSpecialChars(useSpecial: bool) returns (self: PasswordBuilder)
      modifies this
      ensures self == this && Current() == old(Current()).(useSpecialChars := useSpecial)
    {
      this.useSpecialChars := useSpecial;
      self := this;
    }

    method UseNonAmbiguousChars(useNonAmbiguous: bool) returns (self: PasswordBuilder)
      modifies this
      ensures self == this && Current() == old(Current()).(useNonAmbiguousChars := useNonAmbiguous)
    {
      this.useNonAmbiguousChars := useNonAmbiguous;
      self := this;
    }

    method ExcludeChars(excludedChars: string) returns (self: PasswordBuilder)
      modifies this
      ensures self == this && Current() == old(Current()).(excludedChars := excludedChars)
    {
      this.excludedChars := excludedChars;
      self := this;
    }

    method UseAlgorithm(algorithm: PasswordAlgorithm) returns (self: PasswordBuilder)
      modifies this
      ensures self == this && Current() == old(Current()).(algorithm := algorithm)
    {
      this.algorithm := algorithm;
      self := this;
    }

    /** `GenerateBasicPassword`: assembles the charset, then maps one random
        byte per character onto it. */
    method GenerateBasicPassword(randomBytes: seq<byte>) returns (r: Result<string>)
      requires length >= 0 ==> |randomBytes| == length
      ensures length < 0 ==> r == Err(Overflow)
      ensures length > 0 && |CharSet()| == 0 ==> r == Err(DivideByZero)
      ensures length >= 0 && (length == 0 || |CharSet()| > 0) ==> r.Ok? && |r.value| == length
      ensures r.Ok? ==> forall i :: 0 <= i < |r.value| ==>
                r.value[i] == CharSet()[randomBytes[i] % |CharSet()|] && r.value[i] in CharSet()
    {
      var charSet := Letters;
      if useNumbers {
        charSet := charSet + Digits;
      }
      if useSpecialChars {
        charSet := charSet + Specials;
      }
      assert charSet == AssembledCharSet(Current());
      if useNonAmbiguousChars {
        charSet := Intersect(charSet, NonAmbiguousChars);
      }
      charSet := RemoveExcluded(charSet, excludedChars);
      r := GenerateRandomPassword(length, charSet, randomBytes);
    }

    /** `Build`: the basic algorithm generates a password; the dictionary and
        diceware algorithms are not implemented; any other value is out of
        range. */
    method Build(randomBytes: seq<byte>) returns (r: Result<string>)
      requires algorithm.Basic? && length >= 0 ==> |randomBytes| == length
      ensures algorithm.Dictionary? || algorithm.Diceware? ==> r == Err(NotImplemented)
      ensures algorithm.Unknown? ==> r == Err(ArgumentOutOfRange)
      ensures algorithm.Basic? && length < 0 ==> r == Err(Overflow)
      ensures algorithm.Basic? && length > 0 && |CharSet()| == 0 ==> r == Err(DivideByZero)
      ensures algorithm.Basic? && length >= 0 && (length == 0 || |CharSet()| > 0) ==>
                r.Ok? && |r.value| == length
      ensures r.Ok? ==> forall i :: 0 <= i < |r.value| ==>
                r.value[i] == CharSet()[randomBytes[i] % |CharSet()|] && r.value[i] in CharSet()
    {
      match algorithm
      case Basic =>
        r := GenerateBasicPassword(randomBytes);
      case Dictionary =>
        r := Err(NotImplemented);
      case Diceware =>
        r := Err(NotImplemented);
      case Unknown(_) =>
        r := Err(ArgumentOutOfRange);
    }
  }
}
