/** `BasicPasswordBuilder`: assembles a character set from option flags and
    draws each password character with a rejection sampler, so that every
    character of the set is equally likely. The secure random source is the
    byte sequence `stream`; a draw reads the next byte of it. */
module BasicPassword {
  import opened Common
  import opened Text
  import opened Alphabets
  import Counting

  /** The reference set that `UseNonAmbiguousChars(true)` intersects with. */
  const NonAmbiguousChars: string :=
    NonAmbiguousUpper + NonAmbiguousLower + NonAmbiguousDigits + NonAmbiguousSpecials

  /** The characters the tests check are gone in non-ambiguous mode. */
  const AmbiguousChars: string := "l1IoO0_{"

  /** A snapshot of the builder's option fields. */
  datatype Options = Options(
    length: int32,
    useLowercaseLetters: bool,
    useUppercaseLetters: bool,
    useNumbers: bool,
    useSpecialChars: bool,
    useNonAmbiguousChars: bool,
    excludedChars: string)

  /** The enabled subsets, concatenated in the order `GetCharSet` appends them. */
  function AssembledCharSet(o: Options): string {
    (if o.useLowercaseLetters then Lowercase else "")
    + (if o.useUppercaseLetters then Uppercase else "")
    + (if o.useNumbers then Digits else "")
    + (if o.useSpecialChars then Specials else "")
  }

  /** The character set `GetCharSet` returns: the assembled subsets, intersected
      with the reference set when non-ambiguous mode is on, with every
      excluded character removed. */
  function CharSetFor(o: Options): string {
    var assembled := AssembledCharSet(o);
    var filtered := if o.useNonAmbiguousChars then Intersect(assembled, NonAmbiguousChars) else assembled;
    KeepOut(filtered, o.excludedChars)
  }

  /** What a successful `GeneratePassword` yields: the password text and the
      number of possible symbols its entropy is computed from. */
  datatype GeneratedPassword = GeneratedPassword(text: string, possibleSymbols: nat)

  // ---------------------------------------------------------------------
  // The character set

  /** Before filtering, the charset is the in-order concatenation of the
      enabled subsets; they are disjoint, so no character occurs twice. */
  lemma AssembledCharSetFacts(o: Options)
    ensures Distinct(AssembledCharSet(o))
    ensures |AssembledCharSet(o)|
         == (if o.useLowercaseLetters then 26 else 0) + (if o.useUppercaseLetters then 26 else 0)
          + (if o.useNumbers then 10 else 0) + (if o.useSpecialChars then 26 else 0)
    ensures forall c :: c in AssembledCharSet(o) <==>
              (o.useLowercaseLetters && IsLower(c)) || (o.useUppercaseLetters && IsUpper(c))
              || (o.useNumbers && IsDigit(c)) || (o.useSpecialChars && c in Specials)
  {
    RangeMembers();
    RangesDistinct();
    SpecialsFacts();
    LowercaseShape();
    UppercaseShape();
    DigitsShape();
    var l := if o.useLowercaseLetters then Lowercase else "";
    var u := if o.useUppercaseLetters then Uppercase else "";
    var d := if o.useNumbers then Digits else "";
    var s := if o.useSpecialChars then Specials else "";
    DistinctAppend(l, u);
    DistinctAppend(l + u, d);
    DistinctAppend(l + u + d, s);
  }

  /** The reference set has 75 characters, none repeated, all of them
      drawn from the four subsets. */
  lemma NonAmbiguousCharsFacts()
    ensures |NonAmbiguousChars| == 75 && Distinct(NonAmbiguousChars)
    ensures forall c :: c in NonAmbiguousChars ==>
              IsLower(c) || IsUpper(c) || IsDigit(c) || c in Specials
    ensures forall c :: c in AmbiguousChars ==> c !in NonAmbiguousChars
  {
    NonAmbiguousCharsDistinct();
    NonAmbiguousCharsUnambiguous();
  }

  lemma NonAmbiguousCharsDistinct()
    ensures |NonAmbiguousChars| == 75 && Distinct(NonAmbiguousChars)
    ensures forall c :: c in NonAmbiguousChars ==>
              IsLower(c) || IsUpper(c) || IsDigit(c) || c in Specials
  {
    NonAmbiguousUpperFacts();
    NonAmbiguousLowerFacts();
    NonAmbiguousDigitsFacts();
    NonAmbiguousSpecialsFacts();
    SpecialsFacts();
    var ul := NonAmbiguousUpper + NonAmbiguousLower;
    var uld := ul + NonAmbiguousDigits;
    DistinctAppend(NonAmbiguousUpper, NonAmbiguousLower);
    DistinctAppend(ul, NonAmbiguousDigits);
    DistinctAppend(uld, NonAmbiguousSpecials);
  }

  lemma NonAmbiguousCharsUnambiguous()
    ensures forall c :: c in AmbiguousChars ==> c !in NonAmbiguousChars
  {
    NonAmbiguousUpperMembers();
    NonAmbiguousLowerMembers();
    NonAmbiguousDigitsFacts();
    NonAmbiguousSpecialsMembers();
    SpecialsMembers();
    forall c | c in AmbiguousChars ensures c !in NonAmbiguousChars {
      assert c in "l1IoO0_{";
      assert c !in NonAmbiguousUpper && c !in NonAmbiguousLower;
      assert c !in NonAmbiguousDigits && c !in NonAmbiguousSpecials;
    }
  }

  /** The final charset never repeats a character; it holds exactly the
      assembled characters that pass the non-ambiguous filter (when on) and
      are not excluded; and it lists them in their assembled order. */
  lemma CharSetFacts(o: Options)
    ensures Distinct(CharSetFor(o))
    ensures forall c :: c in CharSetFor(o) <==>
              c in AssembledCharSet(o)
              && (o.useNonAmbiguousChars ==> c in NonAmbiguousChars)
              && c !in o.excludedChars
    ensures CharSetFor(o) == KeepOut(
              if o.useNonAmbiguousChars then KeepIn(AssembledCharSet(o), NonAmbiguousChars)
              else AssembledCharSet(o),
              o.excludedChars)
  {
    AssembledCharSetFacts(o);
    FilteredCharSetFacts(AssembledCharSet(o), NonAmbiguousChars, o.useNonAmbiguousChars, o.excludedChars);
  }

  /** With non-ambiguous mode on, none of `l 1 I o 0 O _ {` is in the charset,
      whatever else is configured. */
  lemma NonAmbiguousExcludesAmbiguous(o: Options)
    requires o.useNonAmbiguousChars
    ensures forall c :: c in AmbiguousChars ==> c !in CharSetFor(o)
  {
    NonAmbiguousCharsFacts();
    CharSetFacts(o);
  }

  /** No excluded character is in the charset. */
  lemma ExcludedAbsent(o: Options)
    ensures forall c :: c in o.excludedChars ==> c !in CharSetFor(o)
  {
    CharSetFacts(o);
  }

  /** The charset has at most 88 characters, so the sampler's
      `256 - 256 % n` never degenerates to 0. */
  lemma CharSetSize(o: Options)
    ensures |CharSetFor(o)| <= 88
  {
    AssembledCharSetFacts(o);
    var assembled := AssembledCharSet(o);
    KeepOutMembers(Intersect(assembled, NonAmbiguousChars), o.excludedChars);
    KeepOutMembers(assembled, o.excludedChars);
  }

  /** `EnableAllOptions` yields the 75-character charset. */
  lemma AllOptionsCharSetSize(length: int32)
    ensures |CharSetFor(Options(length, true, true, true, true, true, ""))| == 75
  {
    var o := Options(length, true, true, true, true, true, "");
    var assembled := AssembledCharSet(o);
    var r := Intersect(assembled, NonAmbiguousChars);
    AssembledCharSetFacts(o);
    NonAmbiguousCharsFacts();
    KeepOutNothing(r);
    assert Chars(r) == Chars(NonAmbiguousChars);
    DistinctCard(r);
    DistinctCard(NonAmbiguousChars);
  }

  /** Lowercase letters alone give the 26 letters `a`..`z`, in order. */
  lemma LowercaseOnlyCharSet(length: int32)
    ensures CharSetFor(Options(length, true, false, false, false, false, "")) == Lowercase
    ensures |Lowercase| == 26
  {
    var o := Options(length, true, false, false, false, false, "");
    assert AssembledCharSet(o) == Lowercase;
    KeepOutNothing(Lowercase);
  }

  /** With every subset disabled the charset is empty, whatever is excluded. */
  lemma DisabledCharSetEmpty(o: Options)
    requires !o.useLowercaseLetters && !o.useUppercaseLetters && !o.useNumbers && !o.useSpecialChars
    ensures CharSetFor(o) == ""
  {
    AssembledCharSetFacts(o);
  }

  // ---------------------------------------------------------------------
  // Rejection sampling

  /** `maxValidValue` of `GetUnbiasedRandomChar` for a charset of `n` characters. */
  function MaxValidValue(n: int): int
    requires n > 0
  {
    256 - 256 % n
  }

  /** For 1 <= n <= 256 the limit is a positive multiple of `n`, and fewer
      than `n` byte values lie at or above it. */
  lemma MaxValidValueFacts(n: int)
    requires 1 <= n <= 256
    ensures 0 < MaxValidValue(n) <= 256
    ensures MaxValidValue(n) % n == 0 && MaxValidValue(n) / n == 256 / n
    ensures 256 - MaxValidValue(n) < n
  {
    Counting.DivModUnique(256, n, 256 / n, 256 % n);
    Counting.DivModUnique(MaxValidValue(n), n, 256 / n, 0);
  }

  /** Every index below `n` is produced by exactly `MaxValidValue(n) / n`
      accepted byte values: rejection sampling has no modulo bias. */
  lemma UnbiasedIndex(n: int, k: int)
    requires 1 <= n <= 256 && 0 <= k < n
    ensures |Counting.Residues(n, k, MaxValidValue(n))| == MaxValidValue(n) / n
  {
    MaxValidValueFacts(n);
    assert MaxValidValue(n) == n * (256 / n) + 0;
    Counting.ResiduesCount(n, k, 256 / n, 0);
  }

  /** The bytes of `stream` below `limit`, in order: the draws the sampler keeps. */
  function Accepted(stream: seq<byte>, limit: int): (r: seq<byte>)
    ensures forall b :: b in r ==> b < limit
  {
    if |stream| == 0 then []
    else
      assert stream == stream[..|stream| - 1] + [stream[|stream| - 1]];
      Accepted(stream[..|stream| - 1], limit)
      + (if stream[|stream| - 1] < limit then [stream[|stream| - 1]] else [])
  }

  lemma {:induction false} AcceptedAppend(a: seq<byte>, b: seq<byte>, limit: int)
    ensures Accepted(a + b, limit) == Accepted(a, limit) + Accepted(b, limit)
  {
    if |b| > 0 {
      assert (a + b)[..|a + b| - 1] == a + b[..|b| - 1];
      AcceptedAppend(a, b[..|b| - 1], limit);
    } else {
      assert a + b == a;
    }
  }

  /** The accepted bytes of the stream are those accepted before `p`
      followed by those accepted from `p` on. */
  lemma AcceptedSplit(stream: seq<byte>, p: nat, limit: int)
    requires p <= |stream|
    ensures Accepted(stream, limit) == Accepted(stream[..p], limit) + Accepted(stream[p..], limit)
  {
    assert stream == stream[..p] + stream[p..];
    AcceptedAppend(stream[..p], stream[p..], limit);
  }

  /** If fewer bytes than the whole stream offers have been accepted up to
      `pos`, an acceptable byte lies at or after `pos`. */
  lemma AcceptedAhead(stream: seq<byte>, pos: nat, limit: int)
    requires pos <= |stream|
    requires |Accepted(stream[..pos], limit)| < |Accepted(stream, limit)|
    ensures exists j :: pos <= j < |stream| && stream[j] < limit
  {
    assert stream == stream[..pos] + stream[pos..];
    AcceptedAppend(stream[..pos], stream[pos..], limit);
    AcceptedWitness(stream[pos..], limit);
    var j :| 0 <= j < |stream[pos..]| && stream[pos..][j] < limit;
    assert stream[pos + j] < limit;
  }

  lemma {:induction false} AcceptedWitness(s: seq<byte>, limit: int)
    requires |Accepted(s, limit)| > 0
    ensures exists j :: 0 <= j < |s| && s[j] < limit
  {
    if s[|s| - 1] >= limit {
      AcceptedWitness(s[..|s| - 1], limit);
      var j :| 0 <= j < |s| - 1 && s[..|s| - 1][j] < limit;
      assert s[j] < limit;
    }
  }

  /** `GetUnbiasedRandomChar`: draws bytes from `stream` starting at `pos`,
      redrawing every byte at or above `256 - 256 % n`, and maps the first
      accepted byte `b` to `charSet[b % n]`. `next` is the position after it. */
  method GetUnbiasedRandomChar(charSet: string, stream: seq<byte>, pos: nat) returns (c: char, next: nat)
    requires |charSet| > 0 && pos <= |stream|
    requires exists j :: pos <= j < |stream| && stream[j] < MaxValidValue(|charSet|)
    ensures pos < next <= |stream|
    ensures forall j :: pos <= j < next - 1 ==> stream[j] >= MaxValidValue(|charSet|)
    ensures stream[next - 1] < MaxValidValue(|charSet|)
    ensures c == charSet[stream[next - 1] % |charSet|]
    ensures Accepted(stream[..next], MaxValidValue(|charSet|))
         == Accepted(stream[..pos], MaxValidValue(|charSet|)) + [stream[next - 1]]
  {
    var maxValidValue := 256 - 256 % |charSet|;
    var i := pos;
    while true
      invariant pos <= i < |stream|
      invariant exists j :: i <= j < |stream| && stream[j] < maxValidValue
      invariant forall j :: pos <= j < i ==> stream[j] >= maxValidValue
      invariant Accepted(stream[..i], maxValidValue) == Accepted(stream[..pos], maxValidValue)
      decreases |stream| - i
    {
      var b := stream[i];
      assert stream[..i + 1] == stream[..i] + [b];
      if b < maxValidValue {
        return charSet[b % |charSet|], i + 1;
      }
      i := i + 1;
    }
  }

  /** `GenerateRandomPassword`: `length` characters, character `i` drawn from
      the `i`-th accepted byte. A negative length makes the array allocation
      throw. */
  method GenerateRandomPassword(length: int32, charSet: string, stream: seq<byte>) returns (r: Result<string>)
    requires |charSet| > 0
    requires length >= 0 ==> |Accepted(stream, MaxValidValue(|charSet|))| >= length
    ensures length < 0 ==> r == Err(Overflow)
    ensures length >= 0 ==> r.Ok? && |r.value| == length
    ensures r.Ok? ==> forall i :: 0 <= i < |r.value| ==>
              r.value[i] == charSet[Accepted(stream, MaxValidValue(|charSet|))[i] % |charSet|]
  {
    if length < 0 {
      return Err(Overflow);
    }
    ghost var limit := MaxValidValue(|charSet|);
    ghost var accepted := Accepted(stream, limit);
    var chars := new char[length];
    var pos := 0;
    for i := 0 to length
      invariant pos <= |stream|
      invariant Accepted(stream[..pos], limit) == accepted[..i]
      invariant forall j :: 0 <= j < i ==> chars[j] == charSet[accepted[j] % |charSet|]
    {
      AcceptedAhead(stream, pos, limit);
      var c, next := GetUnbiasedRandomChar(charSet, stream, pos);
      AcceptedSplit(stream, next, limit);
      assert accepted[..i + 1] == Accepted(stream[..next], limit);
      chars[i] := c;
      pos := next;
    }
    return Ok(chars[..]);
  }

  // ---------------------------------------------------------------------
  // The builder

  class BasicPasswordBuilder {
    var length: int32
    var useLowercaseLetters: bool
    var useUppercaseLetters: bool
    var useNumbers: bool
    var useSpecialChars: bool
    var useNonAmbiguousChars: bool
    var excludedChars: string

    /** The option fields as one value. */
    function Current(): Options
      reads this
    {
      Options(length, useLowercaseLetters, useUppercaseLetters, useNumbers,
              useSpecialChars, useNonAmbiguousChars, excludedChars)
    }

    /** The charset the current options give. */
    function CharSet(): string
      reads this
    {
      CharSetFor(Current())
    }

    /** The field initialisers: length 8, every subset on, non-ambiguous off,
        nothing excluded. */
    constructor ()
      ensures Current() == Options(8, true, true, true, true, false, "")
    {
      length := 8;
      useLowercaseLetters := true;
      useUppercaseLetters := true;
      useNumbers := true;
      useSpecialChars := true;
      useNonAmbiguousChars := false;
      excludedChars := "";
    }

    /** Sets every flag, non-ambiguous included, to `defaultValue` and clears
        the exclusions; the length is kept. */
    method ResetOptions(defaultValue: bool)
      modifies this
      ensures Current() == Options(old(length), defaultValue, defaultValue, defaultValue,
                                   defaultValue, defaultValue, "")
    {
      useLowercaseLetters := defaultValue;
      useUppercaseLetters := defaultValue;
      useNumbers := defaultValue;
      useSpecialChars := defaultValue;
      useNonAmbiguousChars := defaultValue;
      excludedChars := "";
    }

    method DisableAllOptions() returns (self: BasicPasswordBuilder)
      modifies this
      ensures self == this
      ensures Current() == Options(old(length), false, false, false, false, false, "")
      ensures CharSet() == ""
    {
      ResetOptions(false);
      DisabledCharSetEmpty(Current());
      self := this;
    }

    method EnableAllOptions() returns (self: BasicPasswordBuilder)
      modifies this
      ensures self == this
      ensures Current() == Options(old(length), true, true, true, true, true, "")
      ensures |CharSet()| == 75
    {
      ResetOptions(true);
      AllOptionsCharSetSize(length);
      self := this;
    }

    method SetLength(length: int32) returns (self: BasicPasswordBuilder)
      modifies this
      ensures self == this && Current() == old(Current()).(length := length)
    {
      this.length := length;
      self := this;
    }

    method UseLowercaseLetters(useLowercaseLetters: bool) returns (self: BasicPasswordBuilder)
      modifies this
      ensures self == this && Current() == old(Current()).(useLowercaseLetters := useLowercaseLetters)
    {
      this.useLowercaseLetters := useLowercaseLetters;
      self := this;
    }

    method UseUppercaseLetters(useUppercaseLetters: bool) returns (self: BasicPasswordBuilder)
      modifies this
      ensures self == this && Current() == old(Current()).(useUppercaseLetters := useUppercaseLetters)
    {
      this.useUppercaseLetters := useUppercaseLetters;
      self := this;
    }

    method UseNumbers(useNumbers: bool) returns (self: BasicPasswordBuilder)
      modifies this
      ensures self == this && Current() == old(Current()).(useNumbers := useNumbers)
    {
      this.useNumbers := useNumbers;
      self := this;
    }

    method UseSpecialChars(useSpecial: bool) returns (self: BasicPasswordBuilder)
      modifies this
      ensures self == this && Current() == old(Current()).(useSpecialChars := useSpecial)
    {
      this.useSpecialChars := useSpecial;
      self := this;
    }

    method UseNonAmbiguousChars(useNonAmbiguous: bool) returns (self: BasicPasswordBuilder)
      modifies this
      ensures self == this && Current() == old(Current()).(useNonAmbiguousChars := useNonAmbiguous)
    {
      this.useNonAmbiguousChars := useNonAmbiguous;
      self := this;
    }

    method ExcludeChars(excludedChars: string) returns (self: BasicPasswordBuilder)
      modifies this
      ensures self == this && Current() == old(Current()).(excludedChars := excludedChars)
    {
      this.excludedChars := excludedChars;
      self := this;
    }

    /** `GetCharSet`: appends the enabled subsets, intersects with the
        reference set if asked, then removes the excluded characters one
        `Replace` at a time. */
    method GetCharSet() returns (charSet: string)
      ensures charSet == CharSet()
    {
      charSet := "";
      if useLowercaseLetters {
        charSet := charSet + Lowercase;
      }
      assert charSet == (if useLowercaseLetters then Lowercase else "");
      if useUppercaseLetters {
        charSet := charSet + Uppercase;
      }
      assert charSet == (if useLowercaseLetters then Lowercase else "")
                        + (if useUppercaseLetters then Uppercase else "");
      if useNumbers {
        charSet := charSet + Digits;
      }
      if useSpecialChars {
        charSet := charSet + Specials;
      }
      assert charSet == AssembledCharSet(Current());
      if useNonAmbiguousChars {
        charSet := Intersect(charSet, NonAmbiguousChars);
      }
      charSet := RemoveExcluded(charSet, excludedChars);
    }

    /** `GetPossibleSymbolsCount`: the size of the charset. */
    method GetPossibleSymbolsCount() returns (count: int)
      ensures count == |CharSet()| && 0 <= count <= 88
    {
      var charSet := GetCharSet();
      CharSetSize(Current());
      count := |charSet|;
    }

    /** `GeneratePassword`: an empty charset throws before anything is drawn;
        otherwise `length` characters are sampled without bias from the charset. */
    method GeneratePassword(stream: seq<byte>) returns (r: Result<GeneratedPassword>)
      requires |CharSet()| > 0 && length >= 0 ==>
                 |Accepted(stream, MaxValidValue(|CharSet()|))| >= length
      ensures |CharSet()| == 0 ==> r == Err(InvalidOperation)
      ensures |CharSet()| > 0 && length < 0 ==> r == Err(Overflow)
      ensures |CharSet()| > 0 && length >= 0 ==>
                r.Ok? && |r.value.text| == length && r.value.possibleSymbols == |CharSet()|
      ensures r.Ok? ==> forall i :: 0 <= i < |r.value.text| ==>
                r.value.text[i] in CharSet()
                && r.value.text[i] == CharSet()[Accepted(stream, MaxValidValue(|CharSet()|))[i] % |CharSet()|]
    {
      var charSet := GetCharSet();
      if |charSet| == 0 {
        return Err(InvalidOperation);
      }
      var password := GenerateRandomPassword(length, charSet, stream);
      if password.Err? {
        return Err(password.error);
      }
      var possibleSymbolsCount := GetPossibleSymbolsCount();
      return Ok(GeneratedPassword(password.value, possibleSymbolsCount));
    }
  }
}
