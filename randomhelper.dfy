/** `RandomHelper`: maps freshly drawn random bytes to a boolean with a
    given probability, to an alphanumeric character, and to an integer in a
    closed range. The bytes the secure source would return are parameters. */
module RandomHelper {
  import opened Common
  import opened Text
  import opened Alphabets
  import Counting

  // ---------------------------------------------------------------------
  // Boolean with a probability

  /** `chance = b % 100 + 1`: a value between 1 and 100. */
  function Chance(b: byte): (r: int)
    ensures 1 <= r <= 100
    ensures r - 1 == b % 100
  {
    b % 100 + 1
  }

  /** `GenerateRandomBoolean`: true when the chance drawn from `b` does not
      exceed `probability` (a percentage). */
  function GenerateRandomBoolean(probability: int32, b: byte): (r: bool)
    ensures r <==> b % 100 < probability
  {
    Chance(b) <= probability
  }

  /** A probability of 100 or more is always true, one of 0 or less never. */
  lemma RandomBooleanExtremes(probability: int32, b: byte)
    ensures probability >= 100 ==> GenerateRandomBoolean(probability, b)
    ensures probability <= 0 ==> !GenerateRandomBoolean(probability, b)
  {
  }

  /** More probability never turns a true draw false. */
  lemma RandomBooleanMonotone(p: int32, q: int32, b: byte)
    requires p <= q
    ensures GenerateRandomBoolean(p, b) ==> GenerateRandomBoolean(q, b)
  {
  }

  // ---------------------------------------------------------------------
  // Alphanumeric character

  /** The 62 characters `GenerateRandomAlphanumericCharacter` chooses from. */
  const AlphanumericSet: string := Lowercase + Uppercase + Digits

  lemma AlphanumericSetFacts()
    ensures |AlphanumericSet| == 62 && Distinct(AlphanumericSet)
    ensures forall c :: c in AlphanumericSet <==> IsAlphanumeric(c)
  {
    RangeMembers();
    RangesDistinct();
    DistinctAppend(Lowercase, Uppercase);
    DistinctAppend(Lowercase + Uppercase, Digits);
  }

  /** `GenerateRandomAlphanumericCharacter`: `set[b % 62]`, always one of
      `a-z`, `A-Z`, `0-9`. */
  function GenerateRandomAlphanumericCharacter(b: byte): (r: char)
    ensures IsAlphanumeric(r)
  {
    AlphanumericSetFacts();
    AlphanumericSet[b % |AlphanumericSet|]
  }

  /** The position of an alphanumeric character in the set. */
  lemma AlphanumericIndex(c: char) returns (k: nat)
    requires IsAlphanumeric(c)
    ensures k < 62 && AlphanumericSet[k] == c
  {
    LowercaseShape();
    UppercaseShape();
    DigitsShape();
    var letters := Lowercase + Uppercase;
    assert AlphanumericSet == letters + Digits;
    if IsLower(c) {
      k := c as int - 97;
      assert letters[k] == Lowercase[k] == c;
      assert AlphanumericSet[k] == letters[k];
    } else if IsUpper(c) {
      k := 26 + (c as int - 65);
      assert letters[k] == Uppercase[k - 26] == c;
      assert AlphanumericSet[k] == letters[k];
    } else {
      k := 52 + (c as int - 48);
      assert Digits[k - 52] == c;
      assert AlphanumericSet[k] == Digits[k - 52];
    }
  }

  /** Every alphanumeric character is produced by some byte. */
  lemma AlphanumericReachable(c: char)
    requires IsAlphanumeric(c)
    ensures exists b: byte :: GenerateRandomAlphanumericCharacter(b) == c
  {
    var k := AlphanumericIndex(c);
    var b: byte := k;
    assert |AlphanumericSet| == 62 by {
      LowercaseShape();
      UppercaseShape();
      DigitsShape();
    }
    assert b % |AlphanumericSet| == k;
    assert GenerateRandomAlphanumericCharacter(b) == AlphanumericSet[k];
  }

  /** The plain remainder favours `a`..`h` (five bytes each) over the other
      54 characters (four bytes each). */
  lemma AlphanumericBias(k: int)
    requires 0 <= k < 62
    ensures |Counting.Residues(62, k, 256)| == if k < 8 then 5 else 4
  {
    Counting.ByteResidues(62, k);
  }

  // ---------------------------------------------------------------------
  // Integer in a closed range

  /** `BitConverter.ToUInt32(bytes, 0)` on a little-endian machine. */
  function ToUInt32(bytes: seq<byte>): uint32
    requires |bytes| == 4
  {
    var b0, b1, b2, b3: int := bytes[0], bytes[1], bytes[2], bytes[3];
    b0 + 0x100 * b1 + 0x1_0000 * b2 + 0x100_0000 * b3
  }

  /** The four little-endian bytes of `n`. */
  function UInt32Bytes(n: uint32): (r: seq<byte>)
    ensures |r| == 4
  {
    [n % 0x100, n / 0x100 % 0x100, n / 0x1_0000 % 0x100, n / 0x100_0000]
  }

  lemma UInt32BytesRoundTrip(n: uint32)
    ensures ToUInt32(UInt32Bytes(n)) == n
  {
    var q1, q2, q3 := n / 0x100, n / 0x1_0000, n / 0x100_0000;
    var a0, a1, a2 := n % 0x100, q1 % 0x100, q2 % 0x100;
    assert n == a0 + 0x100 * q1;
    assert q1 == a1 + 0x100 * (q1 / 0x100);
    Counting.DivModUnique(n, 0x1_0000, q1 / 0x100, a0 + 0x100 * a1);
    assert q2 == a2 + 0x100 * (q2 / 0x100);
    Counting.DivModUnique(n, 0x100_0000, q2 / 0x100, a0 + 0x100 * a1 + 0x1_0000 * a2);
  }

  lemma ToUInt32RoundTrip(bytes: seq<byte>)
    requires |bytes| == 4
    ensures UInt32Bytes(ToUInt32(bytes)) == bytes
  {
    var n := ToUInt32(bytes);
    var b0, b1, b2, b3: int := bytes[0], bytes[1], bytes[2], bytes[3];
    Counting.DivModUnique(n, 0x100, b1 + 0x100 * b2 + 0x1_0000 * b3, b0);
    Counting.DivModUnique(n, 0x1_0000, b2 + 0x100 * b3, b0 + 0x100 * b1);
    Counting.DivModUnique(n, 0x100_0000, b3, b0 + 0x100 * b1 + 0x1_0000 * b2);
    Counting.DivModUnique(n / 0x100, 0x100, b2 + 0x100 * b3, b1);
    Counting.DivModUnique(n / 0x1_0000, 0x100, b3, b2);
  }

  /** `GenerateRandomNumberBetween`: `(int)(min + num % (uint)(max - min + 1))`
      with C#'s unchecked 32-bit arithmetic. `min > max` is rejected; over
      the full `int` range the range size wraps to 0 and the remainder
      divides by zero. */
  function GenerateRandomNumberBetween(minValue: int32, maxValue: int32, randomBytes: seq<byte>): (r: Result<int32>)
    requires |randomBytes| == 4
    ensures minValue > maxValue ==> r == Err(ArgumentOutOfRange)
    ensures r.Err? ==> r == Err(ArgumentOutOfRange) || r == Err(DivideByZero)
  {
    if minValue > maxValue then Err(ArgumentOutOfRange)
    else
      var num := ToUInt32(randomBytes);
      var range := WrapUInt32(WrapInt32(maxValue - minValue + 1));
      if range == 0 then Err(DivideByZero)
      else Ok(WrapInt32(minValue + num % range))
  }

  /** The full `int` range, the one range the helper cannot serve. */
  predicate IsFullRange(minValue: int32, maxValue: int32) {
    minValue == -0x8000_0000 && maxValue == 0x7FFF_FFFF
  }

  /** Reinterpreting a wrapped `int` as `uint` gives back any value that
      fits in 32 unsigned bits. */
  lemma WrapRoundTrip(x: int)
    requires 0 <= x < 0x1_0000_0000
    ensures WrapUInt32(WrapInt32(x)) == x
  {
    if x >= 0x8000_0000 {
      Counting.DivModUnique(x + 0x8000_0000, 0x1_0000_0000, 1, x - 0x8000_0000);
    } else {
      Counting.DivModUnique(x + 0x8000_0000, 0x1_0000_0000, 0, x + 0x8000_0000);
    }
    Counting.DivModUnique(x, 0x1_0000_0000, 0, x);
    var w := WrapInt32(x);
    if x >= 0x8000_0000 {
      assert w == x - 0x1_0000_0000;
      Counting.DivModUnique(w, 0x1_0000_0000, -1, x);
    } else {
      assert w == x;
    }
  }

  /** Outside the full range, the result is `min + num % (max - min + 1)`
      and lies between `min` and `max`. */
  lemma NumberBetweenInRange(minValue: int32, maxValue: int32, randomBytes: seq<byte>)
    requires |randomBytes| == 4
    requires minValue <= maxValue && !IsFullRange(minValue, maxValue)
    ensures GenerateRandomNumberBetween(minValue, maxValue, randomBytes)
         == Ok(minValue + ToUInt32(randomBytes) % (maxValue - minValue + 1))
    ensures var r := GenerateRandomNumberBetween(minValue, maxValue, randomBytes);
            r.Ok? && minValue <= r.value <= maxValue
  {
    WrapRoundTrip(maxValue - minValue + 1);
  }

  /** Over the full range the computed range size is 0. */
  lemma FullRangeDividesByZero(randomBytes: seq<byte>)
    requires |randomBytes| == 4
    ensures GenerateRandomNumberBetween(-0x8000_0000, 0x7FFF_FFFF, randomBytes) == Err(DivideByZero)
  {
    assert WrapInt32(0x1_0000_0000) == 0 by {
      Counting.DivModUnique(0x1_0000_0000 + 0x8000_0000, 0x1_0000_0000, 1, 0x8000_0000);
    }
  }

  /** A one-value range returns that value whatever the bytes. */
  lemma NumberBetweenSingleValue(value: int32, randomBytes: seq<byte>)
    requires |randomBytes| == 4
    ensures GenerateRandomNumberBetween(value, value, randomBytes) == Ok(value)
  {
    NumberBetweenInRange(value, value, randomBytes);
  }

  /** Every value of the range is produced by some four bytes. */
  lemma NumberBetweenReachable(minValue: int32, maxValue: int32, v: int32)
    requires minValue <= v <= maxValue && !IsFullRange(minValue, maxValue)
    ensures GenerateRandomNumberBetween(minValue, maxValue, UInt32Bytes(v - minValue)) == Ok(v)
  {
    var offset := v - minValue;
    var bytes := UInt32Bytes(offset);
    NumberBetweenInRange(minValue, maxValue, bytes);
    UInt32BytesRoundTrip(offset);
    assert ToUInt32(bytes) == offset;
    Counting.DivModUnique(offset, maxValue - minValue + 1, 0, offset);
    assert minValue + ToUInt32(bytes) % (maxValue - minValue + 1) == v;
  }
}
