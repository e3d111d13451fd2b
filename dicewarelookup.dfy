/** `DicewareLookup`: a table of 8192 word slots filled from the lines of a
    word list, read by a dice index such as `35142`. The index is printed in
    decimal, each digit `1`..`6` is read as a base-6 digit `0`..`5`, and one
    is subtracted before the table is indexed. */
module Diceware {
  import opened Common
  import opened Text
  import Counting

  /** The number of slots `LoadWords` allocates. */
  const TableSize := 8192

  predicate IsDieChar(c: char) { '1' <= c <= '6' }

  /** A string of dice faces. */
  predicate IsDiceString(s: string) {
    forall i :: 0 <= i < |s| ==> IsDieChar(s[i])
  }

  function Pow6(k: nat): (r: nat)
    ensures r >= 1
  {
    if k == 0 then 1 else 6 * Pow6(k - 1)
  }

  lemma {:induction false} Pow6Monotone(j: nat, k: nat)
    requires j <= k
    ensures Pow6(j) <= Pow6(k)
    decreases k
  {
    if j < k {
      Pow6Monotone(j, k - 1);
    }
  }

  // ---------------------------------------------------------------------
  // Base-6 conversion

  /** The value `ConvertBase6ToBase10` accumulates, in unbounded integers:
      the left fold `result * 6 + (digit - '1')`. */
  function Base6Value(s: string): int {
    if |s| == 0 then 0
    else Base6Value(s[..|s| - 1]) * 6 + (s[|s| - 1] as int - '1' as int)
  }

  /** Adding a multiple of 2^32 does not change the low 32 bits. */
  lemma WrapShift(y: int, m: int)
    ensures WrapInt32(y + 0x1_0000_0000 * m) == WrapInt32(y)
  {
    var a := y + 0x8000_0000;
    Counting.DivModUnique(a + 0x1_0000_0000 * m, 0x1_0000_0000, a / 0x1_0000_0000 + m, a % 0x1_0000_0000);
  }

  /** One step of the fold commutes with 32-bit wrap-around. */
  lemma WrapStep(x: int, d: int)
    ensures WrapInt32(WrapInt32(x) * 6 + d) == WrapInt32(x * 6 + d)
  {
    var q := (x + 0x8000_0000) / 0x1_0000_0000;
    assert WrapInt32(x) == x - 0x1_0000_0000 * q;
    assert WrapInt32(x) * 6 + d == x * 6 + d + 0x1_0000_0000 * (-6 * q);
    WrapShift(x * 6 + d, -6 * q);
  }

  /** `ConvertBase6ToBase10`: the fold in C#'s unchecked `int` arithmetic. */
  method ConvertBase6ToBase10(base6: string) returns (result: int32)
    ensures result == WrapInt32(Base6Value(base6))
  {
    result := 0;
    for i := 0 to |base6|
      invariant result == WrapInt32(Base6Value(base6[..i]))
    {
      assert base6[..i + 1][..i] == base6[..i];
      WrapStep(Base6Value(base6[..i]), base6[i] as int - '1' as int);
      result := WrapInt32(result * 6 + (base6[i] as int - '1' as int));
    }
    assert base6[..|base6|] == base6;
  }

  /** `k` dice faces read as base 6 give a value in `[0, 6^k)`. */
  lemma {:induction false} Base6Range(s: string)
    requires IsDiceString(s)
    ensures 0 <= Base6Value(s) < Pow6(|s|)
  {
    if |s| > 0 {
      var p := s[..|s| - 1];
      assert IsDiceString(p);
      Base6Range(p);
      assert IsDieChar(s[|s| - 1]);
    }
  }

  /** Equal-length dice strings with the same value are equal. */
  lemma {:induction false} Base6Injective(s: string, t: string)
    requires IsDiceString(s) && IsDiceString(t) && |s| == |t|
    requires Base6Value(s) == Base6Value(t)
    ensures s == t
  {
    if |s| > 0 {
      var p, q := s[..|s| - 1], t[..|t| - 1];
      assert IsDiceString(p) && IsDiceString(q);
      assert IsDieChar(s[|s| - 1]) && IsDieChar(t[|t| - 1]);
      Base6Range(p);
      Base6Range(q);
      var v := Base6Value(s);
      Counting.DivModUnique(v, 6, Base6Value(p), s[|s| - 1] as int - '1' as int);
      Counting.DivModUnique(v, 6, Base6Value(q), t[|t| - 1] as int - '1' as int);
      Base6Injective(p, q);
      assert s == p + [s[|s| - 1]] && t == q + [t[|t| - 1]];
    }
  }

  /** The `k` dice faces whose base-6 value is `n`. */
  function DiceDigits(n: nat, k: nat): (r: string)
    requires n < Pow6(k)
    ensures |r| == k && IsDiceString(r)
  {
    if k == 0 then ""
    else
      var d := n % 6;
      assert n / 6 < Pow6(k - 1);
      DiceDigits(n / 6, k - 1) + [('1' as int + d) as char]
  }

  /** `DiceDigits` inverts the conversion: with `Base6Range` and
      `Base6Injective`, the `k`-face dice strings are in one-to-one
      correspondence with `[0, 6^k)`. */
  lemma {:induction false} DiceDigitsRoundTrip(n: nat, k: nat)
    requires n < Pow6(k)
    ensures Base6Value(DiceDigits(n, k)) == n
  {
    if k > 0 {
      assert n / 6 < Pow6(k - 1);
      DiceDigitsRoundTrip(n / 6, k - 1);
      var r := DiceDigits(n, k);
      assert r[..|r| - 1] == DiceDigits(n / 6, k - 1);
    }
  }

  lemma Base6RoundTrip(s: string)
    requires IsDiceString(s)
    ensures 0 <= Base6Value(s) < Pow6(|s|) && DiceDigits(Base6Value(s), |s|) == s
  {
    Base6Range(s);
    DiceDigitsRoundTrip(Base6Value(s), |s|);
    Base6Injective(DiceDigits(Base6Value(s), |s|), s);
  }

  /** The two ends of the five-dice range. */
  lemma Base6Ends()
    ensures Base6Value("11111") == 0
    ensures Base6Value("66666") == 7775
    ensures Pow6(5) == 7776
  {
    assert "11111"[..4] == "1111" && "1111"[..3] == "111" && "111"[..2] == "11" && "11"[..1] == "1";
    assert "66666"[..4] == "6666" && "6666"[..3] == "666" && "666"[..2] == "66" && "66"[..1] == "6";
  }

  // ---------------------------------------------------------------------
  // No wrap-around on printed integers

  predicate IsDecimalChar(c: char) { c == '-' || IsDigit(c) }

  /** Each step adds between -4 (`'-'`) and 8 (`'9'`), so the fold over `k`
      decimal characters stays within `2 * 6^k - 2` in magnitude. */
  lemma {:induction false} Base6Bound(s: string)
    requires forall i :: 0 <= i < |s| ==> IsDecimalChar(s[i])
    ensures -(2 * Pow6(|s|) - 2) <= Base6Value(s) <= 2 * Pow6(|s|) - 2
  {
    if |s| > 0 {
      var p := s[..|s| - 1];
      Base6Bound(p);
      assert IsDecimalChar(s[|s| - 1]);
    }
  }

  /** `int.ToString()` prints at most 11 characters. */
  lemma DecimalStringLength(d: int32)
    ensures |DecimalString(d)| <= 11
  {
    assert Pow10(10) == 10_000_000_000;
    if d < 0 {
      NatStringLength(-(d as int), 10, Pow10(10));
    } else {
      NatStringLength(d, 10, Pow10(10));
    }
  }

  /** On the string `int.ToString()` returns, neither the fold nor the
      subtraction of one leaves the `int` range: the conversion is exact. */
  lemma ConvertNoWrap(d: int32)
    ensures var v := Base6Value(DecimalString(d));
            -0x8000_0000 <= v - 1 && v < 0x8000_0000
            && WrapInt32(v) == v && WrapInt32(v - 1) == v - 1
  {
    var s := DecimalString(d);
    DecimalStringLength(d);
    assert forall i :: 0 <= i < |s| ==> IsDecimalChar(s[i]) by {
      forall i | 0 <= i < |s| ensures IsDecimalChar(s[i]) {
        assert s[i] in s;
      }
    }
    Base6Bound(s);
    Pow6Monotone(|s|, 11);
    assert Pow6(11) == 362_797_056;
  }

  // ---------------------------------------------------------------------
  // The table index of a dice index

  /** The index `GetWordByDiceIndex` computes for `diceIndex` (exact, by
      `ConvertNoWrap`): the base-6 value of its decimal digits, minus one. */
  function DiceSlot(diceIndex: int32): int {
    Base6Value(DecimalString(diceIndex)) - 1
  }

  /** A dice index made of five faces `1`..`6`. */
  predicate IsFiveDiceIndex(diceIndex: int32) {
    |DecimalString(diceIndex)| == 5 && IsDiceString(DecimalString(diceIndex))
  }

  /** As written, the subtraction shifts the 7776 five-dice indices onto
      `[-1, 7774]`: `11111` lands before the table and slot 7775 is never
      read. */
  lemma DiceSlotOffByOne(diceIndex: int32)
    requires IsFiveDiceIndex(diceIndex)
    ensures -1 <= DiceSlot(diceIndex) <= 7774
  {
    Base6Range(DecimalString(diceIndex));
    Base6Ends();
  }

  /** `11111.ToString()` is `"11111"` and `66666.ToString()` is `"66666"`. */
  lemma DecimalStringEnds()
    ensures DecimalString(11111) == "11111" && DecimalString(66666) == "66666"
  {
    assert NatString(1) == "1" && NatString(6) == "6";
    assert NatString(11) == NatString(1) + "1";
    assert NatString(111) == NatString(11) + "1";
    assert NatString(1111) == NatString(111) + "1";
    assert NatString(11111) == NatString(1111) + "1";
    assert NatString(66) == NatString(6) + "6";
    assert NatString(666) == NatString(66) + "6";
    assert NatString(6666) == NatString(666) + "6";
    assert NatString(66666) == NatString(6666) + "6";
  }

  lemma DiceSlotEnds()
    ensures IsFiveDiceIndex(11111) && DiceSlot(11111) == -1
    ensures IsFiveDiceIndex(66666) && DiceSlot(66666) == 7774
  {
    DecimalStringEnds();
    Base6Ends();
  }

  /** The intended index: the base-6 value itself, without the `- 1`. */
  function CorrectedDiceSlot(diceIndex: int32): int {
    Base6Value(DecimalString(diceIndex))
  }

  lemma {:induction false} NatStringInjective(n: nat, m: nat)
    requires NatString(n) == NatString(m)
    ensures n == m
  {
    if n >= 10 && m >= 10 {
      var s := NatString(n);
      assert s[..|s| - 1] == NatString(n / 10) && s[|s| - 1] == DigitChar(n % 10);
      assert NatString(m)[..|s| - 1] == NatString(m / 10) && s[|s| - 1] == DigitChar(m % 10);
      NatStringInjective(n / 10, m / 10);
    }
  }

  /** Corrected, the five-dice indices map one-to-one onto all 7776 slots
      `[0, 7776)`, with `11111` at slot 0 and `66666` at slot 7775. */
  lemma CorrectedDiceSlotBijective(d1: int32, d2: int32)
    requires IsFiveDiceIndex(d1) && IsFiveDiceIndex(d2)
    ensures 0 <= CorrectedDiceSlot(d1) < 7776
    ensures CorrectedDiceSlot(d1) == CorrectedDiceSlot(d2) ==> d1 == d2
    ensures CorrectedDiceSlot(11111) == 0 && CorrectedDiceSlot(66666) == 7775
  {
    DiceSlotEnds();
    Base6Ends();
    Base6Range(DecimalString(d1));
    if CorrectedDiceSlot(d1) == CorrectedDiceSlot(d2) {
      Base6Injective(DecimalString(d1), DecimalString(d2));
      assert DecimalString(d1)[0] != '-' && DecimalString(d2)[0] != '-';
      NatStringInjective(d1, d2);
    }
  }

  /** Every slot of the 7776 is the corrected slot of one five-face string. */
  lemma CorrectedSlotsCovered(slot: nat)
    requires slot < 7776
    ensures var s := DiceDigits(slot, 5); |s| == 5 && IsDiceString(s) && Base6Value(s) == slot
  {
    Base6Ends();
    DiceDigitsRoundTrip(slot, 5);
  }

  // ---------------------------------------------------------------------
  // The table

  class DicewareLookup {
    /** `_words`; a `null` slot is `None`. */
    var words: array<Option<string>>

    /** The empty array stands for the `_words` field before `LoadWords` has
        set it. The source never exposes that state, since its only
        constructor loads; a lookup on it has no counterpart there. */
    constructor ()
      ensures words.Length == 0
    {
      words := new Option<string>[0];
    }

    /** `LoadWords` over the lines of the word list: allocates 8192 null
        slots and stores line `i` in slot `i`. A 8193rd line overruns the
        array and throws before `_words` is assigned. */
    method LoadWords(lines: seq<string>) returns (r: Result<()>)
      modifies this
      ensures |lines| > TableSize ==> r == Err(IndexOutOfRange) && words == old(words)
      ensures |lines| <= TableSize ==> r == Ok(()) && fresh(words) && words.Length == TableSize
      ensures |lines| <= TableSize ==>
                (forall j :: 0 <= j < |lines| ==> words[j] == Some(lines[j]))
                && (forall j :: |lines| <= j < TableSize ==> words[j] == None)
    {
      var table := new Option<string>[TableSize](_ => None);
      var i := 0;
      while i < |lines|
        invariant table.Length == TableSize && words == old(words)
        invariant 0 <= i <= |lines| && i <= table.Length
        invariant forall j :: 0 <= j < i ==> table[j] == Some(lines[j])
        invariant forall j :: i <= j < table.Length ==> table[j] == None
      {
        if i >= table.Length {
          return Err(IndexOutOfRange);
        }
        table[i] := Some(lines[i]);
        i := i + 1;
      }
      words := table;
      return Ok(());
    }

    /** The public constructor: a new lookup loaded from the given lines. */
    static method Create(lines: seq<string>) returns (r: Result<DicewareLookup>)
      ensures r.Err? <==> |lines| > TableSize
      ensures r.Err? ==> r.error == IndexOutOfRange
      ensures r.Ok? ==> fresh(r.value) && r.value.words.Length == TableSize
      ensures r.Ok? ==>
                (forall j :: 0 <= j < |lines| ==> r.value.words[j] == Some(lines[j]))
                && (forall j :: |lines| <= j < TableSize ==> r.value.words[j] == None)
    {
      var lookup := new DicewareLookup();
      var loaded := lookup.LoadWords(lines);
      if loaded.Err? {
        return Err(loaded.error);
      }
      return Ok(lookup);
    }

    /** `GetWordByDiceIndex`: the slot `DiceSlot(diceIndex)` when it lies in
        the table (its content may be `null`), an error otherwise. */
    method GetWordByDiceIndex(diceIndex: int32) returns (r: Result<Option<string>>)
      ensures 0 <= DiceSlot(diceIndex) < words.Length ==> r == Ok(words[DiceSlot(diceIndex)])
      ensures !(0 <= DiceSlot(diceIndex) < words.Length) ==> r == Err(IndexOutOfRange)
    {
      var converted := ConvertBase6ToBase10(DecimalString(diceIndex));
      ConvertNoWrap(diceIndex);
      var index := WrapInt32(converted - 1);
      if index >= 0 && index < words.Length {
        return Ok(words[index]);
      }
      return Err(IndexOutOfRange);
    }
  }
}
