/** `HackerifyHelper.ConvertToHackerify`: rewrites a string in leetspeak by
    replacing each character whose lowercase form is a key of a fixed table
    and copying every other character unchanged. */
module Hackerify {
  import opened Common
  import opened Text

  /** `_leetDictionary`. */
  const LeetTable: map<char, string> :=
    map['a' := "@", 'b' := "8", 'e' := "3", 'i' := "!", 'l' := "1", 'o' := "0", 't' := "7"]

  /** What `c` is appended as: the table entry for `char.ToLower(c)`, or `c`.
      Always one character, never one whose lowercase form is a key, and
      `c` itself exactly when its lowercase form is not a key. */
  function Replacement(c: char): (r: string)
    ensures |r| == 1
    ensures ToLower(r[0]) !in LeetTable
    ensures r == [c] <==> ToLower(c) !in LeetTable
  {
    LeetTableFacts();
    var lowerChar := ToLower(c);
    if lowerChar in LeetTable then LeetTable[lowerChar] else [c]
  }

  /** The string `ConvertToHackerify` builds: the replacements of the
      characters of `s`, in order. */
  function Hackerified(s: string): string {
    if |s| == 0 then ""
    else Hackerified(s[..|s| - 1]) + Replacement(s[|s| - 1])
  }

  /** Every table entry is one character, and neither it nor its lowercase
      form is a key. */
  lemma LeetTableFacts()
    ensures forall k :: k in LeetTable ==>
              |LeetTable[k]| == 1 && ToLower(LeetTable[k][0]) !in LeetTable
              && LeetTable[k][0] !in LeetTable
  {
  }

  /** The single character `c` becomes. */
  function LeetChar(c: char): char {
    Replacement(c)[0]
  }

  lemma ReplacementIsOneChar(c: char)
    ensures Replacement(c) == [LeetChar(c)]
  {
    LeetTableFacts();
  }

  /** Length is preserved and character `i` of the result is the
      replacement of character `i` of the input. */
  lemma {:induction false} HackerifiedPositions(s: string)
    ensures |Hackerified(s)| == |s|
    ensures forall i :: 0 <= i < |s| ==> Hackerified(s)[i] == LeetChar(s[i])
  {
    if |s| > 0 {
      var p := s[..|s| - 1];
      HackerifiedPositions(p);
      ReplacementIsOneChar(s[|s| - 1]);
      forall i | 0 <= i < |s| ensures Hackerified(s)[i] == LeetChar(s[i]) {
        if i < |p| {
          assert s[i] == p[i];
        }
      }
    }
  }

  /** The lookup ignores case: `A` and `a` both become `@`, `T` and `t`
      both become `7`; a character outside the table keeps its case. */
  lemma LeetCaseInsensitive(c: char)
    ensures ToLower(c) in LeetTable ==> LeetChar(c) == LeetChar(ToLower(c))
    ensures ToLower(c) !in LeetTable ==> LeetChar(c) == c
    ensures LeetChar('A') == LeetChar('a') == '@' && LeetChar('T') == LeetChar('t') == '7'
  {
  }

  /** No `a b e i l o t`, in either case, survives the conversion. */
  lemma NoLeetKeysRemain(s: string)
    ensures forall i :: 0 <= i < |Hackerified(s)| ==> ToLower(Hackerified(s)[i]) !in LeetTable
  {
    HackerifiedPositions(s);
    LeetTableFacts();
    forall i | 0 <= i < |Hackerified(s)| ensures ToLower(Hackerified(s)[i]) !in LeetTable {
      assert Hackerified(s)[i] == LeetChar(s[i]);
    }
  }

  /** A replaced character is left alone by a second replacement. */
  lemma LeetCharIdempotent(c: char)
    ensures LeetChar(LeetChar(c)) == LeetChar(c)
  {
    LeetTableFacts();
    ReplacementIsOneChar(c);
    if ToLower(c) in LeetTable {
      assert LeetChar(c) == LeetTable[ToLower(c)][0];
    }
  }

  /** Converting twice is converting once: the replacement characters are
      not keys. */
  lemma HackerifiedIdempotent(s: string)
    ensures Hackerified(Hackerified(s)) == Hackerified(s)
  {
    var h := Hackerified(s);
    HackerifiedPositions(s);
    HackerifiedPositions(h);
    forall i | 0 <= i < |h| ensures Hackerified(h)[i] == h[i] {
      assert h[i] == LeetChar(s[i]);
      LeetCharIdempotent(s[i]);
    }
  }

  /** `ConvertToHackerify`: null is rejected; otherwise the characters'
      replacements are appended one by one. */
  method ConvertToHackerify(input: Option<string>) returns (r: Result<string>)
    ensures input.None? ==> r == Err(ArgumentNull)
    ensures input.Some? ==> r == Ok(Hackerified(input.value))
  {
    if input.None? {
      return Err(ArgumentNull);
    }
    var s := input.value;
    var hackerified := "";
    for i := 0 to |s|
      invariant hackerified == Hackerified(s[..i])
    {
      assert s[..i + 1][..i] == s[..i];
      var lowerChar := ToLower(s[i]);
      if lowerChar in LeetTable {
        hackerified := hackerified + LeetTable[lowerChar];
      } else {
        hackerified := hackerified + [s[i]];
      }
    }
    assert s[..|s|] == s;
    return Ok(hackerified);
  }
}
