/** String operations shared by the two password builders: order-preserving
    filters, LINQ's `Intersect`, and ASCII character classes. */
module Text {

  /** No character occurs twice. */
  predicate Distinct(s: string) {
    forall i, j :: 0 <= i < j < |s| ==> s[i] != s[j]
  }

  /** The set of characters of `s`. */
  function Chars(s: string): set<char> {
    set c | c in s
  }

  predicate IsLower(c: char) { 'a' <= c <= 'z' }
  predicate IsUpper(c: char) { 'A' <= c <= 'Z' }
  predicate IsDigit(c: char) { '0' <= c <= '9' }
  predicate IsAlphanumeric(c: char) { IsLower(c) || IsUpper(c) || IsDigit(c) }

  /** `char.ToLower`, restricted to ASCII. */
  function ToLower(c: char): (r: char)
    ensures !IsUpper(r)
    ensures IsUpper(c) ==> IsLower(r) && r as int - 'a' as int == c as int - 'A' as int
    ensures !IsUpper(c) ==> r == c
  {
    if IsUpper(c) then (c as int + 32) as char else c
  }

  /** The characters of `s` that occur in `t`, in their order in `s`. */
  function KeepIn(s: string, t: string): string {
    if |s| == 0 then []
    else
      assert s == s[..|s| - 1] + [s[|s| - 1]];
      KeepIn(s[..|s| - 1], t) + (if s[|s| - 1] in t then [s[|s| - 1]] else [])
  }

  /** The characters of `s` that do not occur in `t`, in their order in `s`.
      `KeepOut(s, [c])` is `s.Replace(c.ToString(), "")`. */
  function KeepOut(s: string, t: string): string {
    if |s| == 0 then []
    else
      assert s == s[..|s| - 1] + [s[|s| - 1]];
      KeepOut(s[..|s| - 1], t) + (if s[|s| - 1] !in t then [s[|s| - 1]] else [])
  }

  /** `KeepIn` keeps exactly the characters of `s` that occur in `t`. */
  lemma {:induction false} KeepInMembers(s: string, t: string)
    ensures |KeepIn(s, t)| <= |s|
    ensures forall c :: c in KeepIn(s, t) <==> c in s && c in t
  {
    if |s| > 0 {
      KeepInMembers(s[..|s| - 1], t);
    }
  }

  /** `KeepOut` keeps exactly the characters of `s` that do not occur in `t`. */
  lemma {:induction false} KeepOutMembers(s: string, t: string)
    ensures |KeepOut(s, t)| <= |s|
    ensures forall c :: c in KeepOut(s, t) <==> c in s && c !in t
  {
    if |s| > 0 {
      KeepOutMembers(s[..|s| - 1], t);
    }
  }

  /** Strictly increasing character codes. */
  predicate Ascending(s: string) {
    forall i :: 0 < i < |s| ==> s[i - 1] < s[i]
  }

  /** A strictly increasing string repeats no character. */
  lemma {:induction false} AscendingDistinct(s: string)
    requires Ascending(s)
    ensures forall i, j :: 0 <= i < j < |s| ==> s[i] < s[j]
    ensures Distinct(s)
  {
    if |s| > 1 {
      var p := s[..|s| - 1];
      assert Ascending(p) by {
        forall i | 0 < i < |p| ensures p[i - 1] < p[i] {
          assert s[i - 1] < s[i];
        }
      }
      AscendingDistinct(p);
      forall i, j | 0 <= i < j < |s| ensures s[i] < s[j] {
        if j < |p| {
          assert s[i] == p[i] && s[j] == p[j];
        } else if i < |p| - 1 {
          assert s[i] == p[i] < p[|p| - 1] == s[j - 1] < s[j];
        }
      }
    }
  }

  /** LINQ's `s.Intersect(t)`: walks `s` in order and yields each character
      that is in `t` and has not been yielded yet. */
  function Intersect(s: string, t: string): (r: string)
    ensures |r| <= |s|
    ensures forall c :: c in r <==> c in s && c in t
    ensures Distinct(r)
  {
    if |s| == 0 then []
    else
      assert s == s[..|s| - 1] + [s[|s| - 1]];
      var p := Intersect(s[..|s| - 1], t);
      var c := s[|s| - 1];
      if c in t && c !in p then p + [c] else p
  }

  lemma {:induction false} DistinctSnoc(p: string, c: char)
    requires Distinct(p) && c !in p
    ensures Distinct(p + [c])
  {
    var q := p + [c];
    forall i, j | 0 <= i < j < |q| ensures q[i] != q[j] {
      if j == |p| {
        assert q[i] == p[i];
      }
    }
  }

  lemma {:induction false} DistinctPrefix(s: string)
    requires |s| > 0 && Distinct(s)
    ensures Distinct(s[..|s| - 1]) && s[|s| - 1] !in s[..|s| - 1]
  {
  }

  /** On a string without repetitions, `Intersect` is the plain
      order-preserving filter. */
  lemma {:induction false} IntersectOfDistinct(s: string, t: string)
    requires Distinct(s)
    ensures Intersect(s, t) == KeepIn(s, t)
  {
    if |s| > 0 {
      DistinctPrefix(s);
      IntersectOfDistinct(s[..|s| - 1], t);
    }
  }

  lemma {:induction false} KeepOutDistinct(s: string, t: string)
    requires Distinct(s)
    ensures Distinct(KeepOut(s, t))
  {
    if |s| > 0 {
      DistinctPrefix(s);
      KeepOutDistinct(s[..|s| - 1], t);
      if s[|s| - 1] !in t {
        KeepOutMembers(s[..|s| - 1], t);
        DistinctSnoc(KeepOut(s[..|s| - 1], t), s[|s| - 1]);
      }
    }
  }

  /** The charset both builders compute from a duplicate-free assembled
      string `a`: optionally intersected with the reference set `ref`, then
      stripped of `ex`. It repeats no character, holds exactly the characters
      of `a` that are in `ref` (when `useRef`) and not in `ex`, and keeps
      their order in `a`. */
  lemma FilteredCharSetFacts(a: string, ref: string, useRef: bool, ex: string)
    requires Distinct(a)
    ensures Distinct(KeepOut(if useRef then Intersect(a, ref) else a, ex))
    ensures forall c :: c in KeepOut(if useRef then Intersect(a, ref) else a, ex) <==>
              c in a && (useRef ==> c in ref) && c !in ex
    ensures KeepOut(if useRef then Intersect(a, ref) else a, ex)
         == KeepOut(if useRef then KeepIn(a, ref) else a, ex)
  {
    if useRef {
      IntersectOfDistinct(a, ref);
      KeepInMembers(a, ref);
      KeepOutMembers(Intersect(a, ref), ex);
      KeepOutDistinct(Intersect(a, ref), ex);
    } else {
      KeepOutMembers(a, ex);
      KeepOutDistinct(a, ex);
    }
  }

  /** Removing the characters of `e` and then `c` removes those of `e + [c]`:
      one step of the `foreach (char c in excluded) Replace(c, "")` loop. */
  lemma {:induction false} KeepOutStep(s: string, e: string, c: char)
    ensures KeepOut(KeepOut(s, e), [c]) == KeepOut(s, e + [c])
  {
    if |s| > 0 {
      var p, x := s[..|s| - 1], s[|s| - 1];
      KeepOutStep(p, e, c);
      var tail := if x !in e then [x] else [];
      KeepOutAppend(KeepOut(p, e), tail, [c]);
      assert KeepOut(tail, [c]) == if x !in e + [c] then [x] else [];
    }
  }

  lemma {:induction false} KeepOutNothing(s: string)
    ensures KeepOut(s, []) == s
  {
    if |s| > 0 {
      var p, x := s[..|s| - 1], s[|s| - 1];
      KeepOutNothing(p);
      assert x !in [];
      assert KeepOut(s, []) == KeepOut(p, []) + [x];
      assert p + [x] == s;
    }
  }

  /** Filtering distributes over concatenation: the filters keep the
      relative order of the characters they keep. */
  lemma {:induction false} KeepOutAppend(a: string, b: string, t: string)
    ensures KeepOut(a + b, t) == KeepOut(a, t) + KeepOut(b, t)
  {
    if |b| > 0 {
      assert (a + b)[..|a + b| - 1] == a + b[..|b| - 1];
      KeepOutAppend(a, b[..|b| - 1], t);
    } else {
      assert a + b == a;
    }
  }

  lemma {:induction false} KeepInAppend(a: string, b: string, t: string)
    ensures KeepIn(a + b, t) == KeepIn(a, t) + KeepIn(b, t)
  {
    if |b| > 0 {
      assert (a + b)[..|a + b| - 1] == a + b[..|b| - 1];
      KeepInAppend(a, b[..|b| - 1], t);
    } else {
      assert a + b == a;
    }
  }

  /** A string without repetitions has as many characters as its set. */
  lemma {:induction false} DistinctCard(s: string)
    requires Distinct(s)
    ensures |Chars(s)| == |s|
  {
    if |s| > 0 {
      var p := s[..|s| - 1];
      DistinctPrefix(s);
      DistinctCard(p);
      assert s == p + [s[|s| - 1]];
      assert Chars(s) == Chars(p) + {s[|s| - 1]};
    } else {
      assert Chars(s) == {};
    }
  }

  lemma {:induction false} DistinctAppend(a: string, b: string)
    requires Distinct(a) && Distinct(b)
    requires forall c :: c in a ==> c !in b
    ensures Distinct(a + b)
  {
    var s := a + b;
    forall i, j | 0 <= i < j < |s| ensures s[i] != s[j] {
      if j < |a| {
        assert s[i] == a[i] && s[j] == a[j];
      } else if i < |a| {
        assert s[i] == a[i] && s[j] == b[j - |a|];
        assert a[i] in a && b[j - |a|] in b;
      } else {
        assert s[i] == b[i - |a|] && s[j] == b[j - |a|];
      }
    }
  }

  /** The `foreach (char c in excludedChars) charSet = charSet.Replace(c, "")`
      loop: removes every excluded character, keeping the order of the rest. */
  method RemoveExcluded(charSet: string, excluded: string) returns (r: string)
    ensures r == KeepOut(charSet, excluded)
  {
    r := charSet;
    KeepOutNothing(charSet);
    assert excluded[..0] == [];
    var i := 0;
    while i < |excluded|
      invariant 0 <= i <= |excluded|
      invariant r == KeepOut(charSet, excluded[..i])
    {
      var c := excluded[i];
      ghost var e := excluded[..i];
      KeepOutStep(charSet, e, c);
      assert excluded[..i + 1] == e + [c];
      r := KeepOut(r, [c]);
      i := i + 1;
    }
    assert excluded[..|excluded|] == excluded;
  }

  /** The decimal digit character of `d`. */
  function DigitChar(d: int): (r: char)
    requires 0 <= d < 10
    ensures IsDigit(r) && r as int - '0' as int == d
  {
    ('0' as int + d) as char
  }

  /** The decimal representation of a natural number, without leading zeros. */
  function NatString(n: nat): (r: string)
    ensures |r| > 0
    ensures forall c :: c in r ==> IsDigit(c)
  {
    if n < 10 then [DigitChar(n)] else NatString(n / 10) + [DigitChar(n % 10)]
  }

  /** `int.ToString()` for the invariant culture: a `-` before the digits of
      a negative value. */
  function DecimalString(n: int): (r: string)
    ensures forall c :: c in r ==> c == '-' || IsDigit(c)
  {
    if n < 0 then "-" + NatString(-n) else NatString(n)
  }

  /** Below `10^k` a number has at most `k` digits. */
  lemma {:induction false} NatStringLength(n: nat, k: nat, bound: nat)
    requires 1 <= k && bound == Pow10(k) && n < bound
    ensures |NatString(n)| <= k
  {
    if n >= 10 {
      assert k != 1;
      NatStringLength(n / 10, k - 1, Pow10(k - 1));
    }
  }

  function Pow10(k: nat): (r: nat)
    ensures r >= 1
  {
    if k == 0 then 1 else 10 * Pow10(k - 1)
  }

  /** One decimal digit is printed as that digit alone. */
  lemma DecimalStringOfDigit(d: int)
    requires 0 <= d < 10
    ensures DecimalString(d) == [DigitChar(d)]
  {
  }
}
