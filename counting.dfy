/** How many byte values land on each residue of `b % n`: the arithmetic
    behind rejection sampling and behind the bias of plain modulo mapping. */
module Counting {

  /** The values in `[0, bound)` whose remainder modulo `n` is `k`. */
  function Residues(n: int, k: int, bound: nat): set<int>
    requires n > 0
  {
    set b | 0 <= b < bound && b % n == k
  }

  /** Euclidean division is determined by its defining equation. */
  lemma DivModUnique(x: int, n: int, q: int, r: int)
    requires n > 0 && 0 <= r < n && x == n * q + r
    ensures x / n == q && x % n == r
  {
    var d, m := x / n, x % n;
    assert n * d + m == n * q + r;
    assert n * (d - q) == r - m;
    if d - q >= 1 {
      assert false;
    } else if d - q <= -1 {
      assert false;
    }
  }

  lemma ResiduesStep(n: int, k: int, bound: nat)
    requires n > 0
    ensures Residues(n, k, bound + 1)
         == Residues(n, k, bound) + (if bound % n == k then {bound} else {})
  {
  }

  /** Each residue below `n` is hit `q` times by `[0, n * q + r)`, plus once
      more when it is below `r`. */
  lemma {:induction false} ResiduesCount(n: int, k: int, q: nat, r: nat)
    requires n > 0 && 0 <= k < n && r <= n
    ensures |Residues(n, k, n * q + r)| == q + (if k < r then 1 else 0)
    decreases q, r
  {
    if r == 0 {
      if q == 0 {
        assert Residues(n, k, 0) == {};
      } else {
        assert n * q + 0 == n * (q - 1) + n;
        ResiduesCount(n, k, q - 1, n);
      }
    } else {
      ResiduesCount(n, k, q, r - 1);
      ResiduesStep(n, k, n * q + (r - 1));
      DivModUnique(n * q + (r - 1), n, q, r - 1);
      assert (n * q + (r - 1)) % n == r - 1;
    }
  }

  /** Mapping a byte to `b % n`: index `k` is hit by `256 / n` byte values,
      plus one more when `k < 256 % n`. Unless `n` divides 256 the indices
      below `256 % n` are favoured. */
  lemma ByteResidues(n: int, k: int)
    requires 1 <= n <= 256 && 0 <= k < n
    ensures |Residues(n, k, 256)| == 256 / n + (if k < 256 % n then 1 else 0)
  {
    DivModUnique(256, n, 256 / n, 256 % n);
    ResiduesCount(n, k, 256 / n, 256 % n);
  }
}
