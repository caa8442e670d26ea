/** Powers of two. */
module Powers {
  function Pow2(n: nat): (r: nat)
    ensures r > 0
  {
    if n == 0 then 1 else 2 * Pow2(n - 1)
  }

  lemma {:induction false} Pow2Sum(m: nat, n: nat)
    ensures Pow2(m + n) == Pow2(m) * Pow2(n)
  {
    if m > 0 {
      Pow2Sum(m - 1, n);
      var x, y := Pow2(m - 1), Pow2(n);
      assert Pow2(m) == 2 * x && Pow2(m + n) == 2 * Pow2(m - 1 + n);
      hide Pow2;
      assert 2 * x * y == 2 * (x * y);
    }
  }

  lemma {:induction false} Pow2Mono(m: nat, n: nat)
    requires m <= n
    ensures 0 < Pow2(m) <= Pow2(n)
  {
    if m > 0 {
      Pow2Mono(m - 1, n - 1);
    } else if n > 0 {
      Pow2Mono(0, n - 1);
    }
  }
}
