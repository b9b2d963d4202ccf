/** Powers of two: the rounds of a bcrypt cost, the seconds of an outbox back-off. */
module Powers {
  function Pow2(n: nat): (p: nat)
    ensures p > 0
  {
    if n == 0 then 1 else 2 * Pow2(n - 1)
  }

  /** The powers that matter: 16, 1024 and 2^31 rounds at costs 4, 10 and 31, and 256 s as the last back-off
      below the limit. */
  lemma Pow2Is()
    ensures Pow2(0) == 1 && forall n: nat :: Pow2(n + 1) == 2 * Pow2(n)
    ensures Pow2(4) == 16 && Pow2(8) == 256 && Pow2(9) == 512 && Pow2(10) == 1024 && Pow2(31) == 2147483648
  {
    Pow2Adds(10, 10);
    Pow2Adds(20, 11);
    assert Pow2(11) == 2048;
  }

  lemma {:induction false} Pow2Adds(m: nat, n: nat)
    ensures Pow2(m + n) == Pow2(m) * Pow2(n)
  {
    if n > 0 {
      Pow2Adds(m, n - 1);
      assert Pow2(m + n) == 2 * Pow2(m + (n - 1));
    }
  }

  lemma {:induction false} Pow2Grows(m: nat, n: nat)
    requires m <= n
    ensures Pow2(m) <= Pow2(n)
    decreases n - m
  {
    if m < n {
      Pow2Grows(m, n - 1);
    }
  }
}
