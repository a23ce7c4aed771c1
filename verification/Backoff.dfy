/** Retry backoff (pkg/l2/retry.go:188-216), over reals truncated to whole nanoseconds each round. */
module Backoff {

  datatype RetryConfig = RetryConfig(maxRetries: int, initial: nat, max: nat, multiplier: real)

  function Scale(multiplier: real, d: nat): nat
    requires multiplier >= 0.0
  {
    NonNegative(multiplier, d as real);
    (d as real * multiplier).Floor
  }

  lemma NonNegative(x: real, y: real)
    requires x >= 0.0 && y >= 0.0
    ensures y * x >= 0.0
  {
  }

  function Least(a: nat, b: nat): nat {
    if a < b then a else b
  }

  /** After `n` rounds of multiplying, truncating and capping. */
  function Rounds(c: RetryConfig, n: nat): nat
    requires c.multiplier >= 0.0
  {
    if n == 0 then c.initial else Least(c.max, Scale(c.multiplier, Rounds(c, n - 1)))
  }

  function RoundCount(c: RetryConfig, attempt: int): nat {
    var n := if attempt < c.maxRetries then attempt else c.maxRetries;
    if n < 0 then 0 else n
  }

  method CalculateBackoff(c: RetryConfig, attempt: int) returns (backoff: nat)
    requires c.multiplier >= 0.0
    ensures backoff == Rounds(c, RoundCount(c, attempt))
    ensures attempt <= 0 || c.maxRetries <= 0 ==> backoff == c.initial
    ensures 0 <= attempt <= c.maxRetries ==> backoff == Rounds(c, attempt)
    ensures 0 <= c.maxRetries <= attempt ==> backoff == Rounds(c, c.maxRetries)
  {
    backoff := c.initial;
    var i := 0;
    while i < attempt && i < c.maxRetries
      invariant 0 <= i <= RoundCount(c, attempt)
      invariant backoff == Rounds(c, i)
      decreases attempt - i
    {
      backoff := Scale(c.multiplier, backoff);
      if backoff > c.max {
        backoff := c.max;
      }
      i := i + 1;
    }
  }

  function Power(m: nat, n: nat): nat {
    if n == 0 then 1 else m * Power(m, n - 1)
  }

  lemma ScaleByInteger(m: nat, d: nat)
    ensures Scale(m as real, d) == d * m
  {
    assert d as real * m as real == (d * m) as real;
  }

  lemma Grow(m: nat, a: nat, b: nat)
    requires m >= 1 && a >= b
    ensures a * m >= b
  {
  }

  lemma TimesPower(initial: nat, m: nat, n: nat)
    requires n > 0
    ensures initial * Power(m, n) == initial * Power(m, n - 1) * m
  {
    assert Power(m, n) == m * Power(m, n - 1);
  }

  /** An integer multiplier gives min(Max, Initial * m^n). */
  lemma {:induction false} ClosedForm(c: RetryConfig, m: nat, n: nat)
    requires m >= 1 && c.multiplier == m as real && c.initial <= c.max
    ensures Rounds(c, n) == Least(c.max, c.initial * Power(m, n))
  {
    if n > 0 {
      ClosedForm(c, m, n - 1);
      ScaleByInteger(m, Rounds(c, n - 1));
      TimesPower(c.initial, m, n);
      Grow(m, c.max, c.max);
      Grow(m, c.initial * Power(m, n - 1), c.initial * Power(m, n - 1));
    }
  }

  /** By attempt: the power stops growing at MaxRetries rounds, and negative counts are none. */
  lemma ClosedFormByAttempt(c: RetryConfig, m: nat, attempt: int)
    requires m >= 1 && c.multiplier == m as real && c.initial <= c.max
    ensures attempt <= 0 || c.maxRetries <= 0 ==> Rounds(c, RoundCount(c, attempt)) == c.initial
    ensures 0 < attempt <= c.maxRetries ==>
              Rounds(c, RoundCount(c, attempt)) == Least(c.max, c.initial * Power(m, attempt))
    ensures 0 < c.maxRetries <= attempt ==>
              Rounds(c, RoundCount(c, attempt)) == Least(c.max, c.initial * Power(m, c.maxRetries))
  {
    ClosedForm(c, m, RoundCount(c, attempt));
  }

  lemma ScaleGrows(multiplier: real, d: nat)
    requires multiplier >= 1.0
    ensures Scale(multiplier, d) >= d
  {
    AtLeast(multiplier, d as real);
  }

  lemma AtLeast(x: real, y: real)
    requires x >= 1.0 && y >= 0.0
    ensures y * x >= y
  {
  }

  /** Any multiplier of at least one: the backoff never shrinks and never passes the cap. */
  lemma {:induction false} MonotoneAndCapped(c: RetryConfig, i: nat, j: nat)
    requires c.multiplier >= 1.0 && c.initial <= c.max && i <= j
    ensures Rounds(c, i) <= Rounds(c, j) <= c.max
    decreases j
  {
    if i < j {
      MonotoneAndCapped(c, i, j - 1);
      ScaleGrows(c.multiplier, Rounds(c, j - 1));
    }
  }

  /** The multiple of one wait, cut to whole nanoseconds and to Max. */
  predicate NextWait(c: RetryConfig, now: nat, next: nat) {
    && next <= c.max && next as real <= now as real * c.multiplier
    && (next == c.max || next as real > now as real * c.multiplier - 1.0)
  }

  lemma OneMoreRound(c: RetryConfig, n: nat)
    requires c.multiplier >= 0.0
    ensures NextWait(c, Rounds(c, n), Rounds(c, n + 1))
  {
    var x := Rounds(c, n) as real * c.multiplier;
    assert Scale(c.multiplier, Rounds(c, n)) as real <= x < Scale(c.multiplier, Rounds(c, n)) as real + 1.0;
  }

  /** Below MaxRetries one more attempt waits that next multiple; from there on it waits no longer. */
  lemma OneMoreAttempt(c: RetryConfig, attempt: nat)
    requires c.multiplier >= 0.0
    ensures attempt < c.maxRetries ==> NextWait(c, Rounds(c, RoundCount(c, attempt)), Rounds(c, RoundCount(c, attempt + 1)))
    ensures attempt >= c.maxRetries ==> Rounds(c, RoundCount(c, attempt + 1)) == Rounds(c, RoundCount(c, attempt))
  {
    if attempt < c.maxRetries {
      OneMoreRound(c, attempt);
      assert RoundCount(c, attempt) == attempt && RoundCount(c, attempt + 1) == attempt + 1;
    }
  }

  /** The cap holds for every attempt exactly when the initial value is within it: attempt 0 is not capped. */
  lemma CappedIff(c: RetryConfig)
    requires c.multiplier >= 0.0
    ensures (forall attempt: int :: Rounds(c, RoundCount(c, attempt)) <= c.max) <==> c.initial <= c.max
  {
    assert Rounds(c, RoundCount(c, 0)) == c.initial;
  }
}
