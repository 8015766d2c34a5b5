/** Counting on a circle, and facts about products and remainders, that other modules share. */
module Arithmetic {
  /** The place `k` steps onward from a place of a circle of `n` places; for words of `n`
      values, their sum. */
  function Onward(at: nat, k: nat, n: nat): (r: nat)
    requires at < n && k <= n
    ensures r < n
  {
    if at + k < n then at + k else at + k - n
  }

  /** The difference of two words of `m` values, as unsigned subtraction gives it. */
  function WordMinus(a: nat, b: nat, m: nat): (r: nat)
    requires a < m && b < m
    ensures r < m
  {
    if a >= b then a - b else a + m - b
  }

  /** What a word of `m` values holds after it was counted up `n` times from zero. */
  function Word(n: nat, m: nat): (r: nat)
    requires m > 0
    ensures r < m
  {
    if n < m then n else Word(n - m, m)
  }

  lemma {:induction false} WordStep(n: nat, k: nat, m: nat)
    requires m > 0 && k < m
    ensures Word(n + k, m) == if Word(n, m) + k < m then Word(n, m) + k else Word(n, m) + k - m
  {
    if n >= m {
      WordStep(n - m, k, m);
      assert Word(n + k, m) == Word(n + k - m, m);
    }
  }

  lemma ProductAwayFromZero(x: int, d: nat)
    ensures x >= 1 ==> x * d >= d
    ensures x <= -1 ==> x * d <= 0 - d
  {
  }

  lemma Remainder(q: nat, d: nat, r: nat)
    requires r < d
    ensures (q * d + r) % d == r && (q * d + r) / d == q
  {
    var n := q * d + r;
    var x := n / d - q;
    assert x * d == r - n % d by {
      assert n == (n / d) * d + n % d;
    }
    ProductAwayFromZero(x, d);
  }

  lemma Distributes(a: int, b: int, d: int)
    ensures (a + b) * d == a * d + b * d
  {
  }

  lemma Shifts(word: nat)
    ensures word / 0x100 / 0x100 == word / 0x1_0000
    ensures word / 0x1_0000 / 0x100 == word / 0x100_0000
    ensures word / 0x100_0000 / 0x100 == word / 0x1_0000_0000
  {
  }
}
