// Small functions used throughout the model.
module Arithmetic {
  import opened Options

  function Min(a: int, b: int): int { if a <= b then a else b }

  function Max(a: int, b: int): int { if a >= b then a else b }

  function AtMost(n: int, limit: Option<nat>): int {
    if limit.Some? then Min(n, limit.value) else n
  }

  lemma Distribute(n: int, a: int, b: int)
    ensures n * (a + b) == n * a + n * b && n * a == a * n
  {
  }

  // The elements that fit in n slots.
  function FirstN<T>(s: seq<T>, n: nat): (r: seq<T>)
    ensures r <= s && |r| == Min(|s|, n)
  {
    if |s| <= n then s else s[..n]
  }

  lemma FirstNConcat<T>(a: seq<T>, b: seq<T>, n: nat)
    ensures FirstN(FirstN(a, n) + b, n) == FirstN(a + b, n)
  {
  }
}
