/** Fixed-width integers and the few nonlinear facts the bridge arithmetic rests on. */
module Num {
  const U64_MAX := 0xFFFF_FFFF_FFFF_FFFF
  const U128_MAX := 0xFFFF_FFFF_FFFF_FFFF_FFFF_FFFF_FFFF_FFFF
  const U256_MAX := 0x1_0000_0000_0000_0000_0000_0000_0000_0000_0000_0000_0000_0000_0000_0000_0000_0000 - 1
  const I64_MAX := 0x7FFF_FFFF_FFFF_FFFF

  type u64 = x: int | 0 <= x <= U64_MAX
  type u16 = x: int | 0 <= x <= 0xFFFF
  type u8 = x: int | 0 <= x <= 0xFF

  datatype Option<+T> = None | Some(value: T)

  function Min(a: int, b: int): int {
    if a <= b then a else b
  }

  function CeilDiv(n: nat, d: nat): nat
    requires d > 0
  {
    (n + d - 1) / d
  }

  function Pow10(n: nat): (r: nat)
    ensures r > 0
  {
    if n == 0 then 1 else 10 * Pow10(n - 1)
  }

  lemma MulMono(a: nat, b: nat, c: nat)
    requires a <= b
    ensures a * c <= b * c
  {
  }

  /** Floor division is the largest k with k * d <= n. */
  lemma FloorAdjoint(n: nat, d: nat, k: int)
    requires d > 0
    ensures k <= n / d <==> k * d <= n
  {
    var q := n / d;
    assert n == q * d + n % d;
    if k <= q {
      assert k * d <= q * d by {
        assert (q - k) * d >= 0;
      }
    } else {
      assert k * d >= (q + 1) * d by {
        assert (k - q - 1) * d >= 0;
      }
    }
  }

  /** Ceiling division is the least k with n <= k * d. */
  lemma CeilAdjoint(n: nat, d: nat, k: int)
    requires d > 0
    ensures CeilDiv(n, d) <= k <==> n <= k * d
  {
    FloorAdjoint(n + d - 1, d, k + 1);
    assert (k + 1) * d == k * d + d;
  }

  /** Quotient and remainder are unique. */
  lemma DivModUnique(n: nat, d: nat, q: int, r: int)
    requires d > 0 && 0 <= r < d && n == q * d + r
    ensures n / d == q && n % d == r
  {
    FloorAdjoint(n, d, q);
    FloorAdjoint(n, d, q + 1);
    assert (q + 1) * d == q * d + d;
    assert n == (n / d) * d + n % d;
  }

  lemma Distribute(a: int, b: int, c: int)
    ensures (a + b) * c == a * c + b * c
  {
  }

  /** How a level of at most `cap` wholes splits into wholes and a fraction. */
  lemma SplitLevel(c: nat, d: nat, cap: nat)
    requires d > 0 && c <= cap * d
    ensures c / d <= cap && c % d < d
    ensures c / d == cap ==> c % d == 0
    ensures (c / d) * d + c % d == c
  {
    FloorAdjoint(c, d, cap + 1);
    Distribute(cap, 1, d);
  }

  lemma {:induction false} Pow10Sum(m: nat, n: nat)
    ensures Pow10(m + n) == Pow10(m) * Pow10(n)
  {
    if m > 0 {
      Pow10Sum(m - 1, n);
      assert Pow10(m + n) == 10 * Pow10(m - 1 + n);
      assert 10 * (Pow10(m - 1) * Pow10(n)) == (10 * Pow10(m - 1)) * Pow10(n);
    }
  }
}
