/** Fixed-width unsigned arithmetic as the release build performs it
    (`+` wraps, `saturating_*` clamps), and the power-of-two masks the ring
    buffers index with. */
module Words {

  const U64_MAX: int := 0xFFFF_FFFF_FFFF_FFFF
  const U32_MAX: int := 0xFFFF_FFFF

  type U64 = x: int | 0 <= x <= U64_MAX
  type U32 = x: int | 0 <= x <= U32_MAX

  datatype Option<+T> = None | Some(value: T)

  function SatAdd(a: U64, b: U64): (r: U64)
    ensures a <= r && b <= r <= a + b
    ensures r < a + b ==> r == U64_MAX
  {
    if a + b > U64_MAX then U64_MAX else a + b
  }

  function SatMul(a: U64, b: U64): (r: U64)
    ensures r <= a * b
    ensures r < a * b ==> r == U64_MAX
  {
    assert 0 <= a * b;
    if a * b > U64_MAX then U64_MAX else a * b
  }

  function SatSub(a: U64, b: U64): (r: U64)
    ensures r == 0 <==> a <= b
    ensures r > 0 ==> r + b == a
  {
    if a < b then 0 else a - b
  }

  /** `a + b` without overflow checks. */
  function WrapAdd(a: U64, b: U64): (r: U64)
    ensures a + b <= U64_MAX <==> r >= a
    ensures r == a + b || r + U64_MAX + 1 == a + b
  {
    if a + b > U64_MAX then a + b - U64_MAX - 1 else a + b
  }

  function WrapAdd32(a: U32, b: U32): (r: U32)
    ensures a + b <= U32_MAX <==> r >= a
    ensures r == a + b || r + U32_MAX + 1 == a + b
  {
    if a + b > U32_MAX then a + b - U32_MAX - 1 else a + b
  }

  function Max(a: U64, b: U64): (r: U64)
    ensures r >= a && r >= b && (r == a || r == b)
  {
    if a < b then b else a
  }

  // ---------------------------------------------------------------- masks

  function Pow2(k: nat): (p: nat)
    ensures p >= 1
  {
    if k == 0 then 1 else 2 * Pow2(k - 1)
  }

  /** The `&` operator on unsigned words, one bit at a time. */
  function BitAnd(a: nat, b: nat): (r: nat)
  {
    if a == 0 || b == 0 then 0
    else 2 * BitAnd(a / 2, b / 2) + (a % 2) * (b % 2)
  }

  lemma {:induction false} ModDoubles(x: nat, p: nat)
    requires p >= 1
    ensures x % (2 * p) == 2 * ((x / 2) % p) + x % 2
  {
    var h := x / 2;
    var q, m := h / p, h % p;
    assert x == (2 * p) * q + (2 * m + x % 2);
    DivModUnique(x, 2 * p, q, 2 * m + x % 2);
  }

  lemma {:induction false} DivModUnique(x: int, d: int, q: int, r: int)
    requires d > 0 && 0 <= r < d && x == d * q + r
    ensures x / d == q && x % d == r
  {
    var e := x / d - q;
    assert d * e == r - x % d;
    assert e >= 1 ==> d * e >= d;
    assert e <= -1 ==> d * e <= -d;
  }

  /** Masking with `capacity - 1` is reduction modulo a power-of-two capacity. */
  lemma {:induction false} MaskIsModulo(x: nat, k: nat)
    ensures BitAnd(x, Pow2(k) - 1) == x % Pow2(k)
    decreases k
  {
    if k > 0 {
      MaskIsModulo(x / 2, k - 1);
      ModDoubles(x, Pow2(k - 1));
      assert (Pow2(k) - 1) / 2 == Pow2(k - 1) - 1 && (Pow2(k) - 1) % 2 == 1;
      if x == 0 { DivModUnique(0, Pow2(k), 0, 0); }
    } else {
      DivModUnique(x, 1, x, 0);
    }
  }

  /** `usize::next_power_of_two`, as the exponent of the result. */
  function NextPow2Exponent(n: nat): (k: nat)
    ensures n <= Pow2(k)
    ensures forall j: nat :: n <= Pow2(j) ==> k <= j
  {
    NextPow2From(n, 0)
  }

  function NextPow2From(n: nat, k: nat): (e: nat)
    requires forall j: nat :: n <= Pow2(j) ==> k <= j
    ensures n <= Pow2(e)
    ensures forall j: nat :: n <= Pow2(j) ==> e <= j
    decreases n - Pow2(k)
  {
    if n <= Pow2(k) then k else
      assert forall j: nat :: n <= Pow2(j) ==> k + 1 <= j by {
        forall j: nat | n <= Pow2(j) ensures k + 1 <= j { }
      }
      NextPow2From(n, k + 1)
  }

  // ------------------------------------------------------- list utilities

  ghost predicate NoDup<T(!new)>(s: seq<T>)
  {
    forall i, j :: 0 <= i < j < |s| ==> s[i] != s[j]
  }
}
