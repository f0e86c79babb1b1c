// Powers of two, multiples, and rounding to a multiple.
module Powers {
  function Pow2(k: nat): (p: nat)
    ensures p > 0
  {
    if k == 0 then 1 else 2 * Pow2(k - 1)
  }

  ghost predicate IsPow2(n: nat) { exists k: nat :: n == Pow2(k) }

  lemma {:induction false} Pow2Add(a: nat, b: nat)
    ensures Pow2(a + b) == Pow2(a) * Pow2(b)
  {
    if a > 0 {
      Pow2Add(a - 1, b);
      assert Pow2(a) * Pow2(b) == 2 * (Pow2(a - 1) * Pow2(b));
    }
  }

  lemma {:induction false} Pow2Monotone(a: nat, b: nat)
    requires a <= b
    ensures Pow2(a) <= Pow2(b)
  {
    if a < b {
      Pow2Monotone(a, b - 1);
    }
  }

  lemma Pow2Strict(a: nat, b: nat)
    requires a < b
    ensures 2 * Pow2(a) <= Pow2(b)
  {
    Pow2Monotone(a + 1, b);
  }

  lemma SmallMultiple(a: int, n: nat)
    requires 0 < n && 0 <= a * n < n
    ensures a == 0
  {}

  lemma PositiveMultiple(k: int, n: nat)
    requires 0 < k && 0 < n
    ensures n <= k * n
  {
    assert k * n == n + (k - 1) * n;
  }

  lemma MultipleDivides(k: int, n: nat)
    requires 0 < n
    ensures k * n % n == 0
  {
    var q, r := k * n / n, k * n % n;
    assert (k - q) * n == r;
    SmallMultiple(k - q, n);
  }

  lemma DividesMultiple(d: nat, n: int, k: int)
    requires 0 < d && n % d == 0
    ensures n * k % d == 0
  {
    var q := n / d;
    assert n == q * d;
    assert n * k == (q * k) * d;
    MultipleDivides(q * k, d);
  }

  lemma DividesSum(d: nat, a: int, b: int)
    requires 0 < d && a % d == 0 && b % d == 0
    ensures (a + b) % d == 0 && (a - b) % d == 0
  {
    var p, q := a / d, b / d;
    assert a == p * d && b == q * d;
    assert a + b == (p + q) * d && a - b == (p - q) * d;
    MultipleDivides(p + q, d);
    MultipleDivides(p - q, d);
  }

  lemma Remainder(q: nat, r: nat, n: nat)
    requires r < n
    ensures (q * n + r) % n == r && (q * n + r) / n == q
  {
    var x := q * n + r;
    assert (x / n - q) * n == r - x % n;
    if x / n > q {
      PositiveMultiple(x / n - q, n);
    } else if x / n < q {
      PositiveMultiple(q - x / n, n);
    }
  }

  // Of two powers of two, the smaller divides the larger.
  lemma {:induction false} Pow2Divides(a: nat, b: nat)
    requires a <= b
    ensures Pow2(b) % Pow2(a) == 0
  {
    if a < b {
      Pow2Divides(a, b - 1);
      DividesSum(Pow2(a), Pow2(b - 1), Pow2(b - 1));
    } else {
      MultipleDivides(1, Pow2(a));
    }
  }

  // x & ~(size - 1) for a power of two
  function RoundDown(x: nat, size: nat): (r: nat)
    requires 0 < size
    ensures r <= x < r + size
  {
    x - x % size
  }

  lemma RoundDownDivides(x: nat, size: nat)
    requires 0 < size
    ensures RoundDown(x, size) % size == 0
  {
    assert RoundDown(x, size) == x / size * size;
    MultipleDivides(x / size, size);
  }

  // roundup2(x, size)
  function RoundUp(x: nat, size: nat): (r: nat)
    requires 0 < size
    ensures x <= r < x + size
  {
    RoundDown(x + size - 1, size)
  }

  // The next multiple below a multiple leaves room for a whole unit.
  lemma RoomBelow(x: nat, top: nat, size: nat)
    requires 0 < size && x % size == 0 && top % size == 0 && x < top
    ensures x + size <= top
  {
    DividesSum(size, top, x);
    var q := (top - x) / size;
    assert top - x == q * size;
    assert q >= 1;
  }

  // The multiple of size in [r, r + size) is unique.
  lemma RoundDownIs(x: nat, size: nat, r: nat)
    requires 0 < size && r % size == 0 && r <= x < r + size
    ensures RoundDown(x, size) == r
  {
    RoundDownDivides(x, size);
    var d := RoundDown(x, size);
    if r < d {
      RoomBelow(r, d, size);
    } else if d < r {
      RoomBelow(d, r, size);
    }
  }

  lemma KnownPowers()
    ensures Pow2(16) == 0x1_0000 && Pow2(32) == 0x1_0000_0000 && Pow2(64) == 0x1_0000_0000 * 0x1_0000_0000
  {
    assert Pow2(8) == 256;
    Pow2Add(8, 8);
    Pow2Add(16, 16);
    Pow2Add(32, 32);
  }
}
