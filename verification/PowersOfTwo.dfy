/** Multiples of a number modulo a power of two: which residues they reach. */
module PowersOfTwo {

  function Pow2(k: nat): (r: nat)
    ensures r > 0
  {
    if k == 0 then 1 else 2 * Pow2(k - 1)
  }

  /** The largest power of two that divides a number. */
  function Pow2In(x: nat): (r: nat)
    requires x > 0
    ensures r > 0
  {
    if x % 2 == 1 then 1 else 2 * Pow2In(x / 2)
  }

  /** A number is its largest power of two times an odd number. */
  lemma {:induction false} OddPart(x: nat) returns (k: nat, a: nat)
    requires x > 0
    ensures Pow2In(x) == Pow2(k) && x == a * Pow2(k) && a % 2 == 1
  {
    if x % 2 == 1 {
      k, a := 0, x;
    } else {
      k, a := OddPart(x / 2);
      k := k + 1;
      TimesTwice(a, Pow2(k - 1));
    }
  }

  lemma TimesTwice(a: int, b: int)
    ensures a * (2 * b) == 2 * (a * b) == (2 * a) * b
  {
  }

  lemma TimesPlus(a: int, b: int, c: int)
    ensures (a + b) * c == a * c + b * c
  {
  }

  lemma {:induction false} Pow2Splits(k: nat, n: nat)
    requires k <= n
    ensures Pow2(n) == Pow2(n - k) * Pow2(k)
  {
    if k > 0 {
      Pow2Splits(k - 1, n);
      TimesTwice(Pow2(n - k), Pow2(k - 1));
    }
  }

  lemma {:induction false} Pow2Grows(k: nat, n: nat)
    requires k <= n
    ensures Pow2(k) <= Pow2(n)
  {
    if k < n { Pow2Grows(k, n - 1); }
  }

  /** The multiples of an odd number reach every residue modulo a power of two. */
  lemma {:induction false} OddReaches(a: nat, t: int, k: nat) returns (n: nat, q: int)
    requires a % 2 == 1
    ensures n * a == t + q * Pow2(k)
  {
    if k == 0 {
      n, q := 0, -t;
    } else {
      var half := Pow2(k - 1);
      n, q := OddReaches(a, t, k - 1);
      if q % 2 == 0 {
        q := HalveCarry(t, q, half);
      } else {
        TimesPlus(n, half, a);
        TimesPlus(q, a, half);
        n := n + half;
        q := HalveCarry(t, q + a, half);
      }
    }
  }

  lemma HalveCarry(t: int, q: int, half: int) returns (h: int)
    requires q % 2 == 0
    ensures q == 2 * h && t + q * half == t + h * (2 * half)
  {
    h := q / 2;
    TimesTwice(h, half);
  }

  // ---------- residues ----------

  lemma ModShift(x: int, y: int, g: nat)
    requires g > 0
    ensures (x + y * g) % g == x % g
    decreases if y < 0 then -y else y
  {
    if y > 0 {
      TimesPlus(y - 1, 1, g);
      ModShift(x, y - 1, g);
      ModUp(x + (y - 1) * g, g);
    } else if y < 0 {
      TimesPlus(y + 1, -1, g);
      ModShift(x, y + 1, g);
      ModUp(x + y * g, g);
    }
  }

  lemma ModUp(x: int, g: nat)
    requires g > 0
    ensures (x + g) % g == x % g
  {
    var q, r := x / g, x % g;
    TimesPlus(q, 1, g);
    DivisionUnique(x + g, g, q + 1, r);
  }

  lemma DivisionUnique(x: int, g: nat, q: int, r: int)
    requires g > 0 && x == q * g + r && 0 <= r < g
    ensures x / g == q && x % g == r
  {
    var p := x / g;
    TimesPlus(p - q, q, g);
    if p > q { TimesLe(1, p - q, g); } else if p < q { TimesLe(p - q, -1, g); }
  }

  lemma TimesLe(a: int, b: int, c: nat)
    requires a <= b
    ensures a * c <= b * c
  {
  }

  /** Below a multiple of g, nothing exceeds the last number of its residue class. */
  lemma LastOfClass(c: nat, g: nat, m: nat)
    requires g > 0 && c < m * g
    ensures c <= m * g - g + c % g
  {
    var d := c / g;
    if d >= m { TimesLe(m, d, g); }
    TimesLe(d, m - 1, g);
    TimesPlus(m, -1, g);
  }
}
