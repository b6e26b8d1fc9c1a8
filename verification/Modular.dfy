/** Arithmetic of machine integers: their widths, and remainders under addition and truncation. */
module Modular {

  const UINT32: nat := 0x1_0000_0000
  const UINT64: nat := 0x1_0000_0000_0000_0000

  lemma Multiples(m: nat, d: int)
    ensures d > 0 ==> m * d >= m
    ensures d < 0 ==> m * d + m <= 0
  {
  }

  /** The product, where only its laws matter. */
  function Times(n: nat, m: nat): nat { n * m }

  lemma TimesNext(n: nat, m: nat)
    requires n > 0
    ensures Times(n, m) == Times(n - 1, m) + m
  {
    Distribute(m, n - 1, 1);
  }

  lemma TimesGrows(n: nat, k: nat, m: nat, l: nat)
    requires n <= k && m <= l
    ensures Times(n, m) <= Times(k, l)
  {
    Distribute(m, n, k - n);
    Distribute(k, m, l - m);
  }

  lemma TimesFits(n: nat, m: nat, room: nat)
    requires m > 0 && Times(n, m) <= room
    ensures n <= room / m
  {
    Quotient(room, m);
    Multiples(m, n - room / m);
    Distribute(m, n, -(room / m));
  }

  lemma TimesQuotient(room: nat, m: nat)
    requires m > 0
    ensures Times(room / m, m) <= room < Times(room / m, m) + m
  {
    Quotient(room, m);
  }

  lemma SmallQuotient(room: nat, m: nat)
    requires room < m
    ensures room / m == 0
  {
    RemainderIs(room, 0, room, m);
  }

  lemma {:induction false} TimesDouble(n: nat, m: nat)
    requires n >= 1 && m >= 1
    ensures Times(n, 2 * m - 1) >= Times(n, m) + m - 1
    decreases n
  {
    TimesNext(n, m);
    TimesNext(n, 2 * m - 1);
    if n > 1 {
      hide Times;
      TimesDouble(n - 1, m);
    }
  }

  lemma Distribute(m: int, q: int, p: int)
    ensures m * q + m * p == m * (q + p)
  {
  }

  lemma Regroup(k: int, m: int, q: int)
    ensures k * m * q == m * (k * q)
  {
  }

  lemma Quotient(n: nat, m: nat)
    requires m > 0
    ensures n == m * (n / m) + n % m && n % m < m
  {
  }

  lemma SameQuotient(m: nat, q: int, r: int, p: int, s: int)
    requires 0 <= r < m && 0 <= s < m && m * q + r == m * p + s
    ensures q == p && r == s
  {
    Distribute(m, q - p, p);
    Multiples(m, q - p);
  }

  lemma RemainderIs(n: nat, q: nat, r: nat, m: nat)
    requires r < m && n == m * q + r
    ensures n % m == r && n / m == q
  {
    Quotient(n, m);
    SameQuotient(m, n / m, n % m, q, r);
  }

  lemma AddParts(q: nat, a: nat, b: nat, p: nat, r: nat, m: nat)
    requires r < m && a + b == m * p + r
    ensures (m * q + a + b) % m == r
  {
    Distribute(m, q, p);
    RemainderIs(m * q + a + b, q + p, r, m);
  }

  /** Reducing before adding changes nothing after reducing. */
  lemma AddMod(a: nat, b: nat, m: nat)
    requires m > 0
    ensures (a % m + b) % m == (a + b) % m
  {
    var q, r := a / m, a % m;
    Quotient(a, m);
    Quotient(r + b, m);
    AddParts(q, r, b, (r + b) / m, (r + b) % m, m);
  }

  lemma TwoParts(k: nat, m: nat, q: nat, p: nat, s: nat)
    requires s < m
    ensures (k * m * q + (m * p + s)) % m == s
  {
    Regroup(k, m, q);
    Distribute(m, k * q, p);
    RemainderIs(k * m * q + (m * p + s), k * q + p, s, m);
  }

  /** Truncating twice is truncating to the smaller width. */
  lemma ModMod(a: nat, k: nat, m: nat)
    requires k > 0 && m > 0 && k * m > 0
    ensures (a % (k * m)) % m == a % m
  {
    var w := k * m;
    var r := a % w;
    Quotient(a, w);
    Quotient(r, m);
    TwoParts(k, m, a / w, r / m, r % m);
  }

  lemma SumFits(a: nat, b: nat, m: nat)
    requires m > 0 && a % m + b < m
    ensures (a + b) % m == a % m + b
  {
    Quotient(a, m);
    RemainderIs(a + b, a / m, a % m + b, m);
  }

  /** What the remainder holds can be taken off without passing below the modulus. */
  lemma TakeOff(a: nat, b: nat, m: nat)
    requires m > 0 && b <= a % m
    ensures b <= a && (a - b < m <==> a < m)
  {
    Quotient(a, m);
    if a >= m { Multiples(m, a / m); }
  }

  lemma SmallMod(a: nat, m: nat)
    requires a < m
    ensures a % m == a
  {
    RemainderIs(a, 0, a, m);
  }
}
