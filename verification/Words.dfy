/** Unsigned 64-bit words and the modular facts the ring buffer's indices need. */
module Words {

  const WORD: int := 0x1_0000_0000_0000_0000

  type Word = x: int | 0 <= x < WORD

  function Wrap(x: int): Word { x % WORD }

  function Pow2(k: nat): (r: nat)
    ensures r > 0
  {
    if k == 0 then 1 else 2 * Pow2(k - 1)
  }

  lemma {:induction false} Pow2Adds(j: nat, k: nat)
    ensures Pow2(j + k) == Pow2(j) * Pow2(k)
    decreases j
  {
    if j > 0 {
      Pow2Adds(j - 1, k);
      assert Pow2(j + k) == 2 * (Pow2(j - 1) * Pow2(k));
    }
  }

  lemma WordIsPow2()
    ensures Pow2(64) == WORD
  {
    assert Pow2(4) == 16;
    Pow2Adds(4, 4);
    Pow2Adds(8, 8);
    Pow2Adds(16, 16);
    Pow2Adds(32, 32);
  }

  lemma Pow2BelowWord(bits: nat)
    requires bits < 64
    ensures Pow2(bits) < WORD
  {
    WordIsPow2();
    Pow2Adds(bits, 64 - bits);
  }

  /** A number has one quotient and one remainder. */
  lemma DivModUnique(x: int, m: int, q: int, r: int)
    requires m > 0 && 0 <= r < m && x == q * m + r
    ensures x / m == q && x % m == r
  {
    var d := x / m - q;
    assert x % m == x - (x / m) * m;
    assert d * m == r - x % m;
    assert d > 0 ==> d * m >= m;
    assert d < 0 ==> d * m <= -m;
  }

  /** Reducing modulo a multiple of m first does not change the residue modulo m. */
  lemma ModOfMod(x: nat, m: nat, n: nat)
    requires m > 0 && n > 0
    ensures (x % (m * n)) % m == x % m
  {
    var q, r := x / (m * n), x % (m * n);
    assert x == q * (m * n) + r;
    assert q * (m * n) == (q * n) * m;
    assert r == (r / m) * m + r % m;
    assert x == (q * n + r / m) * m + r % m by {
      assert (q * n + r / m) * m == (q * n) * m + (r / m) * m;
    }
    DivModUnique(x, m, q * n + r / m, r % m);
  }

  lemma WrapModPow2(x: nat, k: nat)
    requires k <= 64
    ensures Wrap(x) % Pow2(k) == x % Pow2(k)
  {
    WordIsPow2();
    Pow2Adds(k, 64 - k);
    ModOfMod(x, Pow2(k), Pow2(64 - k));
  }

  /** Two numbers closer than m apart share a residue modulo m only when they are equal. */
  lemma ModDistinct(a: nat, b: nat, m: nat)
    requires m > 0 && a < b < a + m
    ensures a % m != b % m
  {
    var d := b / m - a / m;
    assert a == (a / m) * m + a % m && b == (b / m) * m + b % m;
    assert b - a == d * m + b % m - a % m;
    assert d > 0 ==> d * m >= m;
    assert d <= 0 ==> d * m <= 0;
  }

  /** The wrapped difference of two wrapped counters is their true difference while it is small. */
  lemma WrapDifference(a: nat, b: nat)
    requires b <= a < b + WORD
    ensures Wrap(Wrap(a) - Wrap(b)) == a - b
  {
    var q := a / WORD - b / WORD;
    assert Wrap(a) - Wrap(b) == (a - b) - q * WORD;
    DivModUnique(Wrap(a) - Wrap(b), WORD, -q, a - b);
  }

  lemma WrapAdds(a: nat, b: nat)
    ensures Wrap(Wrap(a) + b) == Wrap(a + b)
  {
    var q, r := (a + b) / WORD, (a + b) % WORD;
    assert Wrap(a) + b == (q - a / WORD) * WORD + r;
    DivModUnique(Wrap(a) + b, WORD, q - a / WORD, r);
  }

  lemma WrapIdentity(x: Word)
    ensures Wrap(x) == x
  {
  }

  /** Going from one word to another and back around. */
  lemma WrapReturns(a: Word, b: Word)
    ensures Wrap(a + Wrap(b - a)) == b
  {
    DivModUnique(b - a, WORD, if b >= a then 0 else -1, if b >= a then b - a else b - a + WORD);
    DivModUnique(a + Wrap(b - a), WORD, if b >= a then 0 else 1, b);
  }
}
