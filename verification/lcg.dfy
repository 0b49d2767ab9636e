/** The seeded mode of the tree plugin: a Park–Miller "minimal standard"
    multiplicative congruential generator (multiplier 16807, modulus 2^31 - 1)
    whose first TableSize normalised outputs are precomputed into a table. */
module Lcg {

  const Multiplier: int := 16807
  const Modulus: int := 2147483647
  /** Number of values precomputed from a seed. */
  const TableSize: nat := 10000
  /** Multiplicative inverse of Multiplier modulo Modulus:
      Multiplier * InverseMultiplier == 1 + InverseQuotient * Modulus. */
  const InverseMultiplier: int := 1407677000
  const InverseQuotient: int := 11017

  /** JavaScript's `%` on integers: the remainder takes the sign of the
      dividend (truncated division), unlike Dafny's Euclidean `%`. */
  function JsRem(a: int, m: int): (r: int)
    requires m > 0
    ensures a >= 0 ==> 0 <= r < m
    ensures a <= 0 ==> -m < r <= 0
    ensures (a - r) % m == 0
  {
    if a >= 0 then
      assert a - a % m == (a / m) * m;
      MultipleMod(a / m, m);
      a % m
    else
      assert a + (-a) % m == (-((-a) / m)) * m;
      MultipleMod(-((-a) / m), m);
      -((-a) % m)
  }

  /** A multiple of `m` leaves no remainder. */
  lemma MultipleMod(k: int, m: int)
    requires m > 0
    ensures (k * m) % m == 0
  {
    var d := (k * m) / m;
    var r := (k * m) % m;
    assert (k - d) * m == r;
    if k - d >= 1 {
      MulAtLeast(k - d, m);
    } else if k - d <= -1 {
      MulAtLeast(d - k, m);
    }
  }

  /** A factor of at least 1 keeps a positive `m` or more. */
  lemma MulAtLeast(c: int, m: int)
    requires c >= 1 && m > 0
    ensures c * m >= m
  {
    assert c * m == (c - 1) * m + m;
  }

  /** One generator step, `s = (s * 16807) % 2147483647`. */
  function Step(s: int): (r: int)
    ensures s >= 0 ==> 0 <= r < Modulus
    ensures s <= 0 ==> -Modulus < r <= 0
  {
    JsRem(s * Multiplier, Modulus)
  }

  /** The state after `n` steps from `seed`. */
  function StateAfter(seed: int, n: nat): int
  {
    if n == 0 then seed else Step(StateAfter(seed, n - 1))
  }

  /** The normalised output `(s - 1) / 2147483646` of a state. */
  function Normalize(s: int): real
  {
    (s - 1) as real / (Modulus - 1) as real
  }

  /** The precomputed table: entry `i` is the normalised state after `i + 1` steps. */
  function Table(seed: int): seq<real>
  {
    seq(TableSize, i requires 0 <= i < TableSize => Normalize(StateAfter(seed, i + 1)))
  }

  /** The table-building loop of the plugin's constructor; equal seeds give
      identical tables because the loop computes exactly `Table(seed)`. */
  method BuildTable(seed: int) returns (t: seq<real>)
    ensures |t| == TableSize
    ensures t == Table(seed)
  {
    t := [];
    var s := seed;
    var i := 0;
    while i < TableSize
      invariant 0 <= i <= TableSize
      invariant |t| == i
      invariant s == StateAfter(seed, i)
      invariant forall k :: 0 <= k < i ==> t[k] == Normalize(StateAfter(seed, k + 1))
    {
      s := Step(s);
      t := t + [Normalize(s)];
      i := i + 1;
    }
  }

  /** A step maps a state that is not a multiple of the modulus to a
      non-zero state: the modulus is coprime with the multiplier. */
  lemma StepNonZero(s: int)
    requires s % Modulus != 0
    ensures Step(s) != 0
  {
    if Step(s) == 0 {
      if s >= 0 {
        DivisibleByModulus(s);
      } else {
        assert (-s) * Multiplier == -(s * Multiplier);
        DivisibleByModulus(-s);
        var k := (-s) / Modulus;
        assert s == (-k) * Modulus;
        MultipleMod(-k, Modulus);
      }
    }
  }

  /** If the modulus divides `s * 16807` then it divides `s` (Bezout, via the inverse). */
  lemma DivisibleByModulus(s: int)
    requires s >= 0 && (s * Multiplier) % Modulus == 0
    ensures s % Modulus == 0
  {
    var q := (s * Multiplier) / Modulus;
    assert s * Multiplier == q * Modulus;
    assert Multiplier * InverseMultiplier == 1 + InverseQuotient * Modulus;
    calc {
      s;
      s * (Multiplier * InverseMultiplier) - s * InverseQuotient * Modulus;
      (s * Multiplier) * InverseMultiplier - s * InverseQuotient * Modulus;
      (q * Modulus) * InverseMultiplier - s * InverseQuotient * Modulus;
      (q * InverseMultiplier - s * InverseQuotient) * Modulus;
    }
    var c := q * InverseMultiplier - s * InverseQuotient;
    assert s == c * Modulus;
  }

  /** From a positive seed that is not a multiple of the modulus, every state
      after the first step lies in [1, 2^31 - 2]. */
  lemma {:induction false} StatesInRange(seed: int, n: nat)
    requires seed > 0 && seed % Modulus != 0
    requires n >= 1
    ensures 1 <= StateAfter(seed, n) < Modulus
  {
    var prev := StateAfter(seed, n - 1);
    if n == 1 {
      StepNonZero(seed);
    } else {
      StatesInRange(seed, n - 1);
      assert prev % Modulus == prev;
      StepNonZero(prev);
    }
  }

  /** Every table entry of such a seed lies in [0, 1). */
  lemma TableInUnitInterval(seed: int)
    requires seed > 0 && seed % Modulus != 0
    ensures |Table(seed)| == TableSize
    ensures forall i :: 0 <= i < TableSize ==> 0.0 <= Table(seed)[i] < 1.0
  {
    forall i | 0 <= i < TableSize
      ensures 0.0 <= Table(seed)[i] < 1.0
    {
      StatesInRange(seed, i + 1);
    }
  }

  /** A seed the generator cannot leave the non-positive states from: zero or
      below, or a multiple of the modulus (which the first step sends to 0).
      Every other seed is one `StatesInRange` covers. */
  predicate Degenerate(seed: int)
  {
    seed <= 0 || seed % Modulus == 0
  }

  /** A step from a multiple of the modulus lands on 0. */
  lemma StepFromMultiple(s: int)
    requires s >= 0 && s % Modulus == 0
    ensures Step(s) == 0
  {
    var q := s / Modulus;
    assert s * Multiplier == (q * Multiplier) * Modulus;
  }

  /** From a degenerate seed every state after the first step is at or
      below zero. */
  lemma {:induction false} DegenerateStates(seed: int, n: nat)
    requires Degenerate(seed) && n >= 1
    ensures StateAfter(seed, n) <= 0
  {
    if n == 1 {
      if seed > 0 {
        StepFromMultiple(seed);
      }
    } else {
      DegenerateStates(seed, n - 1);
    }
  }

  /** A degenerate seed yields only negative table entries. */
  lemma DegenerateSeedTable(seed: int)
    requires Degenerate(seed)
    ensures forall i :: 0 <= i < TableSize ==> Table(seed)[i] < 0.0
  {
    forall i | 0 <= i < TableSize
      ensures Table(seed)[i] < 0.0
    {
      DegenerateStates(seed, i + 1);
    }
  }

  /** Every seed gives either a table wholly inside [0, 1) or a wholly
      negative one, according to whether it is degenerate. */
  lemma SeedDichotomy(seed: int)
    ensures !Degenerate(seed) <==> forall i :: 0 <= i < TableSize ==> 0.0 <= Table(seed)[i] < 1.0
    ensures Degenerate(seed) <==> forall i :: 0 <= i < TableSize ==> Table(seed)[i] < 0.0
  {
    if Degenerate(seed) {
      DegenerateSeedTable(seed);
      assert Table(seed)[0] < 0.0;
    } else {
      TableInUnitInterval(seed);
      assert 0.0 <= Table(seed)[0];
    }
  }

  /** The first value drawn from seed 42. */
  lemma Seed42FirstValue()
    ensures Table(42)[0] == 705893.0 / 2147483646.0
  {
    assert StateAfter(42, 1) == 705894;
  }
}
