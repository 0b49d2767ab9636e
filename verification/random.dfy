/** The plugin's `random(min, max)`: a value read from a sequence of unit
    values through a cursor that advances by one per draw. */
module RandomSource {
  import Lcg

  /** In seeded mode the values are the precomputed table of the seed; without
      a seed they are the successive outputs of the host's `Math.random`,
      supplied by the caller since they are not reproducible. */
  datatype Rng =
    | Seeded(values: seq<real>, cursor: nat)
    | Unseeded(values: seq<real>, cursor: nat)

  /** The generator a seed configures: its table, read from the start. */
  function FromSeed(seed: int): Rng
  {
    Seeded(Lcg.Table(seed), 0)
  }

  /** At least `n` more values can be read. */
  predicate CanDraw(rng: Rng, n: nat)
  {
    rng.cursor + n <= |rng.values|
  }

  /** The generator after `n` draws. */
  function Skip(rng: Rng, n: nat): Rng
  {
    rng.(cursor := rng.cursor + n)
  }

  /** Skipping composes. */
  lemma SkipSkip(rng: Rng, a: nat, b: nat)
    ensures Skip(Skip(rng, a), b) == Skip(rng, a + b)
  {
  }

  datatype Drawn = Drawn(value: real, rng: Rng)

  /** Real multiplication kept as one term, so that bounds proved about a
      product are used as such by the solver. */
  function Mul(a: real, b: real): real
  {
    a * b
  }

  /** `random(min, max)`: the unit value under the cursor scaled into
      [min, max), with the cursor advanced by exactly one. */
  function Random(rng: Rng, lo: real, hi: real): (d: Drawn)
    requires CanDraw(rng, 1)
    ensures d.rng == Skip(rng, 1)
    ensures 0.0 <= rng.values[rng.cursor] < 1.0 && lo < hi ==> lo <= d.value < hi
    ensures rng.values[rng.cursor] < 0.0 && lo < hi ==> d.value < lo
  {
    var u := rng.values[rng.cursor];
    UnitScale(u, hi - lo);
    var v := if rng.Seeded? then lo + Mul(u, hi - lo) else Mul(u, hi - lo) + lo;
    Drawn(v, Skip(rng, 1))
  }

  /** A unit value scales a positive width into [0, width); a negative one below 0. */
  lemma UnitScale(u: real, w: real)
    ensures w > 0.0 && 0.0 <= u < 1.0 ==> 0.0 <= Mul(u, w) < w
    ensures w > 0.0 && u < 0.0 ==> Mul(u, w) < 0.0
  {
    if w > 0.0 && 0.0 <= u < 1.0 {
      assert (1.0 - u) * w > 0.0;
    }
  }

  /** The cursor reset of a restart: only the seeded mode rewinds. */
  function Rewind(rng: Rng): (r: Rng)
    ensures r.values == rng.values && r.Seeded? == rng.Seeded?
    ensures r.Seeded? ==> r.cursor == 0
    ensures r.Unseeded? ==> r == rng
  {
    if rng.Seeded? then rng.(cursor := 0) else rng
  }

  /** Rewinding a seeded generator forgets everything drawn from it: two
      seeded generators over the same table replay the same draws. */
  lemma RewindReplays(a: Rng, b: Rng)
    requires a.Seeded? && b.Seeded? && a.values == b.values
    ensures Rewind(a) == Rewind(b)
  {
  }

  /** With a positive seed that is not a multiple of the modulus, every draw
      from the table lies in [min, max). */
  lemma SeededDrawInRange(seed: int, cursor: nat, lo: real, hi: real)
    requires seed > 0 && seed % Lcg.Modulus != 0
    requires cursor < Lcg.TableSize && lo < hi
    ensures CanDraw(Seeded(Lcg.Table(seed), cursor), 1)
    ensures lo <= Random(Seeded(Lcg.Table(seed), cursor), lo, hi).value < hi
  {
    Lcg.TableInUnitInterval(seed);
  }

  /** With a degenerate seed (zero or below, or a multiple of the modulus,
      all of which the constructor accepts) every draw falls strictly below
      `min`. */
  lemma DegenerateSeedDrawBelowRange(seed: int, cursor: nat, lo: real, hi: real)
    requires Lcg.Degenerate(seed)
    requires cursor < Lcg.TableSize && lo < hi
    ensures CanDraw(Seeded(Lcg.Table(seed), cursor), 1)
    ensures Random(Seeded(Lcg.Table(seed), cursor), lo, hi).value < lo
  {
    Lcg.DegenerateSeedTable(seed);
  }
}
