# Growing tree: a Dafny model

This project models the core of the `TreePlugin` in `tree.js`, an animated
fractal tree for an HTML canvas. The model has three parts that fit together:

- **The seeded random source.** The constructor fills a table of 10000
  values with a Park–Miller "minimal standard" multiplicative congruential
  generator: multiplier 16807, modulus 2^31 - 1. `random(min, max)` reads the
  table through a cursor, and `startTree` rewinds that cursor.
- **The recursive generator `createBranch`.** It fills `fullDepth = 11`
  depth buckets in pre-order. Each call below `fullDepth` draws three
  values: a length and two heading offsets. It pushes one branch and
  recurses twice; a call at `fullDepth` returns at once. Along the way it
  lowers `treeTop`.
- **The depth-by-depth animation.** `animate`, together with the
  `cntFrame` counter of `branch.draw`, is a state machine. Each call grows
  the unfinished branches of the current level. Once every branch of the
  level is complete, it moves to the next level instead. It reschedules
  itself exactly while the current level is below the displayed depth.

`startTree` ties the parts together. It rewinds the cursor, empties the
buckets, resets `currentDepth` and `treeTop`, and clamps the scale to
`stageHeight / (13 * fullDepth)`. It then generates the whole tree, resets
every counter and calls `animate` once.

Modules, one per file:

| file | module | models |
|---|---|---|
| `lcg.dfy` | `Lcg` | the generator step with JavaScript's truncating `%`, and the 10000-entry table |
| `random.dfy` | `RandomSource` | `random(min, max)` over a table and cursor, and the rewind |
| `generator.dfy` | `Generator` | `createBranch`, the depth buckets, `treeTop`, and the shape of a whole tree |
| `animation.dfy` | `Animation` | `branch.draw`'s counter, one `animate` tick, and the run to completion |
| `render.dfy` | `Render` | what one `animate` call strokes, as a list of segments |
| `plugin.dfy` | `TreePlugin` | `startTree`: the restart, the scale clamp and the first tick |

Modelling choices:

- **Numbers.** Coordinates, lengths and counters are `real`. Seeds and
  generator states are `int`. JavaScript's `%` takes the sign of the
  dividend, so it is written out as `Lcg.JsRem`.
- **Trigonometry.** `Math.cos` and `Math.sin` are function-valued fields
  of `Generator.Trig`. No proof depends on their values.
- **Threading state.** `createBranch` mutates the cursor, the buckets and
  `treeTop`. The model threads these explicitly through a `Generator.Gen`
  value.
- **`animate` as a function.** `animate` becomes `Animation.Tick`, a pure
  function that returns the new state and whether it reschedules.
  `Animation.Animate` is the same step written as the source's loop, and
  it is proved equal to `Tick`.

## Model

| member | source | states |
|---|---|---|
| Lcg.JsRem | tree.js:24 | JavaScript's remainder: congruent to the dividend modulo `m`, in `[0, m)` for a dividend that is not negative and in `(-m, 0]` for one that is not positive |
| Lcg.Step | tree.js:24 | one step `s * 16807 % 2147483647` keeps a state that is not negative in `[0, 2^31 - 2]`, and a state that is not positive in `(-(2^31 - 1), 0]` |
| Lcg.BuildTable | tree.js:19-27 | the constructor's loop yields exactly 10000 values, entry `i` being the normalised state after `i + 1` steps; equal seeds therefore give identical tables |
| Lcg.StepNonZero | tree.js:24 | a step never reaches 0 from a state, positive or negative, that is not a multiple of the modulus, because 16807 is invertible modulo 2^31 - 1 |
| Lcg.StatesInRange | tree.js:21-25 | from a positive seed that is not a multiple of the modulus, every state after the first step lies in `[1, 2^31 - 2]` |
| Lcg.TableInUnitInterval | tree.js:19-27 | for such a seed, every table entry `(s - 1) / 2147483646` lies in `[0, 1)` |
| Lcg.DegenerateStates | tree.js:21-25 | from a seed of 0 or below, or a positive multiple of 2147483647, every state after the first step is at or below 0 |
| Lcg.DegenerateSeedTable | tree.js:17-27 | such a seed yields only negative table entries |
| Lcg.SeedDichotomy | tree.js:17-27 | a seed yields a table entirely in `[0, 1)` exactly when it is positive and not a multiple of 2147483647, and a table entirely below 0 exactly otherwise |
| Lcg.Seed42FirstValue | tree.js:24-25 | the first entry for seed 42 is `705893 / 2147483646` (state 705894) |
| RandomSource.Random | tree.js:93-100 | `random(min, max)` advances the cursor by exactly one; a value in `[0, 1)` under the cursor gives a result in `[min, max)`, and a negative one gives a result below `min` |
| RandomSource.Rewind | tree.js:67-70 | a restart sets the cursor to 0 in seeded mode, leaves an unseeded source as it is, and never changes the values |
| RandomSource.RewindReplays | tree.js:67-70 | two seeded sources over the same table are equal once rewound, whatever their cursors |
| RandomSource.SeededDrawInRange | tree.js:93-97 | with a positive seed that is not a multiple of the modulus, every draw from the table lies in `[min, max)` |
| RandomSource.DegenerateSeedDrawBelowRange | tree.js:93-97 | with a seed of 0 or below, or a positive multiple of 2147483647, every draw from the table lies below `min` |
| Generator.Lower | tree.js:118-119 | a `treeTop` update leaves the top at or above `y` and at or above the old top, and changes it only to `y` |
| Generator.Node | tree.js:110-162 | the non-recursive part of a call takes one draw, pushes exactly one branch (from `start` to the computed end, with width `(fullDepth - d) * branchWidth`, `frame = 100`, `cntFrame = 0`) onto the end of bucket `d`, and leaves every other bucket alone; the new top bounds both ends of that branch and is at or above the old top |
| Generator.CreateBranch | tree.js:107-166 | a call at `depth` reads exactly `3 * (2^(fullDepth - depth) - 1)` values; every bucket only grows at its end, bucket `d` by `2^(d - depth)` branches when `d >= depth` and by none otherwise |
| Generator.DrawsSplit | tree.js:112-165 | a call below `fullDepth` makes three draws itself and leaves the rest to its two children |
| Generator.FreshBranches | tree.js:122-129 | every branch a call creates in bucket `d` has `lineWidth = (fullDepth - d) * branchWidth`, `frame = 100` and `cntFrame = 0` |
| Generator.TopBoundsBranches | tree.js:118-119 | after a call, `treeTop` is at or above where it was, finite once a branch was made, and at or above the start and end of every branch the call created; it is either the old top or the start or end `y` of one of those branches, so it is their minimum |
| Generator.TopAttained | tree.js:118-119 | a call that changes `treeTop` sets it to the start or end `y` of a branch the call created |
| Generator.ChainedBranches | tree.js:164-165 | every branch a call creates below its own level starts where its parent ends, the parents taken in order with two children each |
| Generator.RootBranch | tree.js:122-162 | a call's own branch sits at the old end of its bucket and runs from `start` to the end point its node computed |
| Generator.NodeEnd | tree.js:112-116 | the end point is `length * (fullDepth - d)` along the heading from `start`, where `length` is a draw from `[10, 13)` for the trunk and from `[0, 11)` otherwise, times the scale |
| Generator.GrowTree | tree.js:72-83 | the root call from empty buckets reads exactly 6141 values and gives bucket `d` exactly `2^d` branches |
| Generator.SizedFromGrown | tree.js:162-165 | grown from empty buckets by the root call, the layout has `fullDepth` buckets, with `2^d` branches in bucket `d` |
| Generator.TreeShape | tree.js:72-83 | a whole tree has `fullDepth` buckets with `2^d` branches each; every branch is fresh; the root alone in bucket 0 starts at the anchor; branch `j` of bucket `d > 0` starts at the end of branch `j / 2` of bucket `d - 1`; `treeTop` is finite, bounds both ends of every branch and equals the start or end `y` of one of them, so it is the topmost branch end |
| Generator.TreeTopped | tree.js:72-83 | after the root call, `treeTop` is the smallest `y` among the starts and ends of all branches |
| Generator.TreeRootEnd | tree.js:110-116 | the root branch heads up (-90 degrees) from the anchor for `fullDepth * scale` times the first draw from `[10, 13)` |
| Generator.LinkedFromChained | tree.js:162-165 | with `2^d` branches per bucket, the parent of branch `j` of bucket `d` is branch `j / 2` of bucket `d - 1` |
| Animation.DrawBranch | tree.js:133-159 | `draw` reports finished exactly when `cntFrame >= frame`; an unfinished branch gains exactly `speed` frames, while a finished one and all geometry stay unchanged |
| Animation.ScanLevel | tree.js:197-221 | the loop over the current level advances exactly the unfinished branches, and `currentDone` holds exactly when every branch of the level was already complete |
| Animation.Tick | tree.js:194-234 | a tick reschedules exactly when `currentDepth < depth`; it raises `currentDepth` by one exactly when that level was complete; it advances `cntFrame` by `speed` only for unfinished branches of the current level below `depth`, and changes nothing else |
| Animation.Animate | tree.js:194-234 | the source's loop, with its `currentDone` and `stillGrowing` flags, computes the same step as `Tick` and reschedules exactly when `currentDepth < depth` |
| Animation.TickMonotone | tree.js:196-226 | with a speed that is not negative, a tick keeps `currentDepth <= depth`, never lowers `currentDepth` or any counter, and leaves finished branches alone |
| Animation.MaxLeftZero | tree.js:197-203 | a level needs no more ticks exactly when every branch in it is complete |
| Animation.LeftGrown | tree.js:135-155 | one tick takes exactly one off the ticks an unfinished branch still needs |
| Animation.TickDecreases | tree.js:196-230 | every rescheduling tick lowers the termination measure |
| Animation.Run | tree.js:229-234 | with a positive speed, the loop halts after at most `(depth - currentDepth) * (ceil(100 / speed) + 1) + 1` calls, at `currentDepth == depth`, with every level from the starting level up to `depth - 1` complete and every other level untouched |
| Render.Completed | tree.js:173-192 | the first loop strokes as many segments as there are branches in the levels it visits, all in the frame's style |
| Render.Levels | tree.js:173-174 | the first loop visits at most `currentDepth` levels and at most `depth` of them, so `min(currentDepth, depth)` of them for a positive `depth`, and none when `depth` is 0 or below |
| Render.CompletedAt | tree.js:173-192 | branch `k` of a completed level `d` is stroked whole, at position `Count(d) + k`: levels in order, each in bucket order |
| Render.CompletedOrder | tree.js:173-192 | the same for every completed level and branch at once: each branch's slot `Count(d) + k` lies inside the stroked list and holds that branch, whole |
| Render.Frame | tree.js:168-227 | one `animate` call, for any display depth including 0 and below, strokes in order: every branch of each visited completed level, whole, at position `Count(d) + k`; then, when `currentDepth < depth`, branch `k` of the current level at `Count(currentDepth) + k`, partial while unfinished and whole once done; all in one style |
| Render.CurrentMatchesTick | tree.js:196-221 | on a valid state with a positive speed, each branch of the current level is either advanced by the same tick or left unchanged by it; an advanced one is stroked partially, at a progress in `[0, 1)`, and an unchanged one whole |
| Render.ProgressInUnitInterval | tree.js:135-139 | the drawn fraction `cntFrame / frame` of a partially drawn branch whose counter is not negative (which every tick keeps when `growthSpeed >= 0`, `Animation.TickMonotone`) lies in `[0, 1)` |
| Render.FinishedFrame | tree.js:173-196 | once `currentDepth >= depth`, a frame strokes exactly the completed levels below `depth`, each branch whole, and nothing partial; with a `depth` of 0 or below it strokes nothing |
| Render.FrameStyle | tree.js:181-188 | every segment of a frame is stroked in the configured colour in solid mode, and in gradient mode with the vertical gradient from the scene's root `(treeX, treeY)` to `(treeX, treeTop)` and the two configured stops |
| Render.NoDepthNoFrame | tree.js:173-233 | with a display depth of 0 or below, `animate` strokes nothing, changes nothing and does not reschedule, whatever the speed |
| Render.CountPowers | tree.js:173-175 | with `2^d` branches in bucket `d`, the levels below `n` hold `2^n - 1` branches |
| TreePlugin.ClampScale | tree.js:77-81 | the clamped scale is at most `stageHeight / (13 * fullDepth)` and at most the requested scale; a scale already within the bound is kept |
| TreePlugin.ClampIdempotent | tree.js:77-81 | clamping an already clamped scale changes nothing |
| TreePlugin.ResetProgress | tree.js:85-89 | the reset loop keeps every bucket's size and sets every branch's `cntFrame` to 0, leaving everything else |
| TreePlugin.ResetFreshIsIdentity | tree.js:85-89 | on freshly generated buckets the reset loop changes nothing |
| TreePlugin.DrawsPerTree | tree.js:19-23 | a whole tree takes `3 * (2^11 - 1) = 6141` draws, fewer than the 10000 precomputed |
| TreePlugin.SeededCanGenerate | tree.js:17-29 | every seed's table holds a whole tree's draws after a rewind, whatever the cursor was |
| TreePlugin.Restart | tree.js:63-89 | a restart sets `currentDepth = 0`, records the anchor, and clamps the scale; it regenerates buckets and `treeTop` from the rewound source, which ends exactly 6141 draws further on; it keeps every other field |
| TreePlugin.RestartShape | tree.js:72-89 | the restarted buckets and `treeTop` have the whole-tree shape, rooted at the anchor, under the clamped scale: `2^d` fresh branches in bucket `d`, each child starting at its parent's end, and `treeTop` equal to the smallest start or end `y` of any branch |
| TreePlugin.RestartStyle | tree.js:181-188 | after a restart at `(posX, posY)`, at any display depth up to `fullDepth`, every segment `animate` strokes uses the solid colour, or in gradient mode the vertical gradient from `(posX, posY)` up to `(posX, treeTop)`, where `treeTop` is the topmost branch end of the regenerated tree |
| TreePlugin.RestartCursor | tree.js:67-83 | in seeded mode, a restart leaves the cursor at 6141 |
| TreePlugin.RestartReplays | tree.js:67-83 | restarting a seeded plugin again, even after changing colours, display depth or speed, regenerates identical buckets and `treeTop` |
| TreePlugin.FreshTreeValid | tree.js:73-89 | a freshly generated tree at level 0 is a valid animation state for any display depth up to `fullDepth` |
| TreePlugin.FirstTick | tree.js:90 | the first `animate` on a fresh tree grows the lone root by `speed`, stays at level 0 and reschedules when the display depth is positive; otherwise it changes nothing and stops |
| TreePlugin.AnimateOnce | tree.js:168-235 | one `animate` on the plugin reschedules exactly when `currentDepth < depth` and changes only `currentDepth` and the buckets |
| TreePlugin.StartTree | tree.js:63-91 | `startTree` schedules a further frame exactly when the display depth is positive |
| TreePlugin.StartTreeGrowsRoot | tree.js:63-91 | after `startTree`, the plugin equals the restarted one, except that with a positive display depth the root has grown by `growthSpeed` |
| TreePlugin.TreeAnimates | tree.js:168-234 | from a fresh whole tree with a positive speed, the animation ends at `currentDepth == depth` within `depth * (ceil(100 / speed) + 1) + 1` calls; displayed levels are complete and hidden ones untouched; the last frame strokes exactly the `2^depth - 1` displayed branches, each whole |
| TreePlugin.RootEnd | tree.js:110-116 | a restart's root branch starts at `(posX, posY)` and heads up for `11 * clampedScale` times the first draw from `[10, 13)` of the rewound source |
| TreePlugin.Seed42Draw | tree.js:93-96 | the first `random(10, 13)` from seed 42 is `10 + 705893 / 2147483646 * 3` |
| TreePlugin.Seed42Root | tree.js:107-116 | with seed 42, a restart at `(100, 200)` puts a root branch in bucket 0 alone, starting at `(100, 200)` and heading up for `11 * clampedScale * (10 + 705893 / 2147483646 * 3)` |

## Edge behaviour of the code

- **Counter overshoot.** `cntFrame` is not clamped at `frame`. The last
  `+= growthSpeed` can overshoot, and later ticks simply leave such a branch
  alone (`Animation.TickMonotone`).
- **Exhausting the table.** Reading past the end of the table gives
  `undefined`, and the draw becomes `NaN`; nothing raises an error. The
  model makes an available value a precondition of every draw. It proves
  that a whole tree needs only 6141 of the 10000 values
  (`TreePlugin.DrawsPerTree`), so this never happens.
- **Degenerate seeds.** A seed of 0 or below, or a positive multiple of
  2147483647, is accepted. Every generator state after the first step is
  then at or below 0, every table entry is negative and every draw falls below `min`
  (`Lcg.SeedDichotomy`, `RandomSource.DegenerateSeedDrawBelowRange`).
- **Display depth above `fullDepth`.** This is not clamped; `animate` would
  read a missing bucket. The model requires `depth <= fullDepth` (and
  `depth <= |buckets|` for a tick).
- **Display depth of 0 or below.** A negative `depth` option is kept as
  given (0 falls back to 11). The first `animate` then strokes nothing and
  does not reschedule, whatever the speed (`Render.NoDepthNoFrame`).
- **Speed of 0 or below.** A negative `growthSpeed` option is kept (0
  falls back to 1). With `growthSpeed <= 0` and a display depth of
  at least 1, no counter of the current level ever reaches `frame`, so
  `animate` reschedules forever. With a negative speed the counters of
  the current level go below 0, so `progress` turns negative and each of
  that level's segments is drawn backwards from its branch's start
  (tree.js:10, 135-137, 155). `Animation.Tick` models it for any speed.
  The termination result `Animation.Run` requires a positive speed.

## Left out

- Canvas and DOM work (container, resize listener, `devicePixelRatio`, `clearRect`, `beginPath`/`stroke`, gradient objects): host side effects. `Render` states what each call would stroke, as a list of segments.
- `requestAnimationFrame` / `cancelAnimationFrame`: host scheduling. A tick returns the reschedule flag instead; `Animation.Run` iterates ticks.
- Floating-point rounding: coordinates and counters are reals.
- `Math.cos`, `Math.sin` and `Math.PI`'s exactness: trigonometry is passed in as `Generator.Trig`; `Math.PI` is the shortest decimal that rounds to the double `Math.PI`.
- Option parsing and its `x || default` fallbacks (a `depth` of 0 falls back to 11): the plugin's fields arrive already set.
- Unseeded mode's `Math.random`: its outputs are a caller-supplied sequence (`RandomSource.Rng.Unseeded`), since they are not reproducible.
- Seeds that are not integers, or so large that `s * 16807` exceeds 2^53 and loses precision: seeds are mathematical integers.
- The `gapX` / `gapY` fields of a branch: nothing reads them.
- RandomSource.Random: reading past the end of the table (which yields `NaN` in the source) is excluded by a precondition instead of modelled.
- Animation.Run: requires a positive speed, because with a speed of 0 or below and a display depth of at least 1 the source never stops; with a display depth of 0 or below it stops at once (`Render.NoDepthNoFrame`).
- TreePlugin.StartTree: the run to completion after `startTree` is stated in two halves, `TreePlugin.RestartShape` for the generated tree and `TreePlugin.TreeAnimates` for any tree of that shape, rather than as one lemma about `StartTree` itself.
