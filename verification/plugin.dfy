/** The plugin state `startTree` resets and regenerates: the random source,
    the clamped scale, the depth buckets, `treeTop`, the root position and
    the animation state, followed by the first call of `animate`. */
module TreePlugin {
  import Lcg
  import opened RandomSource
  import opened Generator
  import opened Animation
  import opened Render

  /** The fields of a `TreePlugin` that generation and animation read or
      write. `stageHeight` is the container height the host reports. */
  datatype Plugin = Plugin(
    depth: int,
    growthSpeed: real,
    treeScale: real,
    branchWidth: real,
    paint: Paint,
    rng: Rng,
    stageHeight: real,
    trig: Trig,
    buckets: seq<seq<Branch>>,
    currentDepth: nat,
    treeTop: Top,
    treeX: real,
    treeY: real)

  /** `stageHeight / (13 * fullDepth)`: the largest scale at which the
      tallest possible tree still fits the stage. */
  function MaxScale(stageHeight: real): real
  {
    stageHeight / (13 * FullDepth) as real
  }

  /** The scale clamp of `startTree`: a scale above the bound is lowered to
      it, any other is kept. */
  function ClampScale(scale: real, stageHeight: real): (r: real)
    ensures r <= MaxScale(stageHeight)
    ensures scale <= MaxScale(stageHeight) ==> r == scale
    ensures scale > MaxScale(stageHeight) ==> r == MaxScale(stageHeight)
    ensures r <= scale
  {
    if scale > MaxScale(stageHeight) then MaxScale(stageHeight) else scale
  }

  /** Clamping twice is clamping once. */
  lemma ClampIdempotent(scale: real, stageHeight: real)
    ensures ClampScale(ClampScale(scale, stageHeight), stageHeight) == ClampScale(scale, stageHeight)
  {
  }

  /** The loop of `startTree` that sets every `cntFrame` back to 0. */
  function ResetProgress(bs: seq<seq<Branch>>): (r: seq<seq<Branch>>)
    ensures |r| == |bs|
    ensures forall d :: 0 <= d < |bs| ==> |r[d]| == |bs[d]|
    ensures forall d, k :: 0 <= d < |bs| && 0 <= k < |bs[d]| ==> r[d][k] == bs[d][k].(cntFrame := 0.0)
  {
    seq(|bs|, d requires 0 <= d < |bs| => seq(|bs[d]|, k requires 0 <= k < |bs[d]| => bs[d][k].(cntFrame := 0.0)))
  }

  /** The buckets of a freshly generated tree already have every counter at
      0, so the reset loop leaves them as they are. */
  lemma ResetFreshIsIdentity(p: Params, bs: seq<seq<Branch>>)
    requires FreshTree(p, bs)
    ensures ResetProgress(bs) == bs
  {
    forall d | 0 <= d < FullDepth
      ensures ResetProgress(bs)[d] == bs[d]
    {
      forall k | 0 <= k < |bs[d]|
        ensures ResetProgress(bs)[d][k] == bs[d][k]
      {
        assert Fresh(p, bs[d][k], d);
      }
    }
  }

  /** The generation parameters after the clamp. */
  function ParamsOf(pl: Plugin): Params
  {
    Params(ClampScale(pl.treeScale, pl.stageHeight), pl.branchWidth, pl.trig)
  }

  /** The random source a restart generates from: rewound in seeded mode,
      and with every draw of a whole tree still available. */
  predicate CanGenerate(pl: Plugin)
  {
    CanDraw(Rewind(pl.rng), Draws(0))
  }

  /** A whole tree takes `3 * (2^11 - 1) = 6141` draws. */
  lemma DrawsPerTree()
    ensures Draws(0) == 6141 < Lcg.TableSize
  {
    assert Pow2(FullDepth) == 2048;
  }

  /** The table of any seed holds the draws of a whole tree, so a seeded
      plugin can always regenerate, whatever its cursor. */
  lemma SeededCanGenerate(pl: Plugin, seed: int)
    requires pl.rng.Seeded? && pl.rng.values == Lcg.Table(seed)
    ensures CanGenerate(pl)
  {
    DrawsPerTree();
  }

  /** `startTree(posX, posY)` up to, but not including, its closing
      `animate()`: rewind the cursor in seeded mode, empty the buckets, reset
      `currentDepth` and `treeTop`, record the root, clamp the scale,
      generate the whole tree from `(posX, posY)` heading up, and reset every
      counter, which for freshly generated branches changes nothing. */
  function Restart(pl: Plugin, posX: real, posY: real): (r: Plugin)
    requires CanGenerate(pl)
    ensures r.currentDepth == 0 && r.treeX == posX && r.treeY == posY
    ensures r.treeScale == ClampScale(pl.treeScale, pl.stageHeight)
    ensures r.rng == Skip(Rewind(pl.rng), Draws(0))
    ensures r.buckets == GrowTree(ParamsOf(pl), Rewind(pl.rng), Point(posX, posY)).buckets
    ensures r.treeTop == GrowTree(ParamsOf(pl), Rewind(pl.rng), Point(posX, posY)).top
    ensures r.depth == pl.depth && r.growthSpeed == pl.growthSpeed && r.branchWidth == pl.branchWidth
    ensures r.paint == pl.paint && r.stageHeight == pl.stageHeight && r.trig == pl.trig
  {
    var g := GrowTree(ParamsOf(pl), Rewind(pl.rng), Point(posX, posY));
    TreeFresh(ParamsOf(pl), Rewind(pl.rng), Point(posX, posY));
    ResetFreshIsIdentity(ParamsOf(pl), g.buckets);
    pl.(rng := g.rng, buckets := ResetProgress(g.buckets), currentDepth := 0, treeTop := g.top,
        treeX := posX, treeY := posY, treeScale := ClampScale(pl.treeScale, pl.stageHeight))
  }

  /** A restart regenerates a whole tree rooted at `(posX, posY)` with the
      clamped scale: `fullDepth` buckets, bucket `d` holding `2^d` branches
      of width `(fullDepth - d) * branchWidth`, `frame = 100` and
      `cntFrame = 0`; the root alone in bucket 0; every other branch
      starting where its parent, branch `j / 2` one bucket up, ends; and
      `treeTop` finite, at or above both ends of every branch and equal to
      the `y` of one of them: the topmost branch end. */
  lemma RestartShape(pl: Plugin, posX: real, posY: real)
    requires CanGenerate(pl)
    ensures var r := Restart(pl, posX, posY);
      Shaped(ParamsOf(pl), Point(posX, posY), r.buckets, r.treeTop)
  {
    TreeShape(ParamsOf(pl), Rewind(pl.rng), Point(posX, posY));
  }

  /** The fields a frame reads from the plugin: the anchor, `treeTop` and
      the colour mode. */
  function SceneOf(pl: Plugin): Scene
  {
    Scene(pl.treeX, pl.treeY, pl.treeTop, pl.paint)
  }

  /** Every segment of the frame `animate` strokes for `pl` is in the
      configured solid colour, or in gradient mode uses the vertical
      gradient from `(x, y)` up to `(x, treeTop)`. */
  predicate StrokedFrom(pl: Plugin, x: real, y: real)
  {
    && pl.depth <= |pl.buckets| && Framed(pl.buckets)
    && var f := Frame(AnimState(pl), pl.depth, SceneOf(pl));
       && (pl.paint.GradientPaint? ==> forall i :: 0 <= i < |f| ==>
             f[i].style == Gradient(x, y, x, pl.treeTop, pl.paint.gradientStart, pl.paint.gradientEnd))
       && (pl.paint.SolidPaint? ==> forall i :: 0 <= i < |f| ==> f[i].style == Solid(pl.paint.color))
  }

  /** After a restart every segment `animate` strokes, at any display depth
      up to `fullDepth`, is in the configured solid colour, or in gradient
      mode uses the vertical gradient from the new anchor `(posX, posY)` up
      to `(posX, treeTop)`, where `treeTop` is the topmost branch end of the
      regenerated tree. */
  lemma RestartStyle(pl: Plugin, posX: real, posY: real)
    requires CanGenerate(pl) && pl.depth <= FullDepth
    ensures var r := Restart(pl, posX, posY);
      && Topped(r.treeTop, r.buckets)
      && r.paint == pl.paint
      && StrokedFrom(r, posX, posY)
  {
    // Only the fresh and topped parts of the tree's shape are needed: the
    // whole `Shaped` fact brings links and bucket sizes the proof never uses.
    var r := Restart(pl, posX, posY);
    TreeFresh(ParamsOf(pl), Rewind(pl.rng), Point(posX, posY));
    TreeTopped(ParamsOf(pl), Rewind(pl.rng), Point(posX, posY));
    FreshTreeValid(ParamsOf(pl), r.buckets, 0);
    FrameStyle(AnimState(r), r.depth, SceneOf(r));
  }

  /** In seeded mode a restart leaves the cursor at 6141, which
      `SeededCanGenerate` places inside every seed's table: generation never
      reads past its end. */
  lemma RestartCursor(pl: Plugin, posX: real, posY: real)
    requires pl.rng.Seeded? && CanGenerate(pl)
    ensures Restart(pl, posX, posY).rng.cursor == 6141
  {
    WholeTreeCursor(Rewind(pl.rng));
  }

  /** A rewound seeded source that has drawn a whole tree sits at 6141. */
  lemma WholeTreeCursor(rng: Rng)
    requires rng.Seeded? && rng.cursor == 0
    ensures Skip(rng, Draws(0)).cursor == 6141
  {
    DrawsPerTree();
  }

  /** Restarting a seeded plugin again, even after changing its colours,
      display depth or speed, regenerates the very same branches and top:
      the cursor is rewound and the clamped scale is clamped to itself. */
  lemma RestartReplays(pl: Plugin, posX: real, posY: real, paint: Paint, depth: int, speed: real)
    requires pl.rng.Seeded? && CanGenerate(pl)
    ensures var r := Restart(pl, posX, posY);
      var again := r.(paint := paint, depth := depth, growthSpeed := speed);
      && CanGenerate(again)
      && Restart(again, posX, posY).buckets == r.buckets
      && Restart(again, posX, posY).treeTop == r.treeTop
  {
    var r := Restart(pl, posX, posY);
    var again := r.(paint := paint, depth := depth, growthSpeed := speed);
    assert ParamsOf(again) == ParamsOf(pl) by {
      ClampIdempotent(pl.treeScale, pl.stageHeight);
    }
    SameSourceSameTree(pl, again, posX, posY);
  }

  /** Two plugins with the same rewound source and the same generation
      parameters restart to the same buckets and top. */
  lemma SameSourceSameTree(a: Plugin, b: Plugin, posX: real, posY: real)
    requires CanGenerate(a) && Rewind(a.rng) == Rewind(b.rng) && ParamsOf(a) == ParamsOf(b)
    ensures CanGenerate(b)
    ensures Restart(b, posX, posY).buckets == Restart(a, posX, posY).buckets
    ensures Restart(b, posX, posY).treeTop == Restart(a, posX, posY).treeTop
  {
  }

  /** The animation state of the plugin. */
  function AnimState(pl: Plugin): State
  {
    State(pl.currentDepth, pl.buckets)
  }

  /** A fresh tree, at level 0, is a valid animation state for any display
      depth within `fullDepth`, with every `frame` non-zero. */
  lemma FreshTreeValid(p: Params, bs: seq<seq<Branch>>, depth: int)
    requires FreshTree(p, bs) && 0 <= depth <= FullDepth
    ensures Valid(State(0, bs), depth) && Framed(bs)
  {
    forall d, k | 0 <= d < |bs| && 0 <= k < |bs[d]|
      ensures bs[d][k].frame == Frames && 0.0 <= bs[d][k].cntFrame
    {
      assert Fresh(p, bs[d][k], d);
    }
  }

  /** Valid states have a non-zero `frame` everywhere. */
  lemma ValidFramed(s: State, depth: int)
    requires Valid(s, depth)
    ensures Framed(s.buckets)
  {
  }

  /** `bs` with its lone root grown by `speed` frames. */
  function GrowRoot(bs: seq<seq<Branch>>, speed: real): seq<seq<Branch>>
    requires 0 < |bs| && 0 < |bs[0]|
  {
    bs[0 := [bs[0][0].(cntFrame := bs[0][0].cntFrame + speed)]]
  }

  /** The first `animate()` on a fresh tree: with a positive display depth
      it grows the lone root by `speed` frames, leaves every deeper bucket
      alone, stays at level 0 and reschedules; with display depth 0 it
      changes nothing and stops. */
  lemma FirstTick(p: Params, bs: seq<seq<Branch>>, depth: int, speed: real)
    requires |bs| == FullDepth && |bs[0]| == 1 && Fresh(p, bs[0][0], 0) && depth <= FullDepth
    ensures var t := Tick(State(0, bs), depth, speed);
      && (t.reschedule <==> 0 < depth)
      && t.state == State(0, if 0 < depth then GrowRoot(bs, speed) else bs)
  {
    var t := Tick(State(0, bs), depth, speed);
    if 0 < depth {
      assert !LevelDone(bs[0]);
      assert t.state.buckets[0] == GrowRoot(bs, speed)[0];
      assert t.state.buckets == GrowRoot(bs, speed);
    }
  }

  datatype Started = Started(plugin: Plugin, reschedule: bool)

  /** One call of `animate()` on the plugin: a tick of its animation state
      at its display depth and speed; nothing else changes. */
  function AnimateOnce(pl: Plugin): (r: Started)
    requires pl.depth <= |pl.buckets|
    ensures r.reschedule <==> pl.currentDepth < pl.depth
    ensures r.plugin == pl.(currentDepth := r.plugin.currentDepth, buckets := r.plugin.buckets)
  {
    var step := Tick(AnimState(pl), pl.depth, pl.growthSpeed);
    Started(pl.(currentDepth := step.state.currentDepth, buckets := step.state.buckets), step.reschedule)
  }

  /** `startTree(posX, posY)`: the restart, then the first `animate()`,
      which schedules another exactly when the display depth is positive. */
  function StartTree(pl: Plugin, posX: real, posY: real): (r: Started)
    requires CanGenerate(pl) && pl.depth <= FullDepth
    ensures r.reschedule <==> 0 < pl.depth
  {
    var s := Restart(pl, posX, posY);
    TreeBuckets(ParamsOf(pl), Rewind(pl.rng), Point(posX, posY));
    AnimateOnce(s)
  }

  /** After `startTree` the plugin is the restarted one except that, with a
      positive display depth, the root has grown by `growthSpeed` frames;
      the animation is still at level 0. */
  lemma StartTreeGrowsRoot(pl: Plugin, posX: real, posY: real)
    requires CanGenerate(pl) && pl.depth <= FullDepth
    ensures var s := Restart(pl, posX, posY);
      && |s.buckets| == FullDepth && |s.buckets[0]| == 1
      && StartTree(pl, posX, posY).plugin
         == s.(buckets := if 0 < pl.depth then GrowRoot(s.buckets, pl.growthSpeed) else s.buckets)
  {
    var s := Restart(pl, posX, posY);
    TreeRootFresh(ParamsOf(pl), Rewind(pl.rng), Point(posX, posY));
    FirstTick(ParamsOf(pl), s.buckets, s.depth, s.growthSpeed);
  }

  /** A fresh whole tree, as every restart generates (`RestartShape`),
      animated from level 0 at display depth `depth` within `fullDepth` and a
      positive speed, ends with `currentDepth = depth` after at most
      `depth * (ceil(100 / speed) + 1) + 1` calls of `animate`, every
      displayed level complete and the hidden ones untouched; its last frame
      strokes exactly the `2^depth - 1` displayed branches, each whole. */
  lemma TreeAnimates(p: Params, bs: seq<seq<Branch>>, depth: int, speed: real, sc: Scene)
    requires Sized(bs) && FreshTree(p, bs) && 0 <= depth <= FullDepth && speed > 0.0
    ensures Valid(State(0, bs), depth)
    ensures var f := Run(State(0, bs), depth, speed);
      && f.ticks <= depth * (FramesTicks(speed) + 1) + 1
      && f.state.currentDepth == depth
      && (forall d :: 0 <= d < depth ==> LevelDone(f.state.buckets[d]))
      && (forall d :: depth <= d < FullDepth ==> f.state.buckets[d] == bs[d])
      && Framed(f.state.buckets)
      && Frame(f.state, depth, sc) == Completed(f.state.buckets, depth, sc)
      && |Frame(f.state, depth, sc)| == Pow2(depth) - 1
  {
    FreshTreeValid(p, bs, depth);
    var f := Run(State(0, bs), depth, speed);
    ValidFramed(f.state, depth);
    FinishedFrame(f.state, depth, sc);
    CountPowers(f.state.buckets, depth);
  }

  /** The root branch of a restart starts at the anchor and reaches, along
      heading -90 degrees, `fullDepth * scale` times the first value drawn
      in [10, 13), with the clamped scale. */
  lemma RootEnd(pl: Plugin, posX: real, posY: real)
    requires CanGenerate(pl)
    ensures var bs := Restart(pl, posX, posY).buckets;
      var len := Mul(Random(Rewind(pl.rng), 10.0, 13.0).value, ClampScale(pl.treeScale, pl.stageHeight));
      && |bs| == FullDepth && |bs[0]| == 1
      && bs[0][0].start == Point(posX, posY)
      && bs[0][0].end == Reach(Point(posX, posY), pl.trig, -90.0, len, 11.0)
  {
    TreeRootEnd(ParamsOf(pl), Rewind(pl.rng), Point(posX, posY));
  }

  /** The first draw in [10, 13) of a rewound seed-42 source. */
  lemma Seed42Draw(rng: Rng, seed: int)
    requires seed == 42 && rng == FromSeed(seed)
    ensures CanDraw(rng, 1)
    ensures Random(rng, 10.0, 13.0).value == 10.0 + 705893.0 / 2147483646.0 * 3.0
  {
    Lcg.Seed42FirstValue();
  }

  /** Seed 42, anchor `(100, 200)`: a plugin seeded with 42 and restarted
      there has its root branch from `(100, 200)` heading up for
      `11 * clampedScale` times the first seed-42 draw from `[10, 13)`. */
  lemma Seed42Root(pl: Plugin, seed: int)
    requires seed == 42 && pl.rng.Seeded? && pl.rng.values == Lcg.Table(seed)
    ensures CanGenerate(pl)
    ensures var bs := Restart(pl, 100.0, 200.0).buckets;
      var len := Mul(10.0 + 705893.0 / 2147483646.0 * 3.0, ClampScale(pl.treeScale, pl.stageHeight));
      && |bs| == FullDepth && |bs[0]| == 1
      && bs[0][0].start == Point(100.0, 200.0)
      && bs[0][0].end == Reach(Point(100.0, 200.0), pl.trig, -90.0, len, 11.0)
  {
    SeededCanGenerate(pl, seed);
    assert Random(Rewind(pl.rng), 10.0, 13.0).value == 10.0 + 705893.0 / 2147483646.0 * 3.0 by {
      assert Rewind(pl.rng) == FromSeed(seed);
      Seed42Draw(Rewind(pl.rng), seed);
    }
    RootEnd(pl, 100.0, 200.0);
  }
}
