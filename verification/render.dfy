/** What one call of `animate` strokes on the canvas, as a list of line
    segments. The canvas calls themselves are not modelled; a segment records
    the endpoints, the width and the stroke style the source sets before
    `stroke()`. */
module Render {
  import opened RandomSource
  import opened Generator
  import opened Animation

  /** `colorMode`, with the colours each mode reads. */
  datatype Paint = SolidPaint(color: string) | GradientPaint(gradientStart: string, gradientEnd: string)

  /** A stroke style: a plain colour, or a vertical linear gradient from the
      tree root `(treeX, treeY)` up to `(treeX, treeTop)` with two colour
      stops. */
  datatype Style =
    | Solid(color: string)
    | Gradient(x0: real, y0: real, x1: real, top: Top, startColor: string, endColor: string)

  /** The plugin fields a frame reads besides the buckets. */
  datatype Scene = Scene(treeX: real, treeY: real, treeTop: Top, paint: Paint)

  datatype Segment = Segment(from: Point, to: Point, lineWidth: real, style: Style)

  /** The stroke style every segment of a frame uses. Its ensures only help
      the proofs; what a frame promises about its style is stated by
      `FrameStyle` and, for a restarted plugin, `TreePlugin.RestartStyle`. */
  function StrokeStyle(sc: Scene): (st: Style)
    ensures st.Solid? <==> sc.paint.SolidPaint?
    ensures sc.paint.SolidPaint? ==> st == Solid(sc.paint.color)
    ensures sc.paint.GradientPaint? ==>
      st == Gradient(sc.treeX, sc.treeY, sc.treeX, sc.treeTop, sc.paint.gradientStart, sc.paint.gradientEnd)
  {
    match sc.paint
    case SolidPaint(c) => Solid(c)
    case GradientPaint(a, b) => Gradient(sc.treeX, sc.treeY, sc.treeX, sc.treeTop, a, b)
  }

  /** A fully drawn branch: its whole length. */
  function Whole(b: Branch, sc: Scene): Segment
  {
    Segment(b.start, b.end, b.lineWidth, StrokeStyle(sc))
  }

  /** `cntFrame / frame`. */
  function Progress(b: Branch): real
    requires b.frame != 0.0
  {
    b.cntFrame / b.frame
  }

  /** A growing branch: from its start to the point `progress` of the way to
      its end. */
  function Partial(b: Branch, sc: Scene): Segment
    requires b.frame != 0.0
  {
    var p := Progress(b);
    Segment(b.start, Point(b.start.x + Mul(b.end.x - b.start.x, p), b.start.y + Mul(b.end.y - b.start.y, p)),
            b.lineWidth, StrokeStyle(sc))
  }

  /** Every branch has a non-zero `frame`, so progress is defined. */
  predicate Framed(bs: seq<seq<Branch>>)
  {
    forall d, k :: 0 <= d < |bs| && 0 <= k < |bs[d]| ==> bs[d][k].frame != 0.0
  }

  /** The first loop of `animate`: every branch of the levels below
      `min(currentDepth, depth)`, drawn whole, level by level. */
  function Completed(bs: seq<seq<Branch>>, n: nat, sc: Scene): (r: seq<Segment>)
    requires n <= |bs|
    ensures |r| == Count(bs, n)
    ensures forall i :: 0 <= i < |r| ==> r[i].style == StrokeStyle(sc)
  {
    if n == 0 then []
    else Completed(bs, n - 1, sc) + seq(|bs[n - 1]|, k requires 0 <= k < |bs[n - 1]| => Whole(bs[n - 1][k], sc))
  }

  /** Number of branches in the levels below `n`. */
  function Count(bs: seq<seq<Branch>>, n: nat): nat
    requires n <= |bs|
  {
    if n == 0 then 0 else Count(bs, n - 1) + |bs[n - 1]|
  }

  /** Branch `k` of a completed level `d` is stroked whole, at position
      `Count(bs, d) + k`: the levels are drawn one after the other, each in
      bucket order. */
  lemma {:induction false} CompletedAt(bs: seq<seq<Branch>>, n: nat, sc: Scene, d: nat, k: nat)
    requires d < n <= |bs| && k < |bs[d]|
    ensures Count(bs, d) + k < |Completed(bs, n, sc)|
    ensures Completed(bs, n, sc)[Count(bs, d) + k] == Whole(bs[d][k], sc)
  {
    if d < n - 1 {
      CompletedAt(bs, n - 1, sc, d, k);
    }
  }

  /** The second loop of `animate`: the current level, the unfinished
      branches drawn partially (before their counter moves) and the finished
      ones whole. Its ensures only help the proofs; how a frame relates to
      `animate`'s state is stated by `CurrentMatchesTick`. */
  function Current(bs: seq<Branch>, sc: Scene): (r: seq<Segment>)
    requires forall k :: 0 <= k < |bs| ==> bs[k].frame != 0.0
    ensures |r| == |bs|
    ensures forall k :: 0 <= k < |bs| ==>
      r[k] == if bs[k].cntFrame < bs[k].frame then Partial(bs[k], sc) else Whole(bs[k], sc)
    ensures forall i :: 0 <= i < |r| ==> r[i].style == StrokeStyle(sc)
  {
    seq(|bs|, k requires 0 <= k < |bs| => if bs[k].cntFrame < bs[k].frame then Partial(bs[k], sc) else Whole(bs[k], sc))
  }

  /** Where branch `k` of level `d` lands in a frame: after every branch of
      the levels below `d`. */
  function Slot(bs: seq<seq<Branch>>, d: nat, k: nat): nat
    requires d <= |bs|
  {
    Count(bs, d) + k
  }

  /** Every branch of the completed levels below `n`, at the position
      `CompletedAt` gives it. */
  lemma {:induction false} CompletedOrder(bs: seq<seq<Branch>>, n: nat, sc: Scene)
    requires n <= |bs|
    ensures forall d: nat, k: nat :: d < n && k < |bs[d]| ==>
      Slot(bs, d, k) < |Completed(bs, n, sc)| && Completed(bs, n, sc)[Slot(bs, d, k)] == Whole(bs[d][k], sc)
  {
    forall d: nat, k: nat | d < n && k < |bs[d]|
      ensures Slot(bs, d, k) < |Completed(bs, n, sc)| && Completed(bs, n, sc)[Slot(bs, d, k)] == Whole(bs[d][k], sc)
    {
      CompletedAt(bs, n, sc, d, k);
    }
  }

  /** How many levels the first loop of `animate` strokes: `d` counts up from
      0 while it is below both `currentDepth` and `depth`, so none when
      `depth` is 0 or below. */
  function Levels(currentDepth: nat, depth: int): (n: nat)
    ensures n <= currentDepth && (depth >= 0 ==> n <= depth)
    ensures depth <= 0 ==> n == 0
    ensures depth > 0 ==> n == currentDepth || n == depth
  {
    if depth <= 0 then 0 else Min(currentDepth, depth)
  }

  /** Everything one call of `animate` strokes, in order: level by level the
      completed levels, each branch whole in bucket order, then, while
      `currentDepth < depth`, the current level with its unfinished branches
      partial and its finished ones whole. */
  function Frame(s: State, depth: int, sc: Scene): (r: seq<Segment>)
    requires depth <= |s.buckets| && Framed(s.buckets)
    ensures |r| == Count(s.buckets, Levels(s.currentDepth, depth)) + (if s.currentDepth < depth then |s.buckets[s.currentDepth]| else 0)
    ensures forall i :: 0 <= i < |r| ==> r[i].style == StrokeStyle(sc)
    ensures forall d: nat, k: nat :: d < Levels(s.currentDepth, depth) && k < |s.buckets[d]| ==>
      Slot(s.buckets, d, k) < |r| && r[Slot(s.buckets, d, k)] == Whole(s.buckets[d][k], sc)
    ensures s.currentDepth < depth ==> forall k :: 0 <= k < |s.buckets[s.currentDepth]| ==>
      r[Slot(s.buckets, s.currentDepth, k)] ==
        if s.buckets[s.currentDepth][k].cntFrame < s.buckets[s.currentDepth][k].frame
        then Partial(s.buckets[s.currentDepth][k], sc)
        else Whole(s.buckets[s.currentDepth][k], sc)
  {
    var n := Levels(s.currentDepth, depth);
    var current := if s.currentDepth < depth then Current(s.buckets[s.currentDepth], sc) else [];
    CompletedFirst(s.buckets, n, sc, current);
    Completed(s.buckets, n, sc) + current
  }

  /** Whatever follows the completed levels, they keep their positions. */
  lemma {:induction false} CompletedFirst(bs: seq<seq<Branch>>, n: nat, sc: Scene, rest: seq<Segment>)
    requires n <= |bs|
    ensures forall d: nat, k: nat :: d < n && k < |bs[d]| ==>
      Slot(bs, d, k) < |Completed(bs, n, sc) + rest| && (Completed(bs, n, sc) + rest)[Slot(bs, d, k)] == Whole(bs[d][k], sc)
  {
    CompletedOrder(bs, n, sc);
  }

  /** In gradient mode every segment of a frame uses the vertical gradient
      from the scene's root `(treeX, treeY)` to `(treeX, treeTop)`; in solid
      mode the configured colour. */
  lemma FrameStyle(s: State, depth: int, sc: Scene)
    requires depth <= |s.buckets| && Framed(s.buckets)
    ensures sc.paint.GradientPaint? ==> forall i :: 0 <= i < |Frame(s, depth, sc)| ==>
      Frame(s, depth, sc)[i].style == Gradient(sc.treeX, sc.treeY, sc.treeX, sc.treeTop, sc.paint.gradientStart, sc.paint.gradientEnd)
    ensures sc.paint.SolidPaint? ==> forall i :: 0 <= i < |Frame(s, depth, sc)| ==>
      Frame(s, depth, sc)[i].style == Solid(sc.paint.color)
  {
  }

  function Min(a: int, b: int): int
  {
    if a < b then a else b
  }

  /** The drawn fraction of a branch whose counter is not negative and below
      its positive `frame` lies in `[0, 1)`, so a partial segment ends on the
      branch, short of its end. */
  lemma ProgressInUnitInterval(b: Branch)
    requires 0.0 < b.frame && 0.0 <= b.cntFrame < b.frame
    ensures 0.0 <= Progress(b) < 1.0
  {
    var p := Progress(b);
    assert p * b.frame == b.cntFrame;
    Sign(p, b.frame);
    assert (p - 1.0) * b.frame == b.cntFrame - b.frame;
    Sign(p - 1.0, b.frame);
  }

  lemma Sign(x: real, f: real)
    requires f > 0.0
    ensures x * f >= 0.0 ==> x >= 0.0
    ensures x * f < 0.0 ==> x < 0.0
  {
  }

  /** Once the animation has reached `depth`, a frame strokes exactly the
      completed levels below `depth`, each branch whole (see `CompletedAt`),
      and nothing partial; with a `depth` of 0 or below it strokes nothing. */
  lemma {:induction false} FinishedFrame(s: State, depth: int, sc: Scene)
    requires depth <= |s.buckets| && Framed(s.buckets) && s.currentDepth >= depth
    ensures Frame(s, depth, sc) == Completed(s.buckets, Levels(s.currentDepth, depth), sc)
    ensures |Frame(s, depth, sc)| == if depth <= 0 then 0 else Count(s.buckets, depth)
  {
  }

  /** With a display depth of 0 or below the first `animate` strokes nothing,
      changes nothing and does not reschedule itself, whatever the speed. */
  lemma NoDepthNoFrame(s: State, depth: int, speed: real, sc: Scene)
    requires depth <= 0 && Framed(s.buckets)
    ensures Frame(s, depth, sc) == []
    ensures Tick(s, depth, speed) == Tock(s, false)
  {
  }

  /** The second loop of `animate` and the tick it performs agree: a branch
      of the current level that the tick advances is stroked partially, at a
      progress in `[0, 1)`, and one it leaves alone is stroked whole. */
  lemma CurrentMatchesTick(s: State, depth: int, speed: real, sc: Scene)
    requires Valid(s, depth) && s.currentDepth < depth && speed > 0.0
    ensures var level := s.buckets[s.currentDepth];
      var next := Tick(s, depth, speed).state.buckets[s.currentDepth];
      && (forall k :: 0 <= k < |level| ==> level[k].frame != 0.0)
      && forall k :: 0 <= k < |level| ==>
        && (next[k].cntFrame > level[k].cntFrame || next[k] == level[k])
        && (next[k].cntFrame > level[k].cntFrame ==>
              Current(level, sc)[k] == Partial(level[k], sc) && 0.0 <= Progress(level[k]) < 1.0)
        && (next[k] == level[k] ==> Current(level, sc)[k] == Whole(level[k], sc))
  {
    var level := s.buckets[s.currentDepth];
    forall k | 0 <= k < |level| && level[k].cntFrame < level[k].frame
      ensures 0.0 <= Progress(level[k]) < 1.0
    {
      ProgressInUnitInterval(level[k]);
    }
  }

  /** A bucket layout of a generated tree, `2^d` branches at level `d`, puts
      `2^n - 1` branches below level `n`. */
  lemma {:induction false} CountPowers(bs: seq<seq<Branch>>, n: nat)
    requires n <= |bs|
    requires forall d :: 0 <= d < |bs| ==> |bs[d]| == Pow2(d)
    ensures Count(bs, n) == Pow2(n) - 1
  {
    if n > 0 {
      CountPowers(bs, n - 1);
    }
  }
}
