/** `createBranch`: the recursive generator that fills one bucket of branches
    per depth level, in pre-order, drawing from the random source. */
module Generator {
  import opened RandomSource

  /** Depth of the complete internal tree structure. */
  const FullDepth: nat := 11
  /** Animation length of every branch, in frames. */
  const Frames: real := 100.0
  /** `Math.PI`. */
  const Pi: real := 3.141592653589793

  datatype Point = Point(x: real, y: real)

  /** A generated branch: fixed geometry and width, plus the animation
      counter `cntFrame` that only the scheduler advances. */
  datatype Branch = Branch(start: Point, end: Point, lineWidth: real, frame: real, cntFrame: real)

  /** The host's `Math.cos` and `Math.sin` (arguments in radians). They are
      parameters: nothing below depends on their values. */
  datatype Trig = Trig(cos: real -> real, sin: real -> real)

  /** `treeTop`: starts at `Infinity` and only ever moves down. */
  datatype Top = Infinity | Finite(y: real)

  /** `t` lies at or above `u` on the canvas (smaller y is higher). */
  predicate AtOrAbove(t: Top, u: Top)
  {
    u.Infinity? || (t.Finite? && t.y <= u.y)
  }

  /** The y-coordinate `y` lies at or below the top `t`. */
  predicate Bounds(t: Top, y: real)
  {
    t.Finite? && t.y <= y
  }

  /** `if (y < this.treeTop) this.treeTop = y`. */
  function Lower(t: Top, y: real): (r: Top)
    ensures Bounds(r, y) && AtOrAbove(r, t)
    ensures r == t || r == Finite(y)
  {
    if t.Infinity? || y < t.y then Finite(y) else t
  }

  /** Generation parameters read by `createBranch`: the (clamped) scale, the
      width factor and the host trigonometry. */
  datatype Params = Params(scale: real, branchWidth: real, trig: Trig)

  /** The mutable plugin state `createBranch` threads: the random cursor, the
      depth buckets and `treeTop`. */
  datatype Gen = Gen(rng: Rng, buckets: seq<seq<Branch>>, top: Top)

  function Pow2(n: nat): (r: nat)
    ensures r >= 1
  {
    if n == 0 then 1 else 2 * Pow2(n - 1)
  }

  /** Number of random draws a call at `depth` makes, its descendants included. */
  function Draws(depth: nat): nat
    requires depth <= FullDepth
  {
    3 * (Pow2(FullDepth - depth) - 1)
  }

  /** Number of branches a call at `depth` adds to bucket `d`. */
  function Added(depth: nat, d: nat): nat
  {
    if depth <= d then Pow2(d - depth) else 0
  }

  /** A call adds one branch to its own bucket and, through its two children,
      twice what a call one level deeper adds to every bucket. */
  lemma AddedSplit(depth: nat)
    ensures forall d: nat :: Added(depth, d) == (if d == depth then 1 else 0) + 2 * Added(depth + 1, d)
  {
    forall d: nat
      ensures Added(depth, d) == (if d == depth then 1 else 0) + 2 * Added(depth + 1, d)
    {
      if depth < d {
        assert Pow2(d - depth) == 2 * Pow2(d - (depth + 1));
      }
    }
  }

  /** `degToRad`. */
  function DegToRad(deg: real): real
  {
    deg * (Pi / 180.0)
  }

  /** The point `length * factor` away from `start` along the heading
      `angle`, in degrees (y grows downwards, so -90 points up). */
  function Reach(start: Point, trig: Trig, angle: real, length: real, factor: real): Point
  {
    var rad := DegToRad(angle);
    Point(start.x + trig.cos(rad) * length * factor, start.y + trig.sin(rad) * length * factor)
  }

  /** What a call at `depth` needs: a depth within the structure, one bucket
      per level and enough values left for all of its draws. */
  predicate Ready(g: Gen, depth: nat)
  {
    depth <= FullDepth && |g.buckets| == FullDepth && CanDraw(g.rng, Draws(depth))
  }

  /** From `b0` to `b1` every bucket only grew at its end, bucket `d` by
      exactly what a call at `depth` adds to it. */
  predicate Grows(b0: seq<seq<Branch>>, b1: seq<seq<Branch>>, depth: nat)
  {
    && |b0| == FullDepth && |b1| == FullDepth
    && forall d :: 0 <= d < FullDepth ==> |b1[d]| == |b0[d]| + Added(depth, d) && b0[d] <= b1[d]
  }

  /** A branch as `createBranch` builds it at depth `d`. */
  predicate Fresh(p: Params, b: Branch, d: nat)
    requires d <= FullDepth
  {
    b.lineWidth == Mul((FullDepth - d) as real, p.branchWidth) && b.frame == Frames && b.cntFrame == 0.0
  }

  /** Every branch that is in `b1` but not in `b0` is as `createBranch`
      builds it for its bucket. */
  predicate AllFresh(p: Params, b0: seq<seq<Branch>>, b1: seq<seq<Branch>>)
    requires |b0| == |b1| == FullDepth
  {
    forall d, j :: 0 <= d < FullDepth && |b0[d]| <= j < |b1[d]| ==> Fresh(p, b1[d][j], d)
  }

  /** Every branch that is in `b1` but not in `b0` lies at or below `top`. */
  predicate AllUnder(top: Top, b0: seq<seq<Branch>>, b1: seq<seq<Branch>>)
    requires |b0| == |b1| == FullDepth
  {
    forall d, j :: 0 <= d < FullDepth && |b0[d]| <= j < |b1[d]| ==>
      Bounds(top, b1[d][j].start.y) && Bounds(top, b1[d][j].end.y)
  }

  /** `top` is finite and equals the y of the start or the end of some
      branch that is in `b1` but not in `b0`. */
  predicate Attained(top: Top, b0: seq<seq<Branch>>, b1: seq<seq<Branch>>)
    requires |b0| == |b1| == FullDepth
  {
    top.Finite? &&
    exists d, j :: 0 <= d < FullDepth && |b0[d]| <= j < |b1[d]| &&
      (top.y == b1[d][j].start.y || top.y == b1[d][j].end.y)
  }

  /** Every branch a call at `depth` added below its own level starts where
      its parent ends: the new branches of bucket `d` pair up, in order,
      under the new branches of bucket `d - 1`. */
  predicate Chained(b0: seq<seq<Branch>>, b1: seq<seq<Branch>>, depth: nat)
    requires |b0| == |b1| == FullDepth
  {
    forall d, j {:trigger b1[d][j]} :: depth < d < FullDepth && |b0[d]| <= j < |b1[d]| ==>
      Parent(b0, d, j) < |b1[d - 1]| && b1[d][j].start == b1[d - 1][Parent(b0, d, j)].end
  }

  /** Where, in bucket `d - 1`, the parent of the `j`-th branch of bucket `d`
      sits, when both buckets held the branches of `b0` before a call. */
  function Parent(b0: seq<seq<Branch>>, d: nat, j: int): int
    requires 0 < d < |b0|
  {
    |b0[d - 1]| + (j - |b0[d]|) / 2
  }

  datatype Sprout = Sprout(g: Gen, end: Point)

  /** The non-recursive part of one call below `FullDepth`: draw the length
      (longer for the trunk), compute the end point tapered by the remaining
      depth, lower `treeTop` and push the branch onto its bucket. */
  function Node(p: Params, g: Gen, start: Point, angle: real, depth: nat): (n: Sprout)
    requires depth < FullDepth && |g.buckets| == FullDepth && CanDraw(g.rng, 1)
    ensures n.g.rng == Skip(g.rng, 1)
    ensures |n.g.buckets| == FullDepth
    ensures forall d :: 0 <= d < FullDepth && d != depth ==> n.g.buckets[d] == g.buckets[d]
    ensures |n.g.buckets[depth]| == |g.buckets[depth]| + 1
    ensures g.buckets[depth] <= n.g.buckets[depth]
    ensures var b := n.g.buckets[depth][|g.buckets[depth]|];
      b.start == start && b.end == n.end && Fresh(p, b, depth)
      && Bounds(n.g.top, start.y) && Bounds(n.g.top, n.end.y)
    ensures AtOrAbove(n.g.top, g.top)
  {
    var len := Random(g.rng, if depth == 0 then 10.0 else 0.0, if depth == 0 then 13.0 else 11.0);
    var length := Mul(len.value, p.scale);
    var factor := (FullDepth - depth) as real;
    var end := Reach(start, p.trig, angle, length, factor);
    var b := Branch(start, end, Mul(factor, p.branchWidth), Frames, 0.0);
    Sprout(Gen(len.rng, g.buckets[depth := g.buckets[depth] + [b]], Lower(Lower(g.top, start.y), end.y)), end)
  }

  /** The input of the left child: the state after the node, with the left
      heading's offset drawn. */
  function LeftIn(p: Params, g: Gen, start: Point, angle: real, depth: nat): (r: Gen)
    requires depth < FullDepth && |g.buckets| == FullDepth && CanDraw(g.rng, 2)
    ensures r.rng == Skip(g.rng, 2)
    ensures r.buckets == Node(p, g, start, angle, depth).g.buckets
    ensures r.top == Node(p, g, start, angle, depth).g.top
  {
    var n := Node(p, g, start, angle, depth);
    SkipSkip(g.rng, 1, 1);
    n.g.(rng := Random(n.g.rng, 15.0, 23.0).rng)
  }

  /** `angle - random(15, 23)`, the heading of the left child. */
  function LeftAngle(p: Params, g: Gen, start: Point, angle: real, depth: nat): real
    requires depth < FullDepth && |g.buckets| == FullDepth && CanDraw(g.rng, 2)
  {
    var n := Node(p, g, start, angle, depth);
    angle - Random(n.g.rng, 15.0, 23.0).value
  }

  /** The input of the right child: the state after the left child, with the
      right heading's offset drawn. */
  function RightIn(gl: Gen): (r: Gen)
    requires CanDraw(gl.rng, 1)
    ensures r.rng == Skip(gl.rng, 1) && r.buckets == gl.buckets && r.top == gl.top
  {
    gl.(rng := Random(gl.rng, 15.0, 23.0).rng)
  }

  /** `angle + random(15, 23)`, the heading of the right child. */
  function RightAngle(angle: real, gl: Gen): real
    requires CanDraw(gl.rng, 1)
  {
    angle + Random(gl.rng, 15.0, 23.0).value
  }

  /** `createBranch(startX, startY, angle, depth)`: stops at `FullDepth`;
      otherwise pushes one branch and recurses into a left child (heading
      minus a draw in [15, 23)) and then a right child (heading plus a draw),
      both starting where this branch ends. The call reads exactly
      `Draws(depth)` values, and each bucket only grows at its end, bucket
      `d` by `2^(d - depth)`. */
  function CreateBranch(p: Params, g: Gen, start: Point, angle: real, depth: nat): (r: Gen)
    requires Ready(g, depth)
    ensures r.rng == Skip(g.rng, Draws(depth))
    ensures Grows(g.buckets, r.buckets, depth)
    decreases FullDepth - depth
  {
    if depth == FullDepth then
      assert forall d :: 0 <= d < FullDepth ==> g.buckets[d] <= g.buckets[d];
      g
    else
      DrawsSplit(depth);
      var n := Node(p, g, start, angle, depth);
      var gl := CreateBranch(p, LeftIn(p, g, start, angle, depth), n.end, LeftAngle(p, g, start, angle, depth), depth + 1);
      var gr := CreateBranch(p, RightIn(gl), n.end, RightAngle(angle, gl), depth + 1);
      SkipTree(g.rng, depth);
      GrowsCompose(g.buckets, n.g.buckets, gl.buckets, gr.buckets, depth);
      gr
  }

  /** The node's two draws, the left child's, the right heading's draw and
      the right child's make up the draws of the whole call. */
  lemma SkipTree(rng: Rng, depth: nat)
    requires depth < FullDepth
    ensures Skip(Skip(Skip(Skip(rng, 2), Draws(depth + 1)), 1), Draws(depth + 1)) == Skip(rng, Draws(depth))
  {
    DrawsSplit(depth);
  }

  /** A call below `FullDepth` draws three values itself and the rest in its
      two children. */
  lemma DrawsSplit(depth: nat)
    requires depth < FullDepth
    ensures Draws(depth) == 3 + 2 * Draws(depth + 1)
  {
    assert Pow2(FullDepth - depth) == 2 * Pow2(FullDepth - (depth + 1));
  }

  /** One step of `CreateBranch` below `FullDepth`: both children can draw
      what they need, and the result is the right child's, grown from the
      left child's. */
  lemma Unfold(p: Params, g: Gen, start: Point, angle: real, depth: nat)
    requires Ready(g, depth) && depth < FullDepth
    ensures CanDraw(g.rng, 2)
    ensures Ready(LeftIn(p, g, start, angle, depth), depth + 1)
    ensures var gl := CreateBranch(p, LeftIn(p, g, start, angle, depth), Node(p, g, start, angle, depth).end, LeftAngle(p, g, start, angle, depth), depth + 1);
      && CanDraw(gl.rng, 1) && Ready(RightIn(gl), depth + 1)
      && CreateBranch(p, g, start, angle, depth) == CreateBranch(p, RightIn(gl), Node(p, g, start, angle, depth).end, RightAngle(angle, gl), depth + 1)
  {
    DrawsSplit(depth);
  }

  lemma PrefixAt<T>(a: seq<T>, b: seq<T>, j: nat)
    requires a <= b && j < |a|
    ensures b[j] == a[j]
  {
    assert a == b[..|a|];
  }

  lemma PrefixTrans<T>(a: seq<T>, b: seq<T>, c: seq<T>)
    requires a <= b && b <= c
    ensures a <= c
  {
    assert a == b[..|a|];
    assert b == c[..|b|];
    assert c[..|b|][..|a|] == c[..|a|];
  }

  /** The one branch `Node` adds is fresh and at or below the new top. */
  lemma NodeNew(p: Params, g: Gen, start: Point, angle: real, depth: nat)
    requires depth < FullDepth && |g.buckets| == FullDepth && CanDraw(g.rng, 1)
    ensures var n := Node(p, g, start, angle, depth);
      && AllFresh(p, g.buckets, n.g.buckets)
      && AllUnder(n.g.top, g.buckets, n.g.buckets)
  {
  }

  /** Bucket growth composes over the node and its two children. */
  lemma GrowsCompose(b0: seq<seq<Branch>>, b1: seq<seq<Branch>>, b2: seq<seq<Branch>>, b3: seq<seq<Branch>>, depth: nat)
    requires depth < FullDepth
    requires |b0| == FullDepth && |b1| == FullDepth
    requires forall d :: 0 <= d < FullDepth && d != depth ==> b1[d] == b0[d]
    requires |b1[depth]| == |b0[depth]| + 1 && b0[depth] <= b1[depth]
    requires Grows(b1, b2, depth + 1) && Grows(b2, b3, depth + 1)
    ensures Grows(b0, b3, depth)
  {
    AddedSplit(depth);
    forall d | 0 <= d < FullDepth
      ensures b0[d] <= b3[d]
    {
      PrefixTrans(b0[d], b1[d], b2[d]);
      PrefixTrans(b0[d], b2[d], b3[d]);
    }
  }

  /** Every branch a call creates has `lineWidth = (FullDepth - d) * branchWidth`,
      `frame = 100` and `cntFrame = 0`, where `d` is the bucket it lands in. */
  lemma {:induction false} FreshBranches(p: Params, g: Gen, start: Point, angle: real, depth: nat)
    requires Ready(g, depth)
    ensures AllFresh(p, g.buckets, CreateBranch(p, g, start, angle, depth).buckets)
    decreases FullDepth - depth, 1
  {
    if depth < FullDepth {
      Unfold(p, g, start, angle, depth);
      var n := Node(p, g, start, angle, depth);
      var gl := CreateBranch(p, LeftIn(p, g, start, angle, depth), n.end, LeftAngle(p, g, start, angle, depth), depth + 1);
      var gr := CreateBranch(p, RightIn(gl), n.end, RightAngle(angle, gl), depth + 1);
      FreshChildren(p, g, start, angle, depth);
      NodeNew(p, g, start, angle, depth);
      FreshCompose(p, g.buckets, n.g.buckets, gl.buckets, gr.buckets);
    }
  }

  /** The two children of a call below `FullDepth` create only fresh branches. */
  lemma {:induction false} FreshChildren(p: Params, g: Gen, start: Point, angle: real, depth: nat)
    requires Ready(g, depth) && depth < FullDepth
    ensures CanDraw(g.rng, 2) && Ready(LeftIn(p, g, start, angle, depth), depth + 1)
    ensures var n := Node(p, g, start, angle, depth);
      var gl := CreateBranch(p, LeftIn(p, g, start, angle, depth), n.end, LeftAngle(p, g, start, angle, depth), depth + 1);
      && CanDraw(gl.rng, 1) && Ready(RightIn(gl), depth + 1)
      && AllFresh(p, n.g.buckets, gl.buckets)
      && AllFresh(p, gl.buckets, CreateBranch(p, RightIn(gl), n.end, RightAngle(angle, gl), depth + 1).buckets)
    decreases FullDepth - depth, 0
  {
    Unfold(p, g, start, angle, depth);
    var n := Node(p, g, start, angle, depth);
    var gi := LeftIn(p, g, start, angle, depth);
    var gl := CreateBranch(p, gi, n.end, LeftAngle(p, g, start, angle, depth), depth + 1);
    FreshBranches(p, gi, n.end, LeftAngle(p, g, start, angle, depth), depth + 1);
    FreshBranches(p, RightIn(gl), n.end, RightAngle(angle, gl), depth + 1);
  }

  /** After a call `treeTop` is at or above where it was, finite once a
      branch was made, and at or above the start and end of every branch the
      call created; unless it kept its old value, it is the y of one of those
      ends, so it is their minimum. */
  lemma {:induction false} TopBoundsBranches(p: Params, g: Gen, start: Point, angle: real, depth: nat)
    requires Ready(g, depth)
    ensures var r := CreateBranch(p, g, start, angle, depth);
      && AtOrAbove(r.top, g.top)
      && (depth < FullDepth ==> r.top.Finite?)
      && AllUnder(r.top, g.buckets, r.buckets)
      && (r.top == g.top || Attained(r.top, g.buckets, r.buckets))
    decreases FullDepth - depth, 1
  {
    TopAttained(p, g, start, angle, depth);
    if depth < FullDepth {
      Unfold(p, g, start, angle, depth);
      var n := Node(p, g, start, angle, depth);
      var gl := CreateBranch(p, LeftIn(p, g, start, angle, depth), n.end, LeftAngle(p, g, start, angle, depth), depth + 1);
      var gr := CreateBranch(p, RightIn(gl), n.end, RightAngle(angle, gl), depth + 1);
      TopChildren(p, g, start, angle, depth);
      NodeNew(p, g, start, angle, depth);
      TopWeaken(g.buckets, n.g.buckets, n.g.top, gr.top);
      TopWeaken(n.g.buckets, gl.buckets, gl.top, gr.top);
      UnderCompose(gr.top, g.buckets, n.g.buckets, gl.buckets, gr.buckets);
    }
  }

  /** The two children of a call below `FullDepth` each keep `treeTop` at or
      above where they found it and bound the branches they create. */
  lemma {:induction false} TopChildren(p: Params, g: Gen, start: Point, angle: real, depth: nat)
    requires Ready(g, depth) && depth < FullDepth
    ensures CanDraw(g.rng, 2) && Ready(LeftIn(p, g, start, angle, depth), depth + 1)
    ensures var n := Node(p, g, start, angle, depth);
      var gl := CreateBranch(p, LeftIn(p, g, start, angle, depth), n.end, LeftAngle(p, g, start, angle, depth), depth + 1);
      && CanDraw(gl.rng, 1) && Ready(RightIn(gl), depth + 1)
      && var gr := CreateBranch(p, RightIn(gl), n.end, RightAngle(angle, gl), depth + 1);
      && AtOrAbove(gl.top, n.g.top) && AtOrAbove(gr.top, gl.top)
      && AllUnder(gl.top, n.g.buckets, gl.buckets)
      && AllUnder(gr.top, gl.buckets, gr.buckets)
    decreases FullDepth - depth, 0
  {
    Unfold(p, g, start, angle, depth);
    var n := Node(p, g, start, angle, depth);
    var gi := LeftIn(p, g, start, angle, depth);
    var gl := CreateBranch(p, gi, n.end, LeftAngle(p, g, start, angle, depth), depth + 1);
    TopBoundsBranches(p, gi, n.end, LeftAngle(p, g, start, angle, depth), depth + 1);
    TopBoundsBranches(p, RightIn(gl), n.end, RightAngle(angle, gl), depth + 1);
  }

  /** After a call `treeTop` either kept its old value or is the y of an
      end of a branch the call created: the guarded assignments only ever
      store such a y. */
  lemma {:induction false} TopAttained(p: Params, g: Gen, start: Point, angle: real, depth: nat)
    requires Ready(g, depth)
    ensures var r := CreateBranch(p, g, start, angle, depth);
      r.top == g.top || Attained(r.top, g.buckets, r.buckets)
    decreases FullDepth - depth, 1
  {
    if depth < FullDepth {
      Unfold(p, g, start, angle, depth);
      var n := Node(p, g, start, angle, depth);
      var gl := CreateBranch(p, LeftIn(p, g, start, angle, depth), n.end, LeftAngle(p, g, start, angle, depth), depth + 1);
      var gr := CreateBranch(p, RightIn(gl), n.end, RightAngle(angle, gl), depth + 1);
      TopAttainedChildren(p, g, start, angle, depth);
      NodeTop(p, g, start, angle, depth);
      if gr.top != g.top {
        if gr.top != gl.top {
          assert Attained(gr.top, gl.buckets, gr.buckets);
        } else if gl.top != n.g.top {
          assert Attained(gr.top, n.g.buckets, gl.buckets);
        } else {
          assert Attained(gr.top, g.buckets, n.g.buckets);
        }
        AttainedCompose(gr.top, g.buckets, n.g.buckets, gl.buckets, gr.buckets);
      }
    }
  }

  /** The two children of a call below `FullDepth` each leave `treeTop` as
      they found it or at an end of a branch they created. */
  lemma {:induction false} TopAttainedChildren(p: Params, g: Gen, start: Point, angle: real, depth: nat)
    requires Ready(g, depth) && depth < FullDepth
    ensures CanDraw(g.rng, 2) && Ready(LeftIn(p, g, start, angle, depth), depth + 1)
    ensures var n := Node(p, g, start, angle, depth);
      var gl := CreateBranch(p, LeftIn(p, g, start, angle, depth), n.end, LeftAngle(p, g, start, angle, depth), depth + 1);
      && CanDraw(gl.rng, 1) && Ready(RightIn(gl), depth + 1)
      && var gr := CreateBranch(p, RightIn(gl), n.end, RightAngle(angle, gl), depth + 1);
      && (gl.top == n.g.top || Attained(gl.top, n.g.buckets, gl.buckets))
      && (gr.top == gl.top || Attained(gr.top, gl.buckets, gr.buckets))
    decreases FullDepth - depth, 0
  {
    Unfold(p, g, start, angle, depth);
    var n := Node(p, g, start, angle, depth);
    var gi := LeftIn(p, g, start, angle, depth);
    var gl := CreateBranch(p, gi, n.end, LeftAngle(p, g, start, angle, depth), depth + 1);
    TopAttained(p, gi, n.end, LeftAngle(p, g, start, angle, depth), depth + 1);
    TopAttained(p, RightIn(gl), n.end, RightAngle(angle, gl), depth + 1);
  }

  /** The node's two guarded assignments leave `treeTop` as it was or at an
      end of the one branch it pushes. */
  lemma NodeTop(p: Params, g: Gen, start: Point, angle: real, depth: nat)
    requires depth < FullDepth && |g.buckets| == FullDepth && CanDraw(g.rng, 1)
    ensures var n := Node(p, g, start, angle, depth);
      n.g.top == g.top || Attained(n.g.top, g.buckets, n.g.buckets)
  {
    var n := Node(p, g, start, angle, depth);
    var j := |g.buckets[depth]|;
    var b := n.g.buckets[depth][j];
    if n.g.top != g.top {
      assert n.g.top.y == b.start.y || n.g.top.y == b.end.y;
    }
  }

  /** An attained top of one stage is an attained top of the whole call. */
  lemma AttainedCompose(top: Top, b0: seq<seq<Branch>>, b1: seq<seq<Branch>>, b2: seq<seq<Branch>>, b3: seq<seq<Branch>>)
    requires |b0| == |b1| == |b2| == |b3| == FullDepth
    requires forall d :: 0 <= d < FullDepth ==> |b0[d]| <= |b1[d]| && b1[d] <= b2[d] && b2[d] <= b3[d]
    requires Attained(top, b0, b1) || Attained(top, b1, b2) || Attained(top, b2, b3)
    ensures Attained(top, b0, b3)
  {
    if Attained(top, b0, b1) {
      var d, j :| 0 <= d < FullDepth && |b0[d]| <= j < |b1[d]| && (top.y == b1[d][j].start.y || top.y == b1[d][j].end.y);
      PrefixAt(b1[d], b2[d], j);
      PrefixAt(b2[d], b3[d], j);
    } else if Attained(top, b1, b2) {
      var d, j :| 0 <= d < FullDepth && |b1[d]| <= j < |b2[d]| && (top.y == b2[d][j].start.y || top.y == b2[d][j].end.y);
      PrefixAt(b2[d], b3[d], j);
    } else {
      var d, j :| 0 <= d < FullDepth && |b2[d]| <= j < |b3[d]| && (top.y == b3[d][j].start.y || top.y == b3[d][j].end.y);
      assert |b0[d]| <= |b1[d]| <= |b2[d]|;
    }
  }

  /** Bounds on new branches survive a lower top. */
  lemma TopWeaken(b0: seq<seq<Branch>>, b1: seq<seq<Branch>>, t: Top, u: Top)
    requires |b0| == |b1| == FullDepth
    requires AllUnder(t, b0, b1)
    requires AtOrAbove(u, t) && u.Finite?
    ensures AllUnder(u, b0, b1)
  {
  }

  /** The end point of a node: `length * factor` along the heading from
      `start`, the length being the first draw (from [10, 13) for the trunk,
      [0, 11) otherwise) times the scale and the factor the remaining depth. */
  lemma NodeEnd(p: Params, g: Gen, start: Point, angle: real, depth: nat)
    requires depth < FullDepth && |g.buckets| == FullDepth && CanDraw(g.rng, 1)
    ensures var len := Mul(Random(g.rng, if depth == 0 then 10.0 else 0.0, if depth == 0 then 13.0 else 11.0).value, p.scale);
      var factor := (FullDepth - depth) as real;
      Node(p, g, start, angle, depth).end == Reach(start, p.trig, angle, len, factor)
  {
  }

  /** A call below `FullDepth` puts its own branch, from `start` to the end
      point its node computed, at the old end of bucket `depth`. */
  lemma RootBranch(p: Params, g: Gen, start: Point, angle: real, depth: nat)
    requires Ready(g, depth) && depth < FullDepth
    ensures var r := CreateBranch(p, g, start, angle, depth);
      && |g.buckets[depth]| < |r.buckets[depth]|
      && r.buckets[depth][|g.buckets[depth]|].start == start
      && r.buckets[depth][|g.buckets[depth]|].end == Node(p, g, start, angle, depth).end
  {
    var r := CreateBranch(p, g, start, angle, depth);
    var n := Node(p, g, start, angle, depth);
    var gl := CreateBranch(p, LeftIn(p, g, start, angle, depth), n.end, LeftAngle(p, g, start, angle, depth), depth + 1);
    PrefixAt(gl.buckets[depth], r.buckets[depth], |g.buckets[depth]|);
    PrefixAt(n.g.buckets[depth], gl.buckets[depth], |g.buckets[depth]|);
  }

  /** Every branch a call creates below its own level starts at the end of
      its parent, the parents being taken in order, two children each. */
  lemma {:induction false} ChainedBranches(p: Params, g: Gen, start: Point, angle: real, depth: nat)
    requires Ready(g, depth)
    ensures Chained(g.buckets, CreateBranch(p, g, start, angle, depth).buckets, depth)
    decreases FullDepth - depth, 1
  {
    if depth < FullDepth {
      Unfold(p, g, start, angle, depth);
      var n := Node(p, g, start, angle, depth);
      var gl := CreateBranch(p, LeftIn(p, g, start, angle, depth), n.end, LeftAngle(p, g, start, angle, depth), depth + 1);
      var gr := CreateBranch(p, RightIn(gl), n.end, RightAngle(angle, gl), depth + 1);
      ChainedChildren(p, g, start, angle, depth);
      ChainCompose(g.buckets, n.g.buckets, gl.buckets, gr.buckets, depth, n.end);
    }
  }

  /** The two children of a call below `FullDepth` chain their own
      descendants, and each puts its own branch, starting at the end of the
      call's branch, at the old end of the next bucket. */
  lemma {:induction false} ChainedChildren(p: Params, g: Gen, start: Point, angle: real, depth: nat)
    requires Ready(g, depth) && depth < FullDepth
    ensures CanDraw(g.rng, 2) && Ready(LeftIn(p, g, start, angle, depth), depth + 1)
    ensures var n := Node(p, g, start, angle, depth);
      var gl := CreateBranch(p, LeftIn(p, g, start, angle, depth), n.end, LeftAngle(p, g, start, angle, depth), depth + 1);
      && CanDraw(gl.rng, 1) && Ready(RightIn(gl), depth + 1)
      && var gr := CreateBranch(p, RightIn(gl), n.end, RightAngle(angle, gl), depth + 1);
      && Chained(n.g.buckets, gl.buckets, depth + 1)
      && Chained(gl.buckets, gr.buckets, depth + 1)
      && (depth + 1 < FullDepth ==>
          && gl.buckets[depth + 1][|n.g.buckets[depth + 1]|].start == n.end
          && gr.buckets[depth + 1][|gl.buckets[depth + 1]|].start == n.end)
    decreases FullDepth - depth, 0
  {
    Unfold(p, g, start, angle, depth);
    var n := Node(p, g, start, angle, depth);
    var gi := LeftIn(p, g, start, angle, depth);
    var gl := CreateBranch(p, gi, n.end, LeftAngle(p, g, start, angle, depth), depth + 1);
    var gj := RightIn(gl);
    ChainedBranches(p, gi, n.end, LeftAngle(p, g, start, angle, depth), depth + 1);
    ChainedBranches(p, gj, n.end, RightAngle(angle, gl), depth + 1);
    if depth + 1 < FullDepth {
      RootBranch(p, gi, n.end, LeftAngle(p, g, start, angle, depth), depth + 1);
      RootBranch(p, gj, n.end, RightAngle(angle, gl), depth + 1);
    }
  }

  /** Freshness of the new branches composes over the node and its two children. */
  lemma FreshCompose(p: Params, b0: seq<seq<Branch>>, b1: seq<seq<Branch>>, b2: seq<seq<Branch>>, b3: seq<seq<Branch>>)
    requires |b0| == |b1| == |b2| == |b3| == FullDepth
    requires forall d :: 0 <= d < FullDepth ==> b1[d] <= b2[d] && b2[d] <= b3[d]
    requires AllFresh(p, b0, b1) && AllFresh(p, b1, b2) && AllFresh(p, b2, b3)
    ensures AllFresh(p, b0, b3)
  {
    forall d, j | 0 <= d < FullDepth && |b0[d]| <= j < |b3[d]|
      ensures Fresh(p, b3[d][j], d)
    {
      if j < |b2[d]| {
        PrefixAt(b2[d], b3[d], j);
        if j < |b1[d]| {
          PrefixAt(b1[d], b2[d], j);
        }
      }
    }
  }

  /** Bounds under a common top compose over the node and its two children. */
  lemma UnderCompose(top: Top, b0: seq<seq<Branch>>, b1: seq<seq<Branch>>, b2: seq<seq<Branch>>, b3: seq<seq<Branch>>)
    requires |b0| == |b1| == |b2| == |b3| == FullDepth
    requires forall d :: 0 <= d < FullDepth ==> b1[d] <= b2[d] && b2[d] <= b3[d]
    requires AllUnder(top, b0, b1) && AllUnder(top, b1, b2) && AllUnder(top, b2, b3)
    ensures AllUnder(top, b0, b3)
  {
    forall d, j | 0 <= d < FullDepth && |b0[d]| <= j < |b3[d]|
      ensures Bounds(top, b3[d][j].start.y) && Bounds(top, b3[d][j].end.y)
    {
      if j < |b2[d]| {
        PrefixAt(b2[d], b3[d], j);
        if j < |b1[d]| {
          PrefixAt(b1[d], b2[d], j);
        }
      }
    }
  }

  /** Parent-end to child-start chaining composes over the node and its two children. */
  lemma ChainCompose(b0: seq<seq<Branch>>, b1: seq<seq<Branch>>, b2: seq<seq<Branch>>, b3: seq<seq<Branch>>,
                     depth: nat, end: Point)
    requires depth < FullDepth
    requires |b0| == FullDepth && |b1| == FullDepth
    requires forall d :: 0 <= d < FullDepth && d != depth ==> b1[d] == b0[d]
    requires |b1[depth]| == |b0[depth]| + 1 && b0[depth] <= b1[depth] && b1[depth][|b0[depth]|].end == end
    requires Grows(b1, b2, depth + 1) && Grows(b2, b3, depth + 1)
    requires depth + 1 < FullDepth ==> b2[depth + 1][|b1[depth + 1]|].start == end && b3[depth + 1][|b2[depth + 1]|].start == end
    requires Chained(b1, b2, depth + 1) && Chained(b2, b3, depth + 1)
    ensures Chained(b0, b3, depth)
  {
    forall d, j | depth < d < FullDepth && |b0[d]| <= j < |b3[d]|
      ensures Parent(b0, d, j) < |b3[d - 1]| && b3[d][j].start == b3[d - 1][Parent(b0, d, j)].end
    {
      var rel := j - |b0[d]|;
      var h := Added(depth + 1, d);
      assert |b2[d]| == |b0[d]| + h;
      assert |b3[d]| == |b0[d]| + 2 * h;
      if d == depth + 1 {
        assert h == 1;
        assert Parent(b0, d, j) == |b0[depth]|;
        PrefixAt(b1[depth], b3[depth], |b0[depth]|);
        if rel == 0 {
          assert j == |b1[d]|;
          PrefixAt(b2[d], b3[d], j);
        } else {
          assert j == |b2[d]|;
        }
      } else {
        assert Pow2(d - (depth + 1)) == 2 * Pow2(d - 1 - (depth + 1));
        var hp := Added(depth + 1, d - 1);
        assert h == 2 * hp;
        assert |b2[d - 1]| == |b0[d - 1]| + hp;
        if rel < h {
          assert Parent(b1, d, j) == Parent(b0, d, j);
          PrefixAt(b2[d], b3[d], j);
          assert b2[d][j].start == b2[d - 1][Parent(b0, d, j)].end;
          PrefixAt(b2[d - 1], b3[d - 1], Parent(b0, d, j));
        } else {
          assert (rel - h) / 2 + hp == rel / 2;
          assert Parent(b2, d, j) == Parent(b0, d, j);
          assert b3[d][j].start == b3[d - 1][Parent(b2, d, j)].end;
        }
      }
    }
  }

  /** `Array.from({ length: fullDepth }, () => [])`. */
  function EmptyBuckets(): (r: seq<seq<Branch>>)
    ensures |r| == FullDepth && forall d :: 0 <= d < FullDepth ==> r[d] == []
  {
    seq(FullDepth, _ => [])
  }

  /** The root call `createBranch(posX, posY, -90, 0)` of a restart: from
      empty buckets and `treeTop = Infinity`, heading up. */
  function GrowTree(p: Params, rng: Rng, root: Point): (g: Gen)
    requires CanDraw(rng, Draws(0))
    ensures g.rng == Skip(rng, Draws(0))
    ensures Grows(EmptyBuckets(), g.buckets, 0)
  {
    CreateBranch(p, Gen(rng, EmptyBuckets(), Infinity), root, -90.0, 0)
  }

  /** Bucket layout of a whole tree: `fullDepth` buckets, bucket `d` holding
      `2^d` branches. */
  predicate Sized(bs: seq<seq<Branch>>)
  {
    |bs| == FullDepth && forall d :: 0 <= d < FullDepth ==> |bs[d]| == Pow2(d)
  }

  /** Every branch of bucket `d` is as `createBranch` builds it at depth `d`. */
  predicate FreshTree(p: Params, bs: seq<seq<Branch>>)
  {
    |bs| == FullDepth && forall d, k :: 0 <= d < FullDepth && 0 <= k < |bs[d]| ==> Fresh(p, bs[d][k], d)
  }

  /** Branch `j` of bucket `d > 0` starts where branch `j / 2` of bucket
      `d - 1`, its parent, ends. */
  predicate Linked(bs: seq<seq<Branch>>)
    requires |bs| == FullDepth
  {
    forall d, j {:trigger bs[d][j]} :: 1 <= d < FullDepth && 0 <= j < |bs[d]| ==>
      j / 2 < |bs[d - 1]| && bs[d][j].start == bs[d - 1][j / 2].end
  }

  /** `top` is the topmost y of the tree: finite, at or above both ends of
      every branch, and equal to the y of one of those ends. */
  predicate Topped(top: Top, bs: seq<seq<Branch>>)
  {
    && top.Finite?
    && (forall d, k :: 0 <= d < |bs| && 0 <= k < |bs[d]| ==> Bounds(top, bs[d][k].start.y) && Bounds(top, bs[d][k].end.y))
    && exists d, k :: 0 <= d < |bs| && 0 <= k < |bs[d]| && (top.y == bs[d][k].start.y || top.y == bs[d][k].end.y)
  }

  /** The shape of a whole generated tree rooted at `root`: the bucket
      sizes, the fresh branches, the root branch first in bucket 0 starting
      at `root`, every child starting at its parent's end, and `treeTop`
      the topmost branch end. */
  predicate Shaped(p: Params, root: Point, bs: seq<seq<Branch>>, top: Top)
  {
    && Sized(bs)
    && FreshTree(p, bs)
    && |bs[0]| == 1 && bs[0][0].start == root
    && Linked(bs)
    && Topped(top, bs)
  }

  /** A whole tree has the shape `Shaped` describes. */
  lemma TreeShape(p: Params, rng: Rng, root: Point)
    requires CanDraw(rng, Draws(0))
    ensures Shaped(p, root, GrowTree(p, rng, root).buckets, GrowTree(p, rng, root).top)
  {
    var c := GrowTree(p, rng, root);
    TreeSized(p, rng, root);
    TreeFresh(p, rng, root);
    TreeRoot(p, rng, root);
    TreeLinked(p, rng, root);
    TreeTopped(p, rng, root);
  }

  lemma TreeSized(p: Params, rng: Rng, root: Point)
    requires CanDraw(rng, Draws(0))
    ensures Sized(GrowTree(p, rng, root).buckets)
  {
    SizedFromGrown(GrowTree(p, rng, root).buckets);
  }

  lemma TreeFresh(p: Params, rng: Rng, root: Point)
    requires CanDraw(rng, Draws(0))
    ensures FreshTree(p, GrowTree(p, rng, root).buckets)
  {
    FreshBranches(p, Gen(rng, EmptyBuckets(), Infinity), root, -90.0, 0);
  }

  /** The root branch of a whole tree starts at `root` and ends where its
      node computed. */
  lemma TreeRoot(p: Params, rng: Rng, root: Point)
    requires CanDraw(rng, Draws(0))
    ensures var bs := GrowTree(p, rng, root).buckets;
      && |bs| == FullDepth && |bs[0]| == 1
      && bs[0][0].start == root
      && bs[0][0].end == Node(p, Gen(rng, EmptyBuckets(), Infinity), root, -90.0, 0).end
  {
    var bs := GrowTree(p, rng, root).buckets;
    RootSingleton(bs);
    TreeRootBranch(p, rng, root);
  }

  lemma TreeRootBranch(p: Params, rng: Rng, root: Point)
    requires CanDraw(rng, Draws(0))
    ensures var bs := GrowTree(p, rng, root).buckets;
      && |bs| == FullDepth && 0 < |bs[0]|
      && bs[0][0].start == root
      && bs[0][0].end == Node(p, Gen(rng, EmptyBuckets(), Infinity), root, -90.0, 0).end
  {
    RootBranch(p, Gen(rng, EmptyBuckets(), Infinity), root, -90.0, 0);
  }

  /** Grown from empty buckets at depth 0, bucket 0 holds the root alone. */
  lemma RootSingleton(bs: seq<seq<Branch>>)
    requires Grows(EmptyBuckets(), bs, 0)
    ensures |bs| == FullDepth && |bs[0]| == 1
  {
    assert |bs[0]| == |EmptyBuckets()[0]| + Added(0, 0);
  }

  /** The root branch of a whole tree heads up (-90 degrees) from `root`
      for `fullDepth` times the scaled first draw, taken from [10, 13). */
  lemma TreeRootEnd(p: Params, rng: Rng, root: Point)
    requires CanDraw(rng, Draws(0))
    ensures var bs := GrowTree(p, rng, root).buckets;
      && |bs| == FullDepth && |bs[0]| == 1
      && bs[0][0].start == root
      && bs[0][0].end == Reach(root, p.trig, -90.0, Mul(Random(rng, 10.0, 13.0).value, p.scale), FullDepth as real)
  {
    var g := Gen(rng, EmptyBuckets(), Infinity);
    assert Node(p, g, root, -90.0, 0).end
        == Reach(root, p.trig, -90.0, Mul(Random(rng, 10.0, 13.0).value, p.scale), FullDepth as real) by {
      NodeEnd(p, g, root, -90.0, 0);
    }
    TreeRoot(p, rng, root);
  }

  /** A whole tree has one bucket per level. */
  lemma TreeBuckets(p: Params, rng: Rng, root: Point)
    requires CanDraw(rng, Draws(0))
    ensures |GrowTree(p, rng, root).buckets| == FullDepth
  {
  }

  /** The root of a whole tree is alone in bucket 0 and fresh. */
  lemma TreeRootFresh(p: Params, rng: Rng, root: Point)
    requires CanDraw(rng, Draws(0))
    ensures var bs := GrowTree(p, rng, root).buckets;
      |bs| == FullDepth && |bs[0]| == 1 && Fresh(p, bs[0][0], 0)
  {
    var bs := GrowTree(p, rng, root).buckets;
    RootSingleton(bs);
    TreeFresh(p, rng, root);
  }

  lemma TreeLinked(p: Params, rng: Rng, root: Point)
    requires CanDraw(rng, Draws(0))
    ensures |GrowTree(p, rng, root).buckets| == FullDepth && Linked(GrowTree(p, rng, root).buckets)
  {
    var bs := GrowTree(p, rng, root).buckets;
    TreeChained(p, rng, root);
    LinkedFromGrown(bs);
  }

  lemma TreeChained(p: Params, rng: Rng, root: Point)
    requires CanDraw(rng, Draws(0))
    ensures |GrowTree(p, rng, root).buckets| == FullDepth
    ensures Chained(EmptyBuckets(), GrowTree(p, rng, root).buckets, 0)
  {
    ChainedBranches(p, Gen(rng, EmptyBuckets(), Infinity), root, -90.0, 0);
  }

  lemma LinkedFromGrown(bs: seq<seq<Branch>>)
    requires Grows(EmptyBuckets(), bs, 0) && Chained(EmptyBuckets(), bs, 0)
    ensures Linked(bs)
  {
    SizedFromGrown(bs);
    LinkedFromChained(bs);
  }

  /** Grown from empty buckets at depth 0, bucket `d` holds `2^d` branches. */
  lemma SizedFromGrown(bs: seq<seq<Branch>>)
    requires Grows(EmptyBuckets(), bs, 0)
    ensures Sized(bs)
  {
    forall d | 0 <= d < FullDepth
      ensures |bs[d]| == Pow2(d)
    {
      assert |bs[d]| == |EmptyBuckets()[d]| + Added(0, d);
    }
  }

  lemma TreeTopped(p: Params, rng: Rng, root: Point)
    requires CanDraw(rng, Draws(0))
    ensures Topped(GrowTree(p, rng, root).top, GrowTree(p, rng, root).buckets)
  {
    TreeTopFacts(p, rng, root);
    ToppedOf(GrowTree(p, rng, root));
  }

  /** What the root call proves about its final `treeTop`. */
  predicate TopFacts(c: Gen)
  {
    && |c.buckets| == FullDepth && c.top.Finite?
    && AllUnder(c.top, EmptyBuckets(), c.buckets)
    && Attained(c.top, EmptyBuckets(), c.buckets)
  }

  /** The three facts, each from its own lemma so that no single proof
      holds the whole unfolded tree. */
  lemma TreeTopFacts(p: Params, rng: Rng, root: Point)
    requires CanDraw(rng, Draws(0))
    ensures TopFacts(GrowTree(p, rng, root))
  {
    TreeTopFinite(p, rng, root);
    TreeTopUnder(p, rng, root);
    TreeTopAttained(p, rng, root);
  }

  /** `TopFacts` over the empty starting buckets is `Topped`. */
  lemma ToppedOf(c: Gen)
    requires TopFacts(c)
    ensures Topped(c.top, c.buckets)
  {
    ToppedFromUnder(c.top, c.buckets);
  }

  /** After the root call `treeTop` is a number, not the initial infinity. */
  lemma TreeTopFinite(p: Params, rng: Rng, root: Point)
    requires CanDraw(rng, Draws(0))
    ensures var c := GrowTree(p, rng, root); |c.buckets| == FullDepth && c.top.Finite?
  {
    TopBoundsBranches(p, Gen(rng, EmptyBuckets(), Infinity), root, -90.0, 0);
  }

  /** After the root call no branch end lies above `treeTop`. */
  lemma TreeTopUnder(p: Params, rng: Rng, root: Point)
    requires CanDraw(rng, Draws(0))
    ensures var c := GrowTree(p, rng, root);
      |c.buckets| == FullDepth && AllUnder(c.top, EmptyBuckets(), c.buckets)
  {
    TopBoundsBranches(p, Gen(rng, EmptyBuckets(), Infinity), root, -90.0, 0);
  }

  /** After the root call `treeTop` is the y of some branch end. */
  lemma TreeTopAttained(p: Params, rng: Rng, root: Point)
    requires CanDraw(rng, Draws(0))
    ensures var c := GrowTree(p, rng, root);
      |c.buckets| == FullDepth && Attained(c.top, EmptyBuckets(), c.buckets)
  {
    TopBoundsBranches(p, Gen(rng, EmptyBuckets(), Infinity), root, -90.0, 0);
  }

  /** Over empty starting buckets, the new branches are all the branches:
      a finite top that came from `Infinity` was attained by one of them. */
  lemma ToppedFromUnder(top: Top, bs: seq<seq<Branch>>)
    requires |bs| == FullDepth && top.Finite? && AllUnder(top, EmptyBuckets(), bs)
    requires Attained(top, EmptyBuckets(), bs)
    ensures Topped(top, bs)
  {
    var d, j :| 0 <= d < FullDepth && |EmptyBuckets()[d]| <= j < |bs[d]| && (top.y == bs[d][j].start.y || top.y == bs[d][j].end.y);
    assert 0 <= j < |bs[d]|;
  }

  /** Over empty starting buckets of sizes `2^d`, the parent of branch `j` of
      bucket `d` is branch `j / 2` of bucket `d - 1`. */
  lemma LinkedFromChained(bs: seq<seq<Branch>>)
    requires Sized(bs) && Chained(EmptyBuckets(), bs, 0)
    ensures Linked(bs)
  {
    forall d, j {:trigger bs[d][j]} | 1 <= d < FullDepth && 0 <= j < |bs[d]|
      ensures j / 2 < |bs[d - 1]| && bs[d][j].start == bs[d - 1][j / 2].end
    {
      LinkedAt(bs, d, j);
    }
  }

  lemma LinkedAt(bs: seq<seq<Branch>>, d: nat, j: int)
    requires |bs| == FullDepth && Chained(EmptyBuckets(), bs, 0)
    requires 1 <= d < FullDepth && 0 <= j < |bs[d]|
    ensures j / 2 < |bs[d - 1]| && bs[d][j].start == bs[d - 1][j / 2].end
  {
    var e := EmptyBuckets();
    assert |e| == FullDepth;
    assert Chained(e, bs, 0);
    assert 0 < d < FullDepth;
    assert |e[d]| <= j < |bs[d]|;
    var b := bs[d][j];
    assert Parent(e, d, j) < |bs[d - 1]|;
  }
}
