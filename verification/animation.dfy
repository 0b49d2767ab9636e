/** `animate` and the counter of `branch.draw`: a depth-by-depth state
    machine. Each tick grows the unfinished branches of the current level by
    `growthSpeed` frames, or, once all of them are complete, moves on to the
    next level; it reschedules itself exactly while the current level is below
    the displayed depth. */
module Animation {
  import opened Generator

  /** `currentDepth` and the depth buckets whose `cntFrame` counters advance. */
  datatype State = State(currentDepth: nat, buckets: seq<seq<Branch>>)

  /** The result of `branch.draw(ctx, speed)`: the branch with its counter
      advanced, and the returned flag. */
  datatype DrawResult = DrawResult(branch: Branch, finished: bool)

  /** `branch.draw`: an unfinished branch (`cntFrame < frame`) gains `speed`
      frames and reports `false`; a finished one is left alone and reports
      `true`. */
  function DrawBranch(b: Branch, speed: real): (r: DrawResult)
    ensures r.finished <==> b.frame <= b.cntFrame
    ensures r.branch.start == b.start && r.branch.end == b.end
    ensures r.branch.lineWidth == b.lineWidth && r.branch.frame == b.frame
    ensures r.finished ==> r.branch == b
    ensures !r.finished ==> r.branch.cntFrame - b.cntFrame == speed
  {
    if b.cntFrame < b.frame then DrawResult(b.(cntFrame := b.cntFrame + speed), false) else DrawResult(b, true)
  }

  /** Every branch of a level is fully drawn. */
  predicate LevelDone(bs: seq<Branch>)
  {
    forall k :: 0 <= k < |bs| ==> bs[k].frame <= bs[k].cntFrame
  }

  /** A branch as one tick leaves it when its level is the current one. */
  function Grown(b: Branch, speed: real): Branch
  {
    if b.cntFrame < b.frame then b.(cntFrame := b.cntFrame + speed) else b
  }

  datatype Scan = Scan(branches: seq<Branch>, done: bool)

  /** The loop over the current level in `animate`: draws every branch,
      advancing the unfinished ones, and reports `currentDone`. */
  function ScanLevel(bs: seq<Branch>, speed: real): (r: Scan)
    ensures |r.branches| == |bs|
    ensures forall k :: 0 <= k < |bs| ==> r.branches[k] == Grown(bs[k], speed)
    ensures r.done <==> LevelDone(bs)
  {
    if |bs| == 0 then Scan([], true)
    else
      var first := DrawBranch(bs[0], speed);
      var rest := ScanLevel(bs[1..], speed);
      assert forall k :: 1 <= k < |bs| ==> bs[k] == bs[1..][k - 1];
      Scan([first.branch] + rest.branches, first.finished && rest.done)
  }

  /** The outcome of one `animate` call: the next state, and whether it
      requests another frame. */
  datatype Tock = Tock(state: State, reschedule: bool)

  /** One call of `animate`. `depth` is the displayed depth; the source reads
      the bucket `branches[currentDepth]` while `currentDepth < depth`, so
      `depth` may not exceed the number of buckets. */
  function Tick(s: State, depth: int, speed: real): (r: Tock)
    requires depth <= |s.buckets|
    ensures r.reschedule <==> s.currentDepth < depth
    ensures r.state.currentDepth ==
      if s.currentDepth < depth && LevelDone(s.buckets[s.currentDepth]) then s.currentDepth + 1 else s.currentDepth
    ensures |r.state.buckets| == |s.buckets|
    ensures forall d :: 0 <= d < |s.buckets| ==> |r.state.buckets[d]| == |s.buckets[d]|
    ensures forall d :: 0 <= d < |s.buckets| && d != s.currentDepth ==> r.state.buckets[d] == s.buckets[d]
    ensures forall d, k :: 0 <= d < |s.buckets| && 0 <= k < |s.buckets[d]| ==>
      r.state.buckets[d][k] == s.buckets[d][k].(cntFrame :=
        if d == s.currentDepth < depth && s.buckets[d][k].cntFrame < s.buckets[d][k].frame
        then s.buckets[d][k].cntFrame + speed
        else s.buckets[d][k].cntFrame)
  {
    if s.currentDepth < depth then
      var scan := ScanLevel(s.buckets[s.currentDepth], speed);
      var next := if scan.done then s.currentDepth + 1 else s.currentDepth;
      Tock(State(next, s.buckets[s.currentDepth := scan.branches]), true)
    else
      Tock(s, false)
  }

  /** The state a restart establishes and every tick keeps: the current level
      within the displayed depth, which itself stays within the buckets, and
      every branch with a 100-frame animation and a counter that is not
      negative. */
  predicate Valid(s: State, depth: int)
  {
    && 0 <= depth <= |s.buckets|
    && s.currentDepth <= depth
    && forall d, k :: 0 <= d < |s.buckets| && 0 <= k < |s.buckets[d]| ==>
         s.buckets[d][k].frame == Frames && 0.0 <= s.buckets[d][k].cntFrame
  }

  /** With a speed that is not negative a tick keeps the state valid, never
      lowers `currentDepth` and never lowers a counter; a counter only moves
      while it is below its `frame`. */
  lemma TickMonotone(s: State, depth: int, speed: real)
    requires Valid(s, depth) && speed >= 0.0
    ensures var r := Tick(s, depth, speed).state;
      && Valid(r, depth)
      && s.currentDepth <= r.currentDepth
      && forall d, k :: 0 <= d < |s.buckets| && 0 <= k < |s.buckets[d]| ==>
           s.buckets[d][k].cntFrame <= r.buckets[d][k].cntFrame
           && (s.buckets[d][k].frame <= s.buckets[d][k].cntFrame ==> r.buckets[d][k] == s.buckets[d][k])
  {
  }

  /** The least integer at or above `x`. */
  function Ceil(x: real): (c: int)
    ensures x <= c as real < x + 1.0
  {
    -((-x).Floor)
  }

  /** Ticks a branch still needs before it is complete. */
  function Left(b: Branch, speed: real): nat
    requires speed > 0.0
  {
    if b.frame <= b.cntFrame then 0
    else
      assert (b.frame - b.cntFrame) / speed > 0.0;
      Ceil((b.frame - b.cntFrame) / speed)
  }

  /** Ticks a whole level still needs: the most any of its branches needs. */
  function MaxLeft(bs: seq<Branch>, speed: real): nat
    requires speed > 0.0
  {
    if |bs| == 0 then 0 else Max(Left(bs[0], speed), MaxLeft(bs[1..], speed))
  }

  function Max(a: nat, b: nat): nat
  {
    if a < b then b else a
  }

  /** `max(n - 1, 0)`. */
  function Pred(n: nat): nat
  {
    if n == 0 then 0 else n - 1
  }

  /** Ticks a fresh branch needs: `ceil(100 / speed)`. */
  function FramesTicks(speed: real): nat
    requires speed > 0.0
  {
    assert Frames / speed > 0.0;
    Ceil(Frames / speed)
  }

  /** One tick takes exactly one off what an unfinished branch needs. */
  lemma LeftGrown(b: Branch, speed: real)
    requires speed > 0.0
    ensures Left(Grown(b, speed), speed) == Pred(Left(b, speed))
  {
    if b.cntFrame < b.frame {
      var rest := b.frame - b.cntFrame;
      assert b.frame - (b.cntFrame + speed) == rest - speed;
      DivShift(rest, speed);
      if b.cntFrame + speed < b.frame {
        CeilShift(rest / speed);
      } else {
        DivNonPositive(rest - speed, speed);
      }
    }
  }

  lemma DivShift(a: real, s: real)
    requires s > 0.0
    ensures (a - s) / s == a / s - 1.0
  {
    assert (a - s) / s == a / s - s / s;
  }

  lemma DivNonPositive(a: real, s: real)
    requires s > 0.0 && a <= 0.0
    ensures a / s <= 0.0
  {
  }

  lemma CeilShift(x: real)
    ensures Ceil(x - 1.0) == Ceil(x) - 1
  {
  }

  /** A branch that has not gone backwards needs at most `ceil(100 / speed)` ticks. */
  lemma LeftBound(b: Branch, speed: real)
    requires speed > 0.0 && b.frame == Frames && 0.0 <= b.cntFrame
    ensures Left(b, speed) <= FramesTicks(speed)
  {
    if b.cntFrame < b.frame {
      assert (b.frame - b.cntFrame) / speed <= Frames / speed by {
        assert (b.frame - b.cntFrame) <= Frames;
        DivMonotone(b.frame - b.cntFrame, Frames, speed);
      }
    }
  }

  lemma DivMonotone(a: real, b: real, c: real)
    requires a <= b && c > 0.0
    ensures a / c <= b / c
  {
    assert b / c - a / c == (b - a) / c;
  }

  /** A level is complete exactly when it needs no more ticks. */
  lemma {:induction false} MaxLeftZero(bs: seq<Branch>, speed: real)
    requires speed > 0.0
    ensures MaxLeft(bs, speed) == 0 <==> LevelDone(bs)
  {
    if |bs| > 0 {
      MaxLeftZero(bs[1..], speed);
      assert LevelDone(bs) <==> bs[0].frame <= bs[0].cntFrame && LevelDone(bs[1..]) by {
        assert forall k :: 1 <= k < |bs| ==> bs[k] == bs[1..][k - 1];
      }
    }
  }

  /** One tick takes exactly one off what the current level needs. */
  lemma {:induction false} MaxLeftGrown(bs: seq<Branch>, speed: real)
    requires speed > 0.0
    ensures MaxLeft(ScanLevel(bs, speed).branches, speed) == Pred(MaxLeft(bs, speed))
  {
    if |bs| > 0 {
      var r := ScanLevel(bs, speed).branches;
      MaxLeftGrown(bs[1..], speed);
      LeftGrown(bs[0], speed);
      assert r[1..] == ScanLevel(bs[1..], speed).branches;
    }
  }

  /** A level of branches that have not gone backwards needs at most
      `ceil(100 / speed)` ticks. */
  lemma {:induction false} MaxLeftBound(bs: seq<Branch>, speed: real)
    requires speed > 0.0
    requires forall k :: 0 <= k < |bs| ==> bs[k].frame == Frames && 0.0 <= bs[k].cntFrame
    ensures MaxLeft(bs, speed) <= FramesTicks(speed)
  {
    if |bs| > 0 {
      LeftBound(bs[0], speed);
      MaxLeftBound(bs[1..], speed);
    }
  }

  /** Ticks left before the loop stops rescheduling: for every level still to
      come one per frame of its slowest branch plus one to move past it. */
  function Measure(s: State, depth: int, speed: real): nat
    requires speed > 0.0 && depth <= |s.buckets|
  {
    if s.currentDepth < depth then
      Times(depth - s.currentDepth - 1, FramesTicks(speed) + 1) + MaxLeft(s.buckets[s.currentDepth], speed) + 1
    else 0
  }

  function Times(a: nat, b: nat): nat
  {
    a * b
  }

  /** From a valid state the measure is at most `(depth - currentDepth) * (ceil(100 / speed) + 1)`. */
  lemma MeasureBound(s: State, depth: int, speed: real)
    requires Valid(s, depth) && speed > 0.0
    ensures Measure(s, depth, speed) <= (depth - s.currentDepth) * (FramesTicks(speed) + 1)
  {
    if s.currentDepth < depth {
      MaxLeftBound(s.buckets[s.currentDepth], speed);
      var m := depth - s.currentDepth;
      var k := FramesTicks(speed) + 1;
      assert (m - 1) * k + k == m * k;
    }
  }

  /** Every tick that reschedules itself lowers the measure. */
  lemma TickDecreases(s: State, depth: int, speed: real)
    requires Valid(s, depth) && speed > 0.0
    requires Tick(s, depth, speed).reschedule
    ensures Measure(Tick(s, depth, speed).state, depth, speed) < Measure(s, depth, speed)
  {
    var r := Tick(s, depth, speed).state;
    var level := s.buckets[s.currentDepth];
    var k := FramesTicks(speed) + 1;
    MaxLeftZero(level, speed);
    if LevelDone(level) {
      TickMonotone(s, depth, speed);
      MeasureBound(r, depth, speed);
      var m := depth - s.currentDepth;
      assert (m - 1) * k == m * k - k;
    } else {
      assert r.buckets[s.currentDepth] == ScanLevel(level, speed).branches;
      MaxLeftGrown(level, speed);
    }
  }

  /** What the animation loop ends with: the final state and how many times
      `animate` ran, counting the last call, which does not reschedule. */
  datatype Finish = Finish(state: State, ticks: nat)

  /** Repeated `animate` calls from `s` until one stops rescheduling. With a
      positive speed this always ends, within
      `(depth - currentDepth) * (ceil(100 / speed) + 1) + 1` calls, with every
      level from `currentDepth` to `depth - 1` complete and the other levels
      untouched. */
  function Run(s: State, depth: int, speed: real): (r: Finish)
    requires Valid(s, depth) && speed > 0.0
    ensures Valid(r.state, depth)
    ensures r.state.currentDepth == depth
    ensures !Tick(r.state, depth, speed).reschedule
    ensures 1 <= r.ticks <= Measure(s, depth, speed) + 1
    ensures r.ticks <= (depth - s.currentDepth) * (FramesTicks(speed) + 1) + 1
    ensures |r.state.buckets| == |s.buckets|
    ensures forall d :: 0 <= d < |s.buckets| ==> |r.state.buckets[d]| == |s.buckets[d]|
    ensures forall d :: s.currentDepth <= d < depth ==> LevelDone(r.state.buckets[d])
    ensures forall d :: 0 <= d < |s.buckets| && !(s.currentDepth <= d < depth) ==> r.state.buckets[d] == s.buckets[d]
    decreases Measure(s, depth, speed)
  {
    MeasureBound(s, depth, speed);
    var step := Tick(s, depth, speed);
    if step.reschedule then
      TickMonotone(s, depth, speed);
      TickDecreases(s, depth, speed);
      var rest := Run(step.state, depth, speed);
      assert s.currentDepth < step.state.currentDepth ==> LevelDone(s.buckets[s.currentDepth]);
      assert s.currentDepth < step.state.currentDepth ==> LevelDone(step.state.buckets[s.currentDepth]) by {
        if s.currentDepth < step.state.currentDepth {
          TickKeepsDone(s, depth, speed);
        }
      }
      Finish(rest.state, rest.ticks + 1)
    else
      Finish(s, 1)
  }

  /** A level that is complete stays as it is under a tick. */
  lemma TickKeepsDone(s: State, depth: int, speed: real)
    requires depth <= |s.buckets| && s.currentDepth < depth && LevelDone(s.buckets[s.currentDepth])
    ensures Tick(s, depth, speed).state.buckets[s.currentDepth] == s.buckets[s.currentDepth]
  {
  }

  /** `animate` as the source writes it: a loop over the current level that
      draws each unfinished branch and clears `currentDone` for it, then the
      move to the next level and the `stillGrowing` decision. It computes the
      same step as `Tick`. */
  method Animate(s: State, depth: int, speed: real) returns (r: State, stillGrowing: bool)
    requires depth <= |s.buckets|
    ensures r == Tick(s, depth, speed).state
    ensures stillGrowing <==> s.currentDepth < depth
  {
    stillGrowing := false;
    r := s;
    if s.currentDepth < depth {
      var level := s.buckets[s.currentDepth];
      var currentDone := true;
      var k := 0;
      while k < |level|
        invariant 0 <= k <= |level|
        invariant |level| == |s.buckets[s.currentDepth]|
        invariant forall j :: 0 <= j < k ==> level[j] == Grown(s.buckets[s.currentDepth][j], speed)
        invariant forall j :: k <= j < |level| ==> level[j] == s.buckets[s.currentDepth][j]
        invariant currentDone <==> LevelDone(s.buckets[s.currentDepth][..k])
        invariant stillGrowing <==> !currentDone
      {
        var b := level[k];
        if b.cntFrame < b.frame {
          var drawn := DrawBranch(b, speed);
          level := level[k := drawn.branch];
          stillGrowing := true;
          currentDone := false;
        }
        assert s.buckets[s.currentDepth][..k + 1] == s.buckets[s.currentDepth][..k] + [b];
        k := k + 1;
      }
      assert s.buckets[s.currentDepth][..k] == s.buckets[s.currentDepth];
      assert level == ScanLevel(s.buckets[s.currentDepth], speed).branches;
      var next := s.currentDepth;
      if currentDone {
        next := next + 1;
        stillGrowing := true;
      }
      r := State(next, s.buckets[s.currentDepth := level]);
    }
  }
}
