// Breaking a chart's line at gaps (gap_breaks of core/tabayyun-core/src/downsample.rs): a NaN point
// one nanosecond after every sample that a step longer than the limit follows.
module GapBreaks {
  import opened Int64
  import opened Frame

  predicate BreaksAfter(ts: seq<int>, values: seq<Value>, maxStep: int, i: nat)
    requires |ts| == |values|
  {
    i + 1 < |ts| && SatSub(ts[i + 1], ts[i]) > maxStep && !values[i].NaN?
  }

  // Where the point after sample i goes, when sample i is at p.
  function After(ts: seq<int>, values: seq<Value>, maxStep: int, i: nat, p: nat): nat
    requires |ts| == |values|
  {
    if BreaksAfter(ts, values, maxStep, i) then p + 2 else p + 1
  }

  ghost predicate Placed(ts: seq<int>, values: seq<Value>, maxStep: int, outTs: seq<int>, outValues: seq<Value>,
                         i: nat, p: nat)
    requires |ts| == |values| && i < |ts| && |outTs| == |outValues|
  {
    && After(ts, values, maxStep, i, p) <= |outTs|
    && outTs[p] == ts[i] && outValues[p] == values[i]
    && (BreaksAfter(ts, values, maxStep, i) ==> outTs[p + 1] == ts[i] + 1 && outValues[p + 1] == NaN)
  }

  // The output is the first n samples in order, sample i at pos[i], with the breaks and nothing else.
  ghost predicate IsBroken(ts: seq<int>, values: seq<Value>, maxStep: int, n: nat, outTs: seq<int>,
                           outValues: seq<Value>, pos: seq<nat>)
    requires |ts| == |values|
  {
    && n <= |ts| && |pos| == n && |outTs| == |outValues|
    && (n == 0 ==> outTs == [])
    && (n > 0 ==> pos[0] == 0 && |outTs| == After(ts, values, maxStep, n - 1, pos[n - 1]))
    && (forall i :: 0 <= i < n ==> Placed(ts, values, maxStep, outTs, outValues, i, pos[i]))
    && (forall i, j :: 0 <= i < n && 0 <= j < n && j == i + 1 ==> pos[j] == After(ts, values, maxStep, i, pos[i]))
  }

  ghost predicate Breaks(ts: seq<int>, values: seq<Value>, maxStep: int, outTs: seq<int>, outValues: seq<Value>)
    requires |ts| == |values|
  {
    exists pos :: IsBroken(ts, values, maxStep, |ts|, outTs, outValues, pos)
  }

  method Break(ts: seq<int>, values: seq<Value>, maxStep: int)
    returns (outTs: seq<int>, outValues: seq<Value>, ghost pos: seq<nat>)
    requires |ts| == |values|
    ensures IsBroken(ts, values, maxStep, |ts|, outTs, outValues, pos)
    ensures Breaks(ts, values, maxStep, outTs, outValues)
    ensures InRange(maxStep) ==> IsLine(ts, values, maxStep, outTs, outValues, pos)
  {
    hide SatSub, IsBroken, Placed, After;
    NothingBroken(ts, values, maxStep);
    outTs, outValues, pos := [], [], [];
    for i := 0 to |ts|
      invariant IsBroken(ts, values, maxStep, i, outTs, outValues, pos)
    {
      BrokenGrows(ts, values, maxStep, i, outTs, outValues, pos);
      pos := pos + [|outTs|];
      outTs := outTs + [ts[i]];
      outValues := outValues + [values[i]];
      if i + 1 < |ts| && SatSub(ts[i + 1], ts[i]) > maxStep && !values[i].NaN? {
        outTs := outTs + [ts[i] + 1];
        outValues := outValues + [NaN];
      }
    }
    if InRange(maxStep) { BrokenIsLine(ts, values, maxStep, outTs, outValues, pos); }
  }

  // ---- The same of the points' own times ----------------------------------------------------------

  // A step longer than the limit follows sample i, which is a number; no step of 64 bits is longer than
  // i64::MAX.
  predicate LongStepAfter(ts: seq<int>, values: seq<Value>, maxStep: int, i: nat)
    requires |ts| == |values|
  {
    i + 1 < |ts| && values[i] != NaN && ts[i + 1] - ts[i] > maxStep && maxStep < MAX
  }

  // Every sample in order, sample i at pos[i], each long step with a NaN point one nanosecond after its
  // start, and nothing else.
  ghost predicate IsLine(ts: seq<int>, values: seq<Value>, maxStep: int, outTs: seq<int>, outValues: seq<Value>,
                         pos: seq<nat>)
  {
    && |ts| == |values| == |pos| && |outTs| == |outValues|
    && (if ts == [] then outTs == [] else pos[0] == 0)
    && forall i: nat :: i < |ts| ==>
         var next := if i + 1 < |ts| then pos[i + 1] else |outTs|;
         && pos[i] < next <= |outTs|
         && outTs[pos[i]] == ts[i] && outValues[pos[i]] == values[i]
         && (if LongStepAfter(ts, values, maxStep, i)
             then next == pos[i] + 2 && outTs[pos[i] + 1] == ts[i] + 1 && outValues[pos[i] + 1] == NaN
             else next == pos[i] + 1)
  }

  lemma BreakIsLongStep(ts: seq<int>, values: seq<Value>, maxStep: int, i: nat)
    requires |ts| == |values| && InRange(maxStep)
    ensures BreaksAfter(ts, values, maxStep, i) <==> LongStepAfter(ts, values, maxStep, i)
  {
  }

  lemma BrokenIsLine(ts: seq<int>, values: seq<Value>, maxStep: int, outTs: seq<int>, outValues: seq<Value>,
                     pos: seq<nat>)
    requires |ts| == |values| && InRange(maxStep) && IsBroken(ts, values, maxStep, |ts|, outTs, outValues, pos)
    ensures IsLine(ts, values, maxStep, outTs, outValues, pos)
  {
    hide BreaksAfter, LongStepAfter;
    forall i: nat | i < |ts| ensures BreaksAfter(ts, values, maxStep, i) <==> LongStepAfter(ts, values, maxStep, i) {
      BreakIsLongStep(ts, values, maxStep, i);
    }
    forall i: nat | i < |ts| ensures Placed(ts, values, maxStep, outTs, outValues, i, pos[i]) {}
    assert forall i: nat :: i + 1 < |ts| ==> pos[i + 1] == After(ts, values, maxStep, i, pos[i]);
  }

  lemma NothingBroken(ts: seq<int>, values: seq<Value>, maxStep: int)
    requires |ts| == |values|
    ensures IsBroken(ts, values, maxStep, 0, [], [], [])
  {
  }

  // The next sample, and a break when a long step follows it.
  lemma BrokenGrows(ts: seq<int>, values: seq<Value>, maxStep: int, i: nat, outTs: seq<int>, outValues: seq<Value>,
                    pos: seq<nat>)
    requires |ts| == |values| && i < |ts| && IsBroken(ts, values, maxStep, i, outTs, outValues, pos)
    ensures if BreaksAfter(ts, values, maxStep, i)
            then IsBroken(ts, values, maxStep, i + 1, outTs + [ts[i]] + [ts[i] + 1], outValues + [values[i]] + [NaN],
                          pos + [|outTs|])
            else IsBroken(ts, values, maxStep, i + 1, outTs + [ts[i]], outValues + [values[i]], pos + [|outTs|])
  {
    hide BreaksAfter;
    var breaks := BreaksAfter(ts, values, maxStep, i);
    var more := if breaks then outTs + [ts[i]] + [ts[i] + 1] else outTs + [ts[i]];
    var moreValues := if breaks then outValues + [values[i]] + [NaN] else outValues + [values[i]];
    forall j | 0 <= j < i ensures Placed(ts, values, maxStep, more, moreValues, j, pos[j]) {
      assert Placed(ts, values, maxStep, outTs, outValues, j, pos[j]);
    }
    assert Placed(ts, values, maxStep, more, moreValues, i, |outTs|);
  }

  // Every output point is a sample or the break after one.
  lemma {:induction false} PointOf(ts: seq<int>, values: seq<Value>, maxStep: int, n: nat, outTs: seq<int>,
                                   outValues: seq<Value>, pos: seq<nat>, k: nat, i: nat) returns (s: nat)
    requires |ts| == |values| && IsBroken(ts, values, maxStep, n, outTs, outValues, pos)
    requires i < n && k < After(ts, values, maxStep, i, pos[i])
    ensures s <= i && pos[s] <= k < After(ts, values, maxStep, s, pos[s])
    decreases i
  {
    hide SatSub, Placed;
    if pos[i] <= k {
      s := i;
    } else {
      assert pos[i] == After(ts, values, maxStep, i - 1, pos[i - 1]);
      s := PointOf(ts, values, maxStep, n, outTs, outValues, pos, k, i - 1);
    }
  }

  // No line is drawn across a gap: a point that a longer step follows is NaN. In particular nothing
  // is left to break.
  lemma NoLineAcrossGap(ts: seq<int>, values: seq<Value>, maxStep: int, outTs: seq<int>, outValues: seq<Value>,
                        pos: seq<nat>, k: nat)
    requires |ts| == |values| && IsBroken(ts, values, maxStep, |ts|, outTs, outValues, pos) && maxStep >= 1
    ensures !BreaksAfter(outTs, outValues, maxStep, k)
    ensures k + 1 < |outTs| && outTs[k + 1] - outTs[k] > maxStep && maxStep < MAX ==> outValues[k] == NaN
  {
    if k + 1 < |outTs| {
      var n := |ts|;
      var s := PointOf(ts, values, maxStep, n, outTs, outValues, pos, k, n - 1);
      assert Placed(ts, values, maxStep, outTs, outValues, s, pos[s]);
      if s + 1 < n {
        assert pos[s + 1] == After(ts, values, maxStep, s, pos[s]);
        assert Placed(ts, values, maxStep, outTs, outValues, s + 1, pos[s + 1]);
      }
    }
  }

  // Breaking a broken line again changes nothing.
  lemma BreakIdempotent(ts: seq<int>, values: seq<Value>, maxStep: int, outTs: seq<int>, outValues: seq<Value>,
                        pos: seq<nat>, again: seq<nat>)
    requires |ts| == |values| && IsBroken(ts, values, maxStep, |ts|, outTs, outValues, pos) && maxStep >= 1
    requires |again| == |outTs| && forall k :: 0 <= k < |again| ==> again[k] == k
    ensures IsBroken(outTs, outValues, maxStep, |outTs|, outTs, outValues, again)
  {
    forall k: nat | k < |outTs| ensures !BreaksAfter(outTs, outValues, maxStep, k) {
      NoLineAcrossGap(ts, values, maxStep, outTs, outValues, pos, k);
    }
  }

  lemma {:induction false} PositionsGrow(ts: seq<int>, values: seq<Value>, maxStep: int, n: nat, outTs: seq<int>,
                                         outValues: seq<Value>, pos: seq<nat>, i: nat, j: nat)
    requires |ts| == |values| && IsBroken(ts, values, maxStep, n, outTs, outValues, pos) && i < j < n
    ensures After(ts, values, maxStep, i, pos[i]) <= pos[j]
  {
    hide SatSub, Placed;
    if j > i + 1 { PositionsGrow(ts, values, maxStep, n, outTs, outValues, pos, i, j - 1); }
    assert pos[j] == After(ts, values, maxStep, j - 1, pos[j - 1]);
  }

  // Breaks keep the points in strict time order.
  lemma BrokenIncreasing(ts: seq<int>, values: seq<Value>, maxStep: int, outTs: seq<int>, outValues: seq<Value>,
                       pos: seq<nat>)
    requires |ts| == |values| && IsBroken(ts, values, maxStep, |ts|, outTs, outValues, pos)
    requires maxStep >= 1 && Increasing(ts)
    ensures Increasing(outTs)
  {
    var n := |ts|;
    forall k, l | 0 <= k < l < |outTs| ensures outTs[k] < outTs[l] {
      var s := PointOf(ts, values, maxStep, n, outTs, outValues, pos, k, n - 1);
      var r := PointOf(ts, values, maxStep, n, outTs, outValues, pos, l, n - 1);
      assert Placed(ts, values, maxStep, outTs, outValues, s, pos[s]);
      assert Placed(ts, values, maxStep, outTs, outValues, r, pos[r]);
      if s < r {
        AtMostNext(ts, values, maxStep, outTs, outValues, s, pos[s], k);
      } else if r < s {
        PositionsGrow(ts, values, maxStep, n, outTs, outValues, pos, r, s);
      }
    }
  }

  lemma AtMostNext(ts: seq<int>, values: seq<Value>, maxStep: int, outTs: seq<int>, outValues: seq<Value>,
                   s: nat, p: nat, k: nat)
    requires |ts| == |values| && |outTs| == |outValues| && maxStep >= 1 && s < |ts| - 1
    requires Placed(ts, values, maxStep, outTs, outValues, s, p) && p <= k < After(ts, values, maxStep, s, p)
    requires ts[s] < ts[s + 1]
    ensures outTs[k] < ts[s + 1]
  {
  }

  // ---- For which limits -----------------------------------------------------------------------

  ghost predicate NoGapAfter(maxStep: int, ts: seq<int>, values: seq<Value>, outTs: seq<int>, outValues: seq<Value>) {
    |ts| == |values| && Breaks(ts, values, maxStep, outTs, outValues) ==>
      |outTs| == |outValues| && forall k: nat :: !BreaksAfter(outTs, outValues, maxStep, k)
  }

  ghost predicate SameAgain(maxStep: int, ts: seq<int>, values: seq<Value>, outTs: seq<int>, outValues: seq<Value>) {
    |ts| == |values| && Breaks(ts, values, maxStep, outTs, outValues) ==>
      |outTs| == |outValues| && Breaks(outTs, outValues, maxStep, outTs, outValues)
  }

  ghost predicate InOrderAfter(maxStep: int, ts: seq<int>, values: seq<Value>, outTs: seq<int>, outValues: seq<Value>) {
    |ts| == |values| && Breaks(ts, values, maxStep, outTs, outValues) && Increasing(ts) ==> Increasing(outTs)
  }

  lemma BrokenPositions(ts: seq<int>, values: seq<Value>, maxStep: int, outTs: seq<int>, outValues: seq<Value>)
    returns (pos: seq<nat>)
    requires |ts| == |values| && Breaks(ts, values, maxStep, outTs, outValues)
    ensures |outTs| == |outValues| && IsBroken(ts, values, maxStep, |ts|, outTs, outValues, pos)
  {
    pos :| IsBroken(ts, values, maxStep, |ts|, outTs, outValues, pos);
  }

  // Two samples a step apart: with a limit below one nanosecond the break is itself a longer step.
  lemma TightLimitBreaks(maxStep: int, step: int)
    returns (ts: seq<int>, values: seq<Value>, outTs: seq<int>, outValues: seq<Value>)
    requires maxStep < 1 <= step <= MAX
    ensures ts == [0, step] && values == [Fin(0.0), Fin(0.0)]
    ensures outTs == [0, 1, step] && outValues == [Fin(0.0), NaN, Fin(0.0)]
    ensures Breaks(ts, values, maxStep, outTs, outValues)
  {
    ts, values := [0, step], [Fin(0.0), Fin(0.0)];
    outTs, outValues := [0, 1, step], [Fin(0.0), NaN, Fin(0.0)];
    assert IsBroken(ts, values, maxStep, 2, outTs, outValues, [0, 2]);
  }

  // No line is drawn across a gap, for all inputs, if and only if the limit is at least one nanosecond.
  lemma NoLineAcrossGapIff(maxStep: int)
    ensures (forall ts, values, outTs, outValues :: NoGapAfter(maxStep, ts, values, outTs, outValues)) <==> maxStep >= 1
  {
    if maxStep >= 1 {
      hide Breaks, IsBroken, BreaksAfter;
      forall ts, values, outTs, outValues ensures NoGapAfter(maxStep, ts, values, outTs, outValues) {
        if |ts| == |values| && Breaks(ts, values, maxStep, outTs, outValues) {
          var pos := BrokenPositions(ts, values, maxStep, outTs, outValues);
          forall k: nat ensures !BreaksAfter(outTs, outValues, maxStep, k) {
            NoLineAcrossGap(ts, values, maxStep, outTs, outValues, pos, k);
          }
        }
      }
    } else {
      hide Breaks, IsBroken;
      var ts, values, outTs, outValues := TightLimitBreaks(maxStep, 5);
      assert BreaksAfter(outTs, outValues, maxStep, 0);
      assert !NoGapAfter(maxStep, ts, values, outTs, outValues);
    }
  }

  // Breaking again changes nothing, for all inputs, under the same condition.
  lemma BreakIdempotentIff(maxStep: int)
    ensures (forall ts, values, outTs, outValues :: SameAgain(maxStep, ts, values, outTs, outValues)) <==> maxStep >= 1
  {
    hide IsBroken, Breaks;
    if maxStep >= 1 {
      forall ts, values, outTs, outValues ensures SameAgain(maxStep, ts, values, outTs, outValues) {
        if |ts| == |values| && Breaks(ts, values, maxStep, outTs, outValues) {
          var pos := BrokenPositions(ts, values, maxStep, outTs, outValues);
          SameAfterBreak(ts, values, maxStep, outTs, outValues, pos);
        }
      }
    } else {
      var ts, values, outTs, outValues := TightLimitBreaks(maxStep, 5);
      NotTheSame(maxStep);
      assert !SameAgain(maxStep, ts, values, outTs, outValues);
    }
  }

  lemma SameAfterBreak(ts: seq<int>, values: seq<Value>, maxStep: int, outTs: seq<int>, outValues: seq<Value>,
                       pos: seq<nat>)
    requires |ts| == |values| && IsBroken(ts, values, maxStep, |ts|, outTs, outValues, pos) && maxStep >= 1
    ensures |outTs| == |outValues| && Breaks(outTs, outValues, maxStep, outTs, outValues)
  {
    hide IsBroken;
    var again := seq(|outTs|, k requires 0 <= k < |outTs| => k);
    BreakIdempotent(ts, values, maxStep, outTs, outValues, pos, again);
  }

  lemma NotTheSame(maxStep: int)
    requires maxStep < 1
    ensures !Breaks([0, 1, 5], [Fin(0.0), NaN, Fin(0.0)], maxStep, [0, 1, 5], [Fin(0.0), NaN, Fin(0.0)])
  {
    hide IsBroken;
    forall pos ensures !IsBroken([0, 1, 5], [Fin(0.0), NaN, Fin(0.0)], maxStep, 3,
                                   [0, 1, 5], [Fin(0.0), NaN, Fin(0.0)], pos) {
      NotAt(maxStep, pos);
    }
  }

  lemma NotAt(maxStep: int, pos: seq<nat>)
    requires maxStep < 1
    ensures !IsBroken([0, 1, 5], [Fin(0.0), NaN, Fin(0.0)], maxStep, 3, [0, 1, 5], [Fin(0.0), NaN, Fin(0.0)], pos)
  {
    var ts, values := [0, 1, 5], [Fin(0.0), NaN, Fin(0.0)];
    assert BreaksAfter(ts, values, maxStep, 0);
    assert |pos| == 3 && pos[1] == 2 ==> !Placed(ts, values, maxStep, ts, values, 1, pos[1]);
  }

  // Strictly increasing times stay so, for all inputs, under the same condition.
  lemma BrokenIncreasingIff(maxStep: int)
    ensures (forall ts, values, outTs, outValues :: InOrderAfter(maxStep, ts, values, outTs, outValues))
            <==> maxStep >= 1
  {
    hide IsBroken, Breaks;
    if maxStep >= 1 {
      forall ts, values, outTs, outValues ensures InOrderAfter(maxStep, ts, values, outTs, outValues) {
        if |ts| == |values| && Breaks(ts, values, maxStep, outTs, outValues) && Increasing(ts) {
          var pos := BrokenPositions(ts, values, maxStep, outTs, outValues);
          BrokenIncreasing(ts, values, maxStep, outTs, outValues, pos);
        }
      }
    } else {
      var ts, values, outTs, outValues := TightLimitBreaks(maxStep, 1);
      assert outTs[1] == outTs[2];
      assert !InOrderAfter(maxStep, ts, values, outTs, outValues);
    }
  }
}
