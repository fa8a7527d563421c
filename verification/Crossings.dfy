/** Finding the parts of a waveform above a threshold, and the highest pulse among them. */
module Crossings {

  /** A crossing covers the samples from first up to, but not including, second. */
  datatype Crossing = Crossing(first: int, second: int)

  /** Samples a to b - 1 are above the threshold and cannot be extended on either side. */
  ghost predicate MaximalRun(w: seq<real>, thr: real, a: int, b: int) {
    && 0 <= a < b <= |w|
    && (forall i :: a <= i < b ==> w[i] > thr)
    && (a > 0 ==> w[a - 1] <= thr)
    && (b < |w| ==> w[b] <= thr)
  }

  /** Ordered, disjoint, and exactly the maximal runs. */
  ghost predicate ExactlyTheRuns(w: seq<real>, thr: real, cs: seq<Crossing>) {
    && (forall i, j :: 0 <= i < j < |cs| ==> cs[i].second < cs[j].first)
    && (forall i :: 0 <= i < |cs| ==> MaximalRun(w, thr, cs[i].first, cs[i].second))
    && (forall a, b :: MaximalRun(w, thr, a, b) ==> Crossing(a, b) in cs)
  }

  /** No sample above the threshold stands next to one equal to it. */
  predicate NoTouch(w: seq<real>, thr: real) {
    forall i, j :: 0 <= i < |w| && j == i + 1 < |w| ==>
      !(w[i] > thr && w[j] == thr) && !(w[i] == thr && w[j] > thr)
  }

  // ---- the loop as a function ----

  /** The crossings recorded and the start of the one that is open (-1 for none) after the first k
      samples. */
  function Scan(w: seq<real>, thr: real, k: nat): (r: (seq<Crossing>, int))
    requires 1 <= k <= |w|
  {
    if k == 1 then ([], if w[0] > thr then 0 else -1)
    else
      var (cs, first) := Scan(w, thr, k - 1);
      var ii := k - 1;
      if w[ii] > thr && w[ii - 1] < thr then (cs, ii)
      else if w[ii] < thr && w[ii - 1] > thr && first != -1 then (cs + [Crossing(first, ii)], -1)
      else (cs, first)
  }

  /** A last sample above the threshold closes a crossing at the end, whether one is open or not. */
  function Find(w: seq<real>, thr: real): seq<Crossing>
    requires w != []
  {
    var (cs, first) := Scan(w, thr, |w|);
    if w[|w| - 1] > thr then cs + [Crossing(first, |w|)] else cs
  }

  /** Step 2 of the conversion: find the threshold crossings. */
  method FindCrossings(w: seq<real>, thr: real) returns (crossings: seq<Crossing>)
    requires w != []
    ensures crossings == Find(w, thr)
  {
    crossings := [];
    var open := Crossing(-1, -1);
    if w[0] > thr {
      open := open.(first := 0);
    }
    var size, ii := |w|, 1;
    while ii < size
      invariant 1 <= ii <= size
      invariant open.second == -1 && (crossings, open.first) == Scan(w, thr, ii)
    {
      if w[ii] > thr && w[ii - 1] < thr {
        open := open.(first := ii);
      } else if w[ii] < thr && w[ii - 1] > thr && open.first != -1 {
        open := open.(second := ii);
        crossings := crossings + [open];
        open := Crossing(-1, -1);
      }
      ii := ii + 1;
    }
    if w[size - 1] > thr {
      open := open.(second := size);
      crossings := crossings + [open];
    }
  }

  // ---- every waveform ----

  lemma {:induction false} ScanIsPositive(w: seq<real>, thr: real, k: nat)
    requires 1 <= k <= |w|
    ensures var (cs, first) := Scan(w, thr, k);
            -1 <= first < k && forall i :: 0 <= i < |cs| ==> 0 <= cs[i].first < cs[i].second < k
  {
    if k > 1 {
      ScanIsPositive(w, thr, k - 1);
    }
  }

  /** Every recorded time over threshold is positive, whatever the waveform: the branch that reports a
      negative one is never taken. */
  lemma TimeOverThresholdIsPositive(w: seq<real>, thr: real, i: nat)
    requires w != [] && i < |Find(w, thr)|
    ensures Find(w, thr)[i].second - Find(w, thr)[i].first > 0
  {
    ScanIsPositive(w, thr, |w|);
  }

  // ---- waveforms without touching ----

  /** The scan so far on a waveform without touching: the open crossing is the run that the last
      sample is in, the recorded ones are the closed runs. */
  ghost predicate ScanOkay(w: seq<real>, thr: real, k: nat)
    requires 1 <= k <= |w|
  {
    var (cs, first) := Scan(w, thr, k);
    && (w[k - 1] > thr <==> first != -1)
    && (first != -1 ==>
          0 <= first < k && (forall i :: first <= i < k ==> w[i] > thr) && (first > 0 ==> w[first - 1] <= thr))
    && (forall i, j :: 0 <= i < j < |cs| ==> cs[i].second < cs[j].first)
    && (forall i :: 0 <= i < |cs| ==> MaximalRun(w, thr, cs[i].first, cs[i].second) && cs[i].second < k)
    && (first != -1 ==> forall i :: 0 <= i < |cs| ==> cs[i].second < first)
    && (forall a, b :: MaximalRun(w, thr, a, b) && b < k ==> Crossing(a, b) in cs)
  }

  lemma {:induction false} ScanFindsRuns(w: seq<real>, thr: real, k: nat)
    requires 1 <= k <= |w| && NoTouch(w, thr)
    ensures ScanOkay(w, thr, k)
  {
    if k > 1 {
      ScanFindsRuns(w, thr, k - 1);
      ScanStepOkay(w, thr, k);
    }
  }

  lemma ScanStepOkay(w: seq<real>, thr: real, k: nat)
    requires 2 <= k <= |w| && NoTouch(w, thr) && ScanOkay(w, thr, k - 1)
    ensures ScanOkay(w, thr, k)
  {
    var (cs, first) := Scan(w, thr, k - 1);
    var (ds, next) := Scan(w, thr, k);
    forall a, b | MaximalRun(w, thr, a, b) && b < k
      ensures Crossing(a, b) in ds
    {
      if b == k - 1 {
        // the run just closed is the one that was open
        assert w[k - 2] > thr && w[k - 1] <= thr;
        assert first == a by { RunIsUnique(w, thr, a, first, b); }
        assert ds[|ds| - 1] == Crossing(a, b);
      } else {
        assert Crossing(a, b) in cs;
      }
    }
  }

  lemma RunIsUnique(w: seq<real>, thr: real, a: int, first: int, b: int)
    requires MaximalRun(w, thr, a, b) && 0 <= first < b
    requires (forall i :: first <= i < b ==> w[i] > thr) && (first > 0 ==> w[first - 1] <= thr)
    ensures first == a
  {
  }

  lemma NoTouchFindsRuns(w: seq<real>, thr: real)
    requires w != [] && NoTouch(w, thr)
    ensures ExactlyTheRuns(w, thr, Find(w, thr))
  {
    var n := |w|;
    ScanFindsRuns(w, thr, n);
    var (cs, first) := Scan(w, thr, n);
    forall a, b | MaximalRun(w, thr, a, b)
      ensures Crossing(a, b) in Find(w, thr)
    {
      if b == n {
        RunIsUnique(w, thr, a, first, n);
        assert Find(w, thr)[|cs|] == Crossing(a, b);
      } else {
        assert Crossing(a, b) in cs;
        var i :| 0 <= i < |cs| && cs[i] == Crossing(a, b);
        assert Find(w, thr)[i] == cs[i];
      }
    }
  }

  // ---- waveforms with touching ----

  /** Each recorded crossing starts at a strict rise from below, at 0 or at -1, and ends at a strict
      fall to below or at the end. */
  lemma {:induction false} ScanEndsAreStrict(w: seq<real>, thr: real, k: nat)
    requires 1 <= k <= |w|
    ensures var (cs, first) := Scan(w, thr, k);
            && (first > 0 ==> first < k && w[first - 1] < thr)
            && (forall i :: 0 <= i < |cs| ==>
                0 < cs[i].second < k && w[cs[i].second] < thr && cs[i].first < cs[i].second)
            && (forall i :: 0 <= i < |cs| && cs[i].first > 0 ==> w[cs[i].first - 1] < thr)
  {
    if k > 1 {
      ScanEndsAreStrict(w, thr, k - 1);
    }
  }

  lemma {:induction false} RunEnd(w: seq<real>, thr: real, a: int, b: int) returns (end: int)
    requires 0 <= a < b <= |w| && forall i :: a <= i < b ==> w[i] > thr
    ensures b <= end <= |w| && (forall i :: a <= i < end ==> w[i] > thr) && (end < |w| ==> w[end] <= thr)
    decreases |w| - b
  {
    if b < |w| && w[b] > thr {
      end := RunEnd(w, thr, a, b + 1);
    } else {
      end := b;
    }
  }

  lemma {:induction false} RunStart(w: seq<real>, thr: real, a: int, b: int) returns (start: int)
    requires 0 <= a < b <= |w| && forall i :: a <= i < b ==> w[i] > thr
    ensures 0 <= start <= a && (forall i :: start <= i < b ==> w[i] > thr) && (start > 0 ==> w[start - 1] <= thr)
    decreases a
  {
    if a > 0 && w[a - 1] > thr {
      start := RunStart(w, thr, a - 1, b);
    } else {
      start := a;
    }
  }

  lemma ScanEndAt(w: seq<real>, thr: real, i: nat)
    requires w != [] && i < |Scan(w, thr, |w|).0|
    ensures var c := Scan(w, thr, |w|).0[i];
            0 <= c.first < c.second < |w| && w[c.second] < thr && (c.first > 0 ==> w[c.first - 1] < thr)
  {
    ScanIsPositive(w, thr, |w|);
    ScanEndsAreStrict(w, thr, |w|);
    hide Scan;
  }

  lemma OpenStartIsStrict(w: seq<real>, thr: real)
    requires w != []
    ensures var first := Scan(w, thr, |w|).1; -1 <= first < |w| && (first > 0 ==> w[first - 1] < thr)
  {
    ScanIsPositive(w, thr, |w|);
    ScanEndsAreStrict(w, thr, |w|);
    hide Scan;
  }

  lemma FindEndsAreStrict(w: seq<real>, thr: real, i: nat)
    requires w != [] && i < |Find(w, thr)|
    ensures var c := Find(w, thr)[i];
            && c.second <= |w| && (0 <= c.second < |w| ==> w[c.second] < thr)
            && c.first < |w| && (c.first > 0 ==> w[c.first - 1] < thr)
  {
    hide Scan;
    if i < |Scan(w, thr, |w|).0| {
      ScanEndAt(w, thr, i);
    } else {
      OpenStartIsStrict(w, thr);
    }
  }

  /** The run that ends at a sample equal to the threshold is not recorded. */
  lemma TouchedEndIsMissed(w: seq<real>, thr: real, i: nat) returns (start: int)
    requires i + 1 < |w| && w[i] > thr && w[i + 1] == thr
    ensures MaximalRun(w, thr, start, i + 1) && Crossing(start, i + 1) !in Find(w, thr)
  {
    hide Find;
    start := RunStart(w, thr, i, i + 1);
    if Crossing(start, i + 1) in Find(w, thr) {
      var k :| 0 <= k < |Find(w, thr)| && Find(w, thr)[k] == Crossing(start, i + 1);
      FindEndsAreStrict(w, thr, k);
    }
  }

  /** The run that begins after a sample equal to the threshold is not recorded. */
  lemma TouchedStartIsMissed(w: seq<real>, thr: real, i: nat) returns (end: int)
    requires i + 1 < |w| && w[i] == thr && w[i + 1] > thr
    ensures MaximalRun(w, thr, i + 1, end) && Crossing(i + 1, end) !in Find(w, thr)
  {
    hide Find;
    end := RunEnd(w, thr, i + 1, i + 2);
    if Crossing(i + 1, end) in Find(w, thr) {
      var k :| 0 <= k < |Find(w, thr)| && Find(w, thr)[k] == Crossing(i + 1, end);
      FindEndsAreStrict(w, thr, k);
    }
  }

  /** Two pulses that meet in a sample at the threshold are recorded as one. */
  lemma TouchingPulsesMerge()
    ensures var w := [2.0, 1.0, 2.0];
            Find(w, 1.0) == [Crossing(0, 3)] && MaximalRun(w, 1.0, 0, 1) && MaximalRun(w, 1.0, 2, 3)
  {
    var w := [2.0, 1.0, 2.0];
    assert Scan(w, 1.0, 1) == ([], 0);
    assert Scan(w, 1.0, 2) == ([], 0);
    assert Scan(w, 1.0, 3) == ([], 0);
  }

  /** The recorded crossings are exactly the maximal runs above the threshold, ordered and disjoint,
      exactly when no sample above the threshold stands next to one equal to it. */
  lemma FindsRunsExactlyWhen(w: seq<real>, thr: real)
    requires w != []
    ensures ExactlyTheRuns(w, thr, Find(w, thr)) <==> NoTouch(w, thr)
  {
    hide Find;
    if NoTouch(w, thr) {
      NoTouchFindsRuns(w, thr);
    } else {
      var i, j :|
        0 <= i < |w| && j == i + 1 < |w| && ((w[i] > thr && w[j] == thr) || (w[i] == thr && w[j] > thr));
      if w[i] > thr {
        var start := TouchedEndIsMissed(w, thr, i);
      } else {
        var end := TouchedStartIsMissed(w, thr, i);
      }
    }
  }

  // ---- the highest pulse ----

  /** The index of the highest sample from first to last, the earliest of equals. */
  ghost predicate IsPeak(w: seq<real>, first: int, last: int, t: int)
    requires 0 <= first && last < |w|
  {
    && first <= t <= last
    && (forall i :: first <= i <= last ==> w[i] <= w[t])
    && (forall i :: first <= i < t ==> w[i] < w[t])
  }

  method GetMaximum(first: int, last: int, w: seq<real>) returns (max: real, tmax: int)
    requires 0 <= first <= last < |w|
    ensures IsPeak(w, first, last, tmax) && max == w[tmax]
  {
    max, tmax := w[first], first;
    var ii := first;
    while ii <= last
      invariant first <= ii <= last + 1
      invariant first <= tmax <= last && max == w[tmax]
      invariant forall i :: first <= i < ii ==> w[i] <= max
      invariant forall i :: first <= i < tmax ==> w[i] < max
    {
      if w[ii] > max {
        tmax := ii;
        max := w[ii];
      }
      ii := ii + 1;
    }
  }

  /** A crossing counts when it lasts longer than the minimum or touches an end of the waveform. */
  predicate Counts(c: Crossing, size: int, minTot: real) {
    (c.second - c.first) as real > minTot || c.second == size || c.first == 0
  }

  /** The samples among which the peak of a crossing is looked for: one past its end is included, as
      far as the waveform goes. */
  function RangeFirst(c: Crossing): int { if c.first < 0 then 0 else c.first }
  function RangeLast(c: Crossing, size: int): int { if c.second >= size then size - 1 else c.second }

  lemma {:induction false} FoundInside(w: seq<real>, thr: real, i: nat)
    requires w != [] && i < |Find(w, thr)|
    ensures var c := Find(w, thr)[i]; 0 <= RangeFirst(c) <= RangeLast(c, |w|) < |w|
  {
    ScanIsPositive(w, thr, |w|);
  }

  /** The charge selection: of the crossings that count, one whose peak is the highest. None counts, or
      none rises above the start value of the search, exactly when none is chosen. */
  method ChoosePulse(w: seq<real>, thr: real, minTot: real) returns (chosen: int, peak: int)
    requires w != []
    ensures var cs := Find(w, thr);
            && -1 <= chosen < |cs|
            && (chosen >= 0 ==>
                  && Counts(cs[chosen], |w|, minTot)
                  && 0 <= RangeFirst(cs[chosen]) && RangeLast(cs[chosen], |w|) < |w|
                  && IsPeak(w, RangeFirst(cs[chosen]), RangeLast(cs[chosen], |w|), peak) && w[peak] > -9999.0)
    ensures forall i, t :: 0 <= i < |Find(w, thr)| && Counts(Find(w, thr)[i], |w|, minTot)
                           && RangeFirst(Find(w, thr)[i]) <= t <= RangeLast(Find(w, thr)[i], |w|) && 0 <= t < |w| ==>
              w[t] <= if chosen >= 0 then w[peak] else -9999.0
  {
    hide Find;
    var cs := FindCrossings(w, thr);
    var araw := -9999.0;
    chosen, peak := -1, -1;
    var k := 0;
    while k < |cs|
      invariant 0 <= k <= |cs| && -1 <= chosen < k
      invariant chosen == -1 ==> araw == -9999.0
      invariant chosen >= 0 ==>
                  && Counts(cs[chosen], |w|, minTot)
                  && 0 <= RangeFirst(cs[chosen]) && RangeLast(cs[chosen], |w|) < |w|
                  && IsPeak(w, RangeFirst(cs[chosen]), RangeLast(cs[chosen], |w|), peak) && araw == w[peak] > -9999.0
      invariant forall i, t ::
                  0 <= i < k && 0 <= t < |w| && RangeFirst(cs[i]) <= t <= RangeLast(cs[i], |w|) ==>
                  Counts(cs[i], |w|, minTot) ==>
                  w[t] <= araw
    {
      var xmin, xmax := cs[k].first, cs[k].second;
      if (xmax - xmin) as real > minTot || xmax == |w| || xmin == 0 {
        FoundInside(w, thr, k);
        var ixmin, ixmax := xmin, xmax;
        if ixmin < 0 {
          ixmin := 0;
        }
        if ixmax >= |w| {
          ixmax := |w| - 1;
        }
        var max, tmax := GetMaximum(ixmin, ixmax, w);
        if araw < max {
          araw, chosen, peak := max, k, tmax;
        }
      }
      k := k + 1;
    }
  }
}
