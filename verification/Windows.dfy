/**
 The window planner of the text classifier: overlapping windows that cover a token list, thinned out
 evenly when there are more than the cap allows.
 */
module Windows {
  import opened Bits

  datatype Window = Window(start: nat, end: nat)

  function Max(a: int, b: int): (r: int)
    ensures r >= a && r >= b && (r == a || r == b)
  {
    if a >= b then a else b
  }

  // ---- The full plan ----

  /** The distance between consecutive starts; never zero. */
  function Step(length: nat, overlap: nat): (step: nat)
    requires length >= 1
    ensures 1 <= step <= length && length - step == Min(overlap, length - 1)
  {
    length - Min(overlap, length - 1)
  }

  /** The index of the last window: (n - length) / step, rounded up. */
  function Last(n: nat, length: nat, step: nat): nat
    requires n > length && step >= 1
  {
    (n - length + step - 1) / step
  }

  /** Windows start every `step` tokens; the last one is aligned to the end. */
  function StartAt(n: nat, length: nat, step: nat, i: nat): nat
    requires n > length
  {
    Min(i * step, n - length)
  }

  /** The last index is the only one that reaches the end where its predecessor does not. */
  lemma LastIs(n: nat, length: nat, step: nat, c: nat)
    requires n > length && step >= 1
    ensures c == Last(n, length, step) <==> (c - 1) * step < n - length <= c * step
    ensures Last(n, length, step) >= 1
  {
    var x := n - length + step - 1;
    var last := x / step;
    assert x == last * step + x % step;
    MulDist(last, 1, step);
    MulDist(c, 1, step);
    if (c - 1) * step < n - length <= c * step {
      DivModUnique(x, step, c, x - c * step);
    }
    if last == 0 {
      DivModUnique(x, step, 1, x - step);
    }
  }

  /** Below the last index the starts are multiples of the step, short of the end. */
  lemma StartsRise(n: nat, length: nat, step: nat, i: nat, j: nat)
    requires n > length && step >= 1 && i < j <= Last(n, length, step)
    ensures StartAt(n, length, step, i) == i * step
    ensures StartAt(n, length, step, i) < StartAt(n, length, step, j)
  {
    var last := Last(n, length, step);
    LastIs(n, length, step, last);
    MulMono(i, last - 1, step);
    MulMono(i + 1, j, step);
    MulDist(i, 1, step);
  }

  /** The whole token list is covered. */
  lemma EveryTokenCovered(n: nat, length: nat, step: nat, t: nat) returns (i: nat)
    requires n > length && 1 <= step <= length && t < n
    ensures i <= Last(n, length, step)
    ensures StartAt(n, length, step, i) <= t < StartAt(n, length, step, i) + length
  {
    var last := Last(n, length, step);
    LastIs(n, length, step, last);
    i := t / step;
    assert t == i * step + t % step;
    if i < last {
      StartsRise(n, length, step, i, last);
    } else {
      MulMono(last, i, step);
      i := last;
    }
  }

  /** Neighbours overlap by what was asked for, or by all but one token. */
  lemma NeighboursOverlap(n: nat, length: nat, overlap: nat, i: nat)
    requires n > length >= 1
    ensures var step := Step(length, overlap);
            StartAt(n, length, step, i) + length - StartAt(n, length, step, i + 1) >= Min(overlap, length - 1)
  {
    MulDist(i, 1, Step(length, overlap));
  }

  /** The loop that lays out the starts. */
  method PlanStarts(n: nat, length: nat, step: nat) returns (starts: seq<nat>)
    requires n > length && step >= 1
    ensures |starts| == Last(n, length, step) + 1
    ensures forall i :: 0 <= i < |starts| ==> starts[i] == StartAt(n, length, step, i)
  {
    starts := [];
    var s := 0;
    while true
      invariant s == |starts| * step && s - step < n - length
      invariant forall i :: 0 <= i < |starts| ==> starts[i] == StartAt(n, length, step, i)
      decreases n - s
    {
      MulDist(|starts|, 1, step);
      if s + length >= n {
        LastIs(n, length, step, |starts|);
        starts := starts + [n - length];
        break;
      }
      starts := starts + [s];
      s := s + step;
    }
  }

  // ---- Sampling ----

  /** The plan index of the i-th of `k` samples of 0..last. */
  function Sample(i: nat, last: nat, k: nat): nat
    requires k >= 2
  {
    (i * last + (k - 1) / 2) / (k - 1)
  }

  lemma SampleEnds(last: nat, k: nat)
    requires k >= 2
    ensures Sample(0, last, k) == 0 && Sample(k - 1, last, k) == last
  {
    var half := (k - 1) / 2;
    assert 0 * last == 0;
    DivModUnique(half, k - 1, 0, half);
    DivModUnique((k - 1) * last + half, k - 1, last, half);
  }

  /** A sample is the nearest plan index to its exact position, rounding halves up. */
  lemma SampleIsNearest(i: nat, last: nat, k: nat)
    requires k >= 2
    ensures 2 * i * last - (k - 1) < 2 * (k - 1) * Sample(i, last, k) <= 2 * i * last + (k - 1)
  {
    var d, half := k - 1, (k - 1) / 2;
    var x := i * last + half;
    assert x == (x / d) * d + x % d;
    assert 2 * (k - 1) * Sample(i, last, k) == 2 * ((x / d) * d);
    assert 2 * i * last == 2 * (i * last);
  }

  /** Adding `a` to the numerator moves a quotient by a/d, or one more. */
  lemma QuotientStep(x: nat, a: nat, d: nat)
    requires d >= 1
    ensures a / d <= (x + a) / d - x / d <= a / d + 1
  {
    var r := x % d + a % d;
    assert x + a == (x / d + a / d) * d + r by {
      MulDist(x / d, a / d, d);
    }
    if r < d {
      DivModUnique(x + a, d, x / d + a / d, r);
    } else {
      MulDist(x / d + a / d, 1, d);
      DivModUnique(x + a, d, x / d + a / d + 1, r - d);
    }
  }

  /** Successive samples are one of two consecutive distances apart. */
  lemma SampleGap(i: nat, last: nat, k: nat)
    requires k >= 2
    ensures last / (k - 1) <= Sample(i + 1, last, k) - Sample(i, last, k) <= last / (k - 1) + 1
  {
    MulDist(i, 1, last);
    QuotientStep(i * last + (k - 1) / 2, last, k - 1);
  }

  lemma {:induction false} SamplesRise(i: nat, j: nat, last: nat, k: nat)
    requires 2 <= k <= last && i < j
    ensures Sample(i, last, k) < Sample(j, last, k)
    decreases j
  {
    SampleGap(j - 1, last, k);
    DivAtLeastOne(last, k - 1);
    if i < j - 1 {
      SamplesRise(i, j - 1, last, k);
    }
  }

  lemma DivAtLeastOne(x: nat, d: nat)
    requires 1 <= d <= x
    ensures x / d >= 1
  {
    assert x == (x / d) * d + x % d;
  }

  /** Consecutive repetitions removed. */
  function Dedup(s: seq<nat>): seq<nat> {
    if |s| <= 1 then s
    else if s[|s| - 2] == s[|s| - 1] then Dedup(s[..|s| - 1])
    else Dedup(s[..|s| - 1]) + [s[|s| - 1]]
  }

  lemma {:induction false} DedupOfRising(s: seq<nat>)
    requires forall i :: 0 < i < |s| ==> s[i - 1] < s[i]
    ensures Dedup(s) == s
  {
    if |s| > 1 {
      DedupOfRising(s[..|s| - 1]);
      assert s[|s| - 2] < s[|s| - 1];
    }
  }

  lemma SampleWithin(i: nat, last: nat, k: nat)
    requires 2 <= k <= last && i < k
    ensures Sample(i, last, k) <= last
  {
    SampleEnds(last, k);
    if i < k - 1 {
      SamplesRise(i, k - 1, last, k);
    }
  }

  ghost predicate SampledFrom(out: seq<nat>, starts: seq<nat>, k: nat)
    requires 2 <= k < |starts|
  {
    && |out| == k
    && forall i :: 0 <= i < k ==>
         var p := Sample(i, |starts| - 1, k);
         p < |starts| && out[i] == starts[p]
  }

  /** Samples of a rising plan rise, so none repeats. */
  lemma SampledRise(out: seq<nat>, starts: seq<nat>, k: nat)
    requires 2 <= k < |starts| && SampledFrom(out, starts, k)
    requires forall i, j :: 0 <= i < j < |starts| ==> starts[i] < starts[j]
    ensures Dedup(out) == out
  {
    forall i | 0 < i < |out| ensures out[i - 1] < out[i] {
      SamplesRise(i - 1, i, |starts| - 1, k);
    }
    DedupOfRising(out);
  }

  /** The samples drawn from the plan; removing repetitions removes nothing. */
  method SampleStarts(starts: seq<nat>, k: nat) returns (out: seq<nat>)
    requires 2 <= k < |starts|
    requires forall i, j :: 0 <= i < j < |starts| ==> starts[i] < starts[j]
    ensures SampledFrom(out, starts, k)
  {
    var last := |starts| - 1;
    out := [];
    for i := 0 to k
      invariant |out| == i
      invariant forall j :: 0 <= j < i ==>
                  var p := Sample(j, last, k);
                  p <= last && out[j] == starts[p]
    {
      SampleWithin(i, last, k);
      out := out + [starts[Sample(i, last, k)]];
    }
    SampledRise(out, starts, k);
    out := Dedup(out);
  }

  // ---- The planner ----

  /** The plan index of the i-th window returned, when `last` is the last planned index. */
  function Picked(i: nat, last: nat, k: nat): nat
    requires k >= 1
  {
    if last < k then i else if k == 1 then 0 else Sample(i, last, k)
  }

  /** The windows planned for a text longer than one window, thinned out to the cap. */
  ghost predicate IsPlan(windows: seq<Window>, n: nat, length: nat, overlap: nat, k: nat)
    requires n > length >= 1 && k >= 1
  {
    var step := Step(length, overlap);
    var last := Last(n, length, step);
    && |windows| == Min(last + 1, k)
    && forall i :: 0 <= i < |windows| ==>
         var start := StartAt(n, length, step, Picked(i, last, k));
         windows[i] == Window(start, start + length)
  }

  ghost predicate Covered(windows: seq<Window>, t: nat) {
    exists i :: 0 <= i < |windows| && windows[i].start <= t < windows[i].end
  }

  /** Within the cap: every token lies in a window, neighbours overlap as asked, windows have full
      length inside the text. */
  lemma PlanCovers(windows: seq<Window>, n: nat, length: nat, overlap: nat, k: nat)
    requires n > length >= 1 && k >= 1 && IsPlan(windows, n, length, overlap, k)
    requires Last(n, length, Step(length, overlap)) < k
    ensures forall t :: 0 <= t < n ==> Covered(windows, t)
    ensures forall i :: 0 < i < |windows| ==> windows[i - 1].end - windows[i].start >= Min(overlap, length - 1)
    ensures forall i :: 0 < i < |windows| ==> windows[i - 1].start < windows[i].start
    ensures forall i :: 0 <= i < |windows| ==> windows[i].end - windows[i].start == length && windows[i].end <= n
  {
    var step := Step(length, overlap);
    forall t: nat | t < n ensures Covered(windows, t) {
      var i := EveryTokenCovered(n, length, step, t);
      assert windows[i].start <= t < windows[i].end;
    }
    forall i | 0 < i < |windows|
      ensures windows[i - 1].end - windows[i].start >= Min(overlap, length - 1)
      ensures windows[i - 1].start < windows[i].start
    {
      NeighboursOverlap(n, length, overlap, i - 1);
      StartsRise(n, length, step, i - 1, i);
    }
  }

  /** A cap of one keeps the first window alone. */
  lemma CapOfOneKeepsFirst(windows: seq<Window>, n: nat, length: nat, overlap: nat)
    requires n > length >= 1 && IsPlan(windows, n, length, overlap, 1)
    ensures windows == [Window(0, length)]
  {
    LastIs(n, length, Step(length, overlap), 0);
    assert windows[0] == Window(0, length);
  }

  /** Above a cap of at least two: exactly the cap, first and last window kept, strictly increasing,
      and the numbers of planned windows skipped between neighbours differ by at most one. */
  lemma SampledPlanSpreads(windows: seq<Window>, n: nat, length: nat, overlap: nat, k: nat)
    requires n > length >= 1 && k >= 2 && IsPlan(windows, n, length, overlap, k)
    requires Last(n, length, Step(length, overlap)) >= k
    ensures |windows| == k && windows[0] == Window(0, length) && windows[k - 1] == Window(n - length, n)
    ensures forall i :: 0 < i < k ==> windows[i - 1].start < windows[i].start
    ensures var last := Last(n, length, Step(length, overlap));
            forall i {:trigger Picked(i, last, k)} :: 0 < i < k ==>
              last / (k - 1) <= Picked(i, last, k) - Picked(i - 1, last, k) <= last / (k - 1) + 1
  {
    var step := Step(length, overlap);
    var last := Last(n, length, step);
    SampleEnds(last, k);
    LastIs(n, length, step, last);
    forall i | 0 < i < k
      ensures windows[i - 1].start < windows[i].start
      ensures last / (k - 1) <= Picked(i, last, k) - Picked(i - 1, last, k) <= last / (k - 1) + 1
    {
      SampleGap(i - 1, last, k);
      SamplesRise(i - 1, i, last, k);
      if i < k - 1 {
        SamplesRise(i, k - 1, last, k);
      }
      StartsRise(n, length, step, Sample(i - 1, last, k), Sample(i, last, k));
    }
  }

  /** `plan_windows`. Nothing for no tokens, one window for a short text, otherwise the plan; when the
      cap allows the whole plan, every token is covered. */
  method PlanWindows(n: nat, contentLen: nat, overlap: nat, maxWindows: nat) returns (windows: seq<Window>)
    ensures n == 0 ==> windows == []
    ensures 0 < n <= Max(contentLen, 1) ==> windows == [Window(0, n)]
    ensures n > Max(contentLen, 1) ==> IsPlan(windows, n, Max(contentLen, 1), overlap, Max(maxWindows, 1))
    ensures n > Max(contentLen, 1) && Last(n, Max(contentLen, 1), Step(Max(contentLen, 1), overlap)) < Max(maxWindows, 1) ==>
              forall t :: 0 <= t < n ==> Covered(windows, t)
  {
    if n == 0 {
      return [];
    }
    var length := Max(contentLen, 1);
    if n <= length {
      return [Window(0, n)];
    }
    var step := Step(length, overlap);
    var starts := PlanStarts(n, length, step);
    forall i, j | 0 <= i < j < |starts| ensures starts[i] < starts[j] {
      StartsRise(n, length, step, i, j);
    }
    var k := Max(maxWindows, 1);
    var picked := starts;
    if |starts| > k {
      if k == 1 {
        picked := [starts[0]];
      } else {
        picked := SampleStarts(starts, k);
      }
    }
    windows := seq(|picked|, i requires 0 <= i < |picked| => Window(picked[i], picked[i] + length));
    if |starts| <= k {
      PlanCovers(windows, n, length, overlap, k);
    }
  }
}
