/**
 * The deal-banner marquee engine (static/js/deal-banner-carousel.js).
 *
 * The track is a sequence of items: the originals written in the page markup
 * and the aria-hidden clones that FillTrack appends, one full round of clones
 * at a time. Layout measurement is abstracted: the track's scrollWidth is the
 * sum of its items' widths and the marquee's clientWidth is a given number of
 * pixels. The speed of the scroll is a class `deal-marquee-speed-<s>` on the
 * marquee, modelled here as the set of those <s> values present.
 */
module DealBannerCarousel {

  /** An item of the track. A clone remembers which visible original it copies. */
  datatype Item = Original(w: nat) | Clone(src: nat, w: nat)

  const SpeedSteps: seq<int> := [10, 12, 14, 16, 18, 20, 24, 28, 32, 36, 40]
  const DesktopSpeed: nat := 110
  const MobileSpeed: nat := 140
  /** The viewport is "mobile" when it matches (max-width: 768px). */
  const MobileBreakpoint: nat := 768
  const FillFactor: real := 2.2
  const MaxRounds: nat := 8
  const MinSeconds: real := 10.0
  const MaxSeconds: real := 40.0

  /** A clone carries aria-hidden="true" (and tabindex="-1"); an original does not. */
  predicate IsHidden(it: Item) { it.Clone? }

  /** The track's scrollWidth: the sum of its items' widths. */
  function Width(items: seq<Item>): nat {
    if items == [] then 0 else items[0].w + Width(items[1..])
  }

  lemma {:induction false} WidthAppend(a: seq<Item>, b: seq<Item>)
    ensures Width(a + b) == Width(a) + Width(b)
  {
    if a == [] {
      assert a + b == b;
    } else {
      assert (a + b)[1..] == a[1..] + b;
      WidthAppend(a[1..], b);
    }
  }

  /** getVisibleItems: the items whose aria-hidden is not "true", in track order. */
  function Visible(track: seq<Item>): (r: seq<Item>)
    ensures forall k :: 0 <= k < |r| ==> !IsHidden(r[k])
    ensures |r| <= |track|
  {
    if track == [] then []
    else if IsHidden(track[0]) then Visible(track[1..])
    else [track[0]] + Visible(track[1..])
  }

  lemma {:induction false} VisibleAppend(a: seq<Item>, b: seq<Item>)
    ensures Visible(a + b) == Visible(a) + Visible(b)
  {
    if a == [] {
      assert a + b == b;
    } else {
      assert (a + b)[1..] == a[1..] + b;
      VisibleAppend(a[1..], b);
    }
  }

  /** One duplication round: a clone of every item, in order, starting at index `from`. */
  function CloneRound(items: seq<Item>, from: nat): (r: seq<Item>)
    requires from <= |items|
    decreases |items| - from
    ensures |r| == |items| - from
    ensures forall k :: 0 <= k < |r| ==> r[k] == Clone(from + k, items[from + k].w)
  {
    if from == |items| then [] else [Clone(from, items[from].w)] + CloneRound(items, from + 1)
  }

  /** `r` duplication rounds of `items`, one after another. */
  function Rounds(items: seq<Item>, r: nat): (t: seq<Item>)
    ensures |t| == r * |items|
  {
    if r == 0 then [] else Rounds(items, r - 1) + CloneRound(items, 0)
  }

  lemma {:induction false} CloneRoundFacts(items: seq<Item>, from: nat)
    requires from <= |items|
    decreases |items| - from
    ensures Visible(CloneRound(items, from)) == []
    ensures Width(CloneRound(items, from)) == Width(items[from..])
  {
    if from < |items| {
      var r := CloneRound(items, from);
      CloneRoundFacts(items, from + 1);
      assert r[1..] == CloneRound(items, from + 1);
      assert items[from..][1..] == items[from + 1..];
    }
  }

  /** Every appended round is invisible to getVisibleItems and as wide as the originals. */
  lemma {:induction false} RoundsFacts(items: seq<Item>, r: nat)
    ensures Visible(Rounds(items, r)) == []
    ensures Width(Rounds(items, r)) == r * Width(items)
  {
    if r > 0 {
      RoundsFacts(items, r - 1);
      CloneRoundFacts(items, 0);
      assert items[0..] == items;
      VisibleAppend(Rounds(items, r - 1), CloneRound(items, 0));
      WidthAppend(Rounds(items, r - 1), CloneRound(items, 0));
    }
  }

  /** Round `k` of the appended clones copies the originals one by one, in original order. */
  lemma {:induction false} RoundsAt(items: seq<Item>, r: nat, k: nat, i: nat)
    requires k < r && i < |items|
    ensures k * |items| + i < |Rounds(items, r)|
    ensures Rounds(items, r)[k * |items| + i] == Clone(i, items[i].w)
  {
    var n := |items|;
    assert (k + 1) * n == k * n + n;
    if k < r - 1 {
      RoundsAt(items, r - 1, k, i);
      assert (r - 1) * n >= (k + 1) * n by {
        assert r - 1 >= k + 1;
      }
    } else {
      assert (r - 1) * n == k * n;
    }
  }

  /** Appending one more round to `base` and `r` rounds gives `base` and `r + 1` rounds, one round wider. */
  lemma GrowByRound(base: seq<Item>, items: seq<Item>, r: nat)
    ensures base + Rounds(items, r) + CloneRound(items, 0) == base + Rounds(items, r + 1)
    ensures Width(base + Rounds(items, r + 1)) == Width(base) + (r + 1) * Width(items)
  {
    RoundsFacts(items, r + 1);
    WidthAppend(base, Rounds(items, r + 1));
  }

  /** The `while` condition of fillTrack: scrollWidth < clientWidth * 2.2. */
  predicate BelowTarget(width: nat, viewport: nat) {
    (width as real) < (viewport as real) * FillFactor
  }

  /** The number of rounds the loop of fillTrack runs, counted from round `r`. */
  function RoundsToFill(base: nat, roundWidth: nat, viewport: nat, r: nat): (n: nat)
    requires r <= MaxRounds
    decreases MaxRounds - r
    ensures r <= n <= MaxRounds
  {
    if r < MaxRounds && BelowTarget(base + r * roundWidth, viewport)
    then RoundsToFill(base, roundWidth, viewport, r + 1)
    else r
  }

  /** The loop stops at the round cap or at the first round count that reaches the target. */
  lemma {:induction false} RoundsToFillStops(base: nat, roundWidth: nat, viewport: nat, r: nat)
    requires r <= MaxRounds
    decreases MaxRounds - r
    ensures var n := RoundsToFill(base, roundWidth, viewport, r);
      && r <= n <= MaxRounds
      && (n == MaxRounds || !BelowTarget(base + n * roundWidth, viewport))
  {
    if r < MaxRounds && BelowTarget(base + r * roundWidth, viewport) {
      RoundsToFillStops(base, roundWidth, viewport, r + 1);
    }
  }

  /** Every round count before the stopping one was still below the target. */
  lemma {:induction false} RoundsToFillMinimal(base: nat, roundWidth: nat, viewport: nat, r: nat, j: nat)
    requires r <= MaxRounds && r <= j < RoundsToFill(base, roundWidth, viewport, r)
    decreases MaxRounds - r
    ensures BelowTarget(base + j * roundWidth, viewport)
  {
    if r < j {
      assert RoundsToFill(base, roundWidth, viewport, r) == RoundsToFill(base, roundWidth, viewport, r + 1);
      RoundsToFillMinimal(base, roundWidth, viewport, r + 1, j);
    }
  }

  lemma RoundsToFillStep(base: nat, roundWidth: nat, viewport: nat, r: nat)
    requires r < MaxRounds && BelowTarget(base + r * roundWidth, viewport)
    ensures RoundsToFill(base, roundWidth, viewport, r) == RoundsToFill(base, roundWidth, viewport, r + 1)
  {
  }

  lemma RoundsToFillDone(base: nat, roundWidth: nat, viewport: nat, r: nat)
    requires r <= MaxRounds && (r == MaxRounds || !BelowTarget(base + r * roundWidth, viewport))
    ensures RoundsToFill(base, roundWidth, viewport, r) == r
  {
  }

  /** The track after fillTrack, as a function of the track before and clientWidth. */
  function Filled(track: seq<Item>, viewport: nat): seq<Item> {
    var items := Visible(track);
    if viewport == 0 || items == [] then track
    else track + Rounds(items, RoundsToFill(Width(track), Width(items), viewport, 0))
  }

  /** fillTrack is a no-op without a measured width or without visible items. */
  lemma FillNoop(track: seq<Item>, viewport: nat)
    requires viewport == 0 || Visible(track) == []
    ensures Filled(track, viewport) == track
  {
  }

  /** The fillTrack result is the old track followed by the rounds the loop runs. */
  lemma FilledShape(track: seq<Item>, viewport: nat)
    requires viewport > 0 && Visible(track) != []
    ensures var items := Visible(track);
      var n := RoundsToFill(Width(track), Width(items), viewport, 0);
      && Filled(track, viewport) == track + Rounds(items, n)
      && Visible(Filled(track, viewport)) == items
      && Width(Filled(track, viewport)) == Width(track) + n * Width(items)
  {
    var items := Visible(track);
    var n := RoundsToFill(Width(track), Width(items), viewport, 0);
    var added := Rounds(items, n);
    RoundsFacts(items, n);
    WidthAppend(track, added);
    VisibleAppend(track, added);
    assert Visible(track) + [] == Visible(track);
  }

  /**
   * After fillTrack the track reaches 2.2 times the marquee width, or exactly
   * eight rounds were appended; the old track is an unchanged prefix and only
   * clones were added, so the visible items are still the originals.
   */
  lemma FilledSpec(track: seq<Item>, viewport: nat)
    requires viewport > 0 && Visible(track) != []
    ensures var t := Filled(track, viewport);
      && t[..|track|] == track
      && Visible(t) == Visible(track)
      && (!BelowTarget(Width(t), viewport) || |t| == |track| + MaxRounds * |Visible(track)|)
  {
    var items := Visible(track);
    var n := RoundsToFill(Width(track), Width(items), viewport, 0);
    FilledShape(track, viewport);
    RoundsToFillStops(Width(track), Width(items), viewport, 0);
    var t := Filled(track, viewport);
    assert t[..|track|] == track;
    if n == MaxRounds {
      assert |t| == |track| + MaxRounds * |items|;
    }
  }

  /** A second fillTrack at an unchanged width appends nothing once the target is met. */
  lemma FillIdempotent(track: seq<Item>, viewport: nat)
    requires !BelowTarget(Width(Filled(track, viewport)), viewport)
    ensures Filled(Filled(track, viewport), viewport) == Filled(track, viewport)
  {
    var t := Filled(track, viewport);
    if viewport > 0 && Visible(track) != [] {
      FilledSpec(track, viewport);
      assert RoundsToFill(Width(t), Width(Visible(t)), viewport, 0) == 0;
      assert t + Rounds(Visible(t), 0) == t;
    }
  }

  /** halfDistance = max(1, floor(scrollWidth / 2)). */
  function HalfDistance(scrollWidth: nat): nat {
    if scrollWidth / 2 < 1 then 1 else scrollWidth / 2
  }

  function Rate(viewportWidth: nat): nat {
    if viewportWidth <= MobileBreakpoint then MobileSpeed else DesktopSpeed
  }

  function RawSeconds(scrollWidth: nat, viewportWidth: nat): real {
    HalfDistance(scrollWidth) as real / Rate(viewportWidth) as real
  }

  /** Math.max(10, Math.min(seconds, 40)). */
  function Clamp(seconds: real): (r: real)
    ensures MinSeconds <= r <= MaxSeconds
    ensures MinSeconds <= seconds <= MaxSeconds ==> r == seconds
  {
    if seconds > MaxSeconds then MaxSeconds else if seconds < MinSeconds then MinSeconds else seconds
  }

  function Abs(x: real): real { if x < 0.0 then -x else x }

  /** SpeedSteps[k], spelled out so that the solver need not index a sequence display. */
  function Step(k: nat): int
    requires k < |SpeedSteps|
  {
    match k
    case 0 => 10 case 1 => 12 case 2 => 14 case 3 => 16 case 4 => 18 case 5 => 20
    case 6 => 24 case 7 => 28 case 8 => 32 case 9 => 36 case _ => 40
  }

  lemma StepIsSpeedStep(k: nat)
    requires k < |SpeedSteps|
    ensures Step(k) == SpeedSteps[k]
  {
  }

  lemma StepIncreasing(j: nat, k: nat)
    requires j < k < |SpeedSteps|
    ensures Step(j) < Step(k)
  {
  }

  function Diff(seconds: real, k: nat): real
    requires k < |SpeedSteps|
  {
    Abs(seconds - Step(k) as real)
  }

  /**
   * Step k is the choice of pickClosestStep: no step is nearer, and every
   * earlier step is strictly farther (the scan replaces only on a strict `<`).
   */
  predicate IsClosestAt(seconds: real, k: nat) {
    && k < |SpeedSteps|
    && (forall j :: 0 <= j < |SpeedSteps| ==> Diff(seconds, k) <= Diff(seconds, j))
    && (forall j :: 0 <= j < k ==> Diff(seconds, j) > Diff(seconds, k))
  }

  /** The scan of pickClosestStep from step i on, with the best index so far. */
  function ScanFrom(seconds: real, i: nat, best: nat): (r: nat)
    requires i <= |SpeedSteps| && best < |SpeedSteps|
    decreases |SpeedSteps| - i
    ensures r < |SpeedSteps|
  {
    if i == |SpeedSteps| then best
    else if Diff(seconds, i) < Diff(seconds, best) then ScanFrom(seconds, i + 1, i)
    else ScanFrom(seconds, i + 1, best)
  }

  function ClosestIndex(seconds: real): nat {
    ScanFrom(seconds, 0, 0)
  }

  /** pickClosestStep as a function of the duration. */
  function ClosestStep(seconds: real): int {
    SpeedSteps[ClosestIndex(seconds)]
  }

  lemma {:induction false} ScanFromSpec(seconds: real, i: nat, best: nat)
    requires i <= |SpeedSteps| && best < |SpeedSteps| && best <= i
    requires forall j :: 0 <= j < i ==> Diff(seconds, best) <= Diff(seconds, j)
    requires forall j :: 0 <= j < best ==> Diff(seconds, j) > Diff(seconds, best)
    decreases |SpeedSteps| - i
    ensures IsClosestAt(seconds, ScanFrom(seconds, i, best))
  {
    if i < |SpeedSteps| {
      if Diff(seconds, i) < Diff(seconds, best) {
        ScanFromSpec(seconds, i + 1, i);
      } else {
        ScanFromSpec(seconds, i + 1, best);
      }
    }
  }

  /** Only one index is closest in this sense, so the choice is determined. */
  lemma ClosestAtUnique(seconds: real, k: nat, m: nat)
    requires IsClosestAt(seconds, k) && IsClosestAt(seconds, m)
    ensures k == m
  {
    assert Diff(seconds, k) <= Diff(seconds, m) && Diff(seconds, m) <= Diff(seconds, k);
  }

  /** pickClosestStep returns the step nearest to `seconds`, the earlier one on a tie. */
  lemma ClosestStepSpec(seconds: real)
    ensures IsClosestAt(seconds, ClosestIndex(seconds))
    ensures ClosestStep(seconds) == SpeedSteps[ClosestIndex(seconds)] == Step(ClosestIndex(seconds))
  {
    ScanFromSpec(seconds, 0, 0);
    StepIsSpeedStep(ClosestIndex(seconds));
  }

  predicate StrictlyIncreasing(s: seq<int>) {
    forall i, j :: 0 <= i < j < |s| ==> s[i] < s[j]
  }

  /** Two durations x <= y cannot pick steps sb < sa with x nearer sa and y nearer sb. */
  lemma NoCrossing(x: real, y: real, sa: real, sb: real)
    requires x <= y && sb < sa
    requires Abs(x - sb) > Abs(x - sa)
    ensures Abs(y - sb) > Abs(y - sa)
  {
  }

  /** The index chosen for a longer duration is never an earlier one. */
  lemma ClosestIndexMonotone(x: real, y: real, a: nat, b: nat)
    requires x <= y && IsClosestAt(x, a) && IsClosestAt(y, b)
    ensures a <= b
  {
    if a > b {
      var sa, sb := Step(a) as real, Step(b) as real;
      assert Abs(x - sb) > Abs(x - sa) by {
        assert Diff(x, b) > Diff(x, a);
      }
      assert Abs(y - sb) <= Abs(y - sa) by {
        assert Diff(y, b) <= Diff(y, a);
      }
      StepIncreasing(b, a);
      NoCrossing(x, y, sa, sb);
      assert false;
    }
  }

  /** A longer duration never selects a shorter step. */
  lemma ClosestStepMonotone(x: real, y: real)
    requires x <= y
    ensures ClosestStep(x) <= ClosestStep(y)
  {
    ClosestStepSpec(x);
    ClosestStepSpec(y);
    var a, b := ClosestIndex(x), ClosestIndex(y);
    ClosestIndexMonotone(x, y, a, b);
    if a < b {
      StepIncreasing(a, b);
    }
  }

  /** The duration class updateSpeed selects for a track width and viewport width. */
  function SpeedFor(scrollWidth: nat, viewportWidth: nat): int {
    ClosestStep(Clamp(RawSeconds(scrollWidth, viewportWidth)))
  }

  /** The selected speed is always one of the fixed steps. */
  lemma SpeedIsStep(scrollWidth: nat, viewportWidth: nat)
    ensures SpeedFor(scrollWidth, viewportWidth) in SpeedSteps
  {
    ClosestStepSpec(Clamp(RawSeconds(scrollWidth, viewportWidth)));
  }

  /** For the same track, a mobile viewport never gets a slower (longer) step than a desktop one. */
  lemma MobileNotSlower(scrollWidth: nat, mobileWidth: nat, desktopWidth: nat)
    requires mobileWidth <= MobileBreakpoint < desktopWidth
    ensures SpeedFor(scrollWidth, mobileWidth) <= SpeedFor(scrollWidth, desktopWidth)
  {
    var h := HalfDistance(scrollWidth) as real;
    var m, d := RawSeconds(scrollWidth, mobileWidth), RawSeconds(scrollWidth, desktopWidth);
    assert m == h / 140.0 && d == h / 110.0;
    assert m <= d;
    assert Clamp(m) <= Clamp(d);
    ClosestStepMonotone(Clamp(m), Clamp(d));
  }

  /** Raw durations above 40 seconds select 40, below 10 seconds select 10. */
  lemma ClampedEnds(scrollWidth: nat, viewportWidth: nat)
    ensures RawSeconds(scrollWidth, viewportWidth) > MaxSeconds ==> SpeedFor(scrollWidth, viewportWidth) == 40
    ensures RawSeconds(scrollWidth, viewportWidth) < MinSeconds ==> SpeedFor(scrollWidth, viewportWidth) == 10
  {
    ClosestStepSpec(MaxSeconds);
    assert IsClosestAt(MaxSeconds, 10);
    ClosestAtUnique(MaxSeconds, 10, ClosestIndex(MaxSeconds));
    ClosestStepSpec(MinSeconds);
    assert IsClosestAt(MinSeconds, 0);
    ClosestAtUnique(MinSeconds, 0, ClosestIndex(MinSeconds));
  }

  /**
   * pickClosestStep: a scan over the steps keeping the best so far, replacing
   * it only on a strictly smaller distance. It computes ClosestStep, whose
   * meaning ClosestStepSpec states.
   */
  method PickClosestStep(seconds: real) returns (best: int)
    ensures best == ClosestStep(seconds)
  {
    best := SpeedSteps[0];
    var bestDiff := Abs(seconds - best as real);
    ghost var bi: nat := 0;
    var i := 0;
    while i < |SpeedSteps|
      invariant 0 <= i <= |SpeedSteps| && bi < |SpeedSteps|
      invariant best == SpeedSteps[bi] && bestDiff == Diff(seconds, bi)
      invariant ScanFrom(seconds, i, bi) == ClosestIndex(seconds)
    {
      var s := SpeedSteps[i];
      StepIsSpeedStep(i);
      var diff := Abs(seconds - s as real);
      if diff < bestDiff {
        best := s;
        bestDiff := diff;
        bi := i;
      }
      i := i + 1;
    }
  }

  /**
   * The marquee element: its measured clientWidth, the track it contains, and
   * the `deal-marquee-speed-<s>` classes it carries.
   */
  class Marquee {
    var clientWidth: nat
    var track: seq<Item>
    var speedClasses: set<int>

    constructor (clientWidth: nat, originals: seq<nat>)
      ensures this.clientWidth == clientWidth && speedClasses == {}
      ensures |track| == |originals|
      ensures forall k :: 0 <= k < |originals| ==> track[k] == Original(originals[k])
    {
      this.clientWidth := clientWidth;
      track := seq(|originals|, k requires 0 <= k < |originals| => Original(originals[k]));
      speedClasses := {};
    }

    /** clearSpeedClasses: removes every step class, leaves any other class. */
    method ClearSpeedClasses()
      modifies this`speedClasses
      ensures speedClasses == old(speedClasses) - set s | s in SpeedSteps
    {
      var i := 0;
      while i < |SpeedSteps|
        invariant 0 <= i <= |SpeedSteps|
        invariant speedClasses == old(speedClasses) - set j | 0 <= j < i :: SpeedSteps[j]
      {
        speedClasses := speedClasses - {SpeedSteps[i]};
        i := i + 1;
      }
      assert (set j | 0 <= j < |SpeedSteps| :: SpeedSteps[j]) == set s | s in SpeedSteps;
    }

    /** One `items.forEach` pass of fillTrack: a clone of each item appended, in order. */
    method AppendRound(items: seq<Item>)
      modifies this`track
      ensures track == old(track) + CloneRound(items, 0)
    {
      var i := 0;
      while i < |items|
        invariant 0 <= i <= |items|
        invariant track == old(track) + CloneRound(items, 0)[..i]
      {
        track := track + [Clone(i, items[i].w)];
        i := i + 1;
      }
      assert CloneRound(items, 0)[..i] == CloneRound(items, 0);
    }

    /** fillTrack: appends whole rounds of clones until the target width or the round cap. */
    method FillTrack() returns (rounds: nat)
      modifies this`track
      ensures track == Filled(old(track), clientWidth)
      ensures clientWidth == 0 || Visible(old(track)) == [] ==> rounds == 0
      ensures track == old(track) + Rounds(Visible(old(track)), rounds)
    {
      rounds := 0;
      var viewportWidth := clientWidth;
      if viewportWidth == 0 {
        return;
      }
      var items := Visible(track);
      if items == [] {
        return;
      }
      ghost var base := track;
      ghost var n := RoundsToFill(Width(base), Width(items), viewportWidth, 0);
      var targetWidth := viewportWidth as real * FillFactor;
      while Width(track) as real < targetWidth && rounds < MaxRounds
        invariant rounds <= MaxRounds
        invariant track == base + Rounds(items, rounds)
        invariant Width(track) == Width(base) + rounds * Width(items)
        invariant n == RoundsToFill(Width(base), Width(items), viewportWidth, rounds)
        decreases MaxRounds - rounds
      {
        RoundsToFillStep(Width(base), Width(items), viewportWidth, rounds);
        AppendRound(items);
        GrowByRound(base, items, rounds);
        rounds := rounds + 1;
      }
      RoundsToFillDone(Width(base), Width(items), viewportWidth, rounds);
    }

    /** updateSpeed: exactly one step class afterwards, the one SpeedFor selects. */
    method UpdateSpeed(viewportWidth: nat) returns (step: int)
      modifies this`speedClasses
      ensures step == SpeedFor(Width(track), viewportWidth)
      ensures speedClasses == (old(speedClasses) - set s | s in SpeedSteps) + {step}
      ensures speedClasses * (set s | s in SpeedSteps) == {step}
    {
      ClearSpeedClasses();
      var scrollWidth := Width(track);
      var halfDistance := if scrollWidth / 2 < 1 then 1 else scrollWidth / 2;
      var pxPerSecond := if viewportWidth <= MobileBreakpoint then MobileSpeed else DesktopSpeed;
      var seconds := halfDistance as real / pxPerSecond as real;
      seconds := if seconds > MaxSeconds then MaxSeconds else if seconds < MinSeconds then MinSeconds else seconds;
      step := PickClosestStep(seconds);
      ClosestStepSpec(seconds);
      speedClasses := speedClasses + {step};
    }
  }

  /**
   * The worked example, filling: a 1000px marquee with five 100px originals
   * stops after four rounds, at 2500px.
   */
  lemma FillExample()
    ensures var t := Filled([Original(100), Original(100), Original(100), Original(100), Original(100)], 1000);
      |t| == 25 && Width(t) == 2500
  {
    var o := [Original(100), Original(100), Original(100), Original(100), Original(100)];
    assert Visible(o) == o;
    assert Width(o) == 500;
    assert !BelowTarget(500 + 4 * 500, 1000);
    assert BelowTarget(500 + 3 * 500, 1000);
    assert RoundsToFill(500, 500, 1000, 4) == 4;
    assert RoundsToFill(500, 500, 1000, 0) == 4;
    RoundsFacts(o, 4);
    WidthAppend(o, Rounds(o, 4));
  }

  /** The worked example, speed: a 2500px track on a desktop viewport runs at the 12-second step. */
  lemma SpeedExample()
    ensures SpeedFor(2500, 1024) == 12
  {
    var sec := 1250.0 / 110.0;
    assert RawSeconds(2500, 1024) == sec;
    assert Clamp(sec) == sec;
    assert IsClosestAt(sec, 1);
    ClosestStepSpec(sec);
    ClosestAtUnique(sec, 1, ClosestIndex(sec));
  }
}
