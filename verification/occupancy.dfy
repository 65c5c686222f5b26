/** How full the audio buffer has been: a histogram of its occupancy, and how much of the buffer it
    shows was never needed. */
module Occupancy {
  import opened RingBuffer

  const BUCKETS := 30
  const N := 4

  /** A tenth of a second a bucket, the last one open-ended. */
  function Bucket(having: nat, rate: nat): (b: nat)
    requires rate > 0
    ensures b < BUCKETS
  {
    Min(having * 10 / rate, BUCKETS - 1)
  }

  predicate IsEven(n: nat) {
    n % 2 == 0
  }

  /** `having` samples last from `b` tenths of a second up to the next tenth; 2.9 s and more are one. */
  predicate InTenth(having: nat, rate: nat, b: nat) {
    b < BUCKETS && b * rate <= 10 * having && (b < BUCKETS - 1 ==> 10 * having < (b + 1) * rate)
  }

  lemma {:induction false} BucketExactly(having: nat, rate: nat, b: nat)
    requires rate > 0
    ensures Bucket(having, rate) == b <==> InTenth(having, rate, b)
  {
    var q, last := having * 10 / rate, BUCKETS - 1;
    QuotientExactly(10 * having, rate, q);
    if b < last {
      QuotientExactly(10 * having, rate, b);
    } else if b == last {
      if q < last {
        MulMonotone(rate, q + 1, last);
      } else {
        MulMonotone(rate, last, q);
      }
    }
  }

  lemma {:induction false} QuotientExactly(n: nat, d: nat, q: nat)
    requires d > 0
    ensures n / d == q <==> q * d <= n < (q + 1) * d
  {
    var p := n / d;
    assert p * d <= n < (p + 1) * d;
    if q < p {
      MulMonotone(d, q + 1, p);
    } else if p < q {
      MulMonotone(d, p + 1, q);
    }
  }

  // ----- one pass over the histogram

  /** The length of the leading run of empty buckets. */
  function LeadingEmpty(h: seq<nat>): (z: nat)
    ensures z <= |h| && (forall k :: 0 <= k < z ==> h[k] == 0) && (z < |h| ==> h[z] > 0)
  {
    if h == [] || h[0] > 0 then 0 else 1 + LeadingEmpty(h[1..])
  }

  /** `p` is the first of the fullest buckets among 1..n, or 0 when these are all empty. */
  ghost predicate IsFirstPeak(h: seq<nat>, n: nat, p: nat)
    requires n <= |h|
  {
    if p == 0 then forall k :: 1 <= k < n ==> h[k] == 0
    else p < n && h[p] > 0 && (forall k :: 1 <= k < p ==> h[k] < h[p]) && (forall k :: p <= k < n ==> h[k] <= h[p])
  }

  function FirstPeak(h: seq<nat>, n: nat): (p: nat)
    requires n <= |h|
    ensures IsFirstPeak(h, n, p)
  {
    if n <= 1 then 0
    else
      var p := FirstPeak(h, n - 1);
      if h[n - 1] > (if p == 0 then 0 else h[p]) then n - 1 else p
  }

  /** One more, rounded down to an even number. */
  function Rounded(skip: nat): (r: nat)
    ensures IsEven(r) && skip <= r <= skip + 1
  {
    skip + 1 - (skip + 1) % 2
  }

  /** How many samples a pass wants to drop, given the two water marks it found. */
  function DropSize(zero: nat, max: nat, cap: nat): (skip: nat)
    ensures IsEven(skip)
  {
    var safer := zero * 2 / 3;
    if max < 6 then 0
    else
      var mark := if max > safer * N then safer * N else max;
      assert cap * mark >= 0;
      Rounded(cap * mark / (BUCKETS * N))
  }

  /** What a pass over `h` drops: nothing unless more than three times as much is buffered. */
  function Dropped(h: seq<nat>, cap: nat, having: nat): nat
    requires |h| == BUCKETS
  {
    var drop := DropSize(LeadingEmpty(h), FirstPeak(h, BUCKETS), cap);
    if having > drop * 3 then drop else 0
  }

  /** One more occupancy counted. */
  function Tallied(h: seq<nat>, rate: nat, having: nat): (t: seq<nat>)
    requires |h| == BUCKETS && rate > 0
    ensures |t| == BUCKETS
  {
    h[Bucket(having, rate) := h[Bucket(having, rate)] + 1]
  }

  /** The run of empty buckets ends at or before the bucket of every occupancy that was counted, so
      the drop is at most two thirds of that occupancy, up to rounding. */
  lemma {:induction false} DropBound(h: seq<nat>, rate: nat, x: nat)
    requires |h| == BUCKETS && rate > 0 && h[Bucket(x, rate)] > 0
    ensures 3 * DropSize(LeadingEmpty(h), FirstPeak(h, BUCKETS), 3 * rate) <= 2 * x + 3
  {
    var z := LeadingEmpty(h);
    var max := FirstPeak(h, BUCKETS);
    assert z <= Bucket(x, rate) <= x * 10 / rate;
    MarkBound(z, rate, x);
    var safer := z * 2 / 3;
    var mark := if max > safer * N then safer * N else max;
    SkipBound(rate, safer, mark, x);
  }

  lemma {:induction false} MarkBound(z: nat, rate: nat, x: nat)
    requires rate > 0 && z <= x * 10 / rate
    ensures rate * (z * 2 / 3) * 3 <= 20 * x
  {
    var q := x * 10 / rate;
    assert rate * q <= x * 10;
    assert rate * z <= rate * q by { MulMonotone(rate, z, q); }
    MulMonotone(rate, 3 * (z * 2 / 3), 2 * z);
  }

  lemma {:induction false} MulMonotone(a: nat, b: int, c: int)
    requires b <= c
    ensures a * b <= a * c
  {
  }

  lemma {:induction false} SkipBound(rate: nat, safer: nat, mark: nat, x: nat)
    requires mark <= safer * N && rate * safer * 3 <= 20 * x
    ensures 3 * (3 * rate * mark / (BUCKETS * N) + 1) <= 2 * x + 3
  {
    MulMonotone(3 * rate, mark, safer * N);
    assert 3 * rate * (safer * N) == 12 * (rate * safer);
    assert 3 * rate * mark <= 12 * (rate * safer);
  }

  // ----- how little can be buffered when a pass drops

  predicate Drops(zero: nat, max: nat, rate: nat, having: nat) {
    var skip := DropSize(zero, max, 3 * rate);
    skip > 0 && having > skip * 3
  }

  /** A drop always finds 600 ms buffered. */
  ghost predicate Keeps600Ms(zero: nat, max: nat, rate: nat) {
    forall having: nat :: Drops(zero, max, rate, having) ==> 10 * having >= 6 * rate
  }

  /** A drop computed from a mark of 800 ms or more finds 600 ms, one from a smaller mark may not. */
  lemma {:induction false} MarkDecides(mark: nat, fifth: nat)
    requires fifth >= 12
    ensures var skip := Rounded(3 * (5 * fifth) * mark / (BUCKETS * N));
            (mark >= 8 ==> 10 * (3 * skip + 1) >= 30 * fifth) &&
            (4 <= mark <= 7 ==> skip > 0 && 10 * (3 * skip + 1) < 30 * fifth)
  {
    var rate := 3 * (5 * fifth);
    if mark >= 8 {
      MulMonotone(rate, 8, mark);
      HighMark(rate * mark, fifth);
    } else if mark >= 4 {
      MulMonotone(rate, 4, mark);
      MulMonotone(rate, mark, 7);
      LowMark(rate * mark, fifth);
    }
  }

  lemma {:induction false} HighMark(product: nat, fifth: nat)
    requires product >= 120 * fifth
    ensures 10 * (3 * Rounded(product / (BUCKETS * N)) + 1) >= 30 * fifth
  {
  }

  lemma {:induction false} LowMark(product: nat, fifth: nat)
    requires fifth >= 12 && 60 * fifth <= product <= 105 * fifth
    ensures var skip := Rounded(product / (BUCKETS * N)); skip > 0 && 10 * (3 * skip + 1) < 30 * fifth
  {
  }

  /** Requiring a peak at 600 ms does not make every drop find 600 ms buffered: it fails exactly when
      two empty buckets lead the histogram, or three or more do and the peak is below 800 ms. */
  lemma {:induction false} DropsBelow600Ms(zero: nat, max: nat, fifth: nat)
    requires fifth >= 12
    ensures Keeps600Ms(zero, max, 5 * fifth) <==> max < 6 || zero < 2 || (zero >= 3 && max >= 8)
  {
    var rate, safer := 5 * fifth, zero * 2 / 3;
    var mark := if max > safer * N then safer * N else max;
    var skip := DropSize(zero, max, 3 * rate);
    MarkDecides(mark, fifth);
    if max >= 6 {
      assert skip == Rounded(3 * rate * mark / (BUCKETS * N));
      if mark > 0 {
        assert Drops(zero, max, rate, 3 * skip + 1) <==> skip > 0;
      }
    }
  }

  /** A pass over `h`, in which the present occupancy is counted, drops below 600 ms. */
  predicate ShrinksBelow600Ms(h: seq<nat>, rate: nat, having: nat)
    requires |h| == BUCKETS && rate > 0
  {
    h[Bucket(having, rate)] > 0 && having <= 3 * rate && 10 * having < 6 * rate && Dropped(h, 3 * rate, having) > 0
  }

  /** The water marks at which some histogram and occupancy do so. */
  predicate CanShrinkEarly(zero: nat, max: nat) {
    6 <= max < BUCKETS && (zero == 2 || (3 <= zero <= 5 && max < 8))
  }

  /** A histogram with the given water marks, and with occupancies just below 600 ms. */
  function Early(zero: nat, max: nat): (h: seq<nat>)
    ensures |h| == BUCKETS
  {
    seq(BUCKETS, i => if i == max then 2 else if i == zero || i == 5 then 1 else 0)
  }

  lemma {:induction false} EarlyMarks(zero: nat, max: nat)
    requires zero <= 5 && 6 <= max < BUCKETS
    ensures LeadingEmpty(Early(zero, max)) == zero && FirstPeak(Early(zero, max), BUCKETS) == max
  {
    var h := Early(zero, max);
    var z, p := LeadingEmpty(h), FirstPeak(h, BUCKETS);
    assert h[zero] > 0 && forall k :: 0 <= k < zero ==> h[k] == 0;
    assert h[max] == 2 && forall k :: 0 <= k < BUCKETS && k != max ==> h[k] < 2;
  }

  /** Passes that find less than 600 ms and drop exist exactly at these water marks. */
  lemma {:induction false} PassBelow600Ms(zero: nat, max: nat, fifth: nat)
    requires fifth >= 12
    ensures (exists h: seq<nat>, having ::
              |h| == BUCKETS && LeadingEmpty(h) == zero && FirstPeak(h, BUCKETS) == max &&
              ShrinksBelow600Ms(h, 5 * fifth, having)) <==> CanShrinkEarly(zero, max)
  {
    var rate := 5 * fifth;
    DropsBelow600Ms(zero, max, fifth);
    forall h: seq<nat>, having | |h| == BUCKETS && ShrinksBelow600Ms(h, rate, having) &&
                      LeadingEmpty(h) == zero && FirstPeak(h, BUCKETS) == max
      ensures CanShrinkEarly(zero, max)
    {
      BucketBelow(having, rate);
      assert Drops(zero, max, rate, having);
    }
    if CanShrinkEarly(zero, max) {
      var h, having := Early(zero, max), 3 * fifth - 1;
      EarlyMarks(zero, max);
      BucketOf(fifth);
      EarlyDrops(zero, max, fifth);
      assert ShrinksBelow600Ms(h, rate, having);
    }
  }

  lemma {:induction false} BucketBelow(having: nat, rate: nat)
    requires 10 * having < 6 * rate
    ensures Bucket(having, rate) <= 5
  {
    var q := having * 10 / rate;
    if q >= 6 {
      MulMonotone(rate, 6, q);
    }
  }

  lemma {:induction false} BucketOf(fifth: nat)
    requires fifth >= 12
    ensures Bucket(3 * fifth - 1, 5 * fifth) == 5
  {
  }

  lemma {:induction false} EarlyDrops(zero: nat, max: nat, fifth: nat)
    requires fifth >= 12 && CanShrinkEarly(zero, max)
    ensures 0 < 3 * DropSize(zero, max, 3 * (5 * fifth)) < 3 * fifth - 1
  {
    MarkDecides(if max > zero * 2 / 3 * N then zero * 2 / 3 * N else max, fifth);
  }

  // ----- a steady occupancy

  function NoCounts(): (h: seq<nat>)
    ensures |h| == BUCKETS && forall k :: 0 <= k < BUCKETS ==> h[k] == 0
  {
    seq(BUCKETS, _ => 0)
  }

  /** The counters after these occupancies. */
  function Recorded(rate: nat, window: seq<nat>): (h: seq<nat>)
    requires rate > 0
    ensures |h| == BUCKETS
  {
    if window == [] then NoCounts()
    else Tallied(Recorded(rate, window[..|window| - 1]), rate, window[|window| - 1])
  }

  ghost predicate Steady(window: seq<nat>, rate: nat, t: nat) {
    forall i :: 0 <= i < |window| ==> InTenth(window[i], rate, t)
  }

  lemma {:induction false} SteadyCounts(rate: nat, window: seq<nat>, t: nat)
    requires rate > 0 && t < BUCKETS && Steady(window, rate, t)
    ensures Recorded(rate, window) == NoCounts()[t := |window|]
  {
    if window != [] {
      var last := window[|window| - 1];
      SteadyCounts(rate, window[..|window| - 1], t);
      BucketExactly(last, rate, t);
    }
  }

  lemma {:induction false} OneCount(t: nat, n: nat)
    requires t < BUCKETS && n > 0
    ensures LeadingEmpty(NoCounts()[t := n]) == t && FirstPeak(NoCounts()[t := n], BUCKETS) == t
  {
    var h := NoCounts()[t := n];
    var z, p := LeadingEmpty(h), FirstPeak(h, BUCKETS);
    assert h[t] == n;
  }

  /** About a quarter of `t` tenths of a second. */
  predicate IsQuarter(skip: nat, rate: nat, t: nat) {
    rate * t <= 40 * skip + 39 && 40 * skip <= rate * t + 40
  }

  lemma {:induction false} SteadyDropSize(rate: nat, t: nat)
    requires rate > 20 && 6 <= t < BUCKETS
    ensures var skip := DropSize(t, t, 3 * rate); skip > 0 && IsQuarter(skip, rate, t) && 30 * skip < rate * t
  {
    MulMonotone(rate, 6, t);
    assert t <= t * 2 / 3 * N;
    assert 3 * rate * t == 3 * (rate * t);
    Quarter(rate * t);
  }

  lemma {:induction false} Quarter(product: nat)
    requires product > 120
    ensures var skip := Rounded(3 * product / (BUCKETS * N));
            skip > 0 && product <= 40 * skip + 39 && 40 * skip <= product + 40 && 30 * skip < product
  {
  }

  /** When every occupancy since the counters were empty was in the same tenth, of 600 ms or more, a pass
      drops a quarter of it. */
  ghost predicate DropsSteady(rate: nat, window: seq<nat>, skip: nat) {
    forall t :: 6 <= t < BUCKETS && Steady(window, rate, t) ==> skip > 0 && IsQuarter(skip, rate, t)
  }

  lemma {:induction false} SteadyPass(rate: nat, window: seq<nat>, having: nat)
    requires rate > 20
    ensures var all := window + [having];
            DropsSteady(rate, all, Dropped(Tallied(Recorded(rate, window), rate, having), 3 * rate, having))
  {
    var all := window + [having];
    assert all[..|all| - 1] == window;
    var h := Recorded(rate, all);
    forall t | 6 <= t < BUCKETS && Steady(all, rate, t)
      ensures var skip := Dropped(h, 3 * rate, having); skip > 0 && IsQuarter(skip, rate, t)
    {
      SteadyCounts(rate, all, t);
      OneCount(t, |all|);
      SteadyDropSize(rate, t);
      assert InTenth(all[|window|], rate, t);
      assert t * rate == rate * t;
    }
  }

  // ----- which water mark decides

  /** The drop is a quarter of the fullest tenth or two thirds of the empty ones, whichever is less,
      up to rounding; nothing when the fullest is below 600 ms. */
  lemma {:induction false} DropIsSmaller(zero: nat, max: nat, rate: nat)
    ensures var skip, lead := DropSize(zero, max, 3 * rate), zero * 2 / 3;
            if max < 6 then skip == 0
            else 40 * skip <= rate * max + 40 && 10 * skip <= rate * lead + 10 &&
                 (rate * max < 40 * skip + 40 || rate * lead < 10 * skip + 10)
  {
    var lead := zero * 2 / 3;
    if max >= 6 {
      var mark := if max > lead * N then lead * N else max;
      MulMonotone(rate, mark, max);
      MulMonotone(rate, mark, lead * N);
      assert rate * (lead * N) == 4 * (rate * lead);
      assert 3 * rate * mark == 3 * (rate * mark);
      Fortieth(rate * mark);
    }
  }

  lemma {:induction false} Fortieth(product: nat)
    ensures var skip := Rounded(3 * product / (BUCKETS * N)); product < 40 * skip + 40 && 40 * skip <= product + 40
  {
  }

  // ----- counters

  function Sum(h: seq<nat>): nat {
    if h == [] then 0 else h[0] + Sum(h[1..])
  }

  lemma {:induction false} SumCounted(h: seq<nat>, i: nat)
    requires i < |h|
    ensures Sum(h[i := h[i] + 1]) == Sum(h) + 1
  {
    if i == 0 {
      assert h[i := h[i] + 1][1..] == h[1..];
    } else {
      assert h[i := h[i] + 1][1..] == h[1..][i - 1 := h[i] + 1];
      SumCounted(h[1..], i - 1);
    }
  }

  lemma {:induction false} SumEmpty(h: seq<nat>)
    requires forall k :: 0 <= k < |h| ==> h[k] == 0
    ensures Sum(h) == 0
  {
    if h != [] {
      SumEmpty(h[1..]);
    }
  }

  /** The counters agree with what was recorded: all of `appends`, and each occupancy in `window`; they
      hold nothing else when there was no resize in between. */
  ghost predicate Counted(h: seq<nat>, rate: nat, window: seq<nat>, appends: nat)
    requires |h| == BUCKETS && rate > 0
  {
    && Sum(h) == appends
    && (forall i :: 0 <= i < |window| ==> h[Bucket(window[i], rate)] > 0)
    && (appends == |window| ==> h == Recorded(rate, window))
  }

  method ClearCounters(hist: array<nat>)
    modifies hist
    ensures forall k :: 0 <= k < hist.Length ==> hist[k] == 0
  {
    for i := 0 to hist.Length
      invariant forall k :: 0 <= k < i ==> hist[k] == 0
    {
      hist[i] := 0;
    }
  }

  /** At most two thirds of every recorded occupancy, up to rounding. */
  ghost predicate NeverNeeded(skip: nat, window: seq<nat>) {
    forall i :: 0 <= i < |window| ==> 3 * skip <= 2 * window[i] + 3
  }

  lemma {:induction false} DropBoundAll(h: seq<nat>, rate: nat, window: seq<nat>, appends: nat)
    requires |h| == BUCKETS && rate > 0 && Counted(h, rate, window, appends)
    ensures NeverNeeded(DropSize(LeadingEmpty(h), FirstPeak(h, BUCKETS), 3 * rate), window)
  {
    forall i | 0 <= i < |window|
      ensures 3 * DropSize(LeadingEmpty(h), FirstPeak(h, BUCKETS), 3 * rate) <= 2 * window[i] + 3
    {
      DropBound(h, rate, window[i]);
    }
  }

  lemma {:induction false} CountedNone(h: seq<nat>, rate: nat)
    requires |h| == BUCKETS && rate > 0 && forall k :: 0 <= k < BUCKETS ==> h[k] == 0
    ensures Counted(h, rate, [], 0)
  {
    SumEmpty(h);
  }

  lemma {:induction false} CountedRecord(h: seq<nat>, rate: nat, window: seq<nat>, appends: nat, having: nat)
    requires |h| == BUCKETS && rate > 0 && Counted(h, rate, window, appends)
    ensures Counted(Tallied(h, rate, having), rate, window + [having], appends + 1)
  {
    SumCounted(h, Bucket(having, rate));
    assert (window + [having])[..|window|] == window;
  }

  lemma {:induction false} SumZero(h: seq<nat>)
    requires Sum(h) == 0
    ensures forall k :: 0 <= k < |h| ==> h[k] == 0
  {
    if h != [] {
      SumZero(h[1..]);
      assert forall k :: 1 <= k < |h| ==> h[k] == h[1..][k - 1];
    }
  }

  lemma {:induction false} CountedResized(h: seq<nat>, rate: nat, window: seq<nat>, appends: nat, newRate: nat)
    requires |h| == BUCKETS && rate > 0 && newRate > 0 && Counted(h, rate, window, appends)
    ensures Counted(h, newRate, [], appends)
  {
    if appends == 0 {
      SumZero(h);
    }
  }

  /** The smaller water mark decides, and only when the fuller one stands for 600 ms or more. */
  method SkipFor(zero: nat, peak: nat, cap: nat) returns (skip: nat)
    ensures skip == DropSize(zero, peak, cap)
  {
    var safer, max := zero * 2 / 3, peak;
    if max < 6 {
      return 0;
    } else if max > safer * N {
      max := safer * N;
    }
    skip := cap * max / (BUCKETS * N) + 1;
    skip := skip - skip % 2;
  }

  class Statistics {
    var rate: nat            // samples a second, all channels together
    const hist: array<nat>   // how often each tenth of a second was occupied since the last pass

    ghost var window: seq<nat>    // occupancies recorded since the last pass and the last resize
    ghost var appends: nat        // occupancies recorded since the last pass

    ghost predicate Valid()
      reads this, hist
    {
      rate > 0 && hist.Length == BUCKETS && Counted(hist[..], rate, window, appends)
    }

    constructor (rate: nat)
      requires rate > 0
      ensures Valid() && this.rate == rate && window == [] && fresh(hist)
    {
      this.rate := rate;
      hist := new nat[BUCKETS];
      window, appends := [], 0;
      new;
      ClearCounters(hist);
      CountedNone(hist[..], rate);
    }

    /** A new rate makes the buckets mean something else; the counters stay. */
    method SetRate(newRate: nat)
      requires Valid() && newRate > 0
      modifies this
      ensures Valid() && rate == newRate && window == [] && appends == old(appends)
    {
      CountedResized(hist[..], rate, window, appends, newRate);
      rate := newRate;
      window := [];
    }

    method Record(having: nat)
      requires Valid()
      modifies this`window, this`appends, hist
      ensures Valid() && window == old(window) + [having] && appends == old(appends) + 1
      ensures hist[..] == Tallied(old(hist[..]), rate, having)
    {
      var i := having * 10 / rate;
      if i > 29 {
        i := 29;
      }
      CountedRecord(hist[..], rate, window, appends, having);
      hist[i] := hist[i] + 1;
      window, appends := window + [having], appends + 1;
    }

    /** Empties all counters but the one at `max`, and finds the two water marks on the way. */
    method Scan() returns (zero: nat, max: nat)
      requires hist.Length == BUCKETS
      modifies hist
      ensures zero == LeadingEmpty(old(hist[..])) && max == FirstPeak(old(hist[..]), BUCKETS)
      ensures forall k :: 0 <= k < BUCKETS && k != max ==> hist[k] == 0
    {
      ghost var h := hist[..];
      zero, max := 0, 0;
      for i := 0 to BUCKETS
        invariant max == FirstPeak(h, i) && (max == 0 || max < i)
        invariant zero <= i && (forall k :: 0 <= k < zero ==> h[k] == 0) && (zero < i ==> h[zero] > 0)
        invariant forall k :: i <= k < BUCKETS ==> hist[k] == h[k]
        invariant forall k :: 0 <= k < i ==> hist[k] == if k == max && k > 0 then h[k] else 0
      {
        if hist[i] == 0 && zero == i {
          zero := zero + 1;
        }
        if hist[i] > hist[max] {
          hist[max] := 0;
          max := i;
        } else {
          hist[i] := 0;
        }
      }
    }

    /** Empties the statistics, having found the two water marks. */
    method ScanAndClear() returns (zero: nat, max: nat)
      requires Valid()
      modifies this`window, this`appends, hist
      ensures Valid() && window == [] && appends == 0
      ensures zero == LeadingEmpty(old(hist[..])) && max == FirstPeak(old(hist[..]), BUCKETS)
      ensures NeverNeeded(DropSize(zero, max, 3 * rate), old(window))
    {
      DropBoundAll(hist[..], rate, window, appends);
      zero, max := Scan();
      hist[max] := 0;
      CountedNone(hist[..], rate);
      window, appends := [], 0;
    }
  }
}
