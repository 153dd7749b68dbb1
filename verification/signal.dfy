/** Reading a signal track over a window: missing values count as 0 and the
    window's mean is the sum divided by the number of positions. */
module Signal {
  import opened Common
  import opened Windows

  /** A signal track: the value at a position of a chromosome, None where the
      track has no value (a NaN from the reader). */
  type Track = (string, int) -> Option<real>

  /** Missing-value replacement of one value (NaN becomes 0). */
  function OrZero(v: Option<real>): real {
    match v
    case Some(x) => x
    case None => 0.0
  }

  /** The values the reader returns for positions [lo, hi), one per position,
      None where the track has no value. */
  function Values(track: Track, chrom: string, lo: int, hi: int): (vs: seq<Option<real>>)
    ensures |vs| == if hi <= lo then 0 else hi - lo
    ensures forall i | 0 <= i < |vs| :: vs[i] == track(chrom, lo + i)
  {
    if hi <= lo then [] else seq(hi - lo, i requires 0 <= i < hi - lo => track(chrom, lo + i))
  }

  /** Missing-value replacement of a list of values (every NaN becomes 0). */
  function NanToNum(vs: seq<Option<real>>): (xs: seq<real>)
    ensures |xs| == |vs|
    ensures forall i | 0 <= i < |vs| :: xs[i] == OrZero(vs[i])
  {
    seq(|vs|, i requires 0 <= i < |vs| => OrZero(vs[i]))
  }

  /** Sum of a list of numbers. */
  function Sum(xs: seq<real>): real {
    if xs == [] then 0.0 else Sum(xs[..|xs| - 1]) + xs[|xs| - 1]
  }

  /** Sum of the values at positions [lo, hi), missing values counted as 0. */
  function SignalSum(track: Track, chrom: string, lo: int, hi: int): real
    decreases hi - lo
  {
    if hi <= lo then 0.0 else SignalSum(track, chrom, lo, hi - 1) + OrZero(track(chrom, hi - 1))
  }

  /** The window sum is the sum of the zero-filled list of values the reader
      returns for the window. */
  lemma {:induction false} SignalSumOfValues(track: Track, chrom: string, lo: int, hi: int)
    ensures SignalSum(track, chrom, lo, hi) == Sum(NanToNum(Values(track, chrom, lo, hi)))
    decreases hi - lo
  {
    if lo < hi {
      SignalSumOfValues(track, chrom, lo, hi - 1);
      var xs := NanToNum(Values(track, chrom, lo, hi));
      assert xs[..|xs| - 1] == NanToNum(Values(track, chrom, lo, hi - 1));
    }
  }

  /** Mean of a window: sum / len; an empty window cannot be averaged. */
  function WindowMean(track: Track, chrom: string, w: Window): (r: Result<real>)
    ensures r.Ok? <==> w.start < w.end
    ensures r.Err? ==> r.error == EmptyWindow(chrom, w.start)
    ensures r.Ok? ==> r.value * (w.end - w.start) as real == SignalSum(track, chrom, w.start, w.end)
  {
    if w.start < w.end then Ok(SignalSum(track, chrom, w.start, w.end) / (w.end - w.start) as real)
    else Err(EmptyWindow(chrom, w.start))
  }

  /** Sums over adjacent ranges add up. */
  lemma {:induction false} SumSplit(track: Track, chrom: string, lo: int, mid: int, hi: int)
    requires lo <= mid <= hi
    ensures SignalSum(track, chrom, lo, hi) == SignalSum(track, chrom, lo, mid) + SignalSum(track, chrom, mid, hi)
    decreases hi - mid
  {
    if mid < hi {
      SumSplit(track, chrom, lo, mid, hi - 1);
    }
  }

  /** Over a range where the track is constantly c, the sum is c times the length. */
  lemma {:induction false} SumOfConstant(track: Track, chrom: string, lo: int, hi: int, c: real)
    requires lo <= hi
    requires forall p | lo <= p < hi :: track(chrom, p) == Some(c)
    ensures SignalSum(track, chrom, lo, hi) == c * (hi - lo) as real
    decreases hi - lo
  {
    if lo < hi {
      SumOfConstant(track, chrom, lo, hi - 1, c);
    }
  }

  /** The mean of a non-empty window where the track is constantly c is c. */
  lemma MeanOfConstant(track: Track, chrom: string, w: Window, c: real)
    requires w.start < w.end
    requires forall p | w.start <= p < w.end :: track(chrom, p) == Some(c)
    ensures WindowMean(track, chrom, w) == Ok(c)
  {
    SumOfConstant(track, chrom, w.start, w.end, c);
    var n := (w.end - w.start) as real;
    var m := WindowMean(track, chrom, w).value;
    assert m * n == c * n;
    assert (m - c) * n == 0.0;
  }

  /** A lower bound on every (zero-filled) value bounds the sum from below. */
  lemma {:induction false} SumAtLeast(track: Track, chrom: string, lo: int, hi: int, a: real)
    requires lo <= hi
    requires forall p | lo <= p < hi :: a <= OrZero(track(chrom, p))
    ensures a * (hi - lo) as real <= SignalSum(track, chrom, lo, hi)
    decreases hi - lo
  {
    if lo < hi {
      SumAtLeast(track, chrom, lo, hi - 1, a);
    }
  }

  /** An upper bound on every (zero-filled) value bounds the sum from above. */
  lemma {:induction false} SumAtMost(track: Track, chrom: string, lo: int, hi: int, b: real)
    requires lo <= hi
    requires forall p | lo <= p < hi :: OrZero(track(chrom, p)) <= b
    ensures SignalSum(track, chrom, lo, hi) <= b * (hi - lo) as real
    decreases hi - lo
  {
    if lo < hi {
      SumAtMost(track, chrom, lo, hi - 1, b);
    }
  }

  /** The mean lies between any lower and upper bound of the window's values. */
  lemma MeanBetween(track: Track, chrom: string, w: Window, a: real, b: real)
    requires w.start < w.end
    requires forall p | w.start <= p < w.end :: a <= OrZero(track(chrom, p)) <= b
    ensures a <= WindowMean(track, chrom, w).value <= b
  {
    SumAtLeast(track, chrom, w.start, w.end, a);
    SumAtMost(track, chrom, w.start, w.end, b);
  }
}
