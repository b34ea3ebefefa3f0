/** The interval arithmetic both `start` variants perform before scheduling:
    a jitter amount, a jittered execution interval and a per-execution timeout.
    The random draw is the parameter `u`, a uniform sample from [0, 1). */
module Schedule {

  /** Fraction of the refresh interval used as jitter. */
  const JitterPct: real := 0.15

  /** The timeout is the interval minus this margin ... */
  const SafetyMargin: real := 1.0

  /** ... but never less than this floor. */
  const TimeoutFloor: real := 0.1

  function Max(a: real, b: real): (m: real)
    ensures m >= a && m >= b
    ensures m == a || m == b
  {
    if a < b then b else a
  }

  /** `[floor, interval * 0.15].max`: the smallest amount that is at least the
      floor and at least 15% of the interval. */
  function JitterAmount(floor: real, interval: real): (j: real)
    ensures j >= floor && j >= interval * JitterPct
    ensures j == floor || j == interval * JitterPct
  {
    Max(floor, interval * 0.15)
  }

  /** `rand(lo...hi)`: a uniform sample `u` from [0, 1) stretched over the
      exclusive range. */
  function Draw(lo: real, hi: real, u: real): (r: real)
    requires lo < hi
    requires 0.0 <= u < 1.0
    ensures lo <= r < hi
  {
    var width := hi - lo;
    var rest := 1.0 - u;
    assert rest * width > 0.0;
    assert u * width + rest * width == width;
    assert u * width >= 0.0;
    lo + u * width
  }

  /** `rand(lo...hi)` on an Integer range: one of the integers `lo`, ...,
      `hi - 1`, each drawn by an equal share of the samples. */
  function IntegerDraw(lo: int, hi: int, u: real): (r: int)
    requires lo < hi
    requires 0.0 <= u < 1.0
    ensures lo <= r < hi
  {
    Draw(lo as real, hi as real, u).Floor
  }

  /** `interval + rand(-j...j)` with `j` the jitter amount. */
  function EffectiveInterval(floor: real, interval: real, u: real): (e: real)
    requires floor > 0.0
    requires 0.0 <= u < 1.0
    ensures interval - JitterAmount(floor, interval) <= e < interval + JitterAmount(floor, interval)
  {
    var j := JitterAmount(floor, interval);
    interval + Draw(-j, j, u)
  }

  /** `[interval - 1, 0.1].max` */
  function TimeoutFor(e: real): (t: real)
    ensures t >= TimeoutFloor
    ensures t <= Max(e, TimeoutFloor)
    ensures e - SafetyMargin >= TimeoutFloor ==> t + SafetyMargin == e
    ensures e - SafetyMargin < TimeoutFloor ==> t == TimeoutFloor
  {
    Max(e - SafetyMargin, TimeoutFloor)
  }

  /** Every point of the exclusive range can be drawn. */
  lemma DrawCoversRange(lo: real, hi: real, r: real)
    requires lo <= r < hi
    ensures exists u :: 0.0 <= u < 1.0 && Draw(lo, hi, u) == r
  {
    var width := hi - lo;
    var d := r - lo;
    var u := d / width;
    assert u * width == d;
    var rest := (width - d) / width;
    assert rest > 0.0;
    assert u + rest == 1.0;
    assert Draw(lo, hi, u) == r;
  }

  /** Every integer of the exclusive range can be drawn. */
  lemma IntegerDrawCoversRange(lo: int, hi: int, r: int)
    requires lo <= r < hi
    ensures exists u :: 0.0 <= u < 1.0 && IntegerDraw(lo, hi, u) == r
  {
    DrawCoversRange(lo as real, hi as real, r as real);
    var u :| 0.0 <= u < 1.0 && Draw(lo as real, hi as real, u) == r as real;
    assert IntegerDraw(lo, hi, u) == r;
  }

  /** Every point of the half-open jitter range is a possible execution
      interval. */
  lemma EffectiveIntervalCoversRange(floor: real, interval: real, e: real)
    requires floor > 0.0
    requires interval - JitterAmount(floor, interval) <= e < interval + JitterAmount(floor, interval)
    ensures exists u :: 0.0 <= u < 1.0 && EffectiveInterval(floor, interval, u) == e
  {
    var j := JitterAmount(floor, interval);
    DrawCoversRange(-j, j, e - interval);
    var u :| 0.0 <= u < 1.0 && Draw(-j, j, u) == e - interval;
    assert EffectiveInterval(floor, interval, u) == e;
  }

  /** For a positive refresh interval, every draw gives a positive execution
      interval exactly when the interval exceeds the jitter floor. */
  lemma EffectiveIntervalPositiveIff(floor: real, interval: real)
    requires floor > 0.0 && interval > 0.0
    ensures (forall u :: 0.0 <= u < 1.0 ==> EffectiveInterval(floor, interval, u) > 0.0)
            <==> interval > floor
  {
    if interval > floor {
      forall u | 0.0 <= u < 1.0
        ensures EffectiveInterval(floor, interval, u) > 0.0
      {
        assert JitterAmount(floor, interval) < interval;
      }
    } else {
      assert JitterAmount(floor, interval) == floor;
      assert EffectiveInterval(floor, interval, 0.0) <= 0.0;
    }
  }
}
