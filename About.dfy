/**
 * The about section (client/src/components/AboutSection.tsx): each statistic
 * counts up from 0 to its value over `duration` milliseconds once it scrolls
 * into view, and each statistic's icon is looked up by name.
 *
 * Times are integer milliseconds; `floor(min(elapsed / duration, 1) * end)`
 * is computed exactly as `(elapsed * end) / duration`, which floors for a
 * positive duration.
 */
module About {
  import opened Wrappers

  /** The duration every caller uses (the parameter's default). */
  const DefaultDuration := 2000

  /** The count shown `elapsed` milliseconds after the first frame. */
  function CountAt(end: int, duration: int, elapsed: int): (r: int)
    requires duration > 0
    ensures elapsed >= duration ==> r == end
    ensures elapsed == 0 ==> r == 0
    ensures 0 <= elapsed && 0 <= end ==> 0 <= r <= end
  {
    if elapsed >= duration then end
    else
      BoundedQuotient(elapsed, end, duration);
      (elapsed * end) / duration
  }

  /** With `0 <= e < d` and `n >= 0`, `e * n / d` lies in `[0, n]`. */
  lemma BoundedQuotient(e: int, n: int, d: int)
    requires d > 0 && e < d
    ensures 0 <= e && 0 <= n ==> 0 <= (e * n) / d <= n
  {
    if 0 <= e && 0 <= n {
      MulLe(0, e, n);
      MulLe(e, d, n);
      QuotientMonotone(0, e * n, d);
      QuotientMonotone(e * n, d * n, d);
      MulDivCancel(d, n);
    }
  }

  /** Multiplying both sides by a non-negative number keeps `<=`. */
  lemma MulLe(x: int, y: int, n: int)
    requires x <= y && 0 <= n
    ensures x * n <= y * n
  {
    assert y * n - x * n == (y - x) * n;
  }

  /** Cancelling a positive factor keeps `<`. */
  lemma MulCancel(d: int, x: int, y: int)
    requires d > 0 && d * x < d * y
    ensures x < y
  {
    assert d * (y - x) == d * y - d * x;
  }

  /** Dividing a multiple of `d` by `d` gives the factor back. */
  lemma MulDivCancel(d: int, n: int)
    requires d > 0
    ensures (d * n) / d == n
  {
    var q, r := (d * n) / d, (d * n) % d;
    assert d * n == d * q + r && 0 <= r < d;
    assert d * (n - q) == r by {
      assert d * (n - q) == d * n - d * q;
    }
    assert d * (n - q) < d * 1;
    MulCancel(d, n - q, 1);
    assert d * (q - 1) < d * n - r + 0 by {
      assert d * (q - 1) == d * q - d;
    }
    MulCancel(d, q - 1, n);
  }

  /** Floor division by a positive number is monotone. */
  lemma QuotientMonotone(a: int, b: int, d: int)
    requires d > 0 && a <= b
    ensures a / d <= b / d
  {
    var qa, qb := a / d, b / d;
    assert d * qa <= a;
    assert b < d * qb + d;
    assert d * (qb + 1) == d * qb + d;
    MulCancel(d, qa, qb + 1);
  }

  /** For a non-negative target, the count never goes down as time passes. */
  lemma CountAtMonotone(end: int, duration: int, e1: int, e2: int)
    requires duration > 0 && 0 <= end && 0 <= e1 <= e2
    ensures CountAt(end, duration, e1) <= CountAt(end, duration, e2)
  {
    if e2 < duration {
      MulLe(e1, e2, end);
      QuotientMonotone(e1 * end, e2 * end, duration);
    }
  }

  /** The falsy test `!startTime`: no start yet, or a start at timestamp 0. */
  predicate Unset(startTime: Option<int>) {
    startTime.None? || startTime.value == 0
  }

  /** One statistic's animated number. */
  class CountUp {
    const end: int
    const duration: int
    var count: int
    /** The intersection observer has reported the number in view (it reports once). */
    var inView: bool
    var startTime: Option<int>
    /** An animation frame is scheduled. */
    var frameRequested: bool

    ghost predicate Valid()
      reads this
    {
      && duration > 0
      && (!inView ==> count == 0 && !frameRequested && startTime.None?)
    }

    constructor (end: int, duration: int)
      requires duration > 0
      ensures Valid() && this.end == end && this.duration == duration
      ensures count == 0 && !inView && startTime.None? && !frameRequested
    {
      this.end := end;
      this.duration := duration;
      count := 0;
      inView := false;
      startTime := None;
      frameRequested := false;
    }

    /** A statistic rendered without a `duration` prop gets the default. */
    constructor Default(end: int)
      ensures Valid() && this.end == end && this.duration == DefaultDuration
      ensures count == 0 && !inView && startTime.None? && !frameRequested
    {
      this.end := end;
      this.duration := DefaultDuration;
      count := 0;
      inView := false;
      startTime := None;
      frameRequested := false;
    }

    /** The observer fires; the effect requests the first frame the first time only. */
    method EnterView()
      requires Valid()
      modifies this
      ensures Valid() && inView
      ensures count == old(count) && startTime == old(startTime)
      ensures frameRequested == (old(frameRequested) || !old(inView))
    {
      if !inView {
        inView := true;
        frameRequested := true;
      }
    }

    /**
     * One animation frame at timestamp `now`: fix the start on the first
     * frame, show the interpolated count, and ask for another frame while
     * the animation is not finished.
     */
    method Frame(now: int)
      requires Valid() && frameRequested
      modifies this
      ensures Valid() && inView
      ensures startTime == if Unset(old(startTime)) then Some(now) else old(startTime)
      ensures count == CountAt(end, duration, now - startTime.value)
      ensures frameRequested <==> now - startTime.value < duration
      ensures Unset(old(startTime)) ==> count == 0 && frameRequested
    {
      if Unset(startTime) {
        startTime := Some(now);
      }
      var elapsed := now - startTime.value;
      count := CountAt(end, duration, elapsed);
      frameRequested := elapsed < duration;
    }
  }

  /** The icons a statistic can show. */
  datatype Icon = GitFork | Users | Star | Activity

  const IconMap: map<string, Icon> :=
    map["repos" := GitFork, "followers" := Users, "stars" := Star, "activity" := Activity]

  /** `iconMap[stat.icon] || Activity`. */
  function IconFor(key: string): (r: Icon)
    ensures r == GitFork <==> key == "repos"
    ensures r == Users <==> key == "followers"
    ensures r == Star <==> key == "stars"
    ensures r == Activity <==> key != "repos" && key != "followers" && key != "stars"
  {
    if key in IconMap then IconMap[key] else Activity
  }
}
