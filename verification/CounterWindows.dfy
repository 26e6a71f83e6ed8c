/** Counters that start over: what a counter with one start time can and cannot tell about the
    events in an arbitrary interval. */
module CounterWindows {
  import opened Wrappers

  /** One counted event: when it happened, when its counter started, the count it reached, and
      whether it raised the alert. */
  datatype Event = Event(at: Time, start: Time, index: nat, alert: bool)

  /** Counting goes up by one within a counter; a new counter starts at its first event, which is
      more than `window` after the start of the one before. */
  ghost predicate Follows(h: seq<Event>, i: nat, window: Time, threshold: nat)
    requires i < |h|
  {
    && h[i].index >= 1
    && (h[i].alert <==> h[i].index >= threshold)
    && (i > 0 ==> h[i - 1].at <= h[i].at)
    && (h[i].index == 1 ==> h[i].start == h[i].at && (i > 0 ==> h[i].at > h[i - 1].start + window))
    && (h[i].index > 1 ==> i > 0 && h[i].index == h[i - 1].index + 1 && h[i].start == h[i - 1].start)
  }

  ghost predicate Grouped(h: seq<Event>, window: Time, threshold: nat) {
    forall i | 0 <= i < |h| :: Follows(h, i, window, threshold)
  }

  lemma {:induction false} Ordered(h: seq<Event>, window: Time, threshold: nat, i: nat, j: nat)
    requires Grouped(h, window, threshold) && i <= j < |h|
    ensures h[i].at <= h[j].at
    decreases j
  {
    if i < j {
      assert Follows(h, j, window, threshold);
      Ordered(h, window, threshold, i, j - 1);
    }
  }

  /** Where no counter starts, one counter counts all. */
  lemma {:induction false} SameCounter(h: seq<Event>, window: Time, threshold: nat, i: nat, j: nat)
    requires Grouped(h, window, threshold) && i <= j < |h|
    requires forall m | i < m <= j :: h[m].index != 1
    ensures h[j].index == h[i].index + (j - i) && h[j].start == h[i].start
    decreases j
  {
    if i < j {
      assert Follows(h, j, window, threshold);
      SameCounter(h, window, threshold, i, j - 1);
    }
  }

  /** Looking back, the counter of event j started with event j - index + 1. */
  lemma {:induction false} CounterStart(h: seq<Event>, window: Time, threshold: nat, j: nat, back: nat)
    requires Grouped(h, window, threshold) && j < |h| && back < h[j].index
    ensures back <= j && h[j - back].index == h[j].index - back && h[j - back].start == h[j].start
    decreases back
  {
    if back > 0 {
      CounterStart(h, window, threshold, j, back - 1);
      assert Follows(h, j - back + 1, window, threshold);
    }
  }

  /** A counter that has not counted every event so far started more than a window after the first. */
  lemma StartedOver(h: seq<Event>, window: Time, threshold: nat, i: nat)
    requires Grouped(h, window, threshold) && i < |h|
    ensures 1 <= h[i].index <= i + 1
    ensures h[i].index < i + 1 ==> h[i].start > h[0].at + window
  {
    assert Follows(h, i, window, threshold);
    CounterStart(h, window, threshold, i, h[i].index - 1);
    var k := i - (h[i].index - 1);
    assert Follows(h, k, window, threshold);
    if k > 0 {
      StartsLate(h, window, threshold, k - 1);
    }
  }

  /** No counter starts before the first event. */
  lemma StartsLate(h: seq<Event>, window: Time, threshold: nat, i: nat)
    requires Grouped(h, window, threshold) && i < |h|
    ensures h[i].start >= h[0].at
  {
    assert Follows(h, i, window, threshold);
    CounterStart(h, window, threshold, i, h[i].index - 1);
    var first := i - (h[i].index - 1);
    assert Follows(h, first, window, threshold);
    Ordered(h, window, threshold, 0, first);
  }

  /** Within one window at most one counter starts after the first event, and none does if the
      first event itself started one. */
  lemma OneStart(h: seq<Event>, window: Time, threshold: nat, i: nat, k: nat, j: nat)
    requires Grouped(h, window, threshold) && i < k <= j < |h| && h[j].at - h[i].at <= window
    requires h[k].index == 1
    requires forall m | i < m < k :: h[m].index != 1
    ensures h[i].index > 1
    ensures forall m | k < m <= j :: h[m].index != 1
  {
    assert Follows(h, i, window, threshold) && Follows(h, k, window, threshold);
    SameCounter(h, window, threshold, i, k - 1);
    Ordered(h, window, threshold, k, j);
    assert h[i].start < h[k].at - window;
    NoSecondStart(h, window, threshold, i, k, k, j);
  }

  lemma {:induction false} NoSecondStart(h: seq<Event>, window: Time, threshold: nat, i: nat, k: nat, m: nat, j: nat)
    requires Grouped(h, window, threshold) && i < k <= m <= j < |h| && h[j].at - h[i].at <= window
    requires h[k].index == 1 && forall n | k < n <= m :: h[n].index != 1
    ensures forall n | k < n <= j :: h[n].index != 1
    decreases j - m
  {
    if m < j {
      SameCounter(h, window, threshold, k, m);
      assert Follows(h, m + 1, window, threshold) && Follows(h, k, window, threshold);
      Ordered(h, window, threshold, m + 1, j);
      Ordered(h, window, threshold, i, k);
      NoSecondStart(h, window, threshold, i, k, m + 1, j);
    }
  }

  lemma {:induction false} FirstStart(h: seq<Event>, i: nat, j: nat) returns (k: nat)
    requires i < j < |h| && exists m :: i < m <= j && h[m].index == 1
    ensures i < k <= j && h[k].index == 1 && forall m | i < m < k :: h[m].index != 1
    decreases j
  {
    if exists m :: i < m <= j - 1 && h[m].index == 1 {
      k := FirstStart(h, i, j - 1);
    } else {
      k := j;
    }
  }

  /** Events i to j, all within one window and none of them alerting, are at most 2 * threshold - 3. */
  lemma QuietEvents(h: seq<Event>, window: Time, threshold: nat, i: nat, j: nat)
    requires Grouped(h, window, threshold) && threshold >= 2 && i <= j < |h| && h[j].at - h[i].at <= window
    requires forall m | i <= m <= j :: !h[m].alert
    ensures j - i + 1 <= 2 * threshold - 3
  {
    forall m | i <= m <= j ensures 1 <= h[m].index < threshold {
      assert Follows(h, m, window, threshold);
    }
    if exists m :: i < m <= j && h[m].index == 1 {
      var k := FirstStart(h, i, j);
      OneStart(h, window, threshold, i, k, j);
      SameCounter(h, window, threshold, i, k - 1);
      SameCounter(h, window, threshold, k, j);
    } else {
      SameCounter(h, window, threshold, i, j);
    }
  }
}
