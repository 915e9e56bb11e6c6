/** Inter-token latencies in `python/sglang/bench_serving.py`: each event of the stream that carries
    text stands for one or more tokens, and the time since the last accepted event is divided evenly
    among them. Times are real numbers; rounding is not modelled. */
module TokenLatency {
  import opened Common

  /** An event with text: when it was seen, a second look at the clock right after that, and the number
      of completion tokens so far if the server says so. */
  datatype Event = Event(time: real, later: real, count: Option<int>)

  /** The variables of the loop. */
  datatype Track = Track(ttft: real, itl: seq<real>, outputLen: int, lastOutputLen: int, mostRecent: real)

  function Init(start: real): Track { Track(0.0, [], 0, 0, start) }

  function Repeat(x: real, n: nat): seq<real> { seq(n, _ => x) }

  function NewTokens(t: Track, e: Event): int {
    if e.count.Some? then e.count.value - t.lastOutputLen else 1
  }

  function NewLength(t: Track, e: Event): int {
    if e.count.Some? then e.count.value else t.outputLen + 1
  }

  /** One pass through the loop body. */
  function After(start: real, t: Track, e: Event): Track {
    if t.ttft == 0.0 then Track(e.later - start, t.itl, t.outputLen, t.outputLen, e.time)
    else if NewTokens(t, e) <= 0 then t.(outputLen := NewLength(t, e))
    else
      var n := NewTokens(t, e);
      Track(t.ttft, t.itl + Repeat((e.time - t.mostRecent) / n as real, n), NewLength(t, e), NewLength(t, e), e.time)
  }

  function AfterAll(start: real, events: seq<Event>): Track {
    if events == [] then Init(start) else After(start, AfterAll(start, events[..|events| - 1]), events[|events| - 1])
  }

  /** The accounting loop of `async_request_sglang_generate`; returns the latencies and the lengths. */
  method Account(start: real, events: seq<Event>)
    returns (itl: seq<real>, outputLen: int, lastOutputLen: int, mostRecent: real)
    ensures itl == AfterAll(start, events).itl && outputLen == AfterAll(start, events).outputLen
    ensures lastOutputLen == AfterAll(start, events).lastOutputLen && mostRecent == AfterAll(start, events).mostRecent
  {
    var ttft := 0.0;
    itl, outputLen, lastOutputLen, mostRecent := [], 0, 0, start;
    for i := 0 to |events|
      invariant AfterAll(start, events[..i]) == Track(ttft, itl, outputLen, lastOutputLen, mostRecent)
    {
      ghost var before := AfterAll(start, events[..i]);
      assert events[..i + 1][..i] == events[..i];
      var timestamp := events[i].time;
      if ttft == 0.0 {
        ttft := events[i].later - start;
      } else {
        var numNewTokens;
        if events[i].count.Some? {
          numNewTokens := events[i].count.value - lastOutputLen;
          outputLen := events[i].count.value;
        } else {
          numNewTokens := 1;
          outputLen := outputLen + 1;
        }
        if numNewTokens <= 0 {
          continue;
        }
        var adjustItl := (timestamp - mostRecent) / numNewTokens as real;
        itl := itl + Repeat(adjustItl, numNewTokens);
      }
      mostRecent := timestamp;
      lastOutputLen := outputLen;
    }
    assert events[..|events|] == events;
  }

  /** How many events pass before the clock is seen to have moved. The code takes the event after them
      for the first one. */
  function Unmoved(start: real, events: seq<Event>): (n: nat)
    ensures n <= |events| && (n < |events| ==> events[n].later != start)
    ensures forall i | 0 <= i < n :: events[i].later == start
  {
    if events == [] then 0 else
      var k := |events| - 1;
      var n := Unmoved(start, events[..k]);
      if n == k && events[k].later == start then k + 1 else n
  }

  /** Up to then nothing is counted, and from then on the first event stays the first. */
  lemma {:induction false} NotStarted(start: real, events: seq<Event>)
    ensures var t, n := AfterAll(start, events), Unmoved(start, events);
      if n < |events| then t.ttft == events[n].later - start
      else t.ttft == 0.0 && t.itl == [] && t.lastOutputLen == t.outputLen == 0
    decreases |events|
  {
    if events != [] {
      var k := |events| - 1;
      NotStarted(start, events[..k]);
    }
  }

  // ----- the sum of the latencies -----

  function Sum(v: seq<real>): real { if v == [] then 0.0 else Sum(v[..|v| - 1]) + v[|v| - 1] }

  lemma {:induction false} SumConcat(v: seq<real>, w: seq<real>)
    ensures Sum(v + w) == Sum(v) + Sum(w)
    decreases |w|
  {
    if w == [] {
      assert v + w == v;
    } else {
      assert (v + w)[..|v + w| - 1] == v + w[..|w| - 1];
      SumConcat(v, w[..|w| - 1]);
    }
  }

  lemma {:induction false} SumRepeat(x: real, n: nat)
    ensures Sum(Repeat(x, n)) == x * n as real
  {
    if n > 0 {
      SumRepeat(x, n - 1);
      assert Repeat(x, n)[..n - 1] == Repeat(x, n - 1);
      assert x * n as real == x * (n - 1) as real + x;
    }
  }

  /** An accepted event adds its whole gap to the sum, however many tokens share it. */
  lemma GapIsShared(itl: seq<real>, gap: real, n: nat)
    requires 0 < n
    ensures Sum(itl + Repeat(gap / n as real, n)) == Sum(itl) + gap
  {
    SumConcat(itl, Repeat(gap / n as real, n));
    SumRepeat(gap / n as real, n);
  }

  lemma SumAfter(start: real, t: Track, e: Event)
    requires t.ttft != 0.0
    ensures Sum(After(start, t, e).itl) - After(start, t, e).mostRecent == Sum(t.itl) - t.mostRecent
  {
    var m := NewTokens(t, e);
    if m > 0 {
      GapIsShared(t.itl, e.time - t.mostRecent, m);
    }
  }

  /** The latencies of any run of events add up to the time between the first event and the last one
      that was accepted, whatever the counts say and whatever the clock does. */
  lemma {:induction false} LatenciesAddUp(start: real, events: seq<Event>)
    ensures var n := Unmoved(start, events);
      n < |events| ==> Sum(AfterAll(start, events).itl) == AfterAll(start, events).mostRecent - events[n].time
    decreases |events|
  {
    var n := Unmoved(start, events);
    if n < |events| {
      var k := |events| - 1;
      NotStarted(start, events[..k]);
      if n < k {
        LatenciesAddUp(start, events[..k]);
        SumAfter(start, AfterAll(start, events[..k]), events[k]);
      }
    }
  }

  /** The clock moves on between any two events, and before the first. */
  ghost predicate Advancing(start: real, events: seq<Event>) {
    && (events != [] ==> start < events[0].time)
    && (forall i | 0 <= i < |events| :: events[i].time <= events[i].later)
    && forall i | 0 < i < |events| :: events[i - 1].time < events[i].time
  }

  /** Every latency is positive, and the last accepted time is that of some event. */
  lemma {:induction false} LatenciesPositive(start: real, events: seq<Event>)
    requires Advancing(start, events) && events != []
    ensures forall x | x in AfterAll(start, events).itl :: 0.0 < x
    ensures AfterAll(start, events).mostRecent <= events[|events| - 1].time
    ensures Unmoved(start, events) == 0
    decreases |events|
  {
    var n := |events| - 1;
    var e := events[n];
    if n > 0 {
      LatenciesPositive(start, events[..n]);
      NotStarted(start, events[..n]);
      var t := AfterAll(start, events[..n]);
      var m := NewTokens(t, e);
      if m > 0 {
        PositiveQuotient(e.time - t.mostRecent, m);
      }
    } else {
      assert events[..0] == [];
    }
  }

  lemma PositiveQuotient(x: real, n: int)
    requires 0.0 < x && 0 < n
    ensures 0.0 < x / n as real
  {
  }

  // ----- the number of the latencies -----

  ghost predicate Counted(events: seq<Event>) { forall e | e in events :: e.count.Some? }

  /** The largest of 0 and the counts of the events after the first `n`. */
  function LargestCount(events: seq<Event>, n: nat): (m: int)
    requires Counted(events)
    ensures 0 <= m && forall i | n <= i < |events| :: events[i].count.value <= m
    ensures m == 0 || exists i | n <= i < |events| :: m == events[i].count.value
  {
    if |events| <= n then 0 else Max(LargestCount(events[..|events| - 1], n), events[|events| - 1].count.value)
  }

  lemma CountAfter(start: real, t: Track, e: Event)
    requires t.ttft != 0.0 && |t.itl| == t.lastOutputLen && e.count.Some?
    ensures var t' := After(start, t, e); |t'.itl| == t'.lastOutputLen == Max(t.lastOutputLen, e.count.value)
  {
  }

  /** If every event carries a count there is one latency for each token counted after the first event,
      however often counts repeat or go back. */
  lemma {:induction false} OneLatencyPerToken(start: real, events: seq<Event>)
    requires Counted(events)
    ensures var t := AfterAll(start, events);
      |t.itl| == t.lastOutputLen == LargestCount(events, Unmoved(start, events) + 1)
    decreases |events|
  {
    var n := Unmoved(start, events);
    NotStarted(start, events);
    if n < |events| {
      var k := |events| - 1;
      NotStarted(start, events[..k]);
      OneLatencyPerToken(start, events[..k]);
      assert events[k] in events;
      if n < k {
        CountAfter(start, AfterAll(start, events[..k]), events[k]);
      }
    }
  }

  /** The length finally reported is the last count seen, so it agrees with the number of latencies
      exactly if the last count is the largest. Without an event after the first one both are zero. */
  lemma ReportedLengthExactlyIf(start: real, events: seq<Event>)
    requires Counted(events)
    ensures var t, n := AfterAll(start, events), Unmoved(start, events);
      if n + 1 < |events| then
        var last := events[|events| - 1].count.value;
        && t.outputLen == last
        && (t.outputLen == |t.itl| <==> 0 <= last && forall i | n < i < |events| :: events[i].count.value <= last)
      else t.outputLen == 0 == |t.itl|
  {
    NotStarted(start, events);
    if events != [] {
      var k := |events| - 1;
      OneLatencyPerToken(start, events);
      NotStarted(start, events[..k]);
      assert events[k] in events;
    }
  }

  /** Three tokens are timed and two are reported. */
  lemma LengthCanDiffer()
    ensures var t := AfterAll(0.0, [Event(1.0, 1.0, Some(1)), Event(2.0, 2.0, Some(3)), Event(3.0, 3.0, Some(2))]);
      |t.itl| == 3 && t.outputLen == 2
  {
    var events := [Event(1.0, 1.0, Some(1)), Event(2.0, 2.0, Some(3)), Event(3.0, 3.0, Some(2))];
    assert Unmoved(0.0, events) == 0;
    OneLatencyPerToken(0.0, events);
    ReportedLengthExactlyIf(0.0, events);
    assert events[1].count.value == 3;
  }

  // ----- one event -----

  /** What an event does: if it is accepted it shares its gap evenly among the tokens it stands for, as many
      as its count is ahead of the last one, or one without a count. Any other leaves the latencies. */
  ghost predicate SplitsGap(t: Track, e: Event, t': Track) {
    var m := if e.count.Some? then e.count.value - t.lastOutputLen else 1;
    if m <= 0 then t'.itl == t.itl && t'.mostRecent == t.mostRecent
    else
      && t'.mostRecent == e.time && |t'.itl| == |t.itl| + m && t.itl <= t'.itl
      && forall i | |t.itl| <= i < |t'.itl| :: t'.itl[i] * m as real == e.time - t.mostRecent
  }

  lemma AfterSplits(start: real, t: Track, e: Event)
    requires t.ttft != 0.0
    ensures SplitsGap(t, e, After(start, t, e))
  {
    var m := NewTokens(t, e);
    if m > 0 {
      ShareTimes(e.time - t.mostRecent, m);
      var share := (e.time - t.mostRecent) / m as real;
      assert After(start, t, e).itl == t.itl + Repeat(share, m);
    }
  }

  lemma ShareTimes(x: real, m: int)
    requires 0 < m
    ensures x / m as real * m as real == x
  {
  }

  lemma GapIsSplit(start: real, events: seq<Event>)
    requires Unmoved(start, events) + 1 < |events|
    ensures var k := |events| - 1; SplitsGap(AfterAll(start, events[..k]), events[k], AfterAll(start, events))
  {
    var k := |events| - 1;
    NotStarted(start, events[..k]);
    AfterSplits(start, AfterAll(start, events[..k]), events[k]);
  }

  /** Without counts each event after the first is one token, its latency the time since the event before. */
  lemma {:induction false} OnePerEvent(start: real, events: seq<Event>)
    requires (forall e | e in events :: e.count.None?) && Unmoved(start, events) < |events|
    ensures var t, n := AfterAll(start, events), Unmoved(start, events);
      && t.mostRecent == events[|events| - 1].time && |t.itl| == t.outputLen == t.lastOutputLen == |events| - 1 - n
      && forall i | 0 <= i < |t.itl| :: t.itl[i] == events[n + 1 + i].time - events[n + i].time
    decreases |events|
  {
    var k := |events| - 1;
    NotStarted(start, events[..k]);
    assert events[k] in events;
    if Unmoved(start, events) < k {
      OnePerEvent(start, events[..k]);
    }
  }
}
