// The stat counters: animateValue counts an element's text linearly from a
// start to an end value, with Math.floor, and adds a percent sign for large
// percentages. At page load initCounters starts one counter on every
// .stat-item that has a heading; the reveal observer on .fade-in elements
// starts one more on a stat item whose heading has no data-animated flag, and
// sets that flag.

module Counters {
  import opened Text
  import opened Easing

  /** Math.floor(progress * (end - start) + start). */
  function CounterValue(start: int, end: int, progress: real): int
  {
    (progress * (end - start) as real + start as real).Floor
  }

  /** The text a frame writes: `${value}%` when end >= 100 and data-percent is 'true', the bare
      value otherwise. */
  function CounterText(end: int, value: int, percent: Option<string>): string
  {
    if end >= 100 && percent == Some("true") then IntToString(value) + "%" else IntToString(value)
  }

  /** The text a frame writes when the end value may be NaN (None): NaN propagates into the
      value, and `NaN >= 100` is false. */
  function FrameText(start: int, end: Option<int>, progress: real, percent: Option<string>): string
  {
    match end
    case None => "NaN"
    case Some(e) => CounterText(e, CounterValue(start, e, progress), percent)
  }

  /** The first frame shows the start value and the last shows the end value. */
  lemma CounterValueEnds(start: int, end: int)
    ensures CounterValue(start, end, 0.0) == start
    ensures CounterValue(start, end, 1.0) == end
  {
  }

  /** Counting up, every value lies between start and end. */
  lemma CounterValueBounds(start: int, end: int, progress: real)
    requires start <= end && 0.0 <= progress <= 1.0
    ensures start <= CounterValue(start, end, progress) <= end
  {
    var span := (end - start) as real;
    assert 0.0 <= progress * span <= span by {
      assert progress * span <= 1.0 * span;
    }
  }

  /** Counting up, the value never goes back as progress advances. */
  lemma CounterValueMonotone(start: int, end: int, p: real, q: real)
    requires start <= end && p <= q
    ensures CounterValue(start, end, p) <= CounterValue(start, end, q)
  {
    var span := (end - start) as real;
    assert p * span <= q * span;
  }

  /** The suffix rule: the text ends with '%' exactly when end >= 100 and data-percent is
      'true'; what precedes it is the value. */
  lemma CounterTextSuffix(end: int, value: int, percent: Option<string>)
    ensures var t := CounterText(end, value, percent);
      && (t[|t| - 1] == '%' <==> end >= 100 && percent == Some("true"))
      && t[..|IntToString(value)|] == IntToString(value)
  {
    var digits := IntToString(value);
    if end >= 100 && percent == Some("true") {
      assert (digits + "%")[|digits|] == '%';
      assert (digits + "%")[..|digits|] == digits;
    }
  }

  /** One frame loop of animateValue. A start time of 0 stands for "not yet set": the source
      tests `!startTime`, for which null and 0 are alike. */
  class CounterAnimation {
    const start: int
    const end: Option<int>
    const duration: real
    const percent: Option<string>
    var startTime: real
    var text: string
    var pending: bool

    ghost predicate Valid()
      reads this
    {
      duration > 0.0
    }

    /** animateValue: requests the first frame; the element keeps its text until then. */
    constructor (start: int, end: Option<int>, duration: real, percent: Option<string>, text: string)
      requires duration > 0.0
      ensures Valid()
      ensures this.start == start && this.end == end && this.duration == duration
      ensures this.percent == percent && this.text == text
      ensures startTime == 0.0 && pending
    {
      this.start := start;
      this.end := end;
      this.duration := duration;
      this.percent := percent;
      this.text := text;
      startTime := 0.0;
      pending := true;
    }

    /** One frame: the first frame fixes the start time; each frame writes the linear value
      and requests another frame until progress reaches 1. */
    method Step(timestamp: real)
      requires Valid() && pending
      modifies this
      ensures Valid()
      ensures startTime == if old(startTime) == 0.0 then timestamp else old(startTime)
      ensures text == FrameText(start, end, Progress(timestamp - startTime, duration), percent)
      ensures pending <==> timestamp - startTime < duration
      ensures !pending && end.Some? ==> text == CounterText(end.value, end.value, percent)
    {
      if startTime == 0.0 {
        startTime := timestamp;
      }
      var progress := (timestamp - startTime) / duration;
      if progress >= 1.0 {
        progress := 1.0;
      }
      ghost var elapsed := timestamp - startTime;
      assert progress == Progress(elapsed, duration);
      match end {
        case None =>
          text := "NaN";
        case Some(e) =>
          var value := (progress * (e - start) as real + start as real).Floor;
          assert value == CounterValue(start, e, progress);
          text := if e >= 100 && percent == Some("true") then IntToString(value) + "%" else IntToString(value);
          if progress == 1.0 {
            CounterValueEnds(start, e);
          }
      }
      pending := progress < 1.0;
    }
  }

  /** An element of the page as the counters see it: whether it is a .stat-item and a .fade-in
      element, whether it has an h3 heading and the heading's text, its data-target, the
      heading's data-percent and data-animated flag, and whether it has been made visible. */
  datatype Item = Item(
    statItem: bool, fadeIn: bool, hasHeading: bool, heading: string, dataTarget: Option<string>,
    percent: Option<string>, animated: bool, visible: bool)

  /** A counter started on an item's heading (from 0, over 1600 ms): its end value (None for NaN),
      the heading's data-percent, and whether the observer (rather than page load) started it. */
  datatype CounterRun = CounterRun(item: nat, end: Option<int>, percent: Option<string>, viaObserver: bool)

  datatype RevealState = RevealState(items: seq<Item>, runs: seq<CounterRun>)

  datatype Entry = Entry(target: nat, isIntersecting: bool)

  /** Both paths call animateValue(h, 0, target, 1600). */
  const CounterDuration: real := 1600.0

  /** A frame loop just started for a run: counting from 0 to the run's end over 1600 ms, no
      frame yet, and the heading still showing its text. */
  ghost predicate StartedFor(c: CounterAnimation, run: CounterRun, heading: string)
    reads c
  {
    && c.Valid() && c.pending && c.startTime == 0.0
    && c.start == 0 && c.end == run.end && c.duration == CounterDuration
    && c.percent == run.percent && c.text == heading
  }

  /** parseInt(item.dataset.target || '0', 10): a missing or empty data-target falls back to the
      text '0', which reads as 0 (ZeroTextParses). */
  function TargetOf(dataTarget: Option<string>): (r: Option<int>)
  {
    if dataTarget.None? || dataTarget.value == [] then Some(0) else ParseInt(dataTarget.value)
  }

  /** The fallback text '0' reads as 0, so TargetOf is parseInt on `dataTarget || '0'`. */
  lemma ZeroTextParses(zero: string)
    requires zero == IntToString(0)
    ensures ParseInt(zero) == Some(0)
    ensures forall t :: TargetOf(t) == ParseInt(if t.None? || t.value == [] then zero else t.value)
  {
    ParseIntOfIntToString(0, []);
    assert zero + [] == zero;
  }

  /** parseInt(e.target.dataset.target || 0) in the reveal observer: no radix, and the fallback
      is the number 0, which reads as 0. */
  function ObserverTargetOf(dataTarget: Option<string>): (r: Option<int>)
  {
    if dataTarget.None? || dataTarget.value == [] then Some(0) else ParseIntNoRadix(dataTarget.value)
  }

  /** The two paths agree on the end value unless data-target carries a '0x' mark, which only the
      observer reads in base 16. */
  lemma TargetsAgree(dataTarget: Option<string>)
    requires dataTarget.Some? ==> !HexMarked(Unsigned(TrimStart(dataTarget.value)))
    ensures ObserverTargetOf(dataTarget) == TargetOf(dataTarget)
  {
    if dataTarget.Some? && dataTarget.value != [] {
      ParseIntNoRadixDecimal(dataTarget.value);
    }
  }

  /** With data-target "0x10", page load counts to 0 and the observer to 16. */
  lemma TargetsDiverge(dataTarget: Option<string>)
    requires dataTarget == Some("0x10")
    ensures TargetOf(dataTarget) == Some(0) && ObserverTargetOf(dataTarget) == Some(16)
  {
    ParseIntHexMarked(dataTarget.value);
  }

  predicate Countable(item: Item) { item.statItem && item.hasHeading }

  /** The counters initCounters starts on the first n items, in document order. */
  function LoadRuns(items: seq<Item>, n: nat): (r: seq<CounterRun>)
    requires n <= |items|
    ensures |r| <= n
    ensures forall j :: 0 <= j < |r| ==> r[j].item < n && Countable(items[r[j].item]) && !r[j].viaObserver
  {
    if n == 0 then []
    else
      var earlier := LoadRuns(items, n - 1);
      var item := items[n - 1];
      if Countable(item) then earlier + [CounterRun(n - 1, TargetOf(item.dataTarget), item.percent, false)]
      else earlier
  }

  /** One more item adds its run when it is a stat item with a heading. */
  lemma LoadRunsStep(items: seq<Item>, k: nat)
    requires k < |items|
    ensures LoadRuns(items, k + 1) == LoadRuns(items, k)
      + if Countable(items[k]) then [CounterRun(k, TargetOf(items[k].dataTarget), items[k].percent, false)] else []
  {
  }

  /** Page load misses no stat item with a heading: each gets a counter with its parsed target. */
  lemma {:induction false} LoadRunsComplete(items: seq<Item>, n: nat, k: nat)
    requires k < n <= |items| && Countable(items[k])
    ensures exists j ::
      && 0 <= j < |LoadRuns(items, n)|
      && LoadRuns(items, n)[j] == CounterRun(k, TargetOf(items[k].dataTarget), items[k].percent, false)
  {
    var r := LoadRuns(items, n);
    var earlier := LoadRuns(items, n - 1);
    if k == n - 1 {
      assert r[|earlier|] == CounterRun(k, TargetOf(items[k].dataTarget), items[k].percent, false);
    } else {
      LoadRunsComplete(items, n - 1, k);
      var j :| 0 <= j < |earlier| && earlier[j] == CounterRun(k, TargetOf(items[k].dataTarget), items[k].percent, false);
      assert r[j] == earlier[j];
    }
  }

  /** Page load: initCounters starts a counter on every stat item with a heading; it does not
      look at or set the data-animated flag. */
  function Load(s: RevealState): (t: RevealState)
  {
    RevealState(s.items, s.runs + LoadRuns(s.items, |s.items|))
  }

  /** The revealOnLoad callback for one entry: an intersecting element becomes visible; a stat
      item whose heading is not yet flagged starts a counter and is flagged. The observer never
      unobserves, so the browser hands it every entry for a .fade-in element. */
  function Deliver(s: RevealState, e: Entry): RevealState
  {
    if e.target >= |s.items| || !s.items[e.target].fadeIn || !e.isIntersecting then s
    else
      var k := e.target;
      var item := s.items[k];
      if Countable(item) && !item.animated then
        RevealState(s.items[k := item.(visible := true, animated := true)],
                    s.runs + [CounterRun(k, ObserverTargetOf(item.dataTarget), item.percent, true)])
      else
        RevealState(s.items[k := item.(visible := true)], s.runs)
  }

  function Replay(s: RevealState, es: seq<Entry>): RevealState
    decreases |es|
  {
    if es == [] then s else Replay(Deliver(s, es[0]), es[1..])
  }

  /** What the data-animated flag guarantees: every observer run is on a flagged item, and no
      item has two observer runs. */
  ghost predicate Inv(s: RevealState)
  {
    && (forall j :: 0 <= j < |s.runs| ==> s.runs[j].item < |s.items|)
    && (forall j :: 0 <= j < |s.runs| && s.runs[j].viaObserver ==> s.items[s.runs[j].item].animated)
    && (forall i, j :: 0 <= i < j < |s.runs| && s.runs[i].viaObserver && s.runs[j].viaObserver ==>
          s.runs[i].item != s.runs[j].item)
  }

  /** Page load keeps the invariant: it adds only page-load runs. */
  lemma LoadInv(s: RevealState)
    requires Inv(s)
    ensures Inv(Load(s))
  {
    var t := Load(s);
    var added := LoadRuns(s.items, |s.items|);
    assert forall j :: |s.runs| <= j < |t.runs| ==> t.runs[j] == added[j - |s.runs|];
  }

  /** The reveal observer callback keeps the data-animated guarantee on one entry. */
  lemma DeliverInv(s: RevealState, e: Entry)
    requires Inv(s)
    ensures Inv(Deliver(s, e))
  {
    if e.target < |s.items| && s.items[e.target].fadeIn && e.isIntersecting {
      var k := e.target;
      var item := s.items[k];
      if Countable(item) && !item.animated {
        StartInv(s, k, item.(visible := true, animated := true),
                 CounterRun(k, ObserverTargetOf(item.dataTarget), item.percent, true));
      } else {
        RevealInv(s, k, item.(visible := true));
      }
    }
  }

  /** Flagging an unflagged item and recording one run on it keeps the invariant. */
  lemma StartInv(s: RevealState, k: nat, flagged: Item, run: CounterRun)
    requires Inv(s) && k < |s.items| && !s.items[k].animated
    requires flagged.animated && run.item == k
    ensures Inv(RevealState(s.items[k := flagged], s.runs + [run]))
  {
    var t := RevealState(s.items[k := flagged], s.runs + [run]);
    assert forall j :: 0 <= j < |s.runs| && s.runs[j].viaObserver ==> s.runs[j].item != k;
    assert t.runs[|s.runs|] == run;
  }

  /** Replacing an item by one with the same flag keeps the invariant. */
  lemma RevealInv(s: RevealState, k: nat, item: Item)
    requires Inv(s) && k < |s.items| && item.animated == s.items[k].animated
    ensures Inv(RevealState(s.items[k := item], s.runs))
  {
  }

  /** By induction on the entries: the reveal observer keeps the data-animated guarantee (at
      most one observer run per heading) over any sequence of entries. */
  lemma {:induction false} ReplayInv(s: RevealState, es: seq<Entry>)
    requires Inv(s)
    ensures Inv(Replay(s, es))
    decreases |es|
  {
    if es != [] {
      DeliverInv(s, es[0]);
      ReplayInv(Deliver(s, es[0]), es[1..]);
    }
  }

  /** Through the observer, a stat item's counter starts at most once, whatever entries arrive
      after page load. */
  lemma {:induction false} ObserverAnimatesOnce(items: seq<Item>, es: seq<Entry>, i: nat, j: nat)
    requires var runs := Replay(Load(RevealState(items, [])), es).runs;
      i < j < |runs| && runs[i].viaObserver && runs[j].viaObserver
    ensures var runs := Replay(Load(RevealState(items, [])), es).runs;
      runs[i].item != runs[j].item
  {
    LoadInv(RevealState(items, []));
    ReplayInv(Load(RevealState(items, [])), es);
  }

  /** A flagged heading is never started again by the observer. */
  lemma FlaggedIsFinal(s: RevealState, e: Entry)
    requires e.target < |s.items| && s.items[e.target].animated
    ensures Deliver(s, e).runs == s.runs
  {
  }

  /** But overall a counter can start twice: page load starts it without setting the flag, and
      the first intersection starts it again. */
  lemma LoadThenRevealTwice(item: Item)
    requires Countable(item) && item.fadeIn && !item.animated
    ensures var t := Deliver(Load(RevealState([item], [])), Entry(0, true));
      |t.runs| == 2 && t.runs[0].item == 0 && t.runs[1].item == 0
      && !t.runs[0].viaObserver && t.runs[1].viaObserver
  {
    var s := Load(RevealState([item], []));
    assert LoadRuns([item], 1) == LoadRuns([item], 0) + [CounterRun(0, TargetOf(item.dataTarget), item.percent, false)];
    assert s.runs == [CounterRun(0, TargetOf(item.dataTarget), item.percent, false)];
  }

  /** The page as the counters see it: its elements and a record of the counters started. */
  class RevealPage {
    var items: seq<Item>
    var runs: seq<CounterRun>

    function State(): RevealState
      reads this
    {
      RevealState(items, runs)
    }

    constructor (items: seq<Item>)
      ensures State() == RevealState(items, [])
    {
      this.items := items;
      runs := [];
    }

    /** initCounters: walks the stat items in document order and starts one frame loop per
        stat item with a heading, in the order of the runs it records. */
    method InitCounters() returns (counters: seq<CounterAnimation>)
      modifies this
      ensures State() == Load(old(State()))
      ensures |counters| == |runs| - |old(runs)|
      ensures forall j :: 0 <= j < |counters| ==>
        var run := runs[|old(runs)| + j];
        && fresh(counters[j]) && run.item < |items| && StartedFor(counters[j], run, items[run.item].heading)
    {
      counters := [];
      ghost var base := |runs|;
      var k := 0;
      while k < |items|
        invariant 0 <= k <= |items| && items == old(items)
        invariant runs == old(runs) + LoadRuns(items, k)
        invariant |runs| == base + |counters|
        invariant forall j :: 0 <= j < |counters| ==>
          && fresh(counters[j]) && runs[base + j].item < |items|
          && StartedFor(counters[j], runs[base + j], items[runs[base + j].item].heading)
      {
        var item := items[k];
        LoadRunsStep(items, k);
        if item.statItem && item.hasHeading {
          var run := CounterRun(k, TargetOf(item.dataTarget), item.percent, false);
          var counter := new CounterAnimation(0, run.end, CounterDuration, item.percent, item.heading);
          runs := runs + [run];
          counters := counters + [counter];
          assert runs[base + |counters| - 1] == run;
        }
        k := k + 1;
      }
    }

    /** The revealOnLoad observer's callback for one entry; when it starts a counter it returns
        that frame loop. */
    method OnEntry(e: Entry) returns (counter: CounterAnimation?)
      modifies this
      ensures State() == Deliver(old(State()), e)
      ensures counter != null <==> |runs| == |old(runs)| + 1
      ensures counter != null ==>
        var run := runs[|runs| - 1];
        && fresh(counter) && run.item < |items| && StartedFor(counter, run, items[run.item].heading)
    {
      counter := null;
      var k := e.target;
      if k >= |items| || !items[k].fadeIn || !e.isIntersecting {
        return;
      }
      var item := items[k].(visible := true);
      if item.statItem && item.hasHeading && !item.animated {
        var run := CounterRun(k, ObserverTargetOf(item.dataTarget), item.percent, true);
        counter := new CounterAnimation(0, run.end, CounterDuration, item.percent, item.heading);
        runs := runs + [run];
        item := item.(animated := true);
      }
      items := items[k := item];
    }
  }
}
