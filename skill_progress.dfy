// The skill-progress section: each .progress-bg container holds a
// .progress-fill bar whose data-width gives a percentage, and the container's
// previous sibling may hold a percent label. When a container first becomes
// visible its bar is eased from 0% to the target width and its label counts up
// to the rounded target, both over a duration proportional to the percentage;
// then the container is no longer observed. Under reduced motion the bars are
// set to their final width at once and nothing is observed.

module SkillProgress {
  import opened Text
  import opened Percent
  import opened Easing

  /** Math.max(600, Math.min(1200, pct * 12)): animation length in milliseconds. */
  function Duration(pct: real): (d: real)
    ensures 600.0 <= d <= 1200.0
    ensures 50.0 <= pct <= 100.0 ==> d == pct * 12.0
    ensures pct <= 50.0 ==> d == 600.0
    ensures pct >= 100.0 ==> d == 1200.0
  {
    var scaled := if 1200.0 < pct * 12.0 then 1200.0 else pct * 12.0;
    if 600.0 < scaled then scaled else 600.0
  }

  /** Math.max(0, Math.min(100, targetPercent)): the bar never leaves [0, 100]. */
  function ClampPercent(x: real): (r: real)
    ensures 0.0 <= r <= 100.0
    ensures 0.0 <= x <= 100.0 ==> r == x
    ensures x < 0.0 ==> r == 0.0
    ensures x > 100.0 ==> r == 100.0
  {
    var capped := if x < 100.0 then x else 100.0;
    if 0.0 < capped then capped else 0.0
  }

  /** The bar width (in percent) that a frame writes after some elapsed time. */
  function BarWidth(target: real, duration: real, elapsed: real): real
    requires duration > 0.0
  {
    target * EaseOutCubic(Progress(elapsed, duration))
  }

  /** The number that a label frame writes, before its percent sign. */
  function LabelValue(target: real, duration: real, elapsed: real): int
    requires duration > 0.0
  {
    Round(Lerp(0.0, target, EaseOutCubic(Progress(elapsed, duration))))
  }

  /** Once the animation has started, every frame's width lies between 0 and the target. */
  lemma BarWidthBounds(target: real, duration: real, elapsed: real)
    requires duration > 0.0 && 0.0 <= target && 0.0 <= elapsed
    ensures 0.0 <= BarWidth(target, duration, elapsed) <= target
  {
    var eased := EaseOutCubic(Progress(elapsed, duration));
    EaseBounds(Progress(elapsed, duration));
    assert target * eased <= target * 1.0;
  }

  /** The width never decreases as time advances. */
  lemma BarWidthMonotone(target: real, duration: real, e1: real, e2: real)
    requires duration > 0.0 && 0.0 <= target && e1 <= e2
    ensures BarWidth(target, duration, e1) <= BarWidth(target, duration, e2)
  {
    ProgressMonotone(e1, e2, duration);
    EaseMonotone(Progress(e1, duration), Progress(e2, duration));
    var a, b := EaseOutCubic(Progress(e1, duration)), EaseOutCubic(Progress(e2, duration));
    assert target * a <= target * b;
  }

  /** When the duration has elapsed the width is exactly the target. */
  lemma BarWidthFinal(target: real, duration: real, elapsed: real)
    requires duration > 0.0 && elapsed >= duration
    ensures BarWidth(target, duration, elapsed) == target
  {
    EaseBounds(1.0);
  }

  /** Once started, a label shows a value between 0 and the rounded target. */
  lemma LabelValueBounds(target: real, duration: real, elapsed: real)
    requires duration > 0.0 && 0.0 <= target && 0.0 <= elapsed
    ensures 0 <= LabelValue(target, duration, elapsed) <= Round(target)
  {
    BarWidthBounds(target, duration, elapsed);
    RoundMonotone(0.0, BarWidth(target, duration, elapsed));
    RoundMonotone(BarWidth(target, duration, elapsed), target);
    RoundOfInt(0);
  }

  /** When the duration has elapsed the label shows the rounded target. */
  lemma LabelValueFinal(target: real, duration: real, elapsed: real)
    requires duration > 0.0 && elapsed >= duration
    ensures LabelValue(target, duration, elapsed) == Round(target)
  {
    EaseBounds(1.0);
  }

  /** A frame that has worked out the progress shows the label value of its elapsed time. */
  lemma LabelOfProgress(target: real, duration: real, elapsed: real, progress: real)
    requires duration > 0.0 && progress == Progress(elapsed, duration)
    ensures Round(Lerp(0.0, target, EaseOutCubic(progress))) == LabelValue(target, duration, elapsed)
  {
  }

  /** What a frame of the label may rely on: the bounds once started, the target once done. */
  lemma LabelFrame(target: real, duration: real, elapsed: real)
    requires duration > 0.0
    ensures elapsed >= 0.0 && target >= 0.0 ==> 0 <= LabelValue(target, duration, elapsed) <= Round(target)
    ensures elapsed >= duration ==> LabelValue(target, duration, elapsed) == Round(target)
  {
    if elapsed >= 0.0 && target >= 0.0 {
      LabelValueBounds(target, duration, elapsed);
    }
    if elapsed >= duration {
      LabelValueFinal(target, duration, elapsed);
    }
  }

  /** The label counts up and never back. */
  lemma LabelValueMonotone(target: real, duration: real, e1: real, e2: real)
    requires duration > 0.0 && 0.0 <= target && e1 <= e2
    ensures LabelValue(target, duration, e1) <= LabelValue(target, duration, e2)
  {
    BarWidthMonotone(target, duration, e1, e2);
    RoundMonotone(BarWidth(target, duration, e1), BarWidth(target, duration, e2));
  }

  /** Unlike the bar, the label is not clamped: a negative percentage counts down to itself
      while the bar ends at 0. */
  lemma LabelNotClamped(duration: real, elapsed: real)
    requires duration > 0.0 && elapsed >= duration
    ensures BarWidth(ClampPercent(-20.0), duration, elapsed) == 0.0
    ensures IntToString(LabelValue(-20.0, duration, elapsed)) + "%" == "-20%"
  {
    BarWidthFinal(ClampPercent(-20.0), duration, elapsed);
    LabelValueFinal(-20.0, duration, elapsed);
    RoundOfInt(-20);
    assert (-20) as real == -20.0;
    assert NatToString(20) == "20";
  }

  /** One frame loop of animateBar. */
  class BarAnimation {
    const target: real
    const duration: real
    const startTime: real
    var width: real
    var pending: bool
    ghost var lastElapsed: real

    ghost predicate Valid()
      reads this
    {
      && duration > 0.0
      && 0.0 <= target <= 100.0
      && width == BarWidth(target, duration, lastElapsed)
    }

    /** animateBar: clamps the target, writes width 0% and requests the first frame. */
    constructor (targetPercent: real, duration: real, now: real)
      requires duration > 0.0
      ensures Valid()
      ensures target == ClampPercent(targetPercent) && this.duration == duration && startTime == now
      ensures width == 0.0 && pending && lastElapsed == 0.0
    {
      target := ClampPercent(targetPercent);
      this.duration := duration;
      startTime := now;
      width := 0.0;
      pending := true;
      lastElapsed := 0.0;
      EaseBounds(0.0);
    }

    /** One frame: writes the eased width and requests another frame until progress is 1. */
    method Step(time: real)
      requires Valid() && pending
      modifies this
      ensures Valid()
      ensures width == BarWidth(target, duration, time - startTime)
      ensures pending <==> time - startTime < duration
      ensures time >= startTime ==> 0.0 <= width <= target
      ensures time - startTime >= old(lastElapsed) ==> width >= old(width)
      ensures !pending ==> width == target
    {
      var progress := (time - startTime) / duration;
      if progress >= 1.0 {
        progress := 1.0;
      }
      var eased := EaseOutCubic(progress);
      width := target * eased;
      pending := progress < 1.0;
      ghost var elapsed := time - startTime;
      if elapsed >= 0.0 {
        BarWidthBounds(target, duration, elapsed);
      }
      if elapsed >= lastElapsed {
        BarWidthMonotone(target, duration, lastElapsed, elapsed);
      }
      if elapsed >= duration {
        BarWidthFinal(target, duration, elapsed);
      }
      lastElapsed := elapsed;
    }
  }

  /** One frame loop of animateNumber. */
  class LabelAnimation {
    const target: real
    const duration: real
    const startTime: real
    var text: string
    var pending: bool

    ghost predicate Valid()
      reads this
    {
      duration > 0.0
    }

    /** animateNumber: remembers the start time and requests the first frame; the label keeps
        its text until then. */
    constructor (target: real, duration: real, now: real, text: string)
      requires duration > 0.0
      ensures Valid()
      ensures this.target == target && this.duration == duration && startTime == now
      ensures this.text == text && pending
    {
      this.target := target;
      this.duration := duration;
      startTime := now;
      this.text := text;
      pending := true;
    }

    /** One frame: writes the rounded eased value and a percent sign. */
    method Step(time: real)
      requires Valid() && pending
      modifies this
      ensures Valid()
      ensures var value := LabelValue(target, duration, time - startTime);
        && text == IntToString(value) + "%"
        && (time >= startTime && target >= 0.0 ==> 0 <= value <= Round(target))
        && (!pending ==> value == Round(target))
      ensures pending <==> time - startTime < duration
    {
      var progress := (time - startTime) / duration;
      if progress >= 1.0 {
        progress := 1.0;
      }
      ghost var elapsed := time - startTime;
      assert progress == Progress(elapsed, duration);
      var eased := EaseOutCubic(progress);
      var value := Round(Lerp(0.0, target, eased));
      LabelOfProgress(target, duration, elapsed, progress);
      assert value == LabelValue(target, duration, elapsed);
      LabelFrame(target, duration, elapsed);
      text := IntToString(value) + "%";
      pending := progress < 1.0;
    }
  }

  /** A .progress-bg container: the fill's data-width, the fill's current width (None when
      there is no .progress-fill) and the label's text (None when there is no label). */
  datatype SkillRow = SkillRow(dataWidth: Option<string>, fill: Option<string>, percentLabel: Option<string>)

  /** An animation started on a row: the parsed percentage, the shared duration, and whether
      a label counts along with the bar. */
  datatype BarRun = BarRun(row: nat, percent: real, duration: real, withLabel: bool)

  /** The section: its rows, the containers still observed, and the animations started. */
  datatype SkillState = SkillState(rows: seq<SkillRow>, observed: set<nat>, runs: seq<BarRun>)

  /** An intersection observer entry for one container. */
  datatype Entry = Entry(target: nat, isIntersecting: bool)

  /** `bar.dataset.width || '0%'` (and `el.dataset.width || '0%'` under reduced motion). */
  function WidthAttribute(dataWidth: Option<string>): (w: string)
    ensures w != []
    ensures dataWidth.Some? && dataWidth.value != [] ==> w == dataWidth.value
    ensures dataWidth.None? || dataWidth.value == [] ==> w == "0%"
  {
    if dataWidth.None? || dataWidth.value == [] then "0%" else dataWidth.value
  }

  /** The page-load pass. Under reduced motion every fill is set to its raw data-width and
      nothing is observed; otherwise every label reads 0%, every fill 0%, and every
      container is observed. */
  function Setup(rows: seq<SkillRow>, reduced: bool): (s: SkillState)
    ensures |s.rows| == |rows| && s.runs == []
    ensures reduced ==> s.observed == {}
    ensures !reduced ==> forall k: nat :: k < |rows| <==> k in s.observed
    ensures forall k :: 0 <= k < |rows| ==> s.rows[k].dataWidth == rows[k].dataWidth
    ensures reduced ==> forall k :: 0 <= k < |rows| ==>
      && s.rows[k].percentLabel == rows[k].percentLabel
      && s.rows[k].fill == (if rows[k].fill.Some? then Some(WidthAttribute(rows[k].dataWidth)) else None)
    ensures !reduced ==> forall k :: 0 <= k < |rows| ==>
      && s.rows[k].percentLabel == (if rows[k].percentLabel.Some? then Some("0%") else None)
      && s.rows[k].fill == (if rows[k].fill.Some? then Some("0%") else None)
  {
    if reduced then
      SkillState(seq(|rows|, k requires 0 <= k < |rows| =>
                   if rows[k].fill.Some? then rows[k].(fill := Some(WidthAttribute(rows[k].dataWidth)))
                   else rows[k]),
                 {}, [])
    else
      SkillState(seq(|rows|, k requires 0 <= k < |rows| =>
                   SkillRow(rows[k].dataWidth,
                            if rows[k].fill.Some? then Some("0%") else None,
                            if rows[k].percentLabel.Some? then Some("0%") else None)),
                 Indices(|rows|), [])
  }

  /** Under reduced motion a non-empty data-width is written to the fill as it is. */
  lemma ReducedWritesRaw(rows: seq<SkillRow>, k: nat)
    requires k < |rows| && rows[k].fill.Some?
    requires rows[k].dataWidth.Some? && rows[k].dataWidth.value != []
    ensures Setup(rows, true).rows[k].fill == rows[k].dataWidth
  {
  }

  /** An animated bar whose data-width reads "n%" with n above 100 stops at 100%. */
  lemma AnimatedStopsAt100(w: string, n: nat)
    requires n > 100 && w == NatToString(n) + "%"
    ensures var pct := ParsePercent(Some(w));
      && pct == n as real
      && BarWidth(ClampPercent(pct), Duration(pct), Duration(pct)) == 100.0
  {
    ParsePercentOfNatText(n, w);
    var pct := n as real;
    BarWidthFinal(ClampPercent(pct), Duration(pct), Duration(pct));
  }

  /** Under reduced motion a data-width above 100% is written to the fill as it is, while an
      animated bar with the same data-width would stop at 100%. */
  lemma ReducedWritesUnclamped(rows: seq<SkillRow>, k: nat, n: nat)
    requires k < |rows| && rows[k].fill.Some? && n > 100
    requires rows[k].dataWidth == Some(NatToString(n) + "%")
    ensures Setup(rows, true).rows[k].fill == Some(NatToString(n) + "%")
    ensures var pct := ParsePercent(rows[k].dataWidth);
      && pct == n as real
      && BarWidth(ClampPercent(pct), Duration(pct), Duration(pct)) == 100.0
  {
    ReducedWritesRaw(rows, k);
    AnimatedStopsAt100(rows[k].dataWidth.value, n);
  }

  /** The indices of n rows. */
  function Indices(n: nat): (r: set<nat>)
    ensures forall k: nat :: k in r <==> k < n
  {
    if n == 0 then {} else Indices(n - 1) + {n - 1}
  }

  /** The observer callback for one entry: an intersecting container with a fill starts a bar
      (and its label) with the parsed percentage, and every intersecting container is
      unobserved. */
  function Callback(s: SkillState, e: Entry): SkillState
    requires e.target < |s.rows|
  {
    if !e.isIntersecting then s
    else
      var k := e.target;
      var row := s.rows[k];
      if row.fill.Some? then
        var pct := ParsePercent(Some(WidthAttribute(row.dataWidth)));
        SkillState(s.rows[k := row.(fill := Some("0%"))], s.observed - {k},
                   s.runs + [BarRun(k, pct, Duration(pct), row.percentLabel.Some?)])
      else
        s.(observed := s.observed - {k})
  }

  /** The browser hands the callback entries for observed containers only. */
  function Deliver(s: SkillState, e: Entry): SkillState
  {
    if e.target in s.observed && e.target < |s.rows| then Callback(s, e) else s
  }

  function Replay(s: SkillState, es: seq<Entry>): SkillState
    decreases |es|
  {
    if es == [] then s else Replay(Deliver(s, es[0]), es[1..])
  }

  /** Animate-once: observed containers exist, a container with a run is no longer observed,
      no container has two runs, and every run's duration follows the clamp rule. */
  ghost predicate Inv(s: SkillState)
  {
    && (forall k :: k in s.observed ==> k < |s.rows|)
    && (forall j :: 0 <= j < |s.runs| ==> s.runs[j].row < |s.rows| && s.runs[j].row !in s.observed)
    && (forall i, j :: 0 <= i < j < |s.runs| ==> s.runs[i].row != s.runs[j].row)
    && (forall j :: 0 <= j < |s.runs| ==> s.runs[j].duration == Duration(s.runs[j].percent))
  }

  lemma SetupInv(rows: seq<SkillRow>, reduced: bool)
    ensures Inv(Setup(rows, reduced))
  {
  }

  /** The bar observer callback keeps animate-once on one entry. */
  lemma DeliverInv(s: SkillState, e: Entry)
    requires Inv(s)
    ensures Inv(Deliver(s, e)) && |Deliver(s, e).rows| == |s.rows|
  {
    if e.target in s.observed && e.target < |s.rows| && e.isIntersecting {
      var k := e.target;
      var row := s.rows[k];
      if row.fill.Some? {
        var pct := ParsePercent(Some(WidthAttribute(row.dataWidth)));
        StartInv(s, k, row.(fill := Some("0%")), BarRun(k, pct, Duration(pct), row.percentLabel.Some?));
      }
    }
  }

  /** Unobserving a container and recording one run on it keeps the invariant. */
  lemma StartInv(s: SkillState, k: nat, row: SkillRow, run: BarRun)
    requires Inv(s) && k in s.observed && k < |s.rows|
    requires run.row == k && run.duration == Duration(run.percent)
    ensures Inv(SkillState(s.rows[k := row], s.observed - {k}, s.runs + [run]))
  {
    var t := SkillState(s.rows[k := row], s.observed - {k}, s.runs + [run]);
    assert forall j :: 0 <= j < |s.runs| ==> s.runs[j].row != k;
    assert t.runs[|s.runs|] == run;
  }

  /** By induction on the entries: the bar observer keeps animate-once (at most one run per
      container) over any sequence of entries. */
  lemma {:induction false} ReplayInv(s: SkillState, es: seq<Entry>)
    requires Inv(s)
    ensures Inv(Replay(s, es))
    decreases |es|
  {
    if es != [] {
      DeliverInv(s, es[0]);
      ReplayInv(Deliver(s, es[0]), es[1..]);
    }
  }

  /** However the entries arrive, no container is animated twice. */
  lemma {:induction false} AnimateOnce(rows: seq<SkillRow>, reduced: bool, es: seq<Entry>, i: nat, j: nat)
    requires var runs := Replay(Setup(rows, reduced), es).runs; i < j < |runs|
    ensures var runs := Replay(Setup(rows, reduced), es).runs; runs[i].row != runs[j].row
  {
    SetupInv(rows, reduced);
    ReplayInv(Setup(rows, reduced), es);
  }

  /** A container that has been animated ignores every later entry. */
  lemma DoneIsFinal(s: SkillState, e: Entry, j: nat)
    requires Inv(s) && j < |s.runs| && s.runs[j].row == e.target
    ensures Deliver(s, e) == s
  {
  }

  /** An entry for an observed container with a fill starts exactly one animation, with the
      parsed percentage and the clamped duration. */
  lemma IntersectStarts(s: SkillState, k: nat)
    requires Inv(s) && k in s.observed && s.rows[k].fill.Some?
    ensures var t := Deliver(s, Entry(k, true));
      var pct := ParsePercent(Some(WidthAttribute(s.rows[k].dataWidth)));
      && t.runs == s.runs + [BarRun(k, pct, Duration(pct), s.rows[k].percentLabel.Some?)]
      && k !in t.observed
      && t.rows[k].fill == Some("0%")
  {
  }

  /** Under reduced motion no animation ever starts, whatever entries arrive. */
  lemma {:induction false} ReducedNeverAnimates(rows: seq<SkillRow>, es: seq<Entry>)
    ensures Replay(Setup(rows, true), es) == Setup(rows, true)
  {
    ReplayUnobserved(Setup(rows, true), es);
  }

  lemma {:induction false} ReplayUnobserved(s: SkillState, es: seq<Entry>)
    requires s.observed == {}
    ensures Replay(s, es) == s
    decreases |es|
  {
    if es != [] {
      ReplayUnobserved(s, es[1..]);
    }
  }

  /** A bar with data-width "83%": it is parsed as 83, runs for 996 ms, and both the bar and
      its label end on 83 at that moment. */
  lemma Scenario83(rows: seq<SkillRow>, w: string, pct: real, duration: real)
    requires w == "83%" && pct == 83.0 && duration == 996.0
    requires |rows| == 1 && rows[0].dataWidth == Some(w)
    requires rows[0].fill.Some? && rows[0].percentLabel.Some?
    ensures var t := Deliver(Setup(rows, false), Entry(0, true));
      && t.runs == [BarRun(0, pct, duration, true)]
      && BarWidth(ClampPercent(pct), duration, duration) == pct
      && IntToString(LabelValue(pct, duration, duration)) + "%" == "83%"
  {
    Scenario83Starts(rows, w, pct, duration);
    BarWidthFinal(pct, duration, duration);
    Scenario83Label(pct, duration);
  }

  lemma Scenario83Starts(rows: seq<SkillRow>, w: string, pct: real, duration: real)
    requires w == "83%" && pct == 83.0 && duration == 996.0
    requires |rows| == 1 && rows[0].dataWidth == Some(w)
    requires rows[0].fill.Some? && rows[0].percentLabel.Some?
    ensures Deliver(Setup(rows, false), Entry(0, true)).runs == [BarRun(0, pct, duration, true)]
  {
    Parse83(w, pct);
    var s := Setup(rows, false);
    assert 0 in s.observed;
    assert s.rows[0].dataWidth == Some(w) && WidthAttribute(Some(w)) == w;
    IntersectStarts(s, 0);
    assert Duration(pct) == duration;
  }

  lemma Scenario83Label(pct: real, duration: real)
    requires pct == 83.0 && duration > 0.0
    ensures IntToString(LabelValue(pct, duration, duration)) + "%" == "83%"
  {
    var n: nat := 83;
    LabelRoundsTo(pct, duration, n);
    Rendered83(n);
  }

  /** After the duration, a label whose target is an integer shows exactly that integer. */
  lemma LabelRoundsTo(target: real, duration: real, n: int)
    requires duration > 0.0 && target == n as real
    ensures LabelValue(target, duration, duration) == n
  {
    LabelValueFinal(target, duration, duration);
    RoundOfInt(n);
  }

  lemma Parse83(w: string, pct: real)
    requires w == "83%" && pct == 83.0
    ensures ParsePercent(Some(w)) == pct
  {
    Rendered83(83);
    assert w == [] + NatToString(83) + "%" + [];
    ParsePercentOfRendered([], 83, []);
  }

  lemma Rendered83(n: nat)
    requires n == 83
    ensures NatToString(n) == "83" && IntToString(n) == "83"
  {
    assert NatToString(n / 10) == "8";
  }

  /** The section as the page script holds it: the rows' displayed state, the containers the
      observer still watches, and a record of the animations it has started. */
  class SkillSection {
    var rows: seq<SkillRow>
    var observed: set<nat>
    var runs: seq<BarRun>

    function State(): SkillState
      reads this
    {
      SkillState(rows, observed, runs)
    }

    /** The page-load pass, with the reduced-motion preference as an input. */
    constructor (initial: seq<SkillRow>, reduced: bool)
      ensures State() == Setup(initial, reduced)
    {
      var k := 0;
      var shown: seq<SkillRow> := [];
      while k < |initial|
        invariant 0 <= k <= |initial| && |shown| == k
        invariant forall j :: 0 <= j < k ==> shown[j] == Setup(initial, reduced).rows[j]
      {
        var row := initial[k];
        if reduced {
          if row.fill.Some? {
            row := row.(fill := Some(WidthAttribute(row.dataWidth)));
          }
        } else {
          if row.percentLabel.Some? {
            row := row.(percentLabel := Some("0%"));
          }
          if row.fill.Some? {
            row := row.(fill := Some("0%"));
          }
        }
        shown := shown + [row];
        k := k + 1;
      }
      rows := shown;
      observed := if reduced then {} else Indices(|initial|);
      runs := [];
    }

    /** Handles one entry at time `now`; when it starts an animation it returns the bar's
        frame loop and, if the row has a label, the label's, sharing one duration. */
    method OnEntry(e: Entry, now: real) returns (bar: BarAnimation?, counter: LabelAnimation?)
      modifies this
      ensures State() == Deliver(old(State()), e)
      ensures bar != null <==> |runs| == |old(runs)| + 1
      ensures bar != null ==>
        && fresh(bar) && bar.Valid() && bar.pending && bar.width == 0.0
        && bar.target == ClampPercent(runs[|runs| - 1].percent)
        && bar.duration == runs[|runs| - 1].duration && bar.startTime == now
      ensures counter != null <==> bar != null && runs[|runs| - 1].withLabel
      ensures counter != null ==>
        && fresh(counter) && counter.Valid() && counter.pending
        && counter.target == runs[|runs| - 1].percent
        && counter.duration == bar.duration && counter.startTime == bar.startTime
    {
      bar, counter := null, null;
      var k := e.target;
      if k !in observed || k >= |rows| || !e.isIntersecting {
        return;
      }
      var row := rows[k];
      if row.fill.Some? {
        var pct := ParsePercent(Some(WidthAttribute(row.dataWidth)));
        var duration := Duration(pct);
        rows := rows[k := row.(fill := Some("0%"))];
        bar := new BarAnimation(pct, duration, now);
        if row.percentLabel.Some? {
          counter := new LabelAnimation(pct, duration, now, row.percentLabel.value);
        }
        runs := runs + [BarRun(k, pct, duration, row.percentLabel.Some?)];
      }
      observed := observed - {k};
    }
  }
}
