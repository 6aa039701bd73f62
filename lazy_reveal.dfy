// The lazy-reveal observer: every image with a data-src and every .fade-in
// element is observed; the first time one intersects it becomes visible, an
// image's data-src moves into its src, and the element is unobserved.

module LazyReveal {
  import opened Text

  /** An element as the observer sees it: whether it is an <img>, whether it has the fade-in
      class, its data-src attribute and src, and whether it has the 'visible' class. */
  datatype Element = Element(isImg: bool, fadeIn: bool, dataSrc: Option<string>, src: Option<string>,
                             visible: bool)

  /** The elements, the ones still observed, and the images whose source was swapped in, in
      order. */
  datatype LazyState = LazyState(elems: seq<Element>, observed: set<nat>, loads: seq<nat>)

  datatype Entry = Entry(target: nat, isIntersecting: bool)

  /** Matched by 'img[data-src], .fade-in': the attribute selector matches an empty data-src too. */
  predicate Watched(e: Element)
  {
    (e.isImg && e.dataSrc.Some?) || e.fadeIn
  }

  /** `t.tagName === 'IMG' && t.dataset.src`: an image with a non-empty data-src. */
  predicate Lazy(e: Element)
  {
    e.isImg && e.dataSrc.Some? && e.dataSrc.value != []
  }

  /** initLazyReveal: observes every watched element (with none, no observer is made, which
      observes nothing all the same). */
  function Init(elems: seq<Element>): (s: LazyState)
    ensures forall k: nat :: k in s.observed <==> k < |elems| && Watched(elems[k])
  {
    LazyState(elems, WatchedBelow(elems, |elems|), [])
  }

  /** The watched elements among the first n. */
  function WatchedBelow(elems: seq<Element>, n: nat): (r: set<nat>)
    requires n <= |elems|
    ensures forall k: nat :: k in r <==> k < n && Watched(elems[k])
  {
    if n == 0 then {}
    else WatchedBelow(elems, n - 1) + if Watched(elems[n - 1]) then {n - 1} else {}
  }

  /** The callback for one entry of an observed element. */
  function Callback(s: LazyState, e: Entry): LazyState
    requires e.target < |s.elems|
  {
    if !e.isIntersecting then s
    else
      var k := e.target;
      var el := s.elems[k].(visible := true);
      if Lazy(el) then
        LazyState(s.elems[k := el.(src := el.dataSrc, dataSrc := None)], s.observed - {k}, s.loads + [k])
      else
        LazyState(s.elems[k := el], s.observed - {k}, s.loads)
  }

  /** The browser hands the callback entries for observed elements only. */
  function Deliver(s: LazyState, e: Entry): LazyState
  {
    if e.target in s.observed && e.target < |s.elems| then Callback(s, e) else s
  }

  function Replay(s: LazyState, es: seq<Entry>): LazyState
    decreases |es|
  {
    if es == [] then s else Replay(Deliver(s, es[0]), es[1..])
  }

  /** Reveal-once: observed elements exist; a loaded image is no longer observed, has no
      data-src left and is visible; no image is loaded twice. */
  ghost predicate Inv(s: LazyState)
  {
    && (forall k :: k in s.observed ==> k < |s.elems|)
    && (forall j :: 0 <= j < |s.loads| ==>
          && s.loads[j] < |s.elems| && s.loads[j] !in s.observed
          && s.elems[s.loads[j]].dataSrc.None? && s.elems[s.loads[j]].visible)
    && (forall i, j :: 0 <= i < j < |s.loads| ==> s.loads[i] != s.loads[j])
  }

  lemma InitInv(elems: seq<Element>)
    ensures Inv(Init(elems))
  {
  }

  /** The lazy-reveal observer callback keeps reveal-once on one entry. */
  lemma DeliverInv(s: LazyState, e: Entry)
    requires Inv(s)
    ensures Inv(Deliver(s, e))
  {
    if e.target in s.observed && e.target < |s.elems| && e.isIntersecting {
      var k := e.target;
      var t := Callback(s, e);
      assert forall j :: 0 <= j < |s.loads| ==> s.loads[j] != k;
      if Lazy(s.elems[k]) {
        assert t.loads == s.loads + [k];
      }
    }
  }

  /** By induction on the entries: the lazy-reveal observer keeps reveal-once (no image source
      swapped twice) over any sequence of entries. */
  lemma {:induction false} ReplayInv(s: LazyState, es: seq<Entry>)
    requires Inv(s)
    ensures Inv(Replay(s, es))
    decreases |es|
  {
    if es != [] {
      DeliverInv(s, es[0]);
      ReplayInv(Deliver(s, es[0]), es[1..]);
    }
  }

  /** However the entries arrive after page load, no image has its source swapped in twice. */
  lemma {:induction false} LoadsOnce(elems: seq<Element>, es: seq<Entry>, i: nat, j: nat)
    requires var loads := Replay(Init(elems), es).loads; i < j < |loads|
    ensures var loads := Replay(Init(elems), es).loads; loads[i] != loads[j]
  {
    InitInv(elems);
    ReplayInv(Init(elems), es);
  }

  /** The first intersection of a watched element reveals it, loads it if it is a lazy image,
      and stops observing it, so every later entry for it changes nothing. */
  lemma FirstIntersection(s: LazyState, k: nat, later: Entry)
    requires k in s.observed && k < |s.elems| && later.target == k
    ensures var t := Deliver(s, Entry(k, true));
      && t.elems[k].visible
      && k !in t.observed
      && (Lazy(s.elems[k]) ==>
            t.elems[k].src == s.elems[k].dataSrc && t.elems[k].dataSrc.None? && t.loads == s.loads + [k])
      && (!Lazy(s.elems[k]) ==> t.elems[k].src == s.elems[k].src && t.loads == s.loads)
      && Deliver(t, later) == t
  {
  }

  /** Entries only ever reveal: a visible element stays visible and the element list keeps its
      length. */
  lemma {:induction false} VisibleStays(s: LazyState, es: seq<Entry>, k: nat)
    requires k < |s.elems| && s.elems[k].visible
    ensures |Replay(s, es).elems| == |s.elems| && Replay(s, es).elems[k].visible
    decreases |es|
  {
    if es != [] {
      VisibleStays(Deliver(s, es[0]), es[1..], k);
    }
  }

  /** An element that is neither an image with a data-src nor .fade-in is never revealed. */
  lemma {:induction false} UnwatchedUntouched(elems: seq<Element>, es: seq<Entry>, k: nat)
    requires k < |elems| && !Watched(elems[k])
    ensures |Replay(Init(elems), es).elems| == |elems| && Replay(Init(elems), es).elems[k] == elems[k]
  {
    UnwatchedStays(Init(elems), es, k);
  }

  lemma {:induction false} UnwatchedStays(s: LazyState, es: seq<Entry>, k: nat)
    requires k < |s.elems| && k !in s.observed
    ensures |Replay(s, es).elems| == |s.elems| && Replay(s, es).elems[k] == s.elems[k]
    decreases |es|
  {
    if es != [] {
      UnwatchedStays(Deliver(s, es[0]), es[1..], k);
    }
  }

  /** The page's watched elements as the observer mutates them. */
  class LazyPage {
    var elems: seq<Element>
    var observed: set<nat>
    var loads: seq<nat>

    function State(): LazyState
      reads this
    {
      LazyState(elems, observed, loads)
    }

    /** initLazyReveal: observes the matching elements one by one. */
    constructor (initial: seq<Element>)
      ensures State() == Init(initial)
    {
      elems := initial;
      loads := [];
      var k := 0;
      var watching: set<nat> := {};
      while k < |initial|
        invariant 0 <= k <= |initial|
        invariant watching == WatchedBelow(initial, k)
      {
        var el := initial[k];
        if (el.isImg && el.dataSrc.Some?) || el.fadeIn {
          watching := watching + {k};
        }
        k := k + 1;
      }
      observed := watching;
    }

    /** The observer's callback for one entry. */
    method OnEntry(e: Entry)
      modifies this
      ensures State() == Deliver(old(State()), e)
    {
      var k := e.target;
      if k !in observed || k >= |elems| || !e.isIntersecting {
        return;
      }
      var el := elems[k].(visible := true);
      if el.isImg && el.dataSrc.Some? && el.dataSrc.value != [] {
        el := el.(src := el.dataSrc, dataSrc := None);
        loads := loads + [k];
      }
      elems := elems[k := el];
      observed := observed - {k};
    }
  }
}
