// The typewriter: a word list read from data-text is typed out one character
// per tick, held, erased one character per tick, and the next word follows.
// The state is the word counter i, the cursor position pos and the direction.

module Typewriter {
  import opened Text

  /** Milliseconds between ordinary ticks, and the pause once a word is typed out. */
  const Speed: nat := 90
  const Pause: nat := 900

  datatype TypeState = TypeState(i: nat, pos: int, forward: bool)

  /** What one tick does: the next state, the text it writes (None: no write) and the delay
      before the next tick. */
  datatype TickResult = TickResult(next: TypeState, written: Option<string>, delay: nat)

  /** words[i % words.length] || '': with no words at all the index is NaN and the word is ''. */
  function WordAt(words: seq<string>, i: nat): string
  {
    if |words| == 0 then "" else words[i % |words|]
  }

  /** tick. */
  function Tick(words: seq<string>, s: TypeState): TickResult
  {
    var word := WordAt(words, s.i);
    if s.forward then
      var pos := s.pos + 1;
      if pos >= |word| then TickResult(TypeState(s.i, pos, false), None, Pause)
      else TickResult(TypeState(s.i, pos, true), Some(Slice(word, 0, pos)), Speed)
    else
      var pos := s.pos - 1;
      if pos <= 0 then TickResult(TypeState(s.i + 1, pos, true), Some(Slice(word, 0, pos)), Speed)
      else TickResult(TypeState(s.i, pos, false), Some(Slice(word, 0, pos)), Speed)
  }

  /** The longest the cursor gets on a word: its length, and 1 for the empty word. */
  function Reach(word: string): (m: nat)
    ensures m >= 1 && m >= |word|
  {
    if |word| == 0 then 1 else |word|
  }

  /** The states a typewriter started at (0, 0, forward) goes through: typing stops short of the
      word's end, erasing starts at most one past it. */
  ghost predicate Valid(words: seq<string>, s: TypeState)
  {
    var word := WordAt(words, s.i);
    if s.forward then s.pos == 0 || 0 < s.pos < |word|
    else 1 <= s.pos <= Reach(word)
  }

  /** Every tick keeps the typewriter within those states. */
  lemma TickValid(words: seq<string>, s: TypeState)
    requires Valid(words, s)
    ensures Valid(words, Tick(words, s).next)
  {
  }

  /** The cursor moves by exactly one each tick: forward while typing, back while erasing. */
  lemma TickMovesByOne(words: seq<string>, s: TypeState)
    ensures var t := Tick(words, s).next;
      t.pos == if s.forward then s.pos + 1 else s.pos - 1
  {
  }

  /** Typing up to the word's length turns the direction around, pauses 900 ms and writes
      nothing; every other tick writes and waits 90 ms. */
  lemma TickPauses(words: seq<string>, s: TypeState)
    ensures var r := Tick(words, s);
      && (r.written.None? <==> s.forward && s.pos + 1 >= |WordAt(words, s.i)|)
      && (r.written.None? <==> r.delay == Pause)
      && (r.written.Some? <==> r.delay == Speed)
      && (r.written.None? ==> r.next == TypeState(s.i, s.pos + 1, false))
  {
  }

  /** Erasing down to 0 turns the direction around and moves on to the next word. */
  lemma TickNextWord(words: seq<string>, s: TypeState)
    ensures var t := Tick(words, s).next;
      && (t.i == s.i + 1 <==> !s.forward && s.pos <= 1)
      && (t.i != s.i + 1 ==> t.i == s.i)
      && (t.i == s.i + 1 ==> t.forward && t.pos == s.pos - 1)
  {
  }

  /** Whatever is written is the first pos characters of the current word; from a valid state
      that is never the whole of a non-empty word, so the full word is never on screen. */
  lemma TickWritesPrefix(words: seq<string>, s: TypeState)
    requires Valid(words, s)
    ensures var r := Tick(words, s);
      var word := WordAt(words, s.i);
      r.written.Some? ==>
        && r.written.value == word[..r.next.pos]
        && (|r.written.value| < |word| || word == [])
  {
  }

  /** Run n ticks. */
  function Run(words: seq<string>, s: TypeState, n: nat): TypeState
    decreases n
  {
    if n == 0 then s else Run(words, Tick(words, s).next, n - 1)
  }

  lemma {:induction false} RunAdd(words: seq<string>, s: TypeState, a: nat, b: nat)
    ensures Run(words, s, a + b) == Run(words, Run(words, s, a), b)
    decreases a
  {
    if a > 0 {
      RunAdd(words, Tick(words, s).next, a - 1, b);
    }
  }

  /** Typing from position p reaches the turn after Reach(word) - p ticks. */
  lemma {:induction false} TypeOut(words: seq<string>, i: nat, p: int)
    requires 0 <= p < Reach(WordAt(words, i)) && (p == 0 || p < |WordAt(words, i)|)
    ensures Run(words, TypeState(i, p, true), Reach(WordAt(words, i)) - p)
      == TypeState(i, Reach(WordAt(words, i)), false)
    decreases Reach(WordAt(words, i)) - p
  {
    var m := Reach(WordAt(words, i));
    var t := Tick(words, TypeState(i, p, true)).next;
    if p + 1 < m {
      assert t == TypeState(i, p + 1, true);
      TypeOut(words, i, p + 1);
    } else {
      assert t == TypeState(i, m, false);
    }
  }

  /** Erasing from position p ends on the next word, typing from 0, after p ticks. */
  lemma {:induction false} EraseOut(words: seq<string>, i: nat, p: int)
    requires 1 <= p
    ensures Run(words, TypeState(i, p, false), p) == TypeState(i + 1, 0, true)
    decreases p
  {
    var t := Tick(words, TypeState(i, p, false)).next;
    if p > 1 {
      assert t == TypeState(i, p - 1, false);
      EraseOut(words, i, p - 1);
    } else {
      assert t == TypeState(i + 1, 0, true);
    }
  }

  /** A whole word takes 2 * Reach(word) ticks: it is typed, erased, and the typewriter stands at
      the start of the next word. The word list is cycled through in order, forever. */
  lemma WordCycle(words: seq<string>, i: nat)
    ensures var m := Reach(WordAt(words, i));
      Run(words, TypeState(i, 0, true), 2 * m) == TypeState(i + 1, 0, true)
  {
    var m := Reach(WordAt(words, i));
    RunAdd(words, TypeState(i, 0, true), m, m);
    TypeOut(words, i, 0);
    EraseOut(words, i, m);
  }

  /** The typewriter element: the word list, the closure's i, pos and forward, and the text on
      screen. */
  class TypewriterElement {
    const words: seq<string>
    var i: nat
    var pos: int
    var forward: bool
    var text: string

    function State(): TypeState
      reads this
    {
      TypeState(i, pos, forward)
    }

    /** typewriterInit: the parsed word list, i = 0, pos = 0, typing forward. */
    constructor (words: seq<string>, text: string)
      ensures this.words == words && State() == TypeState(0, 0, true) && this.text == text
      ensures Valid(words, State())
    {
      this.words := words;
      i, pos, forward := 0, 0, true;
      this.text := text;
    }

    /** tick: moves the cursor, writes the prefix unless the word was just typed out, and
        returns the delay before the next tick. */
    method TickOnce() returns (delay: nat)
      modifies this
      ensures var r := Tick(words, old(State()));
        && State() == r.next
        && text == (if r.written.Some? then r.written.value else old(text))
        && delay == r.delay
    {
      var word := WordAt(words, i);
      if forward {
        pos := pos + 1;
        if pos >= |word| {
          forward := false;
          return Pause;
        }
      } else {
        pos := pos - 1;
        if pos <= 0 {
          forward := true;
          i := i + 1;
        }
      }
      text := Slice(word, 0, pos);
      return Speed;
    }
  }
}
