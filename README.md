# SkillsPassport page script, modelled in Dafny

This project models the interactive behaviour of the SkillsPassport landing page, as
`script.js` implements it, and proves what that behaviour guarantees.

- **Skill progress bars.** `parsePercent` reads a bar's `data-width`. The animation duration
  is clamped to 600–1200 ms. `animateBar` and `animateNumber` run ease-out-cubic frame loops.
  The bar observer animates each container once. Under reduced motion the bars are set at once.
- **Stat counters.** `animateValue` counts linearly with `Math.floor`. `initCounters` starts a
  counter at page load. The reveal observer starts a counter once per heading, guarded by
  `data-animated`.
- **Lazy reveal.** The observer makes elements visible and swaps an image's `data-src` into
  `src`, once per element.
- **Typewriter.** The `tick` state machine over `i`, `pos` and `forward`.
- **Preferences.** The theme toggle and its initialisation under `sp-theme`, and cookie consent
  under `sp-cookies`.
- **Widgets.** The mobile menu, the accordion, the back-to-top threshold, the wallet modal, the
  newsletter's email check, the feature filter and the `SP-` credential id.

Modules and files:

| file | module | what it holds |
|---|---|---|
| `text.dfy` | `Text` | `trim`, decimal digits, `String(n)`, `parseInt` with and without radix, `toUpperCase` on ASCII, `slice` |
| `percent.dfy` | `Percent` | `Number()` on decimal text; `parsePercent` |
| `easing.dfy` | `Easing` | frame progress, ease-out cubic, `Math.round` |
| `skill_progress.dfy` | `SkillProgress` | duration, bar and label frame loops (classes), the bar observer |
| `counters.dfy` | `Counters` | `animateValue` (class), `initCounters`, the reveal observer |
| `lazy_reveal.dfy` | `LazyReveal` | the lazy-reveal observer |
| `typewriter.dfy` | `Typewriter` | `tick` and the element it drives |
| `preferences.dfy` | `Preferences` | theme and cookie consent over a storage map |
| `widgets.dfy` | `Widgets` | menu, accordion, back-to-top, wallet modal, newsletter, filter, short id |

Each observer is modelled in the same way:
- A state value records the elements, the targets still observed and the animations started.
- `Deliver` applies the callback to one entry. The model assumes that an entry reaches the
  callback only while its target is observed, so `Deliver` drops all other entries. One
  callback batch holding two entries for the same target is outside this assumption (see
  "Left out").
- `Replay` applies a whole sequence of entries.
- An invariant `Inv` is proved preserved by `Deliver` and `Replay`.
- A class with the same fields has methods whose postcondition is the state transition:
  `State() == Deliver(old(State()), e)`.

Frame loops are classes. Each `Step` method is one `requestAnimationFrame` callback, and the
timestamp is a parameter.

Behaviours of `script.js` worth knowing, each proved about the model:
- **Progress is not floored at 0.** Progress is `Math.min((time - startTime) / duration, 1)`
  (script.js:115, 410 and 425): capped at 1 but never raised to 0, so a frame timestamp
  before the start time gives negative progress. The bounds lemmas therefore require a
  non-negative elapsed time.
- **A missing theme is read as light.** The toggle reads a missing or empty `data-theme` as
  `'light'` (script.js:57-58), so the first click gives `'dark'`
  (`Preferences.NextThemeCases`).
- **The credential id can be short.** `generateShortId` (script.js:256) is `'SP-'` plus
  `slice(2, 10)` of a random number's base-36 text, which is *up to* eight characters: a random
  number whose text is short gives a shorter id (`Widgets.ShortIdLength`). Its characters are
  always digits or upper-case letters (`Widgets.ShortIdAlphabet`).
- **The typewriter never shows a whole word.** When typing reaches the word's length, `tick`
  turns the direction and returns before writing (script.js:97), so the text on screen stops
  one character short (`Typewriter.TickWritesPrefix`).
- **A counter can start twice.** `initCounters` (script.js:122-130) starts a counter on every
  stat item without setting `data-animated`, and the reveal observer (script.js:143-145) checks
  only that flag, so it starts a second one (`Counters.LoadThenRevealTwice`).
- **The two counter paths parse `data-target` differently.** `initCounters` uses
  `parseInt(.., 10)` (script.js:124); the observer uses `parseInt` without a radix
  (script.js:144), which reads `0x10` as 16 (`Counters.TargetsDiverge`).

## Model

| member | source | states |
|---|---|---|
| Text.Trim | script.js:402 | the result is no longer than the text and begins and ends with a non-whitespace character |
| Text.TrimKeeps | script.js:266 | trimming keeps exactly the non-whitespace characters that were there |
| Text.TrimPadded | script.js:402 | a visible core padded with whitespace trims to the core |
| Text.RemoveFirst | script.js:402 | `replace('%', '')` removes the first occurrence only: the text before it and the text after it are kept in order; text without the character is unchanged |
| Text.IndexOf | script.js:402 | None exactly when the character is absent; otherwise the first position holding it |
| Text.IntToString | script.js:117 | the rendering ends in a digit and starts with '-' exactly for negative numbers |
| Text.NatToStringValue | script.js:413 | the digits written for a natural number read back as that number |
| Text.ParseIntOfIntToString | script.js:124 | `parseInt(.., 10)` reads back `String(i)` followed by any non-digit text |
| Text.ParseIntNaN | script.js:124 | `parseInt(.., 10)` is NaN exactly when no digit follows the leading whitespace and the optional sign |
| Text.ParseIntNoRadixDecimal | script.js:144 | without a `0x` mark, `parseInt` with no radix agrees with base 10 |
| Text.ParseIntHexMarked | script.js:144 | `"0x10"` is 16 without a radix and 0 in base 10 |
| Text.Upper | script.js:256 | same length, each character upper-cased on ASCII letters |
| Text.TrimStart | script.js:402 | only leading whitespace is dropped: the result is a suffix of the text that starts with a visible character or is empty |
| Text.TrimEnd | script.js:402 | only trailing whitespace is dropped: the result is a prefix of the text that ends with a visible character or is empty |
| Text.TrimStartPadded | script.js:402 | whitespace in front of a visible character is dropped and nothing else |
| Text.TrimEndPadded | script.js:402 | whitespace after a visible character is dropped and nothing else |
| Text.TrimUnpadded | script.js:266 | text that starts and ends with a visible character is left as it is |
| Text.NatToString | script.js:117 | `String(n)` on a natural number is non-empty decimal digits, with a leading '0' only for 0 |
| Text.DigitPrefix | script.js:124 | the digits `parseInt` reads: the longest run of leading digits, stopped by the first non-digit |
| Text.ParseInt | script.js:124 | `parseInt(s, 10)`: leading whitespace, one optional sign, the longest digit run; NaN without a digit (stated by ParseIntNaN, ParseIntOfIntToString and ParseIntUntrimmed) |
| Text.ParseIntUntrimmed | script.js:124 | text without leading whitespace is read from its first character |
| Text.SignedDigitsOf | script.js:124 | digits after the optional sign read as their value, negated after a minus sign |
| Text.ParseIntOfNat | script.js:124 | `parseInt(.., 10)` reads back the text of a non-negative number followed by non-digit text |
| Text.ParseIntOfNegative | script.js:124 | `parseInt(.., 10)` reads back the text of a negative number followed by non-digit text |
| Text.HexPrefix | script.js:144 | the longest run of leading hexadecimal digits, stopped by the first non-hex character |
| Text.ParseIntNoRadix | script.js:144 | `parseInt(s)` with no radix: base 10, except that `0x` or `0X` after the sign switches to base 16 (stated by ParseIntNoRadixDecimal and ParseIntHexMarked) |
| Text.HexMarked | script.js:144 | text that `parseInt` without a radix reads in base 16: it begins with `0x` or `0X` |
| Text.UpperAscii | script.js:256 | a lower-case ASCII letter becomes its upper-case letter; every other character is kept |
| Text.SliceBound | script.js:256 | a slice bound always lands inside the string |
| Text.Slice | script.js:102 | `slice(from, to)`: in-range bounds give exactly `s[from..to]`; from 0 it gives a prefix, of length `to` when `to` is in range, and a negative end counts back from the end |
| Text.IsWhitespace | script.js:402 | the ECMAScript white space and line terminator characters that `trim`, `Number()` and `parseInt` skip |
| Percent.ParsePercent | script.js:400-403 | a missing or empty attribute is 0 |
| Percent.ParsePercentOfRendered | script.js:400-403 | a natural number followed by '%', padded with whitespace, reads as that number |
| Percent.ParsePercentOfNatText | script.js:400-403 | "n%" for a natural number n reads as n |
| Percent.ParsePercentNonNumeric | script.js:400-403 | text containing a character no decimal number can hold falls back to 0 |
| Percent.ParsePercentDecimal | script.js:400-403 | decimal fractions are kept: "12.5%" is 12.5 |
| Percent.ParseNumberOfNat | script.js:402 | `Number()` reads back the digits of a natural number |
| Percent.ParseNumber | script.js:402 | `Number()` on decimal text: blank text is 0, and its other properties are the lemmas below |
| Percent.ParseUnsigned | script.js:402 | unsigned decimal text reads as a non-negative number |
| Percent.FractionValue | script.js:402 | the digits after a decimal point read as a fraction in [0, 1) |
| Percent.OrZero | script.js:402 | the fallback after `Number()`: NaN, and 0 itself, read as 0 (stated by ParsePercentNonNumeric) |
| Percent.ParseNumberUnsigned | script.js:402 | trimmed text without a sign is read as unsigned decimal text |
| Percent.ParseUnsignedOfNat | script.js:402 | the digits of a natural number read back as that number |
| Percent.RemovePercentSign | script.js:402 | removing '%' from digits followed by '%' leaves the digits |
| Percent.ParseNumberRejects | script.js:402 | a character that no decimal number holds makes `Number()` NaN |
| Percent.ParseUnsignedRejects | script.js:402 | a character other than a digit or '.' makes unsigned text NaN |
| Percent.ParsePercentOfNumber | script.js:400-403 | visible number text followed by one '%' reads as `Number()` of that text, NaN as 0 |
| Percent.ParseNumberDecimal | script.js:402 | `Number("12.5")` is 12.5 |
| Percent.ParseUnsignedDecimal | script.js:402 | "12.5" as unsigned decimal text is 12.5 |
| Easing.Progress | script.js:410 | progress is at most 1, equals 1 exactly once the duration has elapsed, and is non-negative for non-negative elapsed time |
| Easing.Round | script.js:412 | `Math.round` lies within half of its argument |
| Easing.EaseBounds | script.js:411 | the ease-out cubic maps [0, 1] into [0, 1], fixing 0 and 1 |
| Easing.EaseMonotone | script.js:426 | the curve never decreases |
| Easing.ProgressMonotone | script.js:425 | progress never decreases as time advances |
| Easing.RoundMonotone | script.js:412 | `Math.round` is monotone |
| Easing.RoundOfInt | script.js:412 | `Math.round` leaves integers unchanged |
| Easing.EaseOutCubic | script.js:411 | `1 - (1 - p)^3` (stated by EaseBounds and EaseMonotone) |
| Easing.Lerp | script.js:412 | `start + (target - start) * eased`, the value an eased frame shows (stated by LabelFrame and BarWidthBounds) |
| Easing.CubeMonotone | script.js:411 | cubing never decreases on non-negative reals, which makes the curve monotone |
| SkillProgress.Duration | script.js:447 | duration lies in [600, 1200]; it is pct*12 for pct in [50, 100], 600 at or below 50 and 1200 at or above 100 |
| SkillProgress.ClampPercent | script.js:421 | the bar target lies in [0, 100] and equals the percentage when the percentage is in range |
| SkillProgress.WidthAttribute | script.js:393-444 | a missing or empty data-width becomes "0%"; any other text is kept as it is |
| SkillProgress.BarWidthBounds | script.js:424-427 | once started, every width lies between 0 and the target |
| SkillProgress.BarWidthMonotone | script.js:424-427 | the width never decreases as time advances |
| SkillProgress.BarWidthFinal | script.js:424-428 | after the duration the width is exactly the target |
| SkillProgress.LabelValueBounds | script.js:409-413 | once started, the label lies between 0 and the rounded target |
| SkillProgress.LabelValueFinal | script.js:409-414 | after the duration the label shows the rounded target |
| SkillProgress.LabelValueMonotone | script.js:409-413 | the label counts up, never back |
| SkillProgress.LabelFrame | script.js:409-414 | any frame's label is within the bounds once started and equals the rounded target once the duration is over |
| SkillProgress.LabelNotClamped | script.js:412-421 | a negative percentage ends the bar at 0 but the label at "-20%" |
| SkillProgress.BarAnimation.constructor | script.js:420-423 | the target is clamped and the width starts at 0% |
| SkillProgress.BarAnimation.Step | script.js:424-429 | each frame writes the eased width, stays within [0, target], never shrinks, and stops exactly on the target |
| SkillProgress.LabelAnimation.constructor | script.js:406-408 | remembers target, duration and start time; the label keeps its text |
| SkillProgress.LabelAnimation.Step | script.js:409-415 | each frame writes the rounded eased value with '%', bounded by the rounded target, and stops on it |
| SkillProgress.Setup | script.js:390-469 | both paths keep every data-width; reduced motion writes each fill's raw data-width (or "0%") and leaves labels alone, observing nothing; otherwise every label and fill is set to "0%", every container is observed and nothing has started |
| SkillProgress.SetupInv | script.js:460-469 | page load establishes the animate-once invariant |
| SkillProgress.DeliverInv | script.js:434-457 | one entry keeps the invariant |
| SkillProgress.ReplayInv | script.js:434-457 | any sequence of entries keeps the invariant |
| SkillProgress.AnimateOnce | script.js:454-455 | however entries arrive, no container is animated twice |
| SkillProgress.DoneIsFinal | script.js:455 | an animated container ignores every later entry |
| SkillProgress.IntersectStarts | script.js:443-452 | an intersecting container with a fill starts one bar with the parsed percentage and clamped duration, and is unobserved |
| SkillProgress.ReducedNeverAnimates | script.js:390-397 | under reduced motion no entry ever starts an animation |
| SkillProgress.Scenario83 | script.js:443-451 | "83%" parses to 83, runs 996 ms, and bar and label both end on 83 |
| SkillProgress.SkillSection.constructor | script.js:460-469 | the page-load pass, equal to `Setup` |
| SkillProgress.SkillSection.OnEntry | script.js:434-457 | the callback is `Deliver`; a started bar (and label) share the run's target, duration and start time |
| SkillProgress.BarWidth | script.js:424-427 | the width a bar frame writes after some elapsed time (stated by BarWidthBounds, BarWidthMonotone and BarWidthFinal) |
| SkillProgress.LabelValue | script.js:409-413 | the number a label frame writes (stated by LabelValueBounds, LabelValueMonotone and LabelValueFinal) |
| SkillProgress.LabelOfProgress | script.js:410-412 | a label frame that has computed its progress shows the label value of its elapsed time |
| SkillProgress.LabelRoundsTo | script.js:412 | after the duration a label with an integer target shows exactly that integer |
| SkillProgress.ReducedWritesUnclamped | script.js:390-421 | under reduced motion "n%" with n > 100 is written to the fill as it is, while an animated bar with the same data-width ends at 100 |
| SkillProgress.ReducedWritesRaw | script.js:392-395 | under reduced motion a fill gets its non-empty data-width exactly as written |
| SkillProgress.AnimatedStopsAt100 | script.js:421-427 | a bar animated from "n%" with n above 100 parses to n but ends at width 100 |
| SkillProgress.Callback | script.js:435-455 | one entry: a non-intersecting entry changes nothing; otherwise a fill starts a run and the container is unobserved (stated by IntersectStarts and DoneIsFinal) |
| SkillProgress.Deliver | script.js:434-457 | the callback applied to entries of observed containers (stated by DeliverInv) |
| SkillProgress.Replay | script.js:434-457 | the callback applied to a sequence of entries in order (stated by ReplayInv and AnimateOnce) |
| SkillProgress.StartInv | script.js:447-455 | unobserving a container while recording its one run keeps the animate-once invariant |
| SkillProgress.ReplayUnobserved | script.js:390-397 | with nothing observed, no sequence of entries changes anything |
| SkillProgress.Parse83 | script.js:400-403 | "83%" parses to 83 |
| SkillProgress.Scenario83Starts | script.js:443-448 | an intersecting "83%" container starts exactly one bar at 83 over 996 ms |
| SkillProgress.Scenario83Label | script.js:412-413 | after the duration the label of an 83 run reads "83%" |
| SkillProgress.Inv | script.js:434-469 | animate-once: observed containers exist, a container with a run is unobserved, no container has two runs, and every run's duration follows the clamp rule |
| Counters.CounterValueEnds | script.js:116 | the first frame shows the start value and the last the end value |
| Counters.CounterValueBounds | script.js:116 | counting up, every value lies between start and end |
| Counters.CounterValueMonotone | script.js:116 | counting up, values never go back |
| Counters.CounterTextSuffix | script.js:117 | the text ends in '%' exactly when end >= 100 and data-percent is 'true', after the value |
| Counters.CounterAnimation.constructor | script.js:111-112 | no start time yet; the text is unchanged until the first frame |
| Counters.CounterAnimation.Step | script.js:113-119 | the first frame fixes the start time; the text is the frame's value; frames stop on the end value |
| Counters.LoadRuns | script.js:122-130 | page load starts counters only on stat items with a heading, as page-load runs |
| Counters.LoadRunsComplete | script.js:122-130 | every stat item with a heading gets a counter with its parsed target |
| Counters.ZeroTextParses | script.js:124 | the fallback '0' reads as 0, so a missing target counts to 0 |
| Counters.TargetsAgree | script.js:124-144 | both paths read the same target unless it carries a `0x` mark |
| Counters.TargetsDiverge | script.js:124-144 | with data-target "0x10" page load counts to 0 and the observer to 16 |
| Counters.LoadInv | script.js:122-130 | page load keeps the data-animated invariant |
| Counters.DeliverInv | script.js:136-149 | one entry keeps the invariant |
| Counters.ReplayInv | script.js:136-149 | any sequence of entries keeps the invariant |
| Counters.ObserverAnimatesOnce | script.js:143-146 | through the observer, no heading is counted twice |
| Counters.FlaggedIsFinal | script.js:143 | a flagged heading is never started again by the observer |
| Counters.LoadThenRevealTwice | script.js:122-146 | page load and the first intersection both start a counter on the same heading |
| Counters.RevealPage.constructor | script.js:135-151 | no counter has started |
| Counters.RevealPage.InitCounters | script.js:122-130 | the loop is `Load`, and it returns one new frame loop per page-load run, counting that item's heading from 0 to the parsed target over 1600 ms |
| Counters.RevealPage.OnEntry | script.js:136-149 | the callback is `Deliver`; it returns a new frame loop exactly when it records a run, counting from 0 to the observer-parsed target over 1600 ms |
| Counters.CounterValue | script.js:116 | `Math.floor(progress * (end - start) + start)` (stated by CounterValueEnds, CounterValueBounds and CounterValueMonotone) |
| Counters.CounterText | script.js:117 | the value, followed by '%' when end >= 100 and data-percent is 'true' (stated by CounterTextSuffix) |
| Counters.FrameText | script.js:115-117 | a NaN target writes "NaN"; otherwise the frame writes CounterText of its value |
| Counters.TargetOf | script.js:124 | page load's target: a missing or empty data-target falls back to the text '0', then `parseInt` in base 10 (stated by ZeroTextParses and TargetsAgree) |
| Counters.ObserverTargetOf | script.js:144 | the observer's target: a missing or empty data-target falls back to 0, otherwise `parseInt` with no radix (stated by TargetsAgree and TargetsDiverge) |
| Counters.LoadRunsStep | script.js:123-128 | one more item adds its page-load run exactly when it is a stat item with a heading |
| Counters.Countable | script.js:123-126 | page load counts an item when it is a .stat-item holding an h3 |
| Counters.Load | script.js:122-130 | page load appends LoadRuns of all items and touches no flag (stated by LoadInv and LoadRunsComplete) |
| Counters.Deliver | script.js:136-149 | one entry: intersecting .fade-in elements become visible, and an unflagged stat heading starts one run and is flagged (stated by DeliverInv and FlaggedIsFinal) |
| Counters.Replay | script.js:136-149 | the callback applied to a sequence of entries in order (stated by ReplayInv and ObserverAnimatesOnce) |
| Counters.StartInv | script.js:143-145 | flagging an unflagged heading while recording its one run keeps the invariant |
| Counters.RevealInv | script.js:139 | making an element visible keeps the invariant |
| Counters.Inv | script.js:143-145 | what data-animated guarantees: every observer run is on a flagged heading, and no heading has two observer runs |
| Counters.StartedFor | script.js:111-127 | a frame loop that has just started counts from 0 to the run's target over 1600 ms, with no frame yet and the heading's text unchanged |
| LazyReveal.Init | script.js:317-319 | exactly the images with data-src and the .fade-in elements are observed |
| LazyReveal.WatchedBelow | script.js:318 | the watched elements among the first n |
| LazyReveal.InitInv | script.js:317-335 | page load establishes the load-once invariant |
| LazyReveal.DeliverInv | script.js:320-332 | one entry keeps the invariant |
| LazyReveal.ReplayInv | script.js:320-332 | any sequence of entries keeps the invariant |
| LazyReveal.LoadsOnce | script.js:326-330 | no image has its source swapped in twice |
| LazyReveal.FirstIntersection | script.js:322-330 | the first intersection reveals, moves a non-empty data-src into src, unobserves, and later entries do nothing |
| LazyReveal.VisibleStays | script.js:324 | a visible element stays visible |
| LazyReveal.UnwatchedUntouched | script.js:318 | an element the selector does not match is never changed |
| LazyReveal.LazyPage.constructor | script.js:317-335 | the observing loop equals `Init` |
| LazyReveal.LazyPage.OnEntry | script.js:320-332 | the callback is `Deliver` |
| LazyReveal.Callback | script.js:322-330 | one entry: an intersecting element becomes visible, a lazy image gets its source, and the element is unobserved (stated by FirstIntersection) |
| LazyReveal.Deliver | script.js:320-333 | the callback applied to entries of observed elements (stated by DeliverInv) |
| LazyReveal.Replay | script.js:320-333 | the callback applied to a sequence of entries in order (stated by ReplayInv and LoadsOnce) |
| LazyReveal.UnwatchedStays | script.js:318-334 | an element that is not observed is unchanged by any sequence of entries |
| LazyReveal.Watched | script.js:318 | an image with a data-src attribute, even an empty one, or a .fade-in element |
| LazyReveal.Lazy | script.js:326 | an image whose data-src is present and non-empty |
| LazyReveal.Inv | script.js:320-334 | reveal-once: observed elements exist, a loaded image is unobserved, visible and has no data-src left, and no image is loaded twice |
| Typewriter.TickValid | script.js:93-104 | each tick stays within the states reachable from the start |
| Typewriter.TickMovesByOne | script.js:96-99 | pos moves by exactly one, forward or back |
| Typewriter.TickPauses | script.js:97-103 | reaching the word length turns back, writes nothing and waits 900 ms; every other tick writes and waits 90 ms |
| Typewriter.TickNextWord | script.js:99-100 | erasing to 0 turns forward and moves to the next word; nothing else changes the word |
| Typewriter.TickWritesPrefix | script.js:94-102 | any text written is `word.slice(0, pos)`, never the whole of a non-empty word |
| Typewriter.TypeOut | script.js:95-97 | typing from pos reaches the turn after the remaining characters |
| Typewriter.EraseOut | script.js:98-100 | erasing from pos ends on the next word after pos ticks |
| Typewriter.WordCycle | script.js:93-104 | a word takes 2 * max(length, 1) ticks and the typewriter then starts the next word |
| Typewriter.TypewriterElement.constructor | script.js:90-91 | i = 0, pos = 0, forward |
| Typewriter.TypewriterElement.TickOnce | script.js:93-104 | the tick is `Tick`: new state, written text and returned delay |
| Typewriter.WordAt | script.js:94 | the word at `i` modulo the word count, and the empty word when there are no words |
| Typewriter.Tick | script.js:93-104 | one tick (stated by TickValid, TickMovesByOne, TickPauses, TickNextWord and TickWritesPrefix) |
| Typewriter.Valid | script.js:91-101 | the states a typewriter started at (0, 0, forward) reaches: while typing the cursor is 0 or inside the word, while erasing it lies between 1 and Reach |
| Typewriter.Reach | script.js:96-97 | the furthest the cursor gets on a word: at least 1 and at least its length |
| Typewriter.Run | script.js:93-104 | n ticks in a row (stated by TypeOut, EraseOut and WordCycle) |
| Typewriter.RunAdd | script.js:103 | a + b ticks are a ticks followed by b ticks |
| Preferences.AriaPressed | script.js:43 | aria-pressed is "true" exactly for the dark theme |
| Preferences.ApplyTheme | script.js:41-44 | sets data-theme, mirrors it in aria-pressed when the toggle exists, and changes nothing else |
| Preferences.NextThemeCases | script.js:57-58 | a click gives 'dark' exactly from 'light', missing or empty, and the result is always light or dark |
| Preferences.ToggleEffect | script.js:56-62 | a click applies, saves and announces the next theme, leaving consent alone |
| Preferences.ToggleTwice | script.js:57-60 | two clicks restore light or dark, and a missing theme ends light |
| Preferences.ToggleThenReload | script.js:45-60 | the clicked theme is the one the next page load applies |
| Preferences.InitFollowsSystem | script.js:45-53 | without a saved theme the system preference decides |
| Preferences.DarkSystemThenClick | script.js:45-62 | system dark with nothing saved opens dark; a click saves light and the reload opens light |
| Preferences.AcceptIsRemembered | script.js:282-293 | accepting stores consent, so a later page load keeps the bar hidden, and the theme is untouched |
| Preferences.InitCookieShows | script.js:282-286 | without stored consent the bar is shown |
| Preferences.PreferencePage.constructor | script.js:40-45 | nothing applied yet, storage as given |
| Preferences.PreferencePage.Apply | script.js:41-44 | the method is `ApplyTheme` |
| Preferences.PreferencePage.InitThemeOnLoad | script.js:45-54 | the method is `InitTheme` |
| Preferences.PreferencePage.ToggleClick | script.js:56-62 | the method is `Toggle` |
| Preferences.PreferencePage.InitCookieOnLoad | script.js:282-287 | the method is `InitCookie` |
| Preferences.PreferencePage.AcceptClick | script.js:289-293 | the method is `Accept` |
| Preferences.InitialTheme | script.js:46-52 | a saved theme as it is, otherwise the system preference (stated by InitFollowsSystem) |
| Preferences.InitTheme | script.js:45-54 | applies the initial theme (stated by InitFollowsSystem and ToggleThenReload) |
| Preferences.NextTheme | script.js:57-58 | 'dark' from 'light', missing or empty, 'light' otherwise (stated by NextThemeCases) |
| Preferences.Toggle | script.js:56-62 | applies, saves and announces the next theme (stated by ToggleEffect, ToggleTwice and ToggleThenReload) |
| Preferences.ThemeToast | script.js:61 | the theme name with its first letter upper-cased, then " theme enabled" |
| Preferences.ThemeToastText | script.js:61 | the announcements are exactly "Dark theme enabled" and "Light theme enabled" |
| Preferences.InitCookie | script.js:282-287 | the bar is shown when consent is not stored and the bar exists (stated by InitCookieShows) |
| Preferences.Accept | script.js:289-293 | stores consent, hides the bar and announces it (stated by AcceptIsRemembered) |
| Preferences.Stored | script.js:47 | a stored item counts only when it is present and non-empty |
| Widgets.BoolText | script.js:162-163 | `String(b)` is "true" exactly for true |
| Widgets.MenuClickFlips | script.js:160-164 | a click leaves the attributes consistent, opens exactly when not open, and two clicks restore |
| Widgets.PanelClick | script.js:170-178 | a click changes only the clicked item |
| Widgets.PanelClickToggles | script.js:174-177 | a listening item flips 'active', mirrors it in aria-expanded, and two clicks restore it |
| Widgets.BackToTopActive | script.js:184-188 | the button is active exactly when scrollY > 400, and untouched without a button |
| Widgets.BackToTopMonotone | script.js:186-187 | scrolling further down never hides the button |
| Widgets.ChooseWallet | script.js:213-223 | an empty data-wallet throws before anything changes |
| Widgets.ModalStaysConsistent | script.js:196-222 | open, close, Escape and a wallet choice keep aria-hidden and display in step, and all but opening close the modal |
| Widgets.EscapeWhenClosed | script.js:305-311 | Escape on a closed modal changes nothing |
| Widgets.ValidEmailHasAt | script.js:266-267 | the email is accepted exactly when it contains '@' |
| Widgets.Subscribe | script.js:264-274 | the form is reset exactly when the email is valid, otherwise the error toast shows |
| Widgets.FilterCards | script.js:342-347 | every card gets its filtered display, in order |
| Widgets.FilterShowsMatches | script.js:343-346 | shown cards are exactly the matching ones, types are untouched, filtering is idempotent, and 'all' shows all |
| Widgets.ApplyFilter | script.js:342-347 | the in-place loop leaves the grid equal to `FilterCards` |
| Widgets.ShortId | script.js:255-257 | the id starts with 'SP-', has at most 11 characters and no lower-case letter |
| Widgets.ShortIdLength | script.js:256 | the id has eight random characters only when the random text has ten characters |
| Widgets.ShortIdAlphabet | script.js:256 | on base-36 text every id character is a digit or an upper-case letter |
| Widgets.CopyText | script.js:245 | the search value when non-empty, otherwise a generated id |
| Widgets.MenuClick | script.js:160-164 | aria-expanded flips from its old 'true'-ness, and aria-hidden takes the old value (stated by MenuClickFlips) |
| Widgets.OpenModal | script.js:197-205 | shows the modal: aria-hidden 'false', display 'flex' (stated by ModalStaysConsistent) |
| Widgets.CloseModal | script.js:208-211 | hides the modal: aria-hidden 'true', display 'none' (stated by ModalStaysConsistent) |
| Widgets.ModalOpen | script.js:307 | the modal counts as open exactly when aria-hidden is 'false' |
| Widgets.Escape | script.js:305-311 | closes the modal only when aria-hidden is 'false' (stated by EscapeWhenClosed and ModalStaysConsistent) |
| Widgets.FakeAccount | script.js:217 | Phantom's fixed text, otherwise '0x' and up to eight upper-cased characters of the random text |
| Widgets.ValidEmail | script.js:266-267 | the trimmed value is non-empty and contains '@' (stated by ValidEmailHasAt) |
| Widgets.AcceptedHasAt | script.js:267 | the newsletter's rejection test on the trimmed email fails exactly when the email contains '@' (a non-empty email is implied) |
| Widgets.Matches | script.js:345 | a card is shown when the value is 'all' or equals its data-type |
| Widgets.Filtered | script.js:345-346 | a card's display becomes '' when it matches and 'none' otherwise (stated by FilterShowsMatches) |

## Left out

- DOM querying, element creation and event wiring are plain records and methods.
  `showToast` is a list of messages; toast timing and removal are not modelled.
- `requestAnimationFrame`, `setTimeout`, `IntersectionObserver` and `performance.now` are left
  out as mechanisms. Timestamps are method parameters, entries are a sequence, and tick delays
  are returned values. Intersection thresholds (0.15, 0.12 and 0.25) are not modelled.
- `localStorage` is a map, and `matchMedia` preferences are boolean parameters. The clipboard
  write and its failure toast are not modelled; only the copied text is (`Widgets.CopyText`).
- `Math.random` is a parameter: the text of a random number. The wallet account built from it
  is `Widgets.FakeAccount`; the mint demo's random number is not modelled.
- Floating point is modelled with exact reals, so rounding in `pct * 12`, the easing and
  `Math.floor` has no floating-point error.
- Percent.ParsePercent: `Number()` is modelled for decimal notation only. Exponents, `0x`,
  `0b` and `0o` literals and `Infinity` fall to NaN (0) in the model, where `Number` would
  accept them.
- SkillProgress.SkillSection.OnEntry: the frames write into the returned `BarAnimation` and
  `LabelAnimation`, which own the fill's width and the label's text from then on. The copies
  of fill and label kept in the section's rows stay at "0%".
- Counters.RevealPage.OnEntry: likewise, the counted text lives in the returned
  `CounterAnimation`; the heading text kept in the page's items is not updated by frames (the
  same holds for `Counters.RevealPage.InitCounters`).
- SkillProgress.Deliver: entries are handled one at a time, against the containers observed
  at that moment. In the source, `obs.unobserve` (script.js:455) does not remove an entry
  already queued in the same callback batch, so a batch with two intersecting entries for one
  container starts two animations on it. `SkillProgress.AnimateOnce` does not cover that
  case. The lazy-reveal observer is unaffected: a second entry finds no `data-src` left and
  only repeats `visible` and `unobserve`.
- Typewriter.Tick: a word is a sequence of Unicode characters, while `length` and `slice`
  count UTF-16 code units. For characters outside the Basic Multilingual Plane the number of
  ticks differs from `Typewriter.WordCycle`'s, and `slice(0, pos)` can split a surrogate pair.
- SkillProgress.LabelAnimation.constructor: the label's start time is the bar's. The source
  calls `performance.now()` again, a moment later.
- Typewriter.TypewriterElement.constructor: the words are a list of strings. Invalid JSON
  (which throws), non-string entries and a missing `.typewriter` element are not modelled.
- Widgets.ChooseWallet: a missing `#connectWalletBtn` (which throws) and a missing
  `data-wallet` (which throws like an empty one) are not modelled separately.
- Widgets.ModalStaysConsistent: focusing the first `.wallet-btn` on open is not modelled, nor
  the throw when there is none.
- `Upper` upper-cases ASCII letters only, which covers base-36 and hex digits. Non-ASCII
  `toUpperCase` is not modelled.
- The image `onload` handler that adds `loaded` is not modelled.
- The scroll progress bar, the ticker duplication, smooth anchor scrolling, the '/' search
  shortcut, the network switch toast, the preloader and service-worker registration are not
  modelled. They are UI plumbing outside the animated and stateful core.
