# Color Chords: the round state machine

`ColorChords` is a single-screen guessing game. A round plays one of five notes
and pulses the swatch colour of that note (the *ping*). A second later it shows
the five colour swatches in shuffled order. Clicking the swatch whose colour
index is the note's starts the next round. A wrong click empties the options,
and the page falls back to a replay button that starts a new round.

This project models that component's state and handlers and proves what they
guarantee:

- `arrangements.dfy` (module `Arrangements`) covers the list of colour indices
  of a round. It is `[0, 1, 2, 3, 4]` pushed by a loop and then shuffled in
  place. The sort with a random comparator is modelled as an arbitrary sequence
  of exchanges of two positions. Such a sequence produces only reorderings, and
  every reordering is produced by one (`EveryArrangementReachable`). The
  in-place method `ShuffleInPlace` is proved equal to the function `Shuffle`.
  Any shuffled list is an arrangement of `[0, 5)`: five entries, each in
  bounds, no two equal.
- `rounds.dfy` (module `Rounds`) covers the component as values:
  - `State` holds the four state variables plus the reveals scheduled with
    `setTimeout` that have not yet run.
  - `BeginNewRound`, `Reveal`, `StartGame` and `SwatchClick` are the handlers.
  - `Rendered` is the render.
  - `Enabled` says which actions the rendered screen offers.
  - `Step` and `Run` replay a sequence of page events.
  - `Inv` is the invariant that every reachable state satisfies.
- `component.dfy` (module `Component`) covers the class `ColorChords`. Its
  fields are the state variables and the pending timers. Its methods update
  them in place. Each method is proved to produce exactly the state that the
  matching function of `Rounds` gives. `Dispatch` keeps the invariant.

Randomness is an explicit input:

- `Math.random()` in the note pick is a `Draw`, the fraction `num / den` with
  `num < den`. The note is `floor(5 * num / den)`.
- The random comparator of the sort is the sequence of exchanges it causes.

The one-second timer is an explicit `Timeout` action. It runs the oldest
scheduled reveal.

What the code does, and so what the model does:

- There are five notes and five colours.
- There is no scoring phase and no delay after a click. A right click starts the next
  round at once.
- The handlers reject no calls. Which actions are possible is decided only by
  what is on screen.
- After a wrong click, the replay button calls `beginNewRound`. That call draws
  the note again, so the replay may or may not use the same note. The same
  round is not retried.
- `beginNewRound` does not cancel a pending reveal. The model keeps this
  (`RoundWhilePlayingStacksReveals`). It then proves that the screen offers no
  way to begin a round while a reveal is pending: no start button, no replay
  button, no swatches. So at most one reveal is ever pending
  (`AtMostOneReveal`).

## Model

| member | source | states |
|---|---|---|
| `Arrangements.Range` | src/app/game/color-chords.tsx:46-49 | the pushed list has n entries and entry k is k |
| `Arrangements.Shuffle` | src/app/game/color-chords.tsx:50 | the sort keeps the length and the multiset of entries, whatever exchanges the comparator causes |
| `Arrangements.ArrangementFacts` | src/app/game/color-chords.tsx:46-50 | a reordering of [0, n) has n entries, each in [0, n), pairwise distinct, and contains every value of [0, n) |
| `Arrangements.ShuffledRange` | src/app/game/color-chords.tsx:46-50 | the pushed-then-sorted list is a reordering of [0, 5) of length 5 |
| `Arrangements.EveryArrangementReachable` | src/app/game/color-chords.tsx:46-50 | every reordering of [0, n) is the outcome of some sequence of exchanges, so the exchange model of the sort loses no possible order |
| `Arrangements.ShuffleInPlace` | src/app/game/color-chords.tsx:50 | the in-place sort leaves the array holding the shuffled old contents |
| `Rounds.NoteIndex` | src/app/game/color-chords.tsx:43-44 | the drawn note index is the floor of draw times five, and lies in [0, 5) |
| `Rounds.EveryNoteDrawable` | src/app/game/color-chords.tsx:43-44 | each of the five notes is drawn by some value of the random number |
| `Rounds.RoundList` | src/app/game/color-chords.tsx:46-50 | the list a round will reveal is a reordering of [0, 5) |
| `Rounds.BeginNewRound` | src/app/game/color-chords.tsx:42-60 | starts playing at once, sets a note index valid for both five-entry tables, schedules one reveal of the round's list, and keeps the options and the started flag |
| `Rounds.Reveal` | src/app/game/color-chords.tsx:56-59 | the timer shows the list it captured, stops playing, and consumes its pending entry; the note and the started flag stay |
| `Rounds.StartGame` | src/app/game/color-chords.tsx:62-65 | the game is started and a round is playing |
| `Rounds.SwatchClick` | src/app/game/color-chords.tsx:67-76 | a reveal is scheduled exactly when the clicked colour index is the note; otherwise the options are emptied; the started flag stays |
| `Rounds.Rendered` | src/app/game/color-chords.tsx:78-130 | exactly one element is rendered: the start button before the game starts, then ping iff playing, replay button iff not playing with no options, grid iff not playing with options |
| `Rounds.InitialInv` | src/app/game/color-chords.tsx:18-21 | the mounted component satisfies the invariant and shows the start button |
| `Rounds.StepInv` | src/app/game/color-chords.tsx:42-130 | every action the screen offers, and every timer firing, keeps the invariant |
| `Rounds.RunInv` | src/app/game/color-chords.tsx:42-130 | the invariant holds after any sequence of events that can happen |
| `Rounds.RunKeepsStarted` | src/app/game/color-chords.tsx:62-65 | once the game is started, no sequence of events sets it back to not started |
| `Rounds.AtMostOneReveal` | src/app/game/color-chords.tsx:56-59 | from mount on, at most one reveal is pending, and one is pending exactly while playing |
| `Rounds.ScreenInBounds` | src/app/game/color-chords.tsx:101-128 | in every reachable state the pinged colour and every grid colour index into `swatchColors` in bounds, and the grid shows five distinct colours |
| `Rounds.RoundThenReveal` | src/app/game/color-chords.tsx:52-70 | a round begun by the start button, the replay button or a right click shows the ping of the drawn note at once and keeps the previous options, also the non-empty ones of a right click; only its reveal puts the round's shuffled list on screen and empties the pending reveals |
| `Rounds.OnlyRevealShows` | src/app/game/color-chords.tsx:53-72 | only a timer firing stops the ping or puts a new non-empty list of options in place |
| `Rounds.WrongChoice` | src/app/game/color-chords.tsx:69-73 | a wrong click only empties the options and brings back the replay button |
| `Rounds.RightChoice` | src/app/game/color-chords.tsx:69-70 | a right click plays again with a freshly drawn note and one scheduled reveal |
| `Rounds.ChoiceByColour` | src/app/game/color-chords.tsx:121-124 | a click starts a new round if and only if the clicked swatch's colour index is the note |
| `Rounds.PositionIsNotColour` | src/app/game/color-chords.tsx:121-124 | an illustration of `ChoiceByColour`: clicking the first slot with note 0 but colour 1 there is a wrong answer |
| `Rounds.StartBeginsRound` | src/app/game/color-chords.tsx:62-65 | the start button starts the game, pings the drawn note and schedules one reveal |
| `Rounds.RoundWhilePlayingStacksReveals` | src/app/game/color-chords.tsx:56-124 | a round begun while a reveal is pending schedules a second one, and under the invariant the screen offers no way to do so: neither start nor replay button nor any swatch is enabled |
| `Component.ColorChords.constructor` | src/app/game/color-chords.tsx:18-21 | the mounted object holds the initial state and satisfies the invariant |
| `Component.ColorChords.BeginNewRound` | src/app/game/color-chords.tsx:42-60 | the loop and the in-place sort give exactly the state of `Rounds.BeginNewRound` |
| `Component.ColorChords.RevealTimeout` | src/app/game/color-chords.tsx:56-59 | the timer callback gives exactly the state of `Rounds.Reveal` |
| `Component.ColorChords.StartGame` | src/app/game/color-chords.tsx:62-65 | gives exactly the state of `Rounds.StartGame` |
| `Component.ColorChords.OnSwatchClick` | src/app/game/color-chords.tsx:67-76 | gives exactly the state of `Rounds.SwatchClick` |
| `Component.ColorChords.ClickSwatch` | src/app/game/color-chords.tsx:121-124 | a swatch's click handler judges the colour index it shows, not its position |
| `Component.ColorChords.Dispatch` | src/app/game/color-chords.tsx:78-130 | an event the screen offers gives the state of `Rounds.Step` and keeps the invariant |

## Left out

- `makeSound` and the module-level `AudioContext` (lines 15, 23-40) are not modelled. They are Web Audio output with floating-point gain and frequency.
- `Rounds.BeginNewRound` assumes that `makeSound` returns normally. If it throws, for instance because `new AudioContext()` fails where Web Audio is unavailable, the code has already set the note and `isPlaying` (lines 52-53) but never reaches `setTimeout` (line 56). The ping then stays on screen with no reveal pending, and no button is offered. Neither that state nor the failing call is modelled, so `Inv` and `AtMostOneReveal` hold only for runs in which `makeSound` returns.
- The frequencies of `noteFreqs` and the `|| 261.63` fallback are not modelled. Only the number of notes, five, matters to the state. The drawn index is always in bounds, so the fallback never applies.
- `Math.random()` is an input. How it is distributed, and whether a sort with a random comparator is uniform, is not modelled.
- The 1000 ms delay is not modelled. Timers fire in the order they were scheduled, and fire at any later point. Cancelling a timer when the component unmounts is not modelled.
- `Component.ColorChords.BeginNewRound` writes the pushed indices into a five-slot array, filling the slots in order. It does not model a JavaScript array that grows with each `push`, because Dafny arrays have a fixed length. The contents after the loop are the same.
- React's machinery is not modelled: `useState`, `useCallback` dependency lists, stale closures, and several clicks arriving before a re-render. The updates a handler makes are applied together, as React batches them.
- The markup, class names and styles are not modelled. `PlayButton` is static markup with no logic and is not modelled either.
- The component has no playlist, no stored vote counts and no frequency analyser, so the model has none either.
