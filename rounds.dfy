/** The round state machine of the `ColorChords` component, as values.

    A `State` holds the component's four state variables and the reveals that
    `setTimeout` has scheduled but not yet run. Each handler is a function
    from the old state to the new one, the render is a function from the
    state to the elements it shows, and the elements shown decide which
    handlers the player can reach. Randomness comes in as explicit inputs:
    a `Draw` for `Math.random()` in the note pick and a sequence of exchanges
    for the random-comparator sort. */
module Rounds {
  import opened Arrangements

  datatype Option<T> = None | Some(value: T)

  /** The keys of `noteFreqs`, in declaration order (the frequencies are not modelled). */
  const NoteNames: seq<string> := ["C", "D", "E", "F", "G"]

  /** `swatchColors`: colour index `k` is drawn with `SwatchColors[k]`. */
  const SwatchColors: seq<string> := ["#FF6B6B", "#FFB347", "#FFFF66", "#90EE90", "#87CEEB"]

  /** The bound of the loop that pushes the colour indices of a round. */
  const OptionCount: nat := 5

  /** A value of `Math.random()`, the fraction `num / den` in `[0, 1)`. */
  datatype Draw = Draw(num: nat, den: nat)

  predicate IsUnitDraw(d: Draw) {
    d.num < d.den
  }

  /** `Math.floor(Math.random() * frequencies.length)`: the note of a round. */
  function NoteIndex(d: Draw): (r: int)
    requires IsUnitDraw(d)
    ensures 0 <= r < |NoteNames|
    ensures r * d.den <= d.num * |NoteNames| < (r + 1) * d.den
  {
    d.num * |NoteNames| / d.den
  }

  datatype State = State(
    gameStarted: bool,
    isPlaying: bool,
    colorOptions: seq<int>,
    correctIndex: int,
    /** Lists captured by scheduled reveals that have not run yet, oldest first. */
    pendingReveals: seq<seq<int>>)

  /** The state of a freshly mounted component. */
  const Initial := State(false, false, [], 0, [])

  /** The list that a round shows once revealed. */
  function RoundList(swaps: seq<Exchange>): (r: seq<int>)
    requires ExchangesWithin(swaps, OptionCount)
    ensures IsArrangement(r, OptionCount)
  {
    ShuffledRange(OptionCount, swaps);
    Shuffle(Range(OptionCount), swaps)
  }

  /** `beginNewRound`: pick the note, shuffle the indices, show the ping at
      once and schedule the reveal of the shuffled list. */
  function BeginNewRound(s: State, d: Draw, swaps: seq<Exchange>): (r: State)
    requires IsUnitDraw(d) && ExchangesWithin(swaps, OptionCount)
    ensures r.isPlaying
    ensures 0 <= r.correctIndex < |NoteNames| && r.correctIndex < |SwatchColors|
    ensures r.pendingReveals == s.pendingReveals + [RoundList(swaps)]
    ensures r.gameStarted == s.gameStarted && r.colorOptions == s.colorOptions
  {
    s.(correctIndex := NoteIndex(d),
       isPlaying := true,
       pendingReveals := s.pendingReveals + [RoundList(swaps)])
  }

  /** The `setTimeout` callback of the oldest scheduled reveal. */
  function Reveal(s: State): (r: State)
    requires s.pendingReveals != []
    ensures !r.isPlaying && r.colorOptions == s.pendingReveals[0]
    ensures r.pendingReveals == s.pendingReveals[1..]
    ensures r.gameStarted == s.gameStarted && r.correctIndex == s.correctIndex
  {
    s.(colorOptions := s.pendingReveals[0],
       isPlaying := false,
       pendingReveals := s.pendingReveals[1..])
  }

  /** `startGame`. */
  function StartGame(s: State, d: Draw, swaps: seq<Exchange>): (r: State)
    requires IsUnitDraw(d) && ExchangesWithin(swaps, OptionCount)
    ensures r.gameStarted && r.isPlaying
  {
    BeginNewRound(s.(gameStarted := true), d, swaps)
  }

  /** `onSwatchClick(selectedIndex)`: a new round when the colour index is
      the one played, otherwise an empty list of options. */
  function SwatchClick(s: State, selectedIndex: int, d: Draw, swaps: seq<Exchange>): (r: State)
    requires IsUnitDraw(d) && ExchangesWithin(swaps, OptionCount)
    ensures r.gameStarted == s.gameStarted
    ensures |r.pendingReveals| > |s.pendingReveals| <==> selectedIndex == s.correctIndex
    ensures r.colorOptions == [] || selectedIndex == s.correctIndex
  {
    if selectedIndex == s.correctIndex then BeginNewRound(s, d, swaps)
    else s.(colorOptions := [])
  }

  /** What the render shows: the start button before the game starts;
      afterwards the elements whose condition holds among the three
      conditional blocks of the page. */
  datatype Screen =
    | StartButton
    | Ping(colorIdx: int)
    | ReplayButton
    | Grid(swatches: seq<int>)

  /** The rendered elements, in page order. The three conditions of the
      started page are exclusive and exhaustive: exactly one element shows. */
  function Rendered(s: State): (r: seq<Screen>)
    ensures |r| == 1
    ensures r[0].StartButton? <==> !s.gameStarted
    ensures r[0].Ping? <==> s.gameStarted && s.isPlaying
    ensures r[0].ReplayButton? <==> s.gameStarted && !s.isPlaying && s.colorOptions == []
    ensures r[0].Grid? <==> s.gameStarted && !s.isPlaying && s.colorOptions != []
    ensures r[0].Ping? ==> r[0].colorIdx == s.correctIndex
    ensures r[0].Grid? ==> r[0].swatches == s.colorOptions
  {
    if !s.gameStarted then [StartButton]
    else
      (if s.isPlaying then [Ping(s.correctIndex)] else [])
      + (if !s.isPlaying && |s.colorOptions| == 0 then [ReplayButton] else [])
      + (if !s.isPlaying && |s.colorOptions| > 0 then [Grid(s.colorOptions)] else [])
  }

  /** The one element on screen. */
  function View(s: State): Screen {
    Rendered(s)[0]
  }

  /** What can happen next: a click on one of the buttons on screen, or a
      scheduled reveal running. */
  datatype Action =
    | Start                  // the start button
    | Replay                 // the replay button, wired to `beginNewRound`
    | Choose(position: nat)  // the swatch at this position of the grid
    | Timeout                // the oldest scheduled reveal runs

  predicate Enabled(s: State, a: Action) {
    match a
    case Start => View(s).StartButton?
    case Replay => View(s).ReplayButton?
    case Choose(p) => View(s).Grid? && p < |View(s).swatches|
    case Timeout => s.pendingReveals != []
  }

  /** The effect of an action. A swatch's click handler passes the colour
      index it shows, not its position in the grid. */
  function Step(s: State, a: Action, d: Draw, swaps: seq<Exchange>): State
    requires Enabled(s, a) && IsUnitDraw(d) && ExchangesWithin(swaps, OptionCount)
  {
    match a
    case Start => StartGame(s, d, swaps)
    case Replay => BeginNewRound(s, d, swaps)
    case Choose(p) => SwatchClick(s, s.colorOptions[p], d, swaps)
    case Timeout => Reveal(s)
  }

  /** One action with the random values it would consume. */
  datatype Event = Event(action: Action, draw: Draw, swaps: seq<Exchange>)

  predicate Admissible(s: State, e: Event) {
    Enabled(s, e.action) && IsUnitDraw(e.draw) && ExchangesWithin(e.swaps, OptionCount)
  }

  /** The state after a sequence of events, or `None` if one of them could
      not happen in the state it meets. */
  function Run(s: State, events: seq<Event>): Option<State>
    decreases |events|
  {
    if events == [] then Some(s)
    else if Admissible(s, events[0]) then
      Run(Step(s, events[0].action, events[0].draw, events[0].swaps), events[1..])
    else None
  }

  /** The invariant of the component between events. */
  ghost predicate Inv(s: State) {
    && 0 <= s.correctIndex < |NoteNames|
    && |s.pendingReveals| <= 1
    && (s.isPlaying <==> s.pendingReveals != [])
    && (forall k :: 0 <= k < |s.pendingReveals| ==> IsArrangement(s.pendingReveals[k], OptionCount))
    && (s.colorOptions == [] || IsArrangement(s.colorOptions, OptionCount))
    && (!s.gameStarted ==> !s.isPlaying && s.colorOptions == [])
  }

  lemma InitialInv()
    ensures Inv(Initial)
    ensures View(Initial) == StartButton
  {
  }

  /** Every enabled action keeps the invariant. */
  lemma StepInv(s: State, a: Action, d: Draw, swaps: seq<Exchange>)
    requires Inv(s) && Enabled(s, a) && IsUnitDraw(d) && ExchangesWithin(swaps, OptionCount)
    ensures Inv(Step(s, a, d, swaps))
  {
  }

  /** Along any sequence of events that can happen, the invariant holds. */
  lemma {:induction false} RunInv(s: State, events: seq<Event>)
    requires Inv(s)
    ensures Run(s, events).Some? ==> Inv(Run(s, events).value)
    decreases |events|
  {
    if events != [] && Admissible(s, events[0]) {
      var e := events[0];
      StepInv(s, e.action, e.draw, e.swaps);
      RunInv(Step(s, e.action, e.draw, e.swaps), events[1..]);
    }
  }

  /** No handler ever sets `gameStarted` back to false. */
  lemma {:induction false} RunKeepsStarted(s: State, events: seq<Event>)
    requires s.gameStarted
    ensures Run(s, events).Some? ==> Run(s, events).value.gameStarted
    decreases |events|
  {
    if events != [] && Admissible(s, events[0]) {
      var e := events[0];
      RunKeepsStarted(Step(s, e.action, e.draw, e.swaps), events[1..]);
    }
  }

  /** From mount on, at most one reveal is ever pending, and one is pending
      exactly while the ping shows. */
  lemma AtMostOneReveal(events: seq<Event>)
    requires Run(Initial, events).Some?
    ensures |Run(Initial, events).value.pendingReveals| <= 1
    ensures Run(Initial, events).value.isPlaying <==> Run(Initial, events).value.pendingReveals != []
  {
    InitialInv();
    RunInv(Initial, events);
  }

  /** In every state the component can be in, the colour and note indices it
      uses are in bounds, and the grid shows each of the five colours once. */
  lemma ScreenInBounds(s: State)
    requires Inv(s)
    ensures 0 <= s.correctIndex < |NoteNames| && s.correctIndex < |SwatchColors|
    ensures View(s).Ping? ==> 0 <= View(s).colorIdx < |SwatchColors|
    ensures View(s).Grid? ==>
      && |View(s).swatches| == |SwatchColors|
      && (forall k :: 0 <= k < |View(s).swatches| ==> 0 <= View(s).swatches[k] < |SwatchColors|)
      && (forall k, m :: 0 <= k < m < |View(s).swatches| ==> View(s).swatches[k] != View(s).swatches[m])
  {
    if View(s).Grid? {
      ArrangementFacts(s.colorOptions, OptionCount);
    }
  }

  /** The actions that begin a round: the start button, the replay button,
      and a click on the swatch whose colour is the note. */
  predicate BeginsRound(s: State, a: Action)
    requires Enabled(s, a)
  {
    match a
    case Start => true
    case Replay => true
    case Choose(p) => s.colorOptions[p] == s.correctIndex
    case Timeout => false
  }

  /** However a round begins, it shows the ping with the drawn note's colour
      at once and keeps the previous options (hidden behind the ping, and
      non-empty after a right click); only its reveal puts that round's
      shuffled list on screen and stops the ping. */
  lemma RoundThenReveal(s: State, a: Action, d: Draw, swaps: seq<Exchange>)
    requires Inv(s) && Enabled(s, a) && BeginsRound(s, a)
    requires IsUnitDraw(d) && ExchangesWithin(swaps, OptionCount)
    ensures View(Step(s, a, d, swaps)) == Ping(NoteIndex(d))
    ensures Step(s, a, d, swaps).colorOptions == s.colorOptions
    ensures Enabled(Step(s, a, d, swaps), Timeout)
    ensures View(Step(Step(s, a, d, swaps), Timeout, d, swaps)) == Grid(RoundList(swaps))
    ensures Step(Step(s, a, d, swaps), Timeout, d, swaps).pendingReveals == []
  {
  }

  /** Only a reveal stops the ping, and only a reveal puts a new non-empty
      list of options in place. */
  lemma OnlyRevealShows(s: State, a: Action, d: Draw, swaps: seq<Exchange>)
    requires Enabled(s, a) && IsUnitDraw(d) && ExchangesWithin(swaps, OptionCount)
    ensures s.isPlaying && !Step(s, a, d, swaps).isPlaying ==> a == Timeout
    ensures Step(s, a, d, swaps).colorOptions !in {[], s.colorOptions} ==> a == Timeout
  {
  }

  /** A wrong click empties the options, which brings back the replay
      button; the note, the playing flag and the started flag stay. */
  lemma WrongChoice(s: State, p: nat, d: Draw, swaps: seq<Exchange>)
    requires Enabled(s, Choose(p)) && IsUnitDraw(d) && ExchangesWithin(swaps, OptionCount)
    requires s.colorOptions[p] != s.correctIndex
    ensures Step(s, Choose(p), d, swaps) == s.(colorOptions := [])
    ensures View(Step(s, Choose(p), d, swaps)) == ReplayButton
  {
  }

  /** A right click starts a new round: the ping shows the newly drawn note
      and one reveal is scheduled. */
  lemma RightChoice(s: State, p: nat, d: Draw, swaps: seq<Exchange>)
    requires Inv(s) && Enabled(s, Choose(p)) && IsUnitDraw(d) && ExchangesWithin(swaps, OptionCount)
    requires s.colorOptions[p] == s.correctIndex
    ensures Step(s, Choose(p), d, swaps).isPlaying
    ensures Step(s, Choose(p), d, swaps).correctIndex == NoteIndex(d)
    ensures View(Step(s, Choose(p), d, swaps)) == Ping(NoteIndex(d))
    ensures Step(s, Choose(p), d, swaps).pendingReveals == [RoundList(swaps)]
  {
  }

  /** A click is judged by the colour index of the swatch, not by its
      position: it starts a new round exactly when that colour is the note. */
  lemma ChoiceByColour(s: State, p: nat, d: Draw, swaps: seq<Exchange>)
    requires Enabled(s, Choose(p)) && IsUnitDraw(d) && ExchangesWithin(swaps, OptionCount)
    ensures Step(s, Choose(p), d, swaps).isPlaying <==> View(s).swatches[p] == s.correctIndex
  {
  }

  /** An illustration of `ChoiceByColour`: with the note 0 and colour 1 in
      the first slot, clicking the first slot (position 0) is a wrong answer. */
  lemma PositionIsNotColour(d: Draw, swaps: seq<Exchange>)
    requires IsUnitDraw(d) && ExchangesWithin(swaps, OptionCount)
    ensures var s := State(true, false, [1, 0, 2, 3, 4], 0, []);
      Enabled(s, Choose(0)) && View(Step(s, Choose(0), d, swaps)) == ReplayButton
  {
  }

  /** The start button starts the game and the first round at once. */
  lemma StartBeginsRound(s: State, d: Draw, swaps: seq<Exchange>)
    requires Inv(s) && Enabled(s, Start) && IsUnitDraw(d) && ExchangesWithin(swaps, OptionCount)
    ensures Step(s, Start, d, swaps).gameStarted
    ensures View(Step(s, Start, d, swaps)) == Ping(NoteIndex(d))
    ensures Step(s, Start, d, swaps).pendingReveals == [RoundList(swaps)]
  {
  }

  /** `beginNewRound` itself cancels nothing: called while a reveal is still
      pending it schedules a second one. Only the screen keeps it from being
      reached then: none of the start button, the replay button and the
      swatches is on screen while a reveal is pending. */
  lemma RoundWhilePlayingStacksReveals(s: State, d: Draw, swaps: seq<Exchange>)
    requires IsUnitDraw(d) && ExchangesWithin(swaps, OptionCount)
    requires s.pendingReveals != []
    ensures |BeginNewRound(s, d, swaps).pendingReveals| >= 2
    ensures Inv(s) ==> !Enabled(s, Replay) && !Enabled(s, Start) && forall p :: !Enabled(s, Choose(p))
  {
  }

  /** Every note can be drawn: the draw `k / 5` picks note `k`. */
  lemma EveryNoteDrawable(k: int)
    requires 0 <= k < |NoteNames|
    ensures NoteIndex(Draw(k, |NoteNames|)) == k
  {
  }
}
