/** The `ColorChords` component as an object: its state variables are fields
    and its handlers are methods that update them in place. Each method is
    proved to produce the state that the corresponding function of `Rounds`
    describes, so every property proved there holds of the object. */
module Component {
  import opened Arrangements
  import Rounds

  class ColorChords {
    var gameStarted: bool
    var isPlaying: bool
    var colorOptions: seq<int>
    var correctIndex: int
    /** Lists captured by `setTimeout` callbacks that have not run yet, oldest first. */
    var pendingReveals: seq<seq<int>>

    function Snapshot(): Rounds.State
      reads this
    {
      Rounds.State(gameStarted, isPlaying, colorOptions, correctIndex, pendingReveals)
    }

    ghost predicate Valid()
      reads this
    {
      Rounds.Inv(Snapshot())
    }

    /** Mounting: not started, not playing, no options, note 0, no timers. */
    constructor ()
      ensures Snapshot() == Rounds.Initial && Valid()
    {
      gameStarted := false;
      isPlaying := false;
      colorOptions := [];
      correctIndex := 0;
      pendingReveals := [];
    }

    /** `beginNewRound`: the indices are pushed into a fresh array by a loop
        and shuffled in place; the reveal captures that array's contents. */
    method BeginNewRound(d: Rounds.Draw, swaps: seq<Exchange>)
      requires Rounds.IsUnitDraw(d) && ExchangesWithin(swaps, Rounds.OptionCount)
      modifies this
      ensures Snapshot() == Rounds.BeginNewRound(old(Snapshot()), d, swaps)
    {
      var randomNoteIndex := Rounds.NoteIndex(d);
      var indices := new int[Rounds.OptionCount];
      for i := 0 to Rounds.OptionCount
        invariant indices[..i] == Range(i)
        modifies indices
      {
        indices[i] := i;
      }
      assert indices[..] == indices[..Rounds.OptionCount];
      ShuffleInPlace(indices, swaps);
      var revealed := indices[..];
      correctIndex := randomNoteIndex;
      isPlaying := true;
      pendingReveals := pendingReveals + [revealed];
    }

    /** The oldest `setTimeout` callback runs: it shows its list and stops the ping. */
    method RevealTimeout()
      requires pendingReveals != []
      modifies this
      ensures Snapshot() == Rounds.Reveal(old(Snapshot()))
    {
      colorOptions := pendingReveals[0];
      isPlaying := false;
      pendingReveals := pendingReveals[1..];
    }

    /** `startGame`. */
    method StartGame(d: Rounds.Draw, swaps: seq<Exchange>)
      requires Rounds.IsUnitDraw(d) && ExchangesWithin(swaps, Rounds.OptionCount)
      modifies this
      ensures Snapshot() == Rounds.StartGame(old(Snapshot()), d, swaps)
    {
      gameStarted := true;
      BeginNewRound(d, swaps);
    }

    /** `onSwatchClick`. */
    method OnSwatchClick(selectedIndex: int, d: Rounds.Draw, swaps: seq<Exchange>)
      requires Rounds.IsUnitDraw(d) && ExchangesWithin(swaps, Rounds.OptionCount)
      modifies this
      ensures Snapshot() == Rounds.SwatchClick(old(Snapshot()), selectedIndex, d, swaps)
    {
      if selectedIndex == correctIndex {
        BeginNewRound(d, swaps);
      } else {
        colorOptions := [];
      }
    }

    /** The click handler of the swatch at `position` of the grid: it passes
        the colour index that swatch shows. */
    method ClickSwatch(position: nat, d: Rounds.Draw, swaps: seq<Exchange>)
      requires position < |colorOptions|
      requires Rounds.IsUnitDraw(d) && ExchangesWithin(swaps, Rounds.OptionCount)
      modifies this
      ensures Snapshot() == Rounds.SwatchClick(old(Snapshot()), old(colorOptions[position]), d, swaps)
    {
      var colorIdx := colorOptions[position];
      OnSwatchClick(colorIdx, d, swaps);
    }

    /** One event from the page: a click on what is on screen, or a timer
        firing. The invariant holds before and after. */
    method Dispatch(a: Rounds.Action, d: Rounds.Draw, swaps: seq<Exchange>)
      requires Valid() && Rounds.Enabled(Snapshot(), a)
      requires Rounds.IsUnitDraw(d) && ExchangesWithin(swaps, Rounds.OptionCount)
      modifies this
      ensures Snapshot() == Rounds.Step(old(Snapshot()), a, d, swaps)
      ensures Valid()
    {
      Rounds.StepInv(Snapshot(), a, d, swaps);
      match a
      case Start => StartGame(d, swaps);
      case Replay => BeginNewRound(d, swaps);
      case Choose(p) => ClickSwatch(p, d, swaps);
      case Timeout => RevealTimeout();
    }
  }
}
