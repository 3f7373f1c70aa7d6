/**
 * The control page (src/browser/index.ts): the rundown of comic sets and presets, the edit
 * handlers that send a new rundown and current index to the server, the "Go to Next" and
 * "Make Active" navigation, the buttons offered for the current item, and the `m:ss`
 * clock shown for the running timer. The DOM, the WebSocket and the modal editor are
 * events and results; what is modelled is what each handler computes and sends.
 */
module ControlPanel {
  import opened Wrappers
  import Js
  import Bytes
  import Osc
  import Timer

  /** A rundown item: a comic's set (time in whole minutes) or a QLab preset. */
  datatype RundownItem =
    | Comic(name: string, social: Option<string>, bumper: Option<string>, time: int)
    | Preset(name: string)

  /** The client messages the page sends. */
  datatype Outgoing =
    | SetRundown(rundown: seq<RundownItem>, current: int)
    | ReplaceRundown(items: seq<RundownItem>)
    | SetCurrent(index: int)
    | TimerCommand(command: Timer.Command, time: Option<int>)
    | SpotifyPlay(id: string)
    | SpotifyPause

  /** A rundown together with its current index, as a `settings` message carries them. */
  datatype Edit = Edit(rundown: seq<RundownItem>, current: int)

  // ---------------------------------------------------------------------------
  // Edit-mode handlers for item i

  /** The trash icon: `splice(i, 1)`; the current index moves down when it was after i. */
  function Delete(rundown: seq<RundownItem>, current: int, i: nat): Edit
    requires i < |rundown|
  {
    Edit(Js.Splice(rundown, i, 1, []), if current <= i then current else current - 1)
  }

  /**
   * The up icon: the item is cut out and put back one place earlier; the current index
   * follows the two items that trade places.
   */
  function MoveUp(rundown: seq<RundownItem>, current: int, i: nat): Edit
    requires i < |rundown|
  {
    var item := Js.Removed(rundown, i, 1)[0];
    var rest := Js.Splice(rundown, i, 1, []);
    Edit(Js.Splice(rest, i - 1, 0, [item]),
         if current == i - 1 then current + 1 else if current == i then i - 1 else current)
  }

  /** The down icon: the item is cut out and put back one place later. */
  function MoveDown(rundown: seq<RundownItem>, current: int, i: nat): Edit
    requires i < |rundown|
  {
    var item := Js.Removed(rundown, i, 1)[0];
    var rest := Js.Splice(rundown, i, 1, []);
    Edit(Js.Splice(rest, i + 1, 0, [item]),
         if current == i + 1 then current - 1 else if current == i then i + 1 else current)
  }

  /** The item editor's save: `newRundown[i] = item`. */
  function EditItem(rundown: seq<RundownItem>, i: nat, item: RundownItem): (r: seq<RundownItem>)
    requires i < |rundown|
    ensures |r| == |rundown| && r[i] == item
    ensures forall j :: 0 <= j < |r| && j != i ==> r[j] == rundown[j]
  {
    rundown[i := item]
  }

  /** The new-item editor's save: `newRundown.push(item)`. */
  function AddItem(rundown: seq<RundownItem>, item: RundownItem): (r: seq<RundownItem>)
    ensures |r| == |rundown| + 1 && r[..|rundown|] == rundown && r[|rundown|] == item
  {
    rundown + [item]
  }

  /** What "Add Comic" and "Add Preset" open the editor with. */
  const NewComic: RundownItem := Comic("", None, None, 10)
  const NewPreset: RundownItem := Preset("")

  /** Deleting item i removes exactly that item, and the current item stays current. */
  lemma DeleteRemoves(rundown: seq<RundownItem>, current: int, i: nat)
    requires i < |rundown|
    ensures var e := Delete(rundown, current, i);
      e.rundown == rundown[..i] + rundown[i + 1..]
      && (0 <= current < |rundown| && current != i ==>
            0 <= e.current < |e.rundown| && e.rundown[e.current] == rundown[current])
      && (current == i && i + 1 < |rundown| ==> e.current == i && e.rundown[i] == rundown[i + 1])
  {
    var e := Delete(rundown, current, i);
    assert e.rundown == rundown[..i] + rundown[i + 1..];
    if 0 <= current < |rundown| && current > i {
      assert e.rundown[current - 1] == rundown[current];
    }
  }

  /**
   * Deleting the current item when it is the last one leaves the current index one past
   * the end of the new rundown (the following render then finds no current item).
   */
  lemma DeleteLastCurrentOverruns(rundown: seq<RundownItem>)
    requires |rundown| >= 2
    ensures var e := Delete(rundown, |rundown| - 1, |rundown| - 1);
      e.current == |e.rundown|
  {
  }

  /** The intended delete: the current index also stays on an item when the last one is deleted. */
  function DeleteIntended(rundown: seq<RundownItem>, current: int, i: nat): (e: Edit)
    requires i < |rundown|
    ensures e.rundown == rundown[..i] + rundown[i + 1..]
  {
    Edit(Js.Splice(rundown, i, 1, []),
         if current < i then current
         else if current > i then current - 1
         else if i == |rundown| - 1 && i > 0 then i - 1
         else i)
  }

  /** With the correction, a current index within the rundown stays within it after any delete. */
  lemma DeleteIntendedInRange(rundown: seq<RundownItem>, current: int, i: nat)
    requires i < |rundown| && 0 <= current < |rundown| && |rundown| >= 2
    ensures var e := DeleteIntended(rundown, current, i);
      0 <= e.current < |e.rundown|
      && (current != i ==> e.rundown[e.current] == rundown[current])
  {
    var e := DeleteIntended(rundown, current, i);
    if current > i {
      assert e.rundown[current - 1] == rundown[current];
    }
  }

  /** The rundown with items j and j + 1 traded. */
  function Swapped(rundown: seq<RundownItem>, j: nat): (r: seq<RundownItem>)
    requires j + 1 < |rundown|
    ensures |r| == |rundown| && r[j] == rundown[j + 1] && r[j + 1] == rundown[j]
    ensures forall k :: 0 <= k < |r| && k != j && k != j + 1 ==> r[k] == rundown[k]
  {
    rundown[..j] + [rundown[j + 1], rundown[j]] + rundown[j + 2..]
  }

  lemma SwappedTwice(rundown: seq<RundownItem>, j: nat)
    requires j + 1 < |rundown|
    ensures Swapped(Swapped(rundown, j), j) == rundown
  {
    var once := Swapped(rundown, j);
    assert once[..j] == rundown[..j] && once[j + 2..] == rundown[j + 2..];
    assert rundown == rundown[..j] + [rundown[j], rundown[j + 1]] + rundown[j + 2..];
  }

  /** Moving item i up (i >= 1) swaps it with the item before it; the current item stays current. */
  lemma MoveUpSwaps(rundown: seq<RundownItem>, current: int, i: nat)
    requires 1 <= i < |rundown|
    ensures var e := MoveUp(rundown, current, i);
      e.rundown == Swapped(rundown, i - 1)
      && (0 <= current < |rundown| ==>
            0 <= e.current < |e.rundown| && e.rundown[e.current] == rundown[current])
  {
    var rest := Js.Splice(rundown, i, 1, []);
    assert rest == rundown[..i] + rundown[i + 1..];
    assert rest[..i - 1] == rundown[..i - 1];
    assert rest[i - 1..] == [rundown[i - 1]] + rundown[i + 1..];
  }

  /** Moving item i down (i below the last) swaps it with the item after it. */
  lemma MoveDownSwaps(rundown: seq<RundownItem>, current: int, i: nat)
    requires i + 1 < |rundown|
    ensures var e := MoveDown(rundown, current, i);
      e.rundown == Swapped(rundown, i)
      && (0 <= current < |rundown| ==>
            0 <= e.current < |e.rundown| && e.rundown[e.current] == rundown[current])
  {
    var rest := Js.Splice(rundown, i, 1, []);
    assert rest == rundown[..i] + rundown[i + 1..];
    assert rest[..i + 1] == rundown[..i] + [rundown[i + 1]];
    assert rest[i + 1..] == rundown[i + 2..];
  }

  /** Moving an item down right after moving it up restores the rundown and the current index. */
  lemma MoveDownUndoesMoveUp(rundown: seq<RundownItem>, current: int, i: nat)
    requires 1 <= i < |rundown|
    ensures var e := MoveUp(rundown, current, i);
      MoveDown(e.rundown, e.current, i - 1) == Edit(rundown, current)
  {
    var e := MoveUp(rundown, current, i);
    MoveUpSwaps(rundown, current, i);
    MoveDownSwaps(e.rundown, e.current, i - 1);
    SwappedTwice(rundown, i - 1);
  }

  /**
   * The up icon of the first item is only styled as disabled: clicked anyway, `splice(-1, 0, …)`
   * puts the first item before the last one, and a current index of 0 becomes -1.
   */
  lemma MoveUpFirst(rundown: seq<RundownItem>, current: int)
    requires |rundown| >= 2
    ensures var e := MoveUp(rundown, current, 0);
      e.rundown == rundown[1..|rundown| - 1] + [rundown[0], rundown[|rundown| - 1]]
      && (current == 0 ==> e.current == -1)
  {
    var rest := Js.Splice(rundown, 0, 1, []);
    assert rest == rundown[1..];
    assert Js.SpliceStart(|rest|, -1) == |rundown| - 2;
    assert rest[..|rundown| - 2] == rundown[1..|rundown| - 1];
    assert rest[|rundown| - 2..] == [rundown[|rundown| - 1]];
  }

  /**
   * The down icon of the last item, clicked anyway, leaves the rundown as it was and moves a
   * current index on the last item one past the end.
   */
  lemma MoveDownLast(rundown: seq<RundownItem>, current: int)
    requires |rundown| >= 1
    ensures var e := MoveDown(rundown, current, |rundown| - 1);
      e.rundown == rundown && (current == |rundown| - 1 ==> e.current == |rundown|)
  {
    var n := |rundown|;
    var rest := Js.Splice(rundown, n - 1, 1, []);
    assert rest == rundown[..n - 1];
    assert rest + [rundown[n - 1]] == rundown;
  }

  // ---------------------------------------------------------------------------
  // Navigation

  /**
   * "Go to Next": for a comic next item, a timer reset carrying the item's minutes goes first;
   * then the current index advances. No next item only logs an error.
   */
  function NextClick(rundown: seq<RundownItem>, current: int): seq<Outgoing>
  {
    if 0 <= current + 1 < |rundown| then
      var next := rundown[current + 1];
      (if next.Comic? then [TimerCommand(Timer.Reset, Some(next.time))] else [])
      + [SetCurrent(current + 1)]
    else []
  }

  /** "Make Active" for item i: the index is set first, then a comic's reset follows. */
  function MakeActive(item: RundownItem, i: nat): seq<Outgoing>
  {
    [SetCurrent(i)] + (if item.Comic? then [TimerCommand(Timer.Reset, Some(item.time))] else [])
  }

  /** Clicking an item outside edit mode offers "Make Active" only for an item that is not current. */
  predicate MakeActiveOffered(editMode: bool, current: int, i: nat) {
    !editMode && i != current
  }

  /**
   * Every offered "Go to Next" advances the index by one, after a reset to the next item's
   * time exactly when that item is a comic.
   */
  lemma NextAdvances(rundown: seq<RundownItem>, current: int)
    requires 0 <= current < |rundown| - 1
    ensures var out := NextClick(rundown, current);
      1 <= |out| <= 2 && out[|out| - 1] == SetCurrent(current + 1)
      && (|out| == 2 <==> rundown[current + 1].Comic?)
      && (|out| == 2 ==> out[0] == TimerCommand(Timer.Reset, Some(rundown[current + 1].time)))
  {
  }

  /**
   * The reset sent for the next comic reaches the timer with that set's minutes as its float
   * argument, except a set of 0 minutes, whose reset carries no time.
   */
  lemma NextResetMessage(rundown: seq<RundownItem>, current: int, toFloat32: int -> Bytes.Float32Bits)
    requires 0 <= current < |rundown| - 1 && rundown[current + 1].Comic?
    ensures var t := rundown[current + 1].time;
      NextClick(rundown, current)[0] == TimerCommand(Timer.Reset, Some(t))
      && Timer.CommandMessage(Timer.Reset, Some(t), toFloat32).arguments
         == (if t != 0 then [Osc.Float(toFloat32(t))] else [])
  {
  }

  /** "Make Active" sets the index to the clicked item, and a comic also resets the timer to its set. */
  lemma MakeActiveSends(item: RundownItem, i: nat)
    ensures var out := MakeActive(item, i);
      out[0] == SetCurrent(i)
      && (item.Comic? <==> |out| == 2)
      && (|out| == 2 ==> out[1] == TimerCommand(Timer.Reset, Some(item.time)))
  {
  }

  // ---------------------------------------------------------------------------
  // Clock text

  /** `minutes.toString() + ':' + seconds.toString().padStart(2, '0')` for whole seconds. */
  function Clock(minutes: int, seconds: nat): string
  {
    Js.IntToString(minutes) + ":" + Js.PadStart(Js.NatToString(seconds), 2, '0')
  }

  /**
   * The timer's seconds as shown: `Math.floor(s / 60)` minutes and the seconds left over.
   * Dafny's `/` and `%` round down for a positive divisor, as `Math.floor` does.
   */
  function TimerSeconds(s: int): string
  {
    Clock(s / 60, s % 60)
  }

  /** `msToTimeString`: milliseconds rounded to whole seconds, then JavaScript's `%` for the seconds. */
  function MsToTimeString(ms: int): string
  {
    var seconds := (ms + 500) / 1000;
    var minutes := seconds / 60;
    Js.IntToString(minutes) + ":" + Js.PadStart(Js.IntToString(Js.Rem(seconds, 60)), 2, '0')
  }

  /** `minutesToTime` for a whole number of minutes: no seconds are left over. */
  function MinutesToTime(minutes: int): string
  {
    Clock(minutes, 0)
  }

  /** Splitting `m + ":" + pad` again when the pad is two characters long. */
  lemma ColonSplit(m: string, pad: string)
    requires |pad| == 2
    ensures var t := m + ":" + pad;
      |t| == |m| + 3 && t[..|t| - 3] == m && t[|t| - 3] == ':' && t[|t| - 2..] == pad
  {
    var t := m + ":" + pad;
    assert t[..|t| - 3] == m;
    assert t[|t| - 2..] == pad;
  }

  /** The clock text is the minutes, a colon and exactly two digits holding the seconds. */
  lemma ClockLayout(minutes: int, seconds: nat)
    requires seconds < 100
    ensures var t := Clock(minutes, seconds);
      |t| >= 4 && t[..|t| - 3] == Js.IntToString(minutes) && t[|t| - 3] == ':'
      && t[|t| - 2..] == [Js.DigitChar(seconds / 10), Js.DigitChar(seconds % 10)]
  {
    var m := Js.IntToString(minutes);
    var pad := [Js.DigitChar(seconds / 10), Js.DigitChar(seconds % 10)];
    assert Clock(minutes, seconds) == m + ":" + pad by {
      Js.PadTwoDigits(seconds);
    }
    ColonSplit(m, pad);
  }

  /** Reading a clock text back: the minutes before the colon and the two digits after it. */
  function ReadClock(t: string): Option<(int, nat)>
  {
    if |t| < 4 || t[|t| - 3] != ':' then None
    else match Js.ParseInt(t[..|t| - 3])
      case None => None
      case Some(m) => Some((m, Js.DigitsValue(t[|t| - 2..], 10)))
  }

  /** Two decimal digits have the value they spell. */
  lemma TwoDigitsValue(n: nat)
    requires n < 100
    ensures Js.DigitsValue([Js.DigitChar(n / 10), Js.DigitChar(n % 10)], 10) == n
  {
    var ds := [Js.DigitChar(n / 10), Js.DigitChar(n % 10)];
    assert Js.DigitValue(ds[0], 10) == n / 10;
    assert Js.DigitValue(ds[1], 10) == n % 10;
    assert ds[..1] == [ds[0]];
    assert ds[..1][..0] == [];
    assert Js.DigitsValue(ds[..1], 10) == n / 10;
  }

  /** Every clock text reads back as the minutes and seconds it was written from. */
  lemma ReadClockOfClock(minutes: int, seconds: nat)
    requires seconds < 100
    ensures ReadClock(Clock(minutes, seconds)) == Some((minutes, seconds))
  {
    var t := Clock(minutes, seconds);
    ClockLayout(minutes, seconds);
    Js.ParseIntIntToString(minutes);
    TwoDigitsValue(seconds);
  }

  /** The clock text determines its minutes and its seconds. */
  lemma ClockInjective(m1: int, s1: nat, m2: int, s2: nat)
    requires s1 < 100 && s2 < 100
    ensures Clock(m1, s1) == Clock(m2, s2) <==> m1 == m2 && s1 == s2
  {
    ReadClockOfClock(m1, s1);
    ReadClockOfClock(m2, s2);
  }

  /** Different numbers of seconds never show the same clock text. */
  lemma TimerSecondsInjective(a: int, b: int)
    ensures TimerSeconds(a) == TimerSeconds(b) <==> a == b
  {
    ClockInjective(a / 60, a % 60, b / 60, b % 60);
  }

  /** From -500 ms on, the track-duration format is the timer clock of the rounded seconds. */
  lemma MsToTimeStringIsClock(ms: int)
    requires ms >= -500
    ensures MsToTimeString(ms) == TimerSeconds((ms + 500) / 1000)
  {
    var seconds: nat := (ms + 500) / 1000;
    assert Js.IntToString(Js.Rem(seconds, 60)) == Js.NatToString(seconds % 60);
  }

  lemma MsToTimeStringMinusTwoSeconds()
    ensures MsToTimeString(-2000) == "-1:-2"
  {
    assert (-2000 + 500) / 1000 == -2 && -2 / 60 == -1;
    assert Js.Rem(-2, 60) == -2;
    assert Js.IntToString(-2) == "-2";
    assert Js.IntToString(-1) == "-1";
  }

  /** The clock's seconds field is two digits, never a sign. */
  lemma TimerSecondsUnsigned(s: int)
    ensures var t := TimerSeconds(s); |t| >= 4 && Js.IsDecimalDigit(t[|t| - 2])
  {
    ClockLayout(s / 60, s % 60);
  }

  /** Below that, JavaScript's `%` leaves a negative seconds field, which no clock text shows. */
  lemma MsToTimeStringNegative()
    ensures MsToTimeString(-2000) == "-1:-2"
    ensures forall s :: TimerSeconds(s) != "-1:-2"
  {
    MsToTimeStringMinusTwoSeconds();
    NoClockShowsNegativeSeconds();
  }

  lemma NoClockShowsNegativeSeconds()
    ensures forall s :: TimerSeconds(s) != "-1:-2"
  {
    var u: string := "-1:-2";
    assert !Js.IsDecimalDigit(u[|u| - 2]);
    forall s ensures TimerSeconds(s) != u {
      TimerSecondsUnsigned(s);
    }
  }

  /** A whole number of minutes shows as the clock of that many minutes' seconds. */
  lemma MinutesToTimeIsClock(minutes: int)
    ensures MinutesToTime(minutes) == TimerSeconds(60 * minutes)
  {
    assert (60 * minutes) / 60 == minutes;
    assert (60 * minutes) % 60 == 0;
  }

  // ---------------------------------------------------------------------------
  // Timer state and buttons

  /** The page's timer state: a number of seconds means running; a label is kept as it is. */
  function NewTimerState(state: Timer.TimerState): string
  {
    match state
    case Seconds(_) => "running"
    case Label(s) => s
  }

  datatype Button =
    | PlayBumper(id: string)
    | StopSpotify
    | StartTimer
    | PauseTimer
    | ResumeTimer
    | ResetTimer
    | FirePreset
    | GoToNext
    | AddComic
    | AddPreset

  /** The timer buttons for a comic, by timer state; an unknown state offers none. */
  function TimerButtons(timerState: string): seq<Button>
  {
    if timerState == "ready" then [StartTimer]
    else if timerState == "running" then [PauseTimer]
    else if timerState == "paused" then [ResumeTimer, ResetTimer]
    else if timerState == "finished" then [ResetTimer]
    else []
  }

  /**
   * The buttons under the rundown. Edit mode offers only the two add buttons. Otherwise a
   * current index with no item throws before any button is added; a comic gets its bumper
   * (when it has one), "Stop Spotify" and the timer buttons, a preset "Fire Preset"; and
   * "Go to Next" follows while an item comes after the current one.
   */
  function PanelButtons(rundown: seq<RundownItem>, current: int, editMode: bool, timerState: string): seq<Button>
  {
    if editMode then [AddComic, AddPreset]
    else if !(0 <= current < |rundown|) then []
    else ItemButtons(rundown[current], timerState) + (if current < |rundown| - 1 then [GoToNext] else [])
  }

  /** The buttons of the current item itself. */
  function ItemButtons(item: RundownItem, timerState: string): seq<Button>
  {
    match item
    case Comic(_, _, bumper, _) =>
      (if bumper.Some? then [PlayBumper(bumper.value)] else []) + [StopSpotify] + TimerButtons(timerState)
    case Preset(_) => [FirePreset]
  }

  /** What a click on each button sends. "Fire Preset" has no click handler; the add buttons open the editor. */
  function ButtonMessages(b: Button, rundown: seq<RundownItem>, current: int): seq<Outgoing>
  {
    match b
    case PlayBumper(id) => [SpotifyPlay(id)]
    case StopSpotify => [SpotifyPause]
    case StartTimer => [TimerCommand(Timer.Start, None)]
    case ResumeTimer => [TimerCommand(Timer.Start, None)]
    case PauseTimer => [TimerCommand(Timer.Pause, None)]
    case ResetTimer => [TimerCommand(Timer.Reset, None)]
    case FirePreset => []
    case GoToNext => NextClick(rundown, current)
    case AddComic => []
    case AddPreset => []
  }

  /** The timer command a button sends, if it sends one. */
  function ButtonCommand(b: Button): Option<Timer.Command>
  {
    match b
    case StartTimer => Some(Timer.Start)
    case ResumeTimer => Some(Timer.Start)
    case PauseTimer => Some(Timer.Pause)
    case ResetTimer => Some(Timer.Reset)
    case _ => None
  }

  /** The timer commands a row of buttons offers, in order. */
  function Commands(bs: seq<Button>): seq<Timer.Command>
  {
    if bs == [] then []
    else (match ButtonCommand(bs[0]) case Some(c) => [c] case None => []) + Commands(bs[1..])
  }

  lemma {:induction false} CommandsAppend(a: seq<Button>, b: seq<Button>)
    ensures Commands(a + b) == Commands(a) + Commands(b)
  {
    if a == [] {
      assert a + b == b;
    } else {
      assert (a + b)[1..] == a[1..] + b;
      CommandsAppend(a[1..], b);
    }
  }

  /** Each timer button sends, without a time, exactly the command it names. */
  lemma ButtonSendsItsCommand(b: Button, rundown: seq<RundownItem>, current: int)
    ensures ButtonCommand(b).Some? <==> b in {StartTimer, ResumeTimer, PauseTimer, ResetTimer}
    ensures ButtonCommand(b).Some? ==>
      ButtonMessages(b, rundown, current) == [TimerCommand(ButtonCommand(b).value, None)]
  {
  }

  /**
   * Per timer state: start is offered when ready or paused, pause when running, reset when
   * paused or finished, and nothing else.
   */
  lemma TimerButtonsOffer(timerState: string, c: Timer.Command)
    ensures c in Commands(TimerButtons(timerState)) <==>
      (c == Timer.Start && (timerState == "ready" || timerState == "paused"))
      || (c == Timer.Pause && timerState == "running")
      || (c == Timer.Reset && (timerState == "paused" || timerState == "finished"))
  {
    var bs := TimerButtons(timerState);
    assert Commands([StartTimer]) == [Timer.Start] by { assert [StartTimer][1..] == []; }
    assert Commands([PauseTimer]) == [Timer.Pause] by { assert [PauseTimer][1..] == []; }
    assert Commands([ResetTimer]) == [Timer.Reset] by { assert [ResetTimer][1..] == []; }
    if timerState == "ready" {
      assert bs == [StartTimer];
    } else if timerState == "running" {
      assert bs == [PauseTimer];
    } else if timerState == "paused" {
      assert Commands(bs) == [Timer.Start, Timer.Reset] by {
        assert bs[1..] == [ResetTimer];
        assert Commands(bs) == [Timer.Start] + Commands([ResetTimer]);
      }
    } else if timerState == "finished" {
      assert bs == [ResetTimer];
    } else {
      assert bs == [];
    }
  }

  /**
   * What the panel offers for each report the timer publishes: a running count of seconds
   * (or the label `running`) offers pause; `ready` offers start; `paused` start and reset;
   * `finished` reset; any other label nothing.
   */
  lemma ReportedStateOffers(state: Timer.TimerState, c: Timer.Command)
    ensures c in Commands(TimerButtons(NewTimerState(state))) <==>
      (c == Timer.Pause && (state.Seconds? || state == Timer.Label("running")))
      || (c == Timer.Start && (state == Timer.Label("ready") || state == Timer.Label("paused")))
      || (c == Timer.Reset && (state == Timer.Label("paused") || state == Timer.Label("finished")))
  {
    TimerButtonsOffer(NewTimerState(state), c);
  }

  /** Timer commands are offered exactly for a current comic outside edit mode, as its timer state allows. */
  lemma PanelTimerCommands(rundown: seq<RundownItem>, current: int, editMode: bool, timerState: string)
    ensures Commands(PanelButtons(rundown, current, editMode, timerState)) ==
      if !editMode && 0 <= current < |rundown| && rundown[current].Comic? then Commands(TimerButtons(timerState))
      else []
  {
    if editMode {
      var bs := [AddComic, AddPreset];
      assert bs[1..][1..] == [];
    } else if 0 <= current < |rundown| {
      var next: seq<Button> := if current < |rundown| - 1 then [GoToNext] else [];
      assert Commands(next) == [] by {
        if next != [] { assert next[1..] == []; }
      }
      ItemCommands(rundown[current], timerState);
      CommandsAppend(ItemButtons(rundown[current], timerState), next);
    }
  }

  /** A comic's own buttons offer exactly its timer buttons' commands; a preset's offer none. */
  lemma ItemCommands(item: RundownItem, timerState: string)
    ensures Commands(ItemButtons(item, timerState)) == if item.Comic? then Commands(TimerButtons(timerState)) else []
  {
    match item
    case Comic(_, _, bumper, _) =>
      var head: seq<Button> := if bumper.Some? then [PlayBumper(bumper.value)] else [];
      assert Commands(head) == [] by {
        if head != [] { assert head[1..] == []; }
      }
      assert Commands([StopSpotify]) == [] by { assert [StopSpotify][1..] == []; }
      CommandsAppend(head, [StopSpotify]);
      CommandsAppend(head + [StopSpotify], TimerButtons(timerState));
    case Preset(_) =>
      assert [FirePreset][1..] == [];
  }

  /** "Go to Next" is offered exactly outside edit mode while an item follows the current one. */
  lemma NextOffered(rundown: seq<RundownItem>, current: int, editMode: bool, timerState: string)
    ensures GoToNext in PanelButtons(rundown, current, editMode, timerState) <==>
      !editMode && 0 <= current < |rundown| - 1
  {
    var bs := PanelButtons(rundown, current, editMode, timerState);
    if !editMode && 0 <= current < |rundown| {
      assert GoToNext !in TimerButtons(timerState);
      assert current < |rundown| - 1 ==> bs[|bs| - 1] == GoToNext;
    }
  }

  /** The page's state: the rundown and index from the last settings, the edit toggle and the timer. */
  class Panel {
    /** `localRundown`. */
    var rundown: seq<RundownItem>
    /** `localCurrentItem`. */
    var current: int
    /** `editMode`, the edit toggle. */
    var editMode: bool
    /** `spotifyConnected`: the settings hold a Spotify access token. */
    var spotifyConnected: bool
    /** `timerState`. */
    var timerState: string
    /** `lastTimerTime`: the clock text last written into the current item. */
    var lastTimerTime: Option<string>

    constructor ()
      ensures rundown == [] && current == 0 && !editMode && !spotifyConnected
      ensures timerState == "ready" && lastTimerTime.None?
    {
      rundown := [];
      current := 0;
      editMode := false;
      spotifyConnected := false;
      timerState := "ready";
      lastTimerTime := None;
    }

    /** The render left a time element to update: the current item is a comic and edit mode is off. */
    predicate ActiveTimeShown()
      reads this
    {
      !editMode && 0 <= current < |rundown| && rundown[current].Comic?
    }

    /** The buttons of the last render. */
    function Buttons(): seq<Button>
      reads this
    {
      PanelButtons(rundown, current, editMode, timerState)
    }

    /**
     * The time shown for comic i: its planned minutes, or, for the current item once the
     * timer has left `ready`, the last clock text when there is one.
     */
    function ItemTimeText(i: nat): string
      requires i < |rundown| && rundown[i].Comic?
      reads this
    {
      var planned := MinutesToTime(rundown[i].time);
      if timerState != "ready" && i == current then
        (if lastTimerTime.Some? && Js.Truthy(lastTimerTime.value) then lastTimerTime.value else planned)
      else planned
    }

    /** A `settings` message: the rundown, the index and the Spotify connection are replaced; the page re-renders. */
    method OnSettings(newRundown: seq<RundownItem>, newCurrent: int, accessToken: Option<string>)
      modifies this
      ensures rundown == newRundown && current == newCurrent
      ensures spotifyConnected == (accessToken.Some? && Js.Truthy(accessToken.value))
      ensures editMode == old(editMode) && timerState == old(timerState) && lastTimerTime == old(lastTimerTime)
    {
      rundown := newRundown;
      current := newCurrent;
      spotifyConnected := accessToken.Some? && Js.Truthy(accessToken.value);
    }

    /** The edit toggle. */
    method ToggleEdit(checked: bool)
      modifies this
      ensures editMode == checked
      ensures rundown == old(rundown) && current == old(current) && spotifyConnected == old(spotifyConnected)
      ensures timerState == old(timerState) && lastTimerTime == old(lastTimerTime)
    {
      editMode := checked;
    }

    /**
     * A `timer` message. Seconds are written as clock text into the shown time element and
     * remembered; the state becomes `running` for seconds and the label otherwise, and the
     * page re-renders exactly when that state changes.
     */
    method OnTimer(state: Timer.TimerState) returns (rerender: bool)
      modifies this
      ensures rerender <==> NewTimerState(state) != old(timerState)
      ensures timerState == NewTimerState(state)
      ensures lastTimerTime ==
        (if state.Seconds? && old(ActiveTimeShown()) then Some(TimerSeconds(state.n)) else old(lastTimerTime))
      ensures rundown == old(rundown) && current == old(current) && editMode == old(editMode)
      ensures spotifyConnected == old(spotifyConnected)
      ensures state.Seconds? && ActiveTimeShown() ==> ItemTimeText(current) == TimerSeconds(state.n)
    {
      if state.Seconds? && ActiveTimeShown() {
        ClockLayout(state.n / 60, state.n % 60);
        lastTimerTime := Some(TimerSeconds(state.n));
      }
      var newState := NewTimerState(state);
      rerender := newState != timerState;
      if rerender {
        timerState := newState;
      }
    }
  }
}
