/**
 * The run-flag state machine of the program: `event_handler` turns at most one
 * polled SDL event into a change of the flag, and the loop of `main` advances
 * the generation on every tick whose flag is not PAUSE until the flag is
 * QUIT_GAME. SDL events are abstracted to the cases the handler tells apart;
 * polling itself is replaced by a script of poll results.
 */
module Game {
  import opened CTypes

  /** The run flag. */
  datatype Flag = Running | Pause | QuitGame {
    /** The uint8_t value of the flag's macro. */
    function Code(): byte {
      match this
      case Running => 0x00
      case Pause => 0x11
      case QuitGame => 0xFF
    }
  }

  /** The keys `event_handler` distinguishes. */
  datatype Key = Escape | KeyQ | OtherKey

  /** The SDL event types `event_handler` distinguishes. */
  datatype Event = QuitEvent | KeyDown(key: Key) | OtherEvent

  /** The result of polling: `None` when no event is pending. */
  type Polled = Option<Event>

  /** A quit request: a window-close event or a `q` key press. */
  predicate IsQuitRequest(polled: Polled) {
    polled == Some(QuitEvent) || polled == Some(KeyDown(KeyQ))
  }

  predicate IsEscape(polled: Polled) {
    polled == Some(KeyDown(Escape))
  }

  /** The flag after `event_handler` has handled `polled`. */
  function Transition(flag: Flag, polled: Polled): Flag {
    match polled
    case None => flag
    case Some(QuitEvent) => QuitGame
    case Some(KeyDown(Escape)) => if flag != Pause then Pause else Running
    case Some(KeyDown(KeyQ)) => QuitGame
    case Some(_) => flag
  }

  /** The environment the SDL side of the program keeps; only the flag is modelled. */
  class SdlEnvironment {
    var flag: Flag

    /** `initial` stands for whatever the freshly allocated record holds. */
    constructor (initial: Flag)
      ensures flag == initial
    {
      flag := initial;
    }
  }

  /** The simulation's environment, passed to the advance stub. It has no fields here:
      the stub reads none of it. */
  class ConveyEnvironment {
    constructor () {
    }
  }

  /** `convey_advance_generation`: a stub that changes nothing and returns 0. */
  method ConveyAdvanceGeneration(con: ConveyEnvironment) returns (r: uint32)
    ensures r == 0
  {
    r := 0;
  }

  /** `event_handler`: applies the polled event to the flag and returns 0. */
  method EventHandler(polled: Polled, sdl: SdlEnvironment) returns (r: uint32)
    modifies sdl
    ensures sdl.flag == Transition(old(sdl.flag), polled)
    ensures r == 0
  {
    if polled.Some? {
      var e := polled.value;
      if e.QuitEvent? {
        sdl.flag := QuitGame;
      } else if e.KeyDown? {
        if e.key == Escape {
          if sdl.flag != Pause {
            sdl.flag := Pause;
          } else {
            sdl.flag := Running;
          }
        } else if e.key == KeyQ {
          sdl.flag := QuitGame;
        }
      }
    }
    return 0;
  }

  /** What a run of the loop did: the final flag, the ticks it ran and how many of
      them advanced the generation. */
  datatype Outcome = Outcome(flag: Flag, ticks: nat, advances: nat)

  /**
   * The loop of `main` from `flag` on, with `polled` the results of the
   * successive polls. Each tick handles one poll result and then advances the
   * generation unless the flag is PAUSE; the loop stops when the flag is
   * QUIT_GAME (or the script is exhausted).
   */
  function Run(flag: Flag, polled: seq<Polled>): (o: Outcome)
    ensures o.ticks <= |polled| && o.advances <= o.ticks
    ensures o.flag == QuitGame || o.ticks == |polled|
    decreases |polled|
  {
    if flag == QuitGame || polled == [] then
      Outcome(flag, 0, 0)
    else
      var next := Transition(flag, polled[0]);
      var rest := Run(next, polled[1..]);
      Outcome(rest.flag, rest.ticks + 1, rest.advances + if next != Pause then 1 else 0)
  }

  /** The index of the first quit request in `polled`, or |polled| when there is none. */
  function FirstQuitRequest(polled: seq<Polled>): (q: nat)
    ensures q <= |polled|
    ensures forall i :: 0 <= i < q ==> !IsQuitRequest(polled[i])
    ensures q < |polled| ==> IsQuitRequest(polled[q])
  {
    if polled == [] || IsQuitRequest(polled[0]) then 0 else 1 + FirstQuitRequest(polled[1..])
  }

  /** The number of Escape presses in `polled`. */
  function EscapeCount(polled: seq<Polled>): nat {
    if polled == [] then 0 else (if IsEscape(polled[0]) then 1 else 0) + EscapeCount(polled[1..])
  }

  /** The loop skeleton of `main`: the flag starts RUNNING, and the loop runs while it
      is not QUIT_GAME, one poll result per tick. */
  method RunGame(sdl: SdlEnvironment, con: ConveyEnvironment, polled: seq<Polled>)
    returns (ticks: nat, advances: nat)
    modifies sdl
    ensures Outcome(sdl.flag, ticks, advances) == Run(Running, polled)
  {
    sdl.flag := Running;
    ticks, advances := 0, 0;
    while sdl.flag != QuitGame && ticks < |polled|
      invariant ticks <= |polled|
      invariant var rest := Run(sdl.flag, polled[ticks..]);
                Run(Running, polled) == Outcome(rest.flag, rest.ticks + ticks, rest.advances + advances)
      decreases |polled| - ticks
    {
      assert polled[ticks..][1..] == polled[ticks + 1..];
      var _ := EventHandler(polled[ticks], sdl);
      if sdl.flag != Pause {
        var _ := ConveyAdvanceGeneration(con);
        advances := advances + 1;
      }
      ticks := ticks + 1;
    }
  }

  /** A quit request sets QUIT_GAME whatever the flag was. */
  lemma QuitFromAnyFlag(flag: Flag, polled: Polled)
    requires IsQuitRequest(polled)
    ensures Transition(flag, polled) == QuitGame
  {
  }

  /** Escape gives RUNNING from PAUSE and PAUSE from any other flag, so pressing it
      twice restores RUNNING or PAUSE. */
  lemma EscapeToggles(flag: Flag)
    ensures Transition(flag, Some(KeyDown(Escape))) == if flag == Pause then Running else Pause
    ensures flag != QuitGame ==>
              Transition(Transition(flag, Some(KeyDown(Escape))), Some(KeyDown(Escape))) == flag
  {
  }

  /** No pending event, another key or another event type leaves the flag as it was. */
  lemma OtherInputKeepsFlag(flag: Flag, polled: Polled)
    requires !IsQuitRequest(polled) && !IsEscape(polled)
    ensures Transition(flag, polled) == flag
  {
  }

  /** Only a quit request reaches QUIT_GAME from a live flag. */
  lemma QuitOnlyOnRequest(flag: Flag, polled: Polled)
    requires flag != QuitGame
    ensures Transition(flag, polled) == QuitGame <==> IsQuitRequest(polled)
  {
  }

  /**
   * The loop runs up to and including the first quit request and no further:
   * it ends with QUIT_GAME in the tick that handles the first quit request
   * (after FirstQuitRequest + 1 ticks), and that tick still advances the
   * generation, one advance more than the ticks before it made; without a quit
   * request it consumes the whole script and the flag is never QUIT_GAME.
   */
  lemma {:induction false} RunEndsAtFirstQuit(flag: Flag, polled: seq<Polled>)
    requires flag != QuitGame
    ensures var o, q := Run(flag, polled), FirstQuitRequest(polled);
            if q < |polled| then
              o.flag == QuitGame && o.ticks == q + 1 && o.advances == Run(flag, polled[..q]).advances + 1
            else o.flag != QuitGame && o.ticks == |polled|
    decreases |polled|
  {
    if polled != [] {
      var next := Transition(flag, polled[0]);
      QuitOnlyOnRequest(flag, polled[0]);
      if next != QuitGame {
        RunEndsAtFirstQuit(next, polled[1..]);
        var q := FirstQuitRequest(polled);
        if q < |polled| {
          assert polled[..q][0] == polled[0];
          assert polled[..q][1..] == polled[1..][..q - 1];
        }
      } else {
        assert polled[..0] == [];
      }
    }
  }

  /** While paused and no Escape or quit request arrives, every tick runs and none
      advances the generation. */
  lemma {:induction false} PauseDoesNotAdvance(polled: seq<Polled>)
    requires forall i :: 0 <= i < |polled| ==> !IsQuitRequest(polled[i]) && !IsEscape(polled[i])
    ensures Run(Pause, polled) == Outcome(Pause, |polled|, 0)
  {
    if polled != [] {
      OtherInputKeepsFlag(Pause, polled[0]);
      PauseDoesNotAdvance(polled[1..]);
    }
  }

  /** Without quit requests the flag after the whole script is decided by the parity of
      the Escape presses. */
  lemma {:induction false} EscapeParity(flag: Flag, polled: seq<Polled>)
    requires flag != QuitGame
    requires forall i :: 0 <= i < |polled| ==> !IsQuitRequest(polled[i])
    ensures Run(flag, polled).ticks == |polled|
    ensures Run(flag, polled).flag ==
              if EscapeCount(polled) % 2 == 0 then flag
              else if flag == Pause then Running else Pause
    decreases |polled|
  {
    if polled != [] {
      var next := Transition(flag, polled[0]);
      if !IsEscape(polled[0]) {
        OtherInputKeepsFlag(flag, polled[0]);
      }
      EscapeParity(next, polled[1..]);
    }
  }

  /** From RUNNING, without Escape presses, every tick advances the generation,
      including the one that handles the quit request. */
  lemma {:induction false} RunningAdvancesEveryTick(polled: seq<Polled>)
    requires forall i :: 0 <= i < |polled| ==> !IsEscape(polled[i])
    ensures Run(Running, polled).advances == Run(Running, polled).ticks
    decreases |polled|
  {
    if polled != [] {
      if !IsQuitRequest(polled[0]) {
        OtherInputKeepsFlag(Running, polled[0]);
        RunningAdvancesEveryTick(polled[1..]);
      }
    }
  }

  /** The three flag macros have distinct values, so the enumeration loses nothing. */
  lemma FlagCodesDistinct(f: Flag, g: Flag)
    ensures f.Code() == g.Code() <==> f == g
  {
  }
}
