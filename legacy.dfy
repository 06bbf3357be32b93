/** The older engine under `src/csgo`: the same grammars and timestamp conversion, a
    state whose map is a plain string and whose teams are unnamed, and a `parse_line`
    that only resets on match_start and records game_over; every other match is only
    logged. */
module Legacy {
  import opened Common
  import opened Decimal
  import opened Grammars
  import opened GrammarFacts
  import opened Utils
  import State
  import Lib = Engine
  import Text

  /** `translate_steam_id` of this engine: the id unchanged. */
  function TranslateSteamId(steamId: string): (r: string)
    ensures r == steamId
  {
    steamId
  }

  /** The state as a value: `map` is the map name itself. */
  datatype Snapshot = Snapshot(gameMap: string, mode: string, cts: State.Team, ts: State.Team, events: seq<State.Event>)

  /** `GameState::new`: unlike the library's, both teams have the empty name. */
  const INITIAL := Snapshot("", "", State.Team("", []), State.Team("", []), [])

  datatype Step = Step(state: Snapshot, panicked: bool)

  /** The game_over branch: the same detail map and panics as the library engine, with
      the map string as "game_map". */
  function OnGameOver(s: Snapshot, o: Outcome): Step
    requires ValidOutcome(o)
  {
    match TimestampToEpoch(o.stamp)
    case Some(epoch) =>
      var s' := s.(mode := o.mode);
      if !Lib.Scoreless(o.mode) && (ParseU32(o.ctScore).None? || ParseU32(o.tScore).None?) then Step(s', true)
      else Step(s'.(events := s'.events + [State.Event(epoch, Lib.GameOverDetail(o, epoch, s.gameMap))]), false)
    case None => Step(s, true)
  }

  /** `parse_line` as a function of the state. */
  function StepLine(s: Snapshot, line: string): Step {
    var s1 := match MatchStart(line) case Some(name) => INITIAL.(gameMap := name) case None => s;
    match GameOver(line)
    case Some(o) => OnGameOver(s1, o)
    case None => Step(s1, false)
  }

  /** A match_start line replaces the state by a fresh one whose map is the capture. */
  lemma StepMatchStart(s: Snapshot, line: string)
    requires MatchStart(line).Some?
    ensures StepLine(s, line) == Step(INITIAL.(gameMap := MatchStart(line).value), false)
  {
    DrivingExclusive(line);
  }

  /** A game_over line with a valid timestamp sets the mode, then appends the one
      event `GameOverDetail` builds (keys event_type, timestamp, game_map and
      game_duration), unless a score of a mode with a winner overflows `u32`, in
      which case the events are unchanged; an invalid timestamp panics before
      anything changes. */
  lemma StepGameOver(s: Snapshot, line: string)
    requires GameOver(line).Some?
    ensures var o := GameOver(line).value;
      var r := StepLine(s, line);
      match TimestampToEpoch(o.stamp)
      case None => r == Step(s, true)
      case Some(epoch) =>
        var overflow := !Lib.Scoreless(o.mode) && (ParseU32(o.ctScore).None? || ParseU32(o.tScore).None?);
        r.panicked == overflow
        && r.state == s.(mode := o.mode, events := r.state.events)
        && r.state.events == s.events + (if overflow then [] else [State.Event(epoch, Lib.GameOverDetail(o, epoch, s.gameMap))])
        && (!overflow ==> r.state.events[|s.events|].detail.Keys == Lib.GAME_OVER_KEYS
                          && r.state.events[|s.events|].detail["game_map"] == s.gameMap)
  {
    DrivingExclusive(line);
    var o := GameOver(line).value;
    if TimestampToEpoch(o.stamp).Some? {
      Lib.GameOverDetailShape(o, TimestampToEpoch(o.stamp).value, s.gameMap);
    }
  }

  /** Every other line, switched_team and attack lines included, leaves the state as
      it was. */
  lemma StepOther(s: Snapshot, line: string)
    requires MatchStart(line).None? && GameOver(line).None?
    ensures StepLine(s, line) == Step(s, false)
  {
  }

  /** `parse_line` on each line in order, stopping at the first panic. */
  function RunLines(s: Snapshot, lines: seq<string>): Step
    decreases |lines|
  {
    if |lines| == 0 then Step(s, false)
    else
      var r := StepLine(s, lines[0]);
      if r.panicked then r else RunLines(r.state, lines[1..])
  }

  lemma {:induction false} RunLinesSnoc(s: Snapshot, lines: seq<string>, line: string)
    ensures var r := RunLines(s, lines);
      RunLines(s, lines + [line]) == (if r.panicked then r else StepLine(r.state, line))
    decreases |lines|
  {
    if |lines| > 0 {
      assert (lines + [line])[0] == lines[0] && (lines + [line])[1..] == lines[1..] + [line];
      var r := StepLine(s, lines[0]);
      if !r.panicked {
        RunLinesSnoc(r.state, lines[1..], line);
      }
    } else {
      assert lines + [line] == [line];
    }
  }

  lemma {:induction false} RunLinesPanicStays(s: Snapshot, lines: seq<string>, n: nat)
    requires n <= |lines| && RunLines(s, lines[..n]).panicked
    ensures RunLines(s, lines) == RunLines(s, lines[..n])
    decreases n
  {
    assert n > 0;
    var r := StepLine(s, lines[0]);
    assert lines[..n][0] == lines[0] && lines[..n][1..] == lines[1..][..n - 1];
    if !r.panicked {
      RunLinesPanicStays(r.state, lines[1..], n - 1);
    }
  }

  /** Only game_over lines add events, one each, and nothing removes one before the
      next match_start. */
  lemma {:induction false} RunKeepsEvents(s: Snapshot, lines: seq<string>)
    requires forall l :: l in lines ==> MatchStart(l).None?
    ensures s.events <= RunLines(s, lines).state.events
    decreases |lines|
  {
    if |lines| > 0 {
      assert lines[0] in lines;
      var r := StepLine(s, lines[0]);
      if GameOver(lines[0]).Some? {
        StepGameOver(s, lines[0]);
      }
      if !r.panicked {
        assert forall l :: l in lines[1..] ==> l in lines;
        RunKeepsEvents(r.state, lines[1..]);
      }
    }
  }

  /** `GameState`, changed in place through its `*_mut` accessors. */
  class GameState {
    var gameMap: string
    var mode: string
    var cts: State.Team
    var ts: State.Team
    var events: seq<State.Event>

    function Value(): Snapshot
      reads this
    {
      Snapshot(gameMap, mode, cts, ts, events)
    }

    /** `GameState::new` */
    constructor ()
      ensures Value() == INITIAL
    {
      gameMap := "";
      mode := "";
      cts := State.Team("", []);
      ts := State.Team("", []);
      events := [];
    }

    /** Overwriting the owned state with `GameState::new()`. */
    method Reset()
      modifies this
      ensures Value() == INITIAL
    {
      gameMap := "";
      mode := "";
      cts := State.Team("", []);
      ts := State.Team("", []);
      events := [];
    }
  }

  class Engine {
    const delay: nat
    const state: GameState

    /** `Engine::new`; the log reader it creates is the source of the chunks given to
        `RunChunk`. */
    constructor (delay: nat)
      ensures fresh(state) && state.Value() == INITIAL && this.delay == delay
    {
      this.delay := delay;
      state := new GameState();
    }

    /** `parse_line`; returns whether the source panics on the line. */
    method ParseLine(line: string) returns (panicked: bool)
      modifies state
      ensures var r := StepLine(old(state.Value()), line);
        state.Value() == r.state && panicked == r.panicked
    {
      var start := MatchStart(line);
      if start.Some? {
        // A new match clears out everything.
        state.Reset();
        state.gameMap := start.value;
      }

      // switched_team, attack, kill, assist, suicide, blinded, bomb, hostage and
      // chicken lines are only logged.

      var over := GameOver(line);
      if over.Some? {
        panicked := RecordGameOver(over.value);
      } else {
        panicked := false;
      }
    }

    /** The game_over branch of `parse_line`. */
    method RecordGameOver(o: Outcome) returns (panicked: bool)
      requires ValidOutcome(o)
      modifies state
      ensures var r := OnGameOver(old(state.Value()), o);
        state.Value() == r.state && panicked == r.panicked
    {
      var epoch := TimestampToEpoch(o.stamp);
      if epoch.None? {
        return true;
      }
      state.mode := o.mode;
      var detail := Lib.GameOverDetail(o, epoch.value, state.gameMap);
      if !Lib.Scoreless(o.mode) {
        // Who won is only logged, but a score beyond `u32` panics.
        var ctScore := ParseU32(o.ctScore);
        if ctScore.None? {
          return true;
        }
        var tScore := ParseU32(o.tScore);
        if tScore.None? {
          return true;
        }
      }
      state.events := state.events + [State.Event(epoch.value, detail)];
      return false;
    }

    /** One round of `run`: a chunk that is not valid UTF-8 or is empty is skipped;
        otherwise its lines are parsed in order and counted. */
    method RunChunk(data: seq<byte>) returns (lineCount: nat, panicked: bool)
      modifies state
      ensures var lines := Lib.ChunkLines(data);
        var r := RunLines(old(state.Value()), lines);
        state.Value() == r.state && panicked == r.panicked
        && lineCount <= |lines| && (!panicked ==> lineCount == |lines|)
        && (panicked ==> !RunLines(old(state.Value()), lines[..lineCount]).panicked)
    {
      var decoded := Text.Decode(data);
      var text := if decoded.Some? then decoded.value else "";
      lineCount := 0;
      panicked := false;
      if text != "" {
        var lines := Text.Lines(text);
        assert lines == Lib.ChunkLines(data);
        while lineCount < |lines|
          invariant lineCount <= |lines|
          invariant RunLines(old(state.Value()), lines[..lineCount]) == Step(state.Value(), false)
        {
          RunLinesSnoc(old(state.Value()), lines[..lineCount], lines[lineCount]);
          assert lines[..lineCount + 1] == lines[..lineCount] + [lines[lineCount]];
          panicked := ParseLine(lines[lineCount]);
          if panicked {
            RunLinesPanicStays(old(state.Value()), lines, lineCount + 1);
            return;
          }
          lineCount := lineCount + 1;
        }
        assert lines[..lineCount] == lines;
      }
    }
  }
}
