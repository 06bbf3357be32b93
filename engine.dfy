/** The library engine: `parse_line` tests a line against every grammar in a fixed
    order and updates the session state, and `run` feeds it the lines of each chunk
    read from the log. */
module Engine {
  import opened Common
  import opened Decimal
  import opened Patterns
  import opened Grammars
  import opened GrammarFacts
  import opened Utils
  import opened State
  import opened Text

  /* ---- Configuration ---- */

  datatype HashAlgo = MD5 | SHA1 | SHA256

  datatype SteamIdMapping = SteamIdMapping(steamId: string, name: string)

  /** A mapping for a Steam id takes precedence over the hash. */
  datatype SteamIdTranslation = SteamIdTranslation(
    active: bool, hash: Option<HashAlgo>, mappings: Option<seq<SteamIdMapping>>)

  datatype Config = Config(logDir: string, delay: nat, translation: Option<SteamIdTranslation>)

  /** `translate_steam_id(raw, config)`: how an id is translated is left open. */
  type Translator = (string, Config) -> string

  /* ---- One line ---- */

  /** The state after a line, and whether the source panics on it (an `unwrap` on a
      timestamp or a score that does not parse). On a panic, `state` is the state at
      the moment of the panic. */
  datatype Step = Step(state: Snapshot, panicked: bool)

  /** The twenty keys every attack event has. */
  const ATTACK_KEYS: set<string> := {
    "event_type", "timestamp", "player", "player_id", "player_team", "player_position",
    "player_lat_lon", "victim", "victim_id", "victim_team", "victim_position", "victim_lat_lon",
    "distance", "weapon", "damage_health", "damage_armor", "health_remaining", "armor_remaining",
    "hitgroup", "game_map"}

  const GAME_OVER_KEYS: set<string> := {"event_type", "timestamp", "game_map", "game_duration"}

  /** The detail map of an attack event. The latitude/longitude and distance helpers
      return the empty string; "self_inflicted" is added when the translated ids agree. */
  function AttackDetail(h: Hit, attackerId: string, victimId: string, epoch: int, mapName: string): map<string, string> {
    var detail := map[
      "event_type" := "attack",
      "player" := h.attacker.name, "player_team" := h.attacker.team,
      "player_position" := PositionText(h.attackerAt), "player_lat_lon" := "",
      "victim" := h.victim.name, "victim_team" := h.victim.team,
      "victim_position" := PositionText(h.victimAt), "victim_lat_lon" := "",
      "distance" := "", "weapon" := h.weapon,
      "damage_health" := h.damage, "damage_armor" := h.damageArmor,
      "health_remaining" := h.health, "armor_remaining" := h.armor, "hitgroup" := h.hitgroup,
      "game_map" := mapName, "player_id" := attackerId, "victim_id" := victimId,
      "timestamp" := IntToString(epoch)];
    if attackerId == victimId then detail["self_inflicted" := "true"] else detail
  }

  function GameOverDetail(o: Outcome, epoch: int, mapName: string): map<string, string> {
    map["event_type" := "game_over", "timestamp" := IntToString(epoch), "game_map" := mapName,
        "game_duration" := o.minutes]
  }

  /** Game modes without a winning team, whose scores are not parsed. */
  predicate Scoreless(mode: string) {
    mode == "gungameprogressive" || mode == "deathmatch"
  }

  function StartStep(s: Snapshot, line: string): Snapshot {
    match MatchStart(line)
    case Some(name) => FRESH.(gameMap := MapFromName(name))
    case None => s
  }

  function SwitchStep(s: Snapshot, line: string, config: Config, translate: Translator): Snapshot {
    match SwitchedTeam(line)
    case Some(a) =>
      var r := Reassign(Rosters(s.cts.players, s.ts.players), Player(a.name, translate(a.steamId, config)), a.team);
      s.(cts := s.cts.(players := r.cts), ts := s.ts.(players := r.ts))
    case None => s
  }

  /** An attack line with hit `h`: panics on an invalid timestamp, else records one
      event. */
  function OnAttack(s: Snapshot, h: Hit, config: Config, translate: Translator): Step
    requires ValidHit(h)
  {
    match TimestampToEpoch(h.stamp)
    case Some(epoch) =>
      var detail := AttackDetail(h, translate(h.attacker.steamId, config), translate(h.victim.steamId, config),
                                 epoch, s.gameMap.name);
      Step(s.(events := s.events + [Event(epoch, detail)]), false)
    case None => Step(s, true)
  }

  function AttackStep(s: Snapshot, line: string, config: Config, translate: Translator): Step {
    match Attack(line)
    case Some(h) => OnAttack(s, h, config, translate)
    case None => Step(s, false)
  }

  /** A game_over line with outcome `o`: panics on an invalid timestamp; else sets the
      mode, then panics if a score of a mode with a winner does not fit in 32 bits, and
      otherwise records one event. */
  function OnGameOver(s: Snapshot, o: Outcome): Step
    requires ValidOutcome(o)
  {
    match TimestampToEpoch(o.stamp)
    case Some(epoch) =>
      var s' := s.(mode := o.mode);
      if !Scoreless(o.mode) && (ParseU32(o.ctScore).None? || ParseU32(o.tScore).None?) then Step(s', true)
      else Step(s'.(events := s'.events + [Event(epoch, GameOverDetail(o, epoch, s.gameMap.name))]), false)
    case None => Step(s, true)
  }

  function GameOverStep(s: Snapshot, line: string): Step {
    match GameOver(line)
    case Some(o) => OnGameOver(s, o)
    case None => Step(s, false)
  }

  /** `parse_line` as a function of the state: match_start, switched_team and attack,
      then (after the grammars that are only logged) game_over, each applied to the
      state the previous one left. */
  function StepLine(s: Snapshot, line: string, config: Config, translate: Translator): Step {
    var s2 := SwitchStep(StartStep(s, line), line, config, translate);
    var r := AttackStep(s2, line, config, translate);
    if r.panicked then r else GameOverStep(r.state, line)
  }

  /* ---- What each kind of line does ---- */

  /** A match_start line replaces the whole state by a fresh one on the captured map. */
  lemma StepMatchStart(s: Snapshot, line: string, config: Config, translate: Translator)
    requires MatchStart(line).Some?
    ensures StepLine(s, line, config, translate) == Step(FRESH.(gameMap := MapFromName(MatchStart(line).value)), false)
  {
    DrivingExclusive(line);
  }

  /** A switched_team line changes only the player lists, as `Reassign` says for the
      player with the translated id; since the grammar only captures CT or TERRORIST,
      rosters that shared no player still share none and the player is in exactly the
      named one. */
  lemma StepSwitchedTeam(s: Snapshot, line: string, config: Config, translate: Translator)
    requires SwitchedTeam(line).Some?
    ensures var a := SwitchedTeam(line).value;
      var p := Player(a.name, translate(a.steamId, config));
      var r := StepLine(s, line, config, translate);
      var before, after := Rosters(s.cts.players, s.ts.players), Rosters(r.state.cts.players, r.state.ts.players);
      !r.panicked && after == Reassign(before, p, a.team)
      && r.state == s.(cts := r.state.cts, ts := r.state.ts)
      && r.state.cts.name == s.cts.name && r.state.ts.name == s.ts.name
      && (State.Exclusive(before) ==> State.Exclusive(after) && (p in after.cts <==> a.team == "CT")
                                                && (p in after.ts <==> a.team == "TERRORIST"))
  {
    var a := SwitchedTeam(line).value;
    DrivingExclusive(line);
    var before := Rosters(s.cts.players, s.ts.players);
    if State.Exclusive(before) {
      ReassignExclusive(before, Player(a.name, translate(a.steamId, config)), a.team);
    }
  }

  /** An attack line appends exactly one event carrying the parsed epoch and leaves the
      rest of the state alone, or panics, changing nothing, when the timestamp is not a
      valid date-time. */
  lemma StepAttack(s: Snapshot, line: string, config: Config, translate: Translator)
    requires Attack(line).Some?
    ensures var h := Attack(line).value;
      var r := StepLine(s, line, config, translate);
      match TimestampToEpoch(h.stamp)
      case None => r == Step(s, true)
      case Some(epoch) =>
        !r.panicked && r.state == s.(events := r.state.events)
        && r.state.events == s.events + [Event(epoch, AttackDetail(h, translate(h.attacker.steamId, config),
                                                                   translate(h.victim.steamId, config), epoch, s.gameMap.name))]
  {
    DrivingExclusive(line);
  }

  /** A game_over line whose timestamp is valid sets the mode; it then appends one event
      unless a score of a mode with a winner does not fit in 32 bits, in which case it
      panics with the mode already set. */
  lemma StepGameOver(s: Snapshot, line: string, config: Config, translate: Translator)
    requires GameOver(line).Some?
    ensures var o := GameOver(line).value;
      var r := StepLine(s, line, config, translate);
      match TimestampToEpoch(o.stamp)
      case None => r == Step(s, true)
      case Some(epoch) =>
        var overflow := !Scoreless(o.mode) && (ParseU32(o.ctScore).None? || ParseU32(o.tScore).None?);
        r.panicked == overflow
        && r.state == s.(mode := o.mode, events := r.state.events)
        && r.state.events == s.events + (if overflow then [] else [Event(epoch, GameOverDetail(o, epoch, s.gameMap.name))])
  {
    DrivingExclusive(line);
  }

  /** Any other line (including kill, assist, suicide, blinded, bomb, hostage and
      chicken lines, which are only logged) leaves the state as it was. */
  lemma StepOther(s: Snapshot, line: string, config: Config, translate: Translator)
    requires MatchStart(line).None? && SwitchedTeam(line).None? && Attack(line).None? && GameOver(line).None?
    ensures StepLine(s, line, config, translate) == Step(s, false)
  {
  }

  /** Only match_start replaces the state: after any other line the earlier events are
      still there, in order, with at most one new event after them. */
  lemma StepKeepsEvents(s: Snapshot, line: string, config: Config, translate: Translator)
    requires MatchStart(line).None?
    ensures var r := StepLine(s, line, config, translate);
      s.events <= r.state.events && |r.state.events| <= |s.events| + 1
  {
    DrivingExclusive(line);
  }

  /** An attack event has the twenty keys, plus "self_inflicted" when the translated
      ids of attacker and victim are equal. */
  lemma AttackDetailKeys(h: Hit, attackerId: string, victimId: string, epoch: int, mapName: string)
    ensures AttackDetail(h, attackerId, victimId, epoch, mapName).Keys
      == ATTACK_KEYS + (if attackerId == victimId then {"self_inflicted"} else {})
  {
  }

  /** "self_inflicted" is present, and then "true", exactly when the ids are equal. */
  lemma AttackDetailSelfInflicted(h: Hit, attackerId: string, victimId: string, epoch: int, mapName: string)
    ensures var d := AttackDetail(h, attackerId, victimId, epoch, mapName);
      ("self_inflicted" in d <==> attackerId == victimId)
      && (attackerId == victimId ==> d["self_inflicted"] == "true")
  {
  }

  /** Its timestamp is the decimal epoch, its ids the translated ids and its map the
      current map's name. */
  lemma AttackDetailValues(h: Hit, attackerId: string, victimId: string, epoch: int, mapName: string)
    ensures var d := AttackDetail(h, attackerId, victimId, epoch, mapName);
      "timestamp" in d && d["timestamp"] == IntToString(epoch) && "game_map" in d && d["game_map"] == mapName
      && "player_id" in d && d["player_id"] == attackerId && "victim_id" in d && d["victim_id"] == victimId
  {
  }

  /** Its type is "attack", and the geo helpers, which return the empty string, leave
      both latitude/longitude entries and the distance empty. */
  lemma AttackDetailConstants(h: Hit, attackerId: string, victimId: string, epoch: int, mapName: string)
    ensures var d := AttackDetail(h, attackerId, victimId, epoch, mapName);
      "event_type" in d && d["event_type"] == "attack"
      && "player_lat_lon" in d && d["player_lat_lon"] == "" && "victim_lat_lon" in d && d["victim_lat_lon"] == ""
      && "distance" in d && d["distance"] == ""
  {
  }

  lemma GameOverDetailShape(o: Outcome, epoch: int, mapName: string)
    ensures var d := GameOverDetail(o, epoch, mapName);
      d.Keys == GAME_OVER_KEYS && d["event_type"] == "game_over" && d["timestamp"] == IntToString(epoch)
      && d["game_map"] == mapName && d["game_duration"] == o.minutes
  {
  }

  /* ---- A chunk of lines ---- */

  /** The lines `run` hands to `parse_line` for one chunk: none when the chunk is not
      valid UTF-8 (`from_utf8(..).unwrap_or_default()`). */
  function ChunkLines(data: seq<byte>): seq<string> {
    match Decode(data)
    case Some(text) => Lines(text)
    case None => []
  }

  /** `parse_line` on each line in order, stopping at the first panic. */
  function RunLines(s: Snapshot, lines: seq<string>, config: Config, translate: Translator): Step
    decreases |lines|
  {
    if |lines| == 0 then Step(s, false)
    else
      var r := StepLine(s, lines[0], config, translate);
      if r.panicked then r else RunLines(r.state, lines[1..], config, translate)
  }

  lemma {:induction false} RunLinesSnoc(s: Snapshot, lines: seq<string>, line: string, config: Config, translate: Translator)
    ensures var r := RunLines(s, lines, config, translate);
      RunLines(s, lines + [line], config, translate)
        == (if r.panicked then r else StepLine(r.state, line, config, translate))
    decreases |lines|
  {
    if |lines| > 0 {
      assert (lines + [line])[0] == lines[0] && (lines + [line])[1..] == lines[1..] + [line];
      var r := StepLine(s, lines[0], config, translate);
      if !r.panicked {
        RunLinesSnoc(r.state, lines[1..], line, config, translate);
      }
    } else {
      assert lines + [line] == [line];
    }
  }

  /** A chunk that is not valid UTF-8 is dropped whole. */
  lemma InvalidChunkDropped(s: Snapshot, data: seq<byte>, config: Config, translate: Translator)
    requires Decode(data).None?
    ensures RunLines(s, ChunkLines(data), config, translate) == Step(s, false)
  {
  }

  /** A chunk holding newline-terminated log lines hands exactly those lines, in order,
      to `parse_line`. */
  lemma ChunkLinesRoundTrip(ls: seq<string>)
    requires forall l :: l in ls ==> NoNewline(l) && (|l| > 0 ==> l[|l| - 1] != '\r')
    ensures ChunkLines(EncodeAll(Terminated(ls))) == ls
  {
    DecodeEncode(Terminated(ls));
    LinesRoundTrip(ls);
  }

  /** Without a match_start line the events only accumulate: the state is never
      replaced, so events from before a game_over are kept after it. */
  lemma {:induction false} RunKeepsEvents(s: Snapshot, lines: seq<string>, config: Config, translate: Translator)
    requires forall l :: l in lines ==> MatchStart(l).None?
    ensures s.events <= RunLines(s, lines, config, translate).state.events
    decreases |lines|
  {
    if |lines| > 0 {
      assert lines[0] in lines;
      StepKeepsEvents(s, lines[0], config, translate);
      var r := StepLine(s, lines[0], config, translate);
      if !r.panicked {
        assert forall l :: l in lines[1..] ==> l in lines;
        RunKeepsEvents(r.state, lines[1..], config, translate);
      }
    }
  }

  /* ---- The engine ---- */

  class Engine {
    const state: GameState
    const config: Config
    const translate: Translator

    /** `Engine::new`; the log reader it also creates is the source of the chunks
        given to `RunChunk`. */
    constructor (config: Config, translate: Translator)
      ensures fresh(state) && state.Value() == FRESH
      ensures this.config == config && this.translate == translate
    {
      this.config := config;
      this.translate := translate;
      state := new GameState();
    }

    /** `parse_line`; returns whether the source panics on the line. */
    method ParseLine(line: string) returns (panicked: bool)
      modifies state
      ensures var r := StepLine(old(state.Value()), line, config, translate);
        state.Value() == r.state && panicked == r.panicked
    {
      ghost var s0 := state.Value();
      var start := MatchStart(line);
      if start.Some? {
        // A new match clears out everything.
        state.Reset();
        state.gameMap := MapFromName(start.value);
      }

      var switched := SwitchedTeam(line);
      if switched.Some? {
        var a := switched.value;
        state.AddPlayerToTeam(Player(a.name, translate(a.steamId, config)), a.team);
      }
      ghost var s2 := state.Value();
      assert s2 == SwitchStep(StartStep(s0, line), line, config, translate);

      var attack := Attack(line);
      if attack.Some? {
        panicked := RecordAttack(attack.value);
        if panicked {
          return;
        }
      }
      assert AttackStep(s2, line, config, translate) == Step(state.Value(), false);

      // kill, assist, suicide, blinded, bomb, hostage and chicken lines are only logged.

      var over := GameOver(line);
      if over.Some? {
        panicked := RecordGameOver(over.value);
      } else {
        panicked := false;
      }
    }

    /** The attack branch of `parse_line`. */
    method RecordAttack(h: Hit) returns (panicked: bool)
      requires ValidHit(h)
      modifies state
      ensures var r := OnAttack(old(state.Value()), h, config, translate);
        state.Value() == r.state && panicked == r.panicked
    {
      var epoch := TimestampToEpoch(h.stamp);
      if epoch.None? {
        return true;
      }
      var playerId := translate(h.attacker.steamId, config);
      var victimId := translate(h.victim.steamId, config);
      var detail := AttackDetail(h, playerId, victimId, epoch.value, state.gameMap.name);
      state.events := state.events + [Event(epoch.value, detail)];
      return false;
    }

    /** The game_over branch of `parse_line`. */
    method RecordGameOver(o: Outcome) returns (panicked: bool)
      requires ValidOutcome(o)
      modifies state
      ensures var r := OnGameOver(old(state.Value()), o);
        state.Value() == r.state && panicked == r.panicked
    {
      var epoch := TimestampToEpoch(o.stamp);
      if epoch.None? {
        return true;
      }
      state.mode := o.mode;
      var detail := GameOverDetail(o, epoch.value, state.gameMap.name);
      if !Scoreless(o.mode) {
        // Who won is only logged, but a score beyond `u32` panics.
        var ctScore := ParseU32(o.ctScore);
        if ctScore.None? {
          return true;
        }
        var tScore := ParseU32(o.tScore);
        if tScore.None? {
          return true;
        }
      }
      state.events := state.events + [Event(epoch.value, detail)];
      return false;
    }

    /** One round of `run`: decode the chunk, and if it is not empty parse its lines in
        order, counting them; a panic ends the run at the line that caused it. */
    method RunChunk(data: seq<byte>) returns (lineCount: nat, panicked: bool)
      modifies state
      ensures var lines := ChunkLines(data);
        var r := RunLines(old(state.Value()), lines, config, translate);
        state.Value() == r.state && panicked == r.panicked
        && lineCount <= |lines| && (!panicked ==> lineCount == |lines|)
        && (panicked ==> !RunLines(old(state.Value()), lines[..lineCount], config, translate).panicked)
    {
      var decoded := Decode(data);
      var text := if decoded.Some? then decoded.value else "";
      if text != "" {
        lineCount, panicked := ParseLines(Lines(text));
      } else {
        assert ChunkLines(data) == [];
        lineCount, panicked := 0, false;
      }
    }

    /** The `for` loop of `run` over the lines of one chunk. */
    method ParseLines(lines: seq<string>) returns (lineCount: nat, panicked: bool)
      modifies state
      ensures var r := RunLines(old(state.Value()), lines, config, translate);
        state.Value() == r.state && panicked == r.panicked
        && lineCount <= |lines| && (!panicked ==> lineCount == |lines|)
        && (panicked ==> !RunLines(old(state.Value()), lines[..lineCount], config, translate).panicked)
    {
      lineCount := 0;
      panicked := false;
      ghost var s0 := state.Value();
      while lineCount < |lines|
        invariant lineCount <= |lines|
        invariant RunLines(s0, lines[..lineCount], config, translate) == Step(state.Value(), false)
      {
        ghost var before := state.Value();
        panicked := ParseLine(lines[lineCount]);
        RunLinesExtend(s0, lines, lineCount, before, Step(state.Value(), panicked), config, translate);
        if panicked {
          return;
        }
        lineCount := lineCount + 1;
      }
      assert lines[..lineCount] == lines;
    }
  }

  /** One more line of a run that has not panicked: the run over the longer prefix ends
      with that line's step, and if the line panics so does the whole run. */
  lemma RunLinesExtend(s: Snapshot, lines: seq<string>, n: nat, st: Snapshot, r: Step, config: Config, translate: Translator)
    requires n < |lines| && RunLines(s, lines[..n], config, translate) == Step(st, false)
    requires r == StepLine(st, lines[n], config, translate)
    ensures RunLines(s, lines[..n + 1], config, translate) == r
    ensures r.panicked ==> RunLines(s, lines, config, translate) == r
  {
    RunLinesSnoc(s, lines[..n], lines[n], config, translate);
    assert lines[..n + 1] == lines[..n] + [lines[n]];
    if r.panicked {
      RunLinesPanicStays(s, lines, n + 1, config, translate);
    }
  }

  /** Once a prefix of the lines panics, the whole run ends with that same step. */
  lemma {:induction false} RunLinesPanicStays(s: Snapshot, lines: seq<string>, n: nat, config: Config, translate: Translator)
    requires n <= |lines| && RunLines(s, lines[..n], config, translate).panicked
    ensures RunLines(s, lines, config, translate) == RunLines(s, lines[..n], config, translate)
    decreases n
  {
    assert n > 0;
    var r := StepLine(s, lines[0], config, translate);
    assert lines[..n][0] == lines[0] && lines[..n][1..] == lines[1..][..n - 1];
    if !r.panicked {
      RunLinesPanicStays(r.state, lines[1..], n - 1, config, translate);
    }
  }
}
