# csgop-rs core, modelled in Dafny

csgop-rs processes Counter-Strike: Global Offensive server logs. This project models
its core and proves properties of the model:

- the regular-expression grammars that recognise log lines;
- the conversion of a log timestamp to a Unix epoch;
- the game state, with its team rosters and buffered events;
- the library engine's `parse_line` and the chunk loop of `run`;
- the older engine under `src/csgo`;
- its log-directory scan and its file watcher.

Modules, one file each:

- `common.dfy` (`Common`): bytes, `Option`, ASCII digit and space classes, and the
  timestamp shape `\d{2}/\d{2}/\d{4} - \d{2}:\d{2}:\d{2}`.
- `patterns.dfy` (`Patterns`): the fragment of the `regex` crate the grammars use. It is
  a leftmost-first backtracking matcher, proved sound and complete, and unique for
  deterministic patterns.
- `rgx.dfy` (`Grammars`): the eleven grammars as atom lists, plus one recogniser per
  grammar that returns the typed captures.
- `rgx_facts.dfy` (`GrammarFacts`): which grammars exclude each other, plus round trips and
  soundness for the grammars that drive the state.
- `decimal.dfy` (`Decimal`): digit strings, `to_string` and `parse::<u32>`.
- `utils.dfy` (`Utils`): `timestamp_to_epoch`, a chrono parse followed by the proleptic
  Gregorian epoch.
- `text.dfy` (`Text`): UTF-8 decoding (`from_utf8`) and `str::lines`.
- `state.dfy` (`State`): `Map`, `Player`, `Team`, `Event`, and the `GameState` class with
  `add_player_to_team`.
- `engine.dfy` (`Engine`): the library engine. Each `parse_line` branch is a pure step
  function, and the `Engine` class's methods are proved against those functions.
- `legacy.dfy` (`Legacy`): the older engine of `src/csgo/core.rs`.
- `logs.dfy` (`Logs`): `latest_log_file`, as an in-place sort and reverse on an array,
  and the `Watcher`.

A panic of the source, from an `unwrap` on a failed parse, is modelled as a `panicked`
flag. A panicking line leaves the state as it was at the moment of the panic, and the
run loop stops there.

## Model

| member | source | states |
|---|---|---|
| Patterns.Match | libs/csgo/src/rgx.rs:18-24 | a match returned by the matcher splits the text into one piece per atom, each piece allowed by its atom |
| Patterns.MatchFinds | libs/csgo/src/rgx.rs:18-24 | whenever the text can be split by the pattern, the matcher finds a match |
| Patterns.Unique | libs/csgo/src/rgx.rs:18-24 | a deterministic pattern splits a text in at most one way |
| Patterns.MatchExact | libs/csgo/src/rgx.rs:18-24 | for a deterministic pattern the captures are exactly the split that exists |
| Patterns.Exclusive | libs/csgo/src/rgx.rs:18-32 | two patterns that share a deterministic prefix and then require different characters never both match |
| Grammars.MatchStart | libs/csgo/src/rgx.rs:18-24 | a captured map name is non-empty and holds no `"` |
| Grammars.GameOver | libs/csgo/src/rgx.rs:26-32 | a capture has a well-formed timestamp, a non-empty mode without white space, and digit-only scores and minutes |
| Grammars.SwitchedTeam | libs/csgo/src/rgx.rs:34-40 | a capture has a name without `<`, a steam id starting with STEAM and no `>`, and team CT or TERRORIST |
| Grammars.Attack | libs/csgo/src/rgx.rs:42-48 | a capture has a timestamp, two valid actors with teams CT or TERRORIST, positions of up to five digits per axis, and digit-only damage, armour and health |
| Grammars.Kill | libs/csgo/src/rgx.rs:50-56 | a capture has a timestamp and two valid actors with positions |
| Grammars.Assist | libs/csgo/src/rgx.rs:58-64 | a capture has a timestamp and two valid actors |
| Grammars.Suicide | libs/csgo/src/rgx.rs:66-72 | a capture has a timestamp and a valid actor |
| Grammars.Blinded | libs/csgo/src/rgx.rs:74-80 | a capture has a timestamp, two valid actors and a duration of shape `d.dd` |
| Grammars.Bomb | libs/csgo/src/rgx.rs:82-88 | a capture has a timestamp, a valid actor and one of the six bomb events |
| Grammars.Hostage | libs/csgo/src/rgx.rs:90-96 | a capture has a timestamp, a valid actor and one of the three hostage events |
| Grammars.Chicken | libs/csgo/src/rgx.rs:98-104 | a capture has a timestamp, a valid actor and a weapon without `"` |
| GrammarFacts.AllHeaded | libs/csgo/src/rgx.rs:18-104 | any line matched by any of the eleven grammars starts with `L <timestamp>: ` |
| GrammarFacts.MatchStartGameOverExclusive | libs/csgo/src/rgx.rs:18-32 | no line is both a match_start and a game_over line |
| GrammarFacts.SwitchedTeamAttackExclusive | libs/csgo/src/rgx.rs:34-48 | no line is both a switched_team and an attack line |
| GrammarFacts.DrivingExclusive | libs/csgo/src/core.rs:84-266 | at most one of the four state-changing grammars matches any line, so `parse_line` takes at most one of its branches |
| GrammarFacts.MatchStartRoundTrip | libs/csgo/src/rgx.rs:18-24 | a match_start line written from any timestamp and map name captures exactly that name, whatever follows |
| GrammarFacts.MatchStartSound | libs/csgo/src/rgx.rs:18-24 | an accepted line begins with the match_start text written from its own timestamp and the captured name |
| GrammarFacts.SwitchedTeamRoundTrip | libs/csgo/src/rgx.rs:34-40 | a switch line written from any valid player, user id and source team captures exactly that player and destination team |
| GrammarFacts.SwitchedTeamSound | libs/csgo/src/rgx.rs:34-40 | an accepted line begins with a switch line written from the captured player, some user id and some source team |
| GrammarFacts.AttackRoundTrip | libs/csgo/src/rgx.rs:42-48 | an attack line written from any valid hit captures exactly that hit, all fifteen groups |
| GrammarFacts.GameOverFinds | libs/csgo/src/rgx.rs:26-32 | every written game-over line is recognised, with its own timestamp |
| GrammarFacts.GameOverSound | libs/csgo/src/rgx.rs:26-32 | an accepted line begins with a game-over line written from the captured outcome, and the captured timestamp is the line's own |
| Decimal.ToDecimal | libs/csgo/src/core.rs:146 | the decimal text of a number is a digit string with no leading zero |
| Decimal.DecimalRoundTrip | libs/csgo/src/core.rs:146 | reading back the decimal text of a number gives the number |
| Decimal.NumberRoundTrip | libs/csgo/src/core.rs:240-241 | writing the value of a digit string without leading zeros gives the string back |
| Decimal.IntToStringInjective | libs/csgo/src/core.rs:146 | two epochs with the same "timestamp" text are equal |
| Decimal.ParseU32RoundTrip | libs/csgo/src/core.rs:240-241 | `parse::<u32>` of a decimal text gives the number when it is at most 4294967295, and fails (and so panics) otherwise |
| Utils.ParseStamp | libs/csgo/src/utils.rs:6-10 | an accepted timestamp is a valid date and time |
| Utils.TimestampToEpoch | libs/csgo/src/utils.rs:6-10 | the conversion fails (the source panics) exactly when the chrono parse fails |
| Utils.ParseStampRoundTrip | libs/csgo/src/utils.rs:6-10 | parsing the text of any valid date and time up to year 9999 gives it back |
| Utils.ParseStampSound | libs/csgo/src/utils.rs:6-10 | whatever the parse accepts is the text of what it returns, except that a leap second 60 comes back as 59 |
| Utils.EpochOrigin | libs/csgo/src/utils.rs:18 | 1970-01-01 is day 0 |
| Utils.EpochDaysNext | libs/csgo/src/utils.rs:6-10 | the next calendar day is valid and numbered one higher |
| Utils.EpochDaysMonotonic | libs/csgo/src/utils.rs:6-10 | a later date has a larger day number |
| Utils.TimestampMonotonic | libs/csgo/src/utils.rs:6-10 | a later date-time has a strictly larger epoch, so distinct date-times never share an epoch |
| Utils.TimestampVectors | libs/csgo/src/utils.rs:17-21 | the three conversions of the unit test: 0, 1588628941 and 1617032370 |
| Utils.TimestampRejects | libs/csgo/src/utils.rs:6-10 | month 13, 29 February of a common year and hour 24 are refused |
| Utils.LeapSecondAlias | libs/csgo/src/utils.rs:6-10 | a leap second converts to the epoch of second 59 of the same minute |
| Text.DecodeEncode | libs/csgo/src/core.rs:43 | the UTF-8 encoding of any string decodes back to it |
| Text.EncodeDecode | libs/csgo/src/core.rs:43 | any byte sequence that decodes is the encoding of what it decodes to |
| Text.NewlineAt | libs/csgo/src/core.rs:51 | the line split point is the first newline, or the end of the text |
| Text.LinesHaveNoNewline | libs/csgo/src/core.rs:51 | no line handed to `parse_line` contains a newline |
| Text.LinesRoundTrip | libs/csgo/src/core.rs:51 | newline-terminated lines without a trailing carriage return split back into exactly those lines |
| Text.CarriageReturnDropped | libs/csgo/src/core.rs:51 | a line ended by CR LF is handed over without its CR |
| State.Without | libs/csgo/src/state.rs:137-143 | `retain` keeps exactly the players different from the removed one and never grows the roster |
| State.WithoutAppend | libs/csgo/src/state.rs:137-143 | removal distributes over concatenation |
| State.WithoutTwice | libs/csgo/src/state.rs:137-143 | removing twice is removing once |
| State.WithoutAbsent | libs/csgo/src/state.rs:137-143 | removing an absent player changes nothing |
| State.ReassignPlaces | libs/csgo/src/state.rs:135-157 | with team CT or TERRORIST, a player who was in at most one roster ends last in the named roster and in no other |
| State.ReassignUnknownTeam | libs/csgo/src/state.rs:154-156 | with any other team name the player ends in neither roster |
| State.ReassignInBoth | libs/csgo/src/state.rs:136-143 | a player in both rosters is removed only from CT, so it stays a terrorist |
| State.ReassignKeepsOthers | libs/csgo/src/state.rs:135-157 | every other player keeps their roster and their order |
| State.ReassignExclusive | libs/csgo/src/state.rs:135-157 | rosters sharing no player keep sharing none, and the player is then in the named roster and only there |
| State.GameState.constructor | libs/csgo/src/state.rs:85-93 | the new state has no map, no mode, empty rosters named CT and TERRORIST, and no events |
| State.GameState.Reset | libs/csgo/src/core.rs:88 | overwriting the state gives the new state |
| State.GameState.AddPlayerToTeam | libs/csgo/src/state.rs:135-162 | the rosters become `Reassign` of the old rosters; map, mode, events and team names are unchanged |
| Engine.StepMatchStart | libs/csgo/src/core.rs:84-92 | a match_start line replaces the whole state by a fresh one on the captured map, without panicking |
| Engine.StepSwitchedTeam | libs/csgo/src/core.rs:94-105 | a switch changes only the rosters, as `Reassign` does with the translated id; exclusive rosters stay exclusive, with the player exactly in the named team |
| Engine.StepAttack | libs/csgo/src/core.rs:107-183 | an attack appends exactly one event with the parsed epoch and its detail map; an invalid timestamp panics, changing nothing |
| Engine.StepGameOver | libs/csgo/src/core.rs:213-266 | a game-over line sets the mode, then appends one event unless a score of a mode with a winner overflows `u32`, which panics with the mode already set; an invalid timestamp panics, changing nothing |
| Engine.StepOther | libs/csgo/src/core.rs:185-211 | kill, assist, suicide, blinded, bomb, hostage, chicken and unmatched lines leave the state as it was |
| Engine.StepKeepsEvents | libs/csgo/src/core.rs:81-269 | a line other than match_start keeps the earlier events in order and adds at most one |
| Engine.AttackDetailKeys | libs/csgo/src/core.rs:144-177 | an attack event has exactly the twenty keys, plus "self_inflicted" when attacker and victim ids agree |
| Engine.AttackDetailSelfInflicted | libs/csgo/src/core.rs:149-151 | "self_inflicted" is present, with value "true", exactly when the translated ids are equal |
| Engine.AttackDetailValues | libs/csgo/src/core.rs:144-177 | "timestamp" is the decimal epoch, "game_map" is the current map's name, and "player_id" and "victim_id" are the translated ids |
| Engine.AttackDetailConstants | libs/csgo/src/core.rs:118-165 | "event_type" is "attack", and "player_lat_lon", "victim_lat_lon" and "distance" hold the empty string the geo helpers return |
| Engine.GameOverDetailShape | libs/csgo/src/core.rs:224-231 | a game-over event has exactly event_type "game_over", the decimal epoch, the map name and the captured minutes |
| Engine.RunLinesSnoc | libs/csgo/src/core.rs:51-65 | running one more line continues from where the earlier lines left the state, unless they panicked |
| Engine.RunLinesExtend | libs/csgo/src/core.rs:51-65 | after a clean prefix, running one more line ends with that line's step, and a panic there is the outcome of the whole chunk |
| Engine.RunLinesPanicStays | libs/csgo/src/core.rs:51-65 | after a panic no further line of the chunk has any effect |
| Engine.InvalidChunkDropped | libs/csgo/src/core.rs:40-43 | a chunk that is not valid UTF-8 changes nothing |
| Engine.ChunkLinesRoundTrip | libs/csgo/src/core.rs:40-51 | a chunk of encoded newline-terminated lines hands exactly those lines, in order, to `parse_line` |
| Engine.RunKeepsEvents | libs/csgo/src/core.rs:51-65 | without a match_start line, events only accumulate |
| Engine.Engine.constructor | libs/csgo/src/core.rs:24-31 | a new engine owns a fresh state |
| Engine.Engine.ParseLine | libs/csgo/src/core.rs:81-269 | the new state and the panic flag are those `StepLine` gives for the old state |
| Engine.Engine.RecordAttack | libs/csgo/src/core.rs:107-183 | the attack branch changes the state as `OnAttack` says |
| Engine.Engine.RecordGameOver | libs/csgo/src/core.rs:213-266 | the game-over branch changes the state as `OnGameOver` says |
| Engine.Engine.RunChunk | libs/csgo/src/core.rs:40-65 | the state after a chunk is that of `RunLines` over its decoded lines; without a panic every line is counted, and with one the lines before it ran cleanly |
| Engine.Engine.ParseLines | libs/csgo/src/core.rs:51-65 | the loop over a chunk's lines leaves the state `RunLines` gives, stopping at the first panic with the lines before it counted |
| Legacy.TranslateSteamId | src/csgo/utils.rs:2-4 | the id is returned unchanged |
| Legacy.StepMatchStart | src/csgo/core.rs:85-96 | a match_start line replaces the state by the initial one on the captured map name |
| Legacy.StepGameOver | src/csgo/core.rs:161-214 | a game-over line sets the mode, then appends exactly the game-over event (type, timestamp, map name, duration) unless a score overflows, which panics with the events unchanged; an invalid timestamp panics, changing nothing |
| Legacy.StepOther | src/csgo/core.rs:98-159 | every other line, switched_team and attack lines included, leaves the state as it was |
| Legacy.RunLinesSnoc | src/csgo/core.rs:51-65 | running one more line continues from where the earlier lines left the state, unless they panicked |
| Legacy.RunLinesPanicStays | src/csgo/core.rs:51-65 | after a panic no further line of the chunk has any effect |
| Legacy.RunKeepsEvents | src/csgo/core.rs:161-214 | without a match_start line, events only accumulate |
| Legacy.GameState.constructor | src/csgo/state.rs:54-62 | the initial state has an empty map, an empty mode, two unnamed empty teams and no events |
| Legacy.GameState.Reset | src/csgo/core.rs:90 | overwriting the state gives the initial state |
| Legacy.Engine.constructor | src/csgo/core.rs:25-31 | a new engine owns the initial state |
| Legacy.Engine.ParseLine | src/csgo/core.rs:82-217 | the new state and the panic flag are those `Legacy.StepLine` gives for the old state |
| Legacy.Engine.RecordGameOver | src/csgo/core.rs:161-214 | the game-over branch changes the state as `Legacy.OnGameOver` says |
| Legacy.Engine.RunChunk | src/csgo/core.rs:36-79 | the state after a chunk is that of `Legacy.RunLines` over its lines, stopping at the first panic |
| Logs.NameLeTotal | src/csgo/logs.rs:16 | the path order is total |
| Logs.NameLeTrans | src/csgo/logs.rs:16 | the path order is transitive |
| Logs.NameLeAntisymmetric | src/csgo/logs.rs:16 | the path order is antisymmetric |
| Logs.SortAscending | src/csgo/logs.rs:16 | the entries end sorted ascending and are a permutation of those before |
| Logs.MinFrom | src/csgo/logs.rs:16 | the returned index holds a least entry of the unsorted suffix |
| Logs.Reverse | src/csgo/logs.rs:17 | the entries end in reverse order |
| Logs.LatestLogFile | src/csgo/logs.rs:5-29 | an empty directory gives nothing; otherwise the result is one of the entries and no entry is greater |
| Logs.GreatestUnique | src/csgo/logs.rs:16-17 | the greatest entry is unique, so the result does not depend on how ties would be broken |
| Logs.ReadFromStart | src/csgo/logs.rs:64-72 | from position 0 the whole file is read, whatever its length |
| Logs.ReadAfterStart | src/csgo/logs.rs:85-94 | from elsewhere the bytes after the position are read, and only when the file grew past the recorded length |
| Logs.ReadMoves | src/csgo/logs.rs:74-80 | an empty read changes nothing; a non-empty one moves the position to the previously recorded length and records the current one |
| Logs.OpenedEmptyRereads | src/csgo/logs.rs:64-80 | a watcher opened on an empty file stays at position 0 and reads the whole file every time |
| Logs.Redelivers | src/csgo/logs.rs:98-101 | after reading past the recorded length, the next growth is read from that recorded length again, so those bytes come twice |
| Logs.RedeliveryExample | src/csgo/logs.rs:77-80 | opened on one byte, reads of the file at two and then three bytes deliver `[1, 2, 2, 3]` rather than `[1, 2, 3]` |
| Logs.FixedReadSync | src/csgo/logs.rs:56-106 | with the position moved to the end of each read, one read of a grown file brings the delivered bytes up to the whole file |
| Logs.FixedExactlyOnce | src/csgo/logs.rs:56-106 | with the fix, reading an append-only log delivers each byte exactly once, in order |
| Logs.FixedFromOpen | src/csgo/logs.rs:41-106 | with the fix, a watcher just opened on any file delivers exactly the last snapshot of a growing log |
| Logs.Watcher.constructor | src/csgo/logs.rs:41-54 | a new watcher starts at position 0 with the length at open recorded and a delay of 1 |
| Logs.Watcher.ReadLatest | src/csgo/logs.rs:56-106 | the bytes returned and the new position and recorded length are those `ReadStep` gives for the old ones |

## Left out

- Reading files, `std::fs`, the `Reader` and the sleep between reads are left out. `run`
  is modelled one chunk at a time (`RunChunk`); the chunk is a parameter, and so is
  each read of the watched file. An `io::Error` from `read_latest`, which `run` turns
  into an empty chunk, is not modelled separately.
- Logging, `serde_json` rendering of the state, the `dispatch` function and the JSON
  events are left out. `parse_line` always returns `None`, so `dispatch` is never
  reached.
- The geo module is left out. Its stubs return the empty string, and the engine writes
  that "" into every attack event under "player_lat_lon", "victim_lat_lon" and
  "distance"; `AttackDetail` writes it in their place.
- Steam id translation (`translate_steam_id`) is `todo!()` in the library, and its hash
  algorithms are not part of this model. It is a parameter of the library engine, along
  with the configuration it takes. The configuration's precedence rules and command-line
  parsing are left out.
- The command-line front end (`app/src/main.rs`, `cli.rs`) is not part of this model.
- `\d`, `\s` and `[^\s]` are modelled on ASCII digits and white space. The `regex` crate
  also accepts other Unicode digits and spaces.
- Utils.TimestampToEpoch: its precondition is the fixed-width shape the grammars
  guarantee. chrono's more lenient parse of other shapes is not modelled, because every
  caller passes a capture of that shape.
- Utils.TimestampToEpoch: the `i64` result is not bounded. A year of at most 9999
  cannot overflow it.
- GrammarFacts.GameOverFinds: it pins only the timestamp. Which mode and scores the
  lazy `.+?` captures depends on the text it skips, so they are not stated.
- Grammars.Kill, Grammars.Assist, Grammars.Suicide, Grammars.Blinded, Grammars.Bomb,
  Grammars.Hostage, Grammars.Chicken: they state only the validity of their captures. The
  engines log these lines and record nothing from them, so no round trip is proved.
- GrammarFacts.AttackRoundTrip: the converse is not proved, that is, that every accepted
  attack line begins with the text of its captures.
- Logs.LatestLogFile: `canonicalize` and the panics of `read_dir` are left out. Entries
  are file names compared character by character, which is `Path` ordering for plain
  file names in one directory.
- Logs.SortAscending: it is a selection sort. The source's stable sort differs only in
  the order of equal entries, and entries of one directory are distinct.
- Text.Lines follows `str::lines` of current Rust: a final line without a newline is
  kept, and a trailing CR is dropped only from a line ended by CR LF. Older Rust
  releases also dropped a bare CR at the end of an unterminated last line; that
  version difference is not modelled. It changes no capture and no state: the grammars
  are anchored only at the start, and every capturing group is followed by a literal,
  so a final CR lies outside every capture.
- The `u8` map scale and the `u64` file positions are unbounded naturals. No operation
  here reaches their limits.
- Concurrency and the web front end of the library are left out.

## Findings

| source | as written | input that shows it | evidently intended | confidence | as-written member | corrected member |
|---|---|---|---|---|---|---|
| src/csgo/logs.rs:77-80 and 98-101 | after a non-empty read the new seek position is the file length recorded at the previous read, not the end of what was read | a watcher opened on a 1-byte file, reading as the file grows to `[1, 2]` and then `[1, 2, 3]`, delivers `[1, 2, 2, 3]` | the position moves to the end of the data read, so each byte is delivered once | high (not executed) | Logs.RedeliveryExample | Logs.FixedExactlyOnce |
