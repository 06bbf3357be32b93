/** The line grammars of the log processor, one start-anchored pattern per event kind,
    written as atom lists for the matcher in `Patterns`. Both copies of the grammar file
    in the repository hold the same patterns. */
module Grammars {
  import opened Common
  import opened Patterns

  /** `L <timestamp>: ` */
  const HEADER: seq<Atom> := [Text("L "), Stamp, Text(": ")]

  /** `"name<uid><STEAM...>`: the name and the id after "STEAM" are captured, the uid is not. */
  const PLAYER: seq<Atom> :=
    [Text("\""), Greedy(Except('<'), 1, Unbounded), Text("<"), Greedy(Digit, 1, AtMost(3)),
     Text("><"), Text("STEAM"), Greedy(Except('>'), 1, Unbounded), Text(">")]

  const TEAMS: seq<string> := ["CT", "TERRORIST"]

  /** `<CT>"` or `<TERRORIST>"` */
  const TEAM: seq<Atom> := [Text("<"), OneOf(TEAMS), Text(">\"")]

  /** ` [x y z]`, each coordinate `-?\d{1,5}` */
  const POSITION: seq<Atom> :=
    [Text(" ["),
     Greedy(Only('-'), 0, AtMost(1)), Greedy(Digit, 1, AtMost(5)), Text(" "),
     Greedy(Only('-'), 0, AtMost(1)), Greedy(Digit, 1, AtMost(5)), Text(" "),
     Greedy(Only('-'), 0, AtMost(1)), Greedy(Digit, 1, AtMost(5)), Text("]")]

  const MATCH_START: seq<Atom> :=
    HEADER + [Text("World triggered \"Match_Start\" on \""), Greedy(Except('"'), 1, Unbounded), Text("\"")]

  const GAME_OVER: seq<Atom> :=
    HEADER + [Text("Game Over: "), Greedy(NonSpace, 1, Unbounded), Lazy(NotNewline), Text("score "),
              Greedy(Digit, 1, Unbounded), Text(":"), Greedy(Digit, 1, Unbounded), Text(" after "),
              Greedy(Digit, 1, Unbounded), Text(" min")]

  /** The teams a player may switch away from. */
  const SOURCE_TEAMS: seq<string> := ["Unassigned", "CT", "TERRORIST"]

  const SWITCHED_TEAM: seq<Atom> :=
    HEADER + PLAYER +
    [Text("\" switched from team <"), OneOf(SOURCE_TEAMS), Text("> to <"),
     OneOf(TEAMS), Text(">")]

  const ATTACK_TAIL: seq<Atom> :=
    [Text(" with \""), Greedy(Except('"'), 1, Unbounded),
     Text("\" (damage \""), Greedy(Digit, 1, Unbounded),
     Text("\") (damage_armor \""), Greedy(Digit, 1, Unbounded),
     Text("\") (health \""), Greedy(Digit, 1, Unbounded),
     Text("\") (armor \""), Greedy(Digit, 1, Unbounded),
     Text("\") (hitgroup \""), Greedy(Except('"'), 1, Unbounded), Text("\")")]

  const ATTACK: seq<Atom> :=
    HEADER + PLAYER + TEAM + POSITION + [Text(" attacked ")] + PLAYER + TEAM + POSITION + ATTACK_TAIL

  const WEAPON: seq<Atom> := [Text(" with \""), Greedy(Except('"'), 1, Unbounded), Text("\"")]

  const MODIFIER: seq<Atom> := [Text(" ("), Greedy(Except(')'), 1, Unbounded), Text(")")]

  const KILL: seq<Atom> :=
    HEADER + PLAYER + TEAM + POSITION + [Text(" killed ")] + PLAYER + TEAM + POSITION + WEAPON

  const ASSIST: seq<Atom> :=
    HEADER + PLAYER + TEAM + [Text(" assisted killing ")] + PLAYER + TEAM

  const SUICIDE: seq<Atom> :=
    HEADER + PLAYER + TEAM + POSITION +
    [Text(" committed suicide with \""), Greedy(Alnum, 1, AtMost(20)), Text("\"")]

  const BLINDED: seq<Atom> :=
    HEADER + PLAYER + TEAM +
    [Text(" blinded for "), Greedy(Digit, 1, AtMost(1)), Text("."), Greedy(Digit, 2, AtMost(2)), Text(" by ")] +
    PLAYER + TEAM + [Text(" from flashbang entindex "), Greedy(DigitOrSpace, 1, AtMost(5))]

  /** `Begin_Bomb_Defuse_With(?:out)?_Kit` tries the longer spelling first. */
  const BOMB_EVENTS: seq<string> :=
    ["Got_The_Bomb", "Dropped_The_Bomb", "Planted_The_Bomb", "Begin_Bomb_Defuse_Without_Kit",
     "Begin_Bomb_Defuse_With_Kit", "Defused_The_Bomb"]

  const BOMB: seq<Atom> :=
    HEADER + PLAYER + TEAM + [Text(" triggered \""), OneOf(BOMB_EVENTS), Text("\"")]

  const HOSTAGE_EVENTS: seq<string> := ["Touched_A_Hostage", "Rescued_A_Hostage", "Killed_A_Hostage"]

  const HOSTAGE: seq<Atom> :=
    HEADER + PLAYER + TEAM + [Text(" triggered \""), OneOf(HOSTAGE_EVENTS), Text("\"")]

  const CHICKEN: seq<Atom> :=
    HEADER + PLAYER + TEAM +
    [Text(" "), Lazy(NotNewline), Text(" killed other \"chicken"), Lazy(NotNewline)] + WEAPON

  /* ---- What the captures may contain ---- */

  predicate IsMapName(t: string) {
    |t| > 0 && AllIn(Except('"'), t)
  }

  predicate IsPlayerName(t: string) {
    |t| > 0 && AllIn(Except('<'), t)
  }

  /** The uncaptured user id `\d{1,3}`. */
  predicate IsUid(t: string) {
    1 <= |t| <= 3 && AllDigits(t)
  }

  /** `STEAM[^>]+` */
  predicate IsSteamId(t: string) {
    |t| > 5 && t[..5] == "STEAM" && AllIn(Except('>'), t)
  }

  predicate IsTeam(t: string) {
    t == "CT" || t == "TERRORIST"
  }

  datatype Actor = Actor(name: string, steamId: string, team: string)

  predicate ValidActor(a: Actor) {
    IsPlayerName(a.name) && IsSteamId(a.steamId) && IsTeam(a.team)
  }

  /** One coordinate `-?\d{1,5}`. */
  datatype Coord = Coord(negative: bool, digits: string)

  datatype Position = Position(x: Coord, y: Coord, z: Coord)

  predicate ValidCoord(c: Coord) {
    1 <= |c.digits| <= 5 && AllDigits(c.digits)
  }

  predicate ValidPosition(p: Position) {
    ValidCoord(p.x) && ValidCoord(p.y) && ValidCoord(p.z)
  }

  function Sign(c: Coord): string {
    if c.negative then "-" else ""
  }

  /** The captured text of a position, without its brackets. */
  function PositionText(p: Position): string {
    Concat([Sign(p.x), p.x.digits, " ", Sign(p.y), p.y.digits, " ", Sign(p.z), p.z.digits])
  }

  /* ---- Reading captures out of the pieces of a match ---- */

  lemma StampFits(P: seq<Atom>, ps: seq<string>)
    requires Fit(P, 0, ps) && |P| >= 3 && P[..3] == HEADER
    ensures IsTimestamp(ps[1])
  {
    assert P[1] == P[..3][1];
    assert Fits(P[0 + 1], ps[1]);
  }

  function ActorAt(ps: seq<string>, j: nat): Actor
    requires j + 11 <= |ps|
  {
    Actor(ps[j + 1], ps[j + 5] + ps[j + 6], ps[j + 9])
  }

  lemma PlayerFits(P: seq<Atom>, j: nat, ps: seq<string>)
    requires Fit(P, 0, ps) && j + 8 <= |P| && P[j..j + 8] == PLAYER
    ensures IsPlayerName(ps[j + 1]) && IsSteamId(ps[j + 5] + ps[j + 6])
  {
    assert P[j + 1] == P[j..j + 8][1] && P[j + 5] == P[j..j + 8][5] && P[j + 6] == P[j..j + 8][6];
    assert Fits(P[0 + (j + 1)], ps[j + 1]);
    assert Fits(P[0 + (j + 5)], ps[j + 5]);
    assert Fits(P[0 + (j + 6)], ps[j + 6]);
    var id := ps[j + 5] + ps[j + 6];
    assert id[..5] == "STEAM";
    forall m | 0 <= m < |id|
      ensures In(Except('>'), id[m])
    {
      if m >= 5 {
        assert id[m] == ps[j + 6][m - 5];
      }
    }
  }

  lemma TeamFits(P: seq<Atom>, j: nat, ps: seq<string>)
    requires Fit(P, 0, ps) && j + 3 <= |P| && P[j..j + 3] == TEAM
    ensures IsTeam(ps[j + 1])
  {
    assert P[j + 1] == P[j..j + 3][1];
    assert Fits(P[0 + (j + 1)], ps[j + 1]);
  }

  lemma ActorFits(P: seq<Atom>, j: nat, ps: seq<string>)
    requires Fit(P, 0, ps) && j + 11 <= |P| && P[j..j + 11] == PLAYER + TEAM
    ensures ValidActor(ActorAt(ps, j))
  {
    assert P[j..j + 8] == P[j..j + 11][..8];
    assert P[j + 8..j + 11] == P[j..j + 11][8..];
    PlayerFits(P, j, ps);
    TeamFits(P, j + 8, ps);
  }

  function CoordAt(ps: seq<string>, j: nat): Coord
    requires j + 2 <= |ps|
  {
    Coord(ps[j] == "-", ps[j + 1])
  }

  /** The position block starting at piece `j` (its opening ` [`). */
  function PositionAt(ps: seq<string>, j: nat): Position
    requires j + 10 <= |ps|
  {
    Position(CoordAt(ps, j + 1), CoordAt(ps, j + 4), CoordAt(ps, j + 7))
  }

  lemma CoordFits(P: seq<Atom>, j: nat, ps: seq<string>)
    requires Fit(P, 0, ps) && j + 2 <= |P|
    requires P[j] == Greedy(Only('-'), 0, AtMost(1)) && P[j + 1] == Greedy(Digit, 1, AtMost(5))
    ensures ValidCoord(CoordAt(ps, j)) && Sign(CoordAt(ps, j)) == ps[j]
  {
    assert Fits(P[0 + j], ps[j]);
    assert Fits(P[0 + (j + 1)], ps[j + 1]);
    if |ps[j]| == 1 {
      assert ps[j] == [ps[j][0]];
    }
  }

  lemma PositionFits(P: seq<Atom>, j: nat, ps: seq<string>)
    requires Fit(P, 0, ps) && j + 10 <= |P| && P[j..j + 10] == POSITION
    ensures ValidPosition(PositionAt(ps, j))
    ensures PositionText(PositionAt(ps, j)) == Concat(ps[j + 1..j + 9])
  {
    assert P[j + 1] == P[j..j + 10][1] && P[j + 2] == P[j..j + 10][2];
    assert P[j + 4] == P[j..j + 10][4] && P[j + 5] == P[j..j + 10][5];
    assert P[j + 7] == P[j..j + 10][7] && P[j + 8] == P[j..j + 10][8];
    assert P[j + 3] == P[j..j + 10][3] && P[j + 6] == P[j..j + 10][6];
    CoordFits(P, j + 1, ps);
    CoordFits(P, j + 4, ps);
    CoordFits(P, j + 7, ps);
    assert Fits(P[0 + (j + 3)], ps[j + 3]);
    assert Fits(P[0 + (j + 6)], ps[j + 6]);
    var p := PositionAt(ps, j);
    assert [Sign(p.x), p.x.digits, " ", Sign(p.y), p.y.digits, " ", Sign(p.z), p.z.digits] == ps[j + 1..j + 9];
  }

  lemma PieceFits(P: seq<Atom>, ps: seq<string>, j: nat)
    requires Fit(P, 0, ps) && j < |P|
    ensures Fits(P[j], ps[j])
  {
    assert Fits(P[0 + j], ps[j]);
  }

  lemma DigitsIn(t: string)
    requires AllIn(Digit, t)
    ensures AllDigits(t)
  {
    assert forall m :: 0 <= m < |t| ==> In(Digit, t[m]);
  }

  /* ---- match_start ---- */

  /** `match_start` captures the map name; `None` when the line does not match. */
  function MatchStart(line: string): (r: Option<string>)
    ensures r.Some? ==> IsMapName(r.value)
  {
    var ps :- Match(MATCH_START, 0, line, 0);
    PieceFits(MATCH_START, ps, 4);
    Some(ps[4])
  }

  /* ---- game_over ---- */

  /** Captures of `game_over`: timestamp, game mode, CT score, terrorist score, minutes. */
  datatype Outcome = Outcome(stamp: string, mode: string, ctScore: string, tScore: string, minutes: string)

  predicate ValidOutcome(o: Outcome) {
    IsTimestamp(o.stamp) && |o.mode| > 0 && AllIn(NonSpace, o.mode)
    && IsNumeral(o.ctScore) && IsNumeral(o.tScore) && IsNumeral(o.minutes)
  }

  function OutcomeOf(ps: seq<string>): Outcome
    requires |ps| == |GAME_OVER|
  {
    Outcome(ps[1], ps[4], ps[7], ps[9], ps[11])
  }

  lemma OutcomeFits(ps: seq<string>)
    requires Fit(GAME_OVER, 0, ps)
    ensures ValidOutcome(OutcomeOf(ps))
  {
    StampFits(GAME_OVER, ps);
    PieceFits(GAME_OVER, ps, 4);
    PieceFits(GAME_OVER, ps, 7);
    PieceFits(GAME_OVER, ps, 9);
    PieceFits(GAME_OVER, ps, 11);
    DigitsIn(ps[7]);
    DigitsIn(ps[9]);
    DigitsIn(ps[11]);
  }

  function GameOver(line: string): (r: Option<Outcome>)
    ensures r.Some? ==> ValidOutcome(r.value)
  {
    var ps :- Match(GAME_OVER, 0, line, 0);
    OutcomeFits(ps);
    Some(OutcomeOf(ps))
  }

  /* ---- switched_team ---- */

  function SwitchOf(ps: seq<string>): Actor
    requires |ps| == |SWITCHED_TEAM|
  {
    Actor(ps[4], ps[8] + ps[9], ps[14])
  }

  lemma SwitchFits(ps: seq<string>)
    requires Fit(SWITCHED_TEAM, 0, ps)
    ensures ValidActor(SwitchOf(ps))
  {
    PlayerFits(SWITCHED_TEAM, 3, ps);
    PieceFits(SWITCHED_TEAM, ps, 14);
  }

  /** `switched_team` captures the player's name, steam id and destination team. */
  function SwitchedTeam(line: string): (r: Option<Actor>)
    ensures r.Some? ==> ValidActor(r.value)
  {
    var ps :- Match(SWITCHED_TEAM, 0, line, 0);
    SwitchFits(ps);
    Some(SwitchOf(ps))
  }

  /* ---- attack ---- */

  /** The fifteen captures of `attack`. */
  datatype Hit = Hit(
    stamp: string,
    attacker: Actor, attackerAt: Position,
    victim: Actor, victimAt: Position,
    weapon: string, damage: string, damageArmor: string, health: string, armor: string,
    hitgroup: string)

  predicate IsQuoted(t: string) {
    |t| > 0 && AllIn(Except('"'), t)
  }

  predicate ValidHit(h: Hit) {
    IsTimestamp(h.stamp)
    && ValidActor(h.attacker) && ValidPosition(h.attackerAt)
    && ValidActor(h.victim) && ValidPosition(h.victimAt)
    && IsQuoted(h.weapon) && IsNumeral(h.damage) && IsNumeral(h.damageArmor)
    && IsNumeral(h.health) && IsNumeral(h.armor) && IsQuoted(h.hitgroup)
  }

  function HitOf(ps: seq<string>): Hit
    requires |ps| == |ATTACK|
  {
    Hit(ps[1], ActorAt(ps, 3), PositionAt(ps, 14), ActorAt(ps, 25), PositionAt(ps, 36),
        ps[47], ps[49], ps[51], ps[53], ps[55], ps[57])
  }

  lemma AttackerFits(ps: seq<string>)
    requires Fit(ATTACK, 0, ps)
    ensures IsTimestamp(ps[1]) && ValidActor(ActorAt(ps, 3)) && ValidPosition(PositionAt(ps, 14))
  {
    StampFits(ATTACK, ps);
    ActorFits(ATTACK, 3, ps);
    PositionFits(ATTACK, 14, ps);
  }

  lemma VictimFits(ps: seq<string>)
    requires Fit(ATTACK, 0, ps)
    ensures ValidActor(ActorAt(ps, 25)) && ValidPosition(PositionAt(ps, 36))
  {
    ActorFits(ATTACK, 25, ps);
    PositionFits(ATTACK, 36, ps);
  }

  lemma DamageFits(ps: seq<string>)
    requires Fit(ATTACK, 0, ps)
    ensures IsQuoted(ps[47]) && IsNumeral(ps[49]) && IsNumeral(ps[51])
    ensures IsNumeral(ps[53]) && IsNumeral(ps[55]) && IsQuoted(ps[57])
  {
    PieceFits(ATTACK, ps, 47);
    PieceFits(ATTACK, ps, 49);
    PieceFits(ATTACK, ps, 51);
    PieceFits(ATTACK, ps, 53);
    PieceFits(ATTACK, ps, 55);
    PieceFits(ATTACK, ps, 57);
    DigitsIn(ps[49]);
    DigitsIn(ps[51]);
    DigitsIn(ps[53]);
    DigitsIn(ps[55]);
  }

  lemma HitFits(ps: seq<string>)
    requires Fit(ATTACK, 0, ps)
    ensures ValidHit(HitOf(ps))
  {
    AttackerFits(ps);
    VictimFits(ps);
    DamageFits(ps);
  }

  function Attack(line: string): (r: Option<Hit>)
    ensures r.Some? ==> ValidHit(r.value)
  {
    var ps :- Match(ATTACK, 0, line, 0);
    HitFits(ps);
    Some(HitOf(ps))
  }

  /* ---- kill ---- */

  /** The captures of `kill`; the parenthesised modifier after the weapon is optional. */
  datatype Frag = Frag(
    stamp: string,
    killer: Actor, killerAt: Position,
    victim: Actor, victimAt: Position,
    weapon: string, modifier: Option<string>)

  predicate ValidFrag(f: Frag) {
    IsTimestamp(f.stamp)
    && ValidActor(f.killer) && ValidPosition(f.killerAt)
    && ValidActor(f.victim) && ValidPosition(f.victimAt)
    && IsQuoted(f.weapon)
    && (f.modifier.Some? ==> |f.modifier.value| > 0 && AllIn(Except(')'), f.modifier.value))
  }

  function FragOf(ps: seq<string>, modifier: Option<string>): Frag
    requires |ps| >= |KILL|
  {
    Frag(ps[1], ActorAt(ps, 3), PositionAt(ps, 14), ActorAt(ps, 25), PositionAt(ps, 36), ps[47], modifier)
  }

  /** Where the blocks of `kill` sit, with or without the modifier group. */
  predicate KillLayout(P: seq<Atom>) {
    |P| >= 48 && P[..3] == HEADER && P[3..14] == PLAYER + TEAM && P[14..24] == POSITION
    && P[25..36] == PLAYER + TEAM && P[36..46] == POSITION && P[47] == Greedy(Except('"'), 1, Unbounded)
  }

  lemma KillLayouts()
    ensures KillLayout(KILL) && KillLayout(KILL + MODIFIER)
  {
    assert KillLayout(KILL);
    var F := KILL + MODIFIER;
    assert F[..|KILL|] == KILL;
    assert F[..3] == F[..|KILL|][..3] && F[3..14] == F[..|KILL|][3..14] && F[14..24] == F[..|KILL|][14..24];
    assert F[25..36] == F[..|KILL|][25..36] && F[36..46] == F[..|KILL|][36..46] && F[47] == F[..|KILL|][47];
  }

  lemma KillerFits(P: seq<Atom>, ps: seq<string>)
    requires KillLayout(P) && Fit(P, 0, ps)
    ensures IsTimestamp(ps[1]) && ValidActor(ActorAt(ps, 3)) && ValidPosition(PositionAt(ps, 14))
  {
    StampFits(P, ps);
    ActorFits(P, 3, ps);
    PositionFits(P, 14, ps);
  }

  lemma KilledFits(P: seq<Atom>, ps: seq<string>)
    requires KillLayout(P) && Fit(P, 0, ps)
    ensures ValidActor(ActorAt(ps, 25)) && ValidPosition(PositionAt(ps, 36)) && IsQuoted(ps[47])
  {
    ActorFits(P, 25, ps);
    PositionFits(P, 36, ps);
    PieceFits(P, ps, 47);
  }

  /** With the optional group written out: the regex takes the group whenever the rest of
      the line allows it, and otherwise matches without it. */
  function Kill(line: string): (r: Option<Frag>)
    ensures r.Some? ==> ValidFrag(r.value)
  {
    match Match(KILL + MODIFIER, 0, line, 0)
    case Some(ps) =>
      KillLayouts();
      KillerFits(KILL + MODIFIER, ps);
      KilledFits(KILL + MODIFIER, ps);
      PieceFits(KILL + MODIFIER, ps, 50);
      Some(FragOf(ps, Some(ps[50])))
    case None =>
      var ps :- Match(KILL, 0, line, 0);
      KillLayouts();
      KillerFits(KILL, ps);
      KilledFits(KILL, ps);
      Some(FragOf(ps, None))
  }

  /* ---- assist ---- */

  datatype Assistance = Assistance(stamp: string, assister: Actor, victim: Actor)

  /** Where the two player blocks of `assist` sit. */
  lemma AssistLayout()
    ensures |ASSIST| == 26 && ASSIST[3..14] == PLAYER + TEAM && ASSIST[15..26] == PLAYER + TEAM
  {
  }

  function Assist(line: string): (r: Option<Assistance>)
    ensures r.Some? ==> IsTimestamp(r.value.stamp) && ValidActor(r.value.assister) && ValidActor(r.value.victim)
  {
    var ps :- Match(ASSIST, 0, line, 0);
    AssistLayout();
    StampFits(ASSIST, ps);
    ActorFits(ASSIST, 3, ps);
    ActorFits(ASSIST, 15, ps);
    Some(Assistance(ps[1], ActorAt(ps, 3), ActorAt(ps, 15)))
  }

  /* ---- suicide ---- */

  datatype Death = Death(stamp: string, player: Actor)

  function Suicide(line: string): (r: Option<Death>)
    ensures r.Some? ==> IsTimestamp(r.value.stamp) && ValidActor(r.value.player)
  {
    var ps :- Match(SUICIDE, 0, line, 0);
    StampFits(SUICIDE, ps);
    ActorFits(SUICIDE, 3, ps);
    Some(Death(ps[1], ActorAt(ps, 3)))
  }

  /* ---- blinded ---- */

  datatype Flash = Flash(stamp: string, blinded: Actor, duration: string, thrower: Actor)

  /** `\d\.\d{2}` */
  predicate IsFlashDuration(t: string) {
    |t| == 4 && IsDigit(t[0]) && t[1] == '.' && IsDigit(t[2]) && IsDigit(t[3])
  }

  lemma FlashFits(ps: seq<string>)
    requires Fit(BLINDED, 0, ps)
    ensures IsFlashDuration(ps[15] + ps[16] + ps[17])
  {
    PieceFits(BLINDED, ps, 15);
    PieceFits(BLINDED, ps, 16);
    PieceFits(BLINDED, ps, 17);
    assert In(Digit, ps[15][0]) && In(Digit, ps[17][0]) && In(Digit, ps[17][1]);
  }

  /** Where the two player blocks of `blinded` sit. */
  lemma BlindedLayout()
    ensures |BLINDED| == 32 && BLINDED[3..14] == PLAYER + TEAM && BLINDED[19..30] == PLAYER + TEAM
  {
  }

  function Blinded(line: string): (r: Option<Flash>)
    ensures r.Some? ==> IsTimestamp(r.value.stamp) && ValidActor(r.value.blinded)
    ensures r.Some? ==> IsFlashDuration(r.value.duration) && ValidActor(r.value.thrower)
  {
    var ps :- Match(BLINDED, 0, line, 0);
    BlindedLayout();
    StampFits(BLINDED, ps);
    ActorFits(BLINDED, 3, ps);
    ActorFits(BLINDED, 19, ps);
    FlashFits(ps);
    Some(Flash(ps[1], ActorAt(ps, 3), ps[15] + ps[16] + ps[17], ActorAt(ps, 19)))
  }

  /* ---- bomb and hostage ---- */

  /** An objective event: who triggered it and which one. */
  datatype Objective = Objective(stamp: string, player: Actor, event: string)

  function Bomb(line: string): (r: Option<Objective>)
    ensures r.Some? ==> IsTimestamp(r.value.stamp) && ValidActor(r.value.player)
    ensures r.Some? ==> r.value.event in BOMB_EVENTS
  {
    var ps :- Match(BOMB, 0, line, 0);
    StampFits(BOMB, ps);
    ActorFits(BOMB, 3, ps);
    PieceFits(BOMB, ps, 15);
    Some(Objective(ps[1], ActorAt(ps, 3), ps[15]))
  }

  function Hostage(line: string): (r: Option<Objective>)
    ensures r.Some? ==> IsTimestamp(r.value.stamp) && ValidActor(r.value.player)
    ensures r.Some? ==> r.value.event in HOSTAGE_EVENTS
  {
    var ps :- Match(HOSTAGE, 0, line, 0);
    StampFits(HOSTAGE, ps);
    ActorFits(HOSTAGE, 3, ps);
    PieceFits(HOSTAGE, ps, 15);
    Some(Objective(ps[1], ActorAt(ps, 3), ps[15]))
  }

  /* ---- chicken ---- */

  datatype ChickenKill = ChickenKill(stamp: string, player: Actor, weapon: string)

  function Chicken(line: string): (r: Option<ChickenKill>)
    ensures r.Some? ==> IsTimestamp(r.value.stamp) && ValidActor(r.value.player) && IsQuoted(r.value.weapon)
  {
    var ps :- Match(CHICKEN, 0, line, 0);
    StampFits(CHICKEN, ps);
    ActorFits(CHICKEN, 3, ps);
    PieceFits(CHICKEN, ps, 19);
    Some(ChickenKill(ps[1], ActorAt(ps, 3), ps[19]))
  }
}
