/** What the line grammars guarantee: the header every pattern demands, which patterns
    exclude each other, and for the patterns that drive the game state, that the recogniser
    reads back exactly the fields a line was written from. */
module GrammarFacts {
  import opened Common
  import opened Patterns
  import opened Grammars

  /* ---- Determinism of the blocks the patterns are built from ---- */

  lemma HeaderDet()
    ensures Det(HEADER)
  {
    forall j | 0 <= j < |HEADER|
      ensures DetAt(HEADER, j)
    {
      assert j == 0 || j == 1 || j == 2;
    }
  }

  lemma PlayerDet()
    ensures Det(PLAYER)
  {
    forall j | 0 <= j < |PLAYER|
      ensures DetAt(PLAYER, j)
    {
      assert j == 0 || j == 1 || j == 2 || j == 3 || j == 4 || j == 5 || j == 6 || j == 7;
    }
  }

  lemma TeamsPrefixFree()
    ensures PrefixFree(TEAMS)
  {
    forall m, n | 0 <= m < |TEAMS| && 0 <= n < |TEAMS| && m != n
      ensures !(TEAMS[m] <= TEAMS[n])
    {
      assert TEAMS[m][0] != TEAMS[n][0];
    }
  }

  lemma TeamDet()
    ensures Det(TEAM)
  {
    TeamsPrefixFree();
    forall j | 0 <= j < |TEAM|
      ensures DetAt(TEAM, j)
    {
      assert j == 0 || j == 1 || j == 2;
    }
  }

  lemma PositionDet()
    ensures Det(POSITION)
  {
    forall j | 0 <= j < |POSITION|
      ensures DetAt(POSITION, j)
    {
      assert j == 0 || j == 1 || j == 2 || j == 3 || j == 4 || j == 5 || j == 6 || j == 7 || j == 8 || j == 9;
    }
  }

  lemma AttackTailDet()
    ensures Det(ATTACK_TAIL)
  {
    forall j | 0 <= j < |ATTACK_TAIL|
      ensures DetAt(ATTACK_TAIL, j)
    {
      assert j == 0 || j == 1 || j == 2 || j == 3 || j == 4 || j == 5 || j == 6 || j == 7 || j == 8
        || j == 9 || j == 10 || j == 11 || j == 12;
    }
  }

  lemma SingleDet(a: Atom)
    requires !a.Greedy? && !a.Lazy? && !a.OneOf?
    ensures Det([a])
  {
    assert DetAt([a], 0);
  }

  lemma MatchStartDet()
    ensures Det(MATCH_START)
  {
    var T := MATCH_START[3..];
    forall j | 0 <= j < |T|
      ensures DetAt(T, j)
    {
      assert j == 0 || j == 1 || j == 2;
    }
    HeaderDet();
    DetJoin(HEADER, T);
    assert HEADER + T == MATCH_START;
  }

  lemma SwitchedTeamDet()
    ensures Det(SWITCHED_TEAM)
  {
    var T := SWITCHED_TEAM[11..];
    assert T == [Text("\" switched from team <"), OneOf(SOURCE_TEAMS), Text("> to <"), OneOf(TEAMS), Text(">")];
    TeamsPrefixFree();
    forall j | 0 <= j < |T|
      ensures DetAt(T, j)
    {
      assert j == 0 || j == 1 || j == 2 || j == 3 || j == 4;
      if j == 1 {
        forall m, n | 0 <= m < 3 && 0 <= n < 3 && m != n
          ensures !(SOURCE_TEAMS[m] <= SOURCE_TEAMS[n])
        {
          assert SOURCE_TEAMS[m][0] != SOURCE_TEAMS[n][0];
        }
      }
    }
    HeaderDet();
    PlayerDet();
    DetJoin(HEADER, PLAYER);
    DetJoin(HEADER + PLAYER, T);
    assert HEADER + PLAYER + T == SWITCHED_TEAM;
  }

  lemma AttackDet()
    ensures Det(ATTACK)
  {
    HeaderDet();
    PlayerDet();
    TeamDet();
    PositionDet();
    AttackTailDet();
    var A := [Text(" attacked ")];
    SingleDet(Text(" attacked "));
    DetJoin(HEADER, PLAYER);
    DetJoin(HEADER + PLAYER, TEAM);
    DetJoin(HEADER + PLAYER + TEAM, POSITION);
    DetJoin(HEADER + PLAYER + TEAM + POSITION, A);
    DetJoin(HEADER + PLAYER + TEAM + POSITION + A, PLAYER);
    DetJoin(HEADER + PLAYER + TEAM + POSITION + A + PLAYER, TEAM);
    DetJoin(HEADER + PLAYER + TEAM + POSITION + A + PLAYER + TEAM, POSITION);
    DetJoin(HEADER + PLAYER + TEAM + POSITION + A + PLAYER + TEAM + POSITION, ATTACK_TAIL);
  }

  /* ---- The header every pattern demands ---- */

  /** `L `, a timestamp of the fixed digit shape, then `: `. */
  predicate Headed(line: string) {
    |line| >= 25 && line[..2] == "L " && IsTimestamp(line[2..23]) && line[23..25] == ": "
  }

  lemma SplitsHeaded(P: seq<Atom>, line: string, ps: seq<string>)
    requires |P| >= 3 && P[..3] == HEADER && Splits(P, 0, line, 0, ps)
    ensures Headed(line) && ps[1] == line[2..23]
  {
    assert P[0] == P[..3][0] && P[1] == P[..3][1] && P[2] == P[..3][2];
    SplitsHead(P, 0, line, 0, ps);
    SplitsHead(P, 1, line, 2, ps[1..]);
    SplitsHead(P, 2, line, 23, ps[2..]);
    AtIsSlice(line, 0, ps[0]);
    AtIsSlice(line, 2, ps[1]);
    AtIsSlice(line, 23, ps[2]);
  }

  lemma MatchHeaded(P: seq<Atom>, line: string)
    requires |P| >= 3 && P[..3] == HEADER && Match(P, 0, line, 0).Some?
    ensures Headed(line)
  {
    SplitsHeaded(P, line, Match(P, 0, line, 0).value);
  }

  lemma HeaderLayouts()
    ensures MATCH_START[..3] == HEADER && GAME_OVER[..3] == HEADER && SWITCHED_TEAM[..3] == HEADER
    ensures ATTACK[..3] == HEADER && KILL[..3] == HEADER && (KILL + MODIFIER)[..3] == HEADER
    ensures ASSIST[..3] == HEADER && SUICIDE[..3] == HEADER && BLINDED[..3] == HEADER
    ensures BOMB[..3] == HEADER && HOSTAGE[..3] == HEADER && CHICKEN[..3] == HEADER
  {
  }

  /** Whatever grammar a line matches, it starts with the same header. */
  lemma AllHeaded(line: string)
    ensures MatchStart(line).Some? || GameOver(line).Some? || SwitchedTeam(line).Some? || Attack(line).Some?
         || Kill(line).Some? || Assist(line).Some? || Suicide(line).Some? || Blinded(line).Some?
         || Bomb(line).Some? || Hostage(line).Some? || Chicken(line).Some?
       ==> Headed(line)
  {
    HeaderLayouts();
    if MatchStart(line).Some? { MatchHeaded(MATCH_START, line); }
    else if GameOver(line).Some? { MatchHeaded(GAME_OVER, line); }
    else if SwitchedTeam(line).Some? { MatchHeaded(SWITCHED_TEAM, line); }
    else if Attack(line).Some? { MatchHeaded(ATTACK, line); }
    else if Kill(line).Some? {
      if Match(KILL + MODIFIER, 0, line, 0).Some? {
        MatchHeaded(KILL + MODIFIER, line);
      } else {
        MatchHeaded(KILL, line);
      }
    }
    else if Assist(line).Some? { MatchHeaded(ASSIST, line); }
    else if Suicide(line).Some? { MatchHeaded(SUICIDE, line); }
    else if Blinded(line).Some? { MatchHeaded(BLINDED, line); }
    else if Bomb(line).Some? { MatchHeaded(BOMB, line); }
    else if Hostage(line).Some? { MatchHeaded(HOSTAGE, line); }
    else if Chicken(line).Some? { MatchHeaded(CHICKEN, line); }
  }

  /* ---- Patterns that exclude each other ---- */

  /** After the header one line says `World triggered`, the other `Game Over:`. */
  lemma MatchStartGameOverExclusive(line: string)
    ensures !(MatchStart(line).Some? && GameOver(line).Some?)
  {
    if MatchStart(line).Some? && GameOver(line).Some? {
      var ps, qs := Match(MATCH_START, 0, line, 0).value, Match(GAME_OVER, 0, line, 0).value;
      assert MATCH_START[..3] == HEADER == GAME_OVER[..3];
      assert forall j :: 0 <= j < 3 ==> MATCH_START[j] == HEADER[j] && GAME_OVER[j] == HEADER[j];
      Exclusive(MATCH_START, GAME_OVER, 3, 0, line, 0, ps, qs);
    }
  }

  /** Two grammars whose text right after the header starts differently never match
      the same line. */
  lemma HeadExclusive(P: seq<Atom>, Q: seq<Atom>, line: string)
    requires |P| > 3 && |Q| > 3 && P[..3] == HEADER && Q[..3] == HEADER
    requires P[3].Text? && Q[3].Text? && |P[3].t| > 0 && |Q[3].t| > 0 && P[3].t[0] != Q[3].t[0]
    ensures !(Match(P, 0, line, 0).Some? && Match(Q, 0, line, 0).Some?)
  {
    if Match(P, 0, line, 0).Some? && Match(Q, 0, line, 0).Some? {
      var ps, qs := Match(P, 0, line, 0).value, Match(Q, 0, line, 0).value;
      assert forall j :: 0 <= j < 3 ==> P[j] == HEADER[j] && Q[j] == HEADER[j];
      Exclusive(P, Q, 3, 0, line, 0, ps, qs);
    }
  }

  lemma Heads()
    ensures MATCH_START[3] == Text("World triggered \"Match_Start\" on \"")
    ensures GAME_OVER[3] == Text("Game Over: ")
    ensures SWITCHED_TEAM[3] == Text("\"") && ATTACK[3] == Text("\"")
  {
  }

  /** At most one of the four grammars that change the state matches any line. */
  lemma DrivingExclusive(line: string)
    ensures !(MatchStart(line).Some? && SwitchedTeam(line).Some?)
    ensures !(MatchStart(line).Some? && Attack(line).Some?)
    ensures !(MatchStart(line).Some? && GameOver(line).Some?)
    ensures !(SwitchedTeam(line).Some? && Attack(line).Some?)
    ensures !(SwitchedTeam(line).Some? && GameOver(line).Some?)
    ensures !(Attack(line).Some? && GameOver(line).Some?)
  {
    HeaderLayouts();
    Heads();
    HeadExclusive(MATCH_START, SWITCHED_TEAM, line);
    HeadExclusive(MATCH_START, ATTACK, line);
    HeadExclusive(SWITCHED_TEAM, GAME_OVER, line);
    HeadExclusive(ATTACK, GAME_OVER, line);
    MatchStartGameOverExclusive(line);
    SwitchedTeamAttackExclusive(line);
  }

  lemma SwitchedAttackLayout()
    ensures |SWITCHED_TEAM| > 11 && |ATTACK| > 11 && SWITCHED_TEAM[..11] == ATTACK[..11]
    ensures SWITCHED_TEAM[11] == Text("\" switched from team <") && ATTACK[11] == Text("<")
  {
    assert SWITCHED_TEAM[..11] == HEADER + PLAYER == ATTACK[..11];
  }

  /** After the player's id one line has `"`, the other `<` (the team). */
  lemma SwitchedTeamAttackExclusive(line: string)
    ensures !(SwitchedTeam(line).Some? && Attack(line).Some?)
  {
    if SwitchedTeam(line).Some? && Attack(line).Some? {
      var ps, qs := Match(SWITCHED_TEAM, 0, line, 0).value, Match(ATTACK, 0, line, 0).value;
      SwitchedTeamDet();
      AttackDet();
      SwitchedAttackLayout();
      Exclusive(SWITCHED_TEAM, ATTACK, 11, 0, line, 0, ps, qs);
    }
  }

  /* ---- Writing a line from its fields ---- */

  function HeaderPieces(stamp: string): seq<string> {
    ["L ", stamp, ": "]
  }

  function PlayerPieces(a: Actor, uid: string): seq<string>
    requires |a.steamId| >= 5
  {
    ["\"", a.name, "<", uid, "><", "STEAM", a.steamId[5..], ">"]
  }

  function TeamPieces(team: string): seq<string> {
    ["<", team, ">\""]
  }

  function PositionPieces(p: Position): seq<string> {
    [" [", Sign(p.x), p.x.digits, " ", Sign(p.y), p.y.digits, " ", Sign(p.z), p.z.digits, "]"]
  }

  lemma FitJoin(P: seq<Atom>, Q: seq<Atom>, ps: seq<string>, qs: seq<string>)
    requires Fit(P, 0, ps) && Fit(Q, 0, qs)
    ensures Fit(P + Q, 0, ps + qs)
  {
    forall j | 0 <= j < |ps + qs|
      ensures Fits((P + Q)[0 + j], (ps + qs)[j])
    {
      if j < |ps| {
        assert Fits(P[0 + j], ps[j]);
      } else {
        assert Fits(Q[0 + (j - |ps|)], qs[j - |ps|]);
      }
    }
  }

  lemma InDigits(t: string)
    requires AllDigits(t)
    ensures AllIn(Digit, t)
  {
    assert forall m :: 0 <= m < |t| ==> IsDigit(t[m]);
  }

  lemma HeaderPiecesFit(stamp: string)
    requires IsTimestamp(stamp)
    ensures Fit(HEADER, 0, HeaderPieces(stamp))
  {
    var ps := HeaderPieces(stamp);
    forall j | 0 <= j < 3
      ensures Fits(HEADER[0 + j], ps[j])
    {
      assert j == 0 || j == 1 || j == 2;
    }
  }

  lemma PlayerPiecesFit(a: Actor, uid: string)
    requires IsPlayerName(a.name) && IsSteamId(a.steamId) && IsUid(uid)
    ensures Fit(PLAYER, 0, PlayerPieces(a, uid))
  {
    var ps := PlayerPieces(a, uid);
    InDigits(uid);
    assert AllIn(Except('>'), a.steamId[5..]) by {
      forall m | 0 <= m < |a.steamId| - 5
        ensures In(Except('>'), a.steamId[5..][m])
      {
        assert a.steamId[5..][m] == a.steamId[m + 5];
      }
    }
    forall j | 0 <= j < 8
      ensures Fits(PLAYER[0 + j], ps[j])
    {
      assert j == 0 || j == 1 || j == 2 || j == 3 || j == 4 || j == 5 || j == 6 || j == 7;
    }
  }

  lemma TeamPiecesFit(team: string)
    requires IsTeam(team)
    ensures Fit(TEAM, 0, TeamPieces(team))
  {
    var ps := TeamPieces(team);
    forall j | 0 <= j < 3
      ensures Fits(TEAM[0 + j], ps[j])
    {
      assert j == 0 || j == 1 || j == 2;
    }
  }

  lemma SignFits(c: Coord)
    ensures Fits(Greedy(Only('-'), 0, AtMost(1)), Sign(c))
  {
  }

  lemma DigitsFit(c: Coord)
    requires ValidCoord(c)
    ensures Fits(Greedy(Digit, 1, AtMost(5)), c.digits)
  {
    InDigits(c.digits);
  }

  lemma PositionPiecesFit(p: Position)
    requires ValidPosition(p)
    ensures Fit(POSITION, 0, PositionPieces(p))
  {
    var ps := PositionPieces(p);
    SignFits(p.x);
    SignFits(p.y);
    SignFits(p.z);
    DigitsFit(p.x);
    DigitsFit(p.y);
    DigitsFit(p.z);
    forall j | 0 <= j < 10
      ensures Fits(POSITION[0 + j], ps[j])
    {
      assert j == 0 || j == 1 || j == 2 || j == 3 || j == 4 || j == 5 || j == 6 || j == 7 || j == 8 || j == 9;
    }
  }

  /* ---- match_start ---- */

  const MATCH_START_TEXT := "World triggered \"Match_Start\" on \""

  /** The line `L <stamp>: World triggered "Match_Start" on "<name>"`. */
  function MatchStartText(stamp: string, name: string): string {
    Concat(HeaderPieces(stamp) + [MATCH_START_TEXT, name, "\""])
  }

  lemma MatchStartFit(stamp: string, name: string)
    requires IsTimestamp(stamp) && IsMapName(name)
    ensures Fit(MATCH_START, 0, HeaderPieces(stamp) + [MATCH_START_TEXT, name, "\""])
  {
    var T, ts := MATCH_START[3..], [MATCH_START_TEXT, name, "\""];
    forall j | 0 <= j < 3
      ensures Fits(T[0 + j], ts[j])
    {
      assert j == 0 || j == 1 || j == 2;
    }
    HeaderPiecesFit(stamp);
    FitJoin(HEADER, T, HeaderPieces(stamp), ts);
    assert HEADER + T == MATCH_START;
  }

  /** Reading back: `match_start` captures exactly the name a line was written with,
      whatever follows it. */
  lemma MatchStartRoundTrip(stamp: string, name: string, rest: string)
    requires IsTimestamp(stamp) && IsMapName(name)
    ensures MatchStart(MatchStartText(stamp, name) + rest) == Some(name)
  {
    var ps := HeaderPieces(stamp) + [MATCH_START_TEXT, name, "\""];
    var line := Concat(ps) + rest;
    MatchStartFit(stamp, name);
    AtPrefix(line, Concat(ps));
    MatchStartDet();
    MatchExact(MATCH_START, line, 0, ps);
  }

  /** Conversely, a line `match_start` accepts begins with the text written from its
      timestamp and the captured name. */
  lemma MatchStartSound(line: string)
    requires MatchStart(line).Some?
    ensures Headed(line) && MatchStartText(line[2..23], MatchStart(line).value) <= line
  {
    var ps := Match(MATCH_START, 0, line, 0).value;
    HeaderLayouts();
    SplitsHeaded(MATCH_START, line, ps);
    PieceFits(MATCH_START, ps, 0);
    PieceFits(MATCH_START, ps, 2);
    PieceFits(MATCH_START, ps, 3);
    PieceFits(MATCH_START, ps, 5);
    assert ps == HeaderPieces(line[2..23]) + [MATCH_START_TEXT, ps[4], "\""];
    AtPrefix(line, Concat(ps));
  }

  /* ---- switched_team ---- */

  function SwitchedTeamPieces(stamp: string, a: Actor, uid: string, from: string): seq<string>
    requires |a.steamId| >= 5
  {
    HeaderPieces(stamp) + PlayerPieces(a, uid) + ["\" switched from team <", from, "> to <", a.team, ">"]
  }

  /** The line `L <stamp>: "<name><uid><STEAM...>" switched from team <from> to <team>`. */
  function SwitchedTeamText(stamp: string, a: Actor, uid: string, from: string): string
    requires |a.steamId| >= 5
  {
    Concat(SwitchedTeamPieces(stamp, a, uid, from))
  }

  lemma SwitchedTeamFit(stamp: string, a: Actor, uid: string, from: string)
    requires IsTimestamp(stamp) && ValidActor(a) && IsUid(uid) && from in SOURCE_TEAMS
    ensures Fit(SWITCHED_TEAM, 0, SwitchedTeamPieces(stamp, a, uid, from))
  {
    var T, ts := SWITCHED_TEAM[11..], ["\" switched from team <", from, "> to <", a.team, ">"];
    assert T == [Text("\" switched from team <"), OneOf(SOURCE_TEAMS), Text("> to <"), OneOf(TEAMS), Text(">")];
    forall j | 0 <= j < 5
      ensures Fits(T[0 + j], ts[j])
    {
      assert j == 0 || j == 1 || j == 2 || j == 3 || j == 4;
    }
    HeaderPiecesFit(stamp);
    PlayerPiecesFit(a, uid);
    FitJoin(HEADER, PLAYER, HeaderPieces(stamp), PlayerPieces(a, uid));
    FitJoin(HEADER + PLAYER, T, HeaderPieces(stamp) + PlayerPieces(a, uid), ts);
    assert HEADER + PLAYER + T == SWITCHED_TEAM;
  }

  lemma SteamIdSplit(id: string)
    requires IsSteamId(id)
    ensures "STEAM" + id[5..] == id
  {
    assert id == id[..5] + id[5..];
  }

  /** Reading back: `switched_team` captures exactly the player and destination team a
      line was written with, whatever follows it. */
  lemma SwitchedTeamRoundTrip(stamp: string, a: Actor, uid: string, from: string, rest: string)
    requires IsTimestamp(stamp) && ValidActor(a) && IsUid(uid) && from in SOURCE_TEAMS
    ensures SwitchedTeam(SwitchedTeamText(stamp, a, uid, from) + rest) == Some(a)
  {
    var ps := SwitchedTeamPieces(stamp, a, uid, from);
    var line := Concat(ps) + rest;
    SwitchedTeamFit(stamp, a, uid, from);
    AtPrefix(line, Concat(ps));
    SwitchedTeamDet();
    MatchExact(SWITCHED_TEAM, line, 0, ps);
    SteamIdSplit(a.steamId);
    assert SwitchOf(ps) == a;
  }

  /** The pieces of any `switched_team` match are those of a written switch. */
  lemma SwitchedTeamShape(ps: seq<string>)
    requires Fit(SWITCHED_TEAM, 0, ps)
    ensures IsUid(ps[6]) && ps[12] in SOURCE_TEAMS
    ensures ps == SwitchedTeamPieces(ps[1], SwitchOf(ps), ps[6], ps[12])
  {
    SwitchFits(ps);
    PieceFits(SWITCHED_TEAM, ps, 0);
    PieceFits(SWITCHED_TEAM, ps, 2);
    PieceFits(SWITCHED_TEAM, ps, 3);
    PieceFits(SWITCHED_TEAM, ps, 5);
    PieceFits(SWITCHED_TEAM, ps, 6);
    PieceFits(SWITCHED_TEAM, ps, 7);
    PieceFits(SWITCHED_TEAM, ps, 8);
    PieceFits(SWITCHED_TEAM, ps, 10);
    PieceFits(SWITCHED_TEAM, ps, 11);
    PieceFits(SWITCHED_TEAM, ps, 12);
    PieceFits(SWITCHED_TEAM, ps, 13);
    PieceFits(SWITCHED_TEAM, ps, 15);
    DigitsIn(ps[6]);
    assert (ps[8] + ps[9])[5..] == ps[9];
  }

  /** Conversely, a line `switched_team` accepts begins with a switch written from its
      timestamp, the captured player and some user id and source team. */
  lemma SwitchedTeamSound(line: string)
    requires SwitchedTeam(line).Some?
    ensures Headed(line)
    ensures exists uid, from :: IsUid(uid) && from in SOURCE_TEAMS
              && SwitchedTeamText(line[2..23], SwitchedTeam(line).value, uid, from) <= line
  {
    var ps := Match(SWITCHED_TEAM, 0, line, 0).value;
    HeaderLayouts();
    SplitsHeaded(SWITCHED_TEAM, line, ps);
    SwitchedTeamShape(ps);
    AtPrefix(line, Concat(ps));
  }

  /* ---- attack ---- */

  function TailPieces(h: Hit): seq<string> {
    [" with \"", h.weapon, "\" (damage \"", h.damage, "\") (damage_armor \"", h.damageArmor,
     "\") (health \"", h.health, "\") (armor \"", h.armor, "\") (hitgroup \"", h.hitgroup, "\")"]
  }

  function ActorPieces(a: Actor, uid: string): seq<string>
    requires |a.steamId| >= 5
  {
    PlayerPieces(a, uid) + TeamPieces(a.team)
  }

  function AttackPieces(h: Hit, attackerUid: string, victimUid: string): seq<string>
    requires |h.attacker.steamId| >= 5 && |h.victim.steamId| >= 5
  {
    HeaderPieces(h.stamp) + ActorPieces(h.attacker, attackerUid) + PositionPieces(h.attackerAt)
    + [" attacked "] + ActorPieces(h.victim, victimUid) + PositionPieces(h.victimAt) + TailPieces(h)
  }

  /** The line `L <stamp>: "<attacker>..." [x y z] attacked "<victim>..." [x y z] with "<weapon>" (damage ...)`. */
  function AttackText(h: Hit, attackerUid: string, victimUid: string): string
    requires |h.attacker.steamId| >= 5 && |h.victim.steamId| >= 5
  {
    Concat(AttackPieces(h, attackerUid, victimUid))
  }

  lemma TailPiecesFit(h: Hit)
    requires ValidHit(h)
    ensures Fit(ATTACK_TAIL, 0, TailPieces(h))
  {
    var ts := TailPieces(h);
    InDigits(h.damage);
    InDigits(h.damageArmor);
    InDigits(h.health);
    InDigits(h.armor);
    forall j | 0 <= j < 13
      ensures Fits(ATTACK_TAIL[0 + j], ts[j])
    {
      assert j == 0 || j == 1 || j == 2 || j == 3 || j == 4 || j == 5 || j == 6
        || j == 7 || j == 8 || j == 9 || j == 10 || j == 11 || j == 12;
    }
  }

  lemma ActorPiecesFit(a: Actor, uid: string)
    requires ValidActor(a) && IsUid(uid)
    ensures Fit(PLAYER + TEAM, 0, ActorPieces(a, uid))
  {
    PlayerPiecesFit(a, uid);
    TeamPiecesFit(a.team);
    FitJoin(PLAYER, TEAM, PlayerPieces(a, uid), TeamPieces(a.team));
  }

  lemma AttackFit(h: Hit, attackerUid: string, victimUid: string)
    requires ValidHit(h) && IsUid(attackerUid) && IsUid(victimUid)
    ensures Fit(ATTACK, 0, AttackPieces(h, attackerUid, victimUid))
  {
    var A, V := ActorPieces(h.attacker, attackerUid), ActorPieces(h.victim, victimUid);
    HeaderPiecesFit(h.stamp);
    ActorPiecesFit(h.attacker, attackerUid);
    ActorPiecesFit(h.victim, victimUid);
    PositionPiecesFit(h.attackerAt);
    PositionPiecesFit(h.victimAt);
    TailPiecesFit(h);
    assert Fit([Text(" attacked ")], 0, [" attacked "]) by {
      assert Fits([Text(" attacked ")][0 + 0], [" attacked "][0]);
    }
    FitJoin(HEADER, PLAYER + TEAM, HeaderPieces(h.stamp), A);
    FitJoin(HEADER + (PLAYER + TEAM), POSITION, HeaderPieces(h.stamp) + A, PositionPieces(h.attackerAt));
    FitJoin(HEADER + (PLAYER + TEAM) + POSITION, [Text(" attacked ")],
            HeaderPieces(h.stamp) + A + PositionPieces(h.attackerAt), [" attacked "]);
    FitJoin(HEADER + (PLAYER + TEAM) + POSITION + [Text(" attacked ")], PLAYER + TEAM,
            HeaderPieces(h.stamp) + A + PositionPieces(h.attackerAt) + [" attacked "], V);
    FitJoin(HEADER + (PLAYER + TEAM) + POSITION + [Text(" attacked ")] + (PLAYER + TEAM), POSITION,
            HeaderPieces(h.stamp) + A + PositionPieces(h.attackerAt) + [" attacked "] + V,
            PositionPieces(h.victimAt));
    FitJoin(HEADER + (PLAYER + TEAM) + POSITION + [Text(" attacked ")] + (PLAYER + TEAM) + POSITION, ATTACK_TAIL,
            HeaderPieces(h.stamp) + A + PositionPieces(h.attackerAt) + [" attacked "] + V
            + PositionPieces(h.victimAt), TailPieces(h));
    assert HEADER + (PLAYER + TEAM) + POSITION + [Text(" attacked ")] + (PLAYER + TEAM) + POSITION + ATTACK_TAIL
        == ATTACK;
  }

  lemma AttackPiecesActors(h: Hit, attackerUid: string, victimUid: string)
    requires IsSteamId(h.attacker.steamId) && IsSteamId(h.victim.steamId)
    ensures ActorAt(AttackPieces(h, attackerUid, victimUid), 3) == h.attacker
    ensures ActorAt(AttackPieces(h, attackerUid, victimUid), 25) == h.victim
  {
    SteamIdSplit(h.attacker.steamId);
    SteamIdSplit(h.victim.steamId);
  }

  lemma AttackPiecesRest(h: Hit, attackerUid: string, victimUid: string)
    requires IsSteamId(h.attacker.steamId) && IsSteamId(h.victim.steamId)
    ensures var ps := AttackPieces(h, attackerUid, victimUid);
      ps[1] == h.stamp && PositionAt(ps, 14) == h.attackerAt && PositionAt(ps, 36) == h.victimAt
      && ps[47] == h.weapon && ps[49] == h.damage && ps[51] == h.damageArmor
      && ps[53] == h.health && ps[55] == h.armor && ps[57] == h.hitgroup
  {
  }

  /** Reading back: `attack` captures exactly the hit a line was written from,
      whatever follows it. */
  lemma AttackRoundTrip(h: Hit, attackerUid: string, victimUid: string, rest: string)
    requires ValidHit(h) && IsUid(attackerUid) && IsUid(victimUid)
    ensures Attack(AttackText(h, attackerUid, victimUid) + rest) == Some(h)
  {
    var ps := AttackPieces(h, attackerUid, victimUid);
    var line := Concat(ps) + rest;
    AttackFit(h, attackerUid, victimUid);
    AtPrefix(line, Concat(ps));
    AttackDet();
    MatchExact(ATTACK, line, 0, ps);
    AttackPiecesActors(h, attackerUid, victimUid);
    AttackPiecesRest(h, attackerUid, victimUid);
  }

  /* ---- game_over ---- */

  /** A game-over line: the mode, any text the lazy `.+?` skips, then the scores and
      duration. */
  function GameOverPieces(o: Outcome, filler: string): seq<string> {
    HeaderPieces(o.stamp)
    + ["Game Over: ", o.mode, filler, "score ", o.ctScore, ":", o.tScore, " after ", o.minutes, " min"]
  }

  function GameOverText(o: Outcome, filler: string): string {
    Concat(GameOverPieces(o, filler))
  }

  predicate IsFiller(t: string) {
    |t| > 0 && AllIn(NotNewline, t)
  }

  lemma GameOverFit(o: Outcome, filler: string)
    requires ValidOutcome(o) && IsFiller(filler)
    ensures Fit(GAME_OVER, 0, GameOverPieces(o, filler))
  {
    var T := GAME_OVER[3..];
    var ts := ["Game Over: ", o.mode, filler, "score ", o.ctScore, ":", o.tScore, " after ", o.minutes, " min"];
    InDigits(o.ctScore);
    InDigits(o.tScore);
    InDigits(o.minutes);
    forall j | 0 <= j < 10
      ensures Fits(T[0 + j], ts[j])
    {
      assert j == 0 || j == 1 || j == 2 || j == 3 || j == 4 || j == 5 || j == 6 || j == 7 || j == 8 || j == 9;
    }
    HeaderPiecesFit(o.stamp);
    FitJoin(HEADER, T, HeaderPieces(o.stamp), ts);
    assert HEADER + T == GAME_OVER;
  }

  /** Every written game-over line is recognised, with its own timestamp. Which mode
      and scores are captured depends on the filler the lazy group skips. */
  lemma GameOverFinds(o: Outcome, filler: string, rest: string)
    requires ValidOutcome(o) && IsFiller(filler)
    ensures GameOver(GameOverText(o, filler) + rest).Some?
    ensures GameOver(GameOverText(o, filler) + rest).value.stamp == o.stamp
  {
    var ps := GameOverPieces(o, filler);
    var line := Concat(ps) + rest;
    GameOverFit(o, filler);
    AtPrefix(line, Concat(ps));
    MatchFinds(GAME_OVER, 0, line, 0, ps);
    HeaderLayouts();
    SplitsHeaded(GAME_OVER, line, ps);
    SplitsHeaded(GAME_OVER, line, Match(GAME_OVER, 0, line, 0).value);
  }

  lemma GameOverShape(ps: seq<string>)
    requires Fit(GAME_OVER, 0, ps)
    ensures IsFiller(ps[5]) && ps == GameOverPieces(OutcomeOf(ps), ps[5])
  {
    PieceFits(GAME_OVER, ps, 0);
    PieceFits(GAME_OVER, ps, 2);
    PieceFits(GAME_OVER, ps, 3);
    PieceFits(GAME_OVER, ps, 5);
    PieceFits(GAME_OVER, ps, 6);
    PieceFits(GAME_OVER, ps, 8);
    PieceFits(GAME_OVER, ps, 10);
    PieceFits(GAME_OVER, ps, 12);
  }

  /** Conversely, a line `game_over` accepts begins with a game-over line written from
      the captured outcome, whose timestamp is the line's own. */
  lemma GameOverSound(line: string)
    requires GameOver(line).Some?
    ensures Headed(line) && GameOver(line).value.stamp == line[2..23]
    ensures exists filler :: IsFiller(filler) && GameOverText(GameOver(line).value, filler) <= line
  {
    var ps := Match(GAME_OVER, 0, line, 0).value;
    HeaderLayouts();
    SplitsHeaded(GAME_OVER, line, ps);
    GameOverShape(ps);
    AtPrefix(line, Concat(ps));
  }
}
