/** The session state of the library engine: the map being played, the game mode, the
    two team rosters and the buffered events, together with the roster update
    `add_player_to_team`. */
module State {

  /** A point of the map grid. */
  datatype Point = Point(x: int, y: int, z: int)

  /** A map: its name, grid origin and scale (a `u8` in the source). */
  datatype Map = Map(name: string, origin: Point, scale: nat)

  /** `Map::new`: the unnamed map. */
  const NO_MAP := Map("", Point(0, 0, 0), 0)

  /** `Map::from_name`: every named map gets the same fixed origin and scale. */
  function MapFromName(name: string): Map {
    Map(name, Point(1, 2, 0), 14)
  }

  /** Players compare equal exactly when both name and id are equal, as Dafny's
      structural equality on this datatype does. */
  datatype Player = Player(name: string, id: string)

  datatype Team = Team(name: string, players: seq<Player>)

  /** An event: its epoch and its string-to-string detail map. */
  datatype Event = Event(epoch: int, detail: map<string, string>)

  /** The whole state as a value. */
  datatype Snapshot = Snapshot(gameMap: Map, mode: string, cts: Team, ts: Team, events: seq<Event>)

  /** `GameState::new`: no map, no mode, empty rosters named "CT" and "TERRORIST", no
      events. */
  const FRESH := Snapshot(NO_MAP, "", Team("CT", []), Team("TERRORIST", []), [])

  /* ---- Rosters ---- */

  /** `players.retain(|q| q != p)`: the roster without `p`, order kept. */
  function Without(s: seq<Player>, p: Player): (r: seq<Player>)
    ensures forall q :: q in r <==> q in s && q != p
    ensures |r| <= |s|
  {
    if |s| == 0 then [] else (if s[0] == p then [] else [s[0]]) + Without(s[1..], p)
  }

  datatype Rosters = Rosters(cts: seq<Player>, ts: seq<Player>)

  /** What `add_player_to_team` does to the rosters: first `p` is removed from the CT
      roster if it is there, and only otherwise from the terrorist roster; then it is
      appended to the roster the team name names, or to none for any other name. */
  function Reassign(r: Rosters, p: Player, team: string): Rosters {
    var cleared :=
      if p in r.cts then r.(cts := Without(r.cts, p))
      else if p in r.ts then r.(ts := Without(r.ts, p))
      else r;
    if team == "CT" then cleared.(cts := cleared.cts + [p])
    else if team == "TERRORIST" then cleared.(ts := cleared.ts + [p])
    else cleared
  }

  /** No player is in both rosters. */
  predicate Exclusive(r: Rosters) {
    forall q :: q in r.cts ==> q !in r.ts
  }

  lemma {:induction false} WithoutAppend(s: seq<Player>, t: seq<Player>, p: Player)
    ensures Without(s + t, p) == Without(s, p) + Without(t, p)
  {
    if |s| > 0 {
      var h := if s[0] == p then [] else [s[0]];
      assert (s + t)[0] == s[0] && (s + t)[1..] == s[1..] + t;
      assert Without(s + t, p) == h + Without(s[1..] + t, p);
      assert Without(s, p) == h + Without(s[1..], p);
      WithoutAppend(s[1..], t, p);
      assert h + (Without(s[1..], p) + Without(t, p)) == h + Without(s[1..], p) + Without(t, p);
    } else {
      assert s + t == t;
    }
  }

  lemma {:induction false} WithoutTwice(s: seq<Player>, p: Player)
    ensures Without(Without(s, p), p) == Without(s, p)
  {
    if |s| > 0 {
      WithoutAppend(if s[0] == p then [] else [s[0]], Without(s[1..], p), p);
      WithoutTwice(s[1..], p);
    }
  }

  lemma {:induction false} WithoutAbsent(s: seq<Player>, p: Player)
    requires p !in s
    ensures Without(s, p) == s
  {
    if |s| > 0 {
      assert s[0] in s;
      assert forall q :: q in s[1..] ==> q in s;
      WithoutAbsent(s[1..], p);
      assert [s[0]] + s[1..] == s;
    }
  }

  lemma WithoutLast(s: seq<Player>, p: Player)
    ensures Without(s + [p], p) == Without(s, p)
  {
    WithoutAppend(s, [p], p);
    assert Without([p], p) == [];
  }

  /** With team "CT" or "TERRORIST", a player who was in at most one roster ends as the
      last member of the named roster and in no other. */
  lemma ReassignPlaces(r: Rosters, p: Player, team: string)
    requires team == "CT" || team == "TERRORIST"
    requires !(p in r.cts && p in r.ts)
    ensures var r' := Reassign(r, p, team);
      if team == "CT" then r'.cts[|r'.cts| - 1] == p && p !in r'.ts
      else r'.ts[|r'.ts| - 1] == p && p !in r'.cts
  {
  }

  /** With any other team name the removal has already happened, so the player ends in
      neither roster. */
  lemma ReassignUnknownTeam(r: Rosters, p: Player, team: string)
    requires team != "CT" && team != "TERRORIST"
    requires !(p in r.cts && p in r.ts)
    ensures var r' := Reassign(r, p, team); p !in r'.cts && p !in r'.ts
  {
  }

  /** Only the CT roster is cleaned when a player is in both, so such a player stays a
      terrorist even when moved to CT. */
  lemma ReassignInBoth(r: Rosters, p: Player, team: string)
    requires p in r.cts && p in r.ts
    ensures p in Reassign(r, p, team).ts
  {
  }

  /** Clearing `p` from a roster, or not, and then appending it, or not, leaves the
      roster without `p` as it was. */
  lemma ClearThenAdd(s: seq<Player>, p: Player, clear: bool, add: bool)
    ensures var c := if clear then Without(s, p) else s;
      Without(if add then c + [p] else c, p) == Without(s, p)
  {
    var c := if clear then Without(s, p) else s;
    if clear { WithoutTwice(s, p); }
    if add { WithoutLast(c, p); }
  }

  /** Every other player stays where they were, in the same order: removing `p` from
      the rosters before and after gives the same sequences. */
  lemma ReassignKeepsOthers(r: Rosters, p: Player, team: string)
    ensures var r' := Reassign(r, p, team);
      Without(r'.cts, p) == Without(r.cts, p) && Without(r'.ts, p) == Without(r.ts, p)
  {
    ClearThenAdd(r.cts, p, p in r.cts, team == "CT");
    ClearThenAdd(r.ts, p, p !in r.cts && p in r.ts, team == "TERRORIST");
  }

  /** Rosters that share no player keep sharing none, and the moved player is then in
      exactly the named roster. */
  lemma ReassignExclusive(r: Rosters, p: Player, team: string)
    requires Exclusive(r)
    requires team == "CT" || team == "TERRORIST"
    ensures var r' := Reassign(r, p, team);
      Exclusive(r') && (p in r'.cts <==> team == "CT") && (p in r'.ts <==> team == "TERRORIST")
  {
    var r' := Reassign(r, p, team);
    forall q | q in r'.cts
      ensures q !in r'.ts
    {
      if q != p {
        assert q in r.cts;
      }
    }
  }

  /* ---- The mutable state ---- */

  /** `GameState`: the engine changes it in place through its `*_mut` accessors. */
  class GameState {
    var gameMap: Map
    var mode: string
    var cts: Team
    var ts: Team
    var events: seq<Event>

    function Value(): Snapshot
      reads this
    {
      Snapshot(gameMap, mode, cts, ts, events)
    }

    function Lineup(): Rosters
      reads this
    {
      Rosters(cts.players, ts.players)
    }

    /** `GameState::new` */
    constructor ()
      ensures Value() == FRESH
    {
      gameMap := NO_MAP;
      mode := "";
      cts := Team("CT", []);
      ts := Team("TERRORIST", []);
      events := [];
    }

    /** Overwriting the state with `GameState::new()`: the engine owns its state, so
        this replaces every field in place. */
    method Reset()
      modifies this
      ensures Value() == FRESH
    {
      gameMap := NO_MAP;
      mode := "";
      cts := Team("CT", []);
      ts := Team("TERRORIST", []);
      events := [];
    }

    /** `add_player_to_team`: changes the player lists of the two rosters as
        `Reassign` says and nothing else. */
    method AddPlayerToTeam(p: Player, team: string)
      modifies this
      ensures Lineup() == Reassign(old(Lineup()), p, team)
      ensures Value() == old(Value()).(cts := cts, ts := ts)
      ensures cts.name == old(cts.name) && ts.name == old(ts.name)
    {
      if p in cts.players {
        cts := cts.(players := Without(cts.players, p));
      } else if p in ts.players {
        ts := ts.(players := Without(ts.players, p));
      }
      if team == "CT" {
        cts := cts.(players := cts.players + [p]);
      } else if team == "TERRORIST" {
        ts := ts.(players := ts.players + [p]);
      }
    }
  }
}
