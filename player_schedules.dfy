/**
 * Per-player schedules: each roster player's team code is normalised, the
 * week's games are filtered to those the team plays, the opponent is
 * derived, and one entry per game records the historical performance
 * against that opponent (or the failure to fetch it).
 */
module PlayerSchedules {

  import opened Outcome
  import opened Values
  import opened OrderedMaps
  import opened WeekSchedule
  import TeamCodes

  /** A roster player, as far as the pipeline reads one. */
  datatype Player = Player(name: string, proTeam: string, playerId: int, avgPoints: Option<real>, healthStatus: string)

  /** A game of the player's team, with the opponent derived. */
  datatype TeamGame = TeamGame(date: Date, homeTeam: string, awayTeam: string, opponentTeam: string, teamTricode: string)

  predicate Involves(g: WeekGame, team: string)
  {
    g.homeTeam == team || g.awayTeam == team
  }

  /** The record the comprehension builds: the opponent is the away side when the team is at home, else the home side. */
  function Annotate(g: WeekGame, team: string): (r: TeamGame)
    ensures r.date == g.date && r.homeTeam == g.homeTeam && r.awayTeam == g.awayTeam && r.teamTricode == team
    ensures Involves(g, team) ==> {r.opponentTeam, team} == {g.homeTeam, g.awayTeam}
    ensures Involves(g, team) && g.homeTeam != g.awayTeam ==> r.opponentTeam != team
  {
    TeamGame(g.date, g.homeTeam, g.awayTeam, if g.homeTeam == team then g.awayTeam else g.homeTeam, team)
  }

  /** The comprehension over the week's games that keeps those involving `team`. */
  function TeamSchedule(week: seq<WeekGame>, team: string): (r: seq<TeamGame>)
    ensures |r| <= |week|
    ensures forall i | 0 <= i < |r| :: r[i].teamTricode == team
  {
    if week == [] then []
    else (if Involves(week[0], team) then [Annotate(week[0], team)] else []) + TeamSchedule(week[1..], team)
  }

  /** Filtering distributes over concatenation: the week's order is kept. */
  lemma {:induction false} TeamScheduleAppend(a: seq<WeekGame>, b: seq<WeekGame>, team: string)
    ensures TeamSchedule(a + b, team) == TeamSchedule(a, team) + TeamSchedule(b, team)
  {
    if a == [] {
      assert a + b == b;
    } else {
      assert (a + b)[1..] == a[1..] + b;
      TeamScheduleAppend(a[1..], b, team);
    }
  }

  /** A game is kept exactly when the team plays in it, and the kept record names the other side as opponent. */
  lemma {:induction false} TeamScheduleMembers(week: seq<WeekGame>, team: string)
    ensures forall i | 0 <= i < |week| && Involves(week[i], team) :: Annotate(week[i], team) in TeamSchedule(week, team)
    ensures forall tg | tg in TeamSchedule(week, team) ::
      exists i | 0 <= i < |week| :: Involves(week[i], team) && tg == Annotate(week[i], team)
    ensures forall tg | tg in TeamSchedule(week, team) ::
      tg.teamTricode == team && {tg.opponentTeam, team} == {tg.homeTeam, tg.awayTeam}
  {
    if week != [] {
      TeamScheduleMembers(week[1..], team);
      forall tg | tg in TeamSchedule(week, team)
        ensures exists i | 0 <= i < |week| :: Involves(week[i], team) && tg == Annotate(week[i], team)
      {
        if tg !in TeamSchedule(week[1..], team) {
          assert Involves(week[0], team) && tg == Annotate(week[0], team);
        } else {
          var i :| 0 <= i < |week[1..]| && Involves(week[1..][i], team) && tg == Annotate(week[1..][i], team);
          assert week[i + 1] == week[1..][i];
        }
      }
      forall i | 0 <= i < |week| && Involves(week[i], team)
        ensures Annotate(week[i], team) in TeamSchedule(week, team)
      {
        if i > 0 {
          assert week[1..][i - 1] == week[i];
        }
      }
    }
  }

  /** A player whose team plays no game this week has an empty schedule. */
  lemma {:induction false} TeamScheduleEmpty(week: seq<WeekGame>, team: string)
    requires forall i | 0 <= i < |week| :: !Involves(week[i], team)
    ensures TeamSchedule(week, team) == []
  {
    if week != [] {
      TeamScheduleEmpty(week[1..], team);
    }
  }

  /** What the statistics provider does for one (player, opponent) pair. */
  datatype FetchOutcome = Rows(means: seq<(string, real)>) | NoRows | Raised

  const PER_100_POSSESSIONS: string := "Per100Possessions"
  const FETCH_ERROR: string := "Error fetching data"

  /** One game of a player's schedule with the performance recorded for it. */
  datatype Entry = Entry(game: TeamGame, performance: Value)

  function MeanItems(means: seq<(string, real)>): seq<(string, Value)>
  {
    seq(|means|, i requires 0 <= i < |means| => (means[i].0, Num(means[i].1)))
  }

  /** The performance value: the means keyed by measure type, an empty dictionary, or the error text. */
  function PerformanceOf(o: FetchOutcome): (v: Value)
    ensures o.Raised? <==> v.Text?
    ensures o.NoRows? <==> v == Dict([])
    ensures o.Rows? ==> v.Dict? && |v.items| == 1 && v.items[0].0 == PER_100_POSSESSIONS
  {
    match o
    case Rows(means) => Dict([(PER_100_POSSESSIONS, Dict(MeanItems(means)))])
    case NoRows => Dict([])
    case Raised => Text(FETCH_ERROR)
  }

  function EntryFor(game: TeamGame, playerId: int, fetch: (int, string) -> FetchOutcome): Entry
  {
    Entry(game, PerformanceOf(fetch(playerId, game.opponentTeam)))
  }

  function Entries(games: seq<TeamGame>, playerId: int, fetch: (int, string) -> FetchOutcome): seq<Entry>
  {
    seq(|games|, k requires 0 <= k < |games| => EntryFor(games[k], playerId, fetch))
  }

  /** The games of the player's normalised team this week, each with its performance. */
  function PlayerEntries(p: Player, week: seq<WeekGame>, table: map<string, string>,
                         fetch: (int, string) -> FetchOutcome): seq<Entry>
  {
    Entries(TeamSchedule(week, TeamCodes.Resolve(table, p.proTeam)), p.playerId, fetch)
  }

  /** The dictionary `get_player_schedules` builds, player by player. */
  function Schedules(roster: seq<Player>, week: seq<WeekGame>, table: map<string, string>,
                     fetch: (int, string) -> FetchOutcome): (d: OrderedMap<seq<Entry>>)
    ensures WellFormed(d)
  {
    if roster == [] then Empty()
    else
      var p := roster[|roster| - 1];
      Put(Schedules(roster[..|roster| - 1], week, table, fetch), p.name, PlayerEntries(p, week, table, fetch))
  }

  lemma EntriesSnoc(games: seq<TeamGame>, j: nat, playerId: int, fetch: (int, string) -> FetchOutcome)
    requires j < |games|
    ensures Entries(games[..j + 1], playerId, fetch) == Entries(games[..j], playerId, fetch) + [EntryFor(games[j], playerId, fetch)]
  {
  }

  /** `get_player_schedules`: one list per player name, filled game by game. */
  method GetPlayerSchedules(roster: seq<Player>, week: seq<WeekGame>, table: map<string, string>,
                            fetch: (int, string) -> FetchOutcome)
    returns (playerSchedules: OrderedMap<seq<Entry>>)
    ensures playerSchedules == Schedules(roster, week, table, fetch)
  {
    playerSchedules := Empty();
    for i := 0 to |roster|
      invariant playerSchedules == Schedules(roster[..i], week, table, fetch)
    {
      var player := roster[i];
      assert roster[..i + 1][..i] == roster[..i];
      var teamTricode := TeamCodes.Resolve(table, player.proTeam);
      var teamSchedule := TeamSchedule(week, teamTricode);
      var before := playerSchedules;
      playerSchedules := Put(playerSchedules, player.name, []);
      for j := 0 to |teamSchedule|
        invariant playerSchedules == Put(before, player.name, Entries(teamSchedule[..j], player.playerId, fetch))
      {
        var game := teamSchedule[j];
        var outcome := fetch(player.playerId, game.opponentTeam);
        var performance := PerformanceOf(outcome);
        var list := playerSchedules.values[player.name] + [Entry(game, performance)];
        EntriesSnoc(teamSchedule, j, player.playerId, fetch);
        PutOverwrite(before, player.name, Entries(teamSchedule[..j], player.playerId, fetch), list);
        playerSchedules := OrderedMap(playerSchedules.keys, playerSchedules.values[player.name := list]);
      }
      assert teamSchedule[..|teamSchedule|] == teamSchedule;
      assert Entries(teamSchedule, player.playerId, fetch) == PlayerEntries(player, week, table, fetch);
      assert roster[..i + 1][i] == player;
      assert Schedules(roster[..i + 1], week, table, fetch)
          == Put(Schedules(roster[..i], week, table, fetch), player.name, PlayerEntries(player, week, table, fetch));
    }
    assert roster[..|roster|] == roster;
  }

  /** Each player's list holds one entry per game of the team's week, in order, whatever the provider does. */
  lemma PlayerEntriesOnePerGame(p: Player, week: seq<WeekGame>, table: map<string, string>,
                                fetch: (int, string) -> FetchOutcome)
    ensures var games := TeamSchedule(week, TeamCodes.Resolve(table, p.proTeam));
            var es := PlayerEntries(p, week, table, fetch);
            |es| == |games| &&
            forall k | 0 <= k < |es| ::
              es[k].game == games[k] &&
              match fetch(p.playerId, games[k].opponentTeam)
              case Rows(means) => es[k].performance == Dict([(PER_100_POSSESSIONS, Dict(MeanItems(means)))])
              case NoRows => es[k].performance == Dict([])
              case Raised => es[k].performance == Text(FETCH_ERROR)
  {
  }

  /** The last roster player with this name, if any. */
  function LastNamed(roster: seq<Player>, name: string): Option<Player>
  {
    if roster == [] then None
    else if roster[|roster| - 1].name == name then Some(roster[|roster| - 1])
    else LastNamed(roster[..|roster| - 1], name)
  }

  /** The distinct names of the roster, in order of first appearance. */
  function FirstAppearances(names: seq<string>): seq<string>
  {
    if names == [] then []
    else
      var init := FirstAppearances(names[..|names| - 1]);
      if names[|names| - 1] in names[..|names| - 1] then init else init + [names[|names| - 1]]
  }

  function Names(roster: seq<Player>): seq<string>
  {
    seq(|roster|, i requires 0 <= i < |roster| => roster[i].name)
  }

  /**
   * The dictionary has one key per distinct player name, in order of first
   * appearance, and the list under a name is that of the LAST player with
   * that name: a repeated name resets the list rather than extending it.
   */
  lemma {:induction false} SchedulesByName(roster: seq<Player>, week: seq<WeekGame>, table: map<string, string>,
                                           fetch: (int, string) -> FetchOutcome, name: string)
    ensures Schedules(roster, week, table, fetch).keys == FirstAppearances(Names(roster))
    ensures name in Schedules(roster, week, table, fetch).values <==> LastNamed(roster, name).Some?
    ensures LastNamed(roster, name).Some? ==>
      Schedules(roster, week, table, fetch).values[name] == PlayerEntries(LastNamed(roster, name).value, week, table, fetch)
  {
    if roster != [] {
      var init := roster[..|roster| - 1];
      var p := roster[|roster| - 1];
      SchedulesByName(init, week, table, fetch, name);
      SchedulesByName(init, week, table, fetch, p.name);
      assert Names(roster)[..|roster| - 1] == Names(init);
      assert Names(roster)[|roster| - 1] == p.name;
      assert p.name in Names(init) <==> LastNamed(init, p.name).Some? by {
        LastNamedIn(init, p.name);
      }
    }
  }

  lemma {:induction false} LastNamedIn(roster: seq<Player>, name: string)
    ensures LastNamed(roster, name).Some? <==> name in Names(roster)
  {
    if roster != [] {
      var init := roster[..|roster| - 1];
      LastNamedIn(init, name);
      assert Names(roster) == Names(init) + [roster[|roster| - 1].name];
    }
  }

  /** A player on "GS" is looked up as "GSW" and meets "LAL" in a GSW-LAL game. */
  lemma GoldenStateExample(d: Date)
    ensures var p := Player("Curry", "GS", 201939, None, "ACTIVE");
            TeamSchedule([WeekGame(d, "GSW", "LAL")], TeamCodes.Resolve(TeamCodes.ProTeamToTricode, p.proTeam))
            == [TeamGame(d, "GSW", "LAL", "LAL", "GSW")]
  {
    TeamCodes.KnownTranslations();
    var week := [WeekGame(d, "GSW", "LAL")];
    assert week[1..] == [];
  }
}
