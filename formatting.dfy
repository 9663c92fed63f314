/**
 * The text handed to the recommender, at line granularity: per scheduled
 * player found on the roster, three header lines, then per game one game
 * line followed by the performance statistics or the performance message.
 * How a value is rendered as text is left abstract: a line carries the
 * values it shows.
 */
module Formatting {

  import opened Outcome
  import opened Values
  import opened OrderedMaps
  import opened WeekSchedule
  import opened PlayerSchedules

  /** An element of the roster argument: a player object, or something without a `name`. */
  datatype RosterElement = Named(player: Player) | Unnamed

  /** The roster argument: a list, or any other kind of value. */
  datatype RosterArg = RosterList(elements: seq<RosterElement>) | NotAList

  /** The two `ValueError`s the formatter raises. */
  datatype FormatError = InvalidRoster | MissingName

  /**
   * One element of the output list. `PlayerHeader` renders as a newline
   * followed by "<name>:", so the joined text has a blank line before each
   * player; `AvgPoints(None)` renders as "N/A".
   */
  datatype Line =
    | PlayerHeader(name: string)
    | AvgPoints(avgPoints: Option<real>)
    | HealthStatus(status: string)
    | GameLine(date: Date, opponent: string)
    | StatsHeader
    | StatLine(stat: string, value: Value)
    | PerformanceData(performance: Value)

  /** The player the name-to-player dictionary maps `name` to: the last roster element with that name. */
  function LookupPlayer(elements: seq<RosterElement>, name: string): (r: Option<Player>)
    requires forall i | 0 <= i < |elements| :: elements[i].Named?
    ensures r.Some? <==> exists i | 0 <= i < |elements| :: elements[i].player.name == name
    ensures r.Some? ==> r.value.name == name
    ensures r.Some? ==> (exists i | 0 <= i < |elements| ::
      elements[i].player == r.value && forall j | i < j < |elements| :: elements[j].player.name != name)
  {
    if elements == [] then None
    else
      var last := elements[|elements| - 1].player;
      if last.name == name then Some(last)
      else
        var r := LookupPlayer(elements[..|elements| - 1], name);
        assert forall i | 0 <= i < |elements| - 1 :: elements[..|elements| - 1][i] == elements[i];
        r
  }

  function StatLines(items: seq<(string, Value)>): seq<Line>
  {
    seq(|items|, m requires 0 <= m < |items| => StatLine(items[m].0, items[m].1))
  }

  /** The lines of one game: the game line, then the statistics or the performance message. */
  function GameLines(e: Entry): (r: seq<Line>)
    ensures |r| >= 2 && r[0] == GameLine(e.game.date, e.game.opponentTeam)
    ensures e.performance.Dict? ==> r[1] == StatsHeader && |r| == 2 + |e.performance.items|
    ensures e.performance.Dict? ==> forall m | 0 <= m < |e.performance.items| ::
      r[2 + m] == StatLine(e.performance.items[m].0, e.performance.items[m].1)
    ensures !e.performance.Dict? ==> r == [r[0], PerformanceData(e.performance)]
  {
    [GameLine(e.game.date, e.game.opponentTeam)]
      + (if e.performance.Dict? then [StatsHeader] + StatLines(e.performance.items) else [PerformanceData(e.performance)])
  }

  function AllGameLines(games: seq<Entry>): seq<Line>
  {
    if games == [] then [] else AllGameLines(games[..|games| - 1]) + GameLines(games[|games| - 1])
  }

  function PlayerLines(name: string, p: Player, games: seq<Entry>): seq<Line>
  {
    [PlayerHeader(name), AvgPoints(p.avgPoints), HealthStatus(p.healthStatus)] + AllGameLines(games)
  }

  /** The lines of the scheduled players in `keys`, skipping names not on the roster. */
  function Body(keys: seq<string>, schedules: map<string, seq<Entry>>, elements: seq<RosterElement>): seq<Line>
    requires forall k | k in keys :: k in schedules
    requires forall i | 0 <= i < |elements| :: elements[i].Named?
  {
    if keys == [] then []
    else
      var name := keys[|keys| - 1];
      var rest := Body(keys[..|keys| - 1], schedules, elements);
      match LookupPlayer(elements, name)
      case None => rest
      case Some(p) => rest + PlayerLines(name, p, schedules[name])
  }

  /** The result of `format_data_for_gpt`, before the lines are joined with newlines. */
  function Format(playerSchedules: OrderedMap<seq<Entry>>, roster: RosterArg): Result<seq<Line>, FormatError>
    requires WellFormed(playerSchedules)
  {
    if roster.NotAList? || roster.elements == [] then Failure(InvalidRoster)
    else if exists i | 0 <= i < |roster.elements| :: roster.elements[i].Unnamed? then Failure(MissingName)
    else Success(Body(playerSchedules.keys, playerSchedules.values, roster.elements))
  }

  /** `format_data_for_gpt`: the loops appending to `output`. */
  method FormatDataForGpt(playerSchedules: OrderedMap<seq<Entry>>, roster: RosterArg)
    returns (r: Result<seq<Line>, FormatError>)
    requires WellFormed(playerSchedules)
    ensures r == Format(playerSchedules, roster)
  {
    if roster.NotAList? || roster.elements == [] {
      return Failure(InvalidRoster);
    }
    var elements := roster.elements;
    if exists i | 0 <= i < |elements| :: elements[i].Unnamed? {
      return Failure(MissingName);
    }
    var keys, schedules := playerSchedules.keys, playerSchedules.values;
    var output: seq<Line> := [];
    for i := 0 to |keys|
      invariant output == Body(keys[..i], schedules, elements)
    {
      var playerName := keys[i];
      BodySnoc(keys, i, schedules, elements);
      var player := LookupPlayer(elements, playerName);
      if player.None? {
        continue;
      }
      output := WritePlayer(output, playerName, player.value, schedules[playerName]);
    }
    assert keys[..|keys|] == keys;
    return Success(output);
  }

  /** The body of the loop over the scheduled names, for a name found on the roster: header lines, then every game. */
  method WritePlayer(output: seq<Line>, name: string, p: Player, games: seq<Entry>) returns (out: seq<Line>)
    ensures out == output + PlayerLines(name, p, games)
  {
    out := output + [PlayerHeader(name), AvgPoints(p.avgPoints), HealthStatus(p.healthStatus)];
    assert games[..0] == [];
    assert PlayerLines(name, p, games[..0]) == [PlayerHeader(name), AvgPoints(p.avgPoints), HealthStatus(p.healthStatus)];
    for j := 0 to |games|
      invariant out == output + PlayerLines(name, p, games[..j])
    {
      ghost var before := out;
      out := WriteGame(out, games[j]);
      WritePlayerStep(output, name, p, games, j, before, out);
    }
    assert games[..|games|] == games;
  }

  /** The body of the loop over one player's games: the game line, then the statistics or the raw value. */
  method WriteGame(output: seq<Line>, item: Entry) returns (out: seq<Line>)
    ensures out == output + GameLines(item)
  {
    out := output + [GameLine(item.game.date, item.game.opponentTeam)];
    var performance := item.performance;
    if performance.Dict? {
      out := out + [StatsHeader];
      var items := performance.items;
      for m := 0 to |items|
        invariant out == output + [GameLine(item.game.date, item.game.opponentTeam), StatsHeader] + StatLines(items[..m])
      {
        StatLinesSnoc(items, m);
        out := out + [StatLine(items[m].0, items[m].1)];
      }
      assert items[..|items|] == items;
    } else {
      out := out + [PerformanceData(performance)];
    }
  }

  /** One more scheduled name adds that player's lines, or nothing when the name is not on the roster. */
  lemma BodySnoc(keys: seq<string>, i: nat, schedules: map<string, seq<Entry>>, elements: seq<RosterElement>)
    requires i < |keys| && forall k | k in keys :: k in schedules
    requires forall e | 0 <= e < |elements| :: elements[e].Named?
    ensures LookupPlayer(elements, keys[i]).None? ==>
      Body(keys[..i + 1], schedules, elements) == Body(keys[..i], schedules, elements)
    ensures LookupPlayer(elements, keys[i]).Some? ==>
      Body(keys[..i + 1], schedules, elements)
      == Body(keys[..i], schedules, elements) + PlayerLines(keys[i], LookupPlayer(elements, keys[i]).value, schedules[keys[i]])
  {
    assert keys[..i + 1][..i] == keys[..i];
    assert keys[..i + 1][i] == keys[i];
  }

  lemma PlayerLinesSnoc(name: string, p: Player, games: seq<Entry>, j: nat)
    requires j < |games|
    ensures PlayerLines(name, p, games[..j + 1]) == PlayerLines(name, p, games[..j]) + GameLines(games[j])
  {
    assert games[..j + 1][..j] == games[..j];
  }

  /** One pass of the loop in `WritePlayer`: appending a game's lines extends the player's lines by that game. */
  lemma WritePlayerStep(output: seq<Line>, name: string, p: Player, games: seq<Entry>, j: nat, before: seq<Line>, after: seq<Line>)
    requires j < |games|
    requires before == output + PlayerLines(name, p, games[..j])
    requires after == before + GameLines(games[j])
    ensures after == output + PlayerLines(name, p, games[..j + 1])
  {
    PlayerLinesSnoc(name, p, games, j);
    ghost var done, next := PlayerLines(name, p, games[..j]), GameLines(games[j]);
    assert (output + done) + next == output + (done + next);
  }

  lemma StatLinesSnoc(items: seq<(string, Value)>, m: nat)
    requires m < |items|
    ensures StatLines(items[..m + 1]) == StatLines(items[..m]) + [StatLine(items[m].0, items[m].1)]
  {
  }

  /** The formatter raises exactly on an empty or non-list roster, or on an element without a name. */
  lemma FormatErrors(playerSchedules: OrderedMap<seq<Entry>>, roster: RosterArg)
    requires WellFormed(playerSchedules)
    ensures Format(playerSchedules, roster) == Failure(InvalidRoster) <==> roster.NotAList? || roster.elements == []
    ensures Format(playerSchedules, roster) == Failure(MissingName) <==>
      roster.RosterList? && roster.elements != [] && exists i | 0 <= i < |roster.elements| :: roster.elements[i].Unnamed?
  {
  }

  /** The names of the player headers among the lines, in order. */
  function Headers(lines: seq<Line>): seq<string>
  {
    if lines == [] then []
    else Headers(lines[..|lines| - 1]) + (if lines[|lines| - 1].PlayerHeader? then [lines[|lines| - 1].name] else [])
  }

  /** The number of game lines among the lines. */
  function CountGames(lines: seq<Line>): nat
  {
    if lines == [] then 0 else CountGames(lines[..|lines| - 1]) + (if lines[|lines| - 1].GameLine? then 1 else 0)
  }

  lemma {:induction false} HeadersAppend(a: seq<Line>, b: seq<Line>)
    ensures Headers(a + b) == Headers(a) + Headers(b)
    ensures CountGames(a + b) == CountGames(a) + CountGames(b)
    decreases |b|
  {
    if b == [] {
      assert a + b == a;
    } else {
      var b' := b[..|b| - 1];
      assert (a + b)[..|a + b| - 1] == a + b';
      assert (a + b)[|a + b| - 1] == b[|b| - 1];
      HeadersAppend(a, b');
    }
  }

  lemma GameLinesCounts(e: Entry)
    ensures Headers(GameLines(e)) == [] && CountGames(GameLines(e)) == 1
  {
    var r := GameLines(e);
    var rest := r[1..];
    assert r == [r[0]] + rest;
    assert forall i | 0 <= i < |rest| :: !rest[i].PlayerHeader? && !rest[i].GameLine?;
    NoHeadersNoGames(rest);
    HeadersAppend([r[0]], rest);
    assert [r[0]][..0] == [];
  }

  lemma {:induction false} NoHeadersNoGames(lines: seq<Line>)
    requires forall i | 0 <= i < |lines| :: !lines[i].PlayerHeader? && !lines[i].GameLine?
    ensures Headers(lines) == [] && CountGames(lines) == 0
  {
    if lines != [] {
      NoHeadersNoGames(lines[..|lines| - 1]);
    }
  }

  /** A player's games produce no header and exactly one game line each. */
  lemma {:induction false} AllGameLinesCounts(games: seq<Entry>)
    ensures Headers(AllGameLines(games)) == [] && CountGames(AllGameLines(games)) == |games|
  {
    if games != [] {
      AllGameLinesCounts(games[..|games| - 1]);
      GameLinesCounts(games[|games| - 1]);
      HeadersAppend(AllGameLines(games[..|games| - 1]), GameLines(games[|games| - 1]));
    }
  }

  /** A player's block opens with its three header lines and holds one game line per game. */
  lemma PlayerLinesShape(name: string, p: Player, games: seq<Entry>)
    ensures var r := PlayerLines(name, p, games);
            |r| >= 3 && r[..3] == [PlayerHeader(name), AvgPoints(p.avgPoints), HealthStatus(p.healthStatus)]
            && Headers(r) == [name] && CountGames(r) == |games|
  {
    var head := [PlayerHeader(name), AvgPoints(p.avgPoints), HealthStatus(p.healthStatus)];
    AllGameLinesCounts(games);
    HeadersAppend(head, AllGameLines(games));
    assert head == [head[0], head[1]] + [head[2]];
    HeadersAppend([head[0], head[1]], [head[2]]);
    HeadersAppend([head[0]], [head[1]]);
    assert [head[0]][..0] == [];
    assert [head[1]][..0] == [];
    assert [head[2]][..0] == [];
  }

  /** The scheduled names that are on the roster, in schedule order. */
  function Kept(keys: seq<string>, elements: seq<RosterElement>): seq<string>
    requires forall i | 0 <= i < |elements| :: elements[i].Named?
  {
    if keys == [] then []
    else Kept(keys[..|keys| - 1], elements) + (if LookupPlayer(elements, keys[|keys| - 1]).Some? then [keys[|keys| - 1]] else [])
  }

  /** Each scheduled name on the roster gets one player block, in schedule order; the other names are skipped. */
  lemma {:induction false} BodyHeaders(keys: seq<string>, schedules: map<string, seq<Entry>>, elements: seq<RosterElement>)
    requires forall k | k in keys :: k in schedules
    requires forall i | 0 <= i < |elements| :: elements[i].Named?
    ensures Headers(Body(keys, schedules, elements)) == Kept(keys, elements)
  {
    if keys != [] {
      var init, name := keys[..|keys| - 1], keys[|keys| - 1];
      BodyHeaders(init, schedules, elements);
      var p := LookupPlayer(elements, name);
      if p.Some? {
        PlayerLinesShape(name, p.value, schedules[name]);
        HeadersAppend(Body(init, schedules, elements), PlayerLines(name, p.value, schedules[name]));
      }
    }
  }
}
