/**
 * Extraction of one scoring week's games from the league schedule feed:
 * find the week record, then flatten every game of every date group whose
 * date lies between the week's start and end dates, both inclusive.
 */
module WeekSchedule {

  import opened Outcome

  /** A calendar date with no time of day. */
  datatype Date = Date(year: int, month: int, day: int)

  /** Chronological order of dates, which is the lexicographic order of their parts. */
  predicate OnOrBefore(a: Date, b: Date)
  {
    a.year < b.year || (a.year == b.year && (a.month < b.month || (a.month == b.month && a.day <= b.day)))
  }

  /**
   * A date string of the feed: absent (missing, null or empty), one that
   * parses to a date, or one the date parser rejects.
   */
  datatype DateField = Absent | Valid(date: Date) | Malformed

  datatype Week = Week(weekNumber: int, startDate: DateField, endDate: DateField)

  /** A game of the feed; a team whose record or tricode is missing is `None`. */
  datatype FeedGame = FeedGame(homeTricode: Option<string>, awayTricode: Option<string>)

  /** The games of one date; a missing `games` list is the empty one. */
  datatype GameDateGroup = GameDateGroup(gameDate: DateField, games: seq<FeedGame>)

  /** The `leagueSchedule` object; a missing list is the empty one. */
  datatype LeagueSchedule = LeagueSchedule(weeks: seq<Week>, gameDates: seq<GameDateGroup>)

  datatype ScheduleData = ScheduleData(leagueSchedule: Option<LeagueSchedule>)

  /** A game of the week as the extractor emits it. */
  datatype WeekGame = WeekGame(date: Date, homeTeam: string, awayTeam: string)

  /** The exception the date parser raises. */
  datatype ScheduleError = UnparseableDate

  const UNKNOWN: string := "Unknown"

  predicate InWindow(d: Date, start: Date, end: Date)
  {
    OnOrBefore(start, d) && OnOrBefore(d, end)
  }

  /** The first week whose number is `n`, if there is one. */
  function FindWeek(weeks: seq<Week>, n: int): (r: Option<Week>)
    ensures r.None? <==> forall i | 0 <= i < |weeks| :: weeks[i].weekNumber != n
    ensures r.Some? ==> exists i | 0 <= i < |weeks| ::
      weeks[i] == r.value && r.value.weekNumber == n && forall j | 0 <= j < i :: weeks[j].weekNumber != n
  {
    if weeks == [] then None
    else if weeks[0].weekNumber == n then Some(weeks[0])
    else
      var r := FindWeek(weeks[1..], n);
      assert forall j | 1 <= j < |weeks| :: weeks[j] == weeks[1..][j - 1];
      r
  }

  /** One emitted record; a missing tricode becomes "Unknown". */
  function MakeGame(d: Date, g: FeedGame): (r: WeekGame)
    ensures r.date == d
    ensures r.homeTeam == (if g.homeTricode.Some? then g.homeTricode.value else UNKNOWN)
    ensures r.awayTeam == (if g.awayTricode.Some? then g.awayTricode.value else UNKNOWN)
  {
    WeekGame(d,
             match g.homeTricode case Some(t) => t case None => UNKNOWN,
             match g.awayTricode case Some(t) => t case None => UNKNOWN)
  }

  function MakeGames(d: Date, games: seq<FeedGame>): seq<WeekGame>
  {
    seq(|games|, k requires 0 <= k < |games| => MakeGame(d, games[k]))
  }

  /** What one date group adds: nothing when its date is absent or outside the window. */
  function GroupGames(g: GameDateGroup, start: Date, end: Date): seq<WeekGame>
  {
    if g.gameDate.Valid? && InWindow(g.gameDate.date, start, end) then MakeGames(g.gameDate.date, g.games) else []
  }

  /** The walk over the date groups: their in-window games in order, or the parser's exception. */
  function Extract(groups: seq<GameDateGroup>, start: Date, end: Date): Result<seq<WeekGame>, ScheduleError>
  {
    if groups == [] then Success([])
    else Visit(Extract(groups[..|groups| - 1], start, end), groups[|groups| - 1], start, end)
  }

  /** One iteration of the outer loop: a failure propagates, a malformed date raises, otherwise the group's games are appended. */
  function Visit(r: Result<seq<WeekGame>, ScheduleError>, g: GameDateGroup, start: Date, end: Date): Result<seq<WeekGame>, ScheduleError>
  {
    match r
    case Failure(e) => Failure(e)
    case Success(acc) => if g.gameDate.Malformed? then Failure(UnparseableDate) else Success(acc + GroupGames(g, start, end))
  }

  /** Visiting a group after a concatenated walk is visiting it after the second part. */
  lemma VisitAppend(ra: Result<seq<WeekGame>, ScheduleError>, rb: Result<seq<WeekGame>, ScheduleError>,
                    rab: Result<seq<WeekGame>, ScheduleError>, g: GameDateGroup, start: Date, end: Date)
    requires rab.Success? <==> ra.Success? && rb.Success?
    requires rab.Success? ==> rab.value == ra.value + rb.value
    ensures Visit(rab, g, start, end).Success? <==> ra.Success? && Visit(rb, g, start, end).Success?
    ensures Visit(rab, g, start, end).Success? ==>
      Visit(rab, g, start, end).value == ra.value + Visit(rb, g, start, end).value
  {
    if rab.Success? && !g.gameDate.Malformed? {
      var x, y, z := ra.value, rb.value, GroupGames(g, start, end);
      assert (x + y) + z == x + (y + z);
    }
  }

  /** One more date group at the end of the walk. */
  lemma ExtractSnoc(groups: seq<GameDateGroup>, g: GameDateGroup, start: Date, end: Date)
    ensures Extract(groups + [g], start, end) == Visit(Extract(groups, start, end), g, start, end)
  {
    assert (groups + [g])[..|groups|] == groups;
    assert (groups + [g])[|groups|] == g;
  }

  /** The result of `get_week_schedule`. */
  function WeekWindow(data: ScheduleData, currentWeek: int): Result<seq<WeekGame>, ScheduleError>
  {
    var ls := match data.leagueSchedule case Some(l) => l case None => LeagueSchedule([], []);
    match FindWeek(ls.weeks, currentWeek)
    case None => Success([])
    case Some(w) =>
      if !w.startDate.Valid? || !w.endDate.Valid? then Failure(UnparseableDate)
      else Extract(ls.gameDates, w.startDate.date, w.endDate.date)
  }

  /** `get_week_schedule`: the nested loops that append each in-window game. */
  method GetWeekSchedule(data: ScheduleData, currentWeek: int) returns (r: Result<seq<WeekGame>, ScheduleError>)
    ensures r == WeekWindow(data, currentWeek)
  {
    var ls := match data.leagueSchedule case Some(l) => l case None => LeagueSchedule([], []);
    var weeks, gameDates := ls.weeks, ls.gameDates;
    var currentWeekData := FindWeek(weeks, currentWeek);
    if currentWeekData.None? {
      return Success([]);
    }
    var w := currentWeekData.value;
    if !w.startDate.Valid? || !w.endDate.Valid? {
      return Failure(UnparseableDate);
    }
    r := CollectWeekGames(gameDates, w.startDate.date, w.endDate.date);
  }

  /** The loops of `get_week_schedule` over the date groups and their games, for a parsed week window. */
  method CollectWeekGames(gameDates: seq<GameDateGroup>, start: Date, end: Date) returns (r: Result<seq<WeekGame>, ScheduleError>)
    ensures r == Extract(gameDates, start, end)
  {
    var weekSchedule: seq<WeekGame> := [];
    var i := 0;
    while i < |gameDates|
      invariant 0 <= i <= |gameDates|
      invariant Extract(gameDates[..i], start, end) == Success(weekSchedule)
    {
      var group := gameDates[i];
      if group.gameDate.Absent? {
        ExtractPrefixStep(gameDates, i, start, end, weekSchedule);
        i := i + 1;
        continue;
      }
      if group.gameDate.Malformed? {
        ExtractMalformedAt(gameDates, i, start, end);
        return Failure(UnparseableDate);
      }
      ExtractPrefixStep(gameDates, i, start, end, weekSchedule);
      var d := group.gameDate.date;
      if OnOrBefore(start, d) && OnOrBefore(d, end) {
        var before := weekSchedule;
        var k := 0;
        while k < |group.games|
          invariant 0 <= k <= |group.games|
          invariant weekSchedule == before + MakeGames(d, group.games[..k])
        {
          MakeGamesSnoc(d, group.games, k);
          weekSchedule := weekSchedule + [MakeGame(d, group.games[k])];
          k := k + 1;
        }
        assert group.games[..k] == group.games;
      }
      i := i + 1;
    }
    assert gameDates[..i] == gameDates;
    return Success(weekSchedule);
  }

  /** One more date group, whose date is not malformed, extends a successful walk by its in-window games. */
  lemma ExtractPrefixStep(groups: seq<GameDateGroup>, i: nat, start: Date, end: Date, acc: seq<WeekGame>)
    requires i < |groups| && !groups[i].gameDate.Malformed?
    requires Extract(groups[..i], start, end) == Success(acc)
    ensures Extract(groups[..i + 1], start, end) == Success(acc + GroupGames(groups[i], start, end))
    ensures !groups[i].gameDate.Valid? || !InWindow(groups[i].gameDate.date, start, end) ==>
      Extract(groups[..i + 1], start, end) == Success(acc)
  {
    assert groups[..i + 1] == groups[..i] + [groups[i]];
    ExtractSnoc(groups[..i], groups[i], start, end);
    assert acc + [] == acc;
  }

  /** A malformed date anywhere makes the whole walk fail. */
  lemma ExtractMalformedAt(groups: seq<GameDateGroup>, i: nat, start: Date, end: Date)
    requires i < |groups| && groups[i].gameDate.Malformed?
    ensures Extract(groups, start, end) == Failure(UnparseableDate)
  {
    ExtractFailsIffMalformed(groups, start, end);
    assert groups[i].gameDate.Malformed?;
    var r := Extract(groups, start, end);
    assert r.Failure?;
    assert r.error == UnparseableDate;
  }

  lemma MakeGamesSnoc(d: Date, games: seq<FeedGame>, k: nat)
    requires k < |games|
    ensures MakeGames(d, games[..k + 1]) == MakeGames(d, games[..k]) + [MakeGame(d, games[k])]
  {
  }

  /** Extraction distributes over concatenation of date groups: groups are emitted in source order. */
  lemma {:induction false} ExtractAppend(a: seq<GameDateGroup>, b: seq<GameDateGroup>, start: Date, end: Date)
    ensures Extract(a + b, start, end).Success? <==> Extract(a, start, end).Success? && Extract(b, start, end).Success?
    ensures Extract(a + b, start, end).Success? ==>
      Extract(a + b, start, end).value == Extract(a, start, end).value + Extract(b, start, end).value
    decreases |b|
  {
    if b == [] {
      assert a + b == a;
    } else {
      var b', g := b[..|b| - 1], b[|b| - 1];
      assert a + b == (a + b') + [g];
      assert b == b' + [g];
      ExtractAppend(a, b', start, end);
      ExtractSnoc(a + b', g, start, end);
      ExtractSnoc(b', g, start, end);
      VisitAppend(Extract(a, start, end), Extract(b', start, end), Extract(a + b', start, end), g, start, end);
    }
  }

  /** A date group with no date contributes nothing; one with a malformed date aborts the walk. */
  lemma ExtractOneGroup(g: GameDateGroup, start: Date, end: Date)
    ensures g.gameDate.Absent? ==> Extract([g], start, end) == Success([])
    ensures g.gameDate.Malformed? <==> Extract([g], start, end).Failure?
    ensures g.gameDate.Valid? && InWindow(g.gameDate.date, start, end) ==>
      Extract([g], start, end) == Success(MakeGames(g.gameDate.date, g.games))
    ensures g.gameDate.Valid? && !InWindow(g.gameDate.date, start, end) ==> Extract([g], start, end) == Success([])
  {
    var none: seq<GameDateGroup> := [];
    ExtractSnoc(none, g, start, end);
    assert none + [g] == [g];
    assert [] + GroupGames(g, start, end) == GroupGames(g, start, end);
  }

  /** The walk fails exactly when some date group's date does not parse. */
  lemma {:induction false} ExtractFailsIffMalformed(groups: seq<GameDateGroup>, start: Date, end: Date)
    ensures Extract(groups, start, end).Failure? <==> exists j | 0 <= j < |groups| :: groups[j].gameDate.Malformed?
  {
    if groups != [] {
      var init := groups[..|groups| - 1];
      ExtractFailsIffMalformed(init, start, end);
      assert forall j | 0 <= j < |init| :: init[j] == groups[j];
    }
  }

  /** Every emitted game is dated inside the window. */
  lemma {:induction false} ExtractInWindow(groups: seq<GameDateGroup>, start: Date, end: Date)
    requires Extract(groups, start, end).Success?
    ensures forall w | w in Extract(groups, start, end).value :: InWindow(w.date, start, end)
  {
    if groups != [] {
      ExtractInWindow(groups[..|groups| - 1], start, end);
    }
  }

  /** The games one date group contributes. */
  lemma GroupGamesMembers(g: GameDateGroup, start: Date, end: Date, w: WeekGame)
    ensures w in GroupGames(g, start, end) <==>
      exists k | 0 <= k < |g.games| ::
        g.gameDate.Valid? && InWindow(g.gameDate.date, start, end) && w == MakeGame(g.gameDate.date, g.games[k])
  {
    if g.gameDate.Valid? && InWindow(g.gameDate.date, start, end) {
      var d := g.gameDate.date;
      var ms := MakeGames(d, g.games);
      if w in ms {
        var k :| 0 <= k < |ms| && ms[k] == w;
      }
      if exists k | 0 <= k < |g.games| :: w == MakeGame(d, g.games[k]) {
        var k :| 0 <= k < |g.games| && w == MakeGame(d, g.games[k]);
        assert ms[k] == w;
      }
    }
  }

  /** Some date group emits `w` exactly when an earlier one or the last one does. */
  lemma EmitterSnoc(groups: seq<GameDateGroup>, start: Date, end: Date, w: WeekGame)
    requires groups != []
    ensures var n := |groups| - 1;
      (exists j, k | 0 <= j < |groups| && 0 <= k < |groups[j].games| ::
         groups[j].gameDate.Valid? && InWindow(groups[j].gameDate.date, start, end)
         && w == MakeGame(groups[j].gameDate.date, groups[j].games[k]))
      <==>
      (exists j, k | 0 <= j < n && 0 <= k < |groups[..n][j].games| ::
         groups[..n][j].gameDate.Valid? && InWindow(groups[..n][j].gameDate.date, start, end)
         && w == MakeGame(groups[..n][j].gameDate.date, groups[..n][j].games[k]))
      || (exists k | 0 <= k < |groups[n].games| ::
         groups[n].gameDate.Valid? && InWindow(groups[n].gameDate.date, start, end)
         && w == MakeGame(groups[n].gameDate.date, groups[n].games[k]))
  {
    var n := |groups| - 1;
    assert forall j | 0 <= j < n :: groups[..n][j] == groups[j];
  }

  /** Every game of every in-window date group is emitted, and nothing else is. */
  lemma {:induction false} ExtractExactly(groups: seq<GameDateGroup>, start: Date, end: Date, w: WeekGame)
    requires Extract(groups, start, end).Success?
    ensures w in Extract(groups, start, end).value <==>
      exists j, k | 0 <= j < |groups| && 0 <= k < |groups[j].games| ::
        groups[j].gameDate.Valid? && InWindow(groups[j].gameDate.date, start, end)
        && w == MakeGame(groups[j].gameDate.date, groups[j].games[k])
  {
    if groups != [] {
      var n := |groups| - 1;
      var init, g := groups[..n], groups[n];
      assert groups == init + [g];
      ExtractSnoc(init, g, start, end);
      ExtractExactly(init, start, end, w);
      GroupGamesMembers(g, start, end, w);
      EmitterSnoc(groups, start, end, w);
      var x, y := Extract(init, start, end).value, GroupGames(g, start, end);
      assert Extract(groups, start, end).value == x + y;
      assert w in x + y <==> w in x || w in y;
    }
  }

  /** The week-level contract: no matching week gives no games; otherwise every game lies inside the week. */
  lemma WeekWindowBounds(data: ScheduleData, currentWeek: int)
    ensures (data.leagueSchedule.None? || forall i | 0 <= i < |data.leagueSchedule.value.weeks| ::
               data.leagueSchedule.value.weeks[i].weekNumber != currentWeek)
            ==> WeekWindow(data, currentWeek) == Success([])
    ensures WeekWindow(data, currentWeek).Success? && WeekWindow(data, currentWeek).value != [] ==>
      var w := FindWeek(data.leagueSchedule.value.weeks, currentWeek).value;
      forall g | g in WeekWindow(data, currentWeek).value :: InWindow(g.date, w.startDate.date, w.endDate.date)
  {
    var ls := match data.leagueSchedule case Some(l) => l case None => LeagueSchedule([], []);
    var fw := FindWeek(ls.weeks, currentWeek);
    if fw.Some? && fw.value.startDate.Valid? && fw.value.endDate.Valid?
       && Extract(ls.gameDates, fw.value.startDate.date, fw.value.endDate.date).Success? {
      ExtractInWindow(ls.gameDates, fw.value.startDate.date, fw.value.endDate.date);
    }
  }

  /** A week from 2025-01-20 to 2025-01-26 keeps a game on the 26th and drops one on the 27th. */
  lemma WindowExample()
    ensures var week := Week(5, Valid(Date(2025, 1, 20)), Valid(Date(2025, 1, 26)));
            var g := FeedGame(Some("GSW"), Some("LAL"));
            var data := ScheduleData(Some(LeagueSchedule([week],
                          [GameDateGroup(Valid(Date(2025, 1, 26)), [g]), GameDateGroup(Valid(Date(2025, 1, 27)), [g])])));
            WeekWindow(data, 5) == Success([WeekGame(Date(2025, 1, 26), "GSW", "LAL")])
  {
    var week := Week(5, Valid(Date(2025, 1, 20)), Valid(Date(2025, 1, 26)));
    var g := FeedGame(Some("GSW"), Some("LAL"));
    var groups := [GameDateGroup(Valid(Date(2025, 1, 26)), [g]), GameDateGroup(Valid(Date(2025, 1, 27)), [g])];
    var data := ScheduleData(Some(LeagueSchedule([week], groups)));
    var start, end := Date(2025, 1, 20), Date(2025, 1, 26);
    var game := WeekGame(Date(2025, 1, 26), "GSW", "LAL");
    assert FindWeek([week], 5) == Some(week);
    assert InWindow(Date(2025, 1, 26), start, end);
    assert !InWindow(Date(2025, 1, 27), start, end);
    assert MakeGames(Date(2025, 1, 26), [g]) == [game];
    ExtractOneGroup(groups[0], start, end);
    ExtractSnoc([groups[0]], groups[1], start, end);
    assert [groups[0]] + [groups[1]] == groups;
    assert GroupGames(groups[1], start, end) == [];
    assert [game] + [] == [game];
  }
}
