/**
 * Projected fantasy points: a weighted sum of seven statistics per game,
 * accumulated over a player's games. The weights are looked up under the
 * short keys "PTS", "REB", "AST", "STL", "BLK", "TO" and "3PM", with
 * defaults 1, 1, 1, 3, 3, -1 and 1, and the turnover term is subtracted.
 */
module Projection {

  import opened Outcome
  import opened Values
  import opened PlayerSchedules

  /** The scoring rules of the league, keyed by their long descriptive names. */
  const SCORING_RULES: map<string, real> := map[
    "Field Goals Missed (FGMI)" := -0.5,
    "Free Throws Missed (FTMI)" := -0.5,
    "Three Pointers Made (3PM)" := 1.0,
    "Rebounds (REB)" := 1.0,
    "Assists (AST)" := 1.0,
    "Steals (STL)" := 3.0,
    "Blocks (BLK)" := 3.0,
    "Turnovers (TO)" := -1.0,
    "Double Doubles (DD)" := 5.0,
    "Triple Doubles (TD)" := 15.0,
    "Quadruple Doubles (QD)" := 50.0,
    "Points (PTS)" := 1.0
  ]

  /** The exceptions scoring can raise: `.get` on a value that is no dictionary, or arithmetic on a stat that is no number. */
  datatype ScoreError = NotAMapping | NotANumber

  /** `rules.get(key, default)`. */
  function Weight(rules: map<string, real>, key: string, default: real): (w: real)
    ensures key in rules ==> w == rules[key]
    ensures key !in rules ==> w == default
  {
    if key in rules then rules[key] else default
  }

  /** `performance.get(key, 0)` as a number: an absent stat is 0. */
  function Stat(items: seq<(string, Value)>, key: string): (r: Result<real, ScoreError>)
    ensures Get(items, key).None? ==> r == Success(0.0)
    ensures Get(items, key).Some? && Get(items, key).value.Num? ==> r == Success(Get(items, key).value.n)
    ensures r.Success? <==> Get(items, key).None? || Get(items, key).value.Num?
  {
    match Get(items, key)
    case None => Success(0.0)
    case Some(v) => if v.Num? then Success(v.n) else Failure(NotANumber)
  }

  predicate AllNumeric(items: seq<(string, Value)>)
  {
    && Stat(items, "PTS").Success? && Stat(items, "REB").Success? && Stat(items, "AST").Success?
    && Stat(items, "STL").Success? && Stat(items, "BLK").Success? && Stat(items, "TOV").Success?
    && Stat(items, "3PM").Success?
  }

  /** The seven weights the scoring looks up, each with its default. */
  datatype Weights = Weights(pts: real, reb: real, ast: real, stl: real, blk: real, tov: real, threes: real)

  function WeightsOf(rules: map<string, real>): Weights
  {
    Weights(Weight(rules, "PTS", 1.0), Weight(rules, "REB", 1.0), Weight(rules, "AST", 1.0),
            Weight(rules, "STL", 3.0), Weight(rules, "BLK", 3.0), Weight(rules, "TO", -1.0),
            Weight(rules, "3PM", 1.0))
  }

  /** The weighted sum, with turnovers subtracted. */
  function Points(items: seq<(string, Value)>, w: Weights): real
    requires AllNumeric(items)
  {
    Stat(items, "PTS").value * w.pts +
    Stat(items, "REB").value * w.reb +
    Stat(items, "AST").value * w.ast +
    Stat(items, "STL").value * w.stl +
    Stat(items, "BLK").value * w.blk -
    Stat(items, "TOV").value * w.tov +
    Stat(items, "3PM").value * w.threes
  }

  /** The seven stats a performance record is read at. */
  const STAT_KEYS: set<string> := {"PTS", "REB", "AST", "STL", "BLK", "TOV", "3PM"}

  /**
   * The score of one game; a falsy performance is skipped and scores nothing. `.get` on
   * anything but a dictionary raises, and so does arithmetic on a read stat that is not a number.
   */
  function GameScore(performance: Value, rules: map<string, real>): (r: Result<real, ScoreError>)
    ensures !Truthy(performance) ==> r == Success(0.0)
    ensures r == Failure(NotAMapping) <==> Truthy(performance) && !performance.Dict?
    ensures r == Failure(NotANumber) <==> (Truthy(performance) && performance.Dict? &&
      exists k | k in STAT_KEYS :: Get(performance.items, k).Some? && !Get(performance.items, k).value.Num?)
    ensures Truthy(performance) && performance.Dict? && AllNumeric(performance.items) ==>
      r == Success(Points(performance.items,
        Weights(Weight(rules, "PTS", 1.0), Weight(rules, "REB", 1.0), Weight(rules, "AST", 1.0),
                Weight(rules, "STL", 3.0), Weight(rules, "BLK", 3.0), Weight(rules, "TO", -1.0),
                Weight(rules, "3PM", 1.0))))
  {
    if !Truthy(performance) then Success(0.0)
    else if !performance.Dict? then Failure(NotAMapping)
    else
      AllNumericIff(performance.items);
      if !AllNumeric(performance.items) then Failure(NotANumber)
      else Success(Points(performance.items, WeightsOf(rules)))
  }

  /** The seven reads all succeed exactly when no read stat is something other than a number. */
  lemma AllNumericIff(items: seq<(string, Value)>)
    ensures AllNumeric(items) <==> forall k | k in STAT_KEYS :: Get(items, k).None? || Get(items, k).value.Num?
  {
    if AllNumeric(items) {
      forall k | k in STAT_KEYS
        ensures Get(items, k).None? || Get(items, k).value.Num?
      {
        assert k == "PTS" || k == "REB" || k == "AST" || k == "STL" || k == "BLK" || k == "TOV" || k == "3PM";
      }
    }
  }

  /** The running total over the games, or the first exception. */
  function Total(schedule: seq<Entry>, rules: map<string, real>): Result<real, ScoreError>
  {
    if schedule == [] then Success(0.0)
    else Accumulate(Total(schedule[..|schedule| - 1], rules), GameScore(schedule[|schedule| - 1].performance, rules))
  }

  /** One iteration of the loop: an earlier exception propagates, then this game's, otherwise its points are added. */
  function Accumulate(total: Result<real, ScoreError>, points: Result<real, ScoreError>): Result<real, ScoreError>
  {
    match total
    case Failure(e) => Failure(e)
    case Success(t) =>
      match points
      case Failure(e) => Failure(e)
      case Success(p) => Success(t + p)
  }

  /** `calculate_player_projected_points`: the loop accumulating `total_points`. */
  method CalculatePlayerProjectedPoints(player: Player, playerSchedule: seq<Entry>, scoringRules: map<string, real>)
    returns (r: Result<real, ScoreError>)
    ensures r == Total(playerSchedule, scoringRules)
  {
    var totalPoints := 0.0;
    for i := 0 to |playerSchedule|
      invariant Total(playerSchedule[..i], scoringRules) == Success(totalPoints)
    {
      var performance := playerSchedule[i].performance;
      if !Truthy(performance) {
        FalsyScoresZero(performance, scoringRules);
        TotalStepSuccess(playerSchedule, i, scoringRules, totalPoints);
        continue;
      }
      var points := GameScore(performance, scoringRules);
      if points.Failure? {
        TotalStepFailure(playerSchedule, i, scoringRules, totalPoints);
        FailureIsFinal(playerSchedule, i + 1, scoringRules);
        return Failure(points.error);
      }
      TotalStepSuccess(playerSchedule, i, scoringRules, totalPoints);
      totalPoints := totalPoints + points.value;
    }
    assert playerSchedule[..|playerSchedule|] == playerSchedule;
    return Success(totalPoints);
  }

  /** One more game adds its score to a running total, or ends it with the game's exception. */
  lemma TotalPrefixStep(schedule: seq<Entry>, i: nat, rules: map<string, real>)
    requires i < |schedule|
    ensures Total(schedule[..i + 1], rules) == Accumulate(Total(schedule[..i], rules), GameScore(schedule[i].performance, rules))
  {
    var prefix := schedule[..i + 1];
    assert prefix[..|prefix| - 1] == schedule[..i];
    assert prefix[|prefix| - 1] == schedule[i];
  }

  /** A game that scores adds its points to the running total. */
  lemma TotalStepSuccess(schedule: seq<Entry>, i: nat, rules: map<string, real>, t: real)
    requires i < |schedule| && Total(schedule[..i], rules) == Success(t)
    requires GameScore(schedule[i].performance, rules).Success?
    ensures Total(schedule[..i + 1], rules) == Success(t + GameScore(schedule[i].performance, rules).value)
  {
    TotalPrefixStep(schedule, i, rules);
  }

  /** A game that raises ends the running total with its exception. */
  lemma TotalStepFailure(schedule: seq<Entry>, i: nat, rules: map<string, real>, t: real)
    requires i < |schedule| && Total(schedule[..i], rules) == Success(t)
    requires GameScore(schedule[i].performance, rules).Failure?
    ensures Total(schedule[..i + 1], rules) == Failure(GameScore(schedule[i].performance, rules).error)
  {
    TotalPrefixStep(schedule, i, rules);
  }

  lemma {:induction false} TotalAppend(a: seq<Entry>, b: seq<Entry>, rules: map<string, real>)
    ensures Total(a + b, rules).Success? <==> Total(a, rules).Success? && Total(b, rules).Success?
    ensures Total(a + b, rules).Success? ==> Total(a + b, rules).value == Total(a, rules).value + Total(b, rules).value
    decreases |b|
  {
    if b == [] {
      assert a + b == a;
    } else {
      var b' := b[..|b| - 1];
      assert (a + b)[..|a + b| - 1] == a + b';
      assert (a + b)[|a + b| - 1] == b[|b| - 1];
      TotalAppend(a, b', rules);
    }
  }

  /** Once the running total has failed, later games do not change the outcome: the first exception is the one raised. */
  lemma {:induction false} FailureIsFinal(schedule: seq<Entry>, n: nat, rules: map<string, real>)
    requires n <= |schedule| && Total(schedule[..n], rules).Failure?
    ensures Total(schedule, rules) == Total(schedule[..n], rules)
    decreases |schedule| - n
  {
    if n < |schedule| {
      assert schedule[..n + 1][..n] == schedule[..n];
      FailureIsFinal(schedule, n + 1, rules);
    } else {
      assert schedule[..n] == schedule;
    }
  }

  /** The total fails exactly when some game's performance cannot be scored. */
  lemma {:induction false} TotalFailsIff(schedule: seq<Entry>, rules: map<string, real>)
    ensures Total(schedule, rules).Failure? <==>
      exists k | 0 <= k < |schedule| :: GameScore(schedule[k].performance, rules).Failure?
  {
    if schedule != [] {
      var init := schedule[..|schedule| - 1];
      TotalFailsIff(init, rules);
      assert forall k | 0 <= k < |init| :: init[k] == schedule[k];
    }
  }

  /** A game with an empty (or otherwise falsy) performance adds nothing. */
  lemma FalsyScoresZero(performance: Value, rules: map<string, real>)
    requires !Truthy(performance)
    ensures GameScore(performance, rules) == Success(0.0)
  {
  }

  /** A performance dictionary that holds none of the seven stats scores 0. */
  lemma AbsentStatsScoreZero(items: seq<(string, Value)>, rules: map<string, real>)
    requires forall i | 0 <= i < |items| :: items[i].0 !in STAT_KEYS
    ensures GameScore(Dict(items), rules) == Success(0.0)
  {
    assert Get(items, "PTS").None? && Get(items, "REB").None? && Get(items, "AST").None?;
    assert Get(items, "STL").None? && Get(items, "BLK").None? && Get(items, "TOV").None? && Get(items, "3PM").None?;
  }

  /**
   * With rules that define none of the short keys, a game scores
   * PTS + REB + AST + 3 STL + 3 BLK + TOV + 3PM: the turnover term is
   * subtracted with a default weight of -1, so turnovers add to the score.
   */
  lemma DefaultWeights(items: seq<(string, Value)>, rules: map<string, real>)
    requires forall k | k in rules :: k !in {"PTS", "REB", "AST", "STL", "BLK", "TO", "3PM"}
    requires AllNumeric(items)
    ensures GameScore(Dict(items), rules) == Success(
      Stat(items, "PTS").value + Stat(items, "REB").value + Stat(items, "AST").value
      + 3.0 * Stat(items, "STL").value + 3.0 * Stat(items, "BLK").value
      + Stat(items, "TOV").value + Stat(items, "3PM").value)
  {
    assert "PTS" !in rules && "REB" !in rules && "AST" !in rules && "STL" !in rules;
    assert "BLK" !in rules && "TO" !in rules && "3PM" !in rules;
    assert WeightsOf(rules) == Weights(1.0, 1.0, 1.0, 3.0, 3.0, -1.0, 1.0);
  }

  /** The league's own rules are keyed by long names, so the defaults are what apply. */
  lemma ScoringRulesFallBackToDefaults(performance: Value)
    ensures GameScore(performance, SCORING_RULES) == GameScore(performance, map[])
  {
    ShortKeysUnused();
    assert WeightsOf(SCORING_RULES) == WeightsOf(map[]);
  }

  /** A table that doubles points is read: 10 points and 2 turnovers score 2 * 10 - 2 * (-1) = 22. */
  lemma DoublePointsExample()
    ensures GameScore(Dict([("PTS", Num(10.0)), ("TOV", Num(2.0))]), map["PTS" := 2.0]) == Success(22.0)
  {
  }

  /** None of the seven short keys the scoring looks up is a key of the league's rules. */
  lemma ShortKeysUnused()
    ensures "PTS" !in SCORING_RULES && "REB" !in SCORING_RULES && "AST" !in SCORING_RULES
    ensures "STL" !in SCORING_RULES && "BLK" !in SCORING_RULES && "TO" !in SCORING_RULES
    ensures "3PM" !in SCORING_RULES
  {
    assert forall k | k in SCORING_RULES :: |k| > 3;
  }

  /**
   * Applied to an entry built by `get_player_schedules`, the score is 0 or
   * the scoring raises: the statistics there sit one level down, under the
   * measure type, where the seven short keys are never looked for.
   */
  lemma PipelineEntryScore(o: FetchOutcome, rules: map<string, real>)
    ensures o.Raised? ==> GameScore(PerformanceOf(o), rules) == Failure(NotAMapping)
    ensures !o.Raised? ==> GameScore(PerformanceOf(o), rules) == Success(0.0)
  {
    if o.Rows? {
      AbsentStatsScoreZero(PerformanceOf(o).items, rules);
    }
  }
}
