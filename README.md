# Fantasy basketball lineup advisor: the data-shaping pipeline

This project models, in Dafny, the deterministic part of a fantasy-basketball
advisor. Given an NBA league schedule and a fantasy roster, the advisor does the following:

1. normalises each roster player's professional-team code to the schedule's
   three-letter tricode (`GS` becomes `GSW`, and so on);
2. extracts the current scoring week's games from the league schedule, with
   both end dates included;
3. keeps, for each player, the games their team plays and names the opponent;
4. attaches to each game the player's historical per-100-possessions averages
   against that opponent, an empty record, or an error text;
5. scores a schedule with a weighted sum of stats;
6. lays the schedules out as text lines and greedily packs the lines into
   chunks that fit a character budget before they are sent to a language model.

From the waiver-wire analyser it also models the ranking of free agents. That
ranking coerces each player's ranking field to a number in place and returns
the ten best players in stable descending order.

The modules follow the program's structure:

| module | file | what it holds |
|---|---|---|
| `Outcome` | `outcome.dfy` | `Option` and `Result` |
| `Values` | `values.dfy` | loosely typed Python values: `None`, numbers, strings, ordered dictionaries |
| `OrderedMaps` | `ordered_maps.dfy` | string-keyed dictionaries that remember insertion order |
| `TeamCodes` | `team_codes.dfy` | the tricode table and its lookup |
| `WeekSchedule` | `week_schedule.dfy` | `get_week_schedule` |
| `PlayerSchedules` | `player_schedules.dfy` | the team filter and the per-game performance entries of `get_player_schedules` |
| `Projection` | `projection.dfy` | `calculate_player_projected_points` |
| `Formatting` | `formatting.dfy` | `format_data_for_gpt`, line by line |
| `Chunking` | `chunking.dfy` | `chunk_data` |
| `Waiver` | `waiver.dfy` | `get_top_free_agents` |

The operations that build their result step by step are methods with loops:
`GetWeekSchedule`, `GetPlayerSchedules`, `CalculatePlayerProjectedPoints`,
`FormatDataForGpt`, `ChunkData` and `GetTopFreeAgents`. Some loops are methods
of their own: `CollectWeekGames` holds the nested pair of loops over date
groups and games; `WritePlayer` and `WriteGame` are the bodies of the loops over
players and over one player's games; `CoerceAll` is the coercion loop that
`GetTopFreeAgents` runs before sorting. Each method is proved equal to a
specification function. The properties of the code are then proved as
lemmas about those functions. `get_top_free_agents` mutates the players'
dictionaries, so a player is a class (`Waiver.FreeAgent`) whose `fields` the
method updates. The method's contract states every player's new dictionary.

Some behaviours of the code worth knowing:

- A game date that cannot be parsed makes `get_week_schedule` raise
  (`datetime.strptime` at line 123), so the whole extraction fails rather than
  skipping that date. `WeekSchedule.Extract` returns `Failure(UnparseableDate)`.
- Five lines of ten characters with a budget of 20 give five chunks. Each
  line is charged its length plus one, so a second line never fits
  (11 + 10 > 20). `Chunking.TenCharacterLinesExample` states this.
- When the first line alone is over the budget, the code closes an empty
  first chunk. The output then starts with `""`, and joining the chunks gives
  the text with one extra leading newline (`Chunking.ChunksRoundTripOverlong`).
  Every other chunk is non-empty.
- The opponent differs from the player's own team only when the game's two
  teams differ. A feed game listing the same team twice makes the opponent
  that team.
- The scoring function looks up the keys `"PTS"`, `"REB"`, `"TO"` and so on.
  The scoring table uses long names such as `"Points (PTS)"`, so the built-in
  defaults always apply. Turnovers are subtracted with a default weight of -1,
  so they raise the score. The performance records the pipeline builds nest
  the stats under `"Per100Possessions"`. Scoring such a record therefore gives
  0, and scoring the error text fails (`Projection.PipelineEntryScore`).

## Model

| member | source | states |
|---|---|---|
| `TeamCodes.Resolve` | nba_fantasy_basketball_GPT_Advisor.py:146 | `team_to_tricode_map.get(code, code)`: a code in the table becomes its entry, any other code is kept as it is |
| `TeamCodes.KnownTranslations` | nba_fantasy_basketball_GPT_Advisor.py:42-73 | GS, NO, NY, PHL, PHO and SA become GSW, NOP, NYK, PHI, PHX and SAS; every other code in the table maps to itself |
| `TeamCodes.ProTeamToTricodeSettled` | nba_fantasy_basketball_GPT_Advisor.py:42-73 | no tricode the table produces is sent elsewhere by a second lookup |
| `TeamCodes.ResolveIdempotent` | nba_fantasy_basketball_GPT_Advisor.py:146 | for any settled table, `table.get(code, code)` applied twice equals applying it once |
| `TeamCodes.TricodeIdempotent` | nba_fantasy_basketball_GPT_Advisor.py:146 | normalising an already normalised code with the real table changes nothing |
| `WeekSchedule.MakeGame` | nba_fantasy_basketball_GPT_Advisor.py:126-130 | the emitted record carries the group's date and the two tricodes, with `"Unknown"` for a side whose tricode is missing |
| `WeekSchedule.FindWeek` | nba_fantasy_basketball_GPT_Advisor.py:112 | the week found is the first with the requested number; there is none exactly when no week has that number |
| `WeekSchedule.GetWeekSchedule` | nba_fantasy_basketball_GPT_Advisor.py:107-131 | the nested loops return exactly the week window: empty for an unknown week, a failure for an unparseable date, otherwise the in-window games in feed order |
| `WeekSchedule.CollectWeekGames` | nba_fantasy_basketball_GPT_Advisor.py:119-131 | for a parsed week window, the loops over the date groups and their games return exactly the extraction: the in-window games in feed order, or the failure of the first unparseable date |
| `WeekSchedule.ExtractAppend` | nba_fantasy_basketball_GPT_Advisor.py:119-130 | extracting from two runs of date groups succeeds when both succeed and concatenates their games in order |
| `WeekSchedule.ExtractOneGroup` | nba_fantasy_basketball_GPT_Advisor.py:120-130 | a group without a date adds nothing; a malformed date fails; an in-window date adds all its games with `"Unknown"` for a missing tricode; an out-of-window date adds nothing |
| `WeekSchedule.ExtractFailsIffMalformed` | nba_fantasy_basketball_GPT_Advisor.py:123 | the extraction fails exactly when some group's date cannot be parsed |
| `WeekSchedule.ExtractInWindow` | nba_fantasy_basketball_GPT_Advisor.py:124 | every extracted game lies between the start and end dates, both included |
| `WeekSchedule.ExtractExactly` | nba_fantasy_basketball_GPT_Advisor.py:119-130 | a game is extracted exactly when it comes from a group whose valid date is in the window |
| `WeekSchedule.WeekWindowBounds` | nba_fantasy_basketball_GPT_Advisor.py:110-117 | a missing schedule or week number gives the empty list; otherwise every game lies within the found week's dates |
| `WeekSchedule.WindowExample` | nba_fantasy_basketball_GPT_Advisor.py:124 | for the week of 20 to 26 January 2025, a game on the 26th is kept and a game on the 27th is not |
| `PlayerSchedules.TeamSchedule` | nba_fantasy_basketball_GPT_Advisor.py:150-160 | the comprehension keeps at most the week's games, and every kept game is tagged with the team's tricode |
| `PlayerSchedules.Annotate` | nba_fantasy_basketball_GPT_Advisor.py:151-157 | for a game the team plays, the opponent and the team are the game's two sides; the opponent differs from the team when the sides differ |
| `PlayerSchedules.TeamScheduleAppend` | nba_fantasy_basketball_GPT_Advisor.py:150-160 | filtering a concatenated week gives the concatenation of the filtered parts, so the week's order is kept |
| `PlayerSchedules.TeamScheduleMembers` | nba_fantasy_basketball_GPT_Advisor.py:150-160 | the filtered games are exactly the annotated games involving the team, each tagged with the team's tricode |
| `PlayerSchedules.TeamScheduleEmpty` | nba_fantasy_basketball_GPT_Advisor.py:158-159 | a team that plays no game that week gets an empty schedule |
| `PlayerSchedules.PerformanceOf` | nba_fantasy_basketball_GPT_Advisor.py:168-203 | a failed fetch gives the error text; no rows give an empty record; rows give a record with the single key `"Per100Possessions"` |
| `PlayerSchedules.GetPlayerSchedules` | nba_fantasy_basketball_GPT_Advisor.py:143-205 | the loops build exactly the specified dictionary of schedules |
| `PlayerSchedules.PlayerEntriesOnePerGame` | nba_fantasy_basketball_GPT_Advisor.py:164-203 | one entry per team game, in order, holding that game and the performance the fetch outcome determines |
| `PlayerSchedules.SchedulesByName` | nba_fantasy_basketball_GPT_Advisor.py:144-162 | the keys are the roster names in first-appearance order; a name's schedule is that of the last player with the name, since a repeated name resets the list |
| `PlayerSchedules.GoldenStateExample` | nba_fantasy_basketball_GPT_Advisor.py:146-160 | a player listed with team `GS` gets the `GSW` game against LAL with opponent LAL |
| `Projection.Weight` | nba_fantasy_basketball_GPT_Advisor.py:228-234 | `scoring_rules.get(key, default)`: the rule's weight when the key is in the table, the default otherwise |
| `Projection.GameScore` | nba_fantasy_basketball_GPT_Advisor.py:222-235 | a falsy performance scores 0; a truthy one that is not a dictionary raises on `.get`; a dictionary raises exactly when one of the seven read stats is present and not a number, and otherwise scores the sum of each stat times `Weight` of its rule (PTS, REB, AST default 1; STL, BLK default 3; 3PM default 1) with TOV times `Weight` of `TO` (default -1) subtracted, missing stats reading 0 |
| `Projection.Stat` | nba_fantasy_basketball_GPT_Advisor.py:228-234 | a missing stat counts 0; a stat succeeds exactly when it is missing or a number |
| `Projection.CalculatePlayerProjectedPoints` | nba_fantasy_basketball_GPT_Advisor.py:216-239 | the accumulation loop returns the specified total, including its failure |
| `Projection.TotalAppend` | nba_fantasy_basketball_GPT_Advisor.py:220-237 | the total over two runs of games is the sum of their totals, and it succeeds exactly when both do |
| `Projection.FailureIsFinal` | nba_fantasy_basketball_GPT_Advisor.py:221-237 | once a game's score raises, later games do not change the outcome |
| `Projection.TotalFailsIff` | nba_fantasy_basketball_GPT_Advisor.py:221-237 | the total fails exactly when some game's score fails |
| `Projection.FalsyScoresZero` | nba_fantasy_basketball_GPT_Advisor.py:223-224 | an empty or falsy performance contributes 0 |
| `Projection.AbsentStatsScoreZero` | nba_fantasy_basketball_GPT_Advisor.py:227-235 | a record with none of the seven looked-up stats scores 0 |
| `Projection.DefaultWeights` | nba_fantasy_basketball_GPT_Advisor.py:227-235 | with no short-key rules the score is PTS + REB + AST + 3 STL + 3 BLK + TOV + 3PM, so turnovers add |
| `Projection.DoublePointsExample` | nba_fantasy_basketball_GPT_Advisor.py:228-234 | a rule table that sets only PTS to 2 is honoured: 10 points and 2 turnovers score 2 * 10 - 2 * (-1) = 22 |
| `Projection.ScoringRulesFallBackToDefaults` | nba_fantasy_basketball_GPT_Advisor.py:26-39 | scoring with the configured table gives the same as scoring with no rules at all |
| `Projection.PipelineEntryScore` | nba_fantasy_basketball_GPT_Advisor.py:222-235 | a performance built by the pipeline scores 0, or fails when it is the error text |
| `Formatting.LookupPlayer` | nba_fantasy_basketball_GPT_Advisor.py:260-263 | a roster player is found exactly when one has the name; the one found is the last roster element with that name, as the name-to-player dictionary keeps |
| `Formatting.GameLines` | nba_fantasy_basketball_GPT_Advisor.py:273-285 | a game line with date and opponent, then a stats header and one line per stat for a dictionary, or one performance-data line otherwise |
| `Formatting.FormatDataForGpt` | nba_fantasy_basketball_GPT_Advisor.py:242-287 | the loops produce exactly the specified lines or error |
| `Formatting.WritePlayer` | nba_fantasy_basketball_GPT_Advisor.py:267-285 | a roster player found for a scheduled name appends exactly that player's block: the three header lines, then every game's lines in schedule order |
| `Formatting.WriteGame` | nba_fantasy_basketball_GPT_Advisor.py:273-285 | one game appends exactly its lines, the statistics in the dictionary's order |
| `Formatting.FormatErrors` | nba_fantasy_basketball_GPT_Advisor.py:252-257 | an empty roster or one that is not a list is invalid; otherwise an element without a name is an error, and nothing else is |
| `Formatting.GameLinesCounts` | nba_fantasy_basketball_GPT_Advisor.py:273-285 | each game contributes exactly one game line and no player header |
| `Formatting.AllGameLinesCounts` | nba_fantasy_basketball_GPT_Advisor.py:273-285 | a player's games contribute as many game lines as there are games |
| `Formatting.PlayerLinesShape` | nba_fantasy_basketball_GPT_Advisor.py:267-285 | a player's block opens with the header, average points and health status, and has one header and one game line per game |
| `Formatting.BodyHeaders` | nba_fantasy_basketball_GPT_Advisor.py:262-266 | the headers are the schedule names found on the roster, in schedule order; other names are skipped |
| `Chunking.Split` | nba_fantasy_basketball_GPT_Advisor.py:298 | splitting on newlines always gives at least one line |
| `Chunking.SplitNoNewlines` | nba_fantasy_basketball_GPT_Advisor.py:298 | no line produced by the split contains a newline |
| `Chunking.JoinSplit` | nba_fantasy_basketball_GPT_Advisor.py:298 | joining the split lines with newlines gives the text back |
| `Chunking.SplitJoin` | nba_fantasy_basketball_GPT_Advisor.py:298 | splitting the join of newline-free lines gives the lines back |
| `Chunking.ChargeIsLength` | nba_fantasy_basketball_GPT_Advisor.py:304-310 | the running size of a non-empty chunk is its joined length plus one |
| `Chunking.ChunkData` | nba_fantasy_basketball_GPT_Advisor.py:289-315 | the packing loop returns exactly the specified chunks |
| `Chunking.GroupsPartition` | nba_fantasy_basketball_GPT_Advisor.py:303-313 | the chunks' lines, in order, are exactly the input lines |
| `Chunking.GroupsWithinBudget` | nba_fantasy_basketball_GPT_Advisor.py:305-310 | a chunk of two or more lines fits the budget |
| `Chunking.GroupsEmptyOnlyFirst` | nba_fantasy_basketball_GPT_Advisor.py:305-306 | the only empty chunk is a first chunk closed because the first line alone is over the budget |
| `Chunking.GroupsGreedy` | nba_fantasy_basketball_GPT_Advisor.py:305-309 | a chunk is closed only when the next line would push it over the budget |
| `Chunking.ChunksNonEmpty` | nba_fantasy_basketball_GPT_Advisor.py:298-313 | at least one chunk is returned, even for the empty text |
| `Chunking.ChunksWithinBudget` | nba_fantasy_basketball_GPT_Advisor.py:303-313 | a chunk that holds a newline is no longer than the budget, so only single lines exceed it |
| `Chunking.ChunksRoundTrip` | nba_fantasy_basketball_GPT_Advisor.py:298-313 | when the first line fits the budget, joining the chunks with newlines gives the text back |
| `Chunking.ChunksRoundTripOverlong` | nba_fantasy_basketball_GPT_Advisor.py:305-306 | when the first line is over the budget, joining the chunks gives the text with one extra leading newline |
| `Chunking.TenCharacterLinesExample` | nba_fantasy_basketball_GPT_Advisor.py:303-310 | five ten-character lines with budget 20 become five one-line chunks |
| `Chunking.NineCharacterLinesExample` | nba_fantasy_basketball_GPT_Advisor.py:303-310 | two nine-character lines with budget 20 share one chunk |
| `Waiver.Coerced` | nba_fantasy_waiver_advisor/player-waiver-wire-GPT-analyzer.py:100-103 | the number stored: 0 for a missing field, the number for a number, the parsed value for a string that parses and 0 for one that does not |
| `Waiver.CoerceField` | nba_fantasy_waiver_advisor/player-waiver-wire-GPT-analyzer.py:100-103 | after the assignment the field holds the coerced number, and the dictionary can be coerced again |
| `Waiver.CoerceFieldEffect` | nba_fantasy_waiver_advisor/player-waiver-wire-GPT-analyzer.py:98-103 | the field becomes a number: 0 when missing or unparseable, the parsed or stored number otherwise; other fields keep their values; a new field goes last |
| `Waiver.CoerceFieldIdempotent` | nba_fantasy_waiver_advisor/player-waiver-wire-GPT-analyzer.py:98-100 | coercing twice is coercing once, so a player listed twice ends up the same |
| `Waiver.CoercedAfterCoercion` | nba_fantasy_waiver_advisor/player-waiver-wire-GPT-analyzer.py:100-104 | the number sorted on after coercion is the number the coercion stored |
| `Waiver.CoerceAll` | nba_fantasy_waiver_advisor/player-waiver-wire-GPT-analyzer.py:98-103 | every listed player's dictionary is coerced in place, once, even when the same player appears more than once in the list |
| `Waiver.GetTopFreeAgents` | nba_fantasy_waiver_advisor/player-waiver-wire-GPT-analyzer.py:96-104 | every listed player's dictionary is coerced in place; the result is the players at the top ten positions of the stable descending ranking of the coerced numbers |
| `Waiver.Ranking` | nba_fantasy_waiver_advisor/player-waiver-wire-GPT-analyzer.py:104 | the ranking lists every position once, higher numbers first, equal numbers in list order |
| `Waiver.RankingUnique` | nba_fantasy_waiver_advisor/player-waiver-wire-GPT-analyzer.py:104 | any arrangement of all positions in that order is the ranking, so it is what a stable descending sort produces |
| `Waiver.TopLength` | nba_fantasy_waiver_advisor/player-waiver-wire-GPT-analyzer.py:104 | ten players are returned, or all of them when there are fewer |
| `Waiver.TopOrdered` | nba_fantasy_waiver_advisor/player-waiver-wire-GPT-analyzer.py:104 | the returned players are input players, none twice, with non-increasing numbers and ties in list order |
| `Waiver.TopBeatsOmitted` | nba_fantasy_waiver_advisor/player-waiver-wire-GPT-analyzer.py:104 | an omitted player scores no better than any returned one and loses ties to earlier players |
| `Waiver.TopKeepsAllWhenFew` | nba_fantasy_waiver_advisor/player-waiver-wire-GPT-analyzer.py:104 | with ten players or fewer, every player is returned |
| `Waiver.RankingExample` | nba_fantasy_waiver_advisor/player-waiver-wire-GPT-analyzer.py:104 | numbers 1, 3, 3, 2 rank as positions 1, 2, 3, 0 |

## Left out

- HTTP fetching with retries and sleeps (`fetch_data_with_retries`, `fetch_nba_schedule`) is network I/O. The schedule enters the model as an already decoded `WeekSchedule.ScheduleData`.
- `get_team_id`, `teamvsplayer.TeamVsPlayer` and the pandas `select_dtypes`/`mean` reduction are foreign code. The model takes the fetch as a parameter `fetch(playerId, opponentTricode)` returning rows of means, no rows, or an exception.
- Because `fetch` is a function of the player and the opponent, two games against the same opponent always get the same performance; the code makes a separate call per game, and each call can fail or return on its own.
- The numeric values of the per-game means are floating point. They are opaque `real`s here, and their computation is not modelled.
- `get_player_health_status` reads attributes of a library object by reflection. A player's health status is a plain string field.
- The language-model calls (`get_gpt_recommendations`, `get_gpt_commendations`), the module-level league and team globals, environment loading, the unused cache and both `main` functions are not part of this model.
- Printing and `time.sleep` calls inside the modelled functions are left out; they do not change results.
- The schedule feed is taken to hold no JSON nulls. A `teamTricode` stored as null would come out as `None` rather than `"Unknown"` (lines 128-129), and a `leagueSchedule` of null would raise at line 110; neither input is modelled.
- Date parsing is abstract. A schedule date is absent, a valid (year, month, day) triple or malformed. Time of day is dropped, and dates compare lexicographically.
- Text rendering of values is abstract (`str()` of numbers, dates and dictionaries, and `"\n".join` of the output lines). `Formatting` works at line granularity.
- `Formatting.FormatDataForGpt` receives a roster element either as a named player or as one without a `name` attribute. Attribute reflection itself is not modelled.
- The rest of the waiver analyser (`get_free_agents_with_trends`, `get_recent_performance`, `normalize_name`, its `format_data_for_gpt`) is API access, wall-clock time, Unicode normalisation and float formatting. None of it is part of this model.
- `Values.Value` does not tell integers from floats, so the integer `0` stored on a failed conversion and `0.0` are the same number.
- Waiver.GetTopFreeAgents: requires every ranking field to be missing, a number or a string. `float(None)` and `float` of a dictionary raise `TypeError`, which the source does not catch. It also requires a `"name"` field whenever a string does not parse, since the error message reads it.
- Waiver.CoerceAll: has the same requirement as `Waiver.GetTopFreeAgents`, for the same reason; the exception an unconvertible field raises is not modelled.
- Waiver.Coerced: Python's `float` on strings is a parameter `parseFloat`. `NaN` is not modelled; it would make `sorted` depend on the input order. Dafny's `real` has no infinities.
- setup.py is packaging metadata and is not part of this model.
