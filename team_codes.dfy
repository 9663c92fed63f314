/**
 * Normalisation of a roster player's professional-team code into the
 * three-letter code the league schedule uses: a fixed table, then the
 * code itself when the table has no entry for it.
 */
module TeamCodes {

  /** The table of roster-source codes and the schedule tricodes they stand for. */
  const ProTeamToTricode: map<string, string> := map[
    "ATL" := "ATL", "BOS" := "BOS", "BKN" := "BKN", "CHA" := "CHA",
    "CHI" := "CHI", "CLE" := "CLE", "DAL" := "DAL", "DEN" := "DEN",
    "DET" := "DET", "GS" := "GSW", "HOU" := "HOU", "IND" := "IND",
    "LAC" := "LAC", "LAL" := "LAL", "MEM" := "MEM", "MIA" := "MIA",
    "MIL" := "MIL", "MIN" := "MIN", "NO" := "NOP", "NY" := "NYK",
    "OKC" := "OKC", "ORL" := "ORL", "PHL" := "PHI", "PHO" := "PHX",
    "POR" := "POR", "SAC" := "SAC", "SA" := "SAS", "TOR" := "TOR",
    "UTA" := "UTA", "WAS" := "WAS"
  ]

  /** `table.get(code, code)`: the mapped code, or the code itself when unmapped. */
  function Resolve(table: map<string, string>, code: string): (r: string)
    ensures code in table ==> r == table[code]
    ensures code !in table ==> r == code
  {
    if code in table then table[code] else code
  }

  /** No code the table produces is sent anywhere else by a second lookup. */
  ghost predicate Settled(table: map<string, string>)
  {
    forall k | k in table :: table[k] !in table || table[table[k]] == table[k]
  }

  /** Resolving twice is resolving once, for any settled table. */
  lemma ResolveIdempotent(table: map<string, string>, code: string)
    requires Settled(table)
    ensures Resolve(table, Resolve(table, code)) == Resolve(table, code)
  {
    if code in table {
      assert table[code] !in table || table[table[code]] == table[code];
    }
  }

  /** The table in use is settled: each target is either no key at all or a key that maps to itself. */
  lemma ProTeamToTricodeSettled()
    ensures Settled(ProTeamToTricode)
  {
  }

  /** The six codes the two sources spell differently are translated; the others map to themselves. */
  lemma KnownTranslations()
    ensures Resolve(ProTeamToTricode, "GS") == "GSW"
    ensures Resolve(ProTeamToTricode, "NO") == "NOP"
    ensures Resolve(ProTeamToTricode, "NY") == "NYK"
    ensures Resolve(ProTeamToTricode, "PHL") == "PHI"
    ensures Resolve(ProTeamToTricode, "PHO") == "PHX"
    ensures Resolve(ProTeamToTricode, "SA") == "SAS"
    ensures forall k | k in ProTeamToTricode && k !in {"GS", "NO", "NY", "PHL", "PHO", "SA"} ::
      Resolve(ProTeamToTricode, k) == k
  {
  }

  /** Normalisation with the table in use is idempotent. */
  lemma TricodeIdempotent(code: string)
    ensures Resolve(ProTeamToTricode, Resolve(ProTeamToTricode, code)) == Resolve(ProTeamToTricode, code)
  {
    ProTeamToTricodeSettled();
    ResolveIdempotent(ProTeamToTricode, code);
  }
}
