/** The records the prediction feature passes around: the request, the
    response with its historical matches, and the context built for the
    prompt. A nullable String field is an Option. Confidence scores are
    doubles in the program; here they are the tokens that say where a score
    came from. */
module PredictionModel {
  import opened Outcomes

  datatype PredictionRequest = PredictionRequest(homeTeam: string, awayTeam: string, competition: string, matchDate: string)

  /** PredictionResponse.HistoricalMatch. */
  datatype HistoricalMatch = HistoricalMatch(
    homeTeam: Option<string>, awayTeam: Option<string>, result: Option<string>,
    competition: Option<string>, date: Option<string>)

  /** Where a response's confidence comes from: the number the model
      returned (its JSON literal), DEFAULT_CONFIDENCE (0.5),
      FALLBACK_CONFIDENCE (0.33) or the 0.0 of an unavailable service. */
  datatype Confidence = Reported(literal: string) | DefaultConfidence | FallbackConfidence | ZeroConfidence

  datatype PredictionResponse = PredictionResponse(
    predictedWinner: Option<string>, confidence: Confidence, reasoning: Option<string>,
    keyFactors: seq<string>, relevantMatches: seq<HistoricalMatch>)

  /** MatchContext.TeamStats. */
  datatype TeamStats = TeamStats(totalMatches: int, wins: int, draws: int, losses: int, goalsScored: int, goalsConceded: int)

  datatype MatchContext = MatchContext(
    summary: string, relevantMatches: seq<HistoricalMatch>, homeTeamStats: TeamStats, awayTeamStats: TeamStats)

  /** TeamStats.empty(): every counter zero. */
  function EmptyTeamStats(): TeamStats {
    TeamStats(0, 0, 0, 0, 0, 0)
  }
}
