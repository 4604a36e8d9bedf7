/** MatchContextBuilder: folds the documents the vector search returned
    into the historical matches and the text summary the prompt carries,
    and falls back to recent finished matches from the database when the
    search found nothing. The database query itself is not modelled: its
    rows, or None when it throws, are an input. */
module ContextBuilder {
  import opened Outcomes
  import opened Json
  import opened JavaText
  import opened PredictionModel

  /** A vector-store document: only its metadata map is read. A key mapped
      to JNull holds a Java null. */
  datatype Document = Document(metadata: map<string, Json>)

  /** A row of the fallback query: team and competition names, the score
      JSON as text and the match date as text, each nullable. */
  datatype DbRow = DbRow(
    homeTeam: Option<string>, awayTeam: Option<string>, score: Option<string>,
    competition: Option<string>, matchDate: Option<string>)

  const NoHistory := "No historical data available"

  /** getStringValue: the value's toString, or "" for a missing key or a
      null value. */
  function GetStringValue(metadata: map<string, Json>, key: string): (v: string)
    ensures key !in metadata || metadata[key] == JNull ==> v == ""
    ensures key in metadata && metadata[key].JString? ==> v == metadata[key].s
  {
    if key in metadata && metadata[key] != JNull then JavaString(metadata[key]) else ""
  }

  /** The historical match one document describes. */
  function DocumentMatch(doc: Document): (m: HistoricalMatch)
    ensures m.homeTeam == Some(GetStringValue(doc.metadata, "home_team"))
    ensures m.awayTeam == Some(GetStringValue(doc.metadata, "away_team"))
    ensures m.result == Some(GetStringValue(doc.metadata, "result"))
    ensures m.competition == Some(GetStringValue(doc.metadata, "competition"))
    ensures m.date == Some(GetStringValue(doc.metadata, "date"))
  {
    HistoricalMatch(
      Some(GetStringValue(doc.metadata, "home_team")), Some(GetStringValue(doc.metadata, "away_team")),
      Some(GetStringValue(doc.metadata, "result")), Some(GetStringValue(doc.metadata, "competition")),
      Some(GetStringValue(doc.metadata, "date")))
  }

  /** The text String.format's %s gives a nullable string. */
  function Text(s: Option<string>): string {
    if s.Some? then s.value else "null"
  }

  /** "- %s vs %s: %s (%s, %s)%n" for one match; the line separator is
      "\n". */
  function SummaryLine(m: HistoricalMatch): (line: string)
    ensures StartsWith(line, "- ") && EndsWith(line, "\n")
  {
    "- " + Text(m.homeTeam) + " vs " + Text(m.awayTeam) + ": " + Text(m.result)
    + " (" + Text(m.competition) + ", " + Text(m.date) + ")\n"
  }

  /** The summary line is "- H vs A: R (C, D)" and a line break: each
      field's text sits between its separators, and nothing else is
      written. */
  lemma SummaryLineFields(m: HistoricalMatch)
    ensures var line := SummaryLine(m);
            var h, a, r, c, d := Text(m.homeTeam), Text(m.awayTeam), Text(m.result), Text(m.competition), Text(m.date);
            |line| == |h| + |a| + |r| + |c| + |d| + 14
            && line[..2] == "- " && line[2..2 + |h|] == h
            && line[2 + |h|..6 + |h|] == " vs " && line[6 + |h|..6 + |h| + |a|] == a
            && line[6 + |h| + |a|..8 + |h| + |a|] == ": " && line[8 + |h| + |a|..8 + |h| + |a| + |r|] == r
            && line[8 + |h| + |a| + |r|..10 + |h| + |a| + |r|] == " ("
            && line[10 + |h| + |a| + |r|..10 + |h| + |a| + |r| + |c|] == c
            && line[10 + |h| + |a| + |r| + |c|..12 + |h| + |a| + |r| + |c|] == ", "
            && line[12 + |h| + |a| + |r| + |c|..|line| - 2] == d
            && line[|line| - 2..] == ")\n"
  {
    SummaryPieces(Text(m.homeTeam), Text(m.awayTeam), Text(m.result), Text(m.competition), Text(m.date));
  }

  /** SummaryLineFields for arbitrary field texts. */
  lemma SummaryPieces(h: string, a: string, r: string, c: string, d: string)
    ensures var line := "- " + h + " vs " + a + ": " + r + " (" + c + ", " + d + ")\n";
            |line| == |h| + |a| + |r| + |c| + |d| + 14
            && line[..2] == "- " && line[2..2 + |h|] == h
            && line[2 + |h|..6 + |h|] == " vs " && line[6 + |h|..6 + |h| + |a|] == a
            && line[6 + |h| + |a|..8 + |h| + |a|] == ": " && line[8 + |h| + |a|..8 + |h| + |a| + |r|] == r
            && line[8 + |h| + |a| + |r|..10 + |h| + |a| + |r|] == " ("
            && line[10 + |h| + |a| + |r|..10 + |h| + |a| + |r| + |c|] == c
            && line[10 + |h| + |a| + |r| + |c|..12 + |h| + |a| + |r| + |c|] == ", "
            && line[12 + |h| + |a| + |r| + |c|..|line| - 2] == d
            && line[|line| - 2..] == ")\n"
  {
    SummaryPiecesHead(h, a, r, c, d);
    SummaryPiecesTail(h, a, r, c, d);
  }

  /** The fields of SummaryPieces up to the result. */
  lemma SummaryPiecesHead(h: string, a: string, r: string, c: string, d: string)
    ensures var line := "- " + h + " vs " + a + ": " + r + " (" + c + ", " + d + ")\n";
            |line| == |h| + |a| + |r| + |c| + |d| + 14
            && line[..2] == "- " && line[2..2 + |h|] == h
            && line[2 + |h|..6 + |h|] == " vs " && line[6 + |h|..6 + |h| + |a|] == a
            && line[6 + |h| + |a|..8 + |h| + |a|] == ": " && line[8 + |h| + |a|..8 + |h| + |a| + |r|] == r
  {
    ElevenPieces("- ", h, " vs ", a, ": ", r, " (", c, ", ", d, ")\n");
  }

  /** The fields of SummaryPieces from the competition on. */
  lemma SummaryPiecesTail(h: string, a: string, r: string, c: string, d: string)
    ensures var line := "- " + h + " vs " + a + ": " + r + " (" + c + ", " + d + ")\n";
            |line| == |h| + |a| + |r| + |c| + |d| + 14
            && line[8 + |h| + |a| + |r|..10 + |h| + |a| + |r|] == " ("
            && line[10 + |h| + |a| + |r|..10 + |h| + |a| + |r| + |c|] == c
            && line[10 + |h| + |a| + |r| + |c|..12 + |h| + |a| + |r| + |c|] == ", "
            && line[12 + |h| + |a| + |r| + |c|..|line| - 2] == d
            && line[|line| - 2..] == ")\n"
  {
    ElevenPieces("- ", h, " vs ", a, ": ", r, " (", c, ", ", d, ")\n");
  }

  /** One summary line per match, in order. */
  function LineTexts(ms: seq<HistoricalMatch>): (lines: seq<string>)
    ensures |lines| == |ms|
    ensures forall i :: 0 <= i < |ms| ==> lines[i] == SummaryLine(ms[i])
  {
    seq(|ms|, i requires 0 <= i < |ms| => SummaryLine(ms[i]))
  }

  /** The lines of the matches, in order, as the StringBuilder holds them. */
  function Lines(ms: seq<HistoricalMatch>): string {
    Concat(LineTexts(ms))
  }

  /** The summary: the lines, or the no-data sentence when there are none. */
  function Summary(ms: seq<HistoricalMatch>): string {
    if Lines(ms) == [] then NoHistory else Lines(ms)
  }

  /** Appending a match appends its line. */
  lemma LinesSnoc(ms: seq<HistoricalMatch>, m: HistoricalMatch)
    ensures Lines(ms + [m]) == Lines(ms) + SummaryLine(m)
  {
    assert LineTexts(ms + [m]) == LineTexts(ms) + [SummaryLine(m)];
    ConcatSnoc(LineTexts(ms), SummaryLine(m));
  }

  /** The summary text is empty exactly when there are no matches, so the
      no-data sentence stands in for an empty list and nothing else. */
  lemma LinesEmptyIff(ms: seq<HistoricalMatch>)
    ensures Lines(ms) == [] <==> ms == []
    ensures Summary(ms) == NoHistory <==> ms == [] || Lines(ms) == NoHistory
  {
    if ms != [] {
      var init := ms[..|ms| - 1];
      assert ms == init + [ms[|ms| - 1]];
      LinesSnoc(init, ms[|ms| - 1]);
      assert |SummaryLine(ms[|ms| - 1])| >= 2;
    }
  }

  /** The summary of two runs of matches is the first's lines followed by
      the second's: one line per match, in order. */
  lemma LinesAppend(a: seq<HistoricalMatch>, b: seq<HistoricalMatch>)
    ensures Lines(a + b) == Lines(a) + Lines(b)
  {
    assert LineTexts(a + b) == LineTexts(a) + LineTexts(b);
    ConcatAppend(LineTexts(a), LineTexts(b));
  }

  /** The matches of the documents, one per document, in order. */
  function DocumentMatches(docs: seq<Document>): (ms: seq<HistoricalMatch>)
    ensures |ms| == |docs|
    ensures forall i :: 0 <= i < |docs| ==> ms[i] == DocumentMatch(docs[i])
  {
    seq(|docs|, i requires 0 <= i < |docs| => DocumentMatch(docs[i]))
  }

  /** The match a database row gives: a null score or date reads "N/A",
      the names are taken as they are. */
  function RowMatch(row: DbRow): (m: HistoricalMatch)
    ensures m.result == Some(if row.score.Some? then row.score.value else "N/A")
    ensures m.date == Some(if row.matchDate.Some? then row.matchDate.value else "N/A")
    ensures m.homeTeam == row.homeTeam && m.awayTeam == row.awayTeam && m.competition == row.competition
  {
    HistoricalMatch(
      row.homeTeam, row.awayTeam, Some(if row.score.Some? then row.score.value else "N/A"),
      row.competition, Some(if row.matchDate.Some? then row.matchDate.value else "N/A"))
  }

  /** The matches of the fallback query's rows, one per row in row order;
      a query that threw gives none. */
  function RowMatches(rows: Option<seq<DbRow>>): (ms: seq<HistoricalMatch>)
    ensures rows.None? ==> ms == []
    ensures rows.Some? ==> |ms| == |rows.value|
    ensures rows.Some? ==> forall i :: 0 <= i < |rows.value| ==> ms[i] == RowMatch(rows.value[i])
  {
    if rows.None? then [] else seq(|rows.value|, i requires 0 <= i < |rows.value| => RowMatch(rows.value[i]))
  }

  /** The context of a list of matches with empty team statistics. */
  function ContextOf(ms: seq<HistoricalMatch>): (ctx: MatchContext)
    ensures ctx.relevantMatches == ms
    ensures ctx.homeTeamStats == EmptyTeamStats() && ctx.awayTeamStats == EmptyTeamStats()
    ensures ms == [] ==> ctx.summary == NoHistory
  {
    MatchContext(Summary(ms), ms, EmptyTeamStats(), EmptyTeamStats())
  }

  /** The context build gives: the documents' matches, or the database's
      when the search returned no documents. */
  function BuiltContext(similarMatches: seq<Document>, dbRows: Option<seq<DbRow>>): MatchContext {
    if similarMatches != [] then ContextOf(DocumentMatches(similarMatches)) else ContextOf(RowMatches(dbRows))
  }

  /** buildFromDatabase: one match per row in row order; a failed query
      gives no matches. */
  method BuildFromDatabase(rows: Option<seq<DbRow>>) returns (ctx: MatchContext)
    ensures ctx == ContextOf(RowMatches(rows))
  {
    var matches: seq<HistoricalMatch> := [];
    var summary := "";
    if rows.Some? {
      matches, summary := CollectRows(rows.value);
      assert matches == RowMatches(rows);
    }
    ctx := MatchContext(if summary == [] then NoHistory else summary, matches, EmptyTeamStats(), EmptyTeamStats());
  }

  /** The loop of buildFromDatabase over the rows the query returned: the
      matches, one per row in order, and their summary lines. */
  method CollectRows(rs: seq<DbRow>) returns (matches: seq<HistoricalMatch>, summary: string)
    ensures |matches| == |rs|
    ensures forall j :: 0 <= j < |rs| ==> matches[j] == RowMatch(rs[j])
    ensures summary == Lines(matches)
  {
    matches := [];
    summary := "";
    var i := 0;
    while i < |rs|
      invariant 0 <= i <= |rs|
      invariant |matches| == i
      invariant forall j :: 0 <= j < i ==> matches[j] == RowMatch(rs[j])
      invariant summary == Lines(matches)
    {
      var m := RowMatch(rs[i]);
      LinesSnoc(matches, m);
      ghost var prev := matches;
      matches := matches + [m];
      forall j | 0 <= j < i + 1 ensures matches[j] == RowMatch(rs[j]) {
        if j < i {
          assert matches[j] == prev[j];
        }
      }
      summary := summary + SummaryLine(m);
      i := i + 1;
    }
  }

  /** build(similarMatches, homeTeam, awayTeam): one match per document in
      document order, with their lines as the summary and empty team
      statistics; no documents at all sends it to the database path. The
      team names are not used. */
  method Build(similarMatches: seq<Document>, homeTeam: string, awayTeam: string, dbRows: Option<seq<DbRow>>)
    returns (ctx: MatchContext)
    ensures ctx == BuiltContext(similarMatches, dbRows)
  {
    var matches, summary := CollectDocuments(similarMatches);
    if similarMatches == [] {
      ctx := BuildFromDatabase(dbRows);
      return;
    }
    assert matches == DocumentMatches(similarMatches);
    ctx := MatchContext(if summary == [] then NoHistory else summary, matches, EmptyTeamStats(), EmptyTeamStats());
  }

  /** The loop of build over the documents: the matches, one per document
      in order, and their summary lines. */
  method CollectDocuments(docs: seq<Document>) returns (matches: seq<HistoricalMatch>, summary: string)
    ensures |matches| == |docs|
    ensures forall j :: 0 <= j < |docs| ==> matches[j] == DocumentMatch(docs[j])
    ensures summary == Lines(matches)
  {
    matches := [];
    summary := "";
    var i := 0;
    while i < |docs|
      invariant 0 <= i <= |docs|
      invariant |matches| == i
      invariant forall j :: 0 <= j < i ==> matches[j] == DocumentMatch(docs[j])
      invariant summary == Lines(matches)
    {
      var m := DocumentMatch(docs[i]);
      LinesSnoc(matches, m);
      ghost var prev := matches;
      matches := matches + [m];
      forall j | 0 <= j < i + 1 ensures matches[j] == DocumentMatch(docs[j]) {
        if j < i {
          assert matches[j] == prev[j];
        }
      }
      summary := summary + SummaryLine(m);
      i := i + 1;
    }
  }

  /** The summary of a built context lists its matches, one line each, in
      the order of its match list; it is the no-data sentence only when
      there are no matches (or a line spells exactly that sentence). */
  lemma {:induction false} BuiltSummaryListsMatches(similarMatches: seq<Document>, dbRows: Option<seq<DbRow>>)
    ensures var ctx := BuiltContext(similarMatches, dbRows);
            ctx.relevantMatches != [] ==> ctx.summary == Lines(ctx.relevantMatches) && ctx.summary != []
  {
    var ctx := BuiltContext(similarMatches, dbRows);
    LinesEmptyIff(ctx.relevantMatches);
  }

  /** With at least one document, the summary is never the no-data
      sentence unless a line happens to spell it, and it holds one line per
      document. */
  lemma DocumentSummaryHasLines(docs: seq<Document>)
    requires docs != []
    ensures Lines(DocumentMatches(docs)) != []
    ensures ContextOf(DocumentMatches(docs)).summary == Lines(DocumentMatches(docs))
  {
    LinesEmptyIff(DocumentMatches(docs));
  }
}
