/** MatchPredictionService: one prediction is a vector search for similar
    matches, the context built from them, one call to the language model and
    the reading of its reply. The reply is cleaned of a Markdown code fence
    and read as a JSON object; a reply that is not JSON falls back to a
    keyword scan of the text, and any other failure to a fixed fallback
    response.

    The foreign calls are parameters: the vector search maps the query to
    its outcome, the chat client maps the request and the context summary
    (what the prompt template is filled with) to its reply, and Jackson's
    readValue maps text to the JSON value it parses, or None when it throws
    a JsonProcessingException. */
module PredictionService {
  import opened Outcomes
  import opened Json
  import opened JavaText
  import opened PredictionModel
  import ContextBuilder

  const Fence := "```"
  const JsonFence := "```json"

  const ParseFailureFactor := "Unable to parse structured response"
  const FallbackReasoning := "Unable to generate prediction due to LLM error. Based on limited historical data."
  const UnavailablePrefix := "Prediction service temporarily unavailable: "

  /** buildQuery: "%s vs %s %s football match" over the home team, the
      away team and the competition. */
  function BuildQuery(request: PredictionRequest): (q: string)
    ensures StartsWith(q, request.homeTeam + " vs " + request.awayTeam + " ")
    ensures EndsWith(q, request.competition + " football match")
    ensures |q| == |request.homeTeam| + |request.awayTeam| + |request.competition| + 20
  {
    var lead := request.homeTeam + " vs " + request.awayTeam + " ";
    var tail := request.competition + " football match";
    assert (lead + tail)[..|lead|] == lead;
    assert (lead + tail)[|lead + tail| - |tail|..] == tail;
    lead + tail
  }

  /** What VectorStore.similaritySearch does with the request: a list of
      documents, null, or an exception. */
  datatype SearchOutcome = Found(documents: seq<ContextBuilder.Document>) | FoundNull | SearchFailed(message: Option<string>)

  /** retrieveSimilarMatches: the documents found; an exception or a null
      result gives the empty list. */
  function RetrieveSimilarMatches(outcome: SearchOutcome): (docs: seq<ContextBuilder.Document>)
    ensures outcome.Found? ==> docs == outcome.documents
    ensures !outcome.Found? ==> docs == []
  {
    match outcome
    case Found(documents) => documents
    case _ => []
  }

  /** String.startsWith followed by substring past the prefix. */
  function DropPrefix(s: string, prefix: string): (r: string)
    ensures StartsWith(s, prefix) ==> s == prefix + r
    ensures !StartsWith(s, prefix) ==> r == s
  {
    if StartsWith(s, prefix) then s[|prefix|..] else s
  }

  /** String.endsWith followed by substring up to the suffix. */
  function DropSuffix(s: string, suffix: string): (r: string)
    ensures EndsWith(s, suffix) ==> s == r + suffix
    ensures !EndsWith(s, suffix) ==> r == s
  {
    if EndsWith(s, suffix) then s[..|s| - |suffix|] else s
  }

  /** The fence removal between the two trims: drop a leading "```json",
      then a leading "```", then a trailing "```"; each at most once. */
  function Unfenced(t: string): string {
    DropSuffix(DropPrefix(DropPrefix(t, JsonFence), Fence), Fence)
  }

  /** The cleanup parseResponse applies before reading the reply: trim,
      remove the fences, and trim again. */
  function Cleaned(response: string): (c: string)
    ensures IsTrimmed(c)
  {
    Trim(Unfenced(Trim(response)))
  }

  /** The cleanup as the service performs it, reassigning one local. */
  method CleanResponse(response: string) returns (cleaned: string)
    ensures cleaned == Cleaned(response)
  {
    cleaned := Trim(response);
    ghost var trimmed := cleaned;
    if StartsWith(cleaned, JsonFence) {
      cleaned := cleaned[7..];
    }
    assert cleaned == DropPrefix(trimmed, JsonFence);
    ghost var noJsonFence := cleaned;
    if StartsWith(cleaned, Fence) {
      cleaned := cleaned[3..];
    }
    assert cleaned == DropPrefix(noJsonFence, Fence);
    ghost var noFence := cleaned;
    if EndsWith(cleaned, Fence) {
      cleaned := cleaned[..|cleaned| - 3];
    }
    assert cleaned == DropSuffix(noFence, Fence);
    assert cleaned == Unfenced(trimmed);
    cleaned := Trim(cleaned);
  }

  /** String concatenation is associative. */
  lemma AppendAssociative(a: string, b: string, c: string)
    ensures a + b + c == a + (b + c)
  {
  }

  /** A reply already trimmed whose fences come off to leave `body` is
      cleaned to the trimmed body. */
  lemma CleanedFromSteps(s: string, body: string)
    requires Trim(s) == s && Unfenced(s) == body
    ensures Cleaned(s) == Trim(body)
  {
  }

  /** A string opening and closing with a backtick is already trimmed. */
  lemma TrimOfFenced(s: string)
    requires |s| >= 1 && s[0] == '`' && s[|s| - 1] == '`'
    ensures Trim(s) == s
  {
    TrimOfTrimmed(s);
  }

  /** Dropping a prefix that is there leaves what follows it. */
  lemma DropPrefixOfConcat(prefix: string, rest: string)
    ensures DropPrefix(prefix + rest, prefix) == rest
  {
    assert (prefix + rest)[..|prefix|] == prefix;
    assert (prefix + rest)[|prefix|..] == rest;
  }

  /** Dropping a suffix that is there leaves what precedes it. */
  lemma DropSuffixOfConcat(rest: string, suffix: string)
    ensures DropSuffix(rest + suffix, suffix) == rest
  {
    assert (rest + suffix)[|rest|..] == suffix;
    assert (rest + suffix)[..|rest|] == rest;
  }

  /** The fences of a JSON code block come off, leaving its body, unless
      the body itself opens with a backtick. */
  lemma UnfencedJsonBlock(body: string)
    requires body == [] || body[0] != '`'
    ensures Unfenced(JsonFence + (body + Fence)) == body
  {
    DropPrefixOfConcat(JsonFence, body + Fence);
    if body == [] {
      assert body + Fence == Fence + [];
      DropPrefixOfConcat(Fence, []);
      assert DropSuffix([], Fence) == [];
    } else {
      assert (body + Fence)[0] == body[0];
      assert DropPrefix(body + Fence, Fence) == body + Fence;
      DropSuffixOfConcat(body, Fence);
    }
  }

  /** A reply fenced as a JSON code block is cleaned to the block's body,
      trimmed, whenever the body does not itself open with a backtick. */
  lemma CleanedJsonFence(body: string)
    requires body == [] || body[0] != '`'
    ensures Cleaned(JsonFence + body + Fence) == Trim(body)
  {
    var s := JsonFence + (body + Fence);
    TrimOfFenced(s);
    UnfencedJsonBlock(body);
    CleanedFromSteps(s, body);
    AppendAssociative(JsonFence, body, Fence);
  }

  /** A plain fence followed by a body that does not start with "json" is
      not a JSON fence. */
  lemma NotJsonFenced(body: string)
    requires !StartsWith(body, "json")
    ensures !StartsWith(Fence + (body + Fence), JsonFence)
  {
    var s := Fence + (body + Fence);
    if |body| >= 4 {
      assert s[3..7] == body[..4];
      assert JsonFence[3..7] == "json";
    } else {
      assert s[3 + |body|] == '`';
      assert JsonFence[3 + |body|] != '`';
    }
  }

  /** The fences of a plain code block come off, leaving its body, unless
      the body starts with "json". */
  lemma UnfencedPlainBlock(body: string)
    requires !StartsWith(body, "json")
    ensures Unfenced(Fence + (body + Fence)) == body
  {
    NotJsonFenced(body);
    DropPrefixOfConcat(Fence, body + Fence);
    DropSuffixOfConcat(body, Fence);
  }

  /** A reply fenced as a plain code block is cleaned to the block's body,
      trimmed, when the body does not start with "json". */
  lemma CleanedPlainFence(body: string)
    requires !StartsWith(body, "json")
    ensures Cleaned(Fence + body + Fence) == Trim(body)
  {
    var s := Fence + (body + Fence);
    TrimOfFenced(s);
    UnfencedPlainBlock(body);
    CleanedFromSteps(s, body);
    AppendAssociative(Fence, body, Fence);
  }

  /** A reply with no fence at either end is only trimmed. */
  lemma CleanedUnfenced(response: string)
    requires !StartsWith(Trim(response), Fence) && !EndsWith(Trim(response), Fence)
    ensures Cleaned(response) == Trim(response)
  {
    TrimIdempotent(response);
  }

  /** The cast `(String) parsed.get(name)`: null for a missing member or a
      JSON null, the text of a JSON string, and a ClassCastException for
      any other value. */
  datatype Cast = Cast(value: Option<string>) | CastFailed

  function CastToString(v: Option<Json>): (c: Cast)
    ensures c.CastFailed? <==> v.Some? && !v.value.JNull? && !v.value.JString?
    ensures v.Some? && v.value.JString? ==> c == Cast(Some(v.value.s))
    ensures v.None? || v == Some(JNull) ==> c == Cast(None)
  {
    match v
    case None => Cast(None)
    case Some(JNull) => Cast(None)
    case Some(JString(s)) => Cast(Some(s))
    case Some(_) => CastFailed
  }

  /** The confidence: the number the reply gave, otherwise the default. */
  function ConfidenceOf(v: Option<Json>): (c: Confidence)
    ensures c.Reported? <==> v.Some? && v.value.JNumber?
    ensures c.Reported? ==> c.literal == v.value.literal
    ensures !c.Reported? ==> c == DefaultConfidence
  {
    if v.Some? && v.value.JNumber? then Reported(v.value.literal) else DefaultConfidence
  }

  /** The key factors: each element of a list as Object.toString gives it,
      in order; any other value gives the empty list; a null element makes
      toString throw, shown as None. */
  function KeyFactorsOf(v: Option<Json>): (r: Option<seq<string>>)
    ensures v.None? || !v.value.JArray? ==> r == Some([])
    ensures v.Some? && v.value.JArray? ==> (r.None? <==> JNull in v.value.items)
    ensures v.Some? && v.value.JArray? && r.Some? ==>
              |r.value| == |v.value.items|
              && forall i :: 0 <= i < |v.value.items| ==> r.value[i] == JavaString(v.value.items[i])
  {
    match v
    case Some(JArray(items)) =>
      if JNull in items then None
      else Some(seq(|items|, i requires 0 <= i < |items| => JavaString(items[i])))
    case _ => Some([])
  }

  /** extractFromText: the winner is HOME when the upper-cased reply
      mentions HOME, else AWAY when it mentions AWAY, else DRAW; the raw
      reply is the reasoning. */
  function ExtractFromText(response: string, relevantMatches: seq<HistoricalMatch>): (p: PredictionResponse)
    ensures p.predictedWinner.Some? && p.predictedWinner.value in {"HOME", "AWAY", "DRAW"}
    ensures p.confidence == DefaultConfidence && p.reasoning == Some(response)
    ensures p.keyFactors == [ParseFailureFactor] && p.relevantMatches == relevantMatches
  {
    var upper := ToUpperAscii(response);
    var winner := if Contains(upper, "HOME") then "HOME" else if Contains(upper, "AWAY") then "AWAY" else "DRAW";
    PredictionResponse(Some(winner), DefaultConfidence, Some(response), [ParseFailureFactor], relevantMatches)
  }

  /** The scanned winner in full: HOME exactly when the reply mentions
      HOME, AWAY exactly when it mentions AWAY but not HOME, DRAW exactly
      when it mentions neither; a reply mentioning both is a home win. */
  lemma ExtractedWinner(response: string, relevantMatches: seq<HistoricalMatch>)
    ensures var w := ExtractFromText(response, relevantMatches).predictedWinner;
            var upper := ToUpperAscii(response);
            (w == Some("HOME") <==> Contains(upper, "HOME"))
            && (w == Some("AWAY") <==> !Contains(upper, "HOME") && Contains(upper, "AWAY"))
            && (w == Some("DRAW") <==> !Contains(upper, "HOME") && !Contains(upper, "AWAY"))
  {
  }

  /** A reply that mentions "home" in any letter case is read as a home
      win, whatever else it says. */
  lemma MentionedHomeWins(before: string, home: string, after: string, ms: seq<HistoricalMatch>)
    requires |home| == 4 && ToUpperAscii(home) == "HOME"
    ensures ExtractFromText(before + home + after, ms).predictedWinner == Some("HOME")
  {
    var s := before + home + after;
    var upper := ToUpperAscii(s);
    assert upper[|before|..|before| + 4] == ToUpperAscii(home);
    assert IsInfixAt("HOME", upper, |before|);
  }

  /** A reply that mentions "away" in any letter case, and not "home", is
      read as an away win. */
  lemma MentionedAwayWins(before: string, away: string, after: string, ms: seq<HistoricalMatch>)
    requires |away| == 4 && ToUpperAscii(away) == "AWAY"
    requires !Contains(ToUpperAscii(before + away + after), "HOME")
    ensures ExtractFromText(before + away + after, ms).predictedWinner == Some("AWAY")
  {
    var s := before + away + after;
    var upper := ToUpperAscii(s);
    assert upper[|before|..|before| + 4] == ToUpperAscii(away);
    assert IsInfixAt("AWAY", upper, |before|);
  }

  /** The response built from the object the reply parsed to, or None when
      a cast or a key factor's toString throws. */
  function FromObject(members: seq<(string, Json)>, relevantMatches: seq<HistoricalMatch>): (r: Option<PredictionResponse>)
    ensures r.None? <==>
              CastToString(Get(members, "predictedWinner")).CastFailed?
              || CastToString(Get(members, "reasoning")).CastFailed?
              || KeyFactorsOf(Get(members, "keyFactors")).None?
    ensures r.Some? ==>
              r.value.predictedWinner == CastToString(Get(members, "predictedWinner")).value
              && r.value.reasoning == CastToString(Get(members, "reasoning")).value
              && r.value.confidence == ConfidenceOf(Get(members, "confidence"))
              && r.value.keyFactors == KeyFactorsOf(Get(members, "keyFactors")).value
              && r.value.relevantMatches == relevantMatches
  {
    match (CastToString(Get(members, "predictedWinner")), CastToString(Get(members, "reasoning")),
           KeyFactorsOf(Get(members, "keyFactors")))
    case (Cast(winner), Cast(reasoning), Some(factors)) =>
      Some(PredictionResponse(winner, ConfidenceOf(Get(members, "confidence")), reasoning, factors, relevantMatches))
    case _ => None
  }

  /** The rest of parseResponse once the cleaned reply has been read: a
      reply that is not JSON, or JSON that is not an object (Jackson's
      MismatchedInputException), goes to the keyword scan of the raw
      reply; a JSON null reads as a null map, whose first get throws. */
  function Interpret(response: string, parsed: Option<Json>, relevantMatches: seq<HistoricalMatch>): (r: Option<PredictionResponse>)
    ensures parsed == Some(JNull) ==> r.None?
    ensures r.Some? ==> r.value.relevantMatches == relevantMatches
  {
    match parsed
    case None => Some(ExtractFromText(response, relevantMatches))
    case Some(JNull) => None
    case Some(JObject(members)) => FromObject(members, relevantMatches)
    case Some(_) => Some(ExtractFromText(response, relevantMatches))
  }

  /** Which way Interpret goes: the keyword scan for a reply that is not
      JSON or JSON that is not an object, the field-by-field reading for
      an object. */
  lemma InterpretCases(response: string, parsed: Option<Json>, relevantMatches: seq<HistoricalMatch>)
    ensures parsed.None? || (!parsed.value.JNull? && !parsed.value.JObject?) ==>
              Interpret(response, parsed, relevantMatches) == Some(ExtractFromText(response, relevantMatches))
    ensures parsed.Some? && parsed.value.JObject? ==>
              Interpret(response, parsed, relevantMatches) == FromObject(parsed.value.members, relevantMatches)
  {
  }

  /** parseResponse on the reply content: None when a runtime exception
      escapes it, which includes a null reply. */
  function ParseResponse(response: Option<string>, read: string -> Option<Json>, relevantMatches: seq<HistoricalMatch>)
    : (r: Option<PredictionResponse>)
    ensures response.None? ==> r.None?
    ensures r.Some? ==> r.value.relevantMatches == relevantMatches
  {
    if response.None? then None
    else Interpret(response.value, read(Cleaned(response.value)), relevantMatches)
  }

  /** createFallbackResponse: a draw with the fallback confidence and the
      context's matches. */
  function CreateFallbackResponse(request: PredictionRequest, context: MatchContext): (p: PredictionResponse)
    ensures p.predictedWinner == Some("DRAW") && p.confidence == FallbackConfidence
    ensures p.reasoning == Some(FallbackReasoning)
    ensures p.keyFactors == ["Fallback prediction", "Insufficient data"]
    ensures p.relevantMatches == context.relevantMatches
  {
    PredictionResponse(Some("DRAW"), FallbackConfidence, Some(FallbackReasoning),
                       ["Fallback prediction", "Insufficient data"], context.relevantMatches)
  }

  /** predictFallback: the degraded answer the circuit breaker gives, with
      the exception's message (a null one concatenates as "null") and no
      matches. */
  function PredictFallback(request: PredictionRequest, message: Option<string>): (p: PredictionResponse)
    ensures p.predictedWinner == Some("UNAVAILABLE") && p.confidence == ZeroConfidence
    ensures p.reasoning.Some? && StartsWith(p.reasoning.value, UnavailablePrefix)
    ensures message.Some? ==> p.reasoning == Some(UnavailablePrefix + message.value)
    ensures message.None? ==> p.reasoning == Some(UnavailablePrefix + "null")
    ensures p.keyFactors == ["Service degraded", "Circuit breaker active"]
    ensures p.relevantMatches == []
  {
    var text := if message.Some? then message.value else "null";
    assert (UnavailablePrefix + text)[..|UnavailablePrefix|] == UnavailablePrefix;
    PredictionResponse(Some("UNAVAILABLE"), ZeroConfidence, Some(UnavailablePrefix + text),
                       ["Service degraded", "Circuit breaker active"], [])
  }

  /** What the chat client's call gives: the reply content (null when the
      model returned none) or an exception. */
  datatype ChatReply = Content(text: Option<string>) | ChatFailed(message: Option<string>)

  /** The context a request's prediction is built on. */
  function ContextFor(request: PredictionRequest, vectorSearch: string -> SearchOutcome,
                      dbRows: Option<seq<ContextBuilder.DbRow>>): MatchContext
  {
    ContextBuilder.BuiltContext(RetrieveSimilarMatches(vectorSearch(BuildQuery(request))), dbRows)
  }

  /** predict(request), without its circuit breaker and retry. */
  function Prediction(request: PredictionRequest, vectorSearch: string -> SearchOutcome,
                      dbRows: Option<seq<ContextBuilder.DbRow>>,
                      chat: (PredictionRequest, string) -> ChatReply, read: string -> Option<Json>)
    : (p: PredictionResponse)
    ensures p.relevantMatches == ContextFor(request, vectorSearch, dbRows).relevantMatches
  {
    var context := ContextFor(request, vectorSearch, dbRows);
    match chat(request, context.summary)
    case ChatFailed(_) => CreateFallbackResponse(request, context)
    case Content(text) =>
      match ParseResponse(text, read, context.relevantMatches)
      case Some(p) => p
      case None => CreateFallbackResponse(request, context)
  }

  /** predict as the service runs it: build the query, search, build the
      context, prompt the model and read its reply, falling back when any
      of that throws. */
  method Predict(request: PredictionRequest, vectorSearch: string -> SearchOutcome,
                 dbRows: Option<seq<ContextBuilder.DbRow>>,
                 chat: (PredictionRequest, string) -> ChatReply, read: string -> Option<Json>)
    returns (p: PredictionResponse)
    ensures p == Prediction(request, vectorSearch, dbRows, chat, read)
  {
    var query := BuildQuery(request);
    var similarMatches := RetrieveSimilarMatches(vectorSearch(query));
    var context := ContextBuilder.Build(similarMatches, request.homeTeam, request.awayTeam, dbRows);
    assert context == ContextFor(request, vectorSearch, dbRows);
    var reply := chat(request, context.summary);
    if reply.ChatFailed? || reply.text.None? {
      p := CreateFallbackResponse(request, context);
    } else {
      var cleaned := CleanResponse(reply.text.value);
      var parsed := Interpret(reply.text.value, read(cleaned), context.relevantMatches);
      assert parsed == ParseResponse(reply.text, read, context.relevantMatches);
      p := if parsed.Some? then parsed.value else CreateFallbackResponse(request, context);
    }
  }

  /** A search that fails or finds nothing leaves the prediction to the
      database's recent matches. */
  lemma EmptySearchUsesDatabase(request: PredictionRequest, vectorSearch: string -> SearchOutcome,
                                dbRows: Option<seq<ContextBuilder.DbRow>>,
                                chat: (PredictionRequest, string) -> ChatReply, read: string -> Option<Json>)
    requires RetrieveSimilarMatches(vectorSearch(BuildQuery(request))) == []
    ensures Prediction(request, vectorSearch, dbRows, chat, read).relevantMatches == ContextBuilder.RowMatches(dbRows)
  {
  }

  /** A failed model call, a null reply, or a reply whose object has a
      field of the wrong type gives the fallback draw over the context's
      matches. */
  lemma BrokenReplyFallsBack(request: PredictionRequest, vectorSearch: string -> SearchOutcome,
                             dbRows: Option<seq<ContextBuilder.DbRow>>,
                             chat: (PredictionRequest, string) -> ChatReply, read: string -> Option<Json>)
    requires var reply := chat(request, ContextFor(request, vectorSearch, dbRows).summary);
             reply.ChatFailed? || reply.text.None?
             || read(Cleaned(reply.text.value)) == Some(JNull)
             || (read(Cleaned(reply.text.value)).Some? && read(Cleaned(reply.text.value)).value.JObject?
                 && CastToString(Get(read(Cleaned(reply.text.value)).value.members, "predictedWinner")).CastFailed?)
    ensures Prediction(request, vectorSearch, dbRows, chat, read)
            == CreateFallbackResponse(request, ContextFor(request, vectorSearch, dbRows))
  {
    var context := ContextFor(request, vectorSearch, dbRows);
    var reply := chat(request, context.summary);
    if reply.Content? && reply.text.Some? {
      InterpretCases(reply.text.value, read(Cleaned(reply.text.value)), context.relevantMatches);
    }
  }

  /** The members of an object with a string winner, a number confidence
      and a list of strings as key factors, and no reasoning. */
  function WellTypedReply(winner: string, confidence: string, factors: seq<string>): seq<(string, Json)> {
    [("predictedWinner", JString(winner)), ("confidence", JNumber(confidence)),
     ("keyFactors", JArray(seq(|factors|, i requires 0 <= i < |factors| => JString(factors[i]))))]
  }

  /** Such an object is read field by field: the winner as given, the
      reported confidence, no reasoning, and the key factors in order. */
  lemma WellTypedReplyRead(winner: string, confidence: string, factors: seq<string>, relevantMatches: seq<HistoricalMatch>)
    ensures FromObject(WellTypedReply(winner, confidence, factors), relevantMatches)
            == Some(PredictionResponse(Some(winner), Reported(confidence), None, factors, relevantMatches))
  {
    var items := seq(|factors|, i requires 0 <= i < |factors| => JString(factors[i]));
    var members := WellTypedReply(winner, confidence, factors);
    assert JNull !in items by {
      forall i | 0 <= i < |items| ensures items[i] != JNull { }
    }
    assert Get(members, "keyFactors") == Some(JArray(items));
    assert members[..2] == [("predictedWinner", JString(winner)), ("confidence", JNumber(confidence))];
    assert Get(members, "confidence") == Some(JNumber(confidence));
    assert members[..2][..1] == [("predictedWinner", JString(winner))];
    assert Get(members, "predictedWinner") == Get(members[..2], "predictedWinner");
    assert Get(members[..2], "predictedWinner") == Get(members[..2][..1], "predictedWinner");
    assert Get(members, "predictedWinner") == Some(JString(winner));
    assert !HasMember(members, "reasoning");
    var r := KeyFactorsOf(Get(members, "keyFactors"));
    assert r.value == factors;
  }

  /** parseResponse on a reply whose cleaned form parses to an object reads
      that object field by field. */
  lemma ParseResponseOfObject(text: string, cleaned: string, read: string -> Option<Json>,
                              relevantMatches: seq<HistoricalMatch>, members: seq<(string, Json)>)
    requires Cleaned(text) == cleaned && read(cleaned) == Some(JObject(members))
    ensures ParseResponse(Some(text), read, relevantMatches) == FromObject(members, relevantMatches)
  {
    assert ParseResponse(Some(text), read, relevantMatches) == Interpret(text, Some(JObject(members)), relevantMatches);
    InterpretCases(text, Some(JObject(members)), relevantMatches);
  }

  /** A reply fenced as a JSON code block whose body parses to a
      well-typed object is read from that object. */
  lemma FencedObjectReplyRead(body: string, read: string -> Option<Json>, relevantMatches: seq<HistoricalMatch>,
                              winner: string, confidence: string, factors: seq<string>)
    requires body == [] || body[0] != '`'
    requires read(Trim(body)) == Some(JObject(WellTypedReply(winner, confidence, factors)))
    ensures ParseResponse(Some(JsonFence + body + Fence), read, relevantMatches)
            == Some(PredictionResponse(Some(winner), Reported(confidence), None, factors, relevantMatches))
  {
    CleanedJsonFence(body);
    ParseResponseOfObject(JsonFence + body + Fence, Trim(body), read, relevantMatches,
                          WellTypedReply(winner, confidence, factors));
    WellTypedReplyRead(winner, confidence, factors, relevantMatches);
  }

  /** Whatever the reply parses to, the prediction is what parseResponse
      made of it when that succeeded. */
  lemma PredictionFollowsParsedReply(request: PredictionRequest, vectorSearch: string -> SearchOutcome,
                                     dbRows: Option<seq<ContextBuilder.DbRow>>,
                                     chat: (PredictionRequest, string) -> ChatReply, read: string -> Option<Json>,
                                     text: string, p: PredictionResponse)
    requires chat(request, ContextFor(request, vectorSearch, dbRows).summary) == Content(Some(text))
    requires ParseResponse(Some(text), read, ContextFor(request, vectorSearch, dbRows).relevantMatches) == Some(p)
    ensures Prediction(request, vectorSearch, dbRows, chat, read) == p
  {
  }

  /** A reply that is not JSON is scanned as text: its raw form, fences
      included, becomes the reasoning. */
  lemma TextReplyKeptAsReasoning(request: PredictionRequest, vectorSearch: string -> SearchOutcome,
                                 dbRows: Option<seq<ContextBuilder.DbRow>>,
                                 chat: (PredictionRequest, string) -> ChatReply, read: string -> Option<Json>,
                                 text: string)
    requires chat(request, ContextFor(request, vectorSearch, dbRows).summary) == Content(Some(text))
    requires read(Cleaned(text)).None?
    ensures Prediction(request, vectorSearch, dbRows, chat, read)
            == ExtractFromText(text, ContextFor(request, vectorSearch, dbRows).relevantMatches)
  {
    InterpretCases(text, read(Cleaned(text)), ContextFor(request, vectorSearch, dbRows).relevantMatches);
  }
}
