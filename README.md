# match-lens ingest and prediction core, modelled in Dafny

This project models the deterministic core of the match-lens API in Dafny and proves properties of it. The core has two parts.

**The football-data.org ingest pipeline.**
- `FdOrgClient` makes one `GET /v4/competitions/{code}`. It sorts each HTTP outcome into a closed set of results and exceptions. A Spring Retry policy wraps it: three attempts, pauses of 1000 ms doubling up to 8000 ms, and `@Recover` handlers after the last attempt.
- `FdRawIngestService` skips a code fetched within the last month. Otherwise it fetches, serialises, and inserts the payload unless a row for the key already exists.
- `FdRawIngestRepository` stores that table.
- `IngestFootballDataOrgController` validates the competition code and turns an empty result into 404.
- `ProblemHandler` renders every failure as a problem document.
- `FootballDataSourceConfig` resolves the API key from a placeholder.
- `MatchPayload` holds the competition records and their enums.

**The deterministic parts of the prediction module.**
- `MatchPredictionService` builds the query, cleans and reads the language model's reply, scans it for keywords, and supplies the two fallbacks.
- `MatchContextBuilder` folds the search documents, or the database rows, into a context.
- `EmbeddingService` guards the embedding of one match and counts a batch.
- `MatchEmbeddingRepository` writes the pgvector literal and keeps the match_embedding table, with at most one row per match.

Each source file is one module under `dafny/`. Shared modules:
- `Outcomes`: Option and Result.
- `Exceptions`: the closed family of failures that reach the problem handler.
- `JavaText`: `java.lang.String` behaviour (trim, isBlank, hasText, startsWith, parseLong, Long.toString, ASCII upper-casing).
- `Json`: a parsed JSON value and its `Object.toString`.

How the model is built:
- **Objects that change state are classes.** The repositories are classes whose map fields their methods reassign. The services hold their repository.
- **Methods are proved against specification functions.** Each method is proved equal to a pure function of the state before it. The properties are lemmas about those functions.
- **The upstream is a sequence of exchanges,** one per attempt, so the retry loop can be reasoned about attempt by attempt.
- **Foreign calls are parameters:** Jackson's reading and writing, the chat client, the embedding model, the vector search and the database queries' rows.
- **Clocks are inputs.** `now` is the service's clock and `dbNow` the database's clock.

## Model

| member | source | states |
|---|---|---|
| FdOrgClient.FirstHeader | src/main/java/org/jstats/matchlens_api/modules/football_data_org_gatherer/ingest/FdOrgClient.java:146 | the value of the first header whose name equals the asked one ignoring ASCII case; none exactly when no header has that name |
| FdOrgClient.RetryAfterSeconds | src/main/java/org/jstats/matchlens_api/modules/football_data_org_gatherer/ingest/FdOrgClient.java:145-150 | always at least 1 s; 2 s for a missing, blank or unparsable header; otherwise max(1, n) for the trimmed long n |
| FdOrgClient.RetryAfterAdvertised | src/main/java/org/jstats/matchlens_api/modules/football_data_org_gatherer/ingest/FdOrgClient.java:145-150 | a header whose trimmed text is the decimal form of a long n is read as max(1, n) seconds, surrounding blanks allowed |
| FdOrgClient.ParseRetryAfter | src/main/java/org/jstats/matchlens_api/modules/football_data_org_gatherer/ingest/FdOrgClient.java:145-150 | the delay a 429 asks for is never below one second |
| FdOrgClient.Preview | src/main/java/org/jstats/matchlens_api/modules/football_data_org_gatherer/ingest/FdOrgClient.java:90-91 | the preview holds the first min(length, 500) body bytes, in order |
| FdOrgClient.ProblemMsg | src/main/java/org/jstats/matchlens_api/modules/football_data_org_gatherer/ingest/FdOrgClient.java:152-156 | the leading text alone for a null or blank preview; otherwise leading + ": " followed by the preview, cut to its first 500 characters when it is longer |
| FdOrgClient.ShortPreviewKept | src/main/java/org/jstats/matchlens_api/modules/football_data_org_gatherer/ingest/FdOrgClient.java:152-155 | a preview of at most 500 characters is carried whole after leading + ": " |
| FdOrgClient.ClientErrorFailure | src/main/java/org/jstats/matchlens_api/modules/football_data_org_gatherer/ingest/FdOrgClient.java:87-105 | a 4xx other than 404/429 becomes a ResponseStatusException with the same status whose reason opens with the sentence for 400, 401, 403 or any other 4xx |
| FdOrgClient.Attempt | src/main/java/org/jstats/matchlens_api/modules/football_data_org_gatherer/ingest/FdOrgClient.java:60-117 | 404 gives empty; 429 gives RateLimited(parseRetryAfter); 5xx gives Upstream5xx; I/O gives ResourceAccess; other 4xx a ResponseStatusException; a failure is retryable exactly for 429, 5xx and I/O |
| FdOrgClient.AttemptsMade | src/main/java/org/jstats/matchlens_api/modules/football_data_org_gatherer/ingest/FdOrgClient.java:57 | between one and three attempts are made |
| FdOrgClient.DelayClosedForm | src/main/java/org/jstats/matchlens_api/modules/football_data_org_gatherer/ingest/FdOrgClient.java:58 | the pause before retry k is 1000 ms doubled k - 1 times, capped at 8000 ms |
| FdOrgClient.DelayBounds | src/main/java/org/jstats/matchlens_api/modules/football_data_org_gatherer/ingest/FdOrgClient.java:58 | every pause lies between 1000 and 8000 ms and pauses never shrink |
| FdOrgClient.Recover | src/main/java/org/jstats/matchlens_api/modules/football_data_org_gatherer/ingest/FdOrgClient.java:159-185 | after the last attempt a rate limit becomes 429, a 5xx becomes 502, an I/O failure 504, each with a reason; any other failure is rethrown unchanged |
| FdOrgClient.GetCompetitionInfo | src/main/java/org/jstats/matchlens_api/modules/football_data_org_gatherer/ingest/FdOrgClient.java:44-117 | the retry loop makes exactly the attempts the policy allows, takes the pauses 1000, 2000, ... between them and returns the recovered outcome of the last attempt |
| FdOrgClient.OutcomeFailures | src/main/java/org/jstats/matchlens_api/modules/football_data_org_gatherer/ingest/FdOrgClient.java:42-56 | a caller only ever sees a 429, 502 or 504, the upstream's own 4xx other than 404, or a JSON parse failure; UpstreamBadContentTypeException never occurs |
| FdOrgClient.RetriedOnlyAfterRetryableFailure | src/main/java/org/jstats/matchlens_api/modules/football_data_org_gatherer/ingest/FdOrgClient.java:46-56 | every attempt before the last one failed with RateLimited, Upstream5xx or ResourceAccess |
| FdOrgClient.SingleAttemptUnlessRetryable | src/main/java/org/jstats/matchlens_api/modules/football_data_org_gatherer/ingest/FdOrgClient.java:51-56 | a first attempt that returns a value or fails non-retryably (a 400, a parse failure) is the only call, and its result is what the caller sees |
| FdOrgClient.ExhaustedRetriesRecoverLastFailure | src/main/java/org/jstats/matchlens_api/modules/football_data_org_gatherer/ingest/FdOrgClient.java:57-58 | when all attempts fail retryably, three calls are made and the last failure, recovered, decides the result |
| FdOrgClient.RateLimitedAttempt | src/main/java/org/jstats/matchlens_api/modules/football_data_org_gatherer/ingest/FdOrgClient.java:71-72 | a 429 whose Retry-After header holds the decimal text of n seconds fails with RateLimitedException carrying exactly n |
| FdOrgClient.RateLimitedThrice | src/main/java/org/jstats/matchlens_api/modules/football_data_org_gatherer/ingest/FdOrgClient.java:159-167 | three 429s advertising Retry-After n give 429 with n in the reason, yet the pauses are always 1000 and 2000 ms |
| FdOrgClient.RecoversAfterTwoServerErrors | src/main/java/org/jstats/matchlens_api/modules/football_data_org_gatherer/ingest/FdOrgClient.java:74-80 | two 503s followed by a 200 give the competition after three calls and pauses of 1000 and 2000 ms |
| RawIngestStore.PayloadOf | src/main/java/org/jstats/matchlens_api/modules/football_data_org_gatherer/ingest/FdRawIngestRepository.java:50-59 | an empty body is stored as a null payload, any other body as itself |
| RawIngestStore.InsertIfAbsent | src/main/java/org/jstats/matchlens_api/modules/football_data_org_gatherer/ingest/FdRawIngestRepository.java:61-79 | a free key gains exactly one row under the next id of the sequence, which is returned; an existing key returns empty and keeps every row, but still spends one id |
| RawIngestStore.InsertedIsFetchedSince | src/main/java/org/jstats/matchlens_api/modules/football_data_org_gatherer/ingest/FdRawIngestRepository.java:30 | after an insert at database time t the key counts as fetched since s exactly when s <= t |
| RawIngestStore.InsertIdempotent | src/main/java/org/jstats/matchlens_api/modules/football_data_org_gatherer/ingest/FdRawIngestRepository.java:66-68 | a second insert of the same key returns empty and keeps the rows the first left (first writer wins) |
| RawIngestStore.InsertLeavesOtherKeys | src/main/java/org/jstats/matchlens_api/modules/football_data_org_gatherer/ingest/FdRawIngestRepository.java:61-69 | rows under other keys, and whether they count as fetched, are unchanged by an insert |
| RawIngestStore.FdRawIngestRepository.WasFetchedSince | src/main/java/org/jstats/matchlens_api/modules/football_data_org_gatherer/ingest/FdRawIngestRepository.java:22-40 | true exactly when a row for (source, endpoint, key) has fetched_at >= since |
| RawIngestStore.FdRawIngestRepository.InsertRaw | src/main/java/org/jstats/matchlens_api/modules/football_data_org_gatherer/ingest/FdRawIngestRepository.java:42-80 | the table and the returned id are those of the insert-if-absent, and the table stays well formed |
| RawIngestService.Ingest | src/main/java/org/jstats/matchlens_api/modules/football_data_org_gatherer/ingest/FdRawIngestService.java:41-74 | at most three upstream calls; the rows change only when an id is returned |
| RawIngestService.FreshKeySkipsUpstream | src/main/java/org/jstats/matchlens_api/modules/football_data_org_gatherer/ingest/FdRawIngestService.java:47-50 | a key fetched within the last month gives empty with no upstream call and no write |
| RawIngestService.StoredRowOnSuccess | src/main/java/org/jstats/matchlens_api/modules/football_data_org_gatherer/ingest/FdRawIngestService.java:52-60 | an id is returned exactly when the key was absent, upstream gave a competition and it serialised; the new row holds that JSON, last_modified = now, fetched_at = database time |
| RawIngestService.FailureWritesNothing | src/main/java/org/jstats/matchlens_api/modules/football_data_org_gatherer/ingest/FdRawIngestService.java:61-73 | every failure (client or serialisation) leaves the table as it was |
| RawIngestService.AtMostOneFetchPerMonth | src/main/java/org/jstats/matchlens_api/modules/football_data_org_gatherer/ingest/FdRawIngestService.java:44-50 | after a stored row, a request within 28 days makes no upstream call and returns empty |
| RawIngestService.StaleRowNotRefreshed | src/main/java/org/jstats/matchlens_api/modules/football_data_org_gatherer/ingest/FdRawIngestService.java:47-60 | a row older than the month causes a new upstream call but is never replaced and no id is returned |
| RawIngestService.FdRawIngestService.FetchAndStoreCompetitionRaw | src/main/java/org/jstats/matchlens_api/modules/football_data_org_gatherer/ingest/FdRawIngestService.java:41-74 | the result, upstream call count and table afterwards are those of the ingest run |
| ProblemHandler.Handle | src/main/java/org/jstats/matchlens_api/core/config/ProblemHandler.java:21-90 | each failure kind gets its status (own status, 429, 502, 500); every failure without its own handler gets the same fixed 500 problem, which reveals nothing |
| ProblemHandler.RetryAfterOnlyWhenRateLimited | src/main/java/org/jstats/matchlens_api/core/config/ProblemHandler.java:36-56 | a Retry-After header is set exactly for the two rate-limit failures: "30" for TooManyRequestsException, the carried seconds for RateLimitedException |
| ProblemHandler.DetailsCarried | src/main/java/org/jstats/matchlens_api/core/config/ProblemHandler.java:21-80 | a ResponseStatusException keeps its reason as detail, gets the type naming its status and the title for it; a JSON parse failure keeps its message |
| ProblemHandler.InternalErrorsIndistinguishable | src/main/java/org/jstats/matchlens_api/core/config/ProblemHandler.java:82-90 | two failures without their own handler give identical problems |
| ProblemHandler.StatusesOfOwnHandlers | src/main/java/org/jstats/matchlens_api/core/config/ProblemHandler.java:36-80 | every failure other than a ResponseStatusException is answered 429, 500 or 502 |
| IngestController.FixturesAnswer | src/main/java/org/jstats/matchlens_api/modules/football_data_org_gatherer/ingest/IngestFootballDataOrgController.java:51-54 | a present id is returned unchanged; empty becomes 404 "Competition <code> not found or already stored"; a failure passes through |
| IngestController.IngestFootballDataOrgController.Fixtures | src/main/java/org/jstats/matchlens_api/modules/football_data_org_gatherer/ingest/IngestFootballDataOrgController.java:45-55 | a code outside ^[A-Z0-9]{2,5}$ fails before any call or write; a valid code runs the ingest with exactly that code |
| IngestController.InvalidCodeAnsweredInternalError | src/main/java/org/jstats/matchlens_api/modules/football_data_org_gatherer/ingest/IngestFootballDataOrgController.java:35-48 | a code failing validation is answered 500, not the documented 400 |
| IngestController.ValidCodeStatuses | src/main/java/org/jstats/matchlens_api/modules/football_data_org_gatherer/ingest/IngestFootballDataOrgController.java:30-55 | when the body converter either gives a value or fails with HttpMessageConversionException, a valid code is answered 200, 404, 429, 502, 504 or an upstream 4xx, never 500 |
| IngestController.RepeatedRequestNotFound | src/main/java/org/jstats/matchlens_api/modules/football_data_org_gatherer/ingest/IngestFootballDataOrgController.java:51-54 | a code stored less than 28 days earlier is answered 404 with no upstream call |
| SourceConfig.PlaceholderName | src/main/java/org/jstats/matchlens_api/modules/football_data_org_gatherer/config/FootballDataSourceConfig.java:40 | a group is found exactly when the text is "${", at least one character other than '}', then "}" |
| SourceConfig.PlaceholderOfName | src/main/java/org/jstats/matchlens_api/modules/football_data_org_gatherer/config/FootballDataSourceConfig.java:40 | wrapping a name without '}' in "${" and "}" yields that name as the group |
| SourceConfig.VariableName | src/main/java/org/jstats/matchlens_api/modules/football_data_org_gatherer/config/FootballDataSourceConfig.java:57-61 | a group without a colon is the variable name unchanged |
| SourceConfig.VariableNameAfterPrefix | src/main/java/org/jstats/matchlens_api/modules/football_data_org_gatherer/config/FootballDataSourceConfig.java:57-61 | everything up to and including the first colon is dropped; later colons are kept |
| SourceConfig.ResolveApiKey | src/main/java/org/jstats/matchlens_api/modules/football_data_org_gatherer/config/FootballDataSourceConfig.java:43-84 | a value with text not starting "${" is returned with source spring-property; a null or blank value is returned unchanged; a value starting "${" is matched after trimming: without a match it is handed back unchanged with no source, with one the group's variable is looked up; only IllegalArgumentException can escape |
| SourceConfig.LookUpVariable | src/main/java/org/jstats/matchlens_api/modules/football_data_org_gatherer/config/FootballDataSourceConfig.java:62-83 | fails exactly for an empty name; a found key has text; otherwise the configured value is handed back |
| SourceConfig.ResolvePlaceholder | src/main/java/org/jstats/matchlens_api/modules/football_data_org_gatherer/config/FootballDataSourceConfig.java:53-61 | a configured placeholder is resolved by looking up the variable its group names |
| SourceConfig.PaddedPlaceholderLookedUp | src/main/java/org/jstats/matchlens_api/modules/football_data_org_gatherer/config/FootballDataSourceConfig.java:54-61 | a placeholder followed by blanks, such as "${NAME} ", is still looked up, since the pattern is matched against the trimmed value |
| SourceConfig.UnclosedPlaceholderKept | src/main/java/org/jstats/matchlens_api/modules/football_data_org_gatherer/config/FootballDataSourceConfig.java:54-83 | a value opening "${" with no closing brace does not match: it is handed back unchanged with no source |
| SourceConfig.PlaceholderLookupOrder | src/main/java/org/jstats/matchlens_api/modules/football_data_org_gatherer/config/FootballDataSourceConfig.java:62-83 | system property NAME, then footballdata.api.key, then environment NAME; the first with text wins, else the configured text comes back |
| SourceConfig.EmptyVariableRejected | src/main/java/org/jstats/matchlens_api/modules/football_data_org_gatherer/config/FootballDataSourceConfig.java:58-63 | a placeholder such as "${ENV:}" makes System.getProperty throw IllegalArgumentException |
| SourceConfig.ClientApiKey | src/main/java/org/jstats/matchlens_api/modules/football_data_org_gatherer/config/FootballDataSourceConfig.java:89-92 | a key is accepted exactly when the resolved key has text and does not start "${", and it is then that key; otherwise IllegalStateException with the fixed message, or the resolver's IllegalArgumentException |
| SourceConfig.UnresolvedPlaceholderFails | src/main/java/org/jstats/matchlens_api/modules/football_data_org_gatherer/config/FootballDataSourceConfig.java:82-92 | an unresolved placeholder is never sent as a key: startup fails |
| SourceConfig.KeyTail | src/main/java/org/jstats/matchlens_api/modules/football_data_org_gatherer/config/FootballDataSourceConfig.java:95-96 | the tail has two characters: the key's last two, or "??" for a shorter key |
| MatchPayload.CompetitionTypeKnownTexts | src/main/java/org/jstats/matchlens_api/modules/football_data_org_gatherer/ingest/MatchPayload.java:64-70 | a text decodes to a constant other than UNKNOWN exactly when, trimmed, it is LEAGUE, CUP, PLAYOFFS or one of their indexes 0, 1, 2, and each known constant comes from its own name or index; every other text, a larger index included, is UNKNOWN |
| MatchPayload.StageKnownTexts | src/main/java/org/jstats/matchlens_api/modules/football_data_org_gatherer/ingest/MatchPayload.java:72-77 | a text decodes to REGULAR_SEASON exactly when, trimmed, it is REGULAR_SEASON or its index 0; every other text, "null" included, is UNKNOWN |
| MatchPayload.CompetitionTypeRoundTrip | src/main/java/org/jstats/matchlens_api/modules/football_data_org_gatherer/ingest/MatchPayload.java:64-70 | decoding the written name gives the constant back, UNKNOWN included |
| MatchPayload.StageRoundTrip | src/main/java/org/jstats/matchlens_api/modules/football_data_org_gatherer/ingest/MatchPayload.java:72-77 | decoding the written name gives the stage back, UNKNOWN included |
| MatchPayload.CompetitionTypeIndexRoundTrip | src/main/java/org/jstats/matchlens_api/modules/football_data_org_gatherer/ingest/MatchPayload.java:64-70 | the decimal text of each constant's declaration index decodes to that constant |
| MatchPayload.StageIndexRoundTrip | src/main/java/org/jstats/matchlens_api/modules/football_data_org_gatherer/ingest/MatchPayload.java:72-77 | the decimal text of each stage's declaration index decodes to that stage |
| MatchPayload.EnumTextTrimmed | src/main/java/org/jstats/matchlens_api/modules/football_data_org_gatherer/ingest/MatchPayload.java:64-77 | blanks around an enum text never change what it decodes to |
| MatchPayload.DecodeStageToken | src/main/java/org/jstats/matchlens_api/modules/football_data_org_gatherer/ingest/MatchPayload.java:72-77 | a JSON null is an absent stage while the string "null" is UNKNOWN; REGULAR_SEASON comes exactly from the text REGULAR_SEASON or 0, or the integer 0; strings, null and integers within the int range decode, every other token fails |
| MatchPayload.StageIndexToken | src/main/java/org/jstats/matchlens_api/modules/football_data_org_gatherer/ingest/MatchPayload.java:72-77 | an integer token equal to a stage's index decodes to that stage; any other int decodes to UNKNOWN |
| MatchPayload.EncodeArea | src/main/java/org/jstats/matchlens_api/modules/football_data_org_gatherer/ingest/MatchPayload.java:25-32 | an Area is written as an object with no null-valued member |
| MatchPayload.EncodedAreaGet | src/main/java/org/jstats/matchlens_api/modules/football_data_org_gatherer/ingest/MatchPayload.java:25-32 | each field of an encoded Area is found under its own name, a null field is absent |
| MatchPayload.AreaRoundTrip | src/main/java/org/jstats/matchlens_api/modules/football_data_org_gatherer/ingest/MatchPayload.java:25-32 | decoding an encoded Area gives it back |
| MatchPayload.AreaIgnoresUnknownMember | src/main/java/org/jstats/matchlens_api/modules/football_data_org_gatherer/ingest/MatchPayload.java:26 | an unknown member anywhere in the object does not change the decoded Area |
| PredictionService.BuildQuery | src/main/java/org/jstats/matchlens_api/modules/ai_prediction/service/MatchPredictionService.java:108-111 | the query is exactly "<home> vs <away> <competition> football match": it opens with "<home> vs <away> ", closes with "<competition> football match", and its length leaves room for nothing else |
| PredictionService.RetrieveSimilarMatches | src/main/java/org/jstats/matchlens_api/modules/ai_prediction/service/MatchPredictionService.java:113-131 | the documents found, or the empty list for a failed search or a null result |
| PredictionService.Cleaned | src/main/java/org/jstats/matchlens_api/modules/ai_prediction/service/MatchPredictionService.java:147-157 | the cleaned reply has no surrounding whitespace |
| PredictionService.CleanResponse | src/main/java/org/jstats/matchlens_api/modules/ai_prediction/service/MatchPredictionService.java:147-157 | the step-by-step cleanup equals trim, drop "```json", drop "```", drop trailing "```", trim |
| PredictionService.CleanedJsonFence | src/main/java/org/jstats/matchlens_api/modules/ai_prediction/service/MatchPredictionService.java:147-157 | a reply fenced as ```json ... ``` is cleaned to its trimmed body |
| PredictionService.CleanedPlainFence | src/main/java/org/jstats/matchlens_api/modules/ai_prediction/service/MatchPredictionService.java:151-157 | a reply fenced as ``` ... ``` is cleaned to its trimmed body unless the body starts with "json" |
| PredictionService.CleanedUnfenced | src/main/java/org/jstats/matchlens_api/modules/ai_prediction/service/MatchPredictionService.java:147-157 | a reply without fences is only trimmed |
| PredictionService.CastToString | src/main/java/org/jstats/matchlens_api/modules/ai_prediction/service/MatchPredictionService.java:162-164 | the cast fails exactly for a present value that is neither a string nor null |
| PredictionService.ConfidenceOf | src/main/java/org/jstats/matchlens_api/modules/ai_prediction/service/MatchPredictionService.java:163 | a number is reported as given; anything else is the default confidence |
| PredictionService.KeyFactorsOf | src/main/java/org/jstats/matchlens_api/modules/ai_prediction/service/MatchPredictionService.java:166-168 | a list gives each element's text in order (a null element throws); any other value gives [] |
| PredictionService.ExtractFromText | src/main/java/org/jstats/matchlens_api/modules/ai_prediction/service/MatchPredictionService.java:178-193 | the winner is one of HOME, AWAY, DRAW; confidence is the default, reasoning the raw reply, key factors the single parse-failure note, matches passed through |
| PredictionService.ExtractedWinner | src/main/java/org/jstats/matchlens_api/modules/ai_prediction/service/MatchPredictionService.java:179-184 | HOME iff the upper-cased reply contains HOME; AWAY iff it contains AWAY but not HOME; DRAW iff neither |
| PredictionService.MentionedHomeWins | src/main/java/org/jstats/matchlens_api/modules/ai_prediction/service/MatchPredictionService.java:180-181 | a reply mentioning "home" in any ASCII case is a home win whatever else it says |
| PredictionService.MentionedAwayWins | src/main/java/org/jstats/matchlens_api/modules/ai_prediction/service/MatchPredictionService.java:182-183 | a reply mentioning "away" but not "home" is an away win |
| PredictionService.FromObject | src/main/java/org/jstats/matchlens_api/modules/ai_prediction/service/MatchPredictionService.java:162-170 | fails exactly when a cast or a key factor throws; otherwise each field is read from its member and the matches are passed through |
| PredictionService.Interpret | src/main/java/org/jstats/matchlens_api/modules/ai_prediction/service/MatchPredictionService.java:160-175 | a JSON null fails; any result carries the given matches |
| PredictionService.InterpretCases | src/main/java/org/jstats/matchlens_api/modules/ai_prediction/service/MatchPredictionService.java:160-175 | text that is not JSON, or JSON that is not an object, is scanned for keywords; an object is read field by field |
| PredictionService.ParseResponse | src/main/java/org/jstats/matchlens_api/modules/ai_prediction/service/MatchPredictionService.java:144-176 | a null reply fails; any result carries the given matches |
| PredictionService.WellTypedReplyRead | src/main/java/org/jstats/matchlens_api/modules/ai_prediction/service/MatchPredictionService.java:162-170 | an object with a string winner, a number confidence and string key factors is read as exactly those values |
| PredictionService.FencedObjectReplyRead | src/main/java/org/jstats/matchlens_api/modules/ai_prediction/service/MatchPredictionService.java:144-170 | a ```json-fenced well-typed object is read as its fields |
| PredictionService.CreateFallbackResponse | src/main/java/org/jstats/matchlens_api/modules/ai_prediction/service/MatchPredictionService.java:195-203 | DRAW, the fallback confidence, the fixed reasoning and key factors, the context's matches |
| PredictionService.PredictFallback | src/main/java/org/jstats/matchlens_api/modules/ai_prediction/service/MatchPredictionService.java:213-224 | UNAVAILABLE, zero confidence, reasoning "Prediction service temporarily unavailable: " followed by the message, or by "null" when there is none, the two degraded key factors, no matches |
| PredictionService.Prediction | src/main/java/org/jstats/matchlens_api/modules/ai_prediction/service/MatchPredictionService.java:74-106 | the prediction always carries the matches of the context built for the request |
| PredictionService.Predict | src/main/java/org/jstats/matchlens_api/modules/ai_prediction/service/MatchPredictionService.java:74-106 | the steps as run (query, search, context, chat, cleanup, parse, fallback) give the specified prediction |
| PredictionService.EmptySearchUsesDatabase | src/main/java/org/jstats/matchlens_api/modules/ai_prediction/service/MatchPredictionService.java:83-86 | a search that fails or finds nothing leaves the matches to the database rows |
| PredictionService.BrokenReplyFallsBack | src/main/java/org/jstats/matchlens_api/modules/ai_prediction/service/MatchPredictionService.java:92-105 | a failed chat call, a null reply, a JSON null or an ill-typed winner gives the fallback draw |
| PredictionService.PredictionFollowsParsedReply | src/main/java/org/jstats/matchlens_api/modules/ai_prediction/service/MatchPredictionService.java:100-101 | a reply that parses is the prediction |
| PredictionService.TextReplyKeptAsReasoning | src/main/java/org/jstats/matchlens_api/modules/ai_prediction/service/MatchPredictionService.java:171-175 | a reply that is not JSON becomes the keyword scan of the raw reply |
| ContextBuilder.GetStringValue | src/main/java/org/jstats/matchlens_api/modules/ai_prediction/service/MatchContextBuilder.java:128-131 | a missing key or null value reads as ""; a string value reads as itself |
| ContextBuilder.DocumentMatch | src/main/java/org/jstats/matchlens_api/modules/ai_prediction/service/MatchContextBuilder.java:46-56 | each of the five fields is the metadata's string value under its own key (home_team, away_team, result, competition, date), so none is null |
| ContextBuilder.SummaryLine | src/main/java/org/jstats/matchlens_api/modules/ai_prediction/service/MatchContextBuilder.java:58-59 | each line starts with "- " and ends with the line separator |
| ContextBuilder.SummaryLineFields | src/main/java/org/jstats/matchlens_api/modules/ai_prediction/service/MatchContextBuilder.java:58-59 | the line is exactly "- H vs A: R (C, D)" and a line break: each field's text sits between its separators at the offset the earlier fields' lengths give, and the length is the fields' lengths plus 14 |
| ContextBuilder.LinesSnoc | src/main/java/org/jstats/matchlens_api/modules/ai_prediction/service/MatchContextBuilder.java:58-59 | appending a match appends exactly its line |
| ContextBuilder.LinesAppend | src/main/java/org/jstats/matchlens_api/modules/ai_prediction/service/MatchContextBuilder.java:58-59 | the lines of two runs of matches are the first's followed by the second's |
| ContextBuilder.LinesEmptyIff | src/main/java/org/jstats/matchlens_api/modules/ai_prediction/service/MatchContextBuilder.java:68 | the lines are empty iff there are no matches, so "No historical data available" stands only for no matches |
| ContextBuilder.DocumentMatches | src/main/java/org/jstats/matchlens_api/modules/ai_prediction/service/MatchContextBuilder.java:45-56 | one match per document, in document order |
| ContextBuilder.RowMatch | src/main/java/org/jstats/matchlens_api/modules/ai_prediction/service/MatchContextBuilder.java:105-114 | a null score or date becomes "N/A"; names are kept as they are |
| ContextBuilder.RowMatches | src/main/java/org/jstats/matchlens_api/modules/ai_prediction/service/MatchContextBuilder.java:102-121 | one match per row in row order; a failed query gives none |
| ContextBuilder.ContextOf | src/main/java/org/jstats/matchlens_api/modules/ai_prediction/service/MatchContextBuilder.java:123-125 | the context keeps the matches, has both team stats empty, and the no-data summary for no matches |
| ContextBuilder.BuildFromDatabase | src/main/java/org/jstats/matchlens_api/modules/ai_prediction/service/MatchContextBuilder.java:76-126 | the loop's matches and summary equal one match and one line per row |
| ContextBuilder.Build | src/main/java/org/jstats/matchlens_api/modules/ai_prediction/service/MatchContextBuilder.java:38-71 | the loop's matches and summary equal one per document; no documents delegates to the database path |
| ContextBuilder.BuiltSummaryListsMatches | src/main/java/org/jstats/matchlens_api/modules/ai_prediction/service/MatchContextBuilder.java:58-70 | with matches, the summary is exactly their lines and is not empty |
| ContextBuilder.DocumentSummaryHasLines | src/main/java/org/jstats/matchlens_api/modules/ai_prediction/service/MatchContextBuilder.java:45-70 | with at least one document the summary is the documents' lines |
| EmbeddingStore.VectorStringRoundTrip | src/main/java/org/jstats/matchlens_api/modules/ai_prediction/repository/MatchEmbeddingRepository.java:32-38 | the vector literal lists the elements' texts in order, separated by single commas: splitting it gives them back |
| EmbeddingStore.VectorStringShape | src/main/java/org/jstats/matchlens_api/modules/ai_prediction/repository/MatchEmbeddingRepository.java:32-38 | the literal is bracketed and is "[]" exactly for the empty list |
| EmbeddingStore.Save | src/main/java/org/jstats/matchlens_api/modules/ai_prediction/repository/MatchEmbeddingRepository.java:47-68 | an id is returned exactly when the match had no row and no database error occurred, and the new row holds the vector literal; a conflict keeps every row but spends one id; a database error changes nothing |
| EmbeddingStore.Delete | src/main/java/org/jstats/matchlens_api/modules/ai_prediction/repository/MatchEmbeddingRepository.java:113-117 | the match's row is gone, the count is 1 or 0, other matches are untouched |
| EmbeddingStore.SavedExists | src/main/java/org/jstats/matchlens_api/modules/ai_prediction/repository/MatchEmbeddingRepository.java:47-55 | after a save without database error the match has an embedding |
| EmbeddingStore.SaveKeepsFirst | src/main/java/org/jstats/matchlens_api/modules/ai_prediction/repository/MatchEmbeddingRepository.java:53 | a second save for the same match returns empty and keeps the first embedding |
| EmbeddingStore.SaveLeavesOthers | src/main/java/org/jstats/matchlens_api/modules/ai_prediction/repository/MatchEmbeddingRepository.java:50-55 | a save leaves every other match's row as it was |
| EmbeddingStore.DeleteThenSave | src/main/java/org/jstats/matchlens_api/modules/ai_prediction/repository/MatchEmbeddingRepository.java:113-117 | after a delete the match can be saved again, under a new id |
| EmbeddingStore.MatchEmbeddingRepository.ExistsByMatchId | src/main/java/org/jstats/matchlens_api/modules/ai_prediction/repository/MatchEmbeddingRepository.java:100-105 | true exactly when the match has a row |
| EmbeddingStore.MatchEmbeddingRepository.SaveEmbedding | src/main/java/org/jstats/matchlens_api/modules/ai_prediction/repository/MatchEmbeddingRepository.java:47-68 | the table and the id returned are those of the save |
| EmbeddingStore.MatchEmbeddingRepository.DeleteByMatchId | src/main/java/org/jstats/matchlens_api/modules/ai_prediction/repository/MatchEmbeddingRepository.java:113-117 | the table and the count returned are those of the delete |
| EmbeddingService.ToDoubleList | src/main/java/org/jstats/matchlens_api/modules/ai_prediction/service/EmbeddingService.java:41-47 | one double per float, same length, same order |
| EmbeddingService.MatchText | src/main/java/org/jstats/matchlens_api/modules/ai_prediction/service/EmbeddingService.java:160-163 | the text starts with "<home> vs " and ends with ", Date: <date>" |
| EmbeddingService.MatchTextFields | src/main/java/org/jstats/matchlens_api/modules/ai_prediction/service/EmbeddingService.java:160-163 | the text is exactly "H vs A, S, Score: X, Competition: C, Date: D": each column's text sits between its separators at the offset the earlier columns' lengths give, and the length is the columns' lengths plus 38 |
| EmbeddingService.BuildMatchText | src/main/java/org/jstats/matchlens_api/modules/ai_prediction/service/EmbeddingService.java:132-168 | a text exactly for a match that has a row; none when the query throws |
| EmbeddingService.NullScoreAndDateWrittenEmpty | src/main/java/org/jstats/matchlens_api/modules/ai_prediction/service/EmbeddingService.java:156-158 | a null score or date is written as "" (not "null") |
| EmbeddingService.Generate | src/main/java/org/jstats/matchlens_api/modules/ai_prediction/service/EmbeddingService.java:55-82 | true exactly when the match had no embedding, has a row and embeds; false leaves the table unchanged |
| EmbeddingService.GenerateStores | src/main/java/org/jstats/matchlens_api/modules/ai_prediction/service/EmbeddingService.java:69-77 | on true the widened embedding is stored, unless save swallowed a database error, in which case nothing is stored yet true is returned |
| EmbeddingService.GenerateSkipsExisting | src/main/java/org/jstats/matchlens_api/modules/ai_prediction/service/EmbeddingService.java:57-60 | a match with an embedding gives false and nothing changes |
| EmbeddingService.GenerateTouchesOnlyItsMatch | src/main/java/org/jstats/matchlens_api/modules/ai_prediction/service/EmbeddingService.java:55-82 | no other match's row changes |
| EmbeddingService.GenerateOnce | src/main/java/org/jstats/matchlens_api/modules/ai_prediction/service/EmbeddingService.java:57-60 | a match embedded once is not embedded again |
| EmbeddingService.WithoutEmbedding | src/main/java/org/jstats/matchlens_api/modules/ai_prediction/service/EmbeddingService.java:91-99 | exactly the given ids that have no embedding, in the given order |
| EmbeddingService.WithoutEmbeddingAppend | src/main/java/org/jstats/matchlens_api/modules/ai_prediction/service/EmbeddingService.java:91-99 | the ids kept from a list made of two parts are those kept from the first part followed by those kept from the second: the order is preserved |
| EmbeddingService.WithoutEmbeddingSingle | src/main/java/org/jstats/matchlens_api/modules/ai_prediction/service/EmbeddingService.java:91-96 | a single id is kept exactly when it has no embedding |
| EmbeddingService.PendingMatches | src/main/java/org/jstats/matchlens_api/modules/ai_prediction/service/EmbeddingService.java:91-102 | the first min(limit, n) of the finished matches without an embedding, in the given order, n being how many there are |
| EmbeddingService.Batch | src/main/java/org/jstats/matchlens_api/modules/ai_prediction/service/EmbeddingService.java:104-112 | the count never exceeds the number of ids |
| EmbeddingService.BatchOnlyAdds | src/main/java/org/jstats/matchlens_api/modules/ai_prediction/service/EmbeddingService.java:104-109 | a batch keeps every existing row and adds rows only for its ids |
| EmbeddingService.BatchCountsAll | src/main/java/org/jstats/matchlens_api/modules/ai_prediction/service/EmbeddingService.java:104-112 | when every id is new, distinct, has a row, embeds and saves, the count is the number of ids |
| EmbeddingService.BatchStoresAll | src/main/java/org/jstats/matchlens_api/modules/ai_prediction/service/EmbeddingService.java:104-112 | under the same conditions every id has an embedding after the batch |
| EmbeddingService.BatchRun | src/main/java/org/jstats/matchlens_api/modules/ai_prediction/service/EmbeddingService.java:90-113 | a negative limit fails; otherwise the count is at most limit |
| EmbeddingService.BatchCountsPending | src/main/java/org/jstats/matchlens_api/modules/ai_prediction/service/EmbeddingService.java:90-113 | when every candidate succeeds the count is min(limit, number of finished matches without an embedding) |
| EmbeddingService.EmbeddingServiceBean.GenerateAndStoreEmbedding | src/main/java/org/jstats/matchlens_api/modules/ai_prediction/service/EmbeddingService.java:55-82 | the table and the boolean are those of Generate |
| EmbeddingService.EmbeddingServiceBean.GenerateBatchEmbeddings | src/main/java/org/jstats/matchlens_api/modules/ai_prediction/service/EmbeddingService.java:90-113 | a negative limit fails with the database error and changes nothing; otherwise the count and table are those of the batch over the query's ids |
| EmbeddingService.EmbeddingServiceBean.CountEmbedded | src/main/java/org/jstats/matchlens_api/modules/ai_prediction/service/EmbeddingService.java:104-109 | the counting loop leaves the table and count of the batch over the ids, one generate call per id in order |
| EmbeddingService.EmbeddingServiceBean.GenerateQueryEmbedding | src/main/java/org/jstats/matchlens_api/modules/ai_prediction/service/EmbeddingService.java:121-124 | the query's embedding widened element by element, in order; an exception of the model reaches the caller |

## Where the code and its documentation disagree

Each point below describes the code as written. The model captures that behaviour only; it has no corrected variant of any of them.

- **Service method name.** The service declares `fetchAndStoreCompetitionRaw` (`FdRawIngestService.java:41`). The controller (`IngestFootballDataOrgController.java:51`) and the service test call `storeCompetitionRaw`, which does not exist. The model's controller calls `FetchAndStoreCompetitionRaw`, the only method the service has.
- **`UpstreamBadContentTypeException` is never thrown.** The client's comment says a 2xx non-JSON reply is "treated as upstream error" (`FdOrgClient.java:42`). The exception is declared (`FdOrgClient.java:132-139`) and has a handler, but no code path throws it. The model takes a 2xx body that cannot be read to surface as `HttpMessageConversionException`, which the client turns into `UpstreamJsonParseException` (`FdOrgClient.java:106-116`). `FdOrgClient.OutcomeFailures` proves a caller never sees the bad-content-type failure. What the HTTP client library raises instead in some cases is not modelled (see `FdOrgClient.Attempt` under "Left out").
- **Retry-After is reported, not waited for.** The client's comment promises exponential back-off (`FdOrgClient.java:40`), and the pauses are the fixed 1000 and 2000 ms whatever a 429 advertises (`FdOrgClient.RateLimitedThrice`). The advertised value appears only in the recovery reason (`FdOrgClient.java:165-166`) and in the rate-limit problem's header (`ProblemHandler.java:55`).
- **An invalid code gets 500, not the documented 400.** The endpoint documents 400 for a bad request (`IngestFootballDataOrgController.java:35-36`). A code failing `@Pattern` raises a validation exception with no handler of its own, so the catch-all answers 500 (`IngestController.InvalidCodeAnsweredInternalError`).
- **A stale row is never refreshed.** A row older than the month sends the service upstream again. The insert then meets the existing row and does nothing but spend an id, so the result is empty, the endpoint answers 404 "already stored", and the old payload stays (`RawIngestService.StaleRowNotRefreshed`).
- **A failed embedding insert still reports success.** `generateAndStoreEmbedding` returns true whenever the embedding model answers. `save` swallows its own database errors (`MatchEmbeddingRepository.java:64-67`), so true does not guarantee a stored row (`EmbeddingService.GenerateStores`).

## Left out

- HTTP transport, RestClient and Spring wiring: the request chain, timeouts, bean construction, and the AOP proxies that apply `@Retryable`, `@CircuitBreaker` and `@Retry`. The retry policy is modelled as an explicit loop.
- Real waiting: the pauses are recorded as values, not slept.
- FdOrgClient.GetCompetitionInfo: the jitter-free exponential policy is modelled as Spring Retry documents it. A non-retryable exception with no matching `@Recover` is taken to be rethrown unchanged.
- RawIngestService.Ingest: `minusMonths(1)` is not computed. The month before `now` is an input between 28 and 31 days, so the result holds for every calendar month.
- SQL, JDBC, PGobject/jsonb, and the atomicity of `ON CONFLICT` under concurrent callers. The model is sequential and the tables are maps. Database errors of `wasFetchedSince` and `insertRaw` are not modelled; only `save`'s swallowed error is an input.
- Jackson (de)serialisation beyond what is listed here. `readValue` and `writeValueAsString` are function parameters. Enum decoding is modelled as Jackson 2.19 does it with `READ_UNKNOWN_ENUM_VALUES_USING_DEFAULT_VALUE` enabled (`JacksonConfig.java:17`): the name, then the trimmed name, then a decimal index, then the default UNKNOWN; a number token is read as an index. The `Area` record's encoding is modelled; the other records are transcribed as datatypes.
- FdOrgClient.Attempt: RestClient is not part of this model. Every 2xx body goes to the `read` parameter, which is assumed either to give a value (null for an empty body, hence an empty result) or to fail with HttpMessageConversionException. RestClient may instead wrap a converter's failure in a plain RestClientException, or raise UnknownContentTypeException for a content type no converter reads. The client catches neither, so either would reach the problem handler's catch-all and be answered 500. That outcome is not modelled, and `IngestController.ValidCodeStatuses` holds only under this assumption.
- RawIngestStore.InsertIfAbsent and EmbeddingStore.Save: the table schema is not part of this model. The id is taken to come from a sequence drawn before the conflict check, so a conflicting insert spends one value; a failed `save` is taken to spend none.
- FdOrgClient.Preview: each body byte of 0x80 or above becomes U+FFFD. Multi-byte UTF-8 sequences are not decoded to their characters.
- The language model, the embedding model and the vector search are foreign calls, given as function parameters. The cosine-distance query `findSimilarMatches` is not modelled.
- The prompt template (`createPrompt` and `PromptConfig`): the chat parameter receives the context summary, the only part the model computes.
- Floating point: floats are bit patterns and doubles are their `Double.toString` text. The widening cast is a parameter. Confidence scores are tokens (reported literal, 0.5, 0.33, 0.0), not doubles.
- Json.JavaString: a JSON number is rendered as its literal text, not as the `Double.toString` or `Integer.toString` of the parsed value, and an object with a repeated key is rendered with every occurrence, where the parsed map keeps only the last value.
- PredictionService.ExtractFromText: `toUpperCase` is modelled for ASCII letters only.
- Logging, and the static diagnostic `lastSource` in the key resolver: the source is returned as part of the `Resolution` instead.
- The startup log line around `KeyTail` and the `connectTimeout`/`readTimeout` settings of the client builder.
- OpenApiConfig, OllamaConfig, PromptConfig, PredictionController, ClockConfig and the build script carry no logic that is modelled.
