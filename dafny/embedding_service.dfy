/** EmbeddingService: gives a finished match an embedding. The match is
    described as one line of text, the embedding model turns the text into
    floats, they are widened to doubles and saved; a batch does this for the
    most recent finished matches that have no embedding yet and counts the
    successes.

    The database reads are inputs: the row the match-text query finds for
    each match id (an id without a row makes queryForMap throw), and the
    ids of the finished matches, most recent first. The embedding model,
    the float-to-double widening and the database errors the insert meets
    are given as the `Collaborators`. */
module EmbeddingService {
  import opened Outcomes
  import opened JavaText
  import opened Exceptions
  import opened EmbeddingStore

  /** A float, by its IEEE 754 bit pattern. */
  datatype Float = Float(bits: bv32)

  /** What EmbeddingModel.embed gives: the vector, or an exception. */
  datatype EmbedOutcome = Embedded(vector: seq<Float>) | EmbedFailed(message: Option<string>)

  /** The row of the match-text query, every column nullable. */
  datatype MatchRow = MatchRow(
    homeTeam: Option<string>, awayTeam: Option<string>, status: Option<string>,
    score: Option<string>, competition: Option<string>, matchDate: Option<string>)

  /** The collaborators of the service: the match rows, the embedding
      model, the widening cast, and the match ids whose insert fails in the
      database. */
  datatype Collaborators = Collaborators(
    matches: map<int, MatchRow>, embed: string -> EmbedOutcome,
    widen: Float -> Double, saveFaults: set<int>)

  // ---------- toDoubleList ----------

  /** Each float widened, in order. */
  function Widened(embedding: seq<Float>, widen: Float -> Double): (ds: seq<Double>)
    ensures |ds| == |embedding|
    ensures forall i :: 0 <= i < |embedding| ==> ds[i] == widen(embedding[i])
  {
    seq(|embedding|, i requires 0 <= i < |embedding| => widen(embedding[i]))
  }

  /** toDoubleList: one double per float, in the same order. */
  method ToDoubleList(embedding: seq<Float>, widen: Float -> Double) returns (result: seq<Double>)
    ensures |result| == |embedding|
    ensures forall i :: 0 <= i < |embedding| ==> result[i] == widen(embedding[i])
  {
    result := [];
    var k := 0;
    while k < |embedding|
      invariant 0 <= k <= |embedding|
      invariant |result| == k
      invariant forall i :: 0 <= i < k ==> result[i] == widen(embedding[i])
    {
      result := result + [widen(embedding[k])];
      k := k + 1;
    }
  }

  // ---------- buildMatchText ----------

  /** The text String.format's %s gives a nullable string. */
  function Text(s: Option<string>): string {
    if s.Some? then s.value else "null"
  }

  /** The score and date columns: their text, or "" when null. */
  function OrEmpty(s: Option<string>): string {
    if s.Some? then s.value else ""
  }

  /** "%s vs %s, %s, Score: %s, Competition: %s, Date: %s" over the row. */
  function MatchText(row: MatchRow): (text: string)
    ensures StartsWith(text, Text(row.homeTeam) + " vs ")
    ensures EndsWith(text, ", Date: " + OrEmpty(row.matchDate))
  {
    var h, a, st, sc := Text(row.homeTeam), Text(row.awayTeam), Text(row.status), OrEmpty(row.score);
    var c, d := Text(row.competition), OrEmpty(row.matchDate);
    MatchPieces(h, a, st, sc, c, d);
    var text := h + " vs " + a + ", " + st + ", Score: " + sc + ", Competition: " + c + ", Date: " + d;
    AdjacentPieces(text, 0, h, " vs ");
    AdjacentPieces(text, |h| + |a| + |st| + |sc| + |c| + 30, ", Date: ", d);
    text
  }

  /** The text is "H vs A, S, Score: X, Competition: C, Date: D": each
      column's text sits between its separators, at the offsets the
      lengths of the columns before it give, and nothing else is written. */
  lemma MatchTextFields(row: MatchRow)
    ensures var text := MatchText(row);
            var h, a, st, sc := Text(row.homeTeam), Text(row.awayTeam), Text(row.status), OrEmpty(row.score);
            var c, d := Text(row.competition), OrEmpty(row.matchDate);
            |text| == |h| + |a| + |st| + |sc| + |c| + |d| + 38
            && text[..|h|] == h && text[|h|..|h| + 4] == " vs "
            && text[|h| + 4..|h| + |a| + 4] == a && text[|h| + |a| + 4..|h| + |a| + 6] == ", "
            && text[|h| + |a| + 6..|h| + |a| + |st| + 6] == st
            && text[|h| + |a| + |st| + 6..|h| + |a| + |st| + 15] == ", Score: "
            && text[|h| + |a| + |st| + 15..|h| + |a| + |st| + |sc| + 15] == sc
            && text[|h| + |a| + |st| + |sc| + 15..|h| + |a| + |st| + |sc| + 30] == ", Competition: "
            && text[|h| + |a| + |st| + |sc| + 30..|h| + |a| + |st| + |sc| + |c| + 30] == c
            && text[|h| + |a| + |st| + |sc| + |c| + 30..|h| + |a| + |st| + |sc| + |c| + 38] == ", Date: "
            && text[|h| + |a| + |st| + |sc| + |c| + 38..] == d
  {
    MatchPieces(Text(row.homeTeam), Text(row.awayTeam), Text(row.status), OrEmpty(row.score),
                Text(row.competition), OrEmpty(row.matchDate));
  }

  /** MatchTextFields for arbitrary column texts. */
  lemma MatchPieces(h: string, a: string, st: string, sc: string, c: string, d: string)
    ensures var text := h + " vs " + a + ", " + st + ", Score: " + sc + ", Competition: " + c + ", Date: " + d;
            |text| == |h| + |a| + |st| + |sc| + |c| + |d| + 38
            && text[..|h|] == h && text[|h|..|h| + 4] == " vs "
            && text[|h| + 4..|h| + |a| + 4] == a && text[|h| + |a| + 4..|h| + |a| + 6] == ", "
            && text[|h| + |a| + 6..|h| + |a| + |st| + 6] == st
            && text[|h| + |a| + |st| + 6..|h| + |a| + |st| + 15] == ", Score: "
            && text[|h| + |a| + |st| + 15..|h| + |a| + |st| + |sc| + 15] == sc
            && text[|h| + |a| + |st| + |sc| + 15..|h| + |a| + |st| + |sc| + 30] == ", Competition: "
            && text[|h| + |a| + |st| + |sc| + 30..|h| + |a| + |st| + |sc| + |c| + 30] == c
            && text[|h| + |a| + |st| + |sc| + |c| + 30..|h| + |a| + |st| + |sc| + |c| + 38] == ", Date: "
            && text[|h| + |a| + |st| + |sc| + |c| + 38..] == d
  {
    MatchPiecesHead(h, a, st, sc, c, d);
    MatchPiecesTail(h, a, st, sc, c, d);
  }

  /** The columns of MatchPieces up to the status. */
  lemma MatchPiecesHead(h: string, a: string, st: string, sc: string, c: string, d: string)
    ensures var text := h + " vs " + a + ", " + st + ", Score: " + sc + ", Competition: " + c + ", Date: " + d;
            |text| == |h| + |a| + |st| + |sc| + |c| + |d| + 38
            && text[..|h|] == h && text[|h|..|h| + 4] == " vs "
            && text[|h| + 4..|h| + |a| + 4] == a && text[|h| + |a| + 4..|h| + |a| + 6] == ", "
            && text[|h| + |a| + 6..|h| + |a| + |st| + 6] == st
  {
    JavaText.ElevenPieces(h, " vs ", a, ", ", st, ", Score: ", sc, ", Competition: ", c, ", Date: ", d);
  }

  /** The columns of MatchPieces from the score on. */
  lemma MatchPiecesTail(h: string, a: string, st: string, sc: string, c: string, d: string)
    ensures var text := h + " vs " + a + ", " + st + ", Score: " + sc + ", Competition: " + c + ", Date: " + d;
            |text| == |h| + |a| + |st| + |sc| + |c| + |d| + 38
            && text[|h| + |a| + |st| + 6..|h| + |a| + |st| + 15] == ", Score: "
            && text[|h| + |a| + |st| + 15..|h| + |a| + |st| + |sc| + 15] == sc
            && text[|h| + |a| + |st| + |sc| + 15..|h| + |a| + |st| + |sc| + 30] == ", Competition: "
            && text[|h| + |a| + |st| + |sc| + 30..|h| + |a| + |st| + |sc| + |c| + 30] == c
            && text[|h| + |a| + |st| + |sc| + |c| + 30..|h| + |a| + |st| + |sc| + |c| + 38] == ", Date: "
            && text[|h| + |a| + |st| + |sc| + |c| + 38..] == d
  {
    JavaText.ElevenPieces(h, " vs ", a, ", ", st, ", Score: ", sc, ", Competition: ", c, ", Date: ", d);
  }

  /** buildMatchText(matchId): the text of the match's row, or null when
      the query throws, as it does for an id without a row. */
  function BuildMatchText(matches: map<int, MatchRow>, matchId: int): (text: Option<string>)
    ensures text.Some? <==> matchId in matches
    ensures text.Some? ==> text.value == MatchText(matches[matchId])
  {
    if matchId in matches then Some(MatchText(matches[matchId])) else None
  }

  /** A null score or date is written as the empty string, not as
      "null": the text is the one an empty score or date gives. */
  lemma NullScoreAndDateWrittenEmpty(row: MatchRow)
    ensures row.score.None? ==> MatchText(row) == MatchText(row.(score := Some("")))
    ensures row.matchDate.None? ==> MatchText(row) == MatchText(row.(matchDate := Some("")))
  {
  }

  // ---------- generateAndStoreEmbedding ----------

  /** generateAndStoreEmbedding(matchId) as a function of the table before
      it: the table after it and the boolean it returns. */
  function Generate(t: Table, matchId: int, c: Collaborators): (r: (Table, bool))
    requires TableValid(t)
    ensures TableValid(r.0)
    ensures r.1 <==> (!Exists(t, matchId) && matchId in c.matches
                      && c.embed(MatchText(c.matches[matchId])).Embedded?)
    ensures !r.1 ==> r.0 == t
  {
    if Exists(t, matchId) then (t, false)
    else
      match BuildMatchText(c.matches, matchId)
      case None => (t, false)
      case Some(text) =>
        match c.embed(text)
        case EmbedFailed(_) => (t, false)
        case Embedded(vector) =>
          (Save(t, matchId, Widened(vector, c.widen), matchId in c.saveFaults).0, true)
  }

  /** When it reports success, the match's widened embedding is stored,
      unless the insert met a database error: save swallows that error and
      the call still reports success, with the table unchanged. */
  lemma GenerateStores(t: Table, matchId: int, c: Collaborators)
    requires TableValid(t) && Generate(t, matchId, c).1
    ensures var t' := Generate(t, matchId, c).0;
            var vector := c.embed(MatchText(c.matches[matchId])).vector;
            if matchId in c.saveFaults then t' == t
            else Exists(t', matchId) && t'.rows[matchId].embedding == ToVectorString(Widened(vector, c.widen))
  {
  }

  /** A match that already has an embedding is left alone: the call
      reports false and nothing is generated or written. */
  lemma GenerateSkipsExisting(t: Table, matchId: int, c: Collaborators)
    requires TableValid(t) && Exists(t, matchId)
    ensures Generate(t, matchId, c) == (t, false)
  {
  }

  /** A call writes nothing for any other match. */
  lemma GenerateTouchesOnlyItsMatch(t: Table, matchId: int, c: Collaborators, other: int)
    requires TableValid(t) && other != matchId
    ensures var t' := Generate(t, matchId, c).0;
            (Exists(t', other) <==> Exists(t, other)) && (other in t.rows ==> t'.rows[other] == t.rows[other])
  {
  }

  /** A match whose embedding was stored is not embedded again. */
  lemma GenerateOnce(t: Table, matchId: int, c: Collaborators)
    requires TableValid(t) && matchId !in c.saveFaults
    ensures var first := Generate(t, matchId, c);
            first.1 ==> Generate(first.0, matchId, c) == (first.0, false)
  {
  }

  // ---------- generateBatchEmbeddings ----------

  /** The ids without an embedding, in the order given. */
  function WithoutEmbedding(t: Table, ids: seq<int>): (r: seq<int>)
    ensures |r| <= |ids|
    ensures forall i :: 0 <= i < |r| ==> r[i] in ids && !Exists(t, r[i])
    ensures forall id :: id in ids && !Exists(t, id) ==> id in r
  {
    if ids == [] then []
    else
      var rest := WithoutEmbedding(t, ids[..|ids| - 1]);
      var last := ids[|ids| - 1];
      assert forall id :: id in ids ==> id in ids[..|ids| - 1] || id == last;
      if Exists(t, last) then rest else rest + [last]
  }

  /** Leaving out the ids with an embedding keeps the order of the others:
      the ids of a list made of two parts are those of the first part,
      then those of the second. */
  lemma {:induction false} WithoutEmbeddingAppend(t: Table, a: seq<int>, b: seq<int>)
    ensures WithoutEmbedding(t, a + b) == WithoutEmbedding(t, a) + WithoutEmbedding(t, b)
    decreases |b|
  {
    if b == [] {
      assert a + b == a;
    } else {
      var init := b[..|b| - 1];
      assert (a + b)[..|a + b| - 1] == a + init;
      assert (a + b)[|a + b| - 1] == b[|b| - 1];
      WithoutEmbeddingAppend(t, a, init);
    }
  }

  /** A single id is kept exactly when it has no embedding. */
  lemma WithoutEmbeddingSingle(t: Table, id: int)
    ensures WithoutEmbedding(t, [id]) == if Exists(t, id) then [] else [id]
  {
    assert [id][..0] == [];
  }

  /** No id occurs twice. */
  predicate Distinct(ids: seq<int>) {
    forall i, j :: 0 <= i < j < |ids| ==> ids[i] != ids[j]
  }

  /** An id of a non-empty list is among all but the last, or is the
      last. */
  lemma InitOrLast(ids: seq<int>)
    requires ids != []
    ensures forall x :: x in ids ==> x in ids[..|ids| - 1] || x == ids[|ids| - 1]
  {
    assert ids == ids[..|ids| - 1] + [ids[|ids| - 1]];
  }

  /** Leaving ids out keeps the others distinct. */
  lemma {:induction false} WithoutEmbeddingDistinct(t: Table, ids: seq<int>)
    requires Distinct(ids)
    ensures Distinct(WithoutEmbedding(t, ids))
  {
    if ids != [] {
      var init := ids[..|ids| - 1];
      WithoutEmbeddingDistinct(t, init);
      var rest := WithoutEmbedding(t, init);
      forall i | 0 <= i < |rest| ensures rest[i] != ids[|ids| - 1] {
        assert rest[i] in init;
      }
    }
  }

  /** The query of the batch: the finished matches, most recent first,
      that have no embedding, at most `limit` of them. */
  function PendingMatches(t: Table, finished: seq<int>, limit: nat): (ids: seq<int>)
    ensures |ids| <= limit
    ensures ids <= WithoutEmbedding(t, finished)
    ensures |ids| == limit || ids == WithoutEmbedding(t, finished)
    ensures forall i :: 0 <= i < |ids| ==> ids[i] in finished && !Exists(t, ids[i])
  {
    var candidates := WithoutEmbedding(t, finished);
    if |candidates| <= limit then candidates else candidates[..limit]
  }

  /** The batch loop over the ids, as a function of the table before it:
      the table after it and the number of calls that reported success. */
  function Batch(t: Table, ids: seq<int>, c: Collaborators): (r: (Table, nat))
    requires TableValid(t)
    ensures TableValid(r.0)
    ensures r.1 <= |ids|
    decreases |ids|
  {
    if ids == [] then (t, 0)
    else
      var (t1, count) := Batch(t, ids[..|ids| - 1], c);
      var (t2, ok) := Generate(t1, ids[|ids| - 1], c);
      (t2, if ok then count + 1 else count)
  }

  /** One more id runs one more call on the table the others left. */
  lemma BatchStep(t: Table, ids: seq<int>, i: nat, c: Collaborators)
    requires TableValid(t) && i < |ids|
    ensures var before := Batch(t, ids[..i], c);
            var step := Generate(before.0, ids[i], c);
            Batch(t, ids[..i + 1], c) == (step.0, if step.1 then before.1 + 1 else before.1)
  {
    assert ids[..i + 1][..i] == ids[..i];
  }

  /** The table after a batch is the table its last call leaves. */
  lemma BatchLast(t: Table, ids: seq<int>, c: Collaborators)
    requires TableValid(t) && ids != []
    ensures Batch(t, ids, c).0 == Generate(Batch(t, ids[..|ids| - 1], c).0, ids[|ids| - 1], c).0
  {
  }

  /** A batch adds rows only for its ids and removes none. */
  lemma {:induction false} BatchOnlyAdds(t: Table, ids: seq<int>, c: Collaborators)
    requires TableValid(t)
    ensures forall m :: m in t.rows ==> m in Batch(t, ids, c).0.rows && Batch(t, ids, c).0.rows[m] == t.rows[m]
    ensures forall m :: m in Batch(t, ids, c).0.rows ==> m in t.rows || m in ids
    decreases |ids|
  {
    if ids != [] {
      var init := ids[..|ids| - 1];
      BatchOnlyAdds(t, init, c);
      var t1 := Batch(t, init, c).0;
      forall other | other != ids[|ids| - 1] {
        GenerateTouchesOnlyItsMatch(t1, ids[|ids| - 1], c, other);
      }
      assert forall m :: m in init ==> m in ids;
    }
  }

  /** An id the batch can embed and store: new, with a row, embedded by
      the model and saved without a database error. */
  predicate Storable(t: Table, id: int, c: Collaborators) {
    !Exists(t, id) && id in c.matches && id !in c.saveFaults
    && c.embed(MatchText(c.matches[id])).Embedded?
  }

  /** The last id of a batch of storable, distinct ids is still new when
      its turn comes. */
  lemma LastStillNew(t: Table, ids: seq<int>, c: Collaborators)
    requires TableValid(t) && Distinct(ids) && ids != []
    requires forall x :: x in ids ==> Storable(t, x, c)
    ensures Storable(Batch(t, ids[..|ids| - 1], c).0, ids[|ids| - 1], c)
  {
    var n := |ids| - 1;
    var init := ids[..n];
    var last := ids[n];
    assert last in ids;
    assert Storable(t, last, c);
    BatchOnlyAdds(t, init, c);
    assert last !in init by {
      forall i | 0 <= i < n ensures init[i] != last {
        assert init[i] == ids[i];
      }
    }
    assert !Exists(Batch(t, init, c).0, last);
  }

  /** The ids of a prefix of a batch, all distinct and storable. */
  lemma PrefixStorable(t: Table, ids: seq<int>, c: Collaborators)
    requires Distinct(ids) && ids != []
    requires forall x :: x in ids ==> Storable(t, x, c)
    ensures var init := ids[..|ids| - 1];
            Distinct(init) && forall x :: x in init ==> Storable(t, x, c)
  {
    var init := ids[..|ids| - 1];
    forall x | x in init ensures x in ids {
      var i :| 0 <= i < |init| && init[i] == x;
      assert ids[i] == x;
    }
  }

  /** When every id is new, distinct, has a row, embeds and saves, the
      batch counts every one. */
  lemma {:induction false} BatchCountsAll(t: Table, ids: seq<int>, c: Collaborators)
    requires TableValid(t) && Distinct(ids)
    requires forall x :: x in ids ==> Storable(t, x, c)
    ensures Batch(t, ids, c).1 == |ids|
    decreases |ids|
  {
    if ids != [] {
      var n := |ids| - 1;
      PrefixStorable(t, ids, c);
      BatchCountsAll(t, ids[..n], c);
      LastStillNew(t, ids, c);
      BatchStep(t, ids, n, c);
      assert ids[..n + 1] == ids;
    }
  }

  /** Storing one more id keeps the embeddings already there. */
  lemma StoreKeepsStored(t: Table, id: int, stored: seq<int>, c: Collaborators)
    requires TableValid(t) && Storable(t, id, c)
    requires forall x :: x in stored ==> Exists(t, x)
    ensures forall x :: x in stored ==> Exists(Generate(t, id, c).0, x)
    ensures Exists(Generate(t, id, c).0, id)
  {
    GenerateStores(t, id, c);
    forall x | x in stored ensures Exists(Generate(t, id, c).0, x) {
      GenerateTouchesOnlyItsMatch(t, id, c, x);
    }
  }

  /** The last call of a batch, on an id still storable when its turn
      comes, keeps what the earlier ones stored and stores its own id. */
  lemma StoresAllStep(t: Table, ids: seq<int>, c: Collaborators)
    requires TableValid(t) && ids != []
    requires Storable(Batch(t, ids[..|ids| - 1], c).0, ids[|ids| - 1], c)
    requires var init := ids[..|ids| - 1];
             forall x :: x in init ==> Exists(Batch(t, init, c).0, x)
    ensures forall x :: x in ids ==> Exists(Batch(t, ids, c).0, x)
  {
    var n := |ids| - 1;
    var init := ids[..n];
    StoreKeepsStored(Batch(t, init, c).0, ids[n], init, c);
    BatchLast(t, ids, c);
    InitOrLast(ids);
  }

  /** Under the same conditions each id has its embedding afterwards. */
  lemma {:induction false} BatchStoresAll(t: Table, ids: seq<int>, c: Collaborators)
    requires TableValid(t) && Distinct(ids)
    requires forall x :: x in ids ==> Storable(t, x, c)
    ensures forall x :: x in ids ==> Exists(Batch(t, ids, c).0, x)
    decreases |ids|
  {
    if ids != [] {
      PrefixStorable(t, ids, c);
      BatchStoresAll(t, ids[..|ids| - 1], c);
      LastStillNew(t, ids, c);
      StoresAllStep(t, ids, c);
    }
  }

  /** The batch as the service runs it from the finished matches: a
      negative limit makes the query fail; otherwise the table after the
      loop and its count. */
  function BatchRun(t: Table, limit: int, finished: seq<int>, c: Collaborators): (r: Result<(Table, nat), Failure>)
    requires TableValid(t)
    ensures r.Ok? <==> limit >= 0
    ensures r.Ok? ==> TableValid(r.value.0) && r.value.1 <= limit
  {
    if limit < 0 then Err(Unexpected(Some("ERROR: LIMIT must not be negative")))
    else Ok(Batch(t, PendingMatches(t, finished, limit), c))
  }

  /** With distinct finished ids that all have rows, embed and save, the
      batch embeds the most recent `limit` matches that lacked one (all of
      them when fewer). */
  lemma BatchCountsPending(t: Table, limit: nat, finished: seq<int>, c: Collaborators)
    requires TableValid(t) && Distinct(finished)
    requires forall i :: 0 <= i < |finished| ==>
               finished[i] in c.matches && finished[i] !in c.saveFaults
               && c.embed(MatchText(c.matches[finished[i]])).Embedded?
    ensures var pending := WithoutEmbedding(t, finished);
            BatchRun(t, limit, finished, c).value.1 == (if |pending| <= limit then |pending| else limit)
  {
    var ids := PendingMatches(t, finished, limit);
    PendingStorable(t, limit, finished, c);
    BatchCountsAll(t, ids, c);
  }

  /** The ids the query returns from distinct finished matches that all
      embed and save are distinct and storable. */
  lemma PendingStorable(t: Table, limit: nat, finished: seq<int>, c: Collaborators)
    requires Distinct(finished)
    requires forall i :: 0 <= i < |finished| ==>
               finished[i] in c.matches && finished[i] !in c.saveFaults
               && c.embed(MatchText(c.matches[finished[i]])).Embedded?
    ensures Distinct(PendingMatches(t, finished, limit))
    ensures forall x :: x in PendingMatches(t, finished, limit) ==> Storable(t, x, c)
  {
    var candidates := WithoutEmbedding(t, finished);
    WithoutEmbeddingDistinct(t, finished);
    var ids := PendingMatches(t, finished, limit);
    forall x | x in ids ensures Storable(t, x, c) {
      var i :| 0 <= i < |ids| && ids[i] == x;
      var k :| 0 <= k < |finished| && finished[k] == x;
    }
    forall i, j | 0 <= i < j < |ids| ensures ids[i] != ids[j] {
      assert ids[i] == candidates[i] && ids[j] == candidates[j];
    }
  }

  /** The service bean over its repository. */
  class EmbeddingServiceBean {
    const repository: MatchEmbeddingRepository

    constructor (repository: MatchEmbeddingRepository)
      ensures this.repository == repository
    {
      this.repository := repository;
    }

    /** generateAndStoreEmbedding(matchId). */
    method GenerateAndStoreEmbedding(matchId: int, c: Collaborators) returns (ok: bool)
      requires repository.Valid()
      modifies repository
      ensures repository.Valid()
      ensures (repository.Contents(), ok) == Generate(old(repository.Contents()), matchId, c)
    {
      var present := repository.ExistsByMatchId(matchId);
      if present {
        return false;
      }
      var matchText := BuildMatchText(c.matches, matchId);
      if matchText.None? {
        return false;
      }
      var outcome := c.embed(matchText.value);
      if outcome.EmbedFailed? {
        return false;
      }
      var embeddingList := ToDoubleList(outcome.vector, c.widen);
      assert embeddingList == Widened(outcome.vector, c.widen);
      var _ := repository.SaveEmbedding(matchId, embeddingList, matchId in c.saveFaults);
      ok := true;
    }

    /** generateBatchEmbeddings(limit): the number of matches of the query
        that were given an embedding. */
    method GenerateBatchEmbeddings(limit: int, finished: seq<int>, c: Collaborators) returns (r: Result<nat, Failure>)
      requires repository.Valid()
      modifies repository
      ensures repository.Valid()
      ensures var run := BatchRun(old(repository.Contents()), limit, finished, c);
              if run.Ok? then r == Ok(run.value.1) && repository.Contents() == run.value.0
              else r == Err(run.error) && repository.Contents() == old(repository.Contents())
    {
      if limit < 0 {
        return Err(Unexpected(Some("ERROR: LIMIT must not be negative")));
      }
      var matchIds := PendingMatches(repository.Contents(), finished, limit);
      var count := CountEmbedded(matchIds, c);
      r := Ok(count);
    }

    /** The counting loop of the batch over the ids the query returned. */
    method CountEmbedded(matchIds: seq<int>, c: Collaborators) returns (count: nat)
      requires repository.Valid()
      modifies repository
      ensures repository.Valid()
      ensures (repository.Contents(), count) == Batch(old(repository.Contents()), matchIds, c)
    {
      var t0 := repository.Contents();
      count := 0;
      var i := 0;
      while i < |matchIds|
        invariant 0 <= i <= |matchIds|
        invariant repository.Valid()
        invariant (repository.Contents(), count) == Batch(t0, matchIds[..i], c)
      {
        BatchStep(t0, matchIds, i, c);
        var ok := GenerateAndStoreEmbedding(matchIds[i], c);
        if ok {
          count := count + 1;
        }
        i := i + 1;
      }
      assert matchIds[..i] == matchIds;
    }

    /** generateQueryEmbedding(query): the query's embedding as doubles; an
        exception of the model reaches the caller. */
    method GenerateQueryEmbedding(query: string, c: Collaborators) returns (r: Result<seq<Double>, Failure>)
      ensures c.embed(query).Embedded? ==> r.Ok? && |r.value| == |c.embed(query).vector|
      ensures c.embed(query).Embedded? ==>
                forall i :: 0 <= i < |r.value| ==> r.value[i] == c.widen(c.embed(query).vector[i])
      ensures c.embed(query).EmbedFailed? ==> r == Err(Unexpected(c.embed(query).message))
    {
      match c.embed(query)
      case EmbedFailed(message) =>
        r := Err(Unexpected(message));
      case Embedded(vector) =>
        var list := ToDoubleList(vector, c.widen);
        r := Ok(list);
    }
  }
}
