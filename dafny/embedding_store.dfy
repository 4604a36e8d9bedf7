/** MatchEmbeddingRepository: the match_embedding table, at most one row
    per match, written with the pgvector text form of the embedding. A
    Double is known here only by the text Object.toString gives it; the
    insert may meet a database error (a dimension the column does not take,
    a lost connection), given as `fault`. The cosine-distance search is not
    part of this model. */
module EmbeddingStore {
  import opened Outcomes
  import opened JavaText

  /** A double, as the text Double.toString renders it. */
  datatype Double = Double(text: string)

  /** The pgvector literal of a list: "[]" when it is empty, otherwise the
      elements' texts joined by "," between brackets. */
  function ToVectorString(embedding: seq<Double>): (v: string)
  {
    if embedding == [] then "[]" else "[" + Join(Texts(embedding), ",") + "]"
  }

  /** The elements' texts, in order. */
  function Texts(embedding: seq<Double>): (ts: seq<string>)
    ensures |ts| == |embedding|
    ensures forall i :: 0 <= i < |embedding| ==> ts[i] == embedding[i].text
  {
    seq(|embedding|, i requires 0 <= i < |embedding| => embedding[i].text)
  }

  // ---------- reading a vector literal back ----------

  /** The position of the last ',' in s, or -1 when it has none. */
  function LastComma(s: string): (k: int)
    ensures -1 <= k < |s|
    ensures k >= 0 ==> s[k] == ','
    ensures forall j :: k < j < |s| ==> s[j] != ','
  {
    if s == [] then -1
    else if s[|s| - 1] == ',' then |s| - 1
    else LastComma(s[..|s| - 1])
  }

  /** A comma with none after it is the last one. */
  lemma LastCommaAt(s: string, k: int)
    requires 0 <= k < |s| && s[k] == ','
    requires forall j :: k < j < |s| ==> s[j] != ','
    ensures LastComma(s) == k
  {
  }

  /** The pieces between the commas of s, as String.split(",", -1) gives
      them: one more piece than there are commas. */
  function SplitCommas(s: string): (parts: seq<string>)
    ensures |parts| >= 1
    decreases |s|
  {
    var k := LastComma(s);
    if k == -1 then [s] else SplitCommas(s[..k]) + [s[k + 1..]]
  }

  /** The elements a pgvector literal lists. */
  function ParseVector(v: string): Option<seq<string>> {
    if |v| < 2 || v[0] != '[' || v[|v| - 1] != ']' then None
    else if v == "[]" then Some([])
    else Some(SplitCommas(v[1..|v| - 1]))
  }

  /** A text Double.toString can give: never empty, no comma. */
  predicate IsElementText(t: string) {
    t != [] && ',' !in t
  }

  /** Splitting at the last comma of a joined text separates the last
      piece, when it holds no comma. */
  lemma SplitLastPiece(head: string, last: string)
    requires ',' !in last
    ensures SplitCommas(head + "," + last) == SplitCommas(head) + [last]
  {
    var s := head + "," + last;
    assert s[|head|] == ',';
    forall j | |head| < j < |s|
      ensures s[j] != ','
    {
      assert s[j] == last[j - |head| - 1];
    }
    LastCommaAt(s, |head|);
    assert s[..|head|] == head;
    assert s[|head| + 1..] == last;
  }

  /** Splitting the comma-joined pieces gives the pieces back when none of
      them holds a comma. */
  lemma {:induction false} SplitJoin(parts: seq<string>)
    requires |parts| >= 1
    requires forall i :: 0 <= i < |parts| ==> ',' !in parts[i]
    ensures SplitCommas(Join(parts, ",")) == parts
  {
    if |parts| > 1 {
      var init := parts[..|parts| - 1];
      var last := parts[|parts| - 1];
      assert parts == init + [last];
      assert forall i :: 0 <= i < |init| ==> init[i] == parts[i];
      SplitJoin(init);
      var head := Join(init, ",");
      assert Join(parts, ",") == head + "," + last;
      SplitLastPiece(head, last);
    }
  }

  /** The vector literal of an embedding reads back as the elements'
      texts, in order: nothing is lost, added or reordered. */
  lemma VectorStringRoundTrip(embedding: seq<Double>)
    requires forall i :: 0 <= i < |embedding| ==> IsElementText(embedding[i].text)
    ensures ParseVector(ToVectorString(embedding)) == Some(Texts(embedding))
  {
    if embedding != [] {
      var ts := Texts(embedding);
      var v := ToVectorString(embedding);
      assert v[1..|v| - 1] == Join(ts, ",");
      SplitJoin(ts);
      assert Join(ts, ",") != [] by { JoinNonEmpty(ts); }
    }
  }

  /** Joining pieces the first of which is not empty gives text. */
  lemma {:induction false} JoinNonEmpty(parts: seq<string>)
    requires |parts| >= 1 && parts[0] != []
    ensures |Join(parts, ",")| >= |parts[0]|
  {
    if |parts| > 1 {
      JoinNonEmpty(parts[..|parts| - 1]);
    }
  }

  /** The literal is bracketed, and it is "[]" exactly for an empty list of
      non-empty element texts. */
  lemma VectorStringShape(embedding: seq<Double>)
    requires forall i :: 0 <= i < |embedding| ==> IsElementText(embedding[i].text)
    ensures var v := ToVectorString(embedding);
            |v| >= 2 && v[0] == '[' && v[|v| - 1] == ']'
            && (v == "[]" <==> embedding == [])
  {
    if embedding != [] {
      JoinNonEmpty(Texts(embedding));
    }
  }

  // ---------- the table ----------

  /** A stored embedding: its identifier and the vector literal written. */
  datatype EmbeddingRow = EmbeddingRow(id: int, embedding: string)

  /** The table, keyed by its unique match_id column, and the next
      identifier the id sequence hands out. */
  datatype Table = Table(rows: map<int, EmbeddingRow>, nextId: int)

  /** Identifiers in use are positive, below the next one and distinct. */
  predicate TableValid(t: Table) {
    t.nextId >= 1
    && (forall m :: m in t.rows ==> 1 <= t.rows[m].id < t.nextId)
    && (forall m1, m2 :: m1 in t.rows && m2 in t.rows && m1 != m2 ==> t.rows[m1].id != t.rows[m2].id)
  }

  /** existsByMatchId. */
  predicate Exists(t: Table, matchId: int) {
    matchId in t.rows
  }

  /** save(matchId, embedding): INSERT ... ON CONFLICT (match_id) DO NOTHING
      RETURNING id, with any database error caught and answered empty. A
      conflicting insert spends one value of the id sequence; a failed one
      is taken to change nothing. */
  function Save(t: Table, matchId: int, embedding: seq<Double>, fault: bool): (r: (Table, Option<int>))
    requires TableValid(t)
    ensures TableValid(r.0)
    ensures r.1.Some? <==> !fault && matchId !in t.rows
    ensures r.1.None? ==> r.0.rows == t.rows
    ensures fault ==> r.0 == t
    ensures !fault && matchId in t.rows ==> r.0.nextId == t.nextId + 1
    ensures r.1.Some? ==>
              (forall m :: m in t.rows ==> t.rows[m].id != r.1.value)
              && r.0.rows == t.rows[matchId := EmbeddingRow(r.1.value, ToVectorString(embedding))]
  {
    if fault then (t, None)
    else if matchId in t.rows then (Table(t.rows, t.nextId + 1), None)
    else
      var t' := Table(t.rows[matchId := EmbeddingRow(t.nextId, ToVectorString(embedding))], t.nextId + 1);
      assert TableValid(t');
      (t', Some(t.nextId))
  }

  /** deleteByMatchId: the row of that match goes; the count of rows
      removed is returned. */
  function Delete(t: Table, matchId: int): (r: (Table, nat))
    requires TableValid(t)
    ensures TableValid(r.0)
    ensures r.1 == (if matchId in t.rows then 1 else 0)
    ensures !Exists(r.0, matchId)
    ensures forall m :: m != matchId ==> (m in r.0.rows <==> m in t.rows)
    ensures forall m :: m != matchId && m in t.rows ==> r.0.rows[m] == t.rows[m]
  {
    (Table(t.rows - {matchId}, t.nextId), if matchId in t.rows then 1 else 0)
  }

  /** After a save the match has an embedding, whether or not this save
      wrote it, unless the database failed. */
  lemma SavedExists(t: Table, matchId: int, embedding: seq<Double>)
    requires TableValid(t)
    ensures Exists(Save(t, matchId, embedding, false).0, matchId)
  {
  }

  /** A second save for the same match returns nothing and keeps the first
      embedding. */
  lemma SaveKeepsFirst(t: Table, matchId: int, e1: seq<Double>, e2: seq<Double>, fault: bool)
    requires TableValid(t) && matchId !in t.rows
    ensures var first := Save(t, matchId, e1, false);
            var second := Save(first.0, matchId, e2, fault);
            second.1.None? && second.0.rows == first.0.rows
            && second.0.rows[matchId].embedding == ToVectorString(e1)
  {
  }

  /** A save touches no other match's row. */
  lemma SaveLeavesOthers(t: Table, matchId: int, embedding: seq<Double>, fault: bool, other: int)
    requires TableValid(t) && other != matchId
    ensures var t' := Save(t, matchId, embedding, fault).0;
            (Exists(t', other) <==> Exists(t, other))
            && (other in t.rows ==> t'.rows[other] == t.rows[other])
  {
  }

  /** Deleting and saving again stores the new embedding under a new
      identifier. */
  lemma DeleteThenSave(t: Table, matchId: int, embedding: seq<Double>)
    requires TableValid(t)
    ensures var (t1, _) := Delete(t, matchId);
            var (t2, id) := Save(t1, matchId, embedding, false);
            id.Some? && t2.rows[matchId].embedding == ToVectorString(embedding)
            && (matchId in t.rows ==> id.value != t.rows[matchId].id)
  {
  }

  /** The repository bean over its table. */
  class MatchEmbeddingRepository {
    var rows: map<int, EmbeddingRow>
    var nextId: int

    /** The table as a value. */
    function Contents(): Table
      reads this
    {
      Table(rows, nextId)
    }

    ghost predicate Valid()
      reads this
    {
      TableValid(Contents())
    }

    /** A repository over an empty table. */
    constructor ()
      ensures Contents() == Table(map[], 1)
      ensures Valid()
    {
      rows := map[];
      nextId := 1;
    }

    /** existsByMatchId(matchId). */
    method ExistsByMatchId(matchId: int) returns (b: bool)
      ensures b <==> Exists(Contents(), matchId)
    {
      b := matchId in rows;
    }

    /** save(matchId, embedding). */
    method SaveEmbedding(matchId: int, embedding: seq<Double>, fault: bool) returns (id: Option<int>)
      requires Valid()
      modifies this
      ensures Valid()
      ensures (Contents(), id) == Save(old(Contents()), matchId, embedding, fault)
    {
      var vectorString := ToVectorString(embedding);
      if fault {
        id := None;
      } else if matchId in rows {
        id := None;
        nextId := nextId + 1;
      } else {
        rows := rows[matchId := EmbeddingRow(nextId, vectorString)];
        id := Some(nextId);
        nextId := nextId + 1;
      }
    }

    /** deleteByMatchId(matchId). */
    method DeleteByMatchId(matchId: int) returns (count: nat)
      requires Valid()
      modifies this
      ensures Valid()
      ensures (Contents(), count) == Delete(old(Contents()), matchId)
    {
      count := if matchId in rows then 1 else 0;
      rows := rows - {matchId};
    }
  }
}
