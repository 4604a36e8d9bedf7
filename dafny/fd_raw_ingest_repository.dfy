/** FdRawIngestRepository: the fd_raw_ingest table, one row per
    (source, endpoint, external key), with the freshness query and the
    conflict-safe insert. Instants are whole numbers of seconds; `fetched_at`
    is stamped by the database clock, given to the insert as `dbNow`. */
module RawIngestStore {
  import opened Outcomes

  /** The unique key of the table: (source, endpoint, external_key). */
  type RowKey = (string, string, string)

  /** The stored columns besides the key. A null payload is None. */
  datatype Row = Row(id: int, lastModified: int, fetchedAt: int, payload: Option<string>)

  /** The table's contents and the next identifier the id sequence hands
      out. */
  datatype Store = Store(rows: map<RowKey, Row>, nextId: int)

  /** The next identifier is positive; identifiers in use are positive and
      below the next one handed out, and no two rows share one. */
  predicate StoreValid(s: Store) {
    s.nextId >= 1
    && (forall k :: k in s.rows ==> 1 <= s.rows[k].id < s.nextId)
    && (forall k1, k2 :: k1 in s.rows && k2 in s.rows && k1 != k2 ==> s.rows[k1].id != s.rows[k2].id)
  }

  /** The empty table. */
  function EmptyStore(): (s: Store)
    ensures StoreValid(s)
  {
    Store(map[], 1)
  }

  /** wasFetchedSince: a row for the key exists and was fetched at or after
      `since`. */
  predicate FetchedSince(s: Store, key: RowKey, since: int) {
    key in s.rows && s.rows[key].fetchedAt >= since
  }

  /** The payload column for a serialised body: SQL null for the empty
      string, the JSON text otherwise. */
  function PayloadOf(jsonBody: string): (p: Option<string>)
    ensures p.None? <==> jsonBody == []
    ensures p.Some? ==> p.value == jsonBody
  {
    if jsonBody == [] then None else Some(jsonBody)
  }

  /** INSERT ... ON CONFLICT DO NOTHING RETURNING id: a new row with a fresh
      identifier when the key is free, otherwise no row changes and no id
      is returned. The id default draws from the sequence before the
      conflict is found, so a conflicting insert still spends one value. */
  function InsertIfAbsent(s: Store, key: RowKey, lastModified: int, jsonBody: string, dbNow: int): (r: (Store, Option<int>))
    requires StoreValid(s)
    ensures StoreValid(r.0)
    ensures key in s.rows <==> r.1.None?
    ensures key in s.rows ==> r.0.rows == s.rows && r.0.nextId == s.nextId + 1
    ensures key !in s.rows ==>
              r.1 == Some(s.nextId)
              && r.0.rows == s.rows[key := Row(s.nextId, lastModified, dbNow, PayloadOf(jsonBody))]
              && r.0.nextId == s.nextId + 1
  {
    if key in s.rows then (Store(s.rows, s.nextId + 1), None)
    else
      var s' := Store(s.rows[key := Row(s.nextId, lastModified, dbNow, PayloadOf(jsonBody))], s.nextId + 1);
      assert StoreValid(s');
      (s', Some(s.nextId))
  }

  /** A row just inserted counts as fetched for every cutoff at or before
      the database time of the insert, and for no later one. */
  lemma InsertedIsFetchedSince(s: Store, key: RowKey, lastModified: int, jsonBody: string, dbNow: int, since: int)
    requires StoreValid(s) && key !in s.rows
    ensures FetchedSince(InsertIfAbsent(s, key, lastModified, jsonBody, dbNow).0, key, since) <==> since <= dbNow
  {
  }

  /** Inserting the same key twice: the second insert returns nothing and
      leaves the rows as the first left them, whatever its body. */
  lemma InsertIdempotent(s: Store, key: RowKey, lm1: int, body1: string, now1: int, lm2: int, body2: string, now2: int)
    requires StoreValid(s)
    ensures var first := InsertIfAbsent(s, key, lm1, body1, now1);
            var second := InsertIfAbsent(first.0, key, lm2, body2, now2);
            second.1.None? && second.0.rows == first.0.rows
  {
  }

  /** An insert touches no other key: rows under other keys, and whether
      they count as fetched, stay as they were. */
  lemma InsertLeavesOtherKeys(s: Store, key: RowKey, lastModified: int, jsonBody: string, dbNow: int, other: RowKey, since: int)
    requires StoreValid(s) && other != key
    ensures var s' := InsertIfAbsent(s, key, lastModified, jsonBody, dbNow).0;
            (other in s'.rows <==> other in s.rows)
            && (other in s.rows ==> s'.rows[other] == s.rows[other])
            && (FetchedSince(s', other, since) <==> FetchedSince(s, other, since))
  {
  }

  /** The repository bean over its table. */
  class FdRawIngestRepository {
    var rows: map<RowKey, Row>
    var nextId: int

    /** The table as a value. */
    function Contents(): Store
      reads this
    {
      Store(rows, nextId)
    }

    ghost predicate Valid()
      reads this
    {
      StoreValid(Contents())
    }

    /** A repository over an empty table. */
    constructor ()
      ensures Contents() == EmptyStore()
      ensures Valid()
    {
      rows := map[];
      nextId := 1;
    }

    /** wasFetchedSince(source, endpoint, externalKey, since). */
    method WasFetchedSince(source: string, endpoint: string, externalKey: string, since: int) returns (b: bool)
      ensures b <==> FetchedSince(Contents(), (source, endpoint, externalKey), since)
    {
      var key := (source, endpoint, externalKey);
      b := key in rows && rows[key].fetchedAt >= since;
    }

    /** insertRaw(source, endpoint, externalKey, lastModified, jsonBody). */
    method InsertRaw(source: string, endpoint: string, externalKey: string, lastModified: int, jsonBody: string, dbNow: int)
      returns (id: Option<int>)
      requires Valid()
      modifies this
      ensures Valid()
      ensures (Contents(), id) == InsertIfAbsent(old(Contents()), (source, endpoint, externalKey), lastModified, jsonBody, dbNow)
    {
      var key := (source, endpoint, externalKey);
      if key in rows {
        id := None;
      } else {
        rows := rows[key := Row(nextId, lastModified, dbNow, PayloadOf(jsonBody))];
        id := Some(nextId);
      }
      nextId := nextId + 1;
    }
  }
}
