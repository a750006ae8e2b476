/** The audit store of audit.rs: a table of hash-chained rows with two UNIQUE columns. */
module AuditLog {
  import opened Prelude
  import opened HashChain
  import opened Records
  import Timestamp

  datatype AuditError = InvalidJson | UniqueEventId(eventId: string) | DuplicateIdempotencyKey(key: string)

  /** The events table in row-id order, and the AUTOINCREMENT counter. */
  datatype Log = Log(rows: seq<Row>, lastRowid: nat)

  const EMPTY_LOG := Log([], 0)

  predicate HasKey(rows: seq<Row>, key: string) {
    exists i :: 0 <= i < |rows| && rows[i].key == key
  }

  predicate HasEvent(rows: seq<Row>, eventId: string) {
    exists i :: 0 <= i < |rows| && rows[i].eventId == eventId
  }

  /** The row an append writes. */
  function NewRow(hash: Hash, codec: Codec, log: Log, r: AuditRecord): Row {
    var json := codec.encode(r);
    var prev := Head(log.rows);
    Row(log.lastRowid + 1, r.eventId, r.idempotencyKey, Timestamp.Render(r.createdAt),
        json, prev, hash(Frame(json, prev)))
  }

  function AppendTo(hash: Hash, codec: Codec, log: Log, r: AuditRecord): (Log, Result<Bytes, AuditError>) {
    if HasKey(log.rows, r.idempotencyKey) then (log, Err(DuplicateIdempotencyKey(r.idempotencyKey)))
    else if HasEvent(log.rows, r.eventId) then (log, Err(UniqueEventId(r.eventId)))
    else
      var row := NewRow(hash, codec, log, r);
      (Log(log.rows + [row], log.lastRowid + 1), Ok(row.contentHash))
  }

  /** An append that meets no constraint adds one row linked to the head. */
  lemma AppendFresh(hash: Hash, codec: Codec, log: Log, r: AuditRecord)
    requires !HasKey(log.rows, r.idempotencyKey) && !HasEvent(log.rows, r.eventId)
    ensures var row := NewRow(hash, codec, log, r);
            AppendTo(hash, codec, log, r)
            == (Log(log.rows + [row], log.lastRowid + 1), Ok(row.contentHash))
  {
    hide NewRow, HasKey, HasEvent;
  }

  function ParseRow(codec: Codec, row: Row): Result<AuditRecord, AuditError> {
    match codec.decode(row.recordJson)
    case Some(r) => Ok(r)
    case None => Err(InvalidJson)
  }

  /** The record stored under `key`, if any. */
  function FindKey(codec: Codec, rows: seq<Row>, key: string): Result<Option<AuditRecord>, AuditError> {
    if rows == [] then Ok(None)
    else if rows[0].key == key then
      match ParseRow(codec, rows[0])
      case Ok(r) => Ok(Some(r))
      case Err(e) => Err(e)
    else FindKey(codec, rows[1..], key)
  }

  function Clamp(limit: int): nat { if limit < 1 then 1 else if limit > 200 then 200 else limit }

  /** The newest `n` rows, newest first; the first that does not decode fails the whole query. */
  function Recent(codec: Codec, rows: seq<Row>, n: nat): Result<seq<AuditRecord>, AuditError> {
    if rows == [] || n == 0 then Ok([])
    else match ParseRow(codec, rows[|rows| - 1])
      case Err(e) => Err(e)
      case Ok(r) =>
        match Recent(codec, rows[..|rows| - 1], n - 1)
        case Err(e) => Err(e)
        case Ok(older) => Ok([r] + older)
  }

  class AuditStore {
    const hash: Hash
    const codec: Codec
    var rows: seq<Row>
    var lastRowid: nat

    constructor (hash: Hash, codec: Codec)
      ensures this.hash == hash && this.codec == codec && Contents() == EMPTY_LOG
    {
      this.hash := hash;
      this.codec := codec;
      rows := [];
      lastRowid := 0;
    }

    function Contents(): Log
      reads this
    {
      Log(rows, lastRowid)
    }

    /** On success exactly one row is added, linked to the old head; on a constraint violation
        nothing changes. */
    method Append(record: AuditRecord) returns (r: Result<Bytes, AuditError>)
      modifies this
      ensures (Contents(), r) == AppendTo(hash, codec, old(Contents()), record)
      ensures r.Ok? <==> !HasKey(old(rows), record.idempotencyKey) && !HasEvent(old(rows), record.eventId)
      ensures r.Ok? ==> Head(rows) == r.value
      ensures r.Err? ==> Contents() == old(Contents())
      ensures r.Err? ==> r.error == if HasKey(old(rows), record.idempotencyKey)
                                    then DuplicateIdempotencyKey(record.idempotencyKey)
                                    else UniqueEventId(record.eventId)
    {
      hide HasKey, HasEvent, Head, Frame, Timestamp.Render;
      var recordJson := codec.encode(record);
      var prevHash := Head(rows);
      var contentHash := hash(Frame(recordJson, prevHash));
      if HasKey(rows, record.idempotencyKey) {
        return Err(DuplicateIdempotencyKey(record.idempotencyKey));
      }
      if HasEvent(rows, record.eventId) {
        return Err(UniqueEventId(record.eventId));
      }
      var row := Row(lastRowid + 1, record.eventId, record.idempotencyKey,
                     Timestamp.Render(record.createdAt), recordJson, prevHash, contentHash);
      assert row == NewRow(hash, codec, Contents(), record);
      HeadOfAppend(rows, row);
      lastRowid := lastRowid + 1;
      rows := rows + [row];
      r := Ok(contentHash);
    }

    method VerifyIntegrity() returns (r: IntegrityReport)
      ensures r == Verify(hash, rows)
      ensures Reports(hash, rows, r)
      ensures r.failure.None? <==> Linked(hash, rows)
    {
      hide Genesis, Frame, Linked, Reports;
      var expectedPrev := Genesis();
      var checked := 0;
      VerifyExact(hash, rows);
      while checked < |rows|
        invariant 0 <= checked <= |rows|
        invariant Verify(hash, rows) == VerifyFrom(hash, rows, checked, expectedPrev)
      {
        var row := rows[checked];
        if row.prevHash != expectedPrev {
          return IntegrityReport(checked, Some(ChainBroken(row.rowid, row.eventId)));
        }
        var recomputed := hash(Frame(row.recordJson, row.prevHash));
        if recomputed != row.contentHash {
          return IntegrityReport(checked, Some(PayloadTampered(row.rowid, row.eventId)));
        }
        expectedPrev := row.contentHash;
        checked := checked + 1;
      }
      r := IntegrityReport(checked, None);
    }

    function FindByIdempotencyKey(key: string): Result<Option<AuditRecord>, AuditError>
      reads this
    {
      FindKey(codec, rows, key)
    }

    function ListRecent(limit: int): (r: Result<seq<AuditRecord>, AuditError>)
      reads this
      ensures Lists(codec, rows, Listed(limit, |rows|), r)
    {
      ListRecentExact(codec, rows, limit);
      Recent(codec, rows, Clamp(limit))
    }
  }

  // ----- Logs that only `Append` has written -----

  ghost predicate DistinctKeys(rows: seq<Row>) {
    forall i, j :: 0 <= i < j < |rows| ==> rows[i].key != rows[j].key
  }

  /** Looking up a key finds its row when the key is there, and nothing when it is not. */
  lemma {:induction false} FindKeyExact(codec: Codec, rows: seq<Row>, i: nat)
    requires DistinctKeys(rows) && i < |rows|
    ensures FindKey(codec, rows, rows[i].key) ==
              match codec.decode(rows[i].recordJson)
              case Some(r) => Ok(Some(r))
              case None => Err(InvalidJson)
  {
    if i > 0 {
      assert rows[1..][i - 1] == rows[i];
      assert rows[0].key != rows[i].key;
      FindKeyExact(codec, rows[1..], i - 1);
    }
  }

  lemma {:induction false} FindKeyAbsent(codec: Codec, rows: seq<Row>, key: string)
    ensures FindKey(codec, rows, key) == Ok(None) <==> !HasKey(rows, key)
  {
    if rows != [] {
      FindKeyAbsent(codec, rows[1..], key);
      assert HasKey(rows, key) <==> rows[0].key == key || HasKey(rows[1..], key) by {
        assert rows == [rows[0]] + rows[1..];
        if i :| 0 <= i < |rows| && rows[i].key == key {
          assert i == 0 || rows[1..][i - 1].key == key;
        }
        if i :| 0 <= i < |rows[1..]| && rows[1..][i].key == key {
          assert rows[i + 1].key == key;
        }
      }
    }
  }

  /** How many of `n` rows a listing returns. */
  function Listed(limit: int, n: nat): (count: nat)
    ensures count <= n && count <= 200 && (n > 0 ==> count >= 1)
  {
    if Clamp(limit) < n then Clamp(limit) else n
  }

  /** What listing the newest `count` rows must give: those records, newest first, or an error
      if one of those rows, and no other, cannot be read. */
  ghost predicate Lists(codec: Codec, rows: seq<Row>, count: nat, r: Result<seq<AuditRecord>, AuditError>)
    requires count <= |rows|
  {
    && (r.Ok? <==> forall k :: |rows| - count <= k < |rows| ==> codec.decode(rows[k].recordJson).Some?)
    && (r.Err? ==> r.error == InvalidJson)
    && (r.Ok? ==>
          && |r.value| == count
          && forall k :: 0 <= k < count ==> codec.decode(rows[|rows| - 1 - k].recordJson) == Some(r.value[k]))
  }

  lemma {:induction false} RecentLists(codec: Codec, rows: seq<Row>, n: nat)
    ensures Lists(codec, rows, if n < |rows| then n else |rows|, Recent(codec, rows, n))
  {
    hide Lists;
    if rows != [] && n > 0 {
      var init := rows[..|rows| - 1];
      RecentLists(codec, init, n - 1);
      ListsExtends(codec, rows, if n - 1 < |init| then n - 1 else |init|, Recent(codec, init, n - 1));
    } else {
      NothingListed(codec, rows);
    }
  }

  lemma NothingListed(codec: Codec, rows: seq<Row>)
    ensures Lists(codec, rows, 0, Ok([]))
  {
  }

  /** Putting the last row's record before a listing of the rows below it lists one row more. */
  lemma ListsExtends(codec: Codec, rows: seq<Row>, count: nat, older: Result<seq<AuditRecord>, AuditError>)
    requires count < |rows| && Lists(codec, rows[..|rows| - 1], count, older)
    ensures var newest := ParseRow(codec, rows[|rows| - 1]);
            Lists(codec, rows, count + 1,
                  if newest.Err? then Err(newest.error)
                  else if older.Err? then Err(older.error)
                  else Ok([newest.value] + older.value))
  {
    var init := rows[..|rows| - 1];
    assert forall k :: 0 <= k < |init| ==> rows[k] == init[k];
  }

  /** Listing gives the newest records, newest first: as many as asked for, but at least one and
      at most 200, and no more than there are. */
  lemma ListRecentExact(codec: Codec, rows: seq<Row>, limit: int)
    ensures var wanted := if limit < 1 then 1 else if limit > 200 then 200 else limit;
            && Listed(limit, |rows|) == (if wanted < |rows| then wanted else |rows|)
            && Lists(codec, rows, Listed(limit, |rows|), Recent(codec, rows, Clamp(limit)))
  {
    RecentLists(codec, rows, Clamp(limit));
  }
}
