/**
 * The file_records and failed_files tables, as the SQL statements of the store change them, and the maps they stand
 * for.
 */
module StoreTables {
  import opened Text
  import opened Sums

  // ---------------------------------------------------------------- rows

  /** A row of file_records; id 0 on a record passed in means "let the table choose". */
  datatype FileRow = FileRow(id: int, provider: string, path: string, size: int, sha256: string)

  datatype FileRecord = FileRecord(size: int, sha256: string)

  /** What file_records stands for: one record per provider and path. */
  type Records = map<(string, string), FileRecord>

  /** A row of failed_files. */
  datatype FailedRow = FailedRow(id: int, provider: string, path: string, url: string, destPath: string,
                                 checksum: string, size: int, error: string, retryCount: int, resolved: bool)

  function FileKey(r: FileRow): (string, string) { (r.provider, r.path) }

  function RecordOf(r: FileRow): FileRecord { FileRecord(r.size, r.sha256) }

  function FailedKey(r: FailedRow): (string, string) { (r.provider, r.path) }

  /** The rows a WHERE clause keeps. */
  function Where<T(!new)>(rows: seq<T>, keep: T -> bool): (kept: seq<T>)
    ensures forall r :: r in kept <==> r in rows && keep(r)
  {
    if rows == [] then []
    else
      var kept := Where(rows[..|rows| - 1], keep);
      assert rows == rows[..|rows| - 1] + [rows[|rows| - 1]];
      if keep(rows[|rows| - 1]) then kept + [rows[|rows| - 1]] else kept
  }

  /** No two rows agree on a column (or on a pair of columns). */
  ghost predicate Unique<T, K>(rows: seq<T>, column: T -> K) {
    rows != [] ==>
      && Unique(rows[..|rows| - 1], column)
      && forall r | r in rows[..|rows| - 1] :: column(r) != column(rows[|rows| - 1])
  }

  lemma {:induction false} WhereUnique<T(!new), K>(rows: seq<T>, keep: T -> bool, column: T -> K)
    requires Unique(rows, column)
    ensures Unique(Where(rows, keep), column)
  {
    if rows != [] {
      var n := |rows| - 1;
      WhereUnique(rows[..n], keep, column);
      if keep(rows[n]) {
        UniquePush(Where(rows[..n], keep), rows[n], column);
      }
    }
  }

  lemma {:induction false} UniquePush<T, K>(rows: seq<T>, r: T, column: T -> K)
    requires Unique(rows, column) && forall q | q in rows :: column(q) != column(r)
    ensures Unique(rows + [r], column)
  {
    assert (rows + [r])[..|rows|] == rows;
  }

  /** The map a table of file records stands for. */
  ghost function RecordsOf(rows: seq<FileRow>): Records {
    if rows == [] then map[]
    else RecordsOf(rows[..|rows| - 1])[FileKey(rows[|rows| - 1]) := RecordOf(rows[|rows| - 1])]
  }

  ghost predicate Keyed(rows: seq<FileRow>, k: (string, string)) { exists r :: r in rows && FileKey(r) == k }

  ghost predicate Agrees(rows: seq<FileRow>, records: Records) {
    && (forall r | r in rows :: FileKey(r) in records && records[FileKey(r)] == RecordOf(r))
    && (forall k | k in records :: Keyed(rows, k))
  }

  lemma AgreesPush(rows: seq<FileRow>, records: Records, r: FileRow)
    requires Agrees(rows, records) && Without(rows, FileKey(r))
    ensures Agrees(rows + [r], records[FileKey(r) := RecordOf(r)])
  {
    assert r in rows + [r];
    forall k | k in records ensures Keyed(rows + [r], k) {
      var q :| q in rows && FileKey(q) == k;
      assert q in rows + [r];
    }
  }

  /** Under the unique (provider, path) constraint the map has exactly the rows. */
  lemma {:induction false} RecordsAreRows(rows: seq<FileRow>)
    requires Unique(rows, FileKey)
    ensures Agrees(rows, RecordsOf(rows)) && |RecordsOf(rows)| == |rows|
  {
    if rows != [] {
      var n := |rows| - 1;
      assert rows == rows[..n] + [rows[n]];
      RecordsAreRows(rows[..n]);
      LastIsNew(rows);
      hide *;
      RecordsPush(rows[..n], rows[n]);
    }
  }

  ghost predicate Without(rows: seq<FileRow>, k: (string, string)) { forall q | q in rows :: FileKey(q) != k }

  lemma {:induction false} LastIsNew(rows: seq<FileRow>)
    requires rows != [] && Unique(rows, FileKey)
    ensures Without(rows[..|rows| - 1], FileKey(rows[|rows| - 1]))
  {}

  lemma {:induction false} RecordsPush(rows: seq<FileRow>, r: FileRow)
    requires Agrees(rows, RecordsOf(rows)) && |RecordsOf(rows)| == |rows| && Without(rows, FileKey(r))
    ensures Agrees(rows + [r], RecordsOf(rows + [r])) && |RecordsOf(rows + [r])| == |rows + [r]|
  {
    var before := RecordsOf(rows);
    assert (rows + [r])[..|rows|] == rows;
    assert RecordsOf(rows + [r]) == before[FileKey(r) := RecordOf(r)];
    hide *;
    AgreesPush(rows, before, r);
    NotKeyed(rows, r);
    OneMoreKey(before, FileKey(r), RecordOf(r));
  }

  lemma OneMoreKey(m: Records, k: (string, string), v: FileRecord)
    requires k !in m
    ensures |m[k := v]| == |m| + 1
  {
    assert m[k := v].Keys == m.Keys + {k};
    assert |m[k := v].Keys| == |m[k := v]| && |m.Keys| == |m|;
  }

  lemma {:induction false} NotKeyed(rows: seq<FileRow>, r: FileRow)
    requires Agrees(rows, RecordsOf(rows)) && Without(rows, FileKey(r))
    ensures FileKey(r) !in RecordsOf(rows)
  {
    hide FileKey, RecordsOf;
    assert FileKey(r) in RecordsOf(rows) ==> Keyed(rows, FileKey(r));
  }

  // ---------------------------------------------------------------- INSERT OR REPLACE, DELETE

  /** INSERT OR REPLACE: every row that clashes on the id or on (provider, path) goes, then the row is added. */
  function Replaced(rows: seq<FileRow>, row: FileRow): seq<FileRow> {
    Where(rows, (r: FileRow) => r.id != row.id && FileKey(r) != FileKey(row)) + [row]
  }

  /** The key whose row an explicit id throws out, besides the upserted key itself. */
  ghost predicate Evicts(rows: seq<FileRow>, id: int, key: (string, string), other: (string, string)) {
    other != key && exists r :: r in rows && r.id == id && FileKey(r) == other
  }

  lemma {:induction false} ReplacedRows(rows: seq<FileRow>, row: FileRow)
    requires Unique(rows, FileKey) && Unique(rows, (r: FileRow) => r.id)
    ensures Unique(Replaced(rows, row), FileKey) && Unique(Replaced(rows, row), (r: FileRow) => r.id)
  {
    var keep := (r: FileRow) => r.id != row.id && FileKey(r) != FileKey(row);
    WhereUnique(rows, keep, FileKey);
    WhereUnique(rows, keep, (r: FileRow) => r.id);
    UniquePush(Where(rows, keep), row, FileKey);
    UniquePush(Where(rows, keep), row, (r: FileRow) => r.id);
  }

  lemma {:induction false} ReplacedRecord(rows: seq<FileRow>, row: FileRow, k: (string, string))
    requires Unique(rows, FileKey) && Unique(rows, (r: FileRow) => r.id)
    ensures k == FileKey(row) ==> k in RecordsOf(Replaced(rows, row)) && RecordsOf(Replaced(rows, row))[k] == RecordOf(row)
    ensures k != FileKey(row) ==>
              (k in RecordsOf(Replaced(rows, row)) <==> k in RecordsOf(rows) && !Evicts(rows, row.id, FileKey(row), k))
    ensures k != FileKey(row) && k in RecordsOf(Replaced(rows, row)) ==>
              k in RecordsOf(rows) && RecordsOf(Replaced(rows, row))[k] == RecordsOf(rows)[k]
  {
    ReplacedRows(rows, row);
    var after := Replaced(rows, row);
    RecordsAreRows(rows);
    RecordsAreRows(after);
    assert row in after;
    hide Unique, RecordsOf, Where;
    if k != FileKey(row) {
      if k in RecordsOf(after) {
        var r :| r in after && FileKey(r) == k;
        assert r in rows;
        forall q | q in rows && FileKey(q) == k ensures q == r { SameKeySameRow(rows, q, r); }
      } else if k in RecordsOf(rows) {
        var r :| r in rows && FileKey(r) == k;
        assert r !in after;
      }
    }
  }

  lemma {:induction false} SameKeySameRow(rows: seq<FileRow>, q: FileRow, r: FileRow)
    requires Unique(rows, FileKey) && q in rows && r in rows && FileKey(q) == FileKey(r)
    ensures q == r
  {
    var n := |rows| - 1;
    assert rows == rows[..n] + [rows[n]];
    if q in rows[..n] && r in rows[..n] {
      SameKeySameRow(rows[..n], q, r);
    }
  }

  /** An upsert is a map update exactly when its id is not the id of a row with another key. */
  lemma {:induction false} UpsertIsMapUpdate(rows: seq<FileRow>, row: FileRow)
    requires Unique(rows, FileKey) && Unique(rows, (r: FileRow) => r.id)
    ensures RecordsOf(Replaced(rows, row)) == RecordsOf(rows)[FileKey(row) := RecordOf(row)]
       <==> forall r | r in rows :: r.id == row.id ==> FileKey(r) == FileKey(row)
  {
    hide RecordsOf, Unique, Replaced;
    var after, updated := RecordsOf(Replaced(rows, row)), RecordsOf(rows)[FileKey(row) := RecordOf(row)];
    if forall r | r in rows :: r.id == row.id ==> FileKey(r) == FileKey(row) {
      forall k ensures SameAt(after, updated, k) { ReplacedRecord(rows, row, k); }
      SameRecords(after, updated);
    } else {
      var r :| r in rows && r.id == row.id && FileKey(r) != FileKey(row);
      RecordsAreRows(rows);
      ReplacedRecord(rows, row, FileKey(r));
      assert FileKey(r) in updated && FileKey(r) !in after;
    }
  }

  ghost predicate SameAt(a: Records, b: Records, k: (string, string)) {
    (k in a <==> k in b) && (k in a && k in b ==> a[k] == b[k])
  }

  lemma SameRecords(a: Records, b: Records)
    requires forall k :: SameAt(a, b, k)
    ensures a == b
  {
    forall k ensures k in a <==> k in b { assert SameAt(a, b, k); }
    forall k | k in a ensures a[k] == b[k] { assert SameAt(a, b, k); }
  }

  function Deleted(rows: seq<FileRow>, key: (string, string)): seq<FileRow> {
    Where(rows, (r: FileRow) => FileKey(r) != key)
  }

  lemma {:induction false} WhereRecords(rows: seq<FileRow>, keep: FileRow -> bool, k: (string, string))
    requires Unique(rows, FileKey)
    ensures k in RecordsOf(Where(rows, keep)) <==> exists r :: r in rows && FileKey(r) == k && keep(r)
    ensures k in RecordsOf(Where(rows, keep)) ==>
              k in RecordsOf(rows) && RecordsOf(Where(rows, keep))[k] == RecordsOf(rows)[k]
  {
    WhereUnique(rows, keep, FileKey);
    RecordsAreRows(rows);
    RecordsAreRows(Where(rows, keep));
  }

  lemma {:induction false} DeleteIsMapRemove(rows: seq<FileRow>, key: (string, string))
    requires Unique(rows, FileKey)
    ensures RecordsOf(Deleted(rows, key)) == RecordsOf(rows) - {key}
  {
    hide RecordsOf, Unique;
    RecordsAreRows(rows);
    forall k ensures SameAt(RecordsOf(Deleted(rows, key)), RecordsOf(rows) - {key}, k) {
      WhereRecords(rows, (r: FileRow) => FileKey(r) != key, k);
      assert k in RecordsOf(rows) ==> Keyed(rows, k);
    }
    hide *;
    SameRecords(RecordsOf(Deleted(rows, key)), RecordsOf(rows) - {key});
  }

  datatype FileTable = FileTable(rows: seq<FileRow>, lastId: int)

  datatype FileOp = Upsert(rec: FileRow) | Delete(provider: string, path: string)

  /** The id an upserted record ends up with. */
  function IdFor(t: FileTable, rec: FileRow): int { if rec.id != 0 then rec.id else t.lastId + 1 }

  /** UpsertFileRecord and DeleteFileRecord on the table. */
  function ApplyFile(t: FileTable, op: FileOp): FileTable {
    match op
    case Upsert(rec) =>
      var id := IdFor(t, rec);
      FileTable(Replaced(t.rows, rec.(id := id)), if id > t.lastId then id else t.lastId)
    case Delete(provider, path) => t.(rows := Deleted(t.rows, (provider, path)))
  }

  ghost predicate FileValid(t: FileTable) {
    && Unique(t.rows, FileKey) && Unique(t.rows, (r: FileRow) => r.id)
    && t.lastId >= 0 && forall r | r in t.rows :: r.id <= t.lastId
  }

  /** The same operations on the map. */
  ghost function ApplyMap(records: Records, op: FileOp): Records {
    match op
    case Upsert(rec) => records[FileKey(rec) := RecordOf(rec)]
    case Delete(provider, path) => records - {(provider, path)}
  }

  lemma FileStep(t: FileTable, op: FileOp)
    requires FileValid(t)
    ensures FileValid(ApplyFile(t, op))
    ensures (op.Upsert? && op.rec.id != 0) || RecordsOf(ApplyFile(t, op).rows) == ApplyMap(RecordsOf(t.rows), op)
  {
    hide Unique, RecordsOf;
    if op.Upsert? {
      var row := op.rec.(id := IdFor(t, op.rec));
      ReplacedRows(t.rows, row);
      UpsertIsMapUpdate(t.rows, row);
    } else {
      var key := (op.provider, op.path);
      WhereUnique(t.rows, (r: FileRow) => FileKey(r) != key, FileKey);
      WhereUnique(t.rows, (r: FileRow) => FileKey(r) != key, (r: FileRow) => r.id);
      DeleteIsMapRemove(t.rows, key);
    }
  }

  function RunFiles(t: FileTable, ops: seq<FileOp>): FileTable {
    if ops == [] then t else ApplyFile(RunFiles(t, ops[..|ops| - 1]), ops[|ops| - 1])
  }

  ghost function RunMap(records: Records, ops: seq<FileOp>): Records {
    if ops == [] then records else ApplyMap(RunMap(records, ops[..|ops| - 1]), ops[|ops| - 1])
  }

  /**
   * Over any upserts without an id and any deletes, file_records stands for the map under the same operations, and
   * its count and sum queries count and sum that map.
   */
  lemma {:induction false} FileRuns(t: FileTable, ops: seq<FileOp>, provider: string)
    requires FileValid(t) && forall op | op in ops && op.Upsert? :: op.rec.id == 0
    ensures FileValid(RunFiles(t, ops)) && RecordsOf(RunFiles(t, ops).rows) == RunMap(RecordsOf(t.rows), ops)
    ensures var mine := Where(RunFiles(t, ops).rows, (r: FileRow) => r.provider == provider);
            var records := OfProvider(RunMap(RecordsOf(t.rows), ops), provider);
            |mine| == |records| && SumSizes(mine) as real == Total(records, SizeOf)
  {
    hide RecordsOf, ApplyFile, ApplyMap, Unique, OfProvider, SumSizes;
    if ops != [] {
      var n := |ops| - 1;
      FileRuns(t, ops[..n], provider);
      assert ops[n] in ops;
      FileStep(RunFiles(t, ops[..n]), ops[n]);
    }
    ProviderRows(RunFiles(t, ops).rows, provider);
  }

  // ---------------------------------------------------------------- COUNT and SUM

  ghost function OfProvider(records: Records, provider: string): Records {
    map k | k in records && k.0 == provider :: records[k]
  }

  ghost function SizeOf(r: FileRecord): real { r.size as real }

  function SumSizes(rows: seq<FileRow>): int {
    if rows == [] then 0 else SumSizes(rows[..|rows| - 1]) + rows[|rows| - 1].size
  }

  lemma {:induction false} SumIsTotal(rows: seq<FileRow>)
    requires Unique(rows, FileKey)
    ensures SumSizes(rows) as real == Total(RecordsOf(rows), SizeOf)
  {
    if rows != [] {
      var n := |rows| - 1;
      SumIsTotal(rows[..n]);
      RecordsAreRows(rows[..n]);
      TotalPut(RecordsOf(rows[..n]), SizeOf, FileKey(rows[n]), RecordOf(rows[n]));
    }
  }

  /** The rows of a provider stand for its part of the map, so their count and sum are those of the map. */
  lemma ProviderRows(rows: seq<FileRow>, provider: string)
    requires Unique(rows, FileKey)
    ensures var mine := Where(rows, (r: FileRow) => r.provider == provider);
            && RecordsOf(mine) == OfProvider(RecordsOf(rows), provider)
            && |mine| == |OfProvider(RecordsOf(rows), provider)|
            && SumSizes(mine) as real == Total(OfProvider(RecordsOf(rows), provider), SizeOf)
  {
    var keep := (r: FileRow) => r.provider == provider;
    var mine := Where(rows, keep);
    hide RecordsOf, Unique;
    WhereUnique(rows, keep, FileKey);
    RecordsAreRows(rows);
    RecordsAreRows(mine);
    forall k ensures SameAt(RecordsOf(mine), OfProvider(RecordsOf(rows), provider), k) {
      WhereRecords(rows, keep, k);
      assert k in RecordsOf(rows) ==> Keyed(rows, k);
    }
    hide *;
    SameRecords(RecordsOf(mine), OfProvider(RecordsOf(rows), provider));
    SumIsTotal(mine);
  }

  // ---------------------------------------------------------------- failed_files

  /** The row waiting for a file, if any: the newest unresolved one. */
  ghost function Waiting(rows: seq<FailedRow>, key: (string, string)): Option<FailedRow> {
    if rows == [] then None
    else
      var last := rows[|rows| - 1];
      if Hit(last, key) then Some(last) else Waiting(rows[..|rows| - 1], key)
  }

  /** At most one row waits for each file. */
  ghost predicate OneWaiting(rows: seq<FailedRow>) {
    forall i, j | 0 <= i < j < |rows| && !rows[i].resolved && !rows[j].resolved :: FailedKey(rows[i]) != FailedKey(rows[j])
  }

  ghost predicate OwnIds(rows: seq<FailedRow>, lastId: int) {
    && (forall i, j | 0 <= i < j < |rows| :: rows[i].id != rows[j].id)
    && (forall r | r in rows :: r.id <= lastId)
  }

  /** COALESCE(NULLIF(new, ''), old) */
  function Coalesce(latest: string, recorded: string): string { if latest == "" then recorded else latest }

  /** The row a further failure makes of a waiting one. */
  function Merged(r: FailedRow, rec: FailedRow): FailedRow {
    r.(error := rec.error, retryCount := r.retryCount + 1, url := Coalesce(rec.url, r.url),
       destPath := Coalesce(rec.destPath, r.destPath), checksum := Coalesce(rec.checksum, r.checksum),
       size := if rec.size > 0 then rec.size else r.size)
  }

  predicate Hit(r: FailedRow, key: (string, string)) { FailedKey(r) == key && !r.resolved }

  datatype FailedOp = AddFailed(rec: FailedRow) | Resolve(id: int) | IncrementRetry(id: int)

  /** The table and its last id. */
  datatype FailedTable = FailedTable(rows: seq<FailedRow>, lastId: int)

  /** What the UPDATE statement of an operation makes of one row. */
  function Updated(r: FailedRow, op: FailedOp): FailedRow {
    match op
    case AddFailed(rec) => if Hit(r, FailedKey(rec)) then Merged(r, rec) else r
    case Resolve(id) => if r.id == id then r.(resolved := true) else r
    case IncrementRetry(id) => if r.id == id then r.(retryCount := r.retryCount + 1) else r
  }

  /** AddFailedFile, ResolveFailedFile and IncrementFailedRetry on the table: an insert only when no row was hit. */
  function ApplyFailed(t: FailedTable, op: FailedOp): FailedTable {
    if op.AddFailed? && forall r | r in t.rows :: !Hit(r, FailedKey(op.rec))
    then FailedTable(t.rows + [op.rec.(id := t.lastId + 1)], t.lastId + 1)
    else t.(rows := seq(|t.rows|, i requires 0 <= i < |t.rows| => Updated(t.rows[i], op)))
  }

  ghost predicate FailedValid(t: FailedTable) { OneWaiting(t.rows) && OwnIds(t.rows, t.lastId) }

  /** What no operation takes away from a row. */
  predicate Kept(r: FailedRow, s: FailedRow) {
    && s.id == r.id && FailedKey(s) == FailedKey(r)
    && (r.url != "" ==> s.url != "") && (r.destPath != "" ==> s.destPath != "")
    && (r.checksum != "" ==> s.checksum != "") && (r.size > 0 ==> s.size > 0)
    && r.retryCount <= s.retryCount && (r.resolved ==> s.resolved)
  }

  ghost predicate Grows(rows: seq<FailedRow>, after: seq<FailedRow>) {
    |rows| <= |after| && forall i | 0 <= i < |rows| :: Kept(rows[i], after[i])
  }

  lemma FailedStep(t: FailedTable, op: FailedOp)
    requires FailedValid(t)
    ensures FailedValid(ApplyFailed(t, op)) && Grows(t.rows, ApplyFailed(t, op).rows)
  {
    hide Hit, Updated, Grows, FailedValid, FailedKey;
    if op.AddFailed? && forall r | r in t.rows :: !Hit(r, FailedKey(op.rec)) {
      InsertStep(t, op.rec);
    } else {
      UpdateStep(t, ApplyFailed(t, op).rows, op);
    }
  }

  lemma UpdatedKept(r: FailedRow, op: FailedOp)
    ensures Kept(r, Updated(r, op))
  {}

  lemma UpdateStep(t: FailedTable, after: seq<FailedRow>, op: FailedOp)
    requires FailedValid(t) && |after| == |t.rows| && forall i | 0 <= i < |after| :: after[i] == Updated(t.rows[i], op)
    ensures FailedValid(t.(rows := after)) && Grows(t.rows, after)
  {
    hide Updated;
    forall i | 0 <= i < |after| ensures Kept(t.rows[i], after[i]) && t.rows[i].id <= t.lastId {
      UpdatedKept(t.rows[i], op);
      assert t.rows[i] in t.rows;
    }
  }

  lemma InsertStep(t: FailedTable, rec: FailedRow)
    requires FailedValid(t) && forall r | r in t.rows :: !Hit(r, FailedKey(rec))
    ensures FailedValid(FailedTable(t.rows + [rec.(id := t.lastId + 1)], t.lastId + 1))
    ensures Grows(t.rows, t.rows + [rec.(id := t.lastId + 1)])
  {
    forall i | 0 <= i < |t.rows| ensures !Hit(t.rows[i], FailedKey(rec)) && t.rows[i].id <= t.lastId {
      assert t.rows[i] in t.rows;
    }
  }

  /** The waiting row is the only one, so it can be found at its place. */
  lemma {:induction false} WaitingAt(rows: seq<FailedRow>, key: (string, string), i: nat)
    requires OneWaiting(rows) && i < |rows| && Hit(rows[i], key)
    ensures Waiting(rows, key) == Some(rows[i])
  {
    if i < |rows| - 1 {
      WaitingAt(rows[..|rows| - 1], key, i);
    }
  }

  lemma {:induction false} WaitingNone(rows: seq<FailedRow>, key: (string, string))
    requires forall r | r in rows :: !Hit(r, key)
    ensures Waiting(rows, key) == None
  {
    if rows != [] {
      assert rows[|rows| - 1] in rows;
      WaitingNone(rows[..|rows| - 1], key);
    }
  }

  lemma {:induction false} WaitingIsHit(rows: seq<FailedRow>, key: (string, string))
    ensures Waiting(rows, key).Some? ==> Hit(Waiting(rows, key).value, key)
  {
    if rows != [] {
      WaitingIsHit(rows[..|rows| - 1], key);
    }
  }

  /** Where the waiting row is, if there is one. */
  lemma FindWaiting(rows: seq<FailedRow>, key: (string, string)) returns (at: Option<nat>)
    requires OneWaiting(rows)
    ensures match at
            case None => Waiting(rows, key) == None && forall r | r in rows :: !Hit(r, key)
            case Some(i) => i < |rows| && Hit(rows[i], key) && Waiting(rows, key) == Some(rows[i])
  {
    if i: nat :| i < |rows| && Hit(rows[i], key) {
      WaitingAt(rows, key, i);
      at := Some(i);
    } else {
      WaitingNone(rows, key);
      at := None;
    }
  }

  /**
   * AddFailedFile in terms of the waiting rows: the file's waiting row absorbs the failure, or becomes the new row,
   * and no other file's waiting row changes.
   */
  lemma {:induction false} AddFailedMeaning(t: FailedTable, rec: FailedRow, key: (string, string))
    requires FailedValid(t)
    ensures var before, after := Waiting(t.rows, key), Waiting(ApplyFailed(t, AddFailed(rec)).rows, key);
            after == if key != FailedKey(rec) then before
                     else match before
                          case Some(r) => Some(Merged(r, rec))
                          case None => if rec.resolved then None else Some(rec.(id := t.lastId + 1))
  {
    if r :| r in t.rows && Hit(r, FailedKey(rec)) {
      AddUpdates(t, rec, key);
    } else {
      AddInserts(t, rec, key);
      WaitingNone(t.rows, FailedKey(rec));
    }
  }

  lemma {:induction false} AddUpdates(t: FailedTable, rec: FailedRow, key: (string, string))
    requires FailedValid(t) && exists r :: r in t.rows && Hit(r, FailedKey(rec))
    ensures Waiting(ApplyFailed(t, AddFailed(rec)).rows, key)
         == match Waiting(t.rows, key)
            case None => None
            case Some(r) => Some(if key == FailedKey(rec) then Merged(r, rec) else r)
    ensures Waiting(t.rows, FailedKey(rec)).Some?
  {
    var hit := FindWaiting(t.rows, FailedKey(rec));
    var after := ApplyFailed(t, AddFailed(rec)).rows;
    FailedStep(t, AddFailed(rec));
    var at := FindWaiting(t.rows, key);
    hide Waiting;
    if at.Some? {
      WaitingAt(after, key, at.value);
    } else {
      forall r | r in after ensures !Hit(r, key) {
        var i :| 0 <= i < |after| && after[i] == r;
        assert t.rows[i] in t.rows;
      }
      WaitingNone(after, key);
    }
  }

  lemma {:induction false} AddInserts(t: FailedTable, rec: FailedRow, key: (string, string))
    requires FailedValid(t) && forall r | r in t.rows :: !Hit(r, FailedKey(rec))
    ensures Waiting(ApplyFailed(t, AddFailed(rec)).rows, key)
         == if key == FailedKey(rec) && !rec.resolved then Some(rec.(id := t.lastId + 1)) else Waiting(t.rows, key)
  {
    assert (t.rows + [rec.(id := t.lastId + 1)])[..|t.rows|] == t.rows;
  }

  /** ResolveFailedFile ends the wait of exactly the file its row is about; a retry count changes no wait. */
  lemma {:induction false} ResolveMeaning(t: FailedTable, id: int, key: (string, string))
    requires FailedValid(t)
    ensures Waiting(ApplyFailed(t, Resolve(id)).rows, key)
         == match Waiting(t.rows, key)
            case None => None
            case Some(r) => if r.id == id then None else Some(r)
  {
    var after := ApplyFailed(t, Resolve(id)).rows;
    FailedStep(t, Resolve(id));
    var at := FindWaiting(t.rows, key);
    if at.Some? && t.rows[at.value].id != id {
      WaitingAt(after, key, at.value);
    } else {
      forall r | r in after ensures !Hit(r, key) {
        var i :| 0 <= i < |after| && after[i] == r;
        assert t.rows[i] in t.rows;
        if at.Some? && i != at.value {
          assert !Hit(t.rows[i], key) by {
            if i < at.value { assert FailedKey(t.rows[i]) != key || t.rows[i].resolved; }
          }
        }
      }
      WaitingNone(after, key);
    }
  }

  /** Resolving and counting a retry touch the rows with this id, and of them one column. */
  lemma RowOnly(t: FailedTable, id: int)
    ensures ApplyFailed(t, Resolve(id)).lastId == ApplyFailed(t, IncrementRetry(id)).lastId == t.lastId
    ensures |ApplyFailed(t, Resolve(id)).rows| == |ApplyFailed(t, IncrementRetry(id)).rows| == |t.rows|
    ensures forall i | 0 <= i < |t.rows| ::
              && ApplyFailed(t, Resolve(id)).rows[i]
                 == (if t.rows[i].id == id then t.rows[i].(resolved := true) else t.rows[i])
              && ApplyFailed(t, IncrementRetry(id)).rows[i]
                 == (if t.rows[i].id == id then t.rows[i].(retryCount := t.rows[i].retryCount + 1) else t.rows[i])
  {}

  function RunFailed(t: FailedTable, ops: seq<FailedOp>): FailedTable {
    if ops == [] then t else ApplyFailed(RunFailed(t, ops[..|ops| - 1]), ops[|ops| - 1])
  }

  /**
   * Over any calls on a table that starts empty: at most one unresolved row per provider and path, and from any moment
   * on no row loses a URL, a destination, a checksum, a size or a retry, or stops being resolved.
   */
  lemma {:induction false} FailedRuns(first: seq<FailedOp>, later: seq<FailedOp>)
    ensures var t := RunFailed(FailedTable([], 0), first);
            var u := RunFailed(t, later);
            FailedValid(t) && FailedValid(u) && Grows(t.rows, u.rows)
    decreases |first| + |later|
  {
    hide ApplyFailed, FailedValid, Kept;
    if later != [] {
      var n := |later| - 1;
      FailedRuns(first, later[..n]);
      FailedStep(RunFailed(RunFailed(FailedTable([], 0), first), later[..n]), later[n]);
      GrowsOn(RunFailed(FailedTable([], 0), first).rows,
              RunFailed(RunFailed(FailedTable([], 0), first), later[..n]).rows,
              RunFailed(RunFailed(FailedTable([], 0), first), later).rows);
    } else if first != [] {
      var n := |first| - 1;
      FailedRuns(first[..n], []);
      FailedStep(RunFailed(FailedTable([], 0), first[..n]), first[n]);
      NothingLost(RunFailed(FailedTable([], 0), first).rows);
    } else {
      NoFailures();
    }
  }

  lemma NoFailures()
    ensures FailedValid(FailedTable([], 0))
  {}

  lemma NothingLost(rows: seq<FailedRow>)
    ensures Grows(rows, rows)
  {}

  lemma GrowsOn(a: seq<FailedRow>, b: seq<FailedRow>, c: seq<FailedRow>)
    requires Grows(a, b) && Grows(b, c)
    ensures Grows(a, c)
  {}

  // ---------------------------------------------------------------- the store

  class Store {
    var files: FileTable
    var failed: FailedTable

    ghost predicate Valid()
      reads this
    {
      FileValid(files) && FailedValid(failed)
    }

    ghost function Records(): Records
      reads this
    {
      RecordsOf(files.rows)
    }

    constructor ()
      ensures Valid() && Records() == map[] && failed == FailedTable([], 0)
    {
      files, failed := FileTable([], 0), FailedTable([], 0);
    }

    /** A record without an id updates the map; one with an id does so unless another file's row has that id. */
    method UpsertFileRecord(rec: FileRow) returns (id: int)
      requires Valid()
      modifies `files
      ensures Valid() && id == IdFor(old(files), rec)
      ensures files.lastId == if id > old(files.lastId) then id else old(files.lastId)
      ensures (rec.id == 0 || forall r | r in old(files.rows) :: r.id == rec.id ==> FileKey(r) == FileKey(rec))
         <==> Records() == old(Records())[FileKey(rec) := RecordOf(rec)]
      ensures FileKey(rec) in Records() && Records()[FileKey(rec)] == RecordOf(rec)
      ensures forall k | k != FileKey(rec) ::
                && (k in Records() <==> k in old(Records()) && !Evicts(old(files.rows), id, FileKey(rec), k))
                && (k in Records() ==> Records()[k] == old(Records())[k])
    {
      id := IdFor(files, rec);
      ghost var row := rec.(id := id);
      FileStep(files, Upsert(rec));
      UpsertIsMapUpdate(files.rows, row);
      forall k { ReplacedRecord(files.rows, row, k); }
      hide Unique, RecordsOf, Replaced, Evicts;
      files := ApplyFile(files, Upsert(rec));
    }

    method DeleteFileRecord(provider: string, path: string) returns (found: bool)
      requires Valid()
      modifies `files
      ensures Valid() && files.lastId == old(files.lastId)
      ensures Records() == old(Records()) - {(provider, path)}
      ensures found <==> (provider, path) in old(Records())
    {
      FileStep(files, Delete(provider, path));
      RecordsAreRows(files.rows);
      found := exists r | r in files.rows :: FileKey(r) == (provider, path);
      hide Unique, RecordsOf;
      files := ApplyFile(files, Delete(provider, path));
    }

    method CountFileRecords(provider: string) returns (count: nat)
      requires Valid()
      ensures count == |OfProvider(Records(), provider)|
    {
      ProviderRows(files.rows, provider);
      hide *;
      count := |Where(files.rows, (r: FileRow) => r.provider == provider)|;
    }

    method SumFileSize(provider: string) returns (sum: int)
      requires Valid()
      ensures sum as real == Total(OfProvider(Records(), provider), SizeOf)
    {
      ProviderRows(files.rows, provider);
      hide *;
      sum := SumSizes(Where(files.rows, (r: FileRow) => r.provider == provider));
    }

    /** The file's waiting row absorbs the failure or becomes the new row; nothing else about waiting rows changes. */
    method AddFailedFile(rec: FailedRow)
      requires Valid()
      modifies `failed
      ensures Valid() && Grows(old(failed.rows), failed.rows)
      ensures failed == ApplyFailed(old(failed), AddFailed(rec))
    {
      FailedStep(failed, AddFailed(rec));
      hide *;
      failed := ApplyFailed(failed, AddFailed(rec));
    }

    method ResolveFailedFile(id: int) returns (found: bool)
      requires Valid()
      modifies `failed
      ensures Valid() && Grows(old(failed.rows), failed.rows)
      ensures found <==> exists r :: r in old(failed.rows) && r.id == id
      ensures failed == ApplyFailed(old(failed), Resolve(id))
      ensures |failed.rows| == |old(failed.rows)| && failed.lastId == old(failed.lastId)
      ensures forall i | 0 <= i < |failed.rows| ::
                failed.rows[i] == if old(failed.rows)[i].id == id then old(failed.rows)[i].(resolved := true)
                                  else old(failed.rows)[i]
    {
      FailedStep(failed, Resolve(id));
      found := exists r | r in failed.rows :: r.id == id;
      RowOnly(failed, id);
      hide *;
      failed := ApplyFailed(failed, Resolve(id));
    }

    method IncrementFailedRetry(id: int) returns (found: bool)
      requires Valid()
      modifies `failed
      ensures Valid() && Grows(old(failed.rows), failed.rows)
      ensures found <==> exists r :: r in old(failed.rows) && r.id == id
      ensures failed == ApplyFailed(old(failed), IncrementRetry(id))
      ensures |failed.rows| == |old(failed.rows)| && failed.lastId == old(failed.lastId)
      ensures forall i | 0 <= i < |failed.rows| ::
                failed.rows[i] == if old(failed.rows)[i].id == id
                                  then old(failed.rows)[i].(retryCount := old(failed.rows)[i].retryCount + 1)
                                  else old(failed.rows)[i]
    {
      FailedStep(failed, IncrementRetry(id));
      found := exists r | r in failed.rows :: r.id == id;
      RowOnly(failed, id);
      hide *;
      failed := ApplyFailed(failed, IncrementRetry(id));
    }
  }
}
