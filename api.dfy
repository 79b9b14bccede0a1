/**
 * The request handlers of app/main.py that read and change the audit
 * result table: the filtered query, the statistics, the audit of one
 * bucket, and the clearing of the table.
 */
module Api {
  import opened Models
  import opened Auditor
  import opened Store

  // ---------------------------------------------------------------- queries

  /** The optional filters of the query; an absent or empty service name
      filters nothing. */
  predicate Matches(r: AuditResult, service: Option<string>, compliant: Option<bool>)
  {
    && (service.None? || service.value == "" || r.awsService == service.value)
    && (compliant.None? || r.isCompliant == compliant.value)
  }

  /** The rows a `where` clause selects, in table order. */
  function Where(rows: seq<AuditResult>, service: Option<string>, compliant: Option<bool>): (r: seq<AuditResult>)
    ensures forall x :: multiset(r)[x] == if Matches(x, service, compliant) then multiset(rows)[x] else 0
  {
    if rows == [] then []
    else
      var tail := Where(rows[1..], service, compliant);
      assert rows == [rows[0]] + rows[1..];
      if Matches(rows[0], service, compliant) then [rows[0]] + tail else tail
  }

  /** Newer rows come first. */
  predicate NewestFirst(rows: seq<AuditResult>)
  {
    forall i, j :: 0 <= i < j < |rows| ==> rows[i].timestamp >= rows[j].timestamp
  }

  /** A row at least as new as the first of a newest-first sequence can go
      in front of it. */
  lemma PrependNewest(x: AuditResult, sorted: seq<AuditResult>)
    requires NewestFirst(sorted)
    requires sorted != [] ==> x.timestamp >= sorted[0].timestamp
    ensures NewestFirst([x] + sorted)
  {
    var r := [x] + sorted;
    forall i, j | 0 <= i < j < |r| ensures r[i].timestamp >= r[j].timestamp {
      if i == 0 && j > 1 {
        assert r[1] == sorted[0] && r[j] == sorted[j - 1];
      }
    }
  }

  /** Inserts `x` before the first row that is not newer than it. */
  function InsertByTimestamp(x: AuditResult, sorted: seq<AuditResult>): (r: seq<AuditResult>)
    ensures |r| == |sorted| + 1
    ensures multiset(r) == multiset(sorted) + multiset{x}
  {
    if sorted == [] then [x]
    else if x.timestamp >= sorted[0].timestamp then [x] + sorted
    else
      assert sorted == [sorted[0]] + sorted[1..];
      [sorted[0]] + InsertByTimestamp(x, sorted[1..])
  }

  /** Inserting into a newest-first sequence keeps it newest first. */
  lemma {:induction false} InsertKeepsNewestFirst(x: AuditResult, sorted: seq<AuditResult>)
    requires NewestFirst(sorted)
    ensures NewestFirst(InsertByTimestamp(x, sorted))
    ensures InsertByTimestamp(x, sorted)[0] == x || (sorted != [] && InsertByTimestamp(x, sorted)[0] == sorted[0])
  {
    if sorted == [] {
    } else if x.timestamp >= sorted[0].timestamp {
      PrependNewest(x, sorted);
    } else {
      var tail := sorted[1..];
      assert NewestFirst(tail);
      InsertKeepsNewestFirst(x, tail);
      var rest := InsertByTimestamp(x, tail);
      assert rest[0].timestamp <= sorted[0].timestamp;
      PrependNewest(sorted[0], rest);
    }
  }

  /** `order_by(AuditResult.timestamp.desc())`: the same rows, newest first. */
  function OrderByTimestampDesc(rows: seq<AuditResult>): (r: seq<AuditResult>)
    ensures NewestFirst(r)
    ensures multiset(r) == multiset(rows)
  {
    if rows == [] then []
    else
      assert rows == [rows[0]] + rows[1..];
      var sortedTail := OrderByTimestampDesc(rows[1..]);
      InsertKeepsNewestFirst(rows[0], sortedTail);
      InsertByTimestamp(rows[0], sortedTail)
  }

  /** `get_audit_results`: every row that passes the filters, each as often
      as it is stored, and no other row, newest first. */
  function GetAuditResults(rows: seq<AuditResult>, service: Option<string>, compliant: Option<bool>): (r: seq<AuditResult>)
    ensures NewestFirst(r)
    ensures forall x :: multiset(r)[x] == if Matches(x, service, compliant) then multiset(rows)[x] else 0
    ensures forall x :: x in r <==> x in rows && Matches(x, service, compliant)
  {
    var selected := Where(rows, service, compliant);
    var r := OrderByTimestampDesc(selected);
    assert forall x :: x in r <==> multiset(r)[x] > 0;
    assert forall x :: x in rows <==> multiset(rows)[x] > 0;
    r
  }

  /** With a service filter every row returned belongs to that service, and
      with a compliance filter every row returned has that compliance. */
  lemma QueryFiltersHold(rows: seq<AuditResult>, service: Option<string>, compliant: Option<bool>)
    ensures service.Some? && service.value != "" ==>
      forall x :: x in GetAuditResults(rows, service, compliant) ==> x.awsService == service.value
    ensures compliant.Some? ==>
      forall x :: x in GetAuditResults(rows, service, compliant) ==> x.isCompliant == compliant.value
  {
  }

  // ---------------------------------------------------------------- stats

  /** The statistics object; the score is the exact percentage. */
  datatype AuditStats = AuditStats(totalChecks: nat, passed: nat, failed: nat, complianceScorePercent: real)

  /** Every row is either compliant or not. */
  lemma {:induction false} CompliancePartition(rows: seq<AuditResult>)
    ensures |Where(rows, None, None)| == |rows|
    ensures |Where(rows, None, Some(true))| + |Where(rows, None, Some(false))| == |rows|
  {
    if rows != [] {
      CompliancePartition(rows[1..]);
    }
  }

  /** The compliance score: the percentage of passed checks, with the
      guard that makes it 0 when there are none. */
  function CompliancePercent(passed: nat, total: nat): (score: real)
    requires passed <= total
    ensures total == 0 ==> score == 0.0
    ensures total > 0 ==> score * total as real == 100.0 * passed as real
    ensures 0.0 <= score <= 100.0
    ensures score == 100.0 <==> total > 0 && passed == total
  {
    if total > 0 then
      var ratio := passed as real / total as real;
      assert ratio * total as real == passed as real;
      assert ratio <= 1.0;
      assert ratio * 100.0 == 100.0 ==> ratio == 1.0;
      ratio * 100.0
    else 0.0
  }

  /** A `where` clause selects no row exactly when no row passes it. */
  lemma WhereEmpty(rows: seq<AuditResult>, service: Option<string>, compliant: Option<bool>)
    ensures Where(rows, service, compliant) == [] <==>
      forall i :: 0 <= i < |rows| ==> !Matches(rows[i], service, compliant)
  {
    var r := Where(rows, service, compliant);
    if r != [] {
      assert multiset(r)[r[0]] > 0;
      var i :| 0 <= i < |rows| && rows[i] == r[0];
    } else {
      forall i | 0 <= i < |rows| ensures !Matches(rows[i], service, compliant) {
        assert multiset(rows)[rows[i]] > 0;
      }
    }
  }

  /** The number of rows whose compliance is `compliant`. */
  function CountCompliance(rows: seq<AuditResult>, compliant: bool): nat
  {
    if rows == [] then 0
    else (if rows[0].isCompliant == compliant then 1 else 0) + CountCompliance(rows[1..], compliant)
  }

  /** A compliance filter selects exactly the rows with that compliance. */
  lemma {:induction false} WhereCountsCompliance(rows: seq<AuditResult>, compliant: bool)
    ensures |Where(rows, None, Some(compliant))| == CountCompliance(rows, compliant)
  {
    if rows != [] {
      WhereCountsCompliance(rows[1..], compliant);
    }
  }

  /** No row passes the stats' compliance filter exactly when the count for
      it is 0. */
  lemma ComplianceCounts(rows: seq<AuditResult>)
    ensures |Where(rows, None, Some(true))| == 0 <==> forall i :: 0 <= i < |rows| ==> !rows[i].isCompliant
    ensures |Where(rows, None, Some(false))| == 0 <==> forall i :: 0 <= i < |rows| ==> rows[i].isCompliant
  {
    WhereEmpty(rows, None, Some(true));
    WhereEmpty(rows, None, Some(false));
  }

  /** `get_audit_stats`: the number of rows, of compliant rows and of the
      others, and the percentage of compliant rows, 0 for an empty table. */
  function GetAuditStats(rows: seq<AuditResult>): (s: AuditStats)
    ensures s.totalChecks == |rows| == s.passed + s.failed
    ensures s.passed == CountCompliance(rows, true) && s.failed == CountCompliance(rows, false)
    ensures s.passed == 0 <==> forall i :: 0 <= i < |rows| ==> !rows[i].isCompliant
    ensures s.failed == 0 <==> forall i :: 0 <= i < |rows| ==> rows[i].isCompliant
    ensures s.complianceScorePercent == CompliancePercent(s.passed, s.totalChecks)
  {
    CompliancePartition(rows);
    ComplianceCounts(rows);
    WhereCountsCompliance(rows, true);
    WhereCountsCompliance(rows, false);
    var total := |Where(rows, None, None)|;
    var passed := |Where(rows, None, Some(true))|;
    var failed := |Where(rows, None, Some(false))|;
    AuditStats(total, passed, failed, CompliancePercent(passed, total))
  }

  /** An empty table has no checks and a score of 0. */
  lemma EmptyTableStats()
    ensures GetAuditStats([]) == AuditStats(0, 0, 0, 0.0)
  {
  }

  /** Three compliant rows and one non-compliant row give a score of 75. */
  lemma ThreeOfFourStats(a: AuditResult, b: AuditResult, c: AuditResult, d: AuditResult)
    requires a.isCompliant && b.isCompliant && c.isCompliant && !d.isCompliant
    ensures GetAuditStats([a, b, c, d]) == AuditStats(4, 3, 1, 75.0)
  {
    var rows := [a, b, c, d];
    assert rows[1..] == [b, c, d];
    assert rows[1..][1..] == [c, d];
    assert rows[1..][1..][1..] == [d];
    assert [d][1..] == [];
    assert Where([d], None, Some(true)) == [];
    assert Where([c, d], None, Some(true)) == [c];
    assert Where([b, c, d], None, Some(true)) == [b, c];
    assert |Where(rows, None, Some(true))| == 3;
    assert CompliancePercent(3, 4) == 75.0;
  }

  // ---------------------------------------------------------------- changes

  /** `audit_s3_bucket`: checks one bucket, stores the verdict as one new row
      and returns that row as stored, with its id. */
  method AuditS3Bucket(store: AuditStore, bucketName: string, response: Outcome<BucketVersioning>, now: int)
    returns (result: AuditResult)
    requires store.Valid()
    modifies store
    ensures store.Valid()
    ensures store.rows == old(store.rows) + [result]
    ensures store.nextId == old(store.nextId) + 1
    ensures result.id == Some(old(store.nextId)) && result.timestamp == now
    ensures Records(result, CheckBucketVersioning(bucketName, response))
  {
    var auditData := CheckBucketVersioning(bucketName, response);
    var auditResult := NewAuditResult(auditData, now);
    store.Commit([auditResult]);
    result := store.rows[|store.rows| - 1];
  }

  /** `clear_audit_results`: deletes every row; later queries find nothing
      and the statistics are those of an empty table. */
  method ClearAuditResults(store: AuditStore)
    requires store.Valid()
    modifies store
    ensures store.Valid()
    ensures store.rows == [] && store.nextId == old(store.nextId)
    ensures forall service, compliant :: GetAuditResults(store.rows, service, compliant) == []
    ensures GetAuditStats(store.rows) == AuditStats(0, 0, 0, 0.0)
  {
    store.DeleteAll();
  }
}
