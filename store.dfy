/**
 * The audit result table (the `AuditResult` table of app/models.py) as the
 * sessions of app/main.py and app/tasks.py change it: rows are appended by a
 * commit, which assigns each new row the next integer id, and are removed
 * only all at once. A row is never changed after it is stored.
 */
module Store {
  import opened Models

  /** Every stored row has an id below `nextId`, and ids increase along the
      table, so no two rows share one. */
  predicate IdsAssigned(rows: seq<AuditResult>, nextId: nat)
  {
    && (forall i :: 0 <= i < |rows| ==> rows[i].id.Some? && rows[i].id.value < nextId)
    && (forall i, j :: 0 <= i < j < |rows| ==> rows[i].id.value < rows[j].id.value)
  }

  /** The pending rows as the commit stores them: the same rows, numbered
      consecutively from `first`. */
  function AssignIds(pending: seq<AuditResult>, first: nat): (stored: seq<AuditResult>)
    ensures |stored| == |pending|
    ensures forall i :: 0 <= i < |pending| ==> stored[i] == pending[i].(id := Some(first + i))
  {
    seq(|pending|, i requires 0 <= i < |pending| => pending[i].(id := Some(first + i)))
  }

  /** Appending a committed batch keeps every id distinct and increasing. */
  lemma CommitKeepsIdsAssigned(rows: seq<AuditResult>, nextId: nat, pending: seq<AuditResult>)
    requires IdsAssigned(rows, nextId)
    ensures IdsAssigned(rows + AssignIds(pending, nextId), nextId + |pending|)
  {
    var all := rows + AssignIds(pending, nextId);
    forall i, j | 0 <= i < j < |all| ensures all[i].id.value < all[j].id.value {
      if j >= |rows| && i < |rows| {
        assert all[i].id.value < nextId;
      }
    }
  }

  class AuditStore {
    var rows: seq<AuditResult>
    var nextId: nat

    ghost predicate Valid()
      reads this
    {
      IdsAssigned(rows, nextId)
    }

    /** A freshly created, empty table. */
    constructor ()
      ensures Valid() && rows == [] && nextId == 1
    {
      rows := [];
      nextId := 1;
    }

    /** Commits the rows added to a session: all of them, in the order they
        were added, after the rows already stored. */
    method Commit(pending: seq<AuditResult>)
      requires Valid()
      modifies this
      ensures Valid()
      ensures rows == old(rows) + AssignIds(pending, old(nextId))
      ensures nextId == old(nextId) + |pending|
    {
      CommitKeepsIdsAssigned(rows, nextId, pending);
      rows := rows + AssignIds(pending, nextId);
      nextId := nextId + |pending|;
    }

    /** `delete(AuditResult)` followed by a commit: removes every row. */
    method DeleteAll()
      requires Valid()
      modifies this
      ensures Valid()
      ensures rows == [] && nextId == old(nextId)
    {
      rows := [];
    }
  }
}
