/**
 * The records that flow through the audit pipeline: the dictionary an
 * auditor's check returns, and the row of the audit result table
 * (app/models.py) that the store persists.
 */
module Models {

  datatype Option<+T> = None | Some(value: T)

  /** The outcome of one call to the cloud provider: its response, or the
      text of the client error it raised. */
  datatype Outcome<+T> = Ok(value: T) | Err(message: string)

  /** The dictionary a check returns: one verdict about one resource. */
  datatype AuditData = AuditData(
    awsService: string,
    resourceId: string,
    checkName: string,
    isCompliant: bool,
    details: string)

  /** A row of the audit result table. `id` stays None until the store
      assigns one; `details` is optional in the table, although every check
      fills it in. */
  datatype AuditResult = AuditResult(
    id: Option<nat>,
    awsService: string,
    resourceId: string,
    checkName: string,
    isCompliant: bool,
    details: Option<string>,
    timestamp: int)

  /** The row and the verdict carry the same audit fields. */
  predicate Records(r: AuditResult, data: AuditData)
  {
    && r.awsService == data.awsService
    && r.resourceId == data.resourceId
    && r.checkName == data.checkName
    && r.isCompliant == data.isCompliant
    && r.details == Some(data.details)
  }

  /** `AuditResult(**audit_data)`: a row not yet stored, stamped with the
      clock reading taken when it is built. */
  function NewAuditResult(data: AuditData, now: int): (r: AuditResult)
    ensures r.id == None && r.timestamp == now && Records(r, data)
  {
    AuditResult(None, data.awsService, data.resourceId, data.checkName,
                data.isCompliant, Some(data.details), now)
  }
}
