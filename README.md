# Cloud resource auditor — a Dafny model of the audit pipeline

The auditor checks cloud resources against three fixed compliance rules:

- S3 buckets must have versioning "Enabled".
- IAM users must have at least one MFA device.
- EC2 security groups must not open port 22 to `0.0.0.0/0`.

Each check yields one verdict. The verdicts are stored as rows of one audit result table, which can be queried, summarised and cleared.

This project models that pipeline in six modules:

- `Auditor` (auditor.dfy) models the three auditors: the listing calls, and the check that turns a provider response into a verdict. The rule checks are functions. Two parts work step by step in the source and are methods with loops: the paginated user listing, and the security group scan.
- `Tasks` (tasks.dfy) models the full scan. It audits S3, then IAM, then EC2, and adds one row per listed resource to a pending batch. It commits the batch once, at the end. The method `RunFullAudit` is proved against the function `FullScan`. Lemmas about `FullScan` state the shape of the batch.
- `Store` (store.dfy) models the table. It is a class with the stored rows and the next id to assign. A commit appends rows and never changes the rows already stored.
- `Api` (api.dfy) models the handlers of app/main.py: the filtered query ordered newest first, the statistics, the audit of a single bucket, and clearing the table.
- `Models` (models.dfy) and `Format` (format.dfy) hold the record types and the decimal rendering of the MFA device count.

The cloud provider is an input. Each call's answer is an `Outcome`: `Ok(response)`, or `Err(message)` for a caught `ClientError`. A missing key that the source reads with a default is an `Option` field. Two failures are not `ClientError`s, so the source does not catch them:

- An ingress rule has a "FromPort" of at most 22 and no "ToPort". Then `None >= 22` raises `TypeError`.
- A describe call returns no group. Then `[0]` raises `IndexError`.

The model makes both explicit as `Raised(name)`. In the full scan such an exception leaves the session before the commit, so the scan stores nothing. One could read a missing "ToPort" as an unbounded range; the model follows the code, which raises `TypeError`.

Clock readings are inputs. The k-th row of a scan gets `clock(k)`, and a single-bucket audit gets `now`.

## Model

| member | source | states |
|---|---|---|
| `Auditor.ListBuckets` | app/auditor.py:9-18 | a failed listing gives no names, and so does a response without "Buckets"; otherwise one name per bucket, in listing order |
| `Auditor.CheckBucketVersioning` | app/auditor.py:20-47 | the verdict is about this bucket, for "s3" and "bucket_versioning_check"; it is compliant iff the call succeeded and the status (default "Disabled") is exactly "Enabled"; on success the details end with that status; on failure the verdict is non-compliant and its details end with the error text; the details are an "Error auditing " report iff the call failed |
| `Auditor.MissingStatusIsDisabled` | app/auditor.py:28-36 | a response without a status is non-compliant, and the details read "Versioning status is: Disabled" |
| `Auditor.SuspendedBucketIsNonCompliant` | tests/test_auditor.py:5-23 | a "Suspended" bucket gives a non-compliant "s3" verdict that names the bucket |
| `Auditor.ListUsers` | app/auditor.py:53-66 | the loops over pages and users return every user name on every page, in order; if any page fetch fails, the result is empty |
| `Auditor.PageNamesAppend` | app/auditor.py:58-63 | how the listing is split into pages does not change the names listed |
| `Auditor.PageNamesMembership` | app/auditor.py:60-62 | a name is listed iff some user on some page has that name |
| `Auditor.CheckMfaEnabled` | app/auditor.py:68-92 | the verdict is about this user, for "iam" and "iam_user_mfa_check"; it is compliant iff the call succeeded and the device count (default 0) is above 0; the count can be read back from the details; on failure the verdict is non-compliant, with an error report ending with the error text |
| `Auditor.MfaDetailsReportCount` | app/auditor.py:83 | parsing the MFA details gives back the device count they were built from |
| `Format.NatToString` | app/auditor.py:83 | the rendered count is a non-empty string of digits with no leading zero |
| `Format.DigitsValueOfNatToString` | app/auditor.py:83 | reading the rendered digits gives back the number |
| `Format.NatToStringInjective` | app/auditor.py:83 | different counts render as different strings |
| `Auditor.ListSecurityGroups` | app/auditor.py:98-107 | a failed listing gives no ids; otherwise one group id per group, in order |
| `Auditor.SshRulesVerdict` | app/auditor.py:119-143 | raises TypeError iff some rule has a "FromPort" of at most 22 and no "ToPort"; otherwise the verdict is non-compliant iff some rule covers port 22 (no "FromPort", or FromPort ≤ 22 ≤ ToPort) and has a range with CidrIp "0.0.0.0/0"; the details read "Port 22 is open to the world" exactly when it is non-compliant, and "Port 22 is restricted" otherwise |
| `Auditor.SshVerdict` | app/auditor.py:109-152 | a failed describe gives a non-compliant "ec2" verdict for this group, whose details are an error report ending with the error text; an empty group list raises IndexError; otherwise the first group's rules decide the verdict, the TypeError and the details as above |
| `Auditor.CheckSshOpenToWorld` | app/auditor.py:109-152 | the loop over rules and ranges, with its flag and its `break`, returns exactly `SshVerdict` |
| `Auditor.IrrelevantRuleKeepsVerdict` | app/auditor.py:121-133 | adding a rule anywhere leaves the verdict unchanged if the rule neither opens port 22 to the world nor trips the range test; so rules that miss port 22, and other CIDRs, never flip the verdict |
| `Auditor.SshRuleScenarios` | app/auditor.py:121-142 | all ports open to the world: non-compliant; port 80 open to the world: compliant; ports 20-25 open to 10.0.0.0/8: compliant; ports 20-25 open to the world: non-compliant; each with its details text |
| `Auditor.MissingToPortScenarios` | app/auditor.py:123-128 | FromPort 20 with no ToPort raises TypeError; FromPort 80 with no ToPort is compliant, since the comparison short-circuits |
| `Store.CommitKeepsIdsAssigned` | app/models.py:7 | appending a committed batch keeps every stored id distinct and increasing along the table |
| `Store.AuditStore.constructor` | app/database.py:16-18 | a new table is empty |
| `Store.AuditStore.Commit` | app/tasks.py:51 | the committed rows are appended after the existing rows, in order, with consecutive new ids; earlier rows are unchanged |
| `Store.AuditStore.DeleteAll` | app/main.py:106-108 | afterwards the table is empty and the ids stay valid |
| `Tasks.Audit` | app/tasks.py:25-48 | only the EC2 check can raise; every verdict names its domain's service and the audited id |
| `Tasks.DomainVerdictsShape` | app/tasks.py:25-28 | a domain gives exactly one verdict per listed id, in listing order, each the check's verdict on that id; it stops iff the check on some listed id raises |
| `Tasks.NoExceptionOutsideEc2` | app/tasks.py:25-38 | the S3 and IAM parts of a scan always complete |
| `Tasks.SameChecksSameVerdicts` | app/tasks.py:25-48 | a domain's verdicts depend only on its checks' answers |
| `Tasks.FullScanParts` | app/tasks.py:22-48 | a completed scan is the S3 verdicts, then the IAM verdicts, then the EC2 verdicts; an aborted scan is the EC2 part's exception |
| `Tasks.FullScanCount` | app/tasks.py:22-48 | a completed batch has \|buckets\| + \|users\| + \|groups\| verdicts; together with `FullScanParts` and `DomainVerdictsShape`, the S3 verdicts come first, then IAM, then EC2, each in listing order |
| `Tasks.FullScanServices` | app/tasks.py:22-48 | in a completed batch the "s3" verdicts are exactly the first \|buckets\|, and the "ec2" verdicts are exactly those from \|buckets\| + \|users\| on |
| `Tasks.FullScanAbortsIff` | app/tasks.py:45-48 | a scan aborts iff the check on some listed security group raises |
| `Tasks.BucketListingFailureSkipsOnlyS3` | app/tasks.py:24-48 | if the bucket listing fails, no bucket is audited; the scan aborts iff it would have aborted anyway; otherwise its batch is the IAM and EC2 verdicts it would have had |
| `Tasks.UserListingFailureSkipsOnlyIam` | app/tasks.py:32-48 | if a user page fails, no user is audited; the S3 and EC2 verdicts are unchanged, and the scan aborts iff it would have aborted anyway |
| `Tasks.AddDomain` | app/tasks.py:24-38 | the loop over an S3 or IAM listing completes, and afterwards the verdicts done are those before it followed by exactly that domain's verdicts, each added as a row stamped with the next clock reading |
| `Tasks.RunFullAudit` | app/tasks.py:14-53 | the store is untouched until the single commit; a completed scan appends exactly the `FullScan` batch, one row per verdict, stamped in order and given consecutive ids after the existing rows, with the next id moved past them; an aborted scan returns the exception and leaves the store unchanged |
| `Api.Where` | app/main.py:41-45 | a `where` clause keeps every row that passes the filters, as often as it is stored, and no other row; an absent or empty service filters nothing |
| `Api.InsertKeepsNewestFirst` | app/main.py:47 | inserting a row into a newest-first sequence keeps it newest first |
| `Api.OrderByTimestampDesc` | app/main.py:47 | the result is the same multiset of rows, with timestamps non-increasing |
| `Api.GetAuditResults` | app/main.py:28-50 | the result is newest first; it holds exactly the stored rows that pass the filters, each as often as stored |
| `Api.QueryFiltersHold` | app/main.py:41-45 | with a non-empty service filter every returned row has that service; with a compliance filter every returned row has that compliance |
| `Api.CompliancePartition` | app/main.py:89-91 | the unfiltered count is the table size, and the compliant and non-compliant counts add up to it |
| `Api.WhereCountsCompliance` | app/main.py:90-91 | the rows a compliance filter selects are exactly as many as the rows with that compliance |
| `Api.ComplianceCounts` | app/main.py:90-91 | no row passes the compliant filter iff no row is compliant, and no row passes the non-compliant filter iff every row is compliant |
| `Api.CompliancePercent` | app/main.py:93-95 | for the exact, unrounded score: 0 when there are no checks; otherwise score · total = 100 · passed; always within [0, 100]; exactly 100 iff there are checks and all passed (the program's rounded score can reach 100 with a failed check, see "## Left out") |
| `Api.GetAuditStats` | app/main.py:80-102 | total = row count = passed + failed; passed is the number of compliant rows and failed the number of non-compliant rows; passed is 0 iff no row is compliant; failed is 0 iff every row is compliant; the score is the guarded percentage of compliant rows |
| `Api.EmptyTableStats` | app/main.py:93-95 | an empty table gives 0 checks, 0 passed, 0 failed and a score of 0 |
| `Api.ThreeOfFourStats` | app/main.py:89-95 | three compliant rows and one non-compliant row give 4, 3, 1 and a score of 75 |
| `Api.AuditS3Bucket` | app/main.py:61-78 | the table grows by exactly one row: the bucket's verdict, with the next id and the given timestamp; that row is returned, and the next id moves on by one |
| `Api.ClearAuditResults` | app/main.py:104-109 | afterwards the table is empty, the next id is unchanged, every query returns nothing, and the statistics are all zero |

## Left out

- The boto3 clients, the paginator's own mechanics and the `print` logging. Provider answers are inputs: listing results, user pages in fetch order, and describe results as functions of the resource id.
- Provider failures that are not `ClientError`, for example connection errors from botocore. The source does not catch them, so they would end a scan or a request. The model's `Err` stands only for a caught `ClientError`.
- Missing keys that the source reads without a default: "SecurityGroups" in a listing and in a describe response, "Users" on a page, "UserName", "GroupId" and a bucket's "Name". They would raise `KeyError`. The response types always carry them.
- `asyncio.to_thread`, the background task that `run_full_cloud_scan` schedules, the FastAPI routes, the lifespan hook and the health endpoint. These are concurrency and dispatch plumbing. The scan itself is modelled sequentially, as the source runs it.
- The SQL engine, sessions and settings (app/database.py, app/config.py), and failures of a commit itself.
- The API-key check (app/security.py) and the HTTP tests.
- Api.CompliancePercent: the score is the exact percentage, not rounded to two decimals as `round(..., 2)` does, because floating point is not modelled. The clauses "score · total = 100 · passed" and "exactly 100 iff there are checks and all passed" hold only for this exact score, not for the program's rounded one: with 39 999 compliant rows out of 40 000, app/main.py:95 computes `round(99.9975, 2)`, which is 100.0, although one check failed, while the model's score stays below 100.
- Api.OrderByTimestampDesc: the database leaves the order of rows with equal timestamps open. The model fixes one order, so only the non-increasing timestamps and the multiset of rows are promised.
- Store.AuditStore.DeleteAll: whether the database reuses ids after a full delete depends on the engine. The model never reuses an id.
- `datetime.utcnow`. Timestamps are given integers.
