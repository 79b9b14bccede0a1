/**
 * The full scan (app/tasks.py): S3, then IAM, then EC2; for every resource
 * id a domain lists, one verdict added to the session; one commit at the
 * end. An exception that escapes a check ends the scan before the commit,
 * so nothing of it is stored.
 */
module Tasks {
  import opened Models
  import opened Auditor
  import opened Store

  /** What the cloud provider answers during one scan: the three listings and,
      for each resource id, the answer to the describe call about it. */
  datatype Provider = Provider(
    bucketListing: Outcome<BucketList>,
    bucketVersioning: string -> Outcome<BucketVersioning>,
    userPages: seq<Outcome<seq<IamUser>>>,
    mfaDevices: string -> Outcome<MfaDeviceList>,
    groupListing: Outcome<seq<SecurityGroup>>,
    groupDescription: string -> Outcome<seq<SecurityGroup>>)

  datatype Domain = S3 | Iam | Ec2

  function ServiceName(d: Domain): string
  {
    match d
    case S3 => S3Service
    case Iam => IamService
    case Ec2 => Ec2Service
  }

  /** The resource ids a domain's auditor lists. */
  function Listing(p: Provider, d: Domain): seq<string>
  {
    match d
    case S3 => ListBuckets(p.bucketListing)
    case Iam => ListedUsers(p.userPages)
    case Ec2 => ListSecurityGroups(p.groupListing)
  }

  /** The outcome of a domain's check on one resource id. */
  function Audit(p: Provider, d: Domain, id: string): (c: CheckOutcome)
    ensures d != Ec2 ==> c.Done?
    ensures c.Done? ==> c.data.awsService == ServiceName(d) && c.data.resourceId == id
  {
    match d
    case S3 => Done(CheckBucketVersioning(id, p.bucketVersioning(id)))
    case Iam => Done(CheckMfaEnabled(id, p.mfaDevices(id)))
    case Ec2 => SshVerdict(id, p.groupDescription(id))
  }

  /** What a scan, or the rest of one, yields: the verdicts added to the
      session, or the exception that ended it. */
  datatype ScanResult = Batch(verdicts: seq<AuditData>) | Aborted(exception: string)

  /** `done` followed by what `rest` yields. */
  function Prepend(done: seq<AuditData>, rest: ScanResult): ScanResult
  {
    match rest
    case Batch(vs) => Batch(done + vs)
    case Aborted(_) => rest
  }

  /** `first`, and then, unless it was ended by an exception, `rest`. */
  function Then(first: ScanResult, rest: ScanResult): ScanResult
  {
    match first
    case Batch(vs) => Prepend(vs, rest)
    case Aborted(_) => first
  }

  /** The checks of one domain on `ids`, in order, up to the first exception. */
  function DomainVerdicts(p: Provider, d: Domain, ids: seq<string>): ScanResult
  {
    if ids == [] then Batch([])
    else
      match Audit(p, d, ids[0])
      case Raised(e) => Aborted(e)
      case Done(v) => Prepend([v], DomainVerdicts(p, d, ids[1..]))
  }

  /** `run_full_audit`: the three domains in their fixed order. */
  function FullScan(p: Provider): ScanResult
  {
    Then(DomainVerdicts(p, S3, Listing(p, S3)),
         Then(DomainVerdicts(p, Iam, Listing(p, Iam)),
              DomainVerdicts(p, Ec2, Listing(p, Ec2))))
  }

  /** The rows built from the verdicts: the k-th verdict of the scan gets the
      clock reading `clock(k)`. */
  function Stamp(verdicts: seq<AuditData>, clock: nat -> int): (rows: seq<AuditResult>)
    ensures |rows| == |verdicts|
    ensures forall k :: 0 <= k < |rows| ==> rows[k] == NewAuditResult(verdicts[k], clock(k))
  {
    seq(|verdicts|, k requires 0 <= k < |verdicts| => NewAuditResult(verdicts[k], clock(k)))
  }

  lemma PrependPrepend(a: seq<AuditData>, b: seq<AuditData>, rest: ScanResult)
    ensures Prepend(a, Prepend(b, rest)) == Prepend(a + b, rest)
  {
    if rest.Batch? {
      assert a + (b + rest.verdicts) == (a + b) + rest.verdicts;
    }
  }

  /** Auditing the first id of a domain, followed by the rest of the scan. */
  lemma ThenStep(p: Provider, d: Domain, ids: seq<string>, rest: ScanResult)
    requires ids != []
    ensures Audit(p, d, ids[0]).Raised? ==>
      Then(DomainVerdicts(p, d, ids), rest) == Aborted(Audit(p, d, ids[0]).exception)
    ensures Audit(p, d, ids[0]).Done? ==>
      Then(DomainVerdicts(p, d, ids), rest) ==
      Prepend([Audit(p, d, ids[0]).data], Then(DomainVerdicts(p, d, ids[1..]), rest))
  {
    var tail := DomainVerdicts(p, d, ids[1..]);
    if Audit(p, d, ids[0]).Done? && tail.Batch? {
      PrependPrepend([Audit(p, d, ids[0]).data], tail.verdicts, rest);
    }
  }

  /** A domain yields one verdict per listed id, in listing order, each the
      check's verdict on that id; it is ended by an exception exactly when
      the check on some listed id raises one. */
  lemma {:induction false} DomainVerdictsShape(p: Provider, d: Domain, ids: seq<string>)
    ensures DomainVerdicts(p, d, ids).Aborted? <==> exists i :: 0 <= i < |ids| && Audit(p, d, ids[i]).Raised?
    ensures DomainVerdicts(p, d, ids).Batch? ==>
      var vs := DomainVerdicts(p, d, ids).verdicts;
      |vs| == |ids| && forall i :: 0 <= i < |ids| ==> Audit(p, d, ids[i]) == Done(vs[i])
  {
    if ids != [] {
      DomainVerdictsShape(p, d, ids[1..]);
      if Audit(p, d, ids[0]).Done? {
        var tail := DomainVerdicts(p, d, ids[1..]);
        if tail.Aborted? {
          var i :| 0 <= i < |ids[1..]| && Audit(p, d, ids[1..][i]).Raised?;
          assert ids[i + 1] == ids[1..][i];
        } else {
          forall i | 0 <= i < |ids| ensures Audit(p, d, ids[i]).Done? {
            if i > 0 { assert ids[i] == ids[1..][i - 1]; }
          }
        }
      }
    }
  }

  /** Only the EC2 check can end a scan early. */
  lemma NoExceptionOutsideEc2(p: Provider, d: Domain, ids: seq<string>)
    requires d != Ec2
    ensures DomainVerdicts(p, d, ids).Batch?
  {
    DomainVerdictsShape(p, d, ids);
  }

  /** Checks that agree on every id yield the same verdicts. */
  lemma {:induction false} SameChecksSameVerdicts(p: Provider, q: Provider, d: Domain, ids: seq<string>)
    requires forall id :: Audit(p, d, id) == Audit(q, d, id)
    ensures DomainVerdicts(q, d, ids) == DomainVerdicts(p, d, ids)
  {
    if ids != [] {
      SameChecksSameVerdicts(p, q, d, ids[1..]);
    }
  }

  /** A scan is the S3 verdicts, then the IAM verdicts, then the EC2
      verdicts; only the EC2 part can end it. */
  lemma FullScanParts(p: Provider)
    ensures DomainVerdicts(p, S3, Listing(p, S3)).Batch?
    ensures DomainVerdicts(p, Iam, Listing(p, Iam)).Batch?
    ensures FullScan(p).Aborted? ==> FullScan(p) == DomainVerdicts(p, Ec2, Listing(p, Ec2))
    ensures FullScan(p).Batch? <==> DomainVerdicts(p, Ec2, Listing(p, Ec2)).Batch?
    ensures FullScan(p).Batch? ==>
      FullScan(p).verdicts == DomainVerdicts(p, S3, Listing(p, S3)).verdicts
                              + DomainVerdicts(p, Iam, Listing(p, Iam)).verdicts
                              + DomainVerdicts(p, Ec2, Listing(p, Ec2)).verdicts
  {
    var s3, iam, ec2 := DomainVerdicts(p, S3, Listing(p, S3)), DomainVerdicts(p, Iam, Listing(p, Iam)),
                        DomainVerdicts(p, Ec2, Listing(p, Ec2));
    NoExceptionOutsideEc2(p, S3, Listing(p, S3));
    NoExceptionOutsideEc2(p, Iam, Listing(p, Iam));
    if ec2.Batch? {
      assert s3.verdicts + (iam.verdicts + ec2.verdicts) == s3.verdicts + iam.verdicts + ec2.verdicts;
    }
  }

  /** A completed scan holds |buckets| + |users| + |groups| verdicts, one
      per listed id; with `FullScanParts` and `DomainVerdictsShape` this
      places every verdict: S3 first, then IAM, then EC2, each domain in
      listing order. */
  lemma FullScanCount(p: Provider)
    ensures FullScan(p).Batch? ==>
      |FullScan(p).verdicts| == |Listing(p, S3)| + |Listing(p, Iam)| + |Listing(p, Ec2)|
  {
    FullScanParts(p);
    DomainVerdictsCount(p, S3, Listing(p, S3));
    DomainVerdictsCount(p, Iam, Listing(p, Iam));
    DomainVerdictsCount(p, Ec2, Listing(p, Ec2));
  }

  /** Every verdict of a completed domain names that domain's service. */
  lemma DomainServices(p: Provider, d: Domain, ids: seq<string>)
    ensures DomainVerdicts(p, d, ids).Batch? ==>
      var vs := DomainVerdicts(p, d, ids).verdicts;
      |vs| == |ids| && forall i :: 0 <= i < |vs| ==> vs[i].awsService == ServiceName(d)
  {
    DomainVerdictsShape(p, d, ids);
    if DomainVerdicts(p, d, ids).Batch? {
      var vs := DomainVerdicts(p, d, ids).verdicts;
      forall i | 0 <= i < |vs| ensures vs[i].awsService == ServiceName(d) {
        assert Audit(p, d, ids[i]) == Done(vs[i]);
      }
    }
  }

  /** In a completed scan the S3 verdicts are exactly those before position
      |buckets|, and the EC2 verdicts exactly those from |buckets| + |users|. */
  lemma FullScanServices(p: Provider)
    ensures FullScan(p).Batch? ==>
      var vs := FullScan(p).verdicts;
      var b, u := |Listing(p, S3)|, |Listing(p, Iam)|;
      forall i :: 0 <= i < |vs| ==>
        && (vs[i].awsService == S3Service <==> i < b)
        && (vs[i].awsService == Ec2Service <==> b + u <= i)
  {
    FullScanParts(p);
    if FullScan(p).Batch? {
      var vb := DomainVerdicts(p, S3, Listing(p, S3)).verdicts;
      var vu := DomainVerdicts(p, Iam, Listing(p, Iam)).verdicts;
      var vg := DomainVerdicts(p, Ec2, Listing(p, Ec2)).verdicts;
      DomainServices(p, S3, Listing(p, S3));
      DomainServices(p, Iam, Listing(p, Iam));
      DomainServices(p, Ec2, Listing(p, Ec2));
      assert S3Service[0] != Ec2Service[0] && IamService[0] != Ec2Service[0] && IamService[0] != S3Service[0];
      var vs := FullScan(p).verdicts;
      forall i | 0 <= i < |vs|
        ensures && (vs[i].awsService == S3Service <==> i < |vb|)
                && (vs[i].awsService == Ec2Service <==> |vb| + |vu| <= i)
      {
        if i < |vb| {
          assert vs[i] == vb[i];
        } else if i < |vb| + |vu| {
          assert vs[i] == vu[i - |vb|];
        } else {
          assert vs[i] == vg[i - |vb| - |vu|];
        }
      }
    }
  }

  /** A scan is ended by an exception exactly when the check on some listed
      security group raises one. */
  lemma FullScanAbortsIff(p: Provider)
    ensures FullScan(p).Aborted? <==>
      exists i :: 0 <= i < |Listing(p, Ec2)| && Audit(p, Ec2, Listing(p, Ec2)[i]).Raised?
  {
    FullScanParts(p);
    DomainVerdictsShape(p, Ec2, Listing(p, Ec2));
  }

  /** When the bucket listing fails, the scan audits no bucket, and the IAM
      and EC2 verdicts are the ones it would otherwise have produced. */
  lemma BucketListingFailureSkipsOnlyS3(p: Provider, message: string)
    ensures var q := p.(bucketListing := Err(message));
      && Listing(q, S3) == []
      && (FullScan(q).Aborted? <==> FullScan(p).Aborted?)
      && (FullScan(p).Batch? ==>
            && |Listing(p, S3)| <= |FullScan(p).verdicts|
            && FullScan(q) == Batch(FullScan(p).verdicts[|Listing(p, S3)|..]))
  {
    var q := p.(bucketListing := Err(message));
    FullScanParts(p);
    FullScanParts(q);
    SameChecksSameVerdicts(p, q, Iam, Listing(p, Iam));
    SameChecksSameVerdicts(p, q, Ec2, Listing(p, Ec2));
    if FullScan(p).Batch? {
      var vb := DomainVerdicts(p, S3, Listing(p, S3)).verdicts;
      var rest := DomainVerdicts(p, Iam, Listing(p, Iam)).verdicts + DomainVerdicts(p, Ec2, Listing(p, Ec2)).verdicts;
      DomainVerdictsCount(p, S3, Listing(p, S3));
      assert FullScan(p).verdicts == vb + rest;
      assert FullScan(q).verdicts == [] + rest;
    }
  }

  /** A completed domain holds one verdict per listed id. */
  lemma DomainVerdictsCount(p: Provider, d: Domain, ids: seq<string>)
    ensures DomainVerdicts(p, d, ids).Batch? ==> |DomainVerdicts(p, d, ids).verdicts| == |ids|
  {
    DomainVerdictsShape(p, d, ids);
  }

  /** Cutting the middle part out of three concatenated parts. */
  lemma DropMiddle(a: seq<AuditData>, b: seq<AuditData>, c: seq<AuditData>)
    ensures |a| + |b| <= |a + b + c|
    ensures (a + b + c)[..|a|] + (a + b + c)[|a| + |b|..] == a + c
  {
    assert (a + b + c)[..|a|] == a;
    assert (a + b + c)[|a| + |b|..] == c;
  }

  /** When the user listing fails, the scan audits no user, and the S3 and
      EC2 verdicts are the ones it would otherwise have produced. */
  lemma UserListingFailureSkipsOnlyIam(p: Provider, pages: seq<Outcome<seq<IamUser>>>)
    requires !AllPagesOk(pages)
    ensures var q := p.(userPages := pages);
      && Listing(q, Iam) == []
      && (FullScan(q).Aborted? <==> FullScan(p).Aborted?)
      && (FullScan(p).Batch? ==>
            var vs := FullScan(p).verdicts;
            var b, u := |Listing(p, S3)|, |Listing(p, Iam)|;
            && b + u <= |vs|
            && FullScan(q) == Batch(vs[..b] + vs[b + u..]))
  {
    var q := p.(userPages := pages);
    assert Listing(q, Iam) == [];
    FullScanParts(p);
    FullScanParts(q);
    SameChecksSameVerdicts(p, q, S3, Listing(p, S3));
    SameChecksSameVerdicts(p, q, Ec2, Listing(p, Ec2));
    if FullScan(p).Batch? {
      var vb := DomainVerdicts(p, S3, Listing(p, S3)).verdicts;
      var vu := DomainVerdicts(p, Iam, Listing(p, Iam)).verdicts;
      var vg := DomainVerdicts(p, Ec2, Listing(p, Ec2)).verdicts;
      DomainVerdictsCount(p, S3, Listing(p, S3));
      DomainVerdictsCount(p, Iam, Listing(p, Iam));
      DropMiddle(vb, vu, vg);
      assert FullScan(q).verdicts == vb + [] + vg;
      assert vb + [] + vg == vb + vg;
    }
  }

  /** Auditing the id at position `i` of a domain's listing moves its
      verdict from the rest of the scan to the part already done. */
  lemma Advance(p: Provider, d: Domain, ids: seq<string>, i: nat, done: seq<AuditData>, rest: ScanResult)
    requires i < |ids| && Audit(p, d, ids[i]).Done?
    ensures Prepend(done, Then(DomainVerdicts(p, d, ids[i..]), rest)) ==
            Prepend(done + [Audit(p, d, ids[i]).data], Then(DomainVerdicts(p, d, ids[i + 1..]), rest))
  {
    ThenStep(p, d, ids[i..], rest);
    assert ids[i..][1..] == ids[i + 1..];
    PrependPrepend(done, [Audit(p, d, ids[i]).data], Then(DomainVerdicts(p, d, ids[i + 1..]), rest));
  }

  /** A domain whose ids are all audited leaves only the rest of the scan. */
  lemma Finish(p: Provider, d: Domain, ids: seq<string>, done: seq<AuditData>, rest: ScanResult)
    ensures Prepend(done, Then(DomainVerdicts(p, d, ids[|ids|..]), rest)) == Prepend(done, rest)
  {
    assert ids[|ids|..] == [];
    PrependPrepend(done, [], rest);
    assert done + [] == done;
  }

  lemma StampAppend(done: seq<AuditData>, data: AuditData, clock: nat -> int)
    ensures Stamp(done + [data], clock) == Stamp(done, clock) + [NewAuditResult(data, clock(|done|))]
  {
  }

  /** The loop of one domain that cannot raise (S3 or IAM): each listed id's
      verdict is added to the session, stamped with the next clock reading,
      so the verdicts done afterwards are those before it followed by this
      domain's. */
  method AddDomain(p: Provider, d: Domain, ids: seq<string>, clock: nat -> int,
                   pending: seq<AuditResult>, ghost done: seq<AuditData>)
    returns (pending': seq<AuditResult>, ghost done': seq<AuditData>)
    requires d != Ec2
    requires pending == Stamp(done, clock)
    ensures DomainVerdicts(p, d, ids).Batch?
    ensures done' == done + DomainVerdicts(p, d, ids).verdicts
    ensures pending' == Stamp(done', clock)
    ensures |pending'| == |pending| + |ids|
  {
    NoExceptionOutsideEc2(p, d, ids);
    var none := Batch([]);
    pending', done' := pending, done;
    assert ids[0..] == ids;
    var i := 0;
    while i < |ids|
      invariant 0 <= i <= |ids|
      invariant pending' == Stamp(done', clock)
      invariant |pending'| == |pending| + i
      invariant Prepend(done, Then(DomainVerdicts(p, d, ids), none)) ==
                Prepend(done', Then(DomainVerdicts(p, d, ids[i..]), none))
    {
      var audit := Audit(p, d, ids[i]).data;
      Advance(p, d, ids, i, done', none);
      StampAppend(done', audit, clock);
      pending' := pending' + [NewAuditResult(audit, clock(|pending'|))];
      done' := done' + [audit];
      i := i + 1;
    }
    Finish(p, d, ids, done', none);
    var vs := DomainVerdicts(p, d, ids).verdicts;
    assert vs + [] == vs && done' + [] == done';
  }

  /** `run_full_audit`: audits every listed bucket, user and security group in
      that order, adding each verdict to the session as a row stamped with
      the clock, and commits the rows once, after the last domain. Until that
      commit the store is untouched; an exception from a check ends the scan
      with nothing committed. */
  method RunFullAudit(store: AuditStore, p: Provider, clock: nat -> int) returns (raised: Option<string>)
    requires store.Valid()
    modifies store
    ensures store.Valid()
    ensures FullScan(p).Batch? ==>
      && raised == None
      && store.rows == old(store.rows) + AssignIds(Stamp(FullScan(p).verdicts, clock), old(store.nextId))
      && store.nextId == old(store.nextId) + |FullScan(p).verdicts|
    ensures FullScan(p).Aborted? ==>
      && raised == Some(FullScan(p).exception)
      && store.rows == old(store.rows) && store.nextId == old(store.nextId)
  {
    var pending: seq<AuditResult> := [];
    ghost var done: seq<AuditData> := [];
    ghost var scan := FullScan(p);
    ghost var afterIam := DomainVerdicts(p, Ec2, Listing(p, Ec2));
    ghost var afterS3 := Then(DomainVerdicts(p, Iam, Listing(p, Iam)), afterIam);
    assert scan == Prepend(done, Then(DomainVerdicts(p, S3, Listing(p, S3)), afterS3)) by {
      PrependPrepend([], [], Then(DomainVerdicts(p, S3, Listing(p, S3)), afterS3));
    }

    // --- S3 ---
    var buckets := ListBuckets(p.bucketListing);
    ghost var before := done;
    pending, done := AddDomain(p, S3, buckets, clock, pending, done);
    PrependPrepend(before, DomainVerdicts(p, S3, buckets).verdicts, afterS3);
    assert scan == Prepend(done, afterS3);

    // --- IAM ---
    var users := ListUsers(p.userPages);
    before := done;
    pending, done := AddDomain(p, Iam, users, clock, pending, done);
    PrependPrepend(before, DomainVerdicts(p, Iam, users).verdicts, afterIam);
    assert scan == Prepend(done, afterIam);

    // --- EC2 ---
    var groups := ListSecurityGroups(p.groupListing);
    assert groups[0..] == groups;
    var k := 0;
    while k < |groups|
      invariant 0 <= k <= |groups|
      invariant store.rows == old(store.rows) && store.nextId == old(store.nextId)
      invariant pending == Stamp(done, clock)
      invariant scan == Prepend(done, DomainVerdicts(p, Ec2, groups[k..]))
    {
      var outcome := CheckSshOpenToWorld(groups[k], p.groupDescription(groups[k]));
      if outcome.Raised? {
        assert groups[k..][0] == groups[k];
        return Some(outcome.exception);
      }
      assert groups[k..][1..] == groups[k + 1..];
      PrependPrepend(done, [outcome.data], DomainVerdicts(p, Ec2, groups[k + 1..]));
      StampAppend(done, outcome.data, clock);
      pending := pending + [NewAuditResult(outcome.data, clock(|pending|))];
      done := done + [outcome.data];
      k := k + 1;
    }
    assert scan == Batch(done) by {
      assert groups[k..] == [];
      assert done + [] == done;
    }

    store.Commit(pending);
    raised := None;
  }
}
