/**
 * The three service auditors (app/auditor.py): for each domain, the listing
 * of resource ids and the per-resource check that turns a provider response
 * into one verdict. Provider calls are not made here: their results are
 * given as `Outcome` values, `Err` standing for a caught ClientError.
 */
module Auditor {
  import opened Models
  import Format

  const S3Service := "s3"
  const IamService := "iam"
  const Ec2Service := "ec2"

  const VersioningCheck := "bucket_versioning_check"
  const MfaCheck := "iam_user_mfa_check"
  const SshCheck := "sg_ssh_open_check"

  /** Every describe failure is reported with details starting with this. */
  const ErrorReportPrefix := "Error auditing "

  predicate IsErrorReport(details: string)
  {
    |ErrorReportPrefix| <= |details| && details[..|ErrorReportPrefix|] == ErrorReportPrefix
  }

  /** The details end with the text of the provider's error. */
  predicate EndsWith(details: string, message: string)
  {
    |message| <= |details| && details[|details| - |message|..] == message
  }

  /** A check either returns its verdict or lets a Python exception escape
      (one that is not a ClientError and so is not caught). */
  datatype CheckOutcome = Done(data: AuditData) | Raised(exception: string)

  const TypeError := "TypeError"
  const IndexError := "IndexError"

  // ---------------------------------------------------------------- S3

  datatype Bucket = Bucket(name: string)
  /** The `list_buckets` response; its "Buckets" key may be absent. */
  datatype BucketList = BucketList(buckets: Option<seq<Bucket>>)
  /** The `get_bucket_versioning` response; its "Status" key may be absent. */
  datatype BucketVersioning = BucketVersioning(status: Option<string>)

  /** `S3Auditor.list_buckets`: the bucket names, or none when listing fails. */
  function ListBuckets(response: Outcome<BucketList>): (names: seq<string>)
    ensures response.Err? ==> names == []
    ensures response.Ok? && response.value.buckets.None? ==> names == []
    ensures response.Ok? && response.value.buckets.Some? ==>
      var bs := response.value.buckets.value;
      |names| == |bs| && forall i :: 0 <= i < |bs| ==> names[i] == bs[i].name
  {
    match response
    case Err(_) => []
    case Ok(list) =>
      var bs := if list.buckets.Some? then list.buckets.value else [];
      seq(|bs|, i requires 0 <= i < |bs| => bs[i].name)
  }

  /** The versioning status, "Disabled" when the response has none. */
  function VersioningStatus(response: BucketVersioning): string
  {
    if response.status.Some? then response.status.value else "Disabled"
  }

  const VersioningDetailsPrefix := "Versioning status is: "

  /** `S3Auditor.check_bucket_versioning`. */
  function CheckBucketVersioning(bucket: string, response: Outcome<BucketVersioning>): (d: AuditData)
    ensures d.awsService == S3Service && d.resourceId == bucket && d.checkName == VersioningCheck
    ensures d.isCompliant <==> response.Ok? && VersioningStatus(response.value) == "Enabled"
    ensures response.Ok? ==>
      |VersioningDetailsPrefix| <= |d.details| &&
      d.details[|VersioningDetailsPrefix|..] == VersioningStatus(response.value)
    ensures response.Err? ==> EndsWith(d.details, response.message)
    ensures IsErrorReport(d.details) <==> response.Err?
  {
    match response
    case Ok(r) =>
      var status := VersioningStatus(r);
      assert (VersioningDetailsPrefix + status)[0] != ErrorReportPrefix[0];
      AuditData(S3Service, bucket, VersioningCheck, status == "Enabled", VersioningDetailsPrefix + status)
    case Err(e) =>
      AuditData(S3Service, bucket, VersioningCheck, false, "Error auditing bucket: " + e)
  }

  // ---------------------------------------------------------------- IAM

  datatype IamUser = IamUser(userName: string)
  datatype MfaDevice = MfaDevice(serialNumber: string)
  /** The `list_mfa_devices` response; its "MFADevices" key may be absent. */
  datatype MfaDeviceList = MfaDeviceList(mfaDevices: Option<seq<MfaDevice>>)

  /** The names on the pages of a user listing, in page order. */
  function PageNames(pages: seq<Outcome<seq<IamUser>>>): seq<string>
  {
    if pages == [] then []
    else
      var last := pages[|pages| - 1];
      PageNames(pages[..|pages| - 1]) + (if last.Ok? then UserNames(last.value) else [])
  }

  function UserNames(users: seq<IamUser>): (names: seq<string>)
    ensures |names| == |users| && forall i :: 0 <= i < |users| ==> names[i] == users[i].userName
  {
    seq(|users|, i requires 0 <= i < |users| => users[i].userName)
  }

  predicate AllPagesOk(pages: seq<Outcome<seq<IamUser>>>)
  {
    forall k :: 0 <= k < |pages| ==> pages[k].Ok?
  }

  /** What `IAMAuditor.list_users` returns for the pages the paginator
      yields: all names, or none when fetching some page fails. */
  function ListedUsers(pages: seq<Outcome<seq<IamUser>>>): seq<string>
  {
    if AllPagesOk(pages) then PageNames(pages) else []
  }

  /** Pagination is transparent: splitting the listing into pages differently
      does not change the names listed. */
  lemma {:induction false} PageNamesAppend(a: seq<Outcome<seq<IamUser>>>, b: seq<Outcome<seq<IamUser>>>)
    ensures PageNames(a + b) == PageNames(a) + PageNames(b)
    decreases |b|
  {
    if b == [] {
      assert a + b == a;
    } else {
      var b', last := b[..|b| - 1], b[|b| - 1];
      var names := if last.Ok? then UserNames(last.value) else [];
      assert (a + b)[..|a + b| - 1] == a + b';
      assert (a + b)[|a + b| - 1] == last;
      assert PageNames(a + b) == PageNames(a + b') + names;
      assert PageNames(b) == PageNames(b') + names;
      PageNamesAppend(a, b');
      assert PageNames(a) + PageNames(b') + names == PageNames(a) + (PageNames(b') + names);
    }
  }

  /** Every name listed belongs to some user on some page, and every user on
      a page is listed. */
  lemma {:induction false} PageNamesMembership(pages: seq<Outcome<seq<IamUser>>>, name: string)
    requires AllPagesOk(pages)
    ensures name in PageNames(pages) <==>
      exists k, j :: 0 <= k < |pages| && 0 <= j < |pages[k].value| && pages[k].value[j].userName == name
  {
    if pages != [] {
      var init := pages[..|pages| - 1];
      var last := pages[|pages| - 1];
      PageNamesMembership(init, name);
      if name in PageNames(pages) {
        if name in PageNames(init) {
          var k, j :| 0 <= k < |init| && 0 <= j < |init[k].value| && init[k].value[j].userName == name;
          assert pages[k] == init[k];
        } else {
          var j :| 0 <= j < |last.value| && UserNames(last.value)[j] == name;
        }
      } else {
        forall k, j | 0 <= k < |pages| && 0 <= j < |pages[k].value|
          ensures pages[k].value[j].userName != name
        {
          if k < |init| {
            assert pages[k] == init[k];
          } else {
            assert UserNames(last.value)[j] == name ==> name in PageNames(pages);
          }
        }
      }
    }
  }

  /** `IAMAuditor.list_users`: walks the pages and their users in order,
      appending each name; a page that cannot be fetched discards them all. */
  method ListUsers(pages: seq<Outcome<seq<IamUser>>>) returns (users: seq<string>)
    ensures users == ListedUsers(pages)
    ensures !AllPagesOk(pages) ==> users == []
  {
    users := [];
    var k := 0;
    while k < |pages|
      invariant 0 <= k <= |pages|
      invariant AllPagesOk(pages[..k])
      invariant users == PageNames(pages[..k])
    {
      var page := pages[k];
      if page.Err? {
        return [];
      }
      var j := 0;
      while j < |page.value|
        invariant 0 <= j <= |page.value|
        invariant users == PageNames(pages[..k]) + UserNames(page.value[..j])
      {
        users := users + [page.value[j].userName];
        j := j + 1;
      }
      assert page.value[..j] == page.value;
      assert pages[..k + 1][..k] == pages[..k];
      k := k + 1;
    }
    assert pages[..k] == pages;
  }

  function DeviceCount(response: MfaDeviceList): nat
  {
    if response.mfaDevices.Some? then |response.mfaDevices.value| else 0
  }

  const MfaDetailsPrefix := "User has "
  const MfaDetailsSuffix := " MFA device(s) enabled."

  function MfaDetails(count: nat): string
  {
    MfaDetailsPrefix + Format.NatToString(count) + MfaDetailsSuffix
  }

  /** Reads the device count back out of the details of an MFA verdict. */
  function CountInMfaDetails(details: string): Option<nat>
  {
    var n := |details|;
    if |MfaDetailsPrefix| + |MfaDetailsSuffix| <= n
       && details[..|MfaDetailsPrefix|] == MfaDetailsPrefix
       && details[n - |MfaDetailsSuffix|..] == MfaDetailsSuffix
    then
      var digits := details[|MfaDetailsPrefix|..n - |MfaDetailsSuffix|];
      if Format.AllDigits(digits) then Some(Format.DigitsValue(digits)) else None
    else None
  }

  /** `IAMAuditor.check_mfa_enabled`. */
  function CheckMfaEnabled(username: string, response: Outcome<MfaDeviceList>): (d: AuditData)
    ensures d.awsService == IamService && d.resourceId == username && d.checkName == MfaCheck
    ensures d.isCompliant <==> response.Ok? && DeviceCount(response.value) > 0
    ensures response.Ok? ==> CountInMfaDetails(d.details) == Some(DeviceCount(response.value))
    ensures response.Err? ==> EndsWith(d.details, response.message)
    ensures IsErrorReport(d.details) <==> response.Err?
  {
    match response
    case Ok(r) =>
      MfaDetailsReportCount(DeviceCount(r));
      assert MfaDetails(DeviceCount(r))[0] != ErrorReportPrefix[0];
      AuditData(IamService, username, MfaCheck, DeviceCount(r) > 0, MfaDetails(DeviceCount(r)))
    case Err(e) =>
      AuditData(IamService, username, MfaCheck, false, "Error auditing user: " + e)
  }

  /** The details of an MFA verdict report the device count. */
  lemma MfaDetailsReportCount(count: nat)
    ensures CountInMfaDetails(MfaDetails(count)) == Some(count)
  {
    var digits := Format.NatToString(count);
    var d := MfaDetails(count);
    var n := |d|;
    assert d[..|MfaDetailsPrefix|] == MfaDetailsPrefix;
    assert d[n - |MfaDetailsSuffix|..] == MfaDetailsSuffix;
    assert d[|MfaDetailsPrefix|..n - |MfaDetailsSuffix|] == digits;
    Format.DigitsValueOfNatToString(count);
  }

  // ---------------------------------------------------------------- EC2

  const SshPort := 22
  const WorldCidr := "0.0.0.0/0"

  datatype IpRange = IpRange(cidrIp: Option<string>)
  /** One ingress rule; "FromPort", "ToPort" and "IpRanges" may be absent. */
  datatype IpPermission = IpPermission(fromPort: Option<int>, toPort: Option<int>, ipRanges: Option<seq<IpRange>>)
  /** One security group; "IpPermissions" may be absent. */
  datatype SecurityGroup = SecurityGroup(groupId: string, ipPermissions: Option<seq<IpPermission>>)

  /** `EC2Auditor.list_security_groups`: the group ids, or none when listing fails. */
  function ListSecurityGroups(response: Outcome<seq<SecurityGroup>>): (ids: seq<string>)
    ensures response.Err? ==> ids == []
    ensures response.Ok? ==>
      |ids| == |response.value| && forall i :: 0 <= i < |ids| ==> ids[i] == response.value[i].groupId
  {
    match response
    case Err(_) => []
    case Ok(groups) => seq(|groups|, i requires 0 <= i < |groups| => groups[i].groupId)
  }

  function PermissionsOf(group: SecurityGroup): seq<IpPermission>
  {
    if group.ipPermissions.Some? then group.ipPermissions.value else []
  }

  function RangesOf(rule: IpPermission): seq<IpRange>
  {
    if rule.ipRanges.Some? then rule.ipRanges.value else []
  }

  /** The range test compares an absent "ToPort" with 22: a TypeError. */
  predicate RangeTestRaises(rule: IpPermission)
  {
    rule.fromPort.Some? && rule.fromPort.value <= SshPort && rule.toPort.None?
  }

  /** The rule admits port 22: it has no "FromPort" (all ports), or its port
      range contains 22. */
  predicate CoversSsh(rule: IpPermission)
  {
    || rule.fromPort.None?
    || (rule.fromPort.value <= SshPort && rule.toPort.Some? && rule.toPort.value >= SshPort)
  }

  predicate HasWorldRange(ranges: seq<IpRange>)
  {
    exists k :: 0 <= k < |ranges| && ranges[k].cidrIp == Some(WorldCidr)
  }

  /** The rule opens port 22 to every address. */
  predicate OpensSsh(rule: IpPermission)
  {
    CoversSsh(rule) && HasWorldRange(RangesOf(rule))
  }

  predicate AnyOpensSsh(rules: seq<IpPermission>)
  {
    exists i :: 0 <= i < |rules| && OpensSsh(rules[i])
  }

  predicate AnyRangeTestRaises(rules: seq<IpPermission>)
  {
    exists i :: 0 <= i < |rules| && RangeTestRaises(rules[i])
  }

  const SshOpenDetails := "Port 22 is open to the world"
  const SshRestrictedDetails := "Port 22 is restricted"

  /** The verdict on a group whose ingress rules are `rules`. */
  function SshRulesVerdict(groupId: string, rules: seq<IpPermission>): (c: CheckOutcome)
    ensures c.Raised? <==> AnyRangeTestRaises(rules)
    ensures c.Raised? ==> c.exception == TypeError
    ensures c.Done? ==>
      && c.data.awsService == Ec2Service && c.data.resourceId == groupId && c.data.checkName == SshCheck
      && (c.data.isCompliant <==> !AnyOpensSsh(rules))
      && c.data.details == (if c.data.isCompliant then SshRestrictedDetails else SshOpenDetails)
      && !IsErrorReport(c.data.details)
  {
    if AnyRangeTestRaises(rules) then Raised(TypeError)
    else
      var open := AnyOpensSsh(rules);
      assert SshOpenDetails[0] != ErrorReportPrefix[0] && SshRestrictedDetails[0] != ErrorReportPrefix[0];
      Done(AuditData(Ec2Service, groupId, SshCheck, !open,
                     if open then SshOpenDetails else SshRestrictedDetails))
  }

  /** What `EC2Auditor.check_ssh_open_to_world` yields for a describe response. */
  function SshVerdict(groupId: string, response: Outcome<seq<SecurityGroup>>): (c: CheckOutcome)
    ensures c.Raised? <==> response.Ok? && (response.value == [] || AnyRangeTestRaises(PermissionsOf(response.value[0])))
    ensures c.Raised? ==> response.Ok? && c.exception == (if response.value == [] then IndexError else TypeError)
    ensures c.Done? ==> c.data.awsService == Ec2Service && c.data.resourceId == groupId && c.data.checkName == SshCheck
    ensures c.Done? ==>
      (!c.data.isCompliant <==> response.Err? || AnyOpensSsh(PermissionsOf(response.value[0])))
    ensures c.Done? ==> (IsErrorReport(c.data.details) <==> response.Err?)
    ensures c.Done? && response.Err? ==> EndsWith(c.data.details, response.message)
    ensures c.Done? && response.Ok? ==>
      c.data.details == (if c.data.isCompliant then SshRestrictedDetails else SshOpenDetails)
  {
    match response
    case Err(e) => Done(AuditData(Ec2Service, groupId, SshCheck, false, "Error auditing SG: " + e))
    case Ok(groups) =>
      if groups == [] then Raised(IndexError) else SshRulesVerdict(groupId, PermissionsOf(groups[0]))
  }

  /** `EC2Auditor.check_ssh_open_to_world`: scans the rules in order, and the
      ranges of each rule that admits port 22, raising a flag at the first
      world-open range of that rule. */
  method CheckSshOpenToWorld(groupId: string, response: Outcome<seq<SecurityGroup>>) returns (c: CheckOutcome)
    ensures c == SshVerdict(groupId, response)
  {
    if response.Err? {
      return Done(AuditData(Ec2Service, groupId, SshCheck, false, "Error auditing SG: " + response.message));
    }
    var groups := response.value;
    if |groups| == 0 {
      return Raised(IndexError);
    }
    var rules := PermissionsOf(groups[0]);
    var open := false;
    var i := 0;
    while i < |rules|
      invariant 0 <= i <= |rules|
      invariant !AnyRangeTestRaises(rules[..i])
      invariant open <==> AnyOpensSsh(rules[..i])
    {
      var rule := rules[i];
      var covers: bool;
      if rule.fromPort.None? {
        covers := true;
      } else if rule.fromPort.value <= SshPort {
        if rule.toPort.None? {
          assert RangeTestRaises(rules[i]);
          return Raised(TypeError);
        }
        covers := rule.toPort.value >= SshPort;
      } else {
        covers := false;
      }
      if covers {
        var ranges := RangesOf(rule);
        var j := 0;
        while j < |ranges|
          invariant 0 <= j <= |ranges|
          invariant open <==> AnyOpensSsh(rules[..i]) || HasWorldRange(ranges[..j])
        {
          if ranges[j].cidrIp == Some(WorldCidr) {
            open := true;
            break;
          }
          j := j + 1;
        }
        assert open <==> AnyOpensSsh(rules[..i]) || OpensSsh(rule) by {
          if open && !AnyOpensSsh(rules[..i]) {
            var k :| 0 <= k < |ranges| && ranges[k].cidrIp == Some(WorldCidr);
          }
        }
      }
      assert rules[..i + 1] == rules[..i] + [rule];
      i := i + 1;
    }
    assert rules[..i] == rules;
    c := SshRulesVerdict(groupId, rules);
  }

  /** A rule that neither opens port 22 to the world nor trips the range test
      never changes the verdict, wherever it stands among the rules. */
  lemma IrrelevantRuleKeepsVerdict(groupId: string, before: seq<IpPermission>, rule: IpPermission, after: seq<IpPermission>)
    requires !RangeTestRaises(rule) && !OpensSsh(rule)
    ensures SshRulesVerdict(groupId, before + [rule] + after) == SshRulesVerdict(groupId, before + after)
  {
    var with := before + [rule] + after;
    var without := before + after;
    // index i of `without` is index Shift(i) of `with`
    assert forall i :: 0 <= i < |without| ==>
      without[i] == with[if i < |before| then i else i + 1];
    assert forall i :: 0 <= i < |with| && i != |before| ==>
      with[i] == without[if i < |before| then i else i - 1];
    assert AnyRangeTestRaises(with) <==> AnyRangeTestRaises(without) by {
      if AnyRangeTestRaises(with) {
        var i :| 0 <= i < |with| && RangeTestRaises(with[i]);
        assert RangeTestRaises(without[if i < |before| then i else i - 1]);
      }
      if AnyRangeTestRaises(without) {
        var i :| 0 <= i < |without| && RangeTestRaises(without[i]);
        assert RangeTestRaises(with[if i < |before| then i else i + 1]);
      }
    }
    assert AnyOpensSsh(with) <==> AnyOpensSsh(without) by {
      if AnyOpensSsh(with) {
        var i :| 0 <= i < |with| && OpensSsh(with[i]);
        assert OpensSsh(without[if i < |before| then i else i - 1]);
      }
      if AnyOpensSsh(without) {
        var i :| 0 <= i < |without| && OpensSsh(without[i]);
        assert OpensSsh(with[if i < |before| then i else i + 1]);
      }
    }
  }

  /** The verdict on a group described with the single ingress rule `rule`. */
  function SingleRuleVerdict(rule: IpPermission): CheckOutcome
  {
    SshVerdict("sg-1", Ok([SecurityGroup("sg-1", Some([rule]))]))
  }

  function Rule(fromPort: Option<int>, toPort: Option<int>, cidr: string): IpPermission
  {
    IpPermission(fromPort, toPort, Some([IpRange(Some(cidr))]))
  }

  /** Four single-rule cases: all ports open to the world, another port
      open to the world, port 22 open to a private range, and port 22 open
      to the world. */
  lemma SshRuleScenarios()
    ensures SingleRuleVerdict(Rule(None, None, WorldCidr)) == Done(AuditData(Ec2Service, "sg-1", SshCheck, false, SshOpenDetails))
    ensures SingleRuleVerdict(Rule(Some(80), Some(80), WorldCidr)) == Done(AuditData(Ec2Service, "sg-1", SshCheck, true, SshRestrictedDetails))
    ensures SingleRuleVerdict(Rule(Some(20), Some(25), "10.0.0.0/8")) == Done(AuditData(Ec2Service, "sg-1", SshCheck, true, SshRestrictedDetails))
    ensures SingleRuleVerdict(Rule(Some(20), Some(25), WorldCidr)) == Done(AuditData(Ec2Service, "sg-1", SshCheck, false, SshOpenDetails))
  {
    assert OpensSsh([Rule(None, None, WorldCidr)][0]) by {
      assert RangesOf(Rule(None, None, WorldCidr))[0].cidrIp == Some(WorldCidr);
    }
    assert OpensSsh([Rule(Some(20), Some(25), WorldCidr)][0]) by {
      assert RangesOf(Rule(Some(20), Some(25), WorldCidr))[0].cidrIp == Some(WorldCidr);
    }
    assert "10.0.0.0/8" != WorldCidr by {
      assert "10.0.0.0/8"[0] != WorldCidr[0];
    }
  }

  /** A rule with a "FromPort" but no "ToPort": the range test raises when
      the "FromPort" is at most 22, and is skipped when it is above. */
  lemma MissingToPortScenarios()
    ensures SingleRuleVerdict(Rule(Some(20), None, WorldCidr)) == Raised(TypeError)
    ensures SingleRuleVerdict(Rule(Some(80), None, WorldCidr)) == Done(AuditData(Ec2Service, "sg-1", SshCheck, true, SshRestrictedDetails))
  {
    assert RangeTestRaises([Rule(Some(20), None, WorldCidr)][0]);
  }

  /** A bucket whose versioning is "Suspended" fails the check, and the
      verdict names the bucket and the S3 service. */
  lemma SuspendedBucketIsNonCompliant()
    ensures var d := CheckBucketVersioning("test-bucket", Ok(BucketVersioning(Some("Suspended"))));
      d.resourceId == "test-bucket" && !d.isCompliant && d.awsService == "s3"
  {
    assert "Suspended" != "Enabled" by { assert "Suspended"[0] != "Enabled"[0]; }
  }

  /** A bucket with no versioning status counts as "Disabled", fails the
      check, and its details say so. */
  lemma MissingStatusIsDisabled(bucket: string)
    ensures var d := CheckBucketVersioning(bucket, Ok(BucketVersioning(None)));
      !d.isCompliant && d.details == "Versioning status is: Disabled"
  {
    assert "Disabled" != "Enabled" by { assert "Disabled"[0] != "Enabled"[0]; }
  }
}
