/** The tables the advisor service writes, as finite maps over natural keys.

    A rule is named by its unique rule id, and an upload by its host, org and source; the
    surrogate row ids of the database carry no more information than these keys. */
module Tables {

  datatype Option<+T> = None | Some(value: T) {
    function GetOr(default: T): T {
      match this
      case None => default
      case Some(v) => v
    }
  }

  type RuleId = string
  type HostId = string
  type OrgId = string
  type Time = int

  /** The unique key of a current report: org, rule and host. */
  datatype ReportKey = ReportKey(org: OrgId, rule: RuleId, host: HostId)

  datatype UploadKey = UploadKey(host: HostId, org: OrgId, source: string)

  datatype Report = Report(account: Option<string>, upload: UploadKey, details: string, impacted: Option<Time>)

  datatype Upload = Upload(
    account: Option<string>, checkedOn: Time, satellite: bool, systemType: string, current: bool)

  /** The unique key of an acknowledgement of one rule on one host. */
  datatype HostAck = HostAck(rule: RuleId, org: OrgId, host: HostId)

  type Reports = map<ReportKey, Report>
  type Uploads = map<UploadKey, Upload>

  datatype RuleInfo = RuleInfo(active: bool)

  /** The rules known to the database. */
  type Catalogue = map<RuleId, RuleInfo>

  /** Two tables hold the same entry, or both hold none, under one key. */
  ghost predicate SameAt<K, V>(a: map<K, V>, b: map<K, V>, k: K) {
    && (k in a <==> k in b)
    && (k in a ==> a[k] == b[k])
  }

  lemma SameEverywhere<K(!new), V>(a: map<K, V>, b: map<K, V>)
    requires forall k :: SameAt(a, b, k)
    ensures a == b
  {
    assert forall k :: k in a ==> SameAt(a, b, k);
    assert forall k :: k in b ==> SameAt(a, b, k);
  }
}
