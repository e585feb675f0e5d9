/** What one successful upload does to the report and upload tables, stated twice: as the
    statements the handler issues in order (plan, insert, update, delete), and as one
    row-by-row description of the tables afterwards. The two are proved equal. */
module Reconcile {
  import opened Tables

  datatype Settings = Settings(
    filterNonRhel: bool, nonRhelIds: seq<RuleId>, filterRhel6: bool, rhel6Ids: seq<RuleId>)

  /** One entry of an uploaded report list; a missing key is None. */
  datatype Reported = Reported(ruleId: Option<RuleId>, details: Option<string>)

  /** One upload, with the two clock readings its handler takes. */
  datatype Request = Request(
    host: HostId, org: OrgId, account: Option<string>, source: string, satellite: bool,
    systemType: string, reports: seq<Reported>, checkedOn: Time, now: Time)

  /** What an upload reads and never writes: the settings and the known rules. */
  datatype Context = Context(settings: Settings, rules: Catalogue)

  /** One report object built for an uploaded entry. */
  datatype Draft = Draft(rule: RuleId, row: Report)

  datatype Plan = Broken | Plan(added: seq<Draft>, known: seq<Draft>, matched: seq<RuleId>)

  // ---------- which rules an upload is about ----------

  function ReportedIds(reports: seq<Reported>): set<RuleId> {
    set r | r in reports && r.ruleId.Some? :: r.ruleId.value
  }

  predicate NonRhelMarked(ctx: Context, req: Request) {
    ctx.settings.filterNonRhel && exists id :: id in ctx.settings.nonRhelIds && id in ReportedIds(req.reports)
  }

  /** The id list the handler settles on. A non-RHEL marker replaces the reported ids by the
      whole settings list; the RHEL6 filter intersects. */
  function EffectiveIds(ctx: Context, req: Request): set<RuleId> {
    var ids := if NonRhelMarked(ctx, req) then set id | id in ctx.settings.nonRhelIds
               else ReportedIds(req.reports);
    var rhel6 := ids * set id | id in ctx.settings.rhel6Ids;
    if ctx.settings.filterRhel6 && rhel6 != {} then rhel6 else ids
  }

  predicate Accepts(ctx: Context, req: Request, r: Reported) {
    r.ruleId.Some? && r.ruleId.value in EffectiveIds(ctx, req) && r.ruleId.value in ctx.rules
  }

  /** The known rules that are both reported and in the effective list. */
  function MatchedRules(ctx: Context, req: Request): set<RuleId> {
    set r | r in req.reports && Accepts(ctx, req, r) :: r.ruleId.value
  }

  // ---------- keys ----------

  predicate Mine(req: Request, k: ReportKey) {
    k.host == req.host && k.org == req.org
  }

  function KeyOf(req: Request, rule: RuleId): ReportKey {
    ReportKey(req.org, rule, req.host)
  }

  function UploadKeyOf(req: Request): UploadKey {
    UploadKey(req.host, req.org, req.source)
  }

  /** The rows of the uploading host and org. */
  function RowsOf(reports: Reports, req: Request): Reports {
    map k | k in reports && Mine(req, k) :: reports[k]
  }

  // ---------- the statements, in the order the handler issues them ----------

  /** The upload constraint: one current upload for each host and source. */
  predicate UploadConflict(uploads: Uploads, req: Request) {
    && UploadKeyOf(req) !in uploads
    && exists k :: k in uploads && k.host == req.host && k.source == req.source && uploads[k].current
  }

  function UpsertUpload(uploads: Uploads, req: Request): Uploads {
    var k := UploadKeyOf(req);
    uploads[k := Upload(req.account, req.checkedOn, req.satellite, req.systemType,
                        k in uploads ==> uploads[k].current)]
  }

  predicate MissingRuleId(req: Request) {
    exists r :: r in req.reports && r.ruleId.None?
  }

  function ImpactedDate(snapshot: Reports, req: Request, rule: RuleId): Option<Time> {
    var k := KeyOf(req, rule);
    if k in snapshot && snapshot[k].impacted.Some? then snapshot[k].impacted else Some(req.now)
  }

  function DraftOf(snapshot: Reports, req: Request, rule: RuleId, details: string): Draft {
    Draft(rule, Report(req.account, UploadKeyOf(req), details, ImpactedDate(snapshot, req, rule)))
  }

  /** One turn of the loop over the uploaded reports. */
  function PlanOne(ctx: Context, snapshot: Reports, req: Request, plan: Plan, r: Reported): Plan {
    if plan.Broken? then Broken
    else if !Accepts(ctx, req, r) then plan
    else if r.details.None? then Broken
    else
      var draft := DraftOf(snapshot, req, r.ruleId.value, r.details.value);
      if KeyOf(req, r.ruleId.value) in snapshot
      then plan.(known := plan.known + [draft], matched := plan.matched + [draft.rule])
      else plan.(added := plan.added + [draft], matched := plan.matched + [draft.rule])
  }

  /** The plan after the first n uploaded reports. */
  function BuildPlan(ctx: Context, snapshot: Reports, req: Request, n: nat): Plan
    requires n <= |req.reports|
  {
    if n == 0 then Plan([], [], [])
    else PlanOne(ctx, snapshot, req, BuildPlan(ctx, snapshot, req, n - 1), req.reports[n - 1])
  }

  /** Insert the drafts in order; None when one of them repeats a key. */
  function InsertAll(reports: Reports, req: Request, drafts: seq<Draft>): Option<Reports> {
    if drafts == [] then Some(reports)
    else
      var last := drafts[|drafts| - 1];
      match InsertAll(reports, req, drafts[..|drafts| - 1])
      case None => None
      case Some(t) => if KeyOf(req, last.rule) in t then None else Some(t[KeyOf(req, last.rule) := last.row])
  }

  /** One update statement: it matches on the account as well as on the unique key, and
      leaves the stored account alone. */
  function UpdateOne(reports: Reports, req: Request, d: Draft): Reports {
    var k := KeyOf(req, d.rule);
    if k in reports && reports[k].account == d.row.account
    then reports[k := Report(reports[k].account, d.row.upload, d.row.details, d.row.impacted)]
    else reports
  }

  function UpdateAll(reports: Reports, req: Request, drafts: seq<Draft>): Reports {
    if drafts == [] then reports
    else UpdateOne(UpdateAll(reports, req, drafts[..|drafts| - 1]), req, drafts[|drafts| - 1])
  }

  function StaleRules(ctx: Context, snapshot: Reports, req: Request): set<RuleId> {
    set k | k in snapshot && k.rule !in EffectiveIds(ctx, req) :: k.rule
  }

  function DeleteRules(reports: Reports, req: Request, rules: set<RuleId>): Reports {
    map k | k in reports && !(Mine(req, k) && k.rule in rules) :: reports[k]
  }

  /** All statements on the report table, run against a table whose rows for this host and
      org do not move meanwhile. None is an exception. */
  function RunStatements(ctx: Context, reports: Reports, req: Request): Option<Reports> {
    var snapshot := RowsOf(reports, req);
    var plan := BuildPlan(ctx, snapshot, req, |req.reports|);
    if MissingRuleId(req) || plan.Broken? then None
    else
      match InsertAll(reports, req, plan.added)
      case None => None
      case Some(t) => Some(DeleteRules(UpdateAll(t, req, plan.known), req, StaleRules(ctx, snapshot, req)))
  }

  // ---------- the row-by-row description ----------

  /** The details of the last uploaded entry for a rule. */
  function LastDetails(reports: seq<Reported>, rule: RuleId): string {
    if reports == [] then ""
    else
      var r := reports[|reports| - 1];
      if r.ruleId == Some(rule) then r.details.GetOr("")
      else LastDetails(reports[..|reports| - 1], rule)
  }

  /** A rule that has no row yet is reported twice among the first n entries. */
  ghost predicate RepeatsFresh(ctx: Context, reports: Reports, req: Request, n: nat)
    requires n <= |req.reports|
  {
    exists i, j ::
      && 0 <= i < j < n
      && Accepts(ctx, req, req.reports[i])
      && req.reports[i].ruleId == req.reports[j].ruleId
      && KeyOf(req, req.reports[i].ruleId.value) !in reports
  }

  ghost predicate MissingDetails(ctx: Context, req: Request, n: nat)
    requires n <= |req.reports|
  {
    exists i :: 0 <= i < n && Accepts(ctx, req, req.reports[i]) && req.reports[i].details.None?
  }

  /** Exactly when the report statements raise. */
  ghost predicate Rejected(ctx: Context, reports: Reports, req: Request) {
    || MissingRuleId(req)
    || MissingDetails(ctx, req, |req.reports|)
    || RepeatsFresh(ctx, reports, req, |req.reports|)
  }

  function PostRow(ctx: Context, reports: Reports, req: Request, k: ReportKey): Report
    requires k in reports || (Mine(req, k) && k.rule in MatchedRules(ctx, req))
  {
    if !Mine(req, k) || k.rule !in MatchedRules(ctx, req) then reports[k]
    else if k !in reports then
      Report(req.account, UploadKeyOf(req), LastDetails(req.reports, k.rule), Some(req.now))
    else if reports[k].account != req.account then reports[k]
    else
      Report(req.account, UploadKeyOf(req), LastDetails(req.reports, k.rule),
             if reports[k].impacted.Some? then reports[k].impacted else Some(req.now))
  }

  function MatchedKeys(ctx: Context, req: Request): set<ReportKey> {
    set rule | rule in MatchedRules(ctx, req) :: KeyOf(req, rule)
  }

  function PostReports(ctx: Context, reports: Reports, req: Request): Reports {
    map k | k in reports.Keys + MatchedKeys(ctx, req) && (Mine(req, k) ==> k.rule in EffectiveIds(ctx, req)) ::
      PostRow(ctx, reports, req, k)
  }

  // ---------- the statements meet the description ----------

  /** Rules accepted among the first n uploaded reports. */
  ghost function MatchedIn(ctx: Context, req: Request, n: nat): set<RuleId>
    requires n <= |req.reports|
  {
    set i | 0 <= i < n && Accepts(ctx, req, req.reports[i]) :: req.reports[i].ruleId.value
  }

  lemma MatchedInStep(ctx: Context, req: Request, n: nat)
    requires 0 < n <= |req.reports|
    ensures Accepts(ctx, req, req.reports[n - 1]) ==>
              MatchedIn(ctx, req, n) == MatchedIn(ctx, req, n - 1) + {req.reports[n - 1].ruleId.value}
    ensures !Accepts(ctx, req, req.reports[n - 1]) ==>
              MatchedIn(ctx, req, n) == MatchedIn(ctx, req, n - 1)
  {
  }

  lemma MatchedInAll(ctx: Context, req: Request)
    ensures MatchedIn(ctx, req, |req.reports|) == MatchedRules(ctx, req)
  {
  }

  /** The plan breaks exactly when an accepted entry has no details, and otherwise lists the
      accepted rules. */
  lemma {:induction false} PlanShape(ctx: Context, snapshot: Reports, req: Request, n: nat)
    requires n <= |req.reports|
    ensures BuildPlan(ctx, snapshot, req, n).Broken? <==> MissingDetails(ctx, req, n)
    ensures BuildPlan(ctx, snapshot, req, n).Plan? ==>
              forall rule :: rule in BuildPlan(ctx, snapshot, req, n).matched <==> rule in MatchedIn(ctx, req, n)
  {
    if n > 0 {
      PlanShape(ctx, snapshot, req, n - 1);
      MatchedInStep(ctx, req, n);
    }
  }

  /** The rows of this host and org in a table are exactly a snapshot. */
  ghost predicate Reads(snapshot: Reports, reports: Reports, req: Request) {
    forall k :: Mine(req, k) ==> SameAt(snapshot, reports, k)
  }

  ghost predicate InsertedThrough(
    ctx: Context, reports: Reports, req: Request, n: nat, t: Reports)
    requires n <= |req.reports|
  {
    forall k ::
      if k !in reports && Mine(req, k) && k.rule in MatchedIn(ctx, req, n)
      then k in t && t[k] == Report(req.account, UploadKeyOf(req), LastDetails(req.reports[..n], k.rule), Some(req.now))
      else SameAt(t, reports, k)
  }

  /** Inserting the new drafts of the first n entries fails exactly on a repeated new
      rule, and otherwise adds one row for each of their rules. */
  lemma {:induction false} InsertMeets(ctx: Context, snapshot: Reports, reports: Reports, req: Request, n: nat)
    requires n <= |req.reports| && Reads(snapshot, reports, req)
    requires BuildPlan(ctx, snapshot, req, n).Plan?
    ensures var ins := InsertAll(reports, req, BuildPlan(ctx, snapshot, req, n).added);
            && (ins.None? <==> RepeatsFresh(ctx, reports, req, n))
            && (ins.Some? ==> InsertedThrough(ctx, reports, req, n, ins.value))
  {
    if n > 0 {
      InsertMeets(ctx, snapshot, reports, req, n - 1);
      RepeatsFreshStep(ctx, reports, req, n);
      var before, after := BuildPlan(ctx, snapshot, req, n - 1), BuildPlan(ctx, snapshot, req, n);
      var r := req.reports[n - 1];
      if Accepts(ctx, req, r) && KeyOf(req, r.ruleId.value) !in snapshot {
        var key := KeyOf(req, r.ruleId.value);
        assert Mine(req, key) && SameAt(snapshot, reports, key);
        assert after.added[..|after.added| - 1] == before.added;
      } else {
        assert after.added == before.added;
        assert Accepts(ctx, req, r) ==> SameAt(snapshot, reports, KeyOf(req, r.ruleId.value));
      }
      var ins := InsertAll(reports, req, after.added);
      if ins.Some? {
        InsertStep(ctx, snapshot, reports, req, n, InsertAll(reports, req, before.added).value, ins.value);
      }
    }
  }

  lemma InsertStep(
    ctx: Context, snapshot: Reports, reports: Reports, req: Request, n: nat, t: Reports, t': Reports)
    requires 0 < n <= |req.reports| && Reads(snapshot, reports, req)
    requires InsertedThrough(ctx, reports, req, n - 1, t)
    requires var r := req.reports[n - 1];
             if Accepts(ctx, req, r) && KeyOf(req, r.ruleId.value) !in snapshot
             then && r.details.Some? && KeyOf(req, r.ruleId.value) !in t
                  && t' == t[KeyOf(req, r.ruleId.value) := DraftOf(snapshot, req, r.ruleId.value, r.details.value).row]
             else t' == t
    ensures InsertedThrough(ctx, reports, req, n, t')
  {
    MatchedInStep(ctx, req, n);
    assert req.reports[..n][..n - 1] == req.reports[..n - 1];
    forall k
      ensures if k !in reports && Mine(req, k) && k.rule in MatchedIn(ctx, req, n)
              then k in t' && t'[k] == Report(req.account, UploadKeyOf(req), LastDetails(req.reports[..n], k.rule),
                  Some(req.now))
              else SameAt(t', reports, k)
    {
      if Mine(req, k) {
        assert k == KeyOf(req, k.rule) && SameAt(snapshot, reports, k);
      }
    }
  }

  lemma RepeatsFreshStep(ctx: Context, reports: Reports, req: Request, n: nat)
    requires 0 < n <= |req.reports|
    ensures RepeatsFresh(ctx, reports, req, n) <==>
              || RepeatsFresh(ctx, reports, req, n - 1)
              || (&& Accepts(ctx, req, req.reports[n - 1])
                  && req.reports[n - 1].ruleId.value in MatchedIn(ctx, req, n - 1)
                  && KeyOf(req, req.reports[n - 1].ruleId.value) !in reports)
  {
    var r := req.reports[n - 1];
    if Accepts(ctx, req, r) && r.ruleId.value in MatchedIn(ctx, req, n - 1) && KeyOf(req, r.ruleId.value) !in reports {
      var i :| 0 <= i < n - 1 && Accepts(ctx, req, req.reports[i]) && req.reports[i].ruleId.value == r.ruleId.value;
      assert req.reports[i].ruleId == req.reports[n - 1].ruleId;
    }
  }

  ghost predicate UpdatedThrough(ctx: Context, snapshot: Reports, req: Request, n: nat, t: Reports, u: Reports)
    requires n <= |req.reports|
  {
    forall k ::
      if k in t && k in snapshot && Mine(req, k) && k.rule in MatchedIn(ctx, req, n) && t[k].account == req.account
      then k in u && u[k] == Report(req.account, UploadKeyOf(req), LastDetails(req.reports[..n], k.rule),
                                    ImpactedDate(snapshot, req, k.rule))
      else SameAt(u, t, k)
  }

  lemma {:induction false} UpdateMeets(ctx: Context, snapshot: Reports, req: Request, n: nat, t: Reports)
    requires n <= |req.reports|
    requires BuildPlan(ctx, snapshot, req, n).Plan?
    ensures UpdatedThrough(ctx, snapshot, req, n, t,
                           UpdateAll(t, req, BuildPlan(ctx, snapshot, req, n).known))
  {
    if n > 0 {
      UpdateMeets(ctx, snapshot, req, n - 1, t);
      var before, after := BuildPlan(ctx, snapshot, req, n - 1), BuildPlan(ctx, snapshot, req, n);
      var r := req.reports[n - 1];
      if Accepts(ctx, req, r) && KeyOf(req, r.ruleId.value) in snapshot {
        assert after.known[..|after.known| - 1] == before.known;
      } else {
        assert after.known == before.known;
      }
      UpdateStep(ctx, snapshot, req, n, t, UpdateAll(t, req, before.known), UpdateAll(t, req, after.known));
    }
  }

  lemma UpdateStep(
    ctx: Context, snapshot: Reports, req: Request, n: nat, t: Reports, u: Reports, u': Reports)
    requires 0 < n <= |req.reports|
    requires UpdatedThrough(ctx, snapshot, req, n - 1, t, u)
    requires var r := req.reports[n - 1];
             if Accepts(ctx, req, r) && KeyOf(req, r.ruleId.value) in snapshot
             then && r.details.Some?
                  && u' == UpdateOne(u, req, DraftOf(snapshot, req, r.ruleId.value, r.details.value))
             else u' == u
    ensures UpdatedThrough(ctx, snapshot, req, n, t, u')
  {
    MatchedInStep(ctx, req, n);
    assert req.reports[..n][..n - 1] == req.reports[..n - 1];
    forall k
      ensures if k in t && k in snapshot && Mine(req, k) && k.rule in MatchedIn(ctx, req, n)
                 && t[k].account == req.account
              then k in u' && u'[k] == Report(req.account, UploadKeyOf(req), LastDetails(req.reports[..n], k.rule),
                                              ImpactedDate(snapshot, req, k.rule))
              else SameAt(u', t, k)
    {
      if Mine(req, k) {
        assert k == KeyOf(req, k.rule);
      }
    }
  }

  /** The statements raise exactly when the upload is rejected, and otherwise leave the
      described table. */
  lemma StatementsMeetDescription(ctx: Context, reports: Reports, req: Request)
    ensures RunStatements(ctx, reports, req) ==
            if Rejected(ctx, reports, req) then None else Some(PostReports(ctx, reports, req))
  {
    var n := |req.reports|;
    var snapshot := RowsOf(reports, req);
    PlanShape(ctx, snapshot, req, n);
    var plan := BuildPlan(ctx, snapshot, req, n);
    if !MissingRuleId(req) && plan.Plan? {
      InsertMeets(ctx, snapshot, reports, req, n);
      var ins := InsertAll(reports, req, plan.added);
      if ins.Some? {
        UpdateMeets(ctx, snapshot, req, n, ins.value);
        StatementsEnd(ctx, reports, req, ins.value, UpdateAll(ins.value, req, plan.known));
      }
    }
  }

  lemma StatementsEnd(ctx: Context, reports: Reports, req: Request, t: Reports, u: Reports)
    requires InsertedThrough(ctx, reports, req, |req.reports|, t)
    requires UpdatedThrough(ctx, RowsOf(reports, req), req, |req.reports|, t, u)
    ensures DeleteRules(u, req, StaleRules(ctx, RowsOf(reports, req), req)) == PostReports(ctx, reports, req)
  {
    MatchedInAll(ctx, req);
    forall k
      ensures SameAt(DeleteRules(u, req, StaleRules(ctx, RowsOf(reports, req), req)), PostReports(ctx, reports, req), k)
    {
      StatementsAtKey(ctx, reports, req, t, u, k);
    }
    SameEverywhere(DeleteRules(u, req, StaleRules(ctx, RowsOf(reports, req), req)), PostReports(ctx, reports, req));
  }

  lemma StatementsAtKey(ctx: Context, reports: Reports, req: Request, t: Reports, u: Reports, k: ReportKey)
    requires InsertedThrough(ctx, reports, req, |req.reports|, t)
    requires UpdatedThrough(ctx, RowsOf(reports, req), req, |req.reports|, t, u)
    requires MatchedIn(ctx, req, |req.reports|) == MatchedRules(ctx, req)
    ensures SameAt(DeleteRules(u, req, StaleRules(ctx, RowsOf(reports, req), req)), PostReports(ctx, reports, req), k)
  {
    var snapshot := RowsOf(reports, req);
    assert req.reports[..|req.reports|] == req.reports;
    assert SameAt(t, reports, k) || k in t;
    if Mine(req, k) {
      assert k == KeyOf(req, k.rule);
      assert k in MatchedKeys(ctx, req) <==> k.rule in MatchedRules(ctx, req);
      assert k.rule in MatchedRules(ctx, req) ==> k.rule in EffectiveIds(ctx, req);
      assert k.rule in StaleRules(ctx, snapshot, req) <==> k in reports && k.rule !in EffectiveIds(ctx, req) by {
        if k.rule in StaleRules(ctx, snapshot, req) {
          var k' :| k' in snapshot && k'.rule !in EffectiveIds(ctx, req) && k'.rule == k.rule;
          assert k' == k;
        }
      }
    }
  }
}
