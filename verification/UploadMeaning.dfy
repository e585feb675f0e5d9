/** What an upload leaves and announces, said of the request, the settings and the tables alone. */
module UploadMeaning {
  import opened Tables
  import opened Reconcile
  import opened Hooks
  import Runs = UploadRuns

  // ---------- which rules an upload is about ----------

  predicate Reports(req: Request, rule: RuleId) {
    exists i :: 0 <= i < |req.reports| && req.reports[i].ruleId == Some(rule)
  }

  /** The base ids: all the non-RHEL ids when the filter is on and one of them is reported, and
      otherwise the reported ids. */
  predicate Base(ctx: Context, req: Request, rule: RuleId) {
    if ctx.settings.filterNonRhel && exists id :: id in ctx.settings.nonRhelIds && Reports(req, id)
    then rule in ctx.settings.nonRhelIds
    else Reports(req, rule)
  }

  /** The RHEL6 filter is on and some base id is among its ids. */
  predicate Rhel6Only(ctx: Context, req: Request) {
    ctx.settings.filterRhel6 && exists id :: id in ctx.settings.rhel6Ids && Base(ctx, req, id)
  }

  predicate Wanted(ctx: Context, req: Request, rule: RuleId) {
    Base(ctx, req, rule) && (Rhel6Only(ctx, req) ==> rule in ctx.settings.rhel6Ids)
  }

  lemma ReportedMeans(req: Request, rule: RuleId)
    ensures rule in ReportedIds(req.reports) <==> Reports(req, rule)
  {
    if Reports(req, rule) {
      var i :| 0 <= i < |req.reports| && req.reports[i].ruleId == Some(rule);
      assert req.reports[i] in req.reports;
    }
  }

  lemma BaseMeans(ctx: Context, req: Request, rule: RuleId)
    ensures Base(ctx, req, rule) <==>
              if NonRhelMarked(ctx, req) then rule in ctx.settings.nonRhelIds else rule in ReportedIds(req.reports)
  {
    forall id ensures id in ReportedIds(req.reports) <==> Reports(req, id) {
      ReportedMeans(req, id);
    }
  }

  lemma WantedMeans(ctx: Context, req: Request, rule: RuleId)
    ensures Wanted(ctx, req, rule) <==> rule in EffectiveIds(ctx, req)
  {
    var ids := if NonRhelMarked(ctx, req) then set id | id in ctx.settings.nonRhelIds else ReportedIds(req.reports);
    var rhel6 := ids * set id | id in ctx.settings.rhel6Ids;
    forall id ensures id in ids <==> Base(ctx, req, id) {
      BaseMeans(ctx, req, id);
    }
    if Rhel6Only(ctx, req) {
      var id :| id in ctx.settings.rhel6Ids && Base(ctx, req, id);
      assert id in rhel6;
    } else if ctx.settings.filterRhel6 {
      assert rhel6 == {};
    }
  }

  // ---------- what is left ----------

  /** After a successful upload a row of its host and org is there exactly when its rule is
      wanted and either reported and known, or stored before. */
  lemma KeptExactly(ctx: Context, reports: Reports, req: Request, rule: RuleId)
    ensures ReportKey(req.org, rule, req.host) in PostReports(ctx, reports, req) <==>
              && Wanted(ctx, req, rule)
              && ((Reports(req, rule) && rule in ctx.rules) || ReportKey(req.org, rule, req.host) in reports)
  {
    WantedMeans(ctx, req, rule);
    ReportedMeans(req, rule);
    PostKeyAtRule(ctx, reports, req, rule);
    ReportedAccepted(ctx, req, rule);
  }

  /** The entry's rule is wanted and known. */
  predicate Taken(ctx: Context, req: Request, r: Reported) {
    r.ruleId.Some? && Wanted(ctx, req, r.ruleId.value) && r.ruleId.value in ctx.rules
  }

  lemma TakenMeans(ctx: Context, req: Request, r: Reported)
    ensures Taken(ctx, req, r) <==> Accepts(ctx, req, r)
  {
    if r.ruleId.Some? {
      WantedMeans(ctx, req, r.ruleId.value);
    }
  }

  /** A reported list is rejected exactly when an entry has no rule id, a taken entry has no
      details, or two taken entries are for one rule that has no row. */
  lemma RejectedExactly(ctx: Context, reports: Reports, req: Request)
    ensures Rejected(ctx, reports, req) <==>
              || (exists i :: 0 <= i < |req.reports| && req.reports[i].ruleId == None)
              || (exists i :: && 0 <= i < |req.reports| && Taken(ctx, req, req.reports[i])
                              && req.reports[i].details == None)
              || (exists i, j :: && 0 <= i < j < |req.reports| && Taken(ctx, req, req.reports[i])
                                 && req.reports[i].ruleId == req.reports[j].ruleId
                                 && ReportKey(req.org, req.reports[i].ruleId.value, req.host) !in reports)
  {
    forall r ensures Taken(ctx, req, r) <==> Accepts(ctx, req, r) {
      TakenMeans(ctx, req, r);
    }
    if exists i :: 0 <= i < |req.reports| && req.reports[i].ruleId == None {
      var i :| 0 <= i < |req.reports| && req.reports[i].ruleId == None;
      assert req.reports[i] in req.reports;
    }
  }

  /** The last entry for a rule. */
  predicate LastEntry(req: Request, i: nat, rule: RuleId) {
    && i < |req.reports| && req.reports[i].ruleId == Some(rule)
    && forall j :: i < j < |req.reports| ==> req.reports[j].ruleId != Some(rule)
  }

  /** What a row holds afterwards. A row stored before is rewritten exactly when its rule is
      wanted, known and reported and its account is the upload's; it keeps its account and its
      date, if it has one. Rows of other hosts and orgs are as they were. */
  lemma RowExactly(ctx: Context, reports: Reports, req: Request, k: ReportKey, i: nat)
    requires !Rejected(ctx, reports, req) && LastEntry(req, i, k.rule)
    ensures var post := PostReports(ctx, reports, req);
            if k.host == req.host && k.org == req.org && Taken(ctx, req, req.reports[i])
               && (k in reports ==> reports[k].account == req.account)
            then && k in post && req.reports[i].details.Some?
                 && post[k] == Report(
                      req.account, UploadKey(req.host, req.org, req.source), req.reports[i].details.value,
                      if k in reports && reports[k].impacted.Some? then reports[k].impacted else Some(req.now))
            else k in post ==> k in reports && post[k] == reports[k]
  {
    TakenMeans(ctx, req, req.reports[i]);
    assert req.reports[i] in req.reports;
    LastDetailsIs(req.reports, i, k.rule);
    if k.host == req.host && k.org == req.org {
      assert k == KeyOf(req, k.rule);
      PostKeyAtRule(ctx, reports, req, k.rule);
      ReportedAccepted(ctx, req, k.rule);
    }
  }

  lemma {:induction false} LastDetailsIs(reports: seq<Reported>, i: nat, rule: RuleId)
    requires i < |reports| && reports[i].ruleId == Some(rule)
    requires forall j :: i < j < |reports| ==> reports[j].ruleId != Some(rule)
    ensures LastDetails(reports, rule) == reports[i].details.GetOr("")
  {
    if i < |reports| - 1 {
      LastDetailsIs(reports[..|reports| - 1], i, rule);
    }
  }

  /** A row whose rule is not reported is as it was, or gone. */
  lemma UnreportedRow(ctx: Context, reports: Reports, req: Request, k: ReportKey)
    requires !Reports(req, k.rule) || k.host != req.host || k.org != req.org
    ensures k in PostReports(ctx, reports, req) ==> k in reports && PostReports(ctx, reports, req)[k] == reports[k]
    ensures k.host != req.host || k.org != req.org ==> SameAt(PostReports(ctx, reports, req), reports, k)
  {
    ReportedMeans(req, k.rule);
    ReportedAccepted(ctx, req, k.rule);
    MatchedKeyMeans(ctx, req, k);
  }

  lemma MatchedKeyMeans(ctx: Context, req: Request, k: ReportKey)
    ensures k in MatchedKeys(ctx, req) <==> k.host == req.host && k.org == req.org && k.rule in MatchedRules(ctx, req)
  {
    if k.host == req.host && k.org == req.org {
      assert k == KeyOf(req, k.rule);
    }
  }

  /** The upload row: written with the request's own values; a stored one keeps its current flag
      and a new one is current. No other upload changes. */
  lemma UploadExactly(uploads: Uploads, req: Request, u: UploadKey)
    ensures var own := UploadKey(req.host, req.org, req.source);
            if u != own then SameAt(UpsertUpload(uploads, req), uploads, u)
            else && u in UpsertUpload(uploads, req)
                 && UpsertUpload(uploads, req)[u] == Upload(
                      req.account, req.checkedOn, req.satellite, req.systemType,
                      u !in uploads || uploads[u].current)
  {
  }

  /** The upload row conflicts exactly when there is none yet and another org has a current one
      for the host and source. */
  lemma ConflictExactly(uploads: Uploads, req: Request)
    ensures UploadConflict(uploads, req) <==>
              && UploadKey(req.host, req.org, req.source) !in uploads
              && exists org :: && org != req.org && UploadKey(req.host, org, req.source) in uploads
                               && uploads[UploadKey(req.host, org, req.source)].current
  {
    if UploadConflict(uploads, req) {
      var k :| k in uploads && k.host == req.host && k.source == req.source && uploads[k].current;
      assert k == UploadKey(req.host, k.org, req.source);
    }
  }

  // ---------- what is announced ----------

  /** A rule is announced as new, and then once, exactly when it is known, active and not
      acknowledged, and its row was not there and now is. */
  lemma NewExactly(ctx: Context, acked: set<RuleId>, reports: Reports, req: Request, rule: RuleId)
    requires !Rejected(ctx, reports, req)
    ensures var k := ReportKey(req.org, rule, req.host);
            multiset(NewOf(ctx, acked, reports, req))[rule] ==
            if && rule in ctx.rules && ctx.rules[rule].active && rule !in acked
               && k !in reports && k in PostReports(ctx, reports, req)
            then 1 else 0
  {
    NewEventsAreGains(ctx, acked, reports, req, rule);
    GainedAtRule(reports, PostReports(ctx, reports, req), req, rule);
  }

  /** A rule is announced as resolved exactly when it is known, active and not acknowledged, its
      row was there, and it is not both reported and wanted. */
  lemma ResolvedExactly(ctx: Context, acked: set<RuleId>, reports: Reports, req: Request, rule: RuleId)
    requires !Rejected(ctx, reports, req)
    ensures rule in ResolvedOf(ctx, acked, reports, req) <==>
              && rule in ctx.rules && ctx.rules[rule].active && rule !in acked
              && ReportKey(req.org, rule, req.host) in reports
              && !(Reports(req, rule) && Wanted(ctx, req, rule))
  {
    WantedMeans(ctx, req, rule);
    ReportedMeans(req, rule);
    MatchedListExact(ctx, reports, req, rule);
    RowsAtRule(reports, req, rule);
    ReportedAccepted(ctx, req, rule);
  }

  // ---------- the events of a run ----------

  /** In a run of uploads and removals an upload that is rejected or rolled back changes nothing,
      any other leaves its rows as said above, and a removal takes away the rows it names. */
  lemma EventExactly(ctx: Context, reports: Reports, req: Request, rolledBack: bool, keys: set<ReportKey>, k: ReportKey)
    ensures rolledBack || Rejected(ctx, reports, req) ==>
              SameAt(Runs.Next(ctx, reports, Runs.Uploaded(req, rolledBack)), reports, k)
    ensures !rolledBack && !Rejected(ctx, reports, req) && k.host == req.host && k.org == req.org ==>
              (k in Runs.Next(ctx, reports, Runs.Uploaded(req, rolledBack)) <==>
               && Wanted(ctx, req, k.rule)
               && ((Reports(req, k.rule) && k.rule in ctx.rules) || k in reports))
    ensures if k in keys then k !in Runs.Next(ctx, reports, Runs.Removed(keys))
            else SameAt(Runs.Next(ctx, reports, Runs.Removed(keys)), reports, k)
  {
    KeptExactly(ctx, reports, req, k.rule);
    assert k.host == req.host && k.org == req.org ==> k == ReportKey(req.org, k.rule, req.host);
  }

  // ---------- the RHEL6 filter at work ----------

  /** With the filter for "el6" on, an upload that reports "el6" and "x" keeps the first alone. */
  lemma Rhel6KeepsOne(details: string) returns (ctx: Context, req: Request)
    ensures ctx.settings == Settings(true, [], true, ["el6"]) && ctx.rules.Keys == {"el6", "x"}
    ensures req.reports == [Reported(Some("el6"), Some(details)), Reported(Some("x"), Some(details))]
    ensures ReportKey(req.org, "el6", req.host) in PostReports(ctx, map[], req)
    ensures ReportKey(req.org, "x", req.host) !in PostReports(ctx, map[], req)
  {
    ctx := Context(Settings(true, [], true, ["el6"]), map["el6" := RuleInfo(true), "x" := RuleInfo(true)]);
    var reports := [Reported(Some("el6"), Some(details)), Reported(Some("x"), Some(details))];
    req := Request("h", "o", None, "s", false, "t", reports, 1, 1);
    assert reports[0].ruleId == Some("el6") && reports[1].ruleId == Some("x");
    assert "el6"[0] == 'e' && "x"[0] == 'x' && ctx.settings.rhel6Ids[0] == "el6";
    assert Base(ctx, req, "el6") && "el6" in ctx.settings.rhel6Ids;
    KeptExactly(ctx, map[], req, "el6");
    KeptExactly(ctx, map[], req, "x");
  }
}
