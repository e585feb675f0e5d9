/** The upload handler over the mutable tables: one transaction under the host row lock, with
    its loops, its statements and its rollback. */
module UploadService {
  import opened Tables
  import opened Reconcile
  import opened Hooks

  /** Exceptions from outside the handler's own logic: while the host row is created, inside the
      transaction before the events are sent, and after that, up to the commit itself. */
  datatype Faults = Faults(host: bool, early: bool, late: bool)

  /** Failed without a trace; rolled back after its events were sent; or stored. */
  datatype Outcome =
    | Failed
    | Lost(newRules: seq<RuleId>, resolvedRules: seq<RuleId>)
    | Stored(newRules: seq<RuleId>, resolvedRules: seq<RuleId>)

  class AdvisorDb {
    var hosts: set<HostId>
    var reports: Reports
    var uploads: Uploads

    constructor ()
      ensures hosts == {} && reports == map[] && uploads == map[]
    {
      hosts, reports, uploads := {}, map[], map[];
    }

    /** Process one upload. It fails exactly on an outside fault, a second current upload of
        the host and source under another org, or a rejected report list; a failure leaves
        reports and uploads as they were. Only a fault after the events were sent leaves
        announced events without a change. */
    method CreateDbReports(ctx: Context, req: Request, acked: set<RuleId>, faults: Faults)
      returns (outcome: Outcome)
      modifies this
      ensures outcome.Failed? <==>
                || faults.host || faults.early
                || UploadConflict(old(uploads), req) || Rejected(ctx, old(reports), req)
      ensures outcome.Lost? <==> !outcome.Failed? && faults.late
      ensures !outcome.Stored? ==> reports == old(reports) && uploads == old(uploads)
      ensures outcome.Stored? ==> reports == PostReports(ctx, old(reports), req)
      ensures outcome.Stored? ==> uploads == UpsertUpload(old(uploads), req)
      ensures hosts == old(hosts) + if faults.host then {} else {req.host}
      ensures !outcome.Failed? ==> outcome.newRules == NewOf(ctx, acked, old(reports), req)
      ensures !outcome.Failed? ==>
                multiset(outcome.resolvedRules) == multiset(ResolvedOf(ctx, acked, old(reports), req))
    {
      if faults.host {
        return Failed;
      }
      if req.host !in hosts {
        hosts := hosts + {req.host};
      }
      var savedReports, savedUploads := reports, uploads;
      outcome := Transaction(ctx, req, acked, faults.early, faults.late);
      if !outcome.Stored? {
        reports, uploads := savedReports, savedUploads;
      }
    }

    /** The statements between taking the row lock and the end of the transaction block; an
        outcome other than stored stands for an exception and leaves the tables to roll back. */
    method Transaction(ctx: Context, req: Request, acked: set<RuleId>, early: bool, late: bool)
      returns (outcome: Outcome)
      modifies this`reports, this`uploads
      ensures outcome.Failed? <==> early || UploadConflict(old(uploads), req) || Rejected(ctx, old(reports), req)
      ensures outcome.Lost? <==> !outcome.Failed? && late
      ensures outcome.Stored? ==> reports == PostReports(ctx, old(reports), req)
      ensures outcome.Stored? ==> uploads == UpsertUpload(old(uploads), req)
      ensures !outcome.Failed? ==> outcome.newRules == NewOf(ctx, acked, old(reports), req)
      ensures !outcome.Failed? ==>
                multiset(outcome.resolvedRules) == multiset(ResolvedOf(ctx, acked, old(reports), req))
    {
      StatementsMeetDescription(ctx, reports, req);
      var snapshot := RowsOf(reports, req);
      if UploadConflict(uploads, req) {
        return Failed;
      }
      uploads := UpsertUpload(uploads, req);
      if MissingRuleId(req) {
        return Failed;
      }
      var plan := PlanReports(ctx, snapshot, req);
      if plan.Broken? {
        return Failed;
      }
      var inserted := BulkCreate(req, plan.added);
      if !inserted {
        return Failed;
      }
      UpdateExisting(req, plan.known);
      reports := DeleteRules(reports, req, StaleRules(ctx, snapshot, req));
      if early {
        return Failed;
      }
      var newRules, resolvedRules := TriggerReportHooks(ctx.rules, acked, plan.matched, RulesOf(snapshot));
      return if late then Lost(newRules, resolvedRules) else Stored(newRules, resolvedRules);
    }

    /** The loop over the uploaded reports. */
    method PlanReports(ctx: Context, snapshot: Reports, req: Request) returns (plan: Plan)
      ensures plan == BuildPlan(ctx, snapshot, req, |req.reports|)
    {
      var added, known, matched := [], [], [];
      var i := 0;
      while i < |req.reports|
        invariant 0 <= i <= |req.reports|
        invariant BuildPlan(ctx, snapshot, req, i) == Plan(added, known, matched)
      {
        var r := req.reports[i];
        i := i + 1;
        if Accepts(ctx, req, r) {
          if r.details.None? {
            BrokenStaysBroken(ctx, snapshot, req, i, |req.reports|);
            return Broken;
          }
          var draft := DraftOf(snapshot, req, r.ruleId.value, r.details.value);
          if KeyOf(req, draft.rule) in snapshot {
            known := known + [draft];
          } else {
            added := added + [draft];
          }
          matched := matched + [draft.rule];
        }
      }
      return Plan(added, known, matched);
    }

    /** Insert new rows one by one; false when a row with the same key is already there. */
    method BulkCreate(req: Request, drafts: seq<Draft>) returns (ok: bool)
      modifies this`reports
      ensures ok == InsertAll(old(reports), req, drafts).Some?
      ensures ok ==> reports == InsertAll(old(reports), req, drafts).value
    {
      for i := 0 to |drafts|
        invariant InsertAll(old(reports), req, drafts[..i]) == Some(reports)
      {
        assert drafts[..i + 1][..i] == drafts[..i];
        if KeyOf(req, drafts[i].rule) in reports {
          InsertFailureLasts(old(reports), req, drafts, i + 1);
          return false;
        }
        reports := reports[KeyOf(req, drafts[i].rule) := drafts[i].row];
      }
      assert drafts[..|drafts|] == drafts;
      return true;
    }

    /** One update statement per report that already has a row. */
    method UpdateExisting(req: Request, drafts: seq<Draft>)
      modifies this`reports
      ensures reports == UpdateAll(old(reports), req, drafts)
    {
      for i := 0 to |drafts|
        invariant reports == UpdateAll(old(reports), req, drafts[..i])
      {
        assert drafts[..i + 1][..i] == drafts[..i];
        var k := KeyOf(req, drafts[i].rule);
        if k in reports && reports[k].account == drafts[i].row.account {
          reports := reports[k := reports[k].(
            upload := drafts[i].row.upload, details := drafts[i].row.details, impacted := drafts[i].row.impacted)];
        }
      }
      assert drafts[..|drafts|] == drafts;
    }
  }

  /** Work out the new and the resolved rules of an upload. */
  method TriggerReportHooks(rules: Catalogue, acked: set<RuleId>, matched: seq<RuleId>, before: set<RuleId>)
    returns (newRules: seq<RuleId>, resolvedRules: seq<RuleId>)
    ensures newRules == NewReports(rules, acked, matched, before)
    ensures multiset(resolvedRules) == multiset(ResolvedReports(rules, acked, matched, before))
  {
    newRules, resolvedRules := [], [];
    for i := 0 to |matched|
      invariant newRules == NewReports(rules, acked, matched[..i], before)
    {
      assert matched[..i + 1][..i] == matched[..i];
      if matched[i] !in before && Live(rules, acked, matched[i]) {
        newRules := newRules + [matched[i]];
      }
    }
    assert matched[..|matched|] == matched;
    var todo := before;
    while todo != {}
      invariant todo <= before
      invariant multiset(resolvedRules) == multiset(ResolvedReports(rules, acked, matched, before - todo))
    {
      var rule :| rule in todo;
      var done := before - todo;
      todo := todo - {rule};
      assert before - todo == done + {rule};
      if rule !in matched && Live(rules, acked, rule) {
        resolvedRules := resolvedRules + [rule];
        assert ResolvedReports(rules, acked, matched, before - todo) ==
               ResolvedReports(rules, acked, matched, done) + {rule};
      } else {
        assert ResolvedReports(rules, acked, matched, before - todo) == ResolvedReports(rules, acked, matched, done);
      }
    }
    assert before - todo == before;
  }

  lemma {:induction false} BrokenStaysBroken(ctx: Context, snapshot: Reports, req: Request, i: nat, n: nat)
    requires i <= n <= |req.reports|
    requires BuildPlan(ctx, snapshot, req, i).Broken?
    ensures BuildPlan(ctx, snapshot, req, n).Broken?
    decreases n
  {
    if i < n {
      BrokenStaysBroken(ctx, snapshot, req, i, n - 1);
    }
  }

  lemma {:induction false} InsertFailureLasts(reports: Reports, req: Request, drafts: seq<Draft>, i: nat)
    requires i <= |drafts| && InsertAll(reports, req, drafts[..i]).None?
    ensures InsertAll(reports, req, drafts).None?
    decreases |drafts|
  {
    if i == |drafts| {
      assert drafts[..i] == drafts;
    } else {
      assert drafts[..|drafts| - 1][..i] == drafts[..i];
      InsertFailureLasts(reports, req, drafts[..|drafts| - 1], i);
    }
  }
}
