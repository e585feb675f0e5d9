/** Which rules an upload announces as new and which as resolved. */
module Hooks {
  import opened Tables
  import opened Reconcile

  /** The rule is announced at all: it is active and nobody has acknowledged it. */
  predicate Live(rules: Catalogue, acked: set<RuleId>, rule: RuleId) {
    rule in rules && rules[rule].active && rule !in acked
  }

  /** The matched rules, in report order, that had no row before. */
  function NewReports(rules: Catalogue, acked: set<RuleId>, matched: seq<RuleId>, before: set<RuleId>): seq<RuleId> {
    if matched == [] then []
    else
      var rest := NewReports(rules, acked, matched[..|matched| - 1], before);
      var last := matched[|matched| - 1];
      if last !in before && Live(rules, acked, last) then rest + [last] else rest
  }

  /** The rules that had a row before and are not matched now. */
  function ResolvedReports(rules: Catalogue, acked: set<RuleId>, matched: seq<RuleId>,
      before: set<RuleId>): set<RuleId> {
    set rule | rule in before && rule !in matched && Live(rules, acked, rule)
  }

  function RulesOf(reports: Reports): set<RuleId> {
    set k | k in reports :: k.rule
  }

  /** The rules that gained, or lost, their row for the uploading host and org. */
  function Gained(before: Reports, after: Reports, req: Request): set<RuleId> {
    set k | k in after && Mine(req, k) && k !in before :: k.rule
  }

  function Lost(before: Reports, after: Reports, req: Request): set<RuleId> {
    set k | k in before && Mine(req, k) && k !in after :: k.rule
  }

  /** The matched rules of a whole upload, in report order. */
  function MatchedList(ctx: Context, reports: Reports, req: Request): seq<RuleId> {
    var plan := BuildPlan(ctx, RowsOf(reports, req), req, |req.reports|);
    if plan.Plan? then plan.matched else []
  }

  function NewOf(ctx: Context, acked: set<RuleId>, reports: Reports, req: Request): seq<RuleId> {
    NewReports(ctx.rules, acked, MatchedList(ctx, reports, req), RulesOf(RowsOf(reports, req)))
  }

  function ResolvedOf(ctx: Context, acked: set<RuleId>, reports: Reports, req: Request): set<RuleId> {
    ResolvedReports(ctx.rules, acked, MatchedList(ctx, reports, req), RulesOf(RowsOf(reports, req)))
  }

  /** A row that survives the upload although its rule was not reported: its rule is in the
      effective list only because a non-RHEL marker replaced the reported ids. */
  predicate Lingers(ctx: Context, reports: Reports, req: Request, rule: RuleId) {
    KeyOf(req, rule) in reports && rule in EffectiveIds(ctx, req) && rule !in ReportedIds(req.reports)
  }

  // ---------- what the lists mean ----------

  lemma {:induction false} NewReportsExact(
    rules: Catalogue, acked: set<RuleId>, matched: seq<RuleId>, before: set<RuleId>, rule: RuleId)
    ensures multiset(NewReports(rules, acked, matched, before))[rule] ==
            if rule !in before && Live(rules, acked, rule) then multiset(matched)[rule] else 0
  {
    if matched != [] {
      NewReportsExact(rules, acked, matched[..|matched| - 1], before, rule);
      assert matched == matched[..|matched| - 1] + [matched[|matched| - 1]];
    }
  }

  /** A rule without a row occurs in the plan's matched list as often as it is planned for
      insertion, so a successful upload matches it at most once. */
  lemma {:induction false} FreshMatchedOnce(ctx: Context, reports: Reports, req: Request, n: nat, rule: RuleId)
    requires n <= |req.reports| && !MissingDetails(ctx, req, n) && !RepeatsFresh(ctx, reports, req, n)
    requires KeyOf(req, rule) !in reports
    ensures var plan := BuildPlan(ctx, RowsOf(reports, req), req, n);
            plan.Plan? && multiset(plan.matched)[rule] == if rule in MatchedIn(ctx, req, n) then 1 else 0
  {
    if n > 0 {
      assert !MissingDetails(ctx, req, n - 1) && !RepeatsFresh(ctx, reports, req, n - 1);
      FreshMatchedOnce(ctx, reports, req, n - 1, rule);
      RepeatsFreshStep(ctx, reports, req, n);
      MatchedInStep(ctx, req, n);
      PlanShape(ctx, RowsOf(reports, req), req, n);
    }
  }

  /** After a successful upload, each new event is for a row the upload created, once, and
      every created row of a live rule has its event. */
  lemma NewEventsAreGains(ctx: Context, acked: set<RuleId>, reports: Reports, req: Request, rule: RuleId)
    requires !Rejected(ctx, reports, req)
    ensures multiset(NewOf(ctx, acked, reports, req))[rule] ==
            if rule in Gained(reports, PostReports(ctx, reports, req), req) && Live(ctx.rules, acked, rule)
            then 1 else 0
  {
    var n := |req.reports|;
    NewReportsExact(ctx.rules, acked, MatchedList(ctx, reports, req), RulesOf(RowsOf(reports, req)), rule);
    RowsAtRule(reports, req, rule);
    GainedAtRule(reports, PostReports(ctx, reports, req), req, rule);
    PostKeyAtRule(ctx, reports, req, rule);
    if KeyOf(req, rule) !in reports {
      FreshMatchedOnce(ctx, reports, req, n, rule);
      MatchedInAll(ctx, req);
    }
  }

  lemma RowsAtRule(reports: Reports, req: Request, rule: RuleId)
    ensures rule in RulesOf(RowsOf(reports, req)) <==> KeyOf(req, rule) in reports
  {
    if KeyOf(req, rule) in reports {
      assert KeyOf(req, rule) in RowsOf(reports, req);
    }
  }

  lemma GainedAtRule(before: Reports, after: Reports, req: Request, rule: RuleId)
    ensures rule in Gained(before, after, req) <==> KeyOf(req, rule) in after && KeyOf(req, rule) !in before
    ensures rule in Lost(before, after, req) <==> KeyOf(req, rule) in before && KeyOf(req, rule) !in after
  {
    var k := KeyOf(req, rule);
    if k in after && k !in before { assert Mine(req, k) && k.rule == rule; }
    if k in before && k !in after { assert Mine(req, k) && k.rule == rule; }
  }

  /** Membership of one rule's row after a successful upload. */
  lemma PostKeyAtRule(ctx: Context, reports: Reports, req: Request, rule: RuleId)
    ensures KeyOf(req, rule) in PostReports(ctx, reports, req) <==>
              || rule in MatchedRules(ctx, req)
              || (KeyOf(req, rule) in reports && rule in EffectiveIds(ctx, req))
  {
    var k := KeyOf(req, rule);
    assert rule in MatchedRules(ctx, req) ==> k in MatchedKeys(ctx, req);
    if k in MatchedKeys(ctx, req) {
      var r :| r in MatchedRules(ctx, req) && KeyOf(req, r) == k;
      assert r == rule;
    }
  }

  lemma MatchedListExact(ctx: Context, reports: Reports, req: Request, rule: RuleId)
    requires !Rejected(ctx, reports, req)
    ensures rule in MatchedList(ctx, reports, req) <==> rule in MatchedRules(ctx, req)
  {
    PlanShape(ctx, RowsOf(reports, req), req, |req.reports|);
    MatchedInAll(ctx, req);
  }

  /** One rule is announced as resolved exactly when it is live and either lost its row or
      lingers unreported. */
  lemma ResolvedAtRule(ctx: Context, acked: set<RuleId>, reports: Reports, req: Request, rule: RuleId)
    requires !Rejected(ctx, reports, req)
    ensures rule in ResolvedOf(ctx, acked, reports, req) <==>
              && Live(ctx.rules, acked, rule)
              && (rule in Lost(reports, PostReports(ctx, reports, req), req) || Lingers(ctx, reports, req, rule))
  {
    MatchedListExact(ctx, reports, req, rule);
    RowsAtRule(reports, req, rule);
    GainedAtRule(reports, PostReports(ctx, reports, req), req, rule);
    PostKeyAtRule(ctx, reports, req, rule);
    ReportedAccepted(ctx, req, rule);
  }

  lemma ReportedAccepted(ctx: Context, req: Request, rule: RuleId)
    ensures rule in MatchedRules(ctx, req) <==>
              rule in ReportedIds(req.reports) && rule in EffectiveIds(ctx, req) && rule in ctx.rules
  {
    if rule in ReportedIds(req.reports) && rule in EffectiveIds(ctx, req) && rule in ctx.rules {
      var r :| r in req.reports && r.ruleId.Some? && r.ruleId.value == rule;
      assert Accepts(ctx, req, r);
    }
  }

  /** The resolved events are exactly the live rows the upload deleted, if and only if no
      live row lingers. */
  lemma ResolvedEventsAreLosses(ctx: Context, acked: set<RuleId>, reports: Reports, req: Request)
    requires !Rejected(ctx, reports, req)
    ensures (ResolvedOf(ctx, acked, reports, req) ==
             set rule | rule in Lost(reports, PostReports(ctx, reports, req), req) && Live(ctx.rules, acked, rule))
            <==> forall rule :: Live(ctx.rules, acked, rule) ==> !Lingers(ctx, reports, req, rule)
  {
    var lost := set rule | rule in Lost(reports, PostReports(ctx, reports, req), req) && Live(ctx.rules, acked, rule);
    forall rule
      ensures rule in ResolvedOf(ctx, acked, reports, req) <==>
              rule in lost || (Live(ctx.rules, acked, rule) && Lingers(ctx, reports, req, rule))
      ensures rule in lost ==> !Lingers(ctx, reports, req, rule)
    {
      ResolvedAtRule(ctx, acked, reports, req, rule);
      GainedAtRule(reports, PostReports(ctx, reports, req), req, rule);
      PostKeyAtRule(ctx, reports, req, rule);
    }
  }

  /** Without a non-RHEL marker nothing lingers. */
  lemma NothingLingers(ctx: Context, reports: Reports, req: Request, rule: RuleId)
    requires !NonRhelMarked(ctx, req)
    ensures !Lingers(ctx, reports, req, rule)
  {
  }

  /** With a marker a rule can be announced as resolved while its row stays: the settings
      list holds "a" and "b", the host has a row for "b" and reports only "a". */
  lemma LingeringRowIsAnnouncedResolved() returns (ctx: Context, reports: Reports, req: Request)
    ensures !Rejected(ctx, reports, req) && NonRhelMarked(ctx, req)
    ensures "b" in ResolvedOf(ctx, {}, reports, req)
    ensures KeyOf(req, "b") in reports && KeyOf(req, "b") in PostReports(ctx, reports, req)
  {
    ctx := Context(Settings(true, ["a", "b"], true, []), map["b" := RuleInfo(true)]);
    req := Request("h", "o", None, "s", false, "t", [Reported(Some("a"), Some("d"))], 1, 1);
    var key := KeyOf(req, "b");
    reports := map[key := Report(None, UploadKeyOf(req), "", Some(0))];
    assert req.reports[0] in req.reports;
    assert "a" in ReportedIds(req.reports);
    assert "a" in ctx.settings.nonRhelIds && "b" in ctx.settings.nonRhelIds by {
      assert ctx.settings.nonRhelIds[0] == "a" && ctx.settings.nonRhelIds[1] == "b";
    }
    assert !Accepts(ctx, req, req.reports[0]);
    ResolvedAtRule(ctx, {}, reports, req, "b");
    PostKeyAtRule(ctx, reports, req, "b");
  }
}
