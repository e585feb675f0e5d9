/** Facts about the report table over whole runs of uploads and deletions. */
module UploadRuns {
  import opened Tables
  import opened Reconcile
  import opened Hooks

  // ---------- one upload ----------

  /** The rows of the uploading host and org after a successful upload. */
  lemma ExactPostState(ctx: Context, reports: Reports, req: Request)
    requires forall k :: k in reports ==> k.rule in ctx.rules
    ensures RulesOf(RowsOf(PostReports(ctx, reports, req), req)) ==
            (ReportedIds(req.reports) * EffectiveIds(ctx, req) * ctx.rules.Keys)
            + (RulesOf(RowsOf(reports, req)) * EffectiveIds(ctx, req))
    ensures !NonRhelMarked(ctx, req) ==>
              RulesOf(RowsOf(PostReports(ctx, reports, req), req)) == EffectiveIds(ctx, req) * ctx.rules.Keys
    ensures forall k :: !Mine(req, k) ==> SameAt(PostReports(ctx, reports, req), reports, k)
    ensures forall k :: k in PostReports(ctx, reports, req) ==> k.rule in ctx.rules
  {
    var post := PostReports(ctx, reports, req);
    forall rule
      ensures rule in RulesOf(RowsOf(post, req)) <==>
              && rule in EffectiveIds(ctx, req)
              && ((rule in ReportedIds(req.reports) && rule in ctx.rules) || rule in RulesOf(RowsOf(reports, req)))
      ensures rule in RulesOf(RowsOf(reports, req)) ==> rule in ctx.rules
    {
      RowsAtRule(reports, req, rule);
      RowsAtRule(post, req, rule);
      PostKeyAtRule(ctx, reports, req, rule);
      ReportedAccepted(ctx, req, rule);
    }
    assert !NonRhelMarked(ctx, req) ==> EffectiveIds(ctx, req) <= ReportedIds(req.reports);
    OthersUntouched(ctx, reports, req);
  }

  lemma OthersUntouched(ctx: Context, reports: Reports, req: Request)
    ensures forall k :: !Mine(req, k) ==> SameAt(PostReports(ctx, reports, req), reports, k)
  {
    forall k | k in MatchedKeys(ctx, req) ensures Mine(req, k) {
      var rule :| rule in MatchedRules(ctx, req) && KeyOf(req, rule) == k;
    }
  }

  /** What a successful upload writes into one row it keeps or creates. */
  lemma ExactRow(ctx: Context, reports: Reports, req: Request, rule: RuleId)
    requires !Rejected(ctx, reports, req)
    requires KeyOf(req, rule) in PostReports(ctx, reports, req)
    ensures var k := KeyOf(req, rule);
            var row := PostReports(ctx, reports, req)[k];
            if k in reports && (rule !in MatchedRules(ctx, req) || reports[k].account != req.account)
            then row == reports[k]
            else && row.account == req.account && row.upload == UploadKeyOf(req)
                 && row.impacted ==
                      (if k in reports && reports[k].impacted.Some? then reports[k].impacted else Some(req.now))
                 && exists i :: && 0 <= i < |req.reports| && req.reports[i] == Reported(Some(rule), Some(row.details))
                                && forall j :: i < j < |req.reports| ==> req.reports[j].ruleId != Some(rule)
  {
    PostKeyAtRule(ctx, reports, req, rule);
    var k := KeyOf(req, rule);
    if rule in MatchedRules(ctx, req) {
      var r :| r in req.reports && Accepts(ctx, req, r) && r.ruleId.value == rule;
      var i := LastDetailsAt(req.reports, rule);
      assert Accepts(ctx, req, req.reports[i]);
      assert req.reports[i].details.Some?;
    }
  }

  lemma {:induction false} LastDetailsAt(reports: seq<Reported>, rule: RuleId) returns (i: nat)
    requires exists r :: r in reports && r.ruleId == Some(rule)
    ensures i < |reports| && reports[i].ruleId == Some(rule)
    ensures forall j :: i < j < |reports| ==> reports[j].ruleId != Some(rule)
    ensures LastDetails(reports, rule) == reports[i].details.GetOr("")
  {
    var n := |reports| - 1;
    if reports[n].ruleId == Some(rule) {
      i := n;
    } else {
      var r :| r in reports && r.ruleId == Some(rule);
      assert reports == reports[..n] + [reports[n]];
      assert r in reports[..n];
      i := LastDetailsAt(reports[..n], rule);
    }
  }

  // ---------- runs ----------

  /** Something that happens to the report table: an upload, which an outside exception may
      roll back, or the removal of rows by an inventory deletion or a rule deletion. */
  datatype Event = Uploaded(req: Request, rolledBack: bool) | Removed(keys: set<ReportKey>)

  ghost function Next(ctx: Context, reports: Reports, e: Event): Reports {
    match e
    case Uploaded(req, rolledBack) =>
      if rolledBack || Rejected(ctx, reports, req) then reports else PostReports(ctx, reports, req)
    case Removed(keys) => reports - keys
  }

  ghost function After(ctx: Context, reports: Reports, events: seq<Event>): Reports {
    if events == [] then reports
    else Next(ctx, After(ctx, reports, events[..|events| - 1]), events[|events| - 1])
  }

  /** When the row now present came into being, read off from presence alone: the clock of
      the event before which the row was absent, or its stored date if it was there from
      the start. */
  ghost function Born(ctx: Context, reports: Reports, events: seq<Event>, k: ReportKey): Option<Time>
    requires k in After(ctx, reports, events)
  {
    if events == [] then reports[k].impacted
    else
      var before := events[..|events| - 1];
      if k in After(ctx, reports, before) then Born(ctx, reports, before, k)
      else
        var last := events[|events| - 1];
        if last.Uploaded? then Some(last.req.now) else None
  }

  /** However many uploads rewrite its details or its upload link, a row's impacted date is
      the time of the upload that created it in its present unbroken presence. */
  lemma {:induction false} ImpactedDateIsBirth(ctx: Context, reports: Reports, events: seq<Event>, k: ReportKey)
    requires k in reports ==> reports[k].impacted.Some?
    requires k in After(ctx, reports, events)
    ensures After(ctx, reports, events)[k].impacted == Born(ctx, reports, events, k)
    ensures Born(ctx, reports, events, k).Some?
  {
    if events != [] {
      var before := events[..|events| - 1];
      var last := events[|events| - 1];
      var was := After(ctx, reports, before);
      if k in was {
        ImpactedDateIsBirth(ctx, reports, before, k);
      } else {
        BornByUpload(ctx, was, last, k);
      }
    }
  }

  lemma BornByUpload(ctx: Context, was: Reports, e: Event, k: ReportKey)
    requires k !in was && k in Next(ctx, was, e)
    ensures e.Uploaded? && Next(ctx, was, e)[k].impacted == Some(e.req.now)
  {
    if e.Uploaded? {
      OthersUntouched(ctx, was, e.req);
      assert Mine(e.req, k) by { assert !SameAt(was, Next(ctx, was, e), k); }
      assert k == KeyOf(e.req, k.rule);
      PostKeyAtRule(ctx, was, e.req, k.rule);
    }
  }

  /** A row stored without a date keeps none until an upload under its own account matches
      it; that upload dates it. So a stored null date is the one way to break the law above. */
  lemma NullDateFilledByNextMatch(ctx: Context, was: Reports, req: Request, k: ReportKey)
    requires !Rejected(ctx, was, req)
    requires k in was && was[k].impacted.None? && k in PostReports(ctx, was, req)
    ensures PostReports(ctx, was, req)[k].impacted ==
            if Mine(req, k) && k.rule in MatchedRules(ctx, req) && was[k].account == req.account
            then Some(req.now) else None
  {
  }

  // ---------- new and resolved events over a run ----------

  datatype Hook = New | Resolved

  function Copies(h: Hook, n: nat): seq<Hook> {
    seq(n, _ => h)
  }

  /** The events one upload sends about one row. */
  ghost function HooksOf(ctx: Context, acked: set<RuleId>, reports: Reports, req: Request, k: ReportKey): seq<Hook> {
    if Rejected(ctx, reports, req) || !Mine(req, k) then []
    else
      Copies(New, multiset(NewOf(ctx, acked, reports, req))[k.rule])
      + Copies(Resolved, multiset(ResolvedOf(ctx, acked, reports, req))[k.rule])
  }

  /** How an upload ends: it commits, it fails before its events are sent, or it is rolled back
      after they were sent. */
  datatype End = Commits | FailsEarly | FailsLate

  datatype Attempt = Attempt(req: Request, end: End)

  /** An event that was sent, and whether its upload committed. */
  datatype Sent = Sent(hook: Hook, kept: bool)

  ghost function SentBy(ctx: Context, acked: set<RuleId>, reports: Reports, attempt: Attempt, k: ReportKey): seq<Sent> {
    if attempt.end.FailsEarly? then []
    else
      var hooks := HooksOf(ctx, acked, reports, attempt.req, k);
      seq(|hooks|, i requires 0 <= i < |hooks| => Sent(hooks[i], attempt.end.Commits?))
  }

  /** The events about one row over a run of uploads. */
  ghost function Trace(ctx: Context, acked: set<RuleId>, reports: Reports, run: seq<Attempt>, k: ReportKey): seq<Sent> {
    if run == [] then []
    else
      var before := run[..|run| - 1];
      Trace(ctx, acked, reports, before, k)
      + SentBy(ctx, acked, After(ctx, reports, Uploads(before)), run[|run| - 1], k)
  }

  function Uploads(run: seq<Attempt>): seq<Event> {
    seq(|run|, i requires 0 <= i < |run| => Uploaded(run[i].req, !run[i].end.Commits?))
  }

  /** A trace about one row of a live rule, from a table that has it iff was to one that has it
      iff present: each event differs from the one before exactly when that one was kept; the
      first is New exactly when the row was absent; and the row is present exactly when the last
      event was a kept New or a lost Resolved. */
  ghost predicate Follows(trace: seq<Sent>, was: bool, present: bool) {
    && (forall i :: 0 < i < |trace| ==> (trace[i].hook != trace[i - 1].hook <==> trace[i - 1].kept))
    && (trace != [] ==> (trace[0].hook == New <==> !was))
    && (present <==> if trace == [] then was else (trace[|trace| - 1].hook == New) == trace[|trace| - 1].kept)
  }

  ghost predicate Alternates(trace: seq<Sent>) {
    forall i :: 0 < i < |trace| ==> trace[i - 1].hook != trace[i].hook
  }

  /** One more event moves the row when it is kept, and not otherwise. */
  lemma FollowsStep(trace: seq<Sent>, was: bool, present: bool, kept: bool)
    requires Follows(trace, was, present)
    ensures Follows(trace + [Sent(if present then Resolved else New, kept)], was, if kept then !present else present)
  {
  }

  /** The events about one row of a live rule strictly alternate if and only if every event but
      the last belongs to an upload that committed. */
  lemma AlternatesExactly(trace: seq<Sent>, was: bool, present: bool)
    requires Follows(trace, was, present)
    ensures Alternates(trace) <==> forall i :: 0 <= i < |trace| - 1 ==> trace[i].kept
  {
    if Alternates(trace) {
      forall i | 0 <= i < |trace| - 1 ensures trace[i].kept {
        assert trace[i + 1 - 1].hook != trace[i + 1].hook;
      }
    }
  }

  lemma {:induction false} EventsFollow(
    ctx: Context, acked: set<RuleId>, reports: Reports, run: seq<Attempt>, k: ReportKey)
    requires forall i :: 0 <= i < |run| ==> !NonRhelMarked(ctx, run[i].req)
    ensures if Live(ctx.rules, acked, k.rule)
            then Follows(Trace(ctx, acked, reports, run, k), k in reports, k in After(ctx, reports, Uploads(run)))
            else Trace(ctx, acked, reports, run, k) == []
  {
    if run != [] {
      var before, last := run[..|run| - 1], run[|run| - 1];
      EventsFollow(ctx, acked, reports, before, k);
      var mid, trace := After(ctx, reports, Uploads(before)), Trace(ctx, acked, reports, before, k);
      assert run == before + [last];
      OneMoreAttempt(ctx, acked, reports, before, last, k);
      HookPerChange(ctx, acked, mid, last.req, k);
      if Live(ctx.rules, acked, k.rule) {
        AttemptStep(ctx, acked, mid, last, k, trace, k in reports);
      }
    }
  }

  /** With fixed rules and acknowledgements and no non-RHEL marker, the events about one row of
      a live rule follow its presence, and strictly alternate exactly when no upload that is
      rolled back after sending one is followed by another; other rules have no events. */
  lemma EventsAlternate(ctx: Context, acked: set<RuleId>, reports: Reports, run: seq<Attempt>, k: ReportKey)
    requires forall i :: 0 <= i < |run| ==> !NonRhelMarked(ctx, run[i].req)
    ensures var trace := Trace(ctx, acked, reports, run, k);
            if Live(ctx.rules, acked, k.rule)
            then && Follows(trace, k in reports, k in After(ctx, reports, Uploads(run)))
                 && (Alternates(trace) <==> forall i :: 0 <= i < |trace| - 1 ==> trace[i].kept)
            else trace == []
  {
    EventsFollow(ctx, acked, reports, run, k);
    if Live(ctx.rules, acked, k.rule) {
      AlternatesExactly(Trace(ctx, acked, reports, run, k), k in reports, k in After(ctx, reports, Uploads(run)));
    }
  }

  lemma AttemptStep(
    ctx: Context, acked: set<RuleId>, mid: Reports, attempt: Attempt, k: ReportKey, trace: seq<Sent>, was: bool)
    requires !NonRhelMarked(ctx, attempt.req) && Live(ctx.rules, acked, k.rule) && Follows(trace, was, k in mid)
    ensures Follows(trace + SentBy(ctx, acked, mid, attempt, k), was,
                    k in Next(ctx, mid, Uploaded(attempt.req, !attempt.end.Commits?)))
  {
    HookPerChange(ctx, acked, mid, attempt.req, k);
    var hooks, sent := HooksOf(ctx, acked, mid, attempt.req, k), SentBy(ctx, acked, mid, attempt, k);
    if hooks == [] || attempt.end.FailsEarly? {
      assert trace + sent == trace;
    } else {
      assert sent == [Sent(if k in mid then Resolved else New, attempt.end.Commits?)];
      FollowsStep(trace, was, k in mid, attempt.end.Commits?);
    }
  }

  /** One marker-free upload sends at most one event about a row, and sends it exactly when a
      live row appears or disappears. */
  lemma HookPerChange(ctx: Context, acked: set<RuleId>, reports: Reports, req: Request, k: ReportKey)
    requires !NonRhelMarked(ctx, req)
    ensures var after := Next(ctx, reports, Uploaded(req, false));
            HooksOf(ctx, acked, reports, req, k) ==
            if !Live(ctx.rules, acked, k.rule) then []
            else if k !in reports && k in after then [New]
            else if k in reports && k !in after then [Resolved] else []
  {
    if !Rejected(ctx, reports, req) {
      var after := PostReports(ctx, reports, req);
      if Mine(req, k) {
        assert k == KeyOf(req, k.rule);
        NewEventsAreGains(ctx, acked, reports, req, k.rule);
        ResolvedAtRule(ctx, acked, reports, req, k.rule);
        NothingLingers(ctx, reports, req, k.rule);
        GainedAtRule(reports, after, req, k.rule);
      } else {
        OthersUntouched(ctx, reports, req);
        assert SameAt(after, reports, k);
      }
    }
  }

  lemma OneMoreAttempt(ctx: Context, acked: set<RuleId>, reports: Reports, run: seq<Attempt>, last: Attempt,
      k: ReportKey)
    ensures var mid := After(ctx, reports, Uploads(run));
            && Trace(ctx, acked, reports, run + [last], k) == Trace(ctx, acked, reports, run, k)
                 + SentBy(ctx, acked, mid, last, k)
            && After(ctx, reports, Uploads(run + [last])) == Next(ctx, mid, Uploaded(last.req, !last.end.Commits?))
  {
    assert (run + [last])[..|run|] == run;
    assert Uploads(run + [last])[..|run|] == Uploads(run);
  }

  /** An upload that creates a live row and is rolled back after its events, and its repetition:
      the rule is announced as new twice. */
  lemma RolledBackEventIsRepeated(ctx: Context, acked: set<RuleId>, reports: Reports, req: Request, k: ReportKey)
    requires !NonRhelMarked(ctx, req) && Live(ctx.rules, acked, k.rule)
    requires k !in reports && k in Next(ctx, reports, Uploaded(req, false))
    ensures var trace := Trace(ctx, acked, reports, [Attempt(req, FailsLate), Attempt(req, Commits)], k);
            trace == [Sent(New, false), Sent(New, true)] && !Alternates(trace)
  {
    var first, second := Attempt(req, FailsLate), Attempt(req, Commits);
    HookPerChange(ctx, acked, reports, req, k);
    OneMoreAttempt(ctx, acked, reports, [], first, k);
    assert [] + [first] == [first] && [first] + [second] == [first, second];
    assert After(ctx, reports, Uploads([])) == reports;
    OneMoreAttempt(ctx, acked, reports, [first], second, k);
    var trace := [Sent(New, false), Sent(New, true)];
    assert trace[1 - 1].hook == trace[1].hook;
  }

  /** There is such an upload: its one report names a known active rule without a row. */
  lemma FirstReportCreatesRow() returns (ctx: Context, req: Request, k: ReportKey)
    ensures !NonRhelMarked(ctx, req) && Live(ctx.rules, {}, k.rule) && k in Next(ctx, map[], Uploaded(req, false))
  {
    ctx := Context(Settings(false, [], false, []), map["r" := RuleInfo(true)]);
    req := Request("h", "o", None, "s", false, "t", [Reported(Some("r"), Some("d"))], 1, 1);
    k := KeyOf(req, "r");
    assert req.reports[0] in req.reports && "r" in ReportedIds(req.reports);
    assert Accepts(ctx, req, req.reports[0]) && "r" in MatchedRules(ctx, req);
    PostKeyAtRule(ctx, map[], req, "r");
  }
}
