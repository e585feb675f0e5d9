/** A handler that is left alone gets through: from any moment of any run of interleaved uploads,
    its own statements one after the other do what the whole upload does in one step. */
module Undisturbed {
  import opened Tables
  import opened Reconcile
  import opened Slices
  import opened Interleaving

  /** Handler t is inside its transaction; all else is as it was. */
  ghost predicate Inside(reqs: seq<Request>, was: System, s: System, t: nat, tx: Tx)
    requires t < |reqs|
  {
    && t < |was.txs| && s.store == was.store && s.txs == was.txs[t := tx]
    && s.locks == was.locks[reqs[t].host := t] && s.commitLog == was.commitLog
  }

  /** Handler t has ended; all else is as it was, but for what it committed. */
  ghost predicate Over(was: System, s: System, t: nat, phase: Phase, store: Store, log: seq<nat>)
  {
    && t < |was.txs| && s.store == store && s.txs == was.txs[t := Tx(phase, map[], map[])]
    && s.locks == was.locks && s.commitLog == log
  }

  /** A schedule of this handler's own statements, none of which is an exception from outside. */
  predicate OwnSteps(actions: seq<Action>, t: nat) {
    forall i :: 0 <= i < |actions| ==> actions[i].t == t && !actions[i].Abort?
  }

  lemma RunOneMore(ctx: Context, reqs: seq<Request>, s: System, actions: seq<Action>, a: Action)
    requires |s.txs| == |reqs|
    ensures Run(ctx, reqs, s, actions + [a]) == Step(ctx, reqs, Run(ctx, reqs, s, actions), a)
  {
    assert (actions + [a])[..|actions|] == actions;
  }

  // ---------- one step each ----------

  lemma Enters(ctx: Context, reqs: seq<Request>, was: System, t: nat) returns (s: System)
    requires t < |reqs| == |was.txs| && was.txs[t] == Tx(Waiting, map[], map[]) && reqs[t].host !in was.locks
    ensures |s.txs| == |reqs|
    ensures s == Run(ctx, reqs, was, [CreateHost(t), Lock(t), ReadRows(t)])
    ensures Inside(reqs, was, s, t, Tx(Read(RowsOf(was.store.reports, reqs[t])), map[], map[]))
  {
    RunOneMore(ctx, reqs, was, [], CreateHost(t));
    RunOneMore(ctx, reqs, was, [CreateHost(t)], Lock(t));
    RunOneMore(ctx, reqs, was, [CreateHost(t), Lock(t)], ReadRows(t));
    assert [] + [CreateHost(t)] == [CreateHost(t)] && [CreateHost(t)] + [Lock(t)] == [CreateHost(t), Lock(t)];
    assert [CreateHost(t), Lock(t)] + [ReadRows(t)] == [CreateHost(t), Lock(t), ReadRows(t)];
    var one := Step(ctx, reqs, was, CreateHost(t));
    var two := Step(ctx, reqs, one, Lock(t));
    assert one.txs[t] == Tx(HostReady, map[], map[]) && reqs[t].host in one.hosts;
    assert two.txs == was.txs[t := Tx(Locked, map[], map[])];
    assert Overlay<ReportKey, Report>(was.store.reports, map[]) == was.store.reports;
    s := Step(ctx, reqs, two, ReadRows(t));
  }

  lemma GivesUp(reqs: seq<Request>, was: System, s: System, t: nat, tx: Tx)
    requires t < |reqs| == |was.txs| && Inside(reqs, was, s, t, tx) && InTransaction(tx.phase)
    requires reqs[t].host !in was.locks
    ensures Over(was, RollBack(s, t, reqs[t].host), t, Aborted, was.store, was.commitLog)
  {
    assert was.locks[reqs[t].host := t] - {reqs[t].host} == was.locks;
  }

  lemma Registers(ctx: Context, reqs: seq<Request>, was: System, s: System, t: nat, snapshot: Reports)
    returns (uploads: map<UploadKey, Option<Upload>>)
    requires t < |reqs| == |was.txs| == |s.txs| && Inside(reqs, was, s, t, Tx(Read(snapshot), map[], map[]))
    requires reqs[t].host !in was.locks
    ensures var now := Step(ctx, reqs, s, RegisterUpload(t));
            if UploadConflict(was.store.uploads, reqs[t]) then Over(was, now, t, Aborted, was.store, was.commitLog)
            else && Inside(reqs, was, now, t, Tx(Registered(snapshot), map[], uploads))
                 && Overlay(was.store.uploads, uploads) == UpsertUpload(was.store.uploads, reqs[t])
  {
    var view := Overlay<UploadKey, Upload>(was.store.uploads, map[]);
    assert view == was.store.uploads;
    uploads := Record(map[], view, UpsertUpload(view, reqs[t]));
    OverlayRecord(was.store.uploads, map[], UpsertUpload(view, reqs[t]));
    if UploadConflict(was.store.uploads, reqs[t]) {
      GivesUp(reqs, was, s, t, Tx(Read(snapshot), map[], map[]));
    }
  }

  lemma Inserts(ctx: Context, reqs: seq<Request>, was: System, s: System, t: nat, snapshot: Reports,
      uploads: map<UploadKey, Option<Upload>>) returns (reports: map<ReportKey, Option<Report>>)
    requires t < |reqs| == |was.txs| == |s.txs| && Inside(reqs, was, s, t, Tx(Registered(snapshot), map[], uploads))
    requires reqs[t].host !in was.locks
    ensures var now, plan := Step(ctx, reqs, s, InsertNew(t)), BuildPlan(ctx, snapshot, reqs[t], |reqs[t].reports|);
            if MissingRuleId(reqs[t]) || plan.Broken? || InsertAll(was.store.reports, reqs[t], plan.added).None?
            then Over(was, now, t, Aborted, was.store, was.commitLog)
            else && Inside(reqs, was, now, t, Tx(Writing(snapshot, plan, 0), reports, uploads))
                 && Overlay(was.store.reports, reports) == InsertAll(was.store.reports, reqs[t], plan.added).value
  {
    var plan, view := BuildPlan(ctx, snapshot, reqs[t], |reqs[t].reports|), was.store.reports;
    assert Overlay<ReportKey, Report>(view, map[]) == view;
    reports := map[];
    if MissingRuleId(reqs[t]) || plan.Broken? || InsertAll(view, reqs[t], plan.added).None? {
      GivesUp(reqs, was, s, t, Tx(Registered(snapshot), map[], uploads));
    } else {
      var view' := InsertAll(view, reqs[t], plan.added).value;
      reports := Record(map[], view, view');
      OverlayRecord(view, map[], view');
    }
  }

  lemma UpdatesOne(ctx: Context, reqs: seq<Request>, was: System, s: System, t: nat, snapshot: Reports, plan: Plan,
      reports: map<ReportKey, Option<Report>>, uploads: map<UploadKey, Option<Upload>>, n: nat)
    returns (reports': map<ReportKey, Option<Report>>)
    requires t < |reqs| == |was.txs| == |s.txs| && plan.Plan? && n < |plan.known|
    requires Inside(reqs, was, s, t, Tx(Writing(snapshot, plan, n), reports, uploads))
    ensures Inside(reqs, was, Step(ctx, reqs, s, UpdateNext(t)), t,
              Tx(Writing(snapshot, plan, n + 1), reports', uploads))
    ensures Overlay(was.store.reports, reports') ==
            UpdateOne(Overlay(was.store.reports, reports), reqs[t], plan.known[n])
  {
    var view := Overlay(was.store.reports, reports);
    var view' := UpdateOne(view, reqs[t], plan.known[n]);
    OverlayRecord(was.store.reports, reports, view');
    reports' := Record(reports, view, view');
  }

  /** The remaining updates, one after the other. */
  lemma {:induction false} UpdatesAll(ctx: Context, reqs: seq<Request>, was: System, s: System, t: nat,
      snapshot: Reports, plan: Plan, reports: map<ReportKey, Option<Report>>, uploads: map<UploadKey, Option<Upload>>,
      inserted: Reports, n: nat)
    returns (own: seq<Action>, reports': map<ReportKey, Option<Report>>)
    requires t < |reqs| == |was.txs| == |s.txs| && plan.Plan? && n <= |plan.known|
    requires Inside(reqs, was, s, t, Tx(Writing(snapshot, plan, 0), reports, uploads))
    requires Overlay(was.store.reports, reports) == inserted
    ensures OwnSteps(own, t)
    ensures Inside(reqs, was, Run(ctx, reqs, s, own), t, Tx(Writing(snapshot, plan, n), reports', uploads))
    ensures Overlay(was.store.reports, reports') == UpdateAll(inserted, reqs[t], plan.known[..n])
  {
    if n == 0 {
      own, reports' := [], reports;
    } else {
      var before, mid := UpdatesAll(ctx, reqs, was, s, t, snapshot, plan, reports, uploads, inserted, n - 1);
      own := before + [UpdateNext(t)];
      RunOneMore(ctx, reqs, s, before, UpdateNext(t));
      assert plan.known[..n][..n - 1] == plan.known[..n - 1];
      reports' := UpdatesOne(ctx, reqs, was, Run(ctx, reqs, s, before), t, snapshot, plan, mid, uploads, n - 1);
    }
  }

  lemma Deletes(ctx: Context, reqs: seq<Request>, was: System, s: System, t: nat, snapshot: Reports, plan: Plan,
      reports: map<ReportKey, Option<Report>>, uploads: map<UploadKey, Option<Upload>>)
    returns (reports': map<ReportKey, Option<Report>>)
    requires t < |reqs| == |was.txs| == |s.txs| && plan.Plan?
    requires Inside(reqs, was, s, t, Tx(Writing(snapshot, plan, |plan.known|), reports, uploads))
    ensures Inside(reqs, was, Step(ctx, reqs, s, DeleteStale(t)), t, Tx(Written, reports', uploads))
    ensures Overlay(was.store.reports, reports') ==
            DeleteRules(Overlay(was.store.reports, reports), reqs[t], StaleRules(ctx, snapshot, reqs[t]))
  {
    var view := Overlay(was.store.reports, reports);
    var view' := DeleteRules(view, reqs[t], StaleRules(ctx, snapshot, reqs[t]));
    OverlayRecord(was.store.reports, reports, view');
    reports' := Record(reports, view, view');
  }

  lemma Commits(ctx: Context, reqs: seq<Request>, was: System, s: System, t: nat,
      reports: map<ReportKey, Option<Report>>, uploads: map<UploadKey, Option<Upload>>)
    requires t < |reqs| == |was.txs| == |s.txs| && reqs[t].host !in was.locks
    requires Inside(reqs, was, s, t, Tx(Written, reports, uploads))
    ensures Over(was, Step(ctx, reqs, s, Commit(t)), t, Committed,
                 Store(Overlay(was.store.reports, reports), Overlay(was.store.uploads, uploads)), was.commitLog + [t])
  {
    assert was.locks[reqs[t].host := t] - {reqs[t].host} == was.locks;
  }

  // ---------- the whole handler ----------

  /** From the inserted rows to the commit. */
  lemma Finishes(ctx: Context, reqs: seq<Request>, was: System, s: System, t: nat, snapshot: Reports, plan: Plan,
      reports: map<ReportKey, Option<Report>>, uploads: map<UploadKey, Option<Upload>>, inserted: Reports)
    returns (own: seq<Action>)
    requires t < |reqs| == |was.txs| == |s.txs| && plan.Plan? && reqs[t].host !in was.locks
    requires Inside(reqs, was, s, t, Tx(Writing(snapshot, plan, 0), reports, uploads))
    requires Overlay(was.store.reports, reports) == inserted
    ensures OwnSteps(own, t)
    ensures Over(was, Run(ctx, reqs, s, own), t, Committed,
                 Store(DeleteRules(UpdateAll(inserted, reqs[t], plan.known), reqs[t],
                                   StaleRules(ctx, snapshot, reqs[t])),
                       Overlay(was.store.uploads, uploads)),
                 was.commitLog + [t])
  {
    var updates, mid :=
      UpdatesAll(ctx, reqs, was, s, t, snapshot, plan, reports, uploads, inserted, |plan.known|);
    assert plan.known[..|plan.known|] == plan.known;
    var updated := Run(ctx, reqs, s, updates);
    var end := Deletes(ctx, reqs, was, updated, t, snapshot, plan, mid, uploads);
    RunOneMore(ctx, reqs, s, updates, DeleteStale(t));
    Commits(ctx, reqs, was, Step(ctx, reqs, updated, DeleteStale(t)), t, end, uploads);
    RunOneMore(ctx, reqs, s, updates + [DeleteStale(t)], Commit(t));
    own := updates + [DeleteStale(t)] + [Commit(t)];
  }

  lemma {:induction false} RunTwice(ctx: Context, reqs: seq<Request>, s: System, a: seq<Action>, b: seq<Action>)
    requires |s.txs| == |reqs|
    ensures Run(ctx, reqs, s, a + b) == Run(ctx, reqs, Run(ctx, reqs, s, a), b)
  {
    if b == [] {
      assert a + b == a;
    } else {
      var before, last := b[..|b| - 1], b[|b| - 1];
      assert a + b == (a + before) + [last] && b == before + [last];
      RunTwice(ctx, reqs, s, a, before);
      RunOneMore(ctx, reqs, s, a + before, last);
      RunOneMore(ctx, reqs, Run(ctx, reqs, s, a), before, last);
    }
  }

  /** The handler is rolled back without a trace exactly when its upload conflicts with another
      org's or its reports are rejected; otherwise it has committed, and the tables are those of
      the upload in one step. */
  ghost predicate Ends(ctx: Context, reqs: seq<Request>, was: System, now: System, t: nat)
    requires t < |reqs|
  {
    && now.store == Apply(ctx, was.store, reqs[t])
    && if UploadConflict(was.store.uploads, reqs[t]) || Rejected(ctx, was.store.reports, reqs[t])
       then Over(was, now, t, Aborted, was.store, was.commitLog)
       else Over(was, now, t, Committed,
                 Store(PostReports(ctx, was.store.reports, reqs[t]), UpsertUpload(was.store.uploads, reqs[t])),
                 was.commitLog + [t])
  }

  /** A waiting handler whose host is not locked ends by its own statements alone. It is rolled
      back without a trace exactly when its upload conflicts with another org's or its reports
      are rejected; otherwise it commits, and the tables are those of the upload in one step. */
  lemma LeftAloneEnds(
    ctx: Context, init: Store, hosts: set<HostId>, reqs: seq<Request>, actions: seq<Action>, t: nat)
    returns (own: seq<Action>)
    requires t < |reqs|
    requires var s := Run(ctx, reqs, Start(init, hosts, reqs), actions);
             s.txs[t].phase.Waiting? && reqs[t].host !in s.locks
    ensures OwnSteps(own, t)
    ensures Ends(ctx, reqs, Run(ctx, reqs, Start(init, hosts, reqs), actions),
                 Run(ctx, reqs, Start(init, hosts, reqs), actions + own), t)
  {
    RunKeepsInv(ctx, init, hosts, reqs, actions);
    var was := Run(ctx, reqs, Start(init, hosts, reqs), actions);
    assert TxInv(ctx, was.store, reqs[t], was.txs[t]);
    own := EndsFrom(ctx, reqs, was, t);
    RunTwice(ctx, reqs, Start(init, hosts, reqs), actions, own);
  }

  /** From the registered upload to the end. */
  lemma Statements(ctx: Context, reqs: seq<Request>, was: System, s: System, t: nat,
      uploads: map<UploadKey, Option<Upload>>) returns (own: seq<Action>)
    requires t < |reqs| == |was.txs| == |s.txs| && reqs[t].host !in was.locks
    requires Inside(reqs, was, s, t, Tx(Registered(RowsOf(was.store.reports, reqs[t])), map[], uploads))
    ensures OwnSteps(own, t)
    ensures var now, end := Run(ctx, reqs, s, own), RunStatements(ctx, was.store.reports, reqs[t]);
            if end.None? then Over(was, now, t, Aborted, was.store, was.commitLog)
            else Over(was, now, t, Committed, Store(end.value, Overlay(was.store.uploads, uploads)),
                      was.commitLog + [t])
  {
    var req, snapshot := reqs[t], RowsOf(was.store.reports, reqs[t]);
    var reports := Inserts(ctx, reqs, was, s, t, snapshot, uploads);
    own := [InsertNew(t)];
    RunOneMore(ctx, reqs, s, [], InsertNew(t));
    assert [] + [InsertNew(t)] == own;
    var plan := BuildPlan(ctx, snapshot, req, |req.reports|);
    if !MissingRuleId(req) && plan.Plan? && InsertAll(was.store.reports, req, plan.added).Some? {
      var rest := Finishes(ctx, reqs, was, Step(ctx, reqs, s, InsertNew(t)), t, snapshot, plan, reports, uploads,
                           InsertAll(was.store.reports, req, plan.added).value);
      RunTwice(ctx, reqs, s, own, rest);
      own := own + rest;
    }
  }

  /** The first four statements. */
  lemma Begins(ctx: Context, reqs: seq<Request>, was: System, t: nat)
    returns (s: System, own: seq<Action>, uploads: map<UploadKey, Option<Upload>>)
    requires t < |reqs| == |was.txs| && was.txs[t] == Tx(Waiting, map[], map[]) && reqs[t].host !in was.locks
    ensures OwnSteps(own, t) && s == Run(ctx, reqs, was, own) && |s.txs| == |reqs|
    ensures if UploadConflict(was.store.uploads, reqs[t]) then Over(was, s, t, Aborted, was.store, was.commitLog)
            else && Inside(reqs, was, s, t, Tx(Registered(RowsOf(was.store.reports, reqs[t])), map[], uploads))
                 && Overlay(was.store.uploads, uploads) == UpsertUpload(was.store.uploads, reqs[t])
  {
    var entering := [CreateHost(t), Lock(t), ReadRows(t)];
    var read := Enters(ctx, reqs, was, t);
    uploads := Registers(ctx, reqs, was, read, t, RowsOf(was.store.reports, reqs[t]));
    RunOneMore(ctx, reqs, was, entering, RegisterUpload(t));
    own := entering + [RegisterUpload(t)];
    s := Step(ctx, reqs, read, RegisterUpload(t));
  }

  lemma EndsFrom(ctx: Context, reqs: seq<Request>, was: System, t: nat) returns (own: seq<Action>)
    requires t < |reqs| == |was.txs| && was.txs[t] == Tx(Waiting, map[], map[]) && reqs[t].host !in was.locks
    ensures OwnSteps(own, t) && Ends(ctx, reqs, was, Run(ctx, reqs, was, own), t)
  {
    var s, first, uploads := Begins(ctx, reqs, was, t);
    own := first;
    if !UploadConflict(was.store.uploads, reqs[t]) {
      StatementsMeetDescription(ctx, was.store.reports, reqs[t]);
      var rest := Statements(ctx, reqs, was, s, t, uploads);
      RunTwice(ctx, reqs, was, first, rest);
      own := first + rest;
    }
  }

  // ---------- exceptions ----------

  /** Nothing the handler wrote is left, it has given up its own lock and no other, and no other
      handler is touched; one that had ended stays as it was. */
  ghost predicate RolledBack(was: System, now: System, t: nat)
    requires t < |was.txs|
  {
    if was.txs[t].phase.Committed? || was.txs[t].phase.Aborted? then now == was
    else && now.txs == was.txs[t := Tx(Aborted, map[], map[])] && now.store == was.store
         && now.hosts == was.hosts && now.commitLog == was.commitLog
         && forall h :: h in now.locks <==> h in was.locks && was.locks[h] != t
  }

  lemma AbortRollsBack(ctx: Context, reqs: seq<Request>, was: System, t: nat)
    requires |was.txs| == |reqs| && t < |reqs| && LockInv(reqs, was)
    ensures RolledBack(was, Step(ctx, reqs, was, Abort(t)), t)
  {
  }

  /** An exception at any moment of a handler that has not ended rolls it back. */
  lemma ExceptionEnds(
    ctx: Context, init: Store, hosts: set<HostId>, reqs: seq<Request>, actions: seq<Action>, t: nat)
    requires t < |reqs|
    ensures RolledBack(Run(ctx, reqs, Start(init, hosts, reqs), actions),
                       Run(ctx, reqs, Start(init, hosts, reqs), actions + [Abort(t)]), t)
  {
    RunKeepsInv(ctx, init, hosts, reqs, actions);
    AbortRollsBack(ctx, reqs, Run(ctx, reqs, Start(init, hosts, reqs), actions), t);
    RunOneMore(ctx, reqs, Start(init, hosts, reqs), actions, Abort(t));
  }
}
