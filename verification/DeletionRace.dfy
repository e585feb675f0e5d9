/** Inventory deletions running beside upload handlers, statement by statement. A deletion takes
    no host lock: it waits only for upload rows that an open transaction has written. Where the
    database would make it wait for report rows as well the model lets it go on, so it allows
    more runs than there are. */
module DeletionRace {
  import opened Tables
  import opened Reconcile
  import opened Slices
  import opened Interleaving
  import Deletion = InventoryDelete

  datatype Event = Handler(action: Action) | Delete(stage: Deletion.Stage, host: HostId, org: OrgId)

  datatype World = World(system: System, hostAcks: set<HostAck>)

  /** The transaction has written its upload row and not ended. */
  predicate HoldsUpload(p: Phase) {
    p.Registered? || p.Writing? || p.Written?
  }

  function Committed(w: World): Deletion.State {
    Deletion.State(w.system.store.reports, w.system.store.uploads, w.hostAcks)
  }

  /** Some open transaction holds a row the statement is about to delete. */
  predicate Waits(reqs: seq<Request>, w: World, h: HostId, o: OrgId)
    requires |w.system.txs| == |reqs|
  {
    exists t :: && 0 <= t < |reqs| && HoldsUpload(w.system.txs[t].phase)
                && UploadKeyOf(reqs[t]) in Deletion.CurrentUploads(Committed(w), h, o)
  }

  function Next(ctx: Context, reqs: seq<Request>, w: World, e: Event): (r: World)
    requires |w.system.txs| == |reqs|
    ensures |r.system.txs| == |reqs|
  {
    match e
    case Handler(action) => w.(system := Step(ctx, reqs, w.system, action))
    case Delete(stage, h, o) =>
      if stage.UploadStage? && Waits(reqs, w, h, o) then w
      else
        var now := Deletion.Drop(Committed(w), stage, h, o);
        World(w.system.(store := Store(now.reports, now.uploads)), now.hostAcks)
  }

  function After(ctx: Context, reqs: seq<Request>, w: World, events: seq<Event>): (r: World)
    requires |w.system.txs| == |reqs|
    ensures |r.system.txs| == |reqs|
  {
    if events == [] then w
    else Next(ctx, reqs, After(ctx, reqs, w, events[..|events| - 1]), events[|events| - 1])
  }

  // ---------- the invariant ----------

  predicate LinksTo(k: ReportKey, row: Report, req: Request) {
    Mine(req, k) && row.upload == UploadKeyOf(req)
  }

  ghost predicate WritesLink(writes: map<ReportKey, Option<Report>>, req: Request) {
    forall k :: k in writes && writes[k].Some? ==> LinksTo(k, writes[k].value, req)
  }

  ghost predicate DraftsLink(drafts: seq<Draft>, req: Request) {
    forall i :: 0 <= i < |drafts| ==> drafts[i].row.upload == UploadKeyOf(req)
  }

  /** What an open transaction has written is linked to its own upload, which it sees. */
  ghost predicate TxLinks(store: Store, req: Request, tx: Tx) {
    if HoldsUpload(tx.phase) then
      && UploadKeyOf(req) in Overlay(store.uploads, tx.uploads)
      && (forall k :: k in tx.uploads ==> tx.uploads[k].Some?)
      && WritesLink(tx.reports, req)
      && (tx.phase.Writing? && tx.phase.plan.Plan? ==> DraftsLink(tx.phase.plan.known, req))
    else tx.reports == map[] && tx.uploads == map[]
  }

  ghost predicate LinkInv(reqs: seq<Request>, s: System) {
    && |s.txs| == |reqs|
    && Deletion.OwnLinks(s.store.reports, s.store.uploads)
    && forall t :: 0 <= t < |reqs| ==> TxLinks(s.store, reqs[t], s.txs[t])
  }

  // ---------- what the statements write ----------

  lemma RecordLinks(writes: map<ReportKey, Option<Report>>, view: Reports, view': Reports, req: Request)
    requires WritesLink(writes, req)
    requires forall k :: SameAt(view', view, k) || k !in view' || LinksTo(k, view'[k], req)
    ensures WritesLink(Record(writes, view, view'), req)
  {
    var writes' := Record(writes, view, view');
    forall k | k in writes' && writes'[k].Some? ensures LinksTo(k, writes'[k].value, req) {
      assert SameAt(view', view, k) || k !in view' || LinksTo(k, view'[k], req);
    }
  }

  lemma {:induction false} PlanLinks(ctx: Context, snapshot: Reports, req: Request, n: nat)
    requires n <= |req.reports|
    ensures var plan := BuildPlan(ctx, snapshot, req, n);
            plan.Plan? ==> DraftsLink(plan.added, req) && DraftsLink(plan.known, req)
  {
    if n > 0 {
      PlanLinks(ctx, snapshot, req, n - 1);
    }
  }

  lemma {:induction false} InsertLinks(reports: Reports, req: Request, drafts: seq<Draft>)
    requires InsertAll(reports, req, drafts).Some? && DraftsLink(drafts, req)
    ensures var now := InsertAll(reports, req, drafts).value;
            forall k :: SameAt(now, reports, k) || (k in now && LinksTo(k, now[k], req))
  {
    if drafts != [] {
      var before, last := drafts[..|drafts| - 1], drafts[|drafts| - 1];
      InsertLinks(reports, req, before);
      var was, now := InsertAll(reports, req, before).value, InsertAll(reports, req, drafts).value;
      forall k ensures SameAt(now, reports, k) || (k in now && LinksTo(k, now[k], req)) {
        assert SameAt(was, reports, k) || (k in was && LinksTo(k, was[k], req));
      }
    }
  }

  lemma RegisterLinks(store: Store, req: Request)
    ensures var view := Overlay<UploadKey, Upload>(store.uploads, map[]);
            var writes := Record(map[], view, UpsertUpload(view, req));
            && UploadKeyOf(req) in Overlay(store.uploads, writes)
            && forall k :: k in writes ==> writes[k].Some?
  {
    var view := Overlay<UploadKey, Upload>(store.uploads, map[]);
    OverlayRecord(store.uploads, map[], UpsertUpload(view, req));
  }

  /** A statement on reports keeps a transaction's writes linked. */
  lemma ReportsLink(store: Store, req: Request, tx: Tx, view': Reports, phase: Phase)
    requires TxLinks(store, req, tx) && HoldsUpload(tx.phase) && HoldsUpload(phase)
    requires phase.Writing? && phase.plan.Plan? ==> DraftsLink(phase.plan.known, req)
    requires var view := Overlay(store.reports, tx.reports);
             forall k :: SameAt(view', view, k) || k !in view' || LinksTo(k, view'[k], req)
    ensures var reports := Record(tx.reports, Overlay(store.reports, tx.reports), view');
            TxLinks(store, req, tx.(phase := phase, reports := reports))
  {
    RecordLinks(tx.reports, Overlay(store.reports, tx.reports), view', req);
  }

  // ---------- every step keeps the invariant ----------

  lemma InsertStepLinks(ctx: Context, reqs: seq<Request>, s: System, t: nat)
    requires LinkInv(reqs, s) && t < |reqs| && s.txs[t].phase.Registered?
    ensures TxLinks(s.store, reqs[t], Step(ctx, reqs, s, InsertNew(t)).txs[t])
  {
    var req, tx := reqs[t], s.txs[t];
    var plan := BuildPlan(ctx, tx.phase.snapshot, req, |req.reports|);
    if !MissingRuleId(req) && plan.Plan? && InsertAll(ReportView(s, t), req, plan.added).Some? {
      PlanLinks(ctx, tx.phase.snapshot, req, |req.reports|);
      InsertLinks(ReportView(s, t), req, plan.added);
      ReportsLink(s.store, req, tx, InsertAll(ReportView(s, t), req, plan.added).value,
                  Writing(tx.phase.snapshot, plan, 0));
    }
  }

  lemma UpdateStepLinks(ctx: Context, reqs: seq<Request>, s: System, t: nat)
    requires LinkInv(reqs, s) && t < |reqs| && s.txs[t].phase.Writing?
    ensures TxLinks(s.store, reqs[t], Step(ctx, reqs, s, UpdateNext(t)).txs[t])
  {
    var p := s.txs[t].phase;
    if p.plan.Plan? && p.updated < |p.plan.known| {
      ReportsLink(s.store, reqs[t], s.txs[t], UpdateOne(ReportView(s, t), reqs[t], p.plan.known[p.updated]),
                  p.(updated := p.updated + 1));
    }
  }

  lemma DeleteStepLinks(ctx: Context, reqs: seq<Request>, s: System, t: nat)
    requires LinkInv(reqs, s) && t < |reqs| && s.txs[t].phase.Writing?
    ensures TxLinks(s.store, reqs[t], Step(ctx, reqs, s, DeleteStale(t)).txs[t])
  {
    var p := s.txs[t].phase;
    if p.plan.Plan? && p.updated == |p.plan.known| {
      ReportsLink(s.store, reqs[t], s.txs[t],
                  DeleteRules(ReportView(s, t), reqs[t], StaleRules(ctx, p.snapshot, reqs[t])), Written);
    }
  }

  /** A step other than a commit leaves the tables and the other transactions alone. */
  lemma StepFrame(ctx: Context, reqs: seq<Request>, s: System, a: Action)
    requires |s.txs| == |reqs| && !(a.Commit? && a.t < |reqs| && s.txs[a.t].phase.Written?)
    ensures var s' := Step(ctx, reqs, s, a);
            && s'.store == s.store && |s'.txs| == |s.txs|
            && (forall t :: 0 <= t < |reqs| && t != a.t ==> s'.txs[t] == s.txs[t])
            && (a.t >= |reqs| ==> s' == s)
  {
  }

  lemma RegisterStepLinks(ctx: Context, reqs: seq<Request>, s: System, t: nat)
    requires LinkInv(reqs, s) && t < |reqs| && s.txs[t].phase.Read?
    ensures TxLinks(s.store, reqs[t], Step(ctx, reqs, s, RegisterUpload(t)).txs[t])
  {
    RegisterLinks(s.store, reqs[t]);
  }

  lemma PlainStepLinks(ctx: Context, reqs: seq<Request>, s: System, a: Action)
    requires LinkInv(reqs, s) && a.t < |reqs|
    requires a.CreateHost? || a.Lock? || a.ReadRows? || a.Abort? || (a.Commit? && !s.txs[a.t].phase.Written?)
    ensures TxLinks(s.store, reqs[a.t], Step(ctx, reqs, s, a).txs[a.t])
  {
  }

  lemma OwnStepLinks(ctx: Context, reqs: seq<Request>, s: System, a: Action)
    requires LinkInv(reqs, s) && a.t < |reqs| && !(a.Commit? && s.txs[a.t].phase.Written?)
    ensures TxLinks(s.store, reqs[a.t], Step(ctx, reqs, s, a).txs[a.t])
  {
    var p := s.txs[a.t].phase;
    match a
    case RegisterUpload(t) => if p.Read? { RegisterStepLinks(ctx, reqs, s, t); }
    case InsertNew(t) => if p.Registered? { InsertStepLinks(ctx, reqs, s, t); }
    case UpdateNext(t) => if p.Writing? { UpdateStepLinks(ctx, reqs, s, t); }
    case DeleteStale(t) => if p.Writing? { DeleteStepLinks(ctx, reqs, s, t); }
    case _ => PlainStepLinks(ctx, reqs, s, a);
  }

  lemma CommitKeepsLinks(reqs: seq<Request>, s: System, t: nat)
    requires LinkInv(reqs, s) && t < |reqs| && s.txs[t].phase.Written?
    ensures LinkInv(reqs, Publish(s, t, reqs[t].host))
  {
    var s', tx := Publish(s, t, reqs[t].host), s.txs[t];
    forall k | k in s.store.uploads ensures k in s'.store.uploads {
    }
    forall k | k in s'.store.reports
      ensures var link := s'.store.reports[k].upload;
              link in s'.store.uploads && link.host == k.host && link.org == k.org
    {
      assert k in tx.reports || k in s.store.reports;
    }
    forall u | 0 <= u < |reqs| ensures TxLinks(s'.store, reqs[u], s'.txs[u]) {
      assert TxLinks(s.store, reqs[u], s.txs[u]);
    }
  }

  lemma DeleteKeepsLinks(ctx: Context, reqs: seq<Request>, w: World, stage: Deletion.Stage, h: HostId, o: OrgId)
    requires LinkInv(reqs, w.system)
    ensures LinkInv(reqs, Next(ctx, reqs, w, Delete(stage, h, o)).system)
  {
    var w' := Next(ctx, reqs, w, Delete(stage, h, o));
    if w' != w {
      Deletion.StageKeepsLinks(Committed(w), stage, h, o);
      forall t | 0 <= t < |reqs| ensures TxLinks(w'.system.store, reqs[t], w'.system.txs[t]) {
        assert TxLinks(w.system.store, reqs[t], w.system.txs[t]);
      }
    }
  }

  lemma NextKeepsLinks(ctx: Context, reqs: seq<Request>, w: World, e: Event)
    requires LinkInv(reqs, w.system)
    ensures LinkInv(reqs, Next(ctx, reqs, w, e).system)
  {
    match e
    case Delete(stage, h, o) => DeleteKeepsLinks(ctx, reqs, w, stage, h, o);
    case Handler(a) =>
      if a.Commit? && a.t < |reqs| && w.system.txs[a.t].phase.Written? {
        CommitKeepsLinks(reqs, w.system, a.t);
      } else {
        StepFrame(ctx, reqs, w.system, a);
        if a.t < |reqs| {
          OwnStepLinks(ctx, reqs, w.system, a);
        }
      }
  }

  // ---------- the theorem ----------

  /** From tables in which every report is linked to an upload of its own host and org, however
      the statements of any number of uploads and deletions interleave and whichever of them
      fail, the committed tables are like that at every moment; so a deletion statement, at
      whatever moment it runs, touches no other host's or org's reports. */
  lemma {:induction false} LinksStayOwn(
    ctx: Context, init: Store, hosts: set<HostId>, acks: set<HostAck>, reqs: seq<Request>, events: seq<Event>)
    requires Deletion.OwnLinks(init.reports, init.uploads)
    ensures var w := After(ctx, reqs, World(Start(init, hosts, reqs), acks), events);
            && LinkInv(reqs, w.system)
            && forall stage: Deletion.Stage, h: HostId, o: OrgId, k: ReportKey :: !(k.host == h && k.org == o) ==>
                 SameAt(Deletion.Drop(Committed(w), stage, h, o).reports, w.system.store.reports, k)
  {
    var start := World(Start(init, hosts, reqs), acks);
    if events != [] {
      var before := events[..|events| - 1];
      LinksStayOwn(ctx, init, hosts, acks, reqs, before);
      NextKeepsLinks(ctx, reqs, After(ctx, reqs, start, before), events[|events| - 1]);
    }
    var w := After(ctx, reqs, start, events);
    forall stage: Deletion.Stage, h: HostId, o: OrgId, k: ReportKey | !(k.host == h && k.org == o)
      ensures SameAt(Deletion.Drop(Committed(w), stage, h, o).reports, w.system.store.reports, k)
    {
      OthersKept(Committed(w), stage, h, o, k);
    }
  }

  lemma OthersKept(s: Deletion.State, stage: Deletion.Stage, h: HostId, o: OrgId, k: ReportKey)
    requires Deletion.OwnLinks(s.reports, s.uploads) && !(k.host == h && k.org == o)
    ensures SameAt(Deletion.Drop(s, stage, h, o).reports, s.reports, k)
  {
  }

  // ---------- what the steps do ----------

  /** An open transaction holds the current upload row of this host, org and source. */
  ghost predicate Held(reqs: seq<Request>, w: World, h: HostId, o: OrgId)
    requires |w.system.txs| == |reqs|
  {
    exists t, source ::
      && 0 <= t < |reqs| && reqs[t].host == h && reqs[t].org == o && reqs[t].source == source
      && (w.system.txs[t].phase.Registered? || w.system.txs[t].phase.Writing? || w.system.txs[t].phase.Written?)
      && UploadKey(h, o, source) in w.system.store.uploads
      && w.system.store.uploads[UploadKey(h, o, source)].current
  }

  lemma WaitsExactly(reqs: seq<Request>, w: World, h: HostId, o: OrgId)
    requires |w.system.txs| == |reqs|
    ensures Waits(reqs, w, h, o) <==> Held(reqs, w, h, o)
  {
    if Waits(reqs, w, h, o) {
      var t :| && 0 <= t < |reqs| && HoldsUpload(w.system.txs[t].phase)
               && UploadKeyOf(reqs[t]) in Deletion.CurrentUploads(Committed(w), h, o);
      assert UploadKeyOf(reqs[t]) == UploadKey(h, o, reqs[t].source);
    }
    if Held(reqs, w, h, o) {
      var t, source :|
        && 0 <= t < |reqs| && reqs[t].host == h && reqs[t].org == o && reqs[t].source == source
        && (w.system.txs[t].phase.Registered? || w.system.txs[t].phase.Writing? || w.system.txs[t].phase.Written?)
        && UploadKey(h, o, source) in w.system.store.uploads
        && w.system.store.uploads[UploadKey(h, o, source)].current;
      assert UploadKeyOf(reqs[t]) == UploadKey(h, o, source);
    }
  }

  /** The row of this upload is a current one of the host and org. */
  predicate CurrentOf(uploads: Uploads, u: UploadKey, h: HostId, o: OrgId) {
    u.host == h && u.org == o && u in uploads && uploads[u].current
  }

  /** A deletion statement on uploads waits exactly while an open transaction holds such a row.
      Otherwise it takes away the current uploads of the host and org and the reports linked to
      them; the other statements take away their reports, and their acknowledgements. All else
      stays, and every transaction goes on as it was. */
  lemma DeleteExactly(ctx: Context, reqs: seq<Request>, w: World, stage: Deletion.Stage, h: HostId, o: OrgId)
    requires |w.system.txs| == |reqs|
    ensures var was, now := w.system.store, Next(ctx, reqs, w, Delete(stage, h, o));
            if stage.UploadStage? && Held(reqs, w, h, o) then now == w
            else
              && now.system == w.system.(store := now.system.store)
              && (forall u :: if stage.UploadStage? && CurrentOf(was.uploads, u, h, o)
                              then u !in now.system.store.uploads
                              else SameAt(now.system.store.uploads, was.uploads, u))
              && (forall k: ReportKey ::
                              if || (stage.ReportStage? && k.host == h && k.org == o)
                                 || (stage.UploadStage? && k in was.reports
                                     && CurrentOf(was.uploads, was.reports[k].upload, h, o))
                              then k !in now.system.store.reports
                              else SameAt(now.system.store.reports, was.reports, k))
              && (forall a :: a in now.hostAcks <==> a in w.hostAcks && !(stage.AckStage? && a.host == h && a.org == o))
  {
    WaitsExactly(reqs, w, h, o);
    forall u ensures u in Deletion.CurrentUploads(Committed(w), h, o) <==> CurrentOf(w.system.store.uploads, u, h, o) {
    }
  }

  function Handlers(actions: seq<Action>): seq<Event> {
    seq(|actions|, i requires 0 <= i < |actions| => Handler(actions[i]))
  }

  /** Without deletions the handlers run as they do among themselves. */
  lemma {:induction false} HandlersAlone(ctx: Context, reqs: seq<Request>, w: World, actions: seq<Action>)
    requires |w.system.txs| == |reqs|
    ensures After(ctx, reqs, w, Handlers(actions)) == World(Run(ctx, reqs, w.system, actions), w.hostAcks)
  {
    if actions != [] {
      HandlersAlone(ctx, reqs, w, actions[..|actions| - 1]);
      assert Handlers(actions)[..|actions| - 1] == Handlers(actions[..|actions| - 1]);
    }
  }

  /** While no open transaction holds an upload row, the three statements one after the other
      delete what one deletion does. */
  lemma DeletionAlone(ctx: Context, reqs: seq<Request>, w: World, h: HostId, o: OrgId)
    requires |w.system.txs| == |reqs| && forall t :: 0 <= t < |reqs| ==> !HoldsUpload(w.system.txs[t].phase)
    ensures Committed(After(ctx, reqs, w, [Delete(Deletion.UploadStage, h, o), Delete(Deletion.ReportStage, h, o),
                                           Delete(Deletion.AckStage, h, o)]))
            == Deletion.Deleted(Committed(w), h, o)
  {
    var a, b, c := Delete(Deletion.UploadStage, h, o), Delete(Deletion.ReportStage, h, o),
                   Delete(Deletion.AckStage, h, o);
    assert [a, b, c][..2] == [a, b] && [a, b][..1] == [a] && [a][..0] == [];
    assert After(ctx, reqs, w, [a]) == Next(ctx, reqs, w, a);
    assert After(ctx, reqs, w, [a, b]) == Next(ctx, reqs, Next(ctx, reqs, w, a), b);
  }
}
