/** Any number of upload handlers running at once, statement by statement, at read-committed
    isolation: a statement sees the committed tables overlaid with its own transaction's
    writes, and a transaction's writes reach the tables only when it commits. The one thing
    that keeps handlers apart is the row lock on the host. */
module Interleaving {
  import opened Tables
  import opened Reconcile
  import opened Slices

  // ---------- uncommitted writes ----------

  /** Rows put (Some) or deleted (None) by a transaction that has not committed. */
  function Overlay<K, V>(base: map<K, V>, writes: map<K, Option<V>>): map<K, V> {
    map k | k in base.Keys + writes.Keys && (k in writes ==> writes[k].Some?) ::
      if k in writes then writes[k].value else base[k]
  }

  /** Add to the writes what one statement changed between two views. */
  function Record<K, V(==)>(writes: map<K, Option<V>>, view: map<K, V>, view': map<K, V>): map<K, Option<V>> {
    map k | k in writes.Keys + view.Keys + view'.Keys
            && (k in writes || k !in view || k !in view' || view[k] != view'[k]) ::
      if k !in view' then None
      else if k in view && view[k] == view'[k] then writes[k]
      else Some(view'[k])
  }

  lemma OverlayRecord<K(!new), V>(base: map<K, V>, writes: map<K, Option<V>>, view': map<K, V>)
    ensures Overlay(base, Record(writes, Overlay(base, writes), view')) == view'
  {
    var view := Overlay(base, writes);
    var writes' := Record(writes, view, view');
    forall k ensures SameAt(Overlay(base, writes'), view', k) {
      if k !in writes' {
        assert k !in writes;
        assert k in view <==> k in view';
      }
    }
    SameEverywhere(Overlay(base, writes'), view');
  }

  // ---------- the system ----------

  datatype Phase =
    | Waiting
    | HostReady
    | Locked
    | Read(snapshot: Reports)
    | Registered(snapshot: Reports)
    | Writing(snapshot: Reports, plan: Plan, updated: nat)
    | Written
    | Committed
    | Aborted

  predicate InTransaction(p: Phase) {
    p.Locked? || p.Read? || p.Registered? || p.Writing? || p.Written?
  }

  datatype Tx = Tx(phase: Phase, reports: map<ReportKey, Option<Report>>, uploads: map<UploadKey, Option<Upload>>)

  datatype System = System(
    store: Store, hosts: set<HostId>, txs: seq<Tx>, locks: map<HostId, nat>,
    lockLog: seq<nat>, commitLog: seq<nat>)

  /** One thing handler t does next; Abort is an exception of any origin. */
  datatype Action =
    | CreateHost(t: nat)
    | Lock(t: nat)
    | ReadRows(t: nat)
    | RegisterUpload(t: nat)
    | InsertNew(t: nat)
    | UpdateNext(t: nat)
    | DeleteStale(t: nat)
    | Commit(t: nat)
    | Abort(t: nat)

  function Start(store: Store, hosts: set<HostId>, reqs: seq<Request>): System {
    System(store, hosts, seq(|reqs|, _ => Tx(Waiting, map[], map[])), map[], [], [])
  }

  function Move(s: System, t: nat, phase: Phase): System
    requires t < |s.txs|
  {
    s.(txs := s.txs[t := s.txs[t].(phase := phase)])
  }

  /** Roll back: forget the writes and give up the lock. */
  function RollBack(s: System, t: nat, h: HostId): System
    requires t < |s.txs|
  {
    s.(txs := s.txs[t := Tx(Aborted, map[], map[])],
       locks := if InTransaction(s.txs[t].phase) then s.locks - {h} else s.locks)
  }

  function ReportView(s: System, t: nat): Reports
    requires t < |s.txs|
  {
    Overlay(s.store.reports, s.txs[t].reports)
  }

  function UploadView(s: System, t: nat): Uploads
    requires t < |s.txs|
  {
    Overlay(s.store.uploads, s.txs[t].uploads)
  }

  function WriteReports(s: System, t: nat, view': Reports, phase: Phase): System
    requires t < |s.txs|
  {
    s.(txs := s.txs[t := s.txs[t].(phase := phase, reports := Record(s.txs[t].reports, ReportView(s, t), view'))])
  }

  function WriteUploads(s: System, t: nat, view': Uploads, phase: Phase): System
    requires t < |s.txs|
  {
    s.(txs := s.txs[t := s.txs[t].(phase := phase, uploads := Record(s.txs[t].uploads, UploadView(s, t), view'))])
  }

  function TakeLock(s: System, t: nat, h: HostId): System
    requires t < |s.txs|
  {
    Move(s, t, Locked).(locks := s.locks[h := t], lockLog := s.lockLog + [t])
  }

  /** Commit: the writes reach the tables and the lock is given up. */
  function Publish(s: System, t: nat, h: HostId): System
    requires t < |s.txs|
  {
    System(Store(ReportView(s, t), UploadView(s, t)), s.hosts, s.txs[t := Tx(Committed, map[], map[])],
           s.locks - {h}, s.lockLog, s.commitLog + [t])
  }

  /** The step an action takes; an action that is not enabled changes nothing. */
  function Step(ctx: Context, reqs: seq<Request>, s: System, a: Action): (r: System)
    requires |s.txs| == |reqs|
    ensures |r.txs| == |reqs|
  {
    if a.t >= |reqs| then s
    else
      var req, p := reqs[a.t], s.txs[a.t].phase;
      match a
      case CreateHost(t) =>
        if p.Waiting? then Move(s, t, HostReady).(hosts := s.hosts + {req.host}) else s
      case Lock(t) =>
        if !p.HostReady? || req.host in s.locks then s
        else if req.host !in s.hosts then RollBack(s, t, req.host)
        else TakeLock(s, t, req.host)
      case ReadRows(t) =>
        if p.Locked? then Move(s, t, Read(RowsOf(ReportView(s, t), req))) else s
      case RegisterUpload(t) =>
        if !p.Read? then s
        else if UploadConflict(UploadView(s, t), req) then RollBack(s, t, req.host)
        else WriteUploads(s, t, UpsertUpload(UploadView(s, t), req), Registered(p.snapshot))
      case InsertNew(t) =>
        if !p.Registered? then s
        else
          var plan := BuildPlan(ctx, p.snapshot, req, |req.reports|);
          if MissingRuleId(req) || plan.Broken? then RollBack(s, t, req.host)
          else
            (match InsertAll(ReportView(s, t), req, plan.added)
             case None => RollBack(s, t, req.host)
             case Some(view') => WriteReports(s, t, view', Writing(p.snapshot, plan, 0)))
      case UpdateNext(t) =>
        if !p.Writing? || p.plan.Broken? || p.updated >= |p.plan.known| then s
        else WriteReports(s, t, UpdateOne(ReportView(s, t), req, p.plan.known[p.updated]), p.(updated := p.updated + 1))
      case DeleteStale(t) =>
        if !p.Writing? || p.plan.Broken? || p.updated != |p.plan.known| then s
        else WriteReports(s, t, DeleteRules(ReportView(s, t), req, StaleRules(ctx, p.snapshot, req)), Written)
      case Commit(t) =>
        if !p.Written? then s
        else Publish(s, t, req.host)
      case Abort(t) =>
        if p.Committed? || p.Aborted? then s else RollBack(s, t, req.host)
  }

  function Run(ctx: Context, reqs: seq<Request>, s: System, actions: seq<Action>): (r: System)
    requires |s.txs| == |reqs|
    ensures |r.txs| == |reqs|
  {
    if actions == [] then s
    else Step(ctx, reqs, Run(ctx, reqs, s, actions[..|actions| - 1]), actions[|actions| - 1])
  }

  // ---------- the invariant ----------

  ghost predicate WritesOn(tx: Tx, h: HostId) {
    && (forall k :: k in tx.reports ==> k.host == h)
    && (forall k :: k in tx.uploads ==> k.host == h)
  }

  ghost predicate UploadRegistered(uploads: Uploads, req: Request, tx: Tx) {
    && !UploadConflict(uploads, req)
    && Overlay(uploads, tx.uploads) == UpsertUpload(uploads, req)
  }

  /** How far a transaction has got, seen against the committed rows of its host. */
  ghost predicate Progress(ctx: Context, one: Store, req: Request, tx: Tx) {
    match tx.phase
    case Read(snapshot) =>
      && tx.reports == map[] && tx.uploads == map[]
      && snapshot == RowsOf(one.reports, req)
    case Registered(snapshot) =>
      && tx.reports == map[] && UploadRegistered(one.uploads, req, tx)
      && snapshot == RowsOf(one.reports, req)
    case Writing(snapshot, plan, n) =>
      && UploadRegistered(one.uploads, req, tx) && !MissingRuleId(req)
      && snapshot == RowsOf(one.reports, req)
      && plan.Plan? && plan == BuildPlan(ctx, snapshot, req, |req.reports|)
      && InsertAll(one.reports, req, plan.added).Some? && n <= |plan.known|
      && Overlay(one.reports, tx.reports) ==
         UpdateAll(InsertAll(one.reports, req, plan.added).value, req, plan.known[..n])
    case Written =>
      && UploadRegistered(one.uploads, req, tx)
      && RunStatements(ctx, one.reports, req) == Some(Overlay(one.reports, tx.reports))
    case _ => tx.reports == map[] && tx.uploads == map[]
  }

  ghost predicate TxInv(ctx: Context, store: Store, req: Request, tx: Tx) {
    WritesOn(tx, req.host) && Progress(ctx, On(store, req.host), req, tx)
  }

  ghost predicate LockInv(reqs: seq<Request>, s: System)
    requires |s.txs| == |reqs|
  {
    && (forall t :: 0 <= t < |reqs| && InTransaction(s.txs[t].phase) ==>
          reqs[t].host in s.locks && s.locks[reqs[t].host] == t)
    && (forall h :: h in s.locks ==>
          s.locks[h] < |reqs| && reqs[s.locks[h]].host == h && InTransaction(s.txs[s.locks[h]].phase))
  }

  predicate Bounded(reqs: seq<Request>, order: seq<nat>) {
    forall i :: 0 <= i < |order| ==> order[i] < |reqs|
  }

  /** The transactions of a log that have committed. */
  function Winners(txs: seq<Tx>, order: seq<nat>): (r: seq<nat>)
    requires forall i :: 0 <= i < |order| ==> order[i] < |txs|
    ensures forall i :: 0 <= i < |r| ==> r[i] < |txs|
  {
    if order == [] then []
    else
      var rest := Winners(txs, order[..|order| - 1]);
      if txs[order[|order| - 1]].phase.Committed? then rest + [order[|order| - 1]] else rest
  }

  /** Different handlers of the host, each of which has got as far as its lock. */
  ghost predicate HaveLocked(reqs: seq<Request>, txs: seq<Tx>, locked: seq<nat>, h: HostId)
    requires |txs| == |reqs|
  {
    && (forall i :: 0 <= i < |locked| ==>
          && locked[i] < |reqs| && reqs[locked[i]].host == h
          && !txs[locked[i]].phase.Waiting? && !txs[locked[i]].phase.HostReady?)
    && (forall i, j :: 0 <= i < j < |locked| ==> locked[i] != locked[j])
  }

  ghost predicate HostLogInv(reqs: seq<Request>, s: System, h: HostId)
    requires |s.txs| == |reqs| && Bounded(reqs, s.lockLog) && Bounded(reqs, s.commitLog)
  {
    var locked := OfHost(reqs, s.lockLog, h);
    && HaveLocked(reqs, s.txs, locked, h)
    && (h in s.locks ==> locked != [] && locked[|locked| - 1] == s.locks[h])
    && Winners(s.txs, locked) == OfHost(reqs, s.commitLog, h)
  }

  ghost predicate TxsInv(ctx: Context, reqs: seq<Request>, s: System)
    requires |s.txs| == |reqs|
  {
    forall t :: 0 <= t < |reqs| ==> TxInv(ctx, s.store, reqs[t], s.txs[t])
  }

  ghost predicate LogInv(reqs: seq<Request>, s: System)
    requires |s.txs| == |reqs|
  {
    && Bounded(reqs, s.lockLog) && Bounded(reqs, s.commitLog)
    && (forall h :: HostLogInv(reqs, s, h))
    && (forall t :: 0 <= t < |reqs| ==> (t in s.commitLog <==> s.txs[t].phase.Committed?))
  }

  ghost predicate Inv(ctx: Context, init: Store, reqs: seq<Request>, s: System)
    requires |s.txs| == |reqs|
  {
    && TxsInv(ctx, reqs, s)
    && LockInv(reqs, s)
    && LogInv(reqs, s)
    && s.store == Serial(ctx, init, reqs, s.commitLog)
    && AllSucceed(ctx, init, reqs, s.commitLog)
  }

  // ---------- what one statement does to the writes of its transaction ----------

  lemma OverlayOnHost(base: Reports, writes: map<ReportKey, Option<Report>>, h: HostId)
    requires forall k :: k in writes ==> k.host == h
    ensures ReportsOn(Overlay(base, writes), h) == Overlay(ReportsOn(base, h), writes)
    ensures forall k: ReportKey :: k.host != h ==> SameAt(Overlay(base, writes), base, k)
  {
  }

  lemma OverlayUploadsOnHost(base: Uploads, writes: map<UploadKey, Option<Upload>>, h: HostId)
    requires forall k :: k in writes ==> k.host == h
    ensures UploadsOn(Overlay(base, writes), h) == Overlay(UploadsOn(base, h), writes)
    ensures forall k: UploadKey :: k.host != h ==> SameAt(Overlay(base, writes), base, k)
  {
  }

  /** A statement that touches only rows of one host keeps the writes on that host, and seen
      from that host they give the statement's own result. */
  lemma StatementWrites(base: Reports, writes: map<ReportKey, Option<Report>>, view': Reports, h: HostId)
    requires forall k :: k in writes ==> k.host == h
    requires forall k: ReportKey :: k.host != h ==> SameAt(view', Overlay(base, writes), k)
    ensures var writes' := Record(writes, Overlay(base, writes), view');
            && (forall k :: k in writes' ==> k.host == h)
            && Overlay(ReportsOn(base, h), writes') == ReportsOn(view', h)
  {
    var writes' := Record(writes, Overlay(base, writes), view');
    forall k | k in writes' ensures k.host == h {
      assert k.host != h ==> SameAt(view', Overlay(base, writes), k);
    }
    OverlayRecord(base, writes, view');
    OverlayOnHost(base, writes', h);
  }

  lemma UploadStatementWrites(base: Uploads, writes: map<UploadKey, Option<Upload>>, req: Request)
    requires forall k :: k in writes ==> k.host == req.host
    ensures var view := Overlay(base, writes);
            var writes' := Record(writes, view, UpsertUpload(view, req));
            && (forall k :: k in writes' ==> k.host == req.host)
            && Overlay(UploadsOn(base, req.host), writes') == UploadsOn(UpsertUpload(view, req), req.host)
  {
    var view := Overlay(base, writes);
    var writes' := Record(writes, view, UpsertUpload(view, req));
    OverlayRecord(base, writes, UpsertUpload(view, req));
    OverlayUploadsOnHost(base, writes', req.host);
  }

  lemma {:induction false} InsertElsewhere(reports: Reports, req: Request, drafts: seq<Draft>)
    requires InsertAll(reports, req, drafts).Some?
    ensures forall k: ReportKey :: k.host != req.host ==> SameAt(InsertAll(reports, req, drafts).value, reports, k)
  {
    if drafts != [] {
      InsertElsewhere(reports, req, drafts[..|drafts| - 1]);
    }
  }

  lemma OverlayNothing<K, V>(base: map<K, V>)
    ensures Overlay(base, map[]) == base
  {
  }

  /** The first statement on the report table starts from no writes at all. */
  lemma InsertWrites(base: Reports, req: Request, drafts: seq<Draft>)
    requires InsertAll(base, req, drafts).Some?
    ensures InsertAll(ReportsOn(base, req.host), req, drafts).Some?
    ensures var writes := Record(map[], base, InsertAll(base, req, drafts).value);
            && (forall k :: k in writes ==> k.host == req.host)
            && Overlay(ReportsOn(base, req.host), writes) == InsertAll(ReportsOn(base, req.host), req, drafts).value
  {
    OverlayNothing(base);
    InsertOnHost(base, req, drafts);
    InsertElsewhere(base, req, drafts);
    StatementWrites(base, map[], InsertAll(base, req, drafts).value, req.host);
  }

  lemma UpdateWrites(base: Reports, writes: map<ReportKey, Option<Report>>, req: Request, d: Draft)
    requires forall k :: k in writes ==> k.host == req.host
    ensures var writes' := Record(writes, Overlay(base, writes), UpdateOne(Overlay(base, writes), req, d));
            && (forall k :: k in writes' ==> k.host == req.host)
            && Overlay(ReportsOn(base, req.host), writes') ==
                 UpdateOne(Overlay(ReportsOn(base, req.host), writes), req, d)
  {
    OverlayOnHost(base, writes, req.host);
    UpdateOnHost(Overlay(base, writes), req, d);
    StatementWrites(base, writes, UpdateOne(Overlay(base, writes), req, d), req.host);
  }

  lemma DeleteWrites(base: Reports, writes: map<ReportKey, Option<Report>>, req: Request, rules: set<RuleId>)
    requires forall k :: k in writes ==> k.host == req.host
    ensures var writes' := Record(writes, Overlay(base, writes), DeleteRules(Overlay(base, writes), req, rules));
            && (forall k :: k in writes' ==> k.host == req.host)
            && Overlay(ReportsOn(base, req.host), writes') ==
                 DeleteRules(Overlay(ReportsOn(base, req.host), writes), req, rules)
  {
    OverlayOnHost(base, writes, req.host);
    DeleteOnHost(Overlay(base, writes), req, rules);
    StatementWrites(base, writes, DeleteRules(Overlay(base, writes), req, rules), req.host);
  }

  // ---------- each statement keeps its transaction's progress ----------

  lemma ReadKeeps(ctx: Context, reqs: seq<Request>, s: System, t: nat)
    requires |s.txs| == |reqs| && t < |reqs| && s.txs[t].phase.Locked?
    requires TxInv(ctx, s.store, reqs[t], s.txs[t])
    ensures TxInv(ctx, s.store, reqs[t], Step(ctx, reqs, s, ReadRows(t)).txs[t])
  {
    OverlayNothing(s.store.reports);
    RowsOnHost(s.store.reports, reqs[t]);
  }

  lemma RegisterKeeps(ctx: Context, reqs: seq<Request>, s: System, t: nat)
    requires |s.txs| == |reqs| && t < |reqs| && s.txs[t].phase.Read?
    requires TxInv(ctx, s.store, reqs[t], s.txs[t])
    ensures TxInv(ctx, s.store, reqs[t], Step(ctx, reqs, s, RegisterUpload(t)).txs[t])
  {
    OverlayNothing(s.store.uploads);
    UpsertOnHost(s.store.uploads, reqs[t]);
    UploadStatementWrites(s.store.uploads, s.txs[t].uploads, reqs[t]);
  }

  lemma InsertKeeps(ctx: Context, reqs: seq<Request>, s: System, t: nat)
    requires |s.txs| == |reqs| && t < |reqs| && s.txs[t].phase.Registered?
    requires TxInv(ctx, s.store, reqs[t], s.txs[t])
    ensures TxInv(ctx, s.store, reqs[t], Step(ctx, reqs, s, InsertNew(t)).txs[t])
  {
    var req, snapshot := reqs[t], s.txs[t].phase.snapshot;
    var plan := BuildPlan(ctx, snapshot, req, |req.reports|);
    if !MissingRuleId(req) && plan.Plan? {
      OverlayNothing(s.store.reports);
      if InsertAll(s.store.reports, req, plan.added).Some? {
        InsertProgress(ctx, s.store, req, s.txs[t], plan);
      }
    }
  }

  lemma InsertProgress(ctx: Context, store: Store, req: Request, tx: Tx, plan: Plan)
    requires tx.phase.Registered? && TxInv(ctx, store, req, tx) && !MissingRuleId(req)
    requires plan.Plan? && plan == BuildPlan(ctx, tx.phase.snapshot, req, |req.reports|)
    requires InsertAll(store.reports, req, plan.added).Some?
    ensures var writes := Record(map[], store.reports, InsertAll(store.reports, req, plan.added).value);
            TxInv(ctx, store, req, Tx(Writing(tx.phase.snapshot, plan, 0), writes, tx.uploads))
  {
    InsertWrites(store.reports, req, plan.added);
    assert plan.known[..0] == [];
  }

  lemma UpdateKeeps(ctx: Context, reqs: seq<Request>, s: System, t: nat)
    requires |s.txs| == |reqs| && t < |reqs| && s.txs[t].phase.Writing?
    requires s.txs[t].phase.plan.Plan? && s.txs[t].phase.updated < |s.txs[t].phase.plan.known|
    requires TxInv(ctx, s.store, reqs[t], s.txs[t])
    ensures TxInv(ctx, s.store, reqs[t], Step(ctx, reqs, s, UpdateNext(t)).txs[t])
  {
    var req, tx, n := reqs[t], s.txs[t], s.txs[t].phase.updated;
    var known := tx.phase.plan.known;
    UpdateWrites(s.store.reports, tx.reports, req, known[n]);
    assert known[..n + 1][..n] == known[..n];
  }

  lemma DeleteKeeps(ctx: Context, reqs: seq<Request>, s: System, t: nat)
    requires |s.txs| == |reqs| && t < |reqs| && s.txs[t].phase.Writing?
    requires s.txs[t].phase.plan.Plan? && s.txs[t].phase.updated == |s.txs[t].phase.plan.known|
    requires TxInv(ctx, s.store, reqs[t], s.txs[t])
    ensures TxInv(ctx, s.store, reqs[t], Step(ctx, reqs, s, DeleteStale(t)).txs[t])
  {
    var req, tx := reqs[t], s.txs[t];
    DeleteWrites(s.store.reports, tx.reports, req, StaleRules(ctx, tx.phase.snapshot, req));
    assert tx.phase.plan.known[..tx.phase.updated] == tx.phase.plan.known;
  }

  /** A commit does to the tables what the whole upload does in one step. */
  lemma CommitApplies(ctx: Context, reqs: seq<Request>, s: System, t: nat)
    requires |s.txs| == |reqs| && t < |reqs| && s.txs[t].phase.Written?
    requires TxInv(ctx, s.store, reqs[t], s.txs[t])
    ensures !Fails(ctx, s.store, reqs[t])
    ensures Publish(s, t, reqs[t].host).store == Apply(ctx, s.store, reqs[t])
  {
    var req, tx := reqs[t], s.txs[t];
    var one := On(s.store, req.host);
    var post := Publish(s, t, reqs[t].host).store;
    OverlayOnHost(s.store.reports, tx.reports, req.host);
    OverlayUploadsOnHost(s.store.uploads, tx.uploads, req.host);
    StatementsMeetDescription(ctx, one.reports, req);
    ApplyOnHost(ctx, s.store, req);
    assert On(post, req.host) == Apply(ctx, one, req);
    forall h ensures On(post, h) == On(Apply(ctx, s.store, req), h) {
      if h != req.host {
        ApplyElsewhere(ctx, s.store, req, h);
        CommitElsewhere(s.store, post, req.host, h);
      }
    }
    SameOnEveryHost(post, Apply(ctx, s.store, req));
  }

  lemma CommitElsewhere(store: Store, post: Store, mine: HostId, h: HostId)
    requires h != mine
    requires forall k: ReportKey :: k.host != mine ==> SameAt(post.reports, store.reports, k)
    requires forall k: UploadKey :: k.host != mine ==> SameAt(post.uploads, store.uploads, k)
    ensures On(post, h) == On(store, h)
  {
    forall k ensures SameAt(ReportsOn(post.reports, h), ReportsOn(store.reports, h), k) {
      assert k.host == h ==> SameAt(post.reports, store.reports, k);
    }
    SameEverywhere(ReportsOn(post.reports, h), ReportsOn(store.reports, h));
    forall k ensures SameAt(UploadsOn(post.uploads, h), UploadsOn(store.uploads, h), k) {
      assert k.host == h ==> SameAt(post.uploads, store.uploads, k);
    }
    SameEverywhere(UploadsOn(post.uploads, h), UploadsOn(store.uploads, h));
  }

  // ---------- the invariant holds on every run ----------

  lemma StartInv(ctx: Context, init: Store, hosts: set<HostId>, reqs: seq<Request>)
    ensures Inv(ctx, init, reqs, Start(init, hosts, reqs))
  {
  }

  lemma {:induction false} WinnersUnchanged(a: seq<Tx>, b: seq<Tx>, order: seq<nat>)
    requires forall i :: 0 <= i < |order| ==> order[i] < |a| && order[i] < |b|
    requires forall i :: 0 <= i < |order| ==> (a[order[i]].phase.Committed? <==> b[order[i]].phase.Committed?)
    ensures Winners(a, order) == Winners(b, order)
  {
    if order != [] {
      WinnersUnchanged(a, b, order[..|order| - 1]);
    }
  }

  /** A step that leaves the committed tables and both logs alone, moves one transaction
      without committing it, and keeps the locks in line with the phases. */
  ghost predicate QuietStep(reqs: seq<Request>, s: System, s': System, t: nat) {
    && |s.txs| == |s'.txs| == |reqs| && t < |reqs|
    && s'.store == s.store && s'.lockLog == s.lockLog && s'.commitLog == s.commitLog
    && s'.txs == s.txs[t := s'.txs[t]]
    && !s.txs[t].phase.Committed? && !s'.txs[t].phase.Committed?
    && !s'.txs[t].phase.Waiting?
    && (s'.txs[t].phase.HostReady? ==> s.txs[t].phase.Waiting?)
    && (if InTransaction(s.txs[t].phase) == InTransaction(s'.txs[t].phase) then s'.locks == s.locks
        else InTransaction(s.txs[t].phase) && s'.locks == s.locks - {reqs[t].host})
  }

  lemma QuietKeepsInv(ctx: Context, init: Store, reqs: seq<Request>, s: System, s': System, t: nat)
    requires |s.txs| == |reqs| && Inv(ctx, init, reqs, s) && QuietStep(reqs, s, s', t)
    requires TxInv(ctx, s.store, reqs[t], s'.txs[t])
    ensures Inv(ctx, init, reqs, s')
  {
    QuietKeepsTxs(ctx, reqs, s, s', t);
    QuietKeepsLocks(reqs, s, s', t);
    QuietKeepsLog(reqs, s, s', t);
  }

  lemma QuietKeepsTxs(ctx: Context, reqs: seq<Request>, s: System, s': System, t: nat)
    requires |s.txs| == |reqs| && |s'.txs| == |reqs| && t < |reqs| && TxsInv(ctx, reqs, s)
    requires s'.store == s.store && s'.txs == s.txs[t := s'.txs[t]]
    requires TxInv(ctx, s.store, reqs[t], s'.txs[t])
    ensures TxsInv(ctx, reqs, s')
  {
  }

  lemma QuietKeepsLocks(reqs: seq<Request>, s: System, s': System, t: nat)
    requires |s.txs| == |reqs| && LockInv(reqs, s) && QuietStep(reqs, s, s', t)
    ensures LockInv(reqs, s')
  {
    forall u | 0 <= u < |reqs| && InTransaction(s'.txs[u].phase)
      ensures reqs[u].host in s'.locks && s'.locks[reqs[u].host] == u
    {
      assert InTransaction(s.txs[u].phase);
    }
  }

  lemma QuietKeepsLog(reqs: seq<Request>, s: System, s': System, t: nat)
    requires |s.txs| == |reqs| && LogInv(reqs, s) && QuietStep(reqs, s, s', t)
    ensures LogInv(reqs, s')
  {
    forall h ensures HostLogInv(reqs, s', h) {
      assert HostLogInv(reqs, s, h);
      WinnersUnchanged(s.txs, s'.txs, OfHost(reqs, s.lockLog, h));
    }
  }

  lemma LockKeepsLog(reqs: seq<Request>, s: System, s': System, t: nat)
    requires |s.txs| == |reqs| && |s'.txs| == |reqs| && t < |reqs| && LogInv(reqs, s)
    requires s.txs[t].phase.HostReady? && reqs[t].host !in s.locks
    requires s'.txs == s.txs[t := s.txs[t].(phase := Locked)] && s'.commitLog == s.commitLog
    requires s'.locks == s.locks[reqs[t].host := t] && s'.lockLog == s.lockLog + [t]
    ensures LogInv(reqs, s')
  {
    forall h ensures HostLogInv(reqs, s', h) {
      LockKeepsHostLog(reqs, s, s', t, h);
    }
  }

  lemma LockKeepsHostLog(reqs: seq<Request>, s: System, s': System, t: nat, h: HostId)
    requires |s.txs| == |reqs| && |s'.txs| == |reqs| && t < |reqs|
    requires Bounded(reqs, s.lockLog) && Bounded(reqs, s.commitLog) && HostLogInv(reqs, s, h)
    requires s.txs[t].phase.HostReady?
    requires s'.txs == s.txs[t := s.txs[t].(phase := Locked)] && s'.commitLog == s.commitLog
    requires s'.locks == s.locks[reqs[t].host := t] && s'.lockLog == s.lockLog + [t]
    ensures Bounded(reqs, s'.lockLog) && HostLogInv(reqs, s', h)
  {
    var locked := OfHost(reqs, s.lockLog, h);
    OfHostAppend(reqs, s.lockLog, t, h);
    WinnersUnchanged(s.txs, s'.txs, locked);
    if h == reqs[t].host {
      WinnersAppend(s'.txs, locked, t);
      OneMoreLocked(reqs, s.txs, s'.txs, locked, t);
    }
  }

  lemma OneMoreLocked(reqs: seq<Request>, txs: seq<Tx>, txs': seq<Tx>, locked: seq<nat>, t: nat)
    requires |txs| == |txs'| == |reqs| && t < |reqs| && HaveLocked(reqs, txs, locked, reqs[t].host)
    requires txs[t].phase.HostReady? && txs' == txs[t := txs[t].(phase := Locked)]
    ensures HaveLocked(reqs, txs', locked + [t], reqs[t].host)
  {
    assert forall i :: 0 <= i < |locked| ==> locked[i] != t;
  }

  lemma OfHostAppend(reqs: seq<Request>, order: seq<nat>, t: nat, h: HostId)
    requires Bounded(reqs, order) && t < |reqs|
    ensures OfHost(reqs, order + [t], h) ==
            if reqs[t].host == h then OfHost(reqs, order, h) + [t] else OfHost(reqs, order, h)
  {
    assert (order + [t])[..|order|] == order;
  }

  lemma WinnersAppend(txs: seq<Tx>, order: seq<nat>, t: nat)
    requires (forall i :: 0 <= i < |order| ==> order[i] < |txs|) && t < |txs|
    ensures Winners(txs, order + [t]) ==
            if txs[t].phase.Committed? then Winners(txs, order) + [t] else Winners(txs, order)
  {
    assert (order + [t])[..|order|] == order;
  }

  lemma CommitKeepsLog(reqs: seq<Request>, s: System, s': System, t: nat)
    requires |s.txs| == |reqs| && |s'.txs| == |reqs| && t < |reqs| && LogInv(reqs, s) && LockInv(reqs, s)
    requires InTransaction(s.txs[t].phase)
    requires s'.txs == s.txs[t := Tx(Committed, map[], map[])] && s'.lockLog == s.lockLog
    requires s'.locks == s.locks - {reqs[t].host} && s'.commitLog == s.commitLog + [t]
    ensures LogInv(reqs, s')
  {
    forall h ensures HostLogInv(reqs, s', h) {
      CommitKeepsHostLog(reqs, s, s', t, h);
    }
  }

  lemma CommitKeepsHostLog(reqs: seq<Request>, s: System, s': System, t: nat, h: HostId)
    requires |s.txs| == |reqs| && |s'.txs| == |reqs| && t < |reqs|
    requires Bounded(reqs, s.lockLog) && Bounded(reqs, s.commitLog) && HostLogInv(reqs, s, h)
    requires reqs[t].host in s.locks && s.locks[reqs[t].host] == t && !s.txs[t].phase.Committed?
    requires s'.txs == s.txs[t := Tx(Committed, map[], map[])] && s'.lockLog == s.lockLog
    requires s'.locks == s.locks - {reqs[t].host} && s'.commitLog == s.commitLog + [t]
    ensures Bounded(reqs, s'.commitLog) && HostLogInv(reqs, s', h)
  {
    var locked := OfHost(reqs, s.lockLog, h);
    OfHostAppend(reqs, s.commitLog, t, h);
    StillLocked(reqs, s.txs, s'.txs, locked, t, h);
    if h == reqs[t].host {
      LastWins(s.txs, s'.txs, locked, t);
    } else {
      WinnersUnchanged(s.txs, s'.txs, locked);
    }
  }

  lemma StillLocked(reqs: seq<Request>, txs: seq<Tx>, txs': seq<Tx>, locked: seq<nat>, t: nat, h: HostId)
    requires |txs| == |txs'| == |reqs| && t < |reqs| && HaveLocked(reqs, txs, locked, h)
    requires txs' == txs[t := Tx(Committed, map[], map[])]
    ensures HaveLocked(reqs, txs', locked, h)
  {
  }

  /** When the last handler to take a host's lock commits, it joins the winners at the end. */
  lemma LastWins(txs: seq<Tx>, txs': seq<Tx>, locked: seq<nat>, t: nat)
    requires forall i :: 0 <= i < |locked| ==> locked[i] < |txs|
    requires forall i, j :: 0 <= i < j < |locked| ==> locked[i] != locked[j]
    requires locked != [] && locked[|locked| - 1] == t && t < |txs| && !txs[t].phase.Committed?
    requires txs' == txs[t := Tx(Committed, map[], map[])]
    ensures Winners(txs', locked) == Winners(txs, locked) + [t]
  {
    var earlier := locked[..|locked| - 1];
    forall i | 0 <= i < |earlier| ensures earlier[i] != t {
      assert locked[i] != locked[|locked| - 1];
    }
    WinnersUnchanged(txs, txs', earlier);
  }

  lemma CommitKeepsTxs(ctx: Context, reqs: seq<Request>, s: System, s': System, t: nat)
    requires |s.txs| == |reqs| && |s'.txs| == |reqs| && t < |reqs| && TxsInv(ctx, reqs, s) && LockInv(reqs, s)
    requires InTransaction(s.txs[t].phase)
    requires s'.txs == s.txs[t := Tx(Committed, map[], map[])]
    requires s'.store == Apply(ctx, s.store, reqs[t])
    ensures TxsInv(ctx, reqs, s')
  {
    forall u | 0 <= u < |reqs| ensures TxInv(ctx, s'.store, reqs[u], s'.txs[u]) {
      assert TxInv(ctx, s.store, reqs[u], s.txs[u]);
      if u != t && InTransaction(s.txs[u].phase) {
        assert reqs[u].host != reqs[t].host;
        ApplyElsewhere(ctx, s.store, reqs[t], reqs[u].host);
      }
    }
  }

  lemma CommitKeepsInv(ctx: Context, init: Store, reqs: seq<Request>, s: System, t: nat)
    requires |s.txs| == |reqs| && Inv(ctx, init, reqs, s)
    requires t < |reqs| && s.txs[t].phase.Written?
    ensures Inv(ctx, init, reqs, Publish(s, t, reqs[t].host))
  {
    var s' := Publish(s, t, reqs[t].host);
    CommitApplies(ctx, reqs, s, t);
    CommitKeepsTxs(ctx, reqs, s, s', t);
    CommitKeepsLocks(reqs, s, s', t);
    CommitKeepsLog(reqs, s, s', t);
    SerialAppend(ctx, init, reqs, s.commitLog, t);
  }

  lemma CommitKeepsLocks(reqs: seq<Request>, s: System, s': System, t: nat)
    requires |s.txs| == |reqs| && |s'.txs| == |reqs| && t < |reqs| && LockInv(reqs, s)
    requires InTransaction(s.txs[t].phase)
    requires s'.txs == s.txs[t := Tx(Committed, map[], map[])] && s'.locks == s.locks - {reqs[t].host}
    ensures LockInv(reqs, s')
  {
    forall u | 0 <= u < |reqs| && InTransaction(s'.txs[u].phase)
      ensures reqs[u].host in s'.locks && s'.locks[reqs[u].host] == u
    {
      assert InTransaction(s.txs[u].phase);
    }
  }

  lemma LockKeepsInv(ctx: Context, init: Store, reqs: seq<Request>, s: System, t: nat)
    requires |s.txs| == |reqs| && Inv(ctx, init, reqs, s)
    requires t < |reqs| && s.txs[t].phase.HostReady? && reqs[t].host !in s.locks && reqs[t].host in s.hosts
    ensures Inv(ctx, init, reqs, TakeLock(s, t, reqs[t].host))
  {
    var s' := TakeLock(s, t, reqs[t].host);
    assert TxInv(ctx, s.store, reqs[t], s.txs[t]);
    QuietKeepsTxs(ctx, reqs, s, s', t);
    LockKeepsLog(reqs, s, s', t);
    LockKeepsLocks(reqs, s, s', t);
  }

  lemma LockKeepsLocks(reqs: seq<Request>, s: System, s': System, t: nat)
    requires |s.txs| == |reqs| && |s'.txs| == |reqs| && t < |reqs| && LockInv(reqs, s)
    requires !InTransaction(s.txs[t].phase) && reqs[t].host !in s.locks
    requires s'.txs == s.txs[t := s.txs[t].(phase := Locked)] && s'.locks == s.locks[reqs[t].host := t]
    ensures LockInv(reqs, s')
  {
  }

  /** A step other than a commit or a lock taken moves its own transaction and nothing else. */
  lemma OtherStepsAreQuiet(ctx: Context, reqs: seq<Request>, s: System, a: Action)
    requires |s.txs| == |reqs| && a.t < |reqs|
    requires !a.Commit? && !(a.Lock? && reqs[a.t].host in s.hosts)
    requires Step(ctx, reqs, s, a) != s
    ensures QuietStep(reqs, s, Step(ctx, reqs, s, a), a.t)
  {
  }

  lemma OtherStepsKeepTx(ctx: Context, reqs: seq<Request>, s: System, a: Action)
    requires |s.txs| == |reqs| && a.t < |reqs| && TxInv(ctx, s.store, reqs[a.t], s.txs[a.t])
    requires !a.Commit? && !(a.Lock? && reqs[a.t].host in s.hosts)
    requires Step(ctx, reqs, s, a) != s
    ensures TxInv(ctx, s.store, reqs[a.t], Step(ctx, reqs, s, a).txs[a.t])
  {
    var t := a.t;
    match a
    case ReadRows(_) => ReadKeeps(ctx, reqs, s, t);
    case RegisterUpload(_) => RegisterKeeps(ctx, reqs, s, t);
    case InsertNew(_) => InsertKeeps(ctx, reqs, s, t);
    case UpdateNext(_) => UpdateKeeps(ctx, reqs, s, t);
    case DeleteStale(_) => DeleteKeeps(ctx, reqs, s, t);
    case _ =>
  }

  lemma StepKeepsInv(ctx: Context, init: Store, reqs: seq<Request>, s: System, a: Action)
    requires |s.txs| == |reqs| && Inv(ctx, init, reqs, s)
    ensures Inv(ctx, init, reqs, Step(ctx, reqs, s, a))
  {
    var s' := Step(ctx, reqs, s, a);
    if s' != s {
      assert TxInv(ctx, s.store, reqs[a.t], s.txs[a.t]);
      if a.Commit? {
        CommitKeepsInv(ctx, init, reqs, s, a.t);
      } else if a.Lock? && reqs[a.t].host in s.hosts {
        LockKeepsInv(ctx, init, reqs, s, a.t);
      } else {
        OtherStepsAreQuiet(ctx, reqs, s, a);
        OtherStepsKeepTx(ctx, reqs, s, a);
        QuietKeepsInv(ctx, init, reqs, s, s', a.t);
      }
    }
  }

  lemma {:induction false} RunKeepsInv(
    ctx: Context, init: Store, hosts: set<HostId>, reqs: seq<Request>, actions: seq<Action>)
    ensures Inv(ctx, init, reqs, Run(ctx, reqs, Start(init, hosts, reqs), actions))
  {
    if actions == [] {
      StartInv(ctx, init, hosts, reqs);
    } else {
      RunKeepsInv(ctx, init, hosts, reqs, actions[..|actions| - 1]);
      StepKeepsInv(ctx, init, reqs, Run(ctx, reqs, Start(init, hosts, reqs), actions[..|actions| - 1]),
                   actions[|actions| - 1]);
    }
  }

  // ---------- the theorems ----------

  lemma {:induction false} WinnersOfHost(reqs: seq<Request>, txs: seq<Tx>, order: seq<nat>, h: HostId)
    requires |txs| == |reqs| && Bounded(reqs, order)
    ensures OfHost(reqs, Winners(txs, order), h) == Winners(txs, OfHost(reqs, order, h))
  {
    if order != [] {
      var before, last := order[..|order| - 1], order[|order| - 1];
      WinnersOfHost(reqs, txs, before, h);
      var won, mine := Winners(txs, before), OfHost(reqs, before, h);
      assert (won + [last])[..|won|] == won;
      assert (mine + [last])[..|mine|] == mine;
    }
  }

  /** However the statements of any number of uploads interleave and whichever of them fail,
      the committed tables are those of running the committed uploads one after the other:
      in commit order, and equally in the order in which they took their host's lock. Uploads
      still running or rolled back have left no trace. */
  lemma Serializable(ctx: Context, init: Store, hosts: set<HostId>, reqs: seq<Request>, actions: seq<Action>)
    ensures var s := Run(ctx, reqs, Start(init, hosts, reqs), actions);
            && Bounded(reqs, s.commitLog) && Bounded(reqs, s.lockLog)
            && (forall t :: 0 <= t < |reqs| ==> (t in s.commitLog <==> s.txs[t].phase.Committed?))
            && s.store == Serial(ctx, init, reqs, s.commitLog) && AllSucceed(ctx, init, reqs, s.commitLog)
            && s.store == Serial(ctx, init, reqs, Winners(s.txs, s.lockLog))
  {
    RunKeepsInv(ctx, init, hosts, reqs, actions);
    var s := Run(ctx, reqs, Start(init, hosts, reqs), actions);
    forall h ensures OfHost(reqs, s.commitLog, h) == OfHost(reqs, Winners(s.txs, s.lockLog), h) {
      assert HostLogInv(reqs, s, h);
      WinnersOfHost(reqs, s.txs, s.lockLog, h);
    }
    SerialOrdersAgree(ctx, init, reqs, s.commitLog, Winners(s.txs, s.lockLog));
  }

  /** Two handlers are never inside their transactions for the same host, whatever their orgs. */
  lemma OneHandlerPerHost(
    ctx: Context, init: Store, hosts: set<HostId>, reqs: seq<Request>, actions: seq<Action>, t: nat, u: nat)
    requires t < |reqs| && u < |reqs|
    ensures var s := Run(ctx, reqs, Start(init, hosts, reqs), actions);
            InTransaction(s.txs[t].phase) && InTransaction(s.txs[u].phase) && reqs[t].host == reqs[u].host ==> t == u
  {
    RunKeepsInv(ctx, init, hosts, reqs, actions);
  }
}
