/** The rows of one host, and the fact that every statement of an upload acts on them alone:
    running it and then looking at one host is the same as looking first. */
module Slices {
  import opened Tables
  import opened Reconcile

  /** The tables an upload transaction writes. */
  datatype Store = Store(reports: Reports, uploads: Uploads)

  function ReportsOn(reports: Reports, h: HostId): Reports {
    map k | k in reports && k.host == h :: reports[k]
  }

  function UploadsOn(uploads: Uploads, h: HostId): Uploads {
    map k | k in uploads && k.host == h :: uploads[k]
  }

  function On(s: Store, h: HostId): Store {
    Store(ReportsOn(s.reports, h), UploadsOn(s.uploads, h))
  }

  lemma OnAt(s: Store, k: ReportKey, u: UploadKey)
    ensures SameAt(On(s, k.host).reports, s.reports, k)
    ensures SameAt(On(s, u.host).uploads, s.uploads, u)
  {
  }

  lemma SameOnEveryHost(a: Store, b: Store)
    requires forall h :: On(a, h) == On(b, h)
    ensures a == b
  {
    forall k ensures SameAt(a.reports, b.reports, k) {
      var u := UploadKey(k.host, "", "");
      OnAt(a, k, u);
      OnAt(b, k, u);
      assert On(a, k.host) == On(b, k.host);
    }
    SameEverywhere(a.reports, b.reports);
    forall u ensures SameAt(a.uploads, b.uploads, u) {
      var k := ReportKey("", "", u.host);
      OnAt(a, k, u);
      OnAt(b, k, u);
      assert On(a, u.host) == On(b, u.host);
    }
    SameEverywhere(a.uploads, b.uploads);
  }

  // ---------- one upload as an atomic step ----------

  ghost predicate Fails(ctx: Context, s: Store, req: Request) {
    UploadConflict(s.uploads, req) || Rejected(ctx, s.reports, req)
  }

  ghost function Apply(ctx: Context, s: Store, req: Request): Store {
    if Fails(ctx, s, req) then s else Store(PostReports(ctx, s.reports, req), UpsertUpload(s.uploads, req))
  }

  // ---------- statements commute with looking at the uploading host ----------

  lemma RowsOnHost(reports: Reports, req: Request)
    ensures RowsOf(ReportsOn(reports, req.host), req) == RowsOf(reports, req)
  {
  }

  lemma {:induction false} InsertOnHost(reports: Reports, req: Request, drafts: seq<Draft>)
    ensures var all, one := InsertAll(reports, req, drafts), InsertAll(ReportsOn(reports, req.host), req, drafts);
            && (all.Some? <==> one.Some?)
            && (all.Some? ==> ReportsOn(all.value, req.host) == one.value)
  {
    if drafts != [] {
      InsertOnHost(reports, req, drafts[..|drafts| - 1]);
    }
  }

  lemma UpdateOnHost(reports: Reports, req: Request, d: Draft)
    ensures ReportsOn(UpdateOne(reports, req, d), req.host) == UpdateOne(ReportsOn(reports, req.host), req, d)
  {
  }

  lemma {:induction false} UpdateAllOnHost(reports: Reports, req: Request, drafts: seq<Draft>)
    ensures ReportsOn(UpdateAll(reports, req, drafts), req.host) == UpdateAll(ReportsOn(reports, req.host), req, drafts)
  {
    if drafts != [] {
      UpdateAllOnHost(reports, req, drafts[..|drafts| - 1]);
      UpdateOnHost(UpdateAll(reports, req, drafts[..|drafts| - 1]), req, drafts[|drafts| - 1]);
    }
  }

  lemma DeleteOnHost(reports: Reports, req: Request, rules: set<RuleId>)
    ensures ReportsOn(DeleteRules(reports, req, rules), req.host) ==
              DeleteRules(ReportsOn(reports, req.host), req, rules)
  {
  }

  lemma UpsertOnHost(uploads: Uploads, req: Request)
    ensures UploadConflict(UploadsOn(uploads, req.host), req) <==> UploadConflict(uploads, req)
    ensures UploadsOn(UpsertUpload(uploads, req), req.host) == UpsertUpload(UploadsOn(uploads, req.host), req)
  {
    if UploadConflict(uploads, req) {
      var k :| k in uploads && k.host == req.host && k.source == req.source && uploads[k].current;
      assert k in UploadsOn(uploads, req.host);
    }
  }

  lemma StatementsOnHost(ctx: Context, reports: Reports, req: Request)
    ensures var all, one := RunStatements(ctx, reports, req), RunStatements(ctx, ReportsOn(reports, req.host), req);
            && (all.Some? <==> one.Some?)
            && (all.Some? ==> ReportsOn(all.value, req.host) == one.value)
  {
    RowsOnHost(reports, req);
    var plan := BuildPlan(ctx, RowsOf(reports, req), req, |req.reports|);
    if plan.Plan? {
      InsertOnHost(reports, req, plan.added);
      var ins := InsertAll(reports, req, plan.added);
      if ins.Some? {
        UpdateAllOnHost(ins.value, req, plan.known);
        DeleteOnHost(UpdateAll(ins.value, req, plan.known), req, StaleRules(ctx, RowsOf(reports, req), req));
      }
    }
  }

  lemma ApplyOnHost(ctx: Context, s: Store, req: Request)
    ensures Fails(ctx, On(s, req.host), req) <==> Fails(ctx, s, req)
    ensures On(Apply(ctx, s, req), req.host) == Apply(ctx, On(s, req.host), req)
  {
    StatementsMeetDescription(ctx, s.reports, req);
    StatementsMeetDescription(ctx, ReportsOn(s.reports, req.host), req);
    StatementsOnHost(ctx, s.reports, req);
    UpsertOnHost(s.uploads, req);
  }

  lemma ApplyElsewhere(ctx: Context, s: Store, req: Request, h: HostId)
    requires h != req.host
    ensures On(Apply(ctx, s, req), h) == On(s, h)
  {
    if !Fails(ctx, s, req) {
      var post := PostReports(ctx, s.reports, req);
      forall k ensures SameAt(ReportsOn(post, h), ReportsOn(s.reports, h), k) {
        if k in MatchedKeys(ctx, req) {
          var rule :| rule in MatchedRules(ctx, req) && KeyOf(req, rule) == k;
        }
      }
      SameEverywhere(ReportsOn(post, h), ReportsOn(s.reports, h));
    }
  }

  /** Uploads of different hosts commute. */
  lemma DifferentHostsCommute(ctx: Context, s: Store, a: Request, b: Request)
    requires a.host != b.host
    ensures Apply(ctx, Apply(ctx, s, a), b) == Apply(ctx, Apply(ctx, s, b), a)
  {
    var ab, ba := Apply(ctx, Apply(ctx, s, a), b), Apply(ctx, Apply(ctx, s, b), a);
    forall h ensures On(ab, h) == On(ba, h) {
      if h == a.host {
        ApplyElsewhere(ctx, Apply(ctx, s, a), b, h);
        ApplyOnHost(ctx, s, a);
        ApplyOnHost(ctx, Apply(ctx, s, b), a);
        ApplyElsewhere(ctx, s, b, h);
      } else if h == b.host {
        ApplyElsewhere(ctx, Apply(ctx, s, b), a, h);
        ApplyOnHost(ctx, s, b);
        ApplyOnHost(ctx, Apply(ctx, s, a), b);
        ApplyElsewhere(ctx, s, a, h);
      } else {
        ApplyElsewhere(ctx, s, a, h);
        ApplyElsewhere(ctx, s, b, h);
        ApplyElsewhere(ctx, Apply(ctx, s, a), b, h);
        ApplyElsewhere(ctx, Apply(ctx, s, b), a, h);
      }
    }
    SameOnEveryHost(ab, ba);
  }

  // ---------- serial executions ----------

  /** Run the listed requests one after the other. */
  ghost function Serial(ctx: Context, s: Store, reqs: seq<Request>, order: seq<nat>): Store
    requires forall i :: 0 <= i < |order| ==> order[i] < |reqs|
  {
    if order == [] then s
    else Apply(ctx, Serial(ctx, s, reqs, order[..|order| - 1]), reqs[order[|order| - 1]])
  }

  /** No listed request fails when its turn comes. */
  ghost predicate AllSucceed(ctx: Context, s: Store, reqs: seq<Request>, order: seq<nat>)
    requires forall i :: 0 <= i < |order| ==> order[i] < |reqs|
  {
    order == [] ||
    var before, last := order[..|order| - 1], order[|order| - 1];
    AllSucceed(ctx, s, reqs, before) && !Fails(ctx, Serial(ctx, s, reqs, before), reqs[last])
  }

  lemma SerialAppend(ctx: Context, s: Store, reqs: seq<Request>, order: seq<nat>, t: nat)
    requires (forall i :: 0 <= i < |order| ==> order[i] < |reqs|) && t < |reqs|
    ensures Serial(ctx, s, reqs, order + [t]) == Apply(ctx, Serial(ctx, s, reqs, order), reqs[t])
    ensures AllSucceed(ctx, s, reqs, order + [t]) <==>
              AllSucceed(ctx, s, reqs, order) && !Fails(ctx, Serial(ctx, s, reqs, order), reqs[t])
  {
    assert (order + [t])[..|order|] == order;
  }

  function OfHost(reqs: seq<Request>, order: seq<nat>, h: HostId): (r: seq<nat>)
    requires forall i :: 0 <= i < |order| ==> order[i] < |reqs|
    ensures forall i :: 0 <= i < |r| ==> r[i] < |reqs|
  {
    if order == [] then []
    else
      var rest := OfHost(reqs, order[..|order| - 1], h);
      if reqs[order[|order| - 1]].host == h then rest + [order[|order| - 1]] else rest
  }

  /** What a serial execution leaves for one host depends only on that host's requests. */
  lemma {:induction false} SerialOnHost(ctx: Context, s: Store, reqs: seq<Request>, order: seq<nat>, h: HostId)
    requires forall i :: 0 <= i < |order| ==> order[i] < |reqs|
    ensures On(Serial(ctx, s, reqs, order), h) == Serial(ctx, On(s, h), reqs, OfHost(reqs, order, h))
  {
    if order != [] {
      var before, last := order[..|order| - 1], order[|order| - 1];
      SerialOnHost(ctx, s, reqs, before, h);
      if reqs[last].host == h {
        ApplyOnHost(ctx, Serial(ctx, s, reqs, before), reqs[last]);
        assert OfHost(reqs, order, h)[..|OfHost(reqs, order, h)| - 1] == OfHost(reqs, before, h);
      } else {
        ApplyElsewhere(ctx, Serial(ctx, s, reqs, before), reqs[last], h);
      }
    }
  }

  /** Two serial orders that agree host by host leave the same tables. */
  lemma SerialOrdersAgree(ctx: Context, s: Store, reqs: seq<Request>, a: seq<nat>, b: seq<nat>)
    requires forall i :: 0 <= i < |a| ==> a[i] < |reqs|
    requires forall i :: 0 <= i < |b| ==> b[i] < |reqs|
    requires forall h :: OfHost(reqs, a, h) == OfHost(reqs, b, h)
    ensures Serial(ctx, s, reqs, a) == Serial(ctx, s, reqs, b)
  {
    forall h ensures On(Serial(ctx, s, reqs, a), h) == On(Serial(ctx, s, reqs, b), h) {
      SerialOnHost(ctx, s, reqs, a, h);
      SerialOnHost(ctx, s, reqs, b, h);
      assert OfHost(reqs, a, h) == OfHost(reqs, b, h);
    }
    SameOnEveryHost(Serial(ctx, s, reqs, a), Serial(ctx, s, reqs, b));
  }
}
