/** The report sub-query behind every count, its two forms, and the system list it must agree
    with. */
module ReportsQuery {
  import opened Tables
  import opened QueryLang
  import opened HostFilters

  /** The options of the report sub-query. */
  datatype Options = Options(excludeRules: bool, excludeHosts: bool, filterBranch: bool, useJoins: bool)

  /** What a row's tags must contain for one tag. */
  function TagValue(t: Tag): Val {
    Field(t.namespace, Field(t.key, if t.value.Some? then Text(t.value.value) else Null))
  }

  function TagLookups(tags: seq<Tag>): Q {
    if tags == [] then Empty
    else AndQ(TagLookups(tags[..|tags| - 1]), Lookup(["tags", "contains"], TagValue(tags[|tags| - 1])))
  }

  /** Hosts with all the tags, looked up by id among the org's inventory rows. */
  function TagsQ(req: ApiRequest, field: string): Q {
    if req.tags == [] then Empty
    else IdIn(field, if req.org == "" then TagLookups(req.tags)
                     else AndQ(TagLookups(req.tags), Lookup(["org_id"], Text(req.org))))
  }

  /** Both queries reach the branch through a relation called host. */
  function BranchQ(req: ApiRequest, filterBranch: bool): Q {
    if filterBranch && req.branch.Some? then Lookup(["host", "branch_id"], Text(req.branch.value)) else Empty
  }

  function StaleQ(req: ApiRequest, now: Time, useJoins: bool): Q {
    if useJoins then FreshInventory("host", req.org, now)
    else And(FreshInventory("host_id", req.org, now), Lookup(["org_id"], Text(req.org)))
  }

  /** The conditions on host fields; multi is the built filter[system_profile] condition. */
  function FieldsQ(req: ApiRequest, relation: Option<string>, multi: Q): Q {
    And(SystemTypeQ(req.systemType, relation),
        And(multi,
            And(CertAuthQ(req.certOwner, relation),
                And(UpdateMethodQ(req.updateMethods, relation),
                    And(WorkloadQ(req.workloads, relation), HostGroupQ(req.hostGroups, req.groupNames, relation))))))
  }

  function HostPart(req: ApiRequest, now: Time, multi: Q, category: Q, filterBranch: bool, useJoins: bool): Q {
    And(TagsQ(req, "host_id"),
        And(FieldsQ(req, Some(INVENTORY), multi),
            And(category, And(BranchQ(req, filterBranch), StaleQ(req, now, useJoins)))))
  }

  function AckQ(req: ApiRequest, opts: Options): Q {
    if !opts.excludeRules then Empty else if opts.useJoins then AckedRule(req.org) else InactiveOrAckedRule(req.org)
  }

  function ActiveQ(opts: Options): Q {
    if opts.useJoins && opts.excludeRules then Lookup(["rule", "active"], Flag(true)) else Empty
  }

  /** The report sub-query selects a report. */
  ghost predicate Selects(db: Db, req: ApiRequest, now: Time, multi: Q, category: Q, opts: Options, r: ReportRow) {
    && req.org != ""
    && Passes(db, OnReport(r),
              if opts.excludeHosts
              then HostPart(req, now, multi, category, opts.filterBranch, opts.useJoins) else Empty)
    && Passes(db, OnReport(r), Lookup(["org_id"], Text(req.org)))
    && Passes(db, OnReport(r), ActiveQ(opts))
    && NotExcluded(db, OnReport(r), AckQ(req, opts))
    && NotExcluded(db, OnReport(r), AckedOnHost(req.org))
  }

  /** The system list shows an inventory row. */
  ghost predicate ForAccount(
    db: Db, req: ApiRequest, now: Time, multi: Q, filterStale: bool, filterBranch: bool, requireHost: bool,
    key: InventoryKey)
  {
    && req.org != "" && key in db.inventory
    && Passes(db, OnInventory(key), TagsQ(req, "inventory_id"))
    && Passes(db, OnInventory(key), FieldsQ(req, None, multi))
    && Passes(db, OnInventory(key), BranchQ(req, filterBranch))
    && Passes(db, OnInventory(key), if filterStale then Lookup(["puptoo_stale_timestamp", "gt"], Num(now)) else Empty)
    && Passes(db, OnInventory(key), if requireHost then AdvisorHost else Empty)
    && Passes(db, OnInventory(key), Lookup(["org_id"], Text(req.org)))
  }

  // ---------- what the tag filter means ----------

  predicate HasTag(db: Db, key: InventoryKey, t: Tag) {
    LookupHolds(db, OnInventory(key), ["tags", "contains"], TagValue(t))
  }

  lemma {:induction false} TagLookupsMean(db: Db, key: InventoryKey, tags: seq<Tag>)
    ensures Passes(db, OnInventory(key), TagLookups(tags)) <==> forall t :: t in tags ==> HasTag(db, key, t)
  {
    if tags != [] {
      var before, last := tags[..|tags| - 1], tags[|tags| - 1];
      TagLookupsMean(db, key, before);
      assert tags == before + [last];
      AndMeansBoth(db, OnInventory(key), TagLookups(before), Lookup(["tags", "contains"], TagValue(last)));
      TagAtRow(db, key, last);
    }
  }

  lemma TagAtRow(db: Db, key: InventoryKey, t: Tag)
    ensures Passes(db, OnInventory(key), Lookup(["tags", "contains"], TagValue(t))) <==> HasTag(db, key, t)
  {
  }

  /** In an org the tag filter passes exactly the hosts whose inventory row there has every tag
      asked for. */
  lemma TagsMean(db: Db, subject: Subject, req: ApiRequest, field: string)
    requires req.org != ""
    ensures Passes(db, subject, TagsQ(req, field)) <==>
              var key := InventoryKey(req.org, SubjectId(subject));
              req.tags == [] || (key in db.inventory && forall t :: t in req.tags ==> HasTag(db, key, t))
  {
    if req.tags != [] {
      var own, org := InventoryKey(req.org, SubjectId(subject)), Lookup(["org_id"], Text(req.org));
      forall key | key in db.inventory && key.id == SubjectId(subject)
        ensures Passes(db, OnInventory(key), AndQ(TagLookups(req.tags), org)) <==>
                  key == own && forall t :: t in req.tags ==> HasTag(db, key, t)
      {
        TagLookupsMean(db, key, req.tags);
        AndMeansBoth(db, OnInventory(key), TagLookups(req.tags), org);
      }
    }
  }

  // ---------- the two forms ----------

  lemma HostPartFormsAgree(
    db: Db, req: ApiRequest, now: Time, multi: Q, category: Q, filterBranch: bool, r: ReportRow)
    requires r.org == req.org
    ensures Passes(db, OnReport(r), HostPart(req, now, multi, category, filterBranch, true)) <==>
            Passes(db, OnReport(r), HostPart(req, now, multi, category, filterBranch, false))
  {
    var branch, fields := BranchQ(req, filterBranch), FieldsQ(req, Some(INVENTORY), multi);
    SplitHostPart(db, OnReport(r), TagsQ(req, "host_id"), fields, category, branch, StaleQ(req, now, true));
    SplitHostPart(db, OnReport(r), TagsQ(req, "host_id"), fields, category, branch, StaleQ(req, now, false));
    AndMeansBoth(db, OnReport(r), FreshInventory("host_id", req.org, now), Lookup(["org_id"], Text(req.org)));
  }

  lemma SplitHostPart(db: Db, s: Subject, a: Q, b: Q, c: Q, d: Q, e: Q)
    ensures Passes(db, s, And(a, And(b, And(c, And(d, e))))) <==>
              Passes(db, s, a) && Passes(db, s, b) && Passes(db, s, c) && Passes(db, s, d) && Passes(db, s, e)
  {
    AndMeansBoth(db, s, a, And(b, And(c, And(d, e))));
    AndMeansBoth(db, s, b, And(c, And(d, e)));
    AndMeansBoth(db, s, c, And(d, e));
    AndMeansBoth(db, s, d, e);
  }

  /** With and without joins the sub-query selects the same report, if and only if the
      report's rule exists, or ineligible rules are not excluded, or the report fails
      something else. */
  lemma FormsAgreeExactly(
    db: Db, req: ApiRequest, now: Time, multi: Q, category: Q, opts: Options, r: ReportRow)
    ensures (Selects(db, req, now, multi, category, opts.(useJoins := true), r) <==>
             Selects(db, req, now, multi, category, opts.(useJoins := false), r))
            <==>
            || r.rule in db.rules
            || !opts.excludeRules
            || (r.rule, req.org) in db.acks
            || !Selects(db, req, now, multi, category, opts.(useJoins := false, excludeRules := false), r)
  {
    RuleConditions(db, req, opts.(useJoins := true), r);
    RuleConditions(db, req, opts.(useJoins := false), r);
    RuleConditions(db, req, opts.(useJoins := false, excludeRules := false), r);
    if r.org == req.org {
      HostPartFormsAgree(db, req, now, multi, category, opts.filterBranch, r);
    }
  }

  /** An exclusion by an empty condition excludes nothing. */
  lemma NotExcludedMeans(db: Db, s: Subject, q: Q)
    ensures NotExcluded(db, s, q) <==> Clause(db, s, q) != Some(true)
    ensures NotExcluded(db, s, Empty)
  {
  }

  /** What the rule conditions of each form demand of a report. */
  lemma RuleConditions(db: Db, req: ApiRequest, opts: Options, r: ReportRow)
    ensures Passes(db, OnReport(r), Lookup(["org_id"], Text(req.org))) <==> r.org == req.org
    ensures Passes(db, OnReport(r), ActiveQ(opts)) <==>
              (opts.useJoins && opts.excludeRules ==> r.rule in db.rules && db.rules[r.rule].active)
    ensures NotExcluded(db, OnReport(r), AckQ(req, opts)) <==>
              (opts.excludeRules ==>
                 && (r.rule, req.org) !in db.acks
                 && (!opts.useJoins && r.rule in db.rules ==> db.rules[r.rule].active))
  {
    assert ["rule", "active"][0] == "rule" && ["org_id"][0] == "org_id";
    NotExcludedMeans(db, OnReport(r), AckQ(req, opts));
    assert LookupHolds(db, OnReport(r), ["rule", "active"], Flag(true)) <==>
      r.rule in db.rules && db.rules[r.rule].active;
    assert LookupHolds(db, OnReport(r), ["org_id"], Text(req.org)) <==> r.org == req.org;
  }

  /** Over intact rule keys the two forms select the same reports, whatever the flags. */
  lemma FormsAgree(db: Db, req: ApiRequest, now: Time, multi: Q, category: Q, opts: Options, r: ReportRow)
    requires r.rule in db.rules
    ensures Selects(db, req, now, multi, category, opts.(useJoins := true), r) <==>
            Selects(db, req, now, multi, category, opts.(useJoins := false), r)
  {
    FormsAgreeExactly(db, req, now, multi, category, opts, r);
  }

  // ---------- the system list and the report counts ----------

  lemma FieldsThrough(req: ApiRequest, multi: Q)
    requires Plain(multi)
    ensures FieldsQ(req, Some(INVENTORY), Through(INVENTORY, multi)) == Through(INVENTORY, FieldsQ(req, None, multi))
    ensures Plain(FieldsQ(req, None, multi))
  {
    WorkloadThrough(req.workloads, INVENTORY);
    GroupsThrough(req.hostGroups, req.groupNames, INVENTORY);
    ThroughAnd(INVENTORY, GroupsQ(req.hostGroups, None), GroupNamesQ(req.groupNames, None));
    var group := HostGroupQ(req.hostGroups, req.groupNames, None);
    assert HostGroupQ(req.hostGroups, req.groupNames, Some(INVENTORY)) == Through(INVENTORY, group) && Plain(group);
    UpdateMethodThrough(req.updateMethods);
    FieldsThroughAnd(SystemTypeQ(req.systemType, None), multi, CertAuthQ(req.certOwner, None),
                     UpdateMethodQ(req.updateMethods, None), WorkloadQ(req.workloads, None), group);
  }

  lemma UpdateMethodThrough(methods: seq<string>)
    ensures UpdateMethodQ(methods, Some(INVENTORY)) == Through(INVENTORY, UpdateMethodQ(methods, None))
    ensures Plain(UpdateMethodQ(methods, None))
  {
  }

  lemma FieldsThroughAnd(a: Q, b: Q, c: Q, d: Q, e: Q, f: Q)
    ensures Through(INVENTORY, And(a, And(b, And(c, And(d, And(e, f)))))) ==
            And(Through(INVENTORY, a), And(Through(INVENTORY, b), And(Through(INVENTORY, c),
              And(Through(INVENTORY, d), And(Through(INVENTORY, e), Through(INVENTORY, f))))))
    ensures Plain(a) && Plain(b) && Plain(c) && Plain(d) && Plain(e) && Plain(f) ==>
              Plain(And(a, And(b, And(c, And(d, And(e, f))))))
  {
    var ef := And(e, f);
    var de := And(d, ef);
    var cd := And(c, de);
    assert Through(INVENTORY, ef) == And(Through(INVENTORY, e), Through(INVENTORY, f));
    assert Through(INVENTORY, de) == And(Through(INVENTORY, d), Through(INVENTORY, ef));
    assert Through(INVENTORY, cd) == And(Through(INVENTORY, c), Through(INVENTORY, de));
    assert Plain(d) && Plain(e) && Plain(f) ==> Plain(de);
  }

  /** A report passes the host part exactly when its inventory row is in the system list,
      for the same request and clock, whenever the advisor's host row and the report share
      their org or no branch is asked for; the bracketed filters are accepted, rejected or
      fail alike on both sides. */
  lemma SystemListMatchesReports(
    db: Db, req: ApiRequest, now: Time, filterBranch: bool, useJoins: bool, r: ReportRow)
    requires req.org != "" && r.org == req.org && r.host in db.hosts
    requires db.hosts[r.host].org == r.org || !filterBranch || req.branch.None?
    ensures MultiParamQ(req.filters, Some(INVENTORY)) == ThroughBuilt(INVENTORY, MultiParamQ(req.filters, None))
    ensures MultiParamQ(req.filters, None).Ok? ==>
              (Passes(db, OnReport(r), HostPart(req, now, MultiParamQ(req.filters, Some(INVENTORY)).q, Empty,
                  filterBranch, useJoins))
               <==> ForAccount(db, req, now, MultiParamQ(req.filters, None).q, true, filterBranch, true,
                   InventoryKey(r.org, r.host)))
  {
    MultiParamThrough(req.filters, INVENTORY);
    if MultiParamQ(req.filters, None).Ok? {
      HostPartIffListed(db, req, now, MultiParamQ(req.filters, None).q, filterBranch, useJoins, r);
    }
  }

  /** The host part of a report, seen from its inventory row. */
  lemma HostPartIffListed(
    db: Db, req: ApiRequest, now: Time, multi: Q, filterBranch: bool, useJoins: bool, r: ReportRow)
    requires req.org != "" && r.org == req.org && r.host in db.hosts && Plain(multi)
    ensures var passes := Passes(db, OnReport(r),
              HostPart(req, now, Through(INVENTORY, multi), Empty, filterBranch, useJoins));
            var key := InventoryKey(r.org, r.host);
            && (ForAccount(db, req, now, multi, true, filterBranch, true, key) <==>
                passes && (filterBranch && req.branch.Some? ==> db.hosts[r.host].org == r.org))
  {
    var s, key := OnReport(r), InventoryKey(r.org, r.host);
    SplitHostPart(db, s, TagsQ(req, "host_id"), FieldsQ(req, Some(INVENTORY), Through(INVENTORY, multi)), Empty,
                  BranchQ(req, filterBranch), StaleQ(req, now, useJoins));
    StaleAtReport(db, req, now, useJoins, r);
    BranchAtReport(db, req, filterBranch, r);
    if key in db.inventory {
      FieldsThrough(req, multi);
      ThroughInventory(db, r, FieldsQ(req, None, multi));
      RowConditions(db, req, now, filterBranch, key);
      TagsAlike(db, req, r);
    }
  }

  lemma TagsAlike(db: Db, req: ApiRequest, r: ReportRow)
    ensures Passes(db, OnReport(r), TagsQ(req, "host_id")) <==>
            Passes(db, OnInventory(InventoryKey(r.org, r.host)), TagsQ(req, "inventory_id"))
  {
  }

  lemma StaleAtReport(db: Db, req: ApiRequest, now: Time, useJoins: bool, r: ReportRow)
    requires r.org == req.org
    ensures var key := InventoryKey(r.org, r.host);
            Passes(db, OnReport(r), StaleQ(req, now, useJoins)) <==>
              key in db.inventory && db.inventory[key].staleAt > now
  {
    AndMeansBoth(db, OnReport(r), FreshInventory("host_id", req.org, now), Lookup(["org_id"], Text(req.org)));
  }

  /** What the system list's own conditions demand of an inventory row. */
  lemma RowConditions(db: Db, req: ApiRequest, now: Time, filterBranch: bool, key: InventoryKey)
    requires key in db.inventory && key.id in db.hosts
    ensures Passes(db, OnInventory(key), BranchQ(req, filterBranch)) <==>
              (filterBranch && req.branch.Some? ==>
                 db.hosts[key.id].branch == req.branch && db.hosts[key.id].org == key.org)
    ensures Passes(db, OnInventory(key), Lookup(["puptoo_stale_timestamp", "gt"], Num(now))) <==>
              db.inventory[key].staleAt > now
    ensures Passes(db, OnInventory(key), AdvisorHost)
    ensures Passes(db, OnInventory(key), Lookup(["org_id"], Text(req.org))) <==> key.org == req.org
  {
    var stale := ["puptoo_stale_timestamp", "gt"];
    assert stale[0] == "puptoo_stale_timestamp" && stale[1] == "gt";
    assert stale != ["host", "branch_id"] && stale != ["workspace_id", "isnull"];
    assert InventoryHolds(db, key, stale, Num(now)) <==> db.inventory[key].staleAt > now;
    assert ["host", "branch_id"] != ["org_id"];
  }

  /** The two disagree about a report exactly when a branch is asked for, the advisor's host
      row has that branch but another org, and the report passes everything else. */
  lemma DisagreementExactly(
    db: Db, req: ApiRequest, now: Time, multi: Q, filterBranch: bool, useJoins: bool, r: ReportRow)
    requires req.org != "" && r.org == req.org && r.host in db.hosts && Plain(multi)
    ensures var key := InventoryKey(r.org, r.host);
            (Passes(db, OnReport(r), HostPart(req, now, Through(INVENTORY, multi), Empty, filterBranch, useJoins))
             <==> ForAccount(db, req, now, multi, true, filterBranch, true, key))
            <==>
            !(&& filterBranch && req.branch.Some? && db.hosts[r.host].branch == req.branch
              && db.hosts[r.host].org != r.org
              && Passes(db, OnReport(r), HostPart(req, now, Through(INVENTORY, multi), Empty, false, useJoins)))
  {
    HostPartIffListed(db, req, now, multi, filterBranch, useJoins, r);
    var s, fields := OnReport(r), FieldsQ(req, Some(INVENTORY), Through(INVENTORY, multi));
    SplitHostPart(db, s, TagsQ(req, "host_id"), fields, Empty, BranchQ(req, filterBranch), StaleQ(req, now, useJoins));
    SplitHostPart(db, s, TagsQ(req, "host_id"), fields, Empty, BranchQ(req, false), StaleQ(req, now, useJoins));
    BranchAtReport(db, req, filterBranch, r);
  }

  /** Such a report exists: the advisor's host row has the requested branch under another org,
      and the asking org has an inventory row and a report for the same host. */
  lemma CountedButNotListed(useJoins: bool) returns (db: Db, req: ApiRequest, r: ReportRow)
    ensures req.branch == Some("b") && db.hosts == map[r.host := HostRow("other", Some("b"))] && r.org == req.org == "o"
    ensures Passes(db, OnReport(r), HostPart(req, 0, Empty, Empty, true, useJoins))
    ensures !ForAccount(db, req, 0, Empty, true, true, true, InventoryKey(r.org, r.host))
  {
    var key := InventoryKey("o", "h");
    db := Db(map[key := InventoryRow(1, None, None, false, None, {})], map["h" := HostRow("other", Some("b"))],
        map[], {}, {});
    req := ApiRequest("o", [], Any, [], [], [], Some("b"), [], [], None);
    r := ReportRow("o", "r", "h");
    assert "other"[0] == 'o' && |"other"| != |"o"|;
    StaleAtReport(db, req, 0, useJoins, r);
    BranchAtReport(db, req, true, r);
    SplitHostPart(db, OnReport(r), TagsQ(req, "host_id"), FieldsQ(req, Some(INVENTORY), Empty), Empty,
                  BranchQ(req, true), StaleQ(req, 0, useJoins));
    HostPartIffListed(db, req, 0, Empty, true, useJoins, r);
  }

  lemma BranchAtReport(db: Db, req: ApiRequest, filterBranch: bool, r: ReportRow)
    requires r.host in db.hosts
    ensures Passes(db, OnReport(r), BranchQ(req, filterBranch)) <==>
              (filterBranch && req.branch.Some? ==> db.hosts[r.host].branch == req.branch)
  {
    assert ["host", "branch_id"][0] == "host" && ["org_id"][0] == "org_id" && ["rule", "active"][0] == "rule";
  }
}
