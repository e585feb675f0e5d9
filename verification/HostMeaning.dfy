/** Which hosts and reports a request selects, said of the columns of their rows alone. */
module HostMeaning {
  import opened Tables
  import opened QueryLang
  import opened HostFilters
  import opened ReportsQuery
  import opened Permissions

  // ---------- what a request asks of an inventory row ----------

  predicate Holds(row: InventoryRow, path: seq<string>, val: Val) {
    (path, val) in row.holds
  }

  predicate OfType(row: InventoryRow, t: SystemType) {
    match t
    case Any => true
    case Edge => Holds(row, ["host_type"], Text("edge"))
    case Bootc => Holds(row, ["bootc_booted_image", "isnull"], Flag(false))
    case Conventional => Holds(row, ["host_type", "isnull"], Flag(true))
  }

  /** Under a certificate only the hosts that its owner owns. */
  predicate OwnedBy(row: InventoryRow, owner: Option<string>) {
    owner.Some? ==> row.owner == owner
  }

  predicate UpdatedBy(row: InventoryRow, methods: seq<string>) {
    || ("ostree" in methods <==> "dnfyum" in methods)
    || ("ostree" in methods && Holds(row, ["system_update_method"], Text("rpm-ostree")))
    || ("dnfyum" in methods && Holds(row, ["system_update_method", "in"], Texts(["dnf", "yum"])))
  }

  predicate Runs(row: InventoryRow, w: string) {
    if w == "sap" then Holds(row, ["workloads", "sap", "sap_system"], Flag(true))
    else Holds(row, ["workloads", w, "isnull"], Flag(false))
  }

  predicate Tagged(row: InventoryRow, t: Tag) {
    Holds(row, ["tags", "contains"],
          Field(t.namespace, Field(t.key, match t.value case None => Null case Some(v) => Text(v))))
  }

  predicate Named(row: InventoryRow, name: string) {
    if name == "" then row.ungrouped else row.workspaceName == Some(name)
  }

  predicate FieldsFit(row: InventoryRow, req: ApiRequest) {
    && OfType(row, req.systemType) && OwnedBy(row, req.certOwner) && UpdatedBy(row, req.updateMethods)
    && (req.workloads == [] || exists w :: w in req.workloads && Runs(row, w))
    && (req.hostGroups == [] || row.workspaceId in req.hostGroups)
    && (req.groupNames == [] || exists name :: name in req.groupNames && Named(row, name))
  }

  /** The row is what the request asks for, but for its bracketed filters. */
  predicate Fits(row: InventoryRow, req: ApiRequest) {
    FieldsFit(row, req) && forall t :: t in req.tags ==> Tagged(row, t)
  }

  // ---------- lookups ----------

  /** A field whose first word is none of the columns is looked up among the other facts. */
  lemma OtherField(db: Db, key: InventoryKey, path: seq<string>, val: Val)
    requires key in db.inventory && path != []
    requires path[0] != "org_id" && path[0] != "host" && path[0] != "owner_id" && path[0] != "workspace_id"
    requires path[0] != "workspace_name" && path[0] != "workspace_ungrouped" && path[0] != "puptoo_stale_timestamp"
    ensures LookupHolds(db, OnInventory(key), path, val) <==> Holds(db.inventory[key], path, val)
  {
  }

  lemma TypeMeans(db: Db, key: InventoryKey, t: SystemType)
    requires key in db.inventory
    ensures Passes(db, OnInventory(key), SystemTypeQ(t, None)) <==> OfType(db.inventory[key], t)
  {
    assert |"host_type"| == 9 && |"bootc_booted_image"| == 18;
    OtherField(db, key, ["host_type"], Text("edge"));
    OtherField(db, key, ["bootc_booted_image", "isnull"], Flag(false));
    OtherField(db, key, ["host_type", "isnull"], Flag(true));
  }

  lemma OwnerMeans(db: Db, key: InventoryKey, owner: Option<string>)
    requires key in db.inventory
    ensures Passes(db, OnInventory(key), CertAuthQ(owner, None)) <==> OwnedBy(db.inventory[key], owner)
  {
    var path := ["owner_id"];
    assert |path[0]| == 8;
    assert path[0] != ["org_id"][0] && path[0] != ["host", "branch_id"][0] && path[0] != ["workspace_id"][0];
    assert path[0] != ["workspace_id", "isnull"][0] && path[0] != ["workspace_name"][0];
    assert path[0] != ["workspace_ungrouped"][0];
    if owner.Some? {
      assert LookupHolds(db, OnInventory(key), path, Text(owner.value)) <==>
        Is(db.inventory[key].owner, Text(owner.value));
    }
  }

  lemma MethodsMean(db: Db, key: InventoryKey, methods: seq<string>)
    requires key in db.inventory
    ensures Passes(db, OnInventory(key), UpdateMethodQ(methods, None)) <==> UpdatedBy(db.inventory[key], methods)
  {
    UpdateMethodMeans(db, OnInventory(key), methods, None);
    assert |"system_update_method"| == 20;
    var field := ["system_update_method"];
    assert field + ["in"] == ["system_update_method", "in"];
    OtherField(db, key, field, Text("rpm-ostree"));
    OtherField(db, key, field + ["in"], Texts(["dnf", "yum"]));
  }

  lemma WorkloadsMean(db: Db, key: InventoryKey, workloads: seq<string>)
    requires key in db.inventory
    ensures Passes(db, OnInventory(key), WorkloadQ(workloads, None)) <==>
              workloads == [] || exists w :: w in workloads && Runs(db.inventory[key], w)
  {
    WorkloadMeans(db, OnInventory(key), workloads, None);
    forall w ensures WorkloadFits(db, OnInventory(key), w, None) <==> Runs(db.inventory[key], w) {
      assert |"workloads"| == 9;
      OtherField(db, key, ["workloads", "sap", "sap_system"], Flag(true));
      OtherField(db, key, ["workloads", w, "isnull"], Flag(false));
    }
  }

  lemma GroupsMean(db: Db, key: InventoryKey, groups: seq<Option<string>>, names: seq<string>)
    requires key in db.inventory
    ensures Passes(db, OnInventory(key), HostGroupQ(groups, names, None)) <==>
              && (groups == [] || db.inventory[key].workspaceId in groups)
              && (names == [] || exists name :: name in names && Named(db.inventory[key], name))
  {
    AndMeansBoth(db, OnInventory(key), GroupsQ(groups, None), GroupNamesQ(names, None));
    if groups != [] {
      GroupsMeaning(db, key, groups);
    }
    if names != [] {
      NamesMeaning(db, key, names);
    }
    assert forall name :: Named(db.inventory[key], name) <==> NameFits(db.inventory[key], name);
  }

  lemma TagMeans(db: Db, key: InventoryKey, t: Tag)
    requires key in db.inventory
    ensures HasTag(db, key, t) <==> Tagged(db.inventory[key], t)
  {
    assert "tags"[0] == 't' && "host"[0] == 'h';
    OtherField(db, key, ["tags", "contains"], TagValue(t));
  }

  lemma TagsOfRow(db: Db, subject: Subject, req: ApiRequest, field: string)
    requires req.org != "" && InventoryKey(req.org, SubjectId(subject)) in db.inventory
    ensures Passes(db, subject, TagsQ(req, field)) <==>
              forall t :: t in req.tags ==> Tagged(db.inventory[InventoryKey(req.org, SubjectId(subject))], t)
  {
    TagsMean(db, subject, req, field);
    forall t | t in req.tags
      ensures HasTag(db, InventoryKey(req.org, SubjectId(subject)), t) <==>
        Tagged(db.inventory[InventoryKey(req.org, SubjectId(subject))], t)
    {
      TagMeans(db, InventoryKey(req.org, SubjectId(subject)), t);
    }
  }

  lemma FieldsMean(db: Db, key: InventoryKey, req: ApiRequest, multi: Q)
    requires key in db.inventory
    ensures Passes(db, OnInventory(key), FieldsQ(req, None, multi)) <==>
              FieldsFit(db.inventory[key], req) && Passes(db, OnInventory(key), multi)
  {
    SplitFields(db, OnInventory(key), SystemTypeQ(req.systemType, None), multi, CertAuthQ(req.certOwner, None),
                UpdateMethodQ(req.updateMethods, None), WorkloadQ(req.workloads, None),
                HostGroupQ(req.hostGroups, req.groupNames, None));
    TypeMeans(db, key, req.systemType);
    OwnerMeans(db, key, req.certOwner);
    MethodsMean(db, key, req.updateMethods);
    WorkloadsMean(db, key, req.workloads);
    GroupsMean(db, key, req.hostGroups, req.groupNames);
  }

  lemma SplitFields(db: Db, s: Subject, a: Q, b: Q, c: Q, d: Q, e: Q, f: Q)
    ensures Passes(db, s, And(a, And(b, And(c, And(d, And(e, f)))))) <==>
              && Passes(db, s, a) && Passes(db, s, b) && Passes(db, s, c)
              && Passes(db, s, d) && Passes(db, s, e) && Passes(db, s, f)
  {
    AndMeansBoth(db, s, a, And(b, And(c, And(d, And(e, f)))));
    SplitHostPart(db, s, b, c, d, e, f);
  }

  // ---------- the system list ----------

  /** The system list shows a row exactly when it is of the org, fits the request, passes the
      bracketed filters and is not stale; when its host is known to the advisor; and when, for a
      branch, the advisor's host row of the same org has that branch. */
  lemma ListedExactly(
    db: Db, req: ApiRequest, now: Time, multi: Q, filterStale: bool, filterBranch: bool, requireHost: bool,
    key: InventoryKey)
    ensures ForAccount(db, req, now, multi, filterStale, filterBranch, requireHost, key) <==>
              && req.org != "" && key in db.inventory && key.org == req.org
              && Fits(db.inventory[key], req) && Passes(db, OnInventory(key), multi)
              && (filterStale ==> db.inventory[key].staleAt > now)
              && (requireHost ==> key.id in db.hosts)
              && (filterBranch && req.branch.Some? ==>
                    key.id in db.hosts && db.hosts[key.id] == HostRow(key.org, req.branch))
  {
    if req.org != "" && key in db.inventory {
      ListConditions(db, req, now, filterBranch, key);
      if key.org == req.org {
        TagsOfRow(db, OnInventory(key), req, "inventory_id");
        FieldsMean(db, key, req, multi);
      }
    }
  }

  lemma ListConditions(db: Db, req: ApiRequest, now: Time, filterBranch: bool, key: InventoryKey)
    requires key in db.inventory
    ensures Passes(db, OnInventory(key), BranchQ(req, filterBranch)) <==>
              (filterBranch && req.branch.Some? ==>
                 key.id in db.hosts && db.hosts[key.id] == HostRow(key.org, req.branch))
    ensures Passes(db, OnInventory(key), Lookup(["puptoo_stale_timestamp", "gt"], Num(now))) <==>
              db.inventory[key].staleAt > now
    ensures Passes(db, OnInventory(key), Lookup(["org_id"], Text(req.org))) <==> key.org == req.org
    ensures Passes(db, OnInventory(key), AdvisorHost) <==> key.id in db.hosts
  {
    if key.id in db.hosts {
      RowConditions(db, req, now, filterBranch, key);
    } else {
      var stale := ["puptoo_stale_timestamp", "gt"];
      assert stale[0] == "puptoo_stale_timestamp" && stale[1] == "gt";
      assert stale != ["host", "branch_id"] && stale != ["workspace_id", "isnull"];
      assert InventoryHolds(db, key, stale, Num(now)) <==> db.inventory[key].staleAt > now;
      assert ["host", "branch_id"] != ["org_id"];
    }
  }

  // ---------- the report counts ----------

  /** The host's inventory row of the org is fresh, fits the request and passes the bracketed
      filters, and the advisor's host row has the branch asked for. */
  ghost predicate HostSelected(
    db: Db, req: ApiRequest, now: Time, multi: Q, category: Q, filterBranch: bool, r: ReportRow)
  {
    && InventoryKey(req.org, r.host) in db.inventory
    && db.inventory[InventoryKey(req.org, r.host)].staleAt > now
    && Fits(db.inventory[InventoryKey(req.org, r.host)], req)
    && Passes(db, OnInventory(InventoryKey(req.org, r.host)), multi)
    && Passes(db, OnReport(r), category)
    && (filterBranch && req.branch.Some? ==> r.host in db.hosts && db.hosts[r.host].branch == req.branch)
  }

  /** The report sub-query selects a report exactly when it is of the org and not acknowledged on
      its host; when ineligible rules are left out, its rule is not acknowledged and not
      inactive, and exists if the query joins it; and when ineligible hosts are left out, its
      host is selected. */
  lemma SelectsExactly(db: Db, req: ApiRequest, now: Time, multi: Q, category: Q, opts: Options, r: ReportRow)
    requires Plain(multi)
    ensures Selects(db, req, now, Through(INVENTORY, multi), category, opts, r) <==>
              && req.org != "" && r.org == req.org && HostAck(r.rule, req.org, r.host) !in db.hostAcks
              && (opts.excludeRules ==>
                    && (r.rule, req.org) !in db.acks
                    && (if r.rule in db.rules then db.rules[r.rule].active else !opts.useJoins))
              && (opts.excludeHosts ==> HostSelected(db, req, now, multi, category, opts.filterBranch, r))
  {
    SelectsParts(db, req, now, Through(INVENTORY, multi), category, opts, r);
    if req.org != "" && r.org == req.org && opts.excludeHosts {
      HostPartExactly(db, req, now, multi, category, opts.filterBranch, opts.useJoins, r);
    }
  }

  lemma SelectsParts(db: Db, req: ApiRequest, now: Time, multi: Q, category: Q, opts: Options, r: ReportRow)
    ensures Selects(db, req, now, multi, category, opts, r) <==>
              && req.org != "" && r.org == req.org && HostAck(r.rule, req.org, r.host) !in db.hostAcks
              && (opts.excludeRules ==>
                    && (r.rule, req.org) !in db.acks
                    && (if r.rule in db.rules then db.rules[r.rule].active else !opts.useJoins))
              && (opts.excludeHosts ==>
                    Passes(db, OnReport(r), HostPart(req, now, multi, category, opts.filterBranch, opts.useJoins)))
  {
    RuleConditions(db, req, opts, r);
    AckedOnHostMeans(db, req.org, r);
    NotExcludedMeans(db, OnReport(r), Empty);
  }

  lemma AckedOnHostMeans(db: Db, org: OrgId, r: ReportRow)
    ensures NotExcluded(db, OnReport(r), AckedOnHost(org)) <==> HostAck(r.rule, org, r.host) !in db.hostAcks
  {
    NotExcludedMeans(db, OnReport(r), AckedOnHost(org));
  }

  lemma HostPartExactly(
    db: Db, req: ApiRequest, now: Time, multi: Q, category: Q, filterBranch: bool, useJoins: bool, r: ReportRow)
    requires Plain(multi) && req.org != "" && r.org == req.org
    ensures Passes(db, OnReport(r), HostPart(req, now, Through(INVENTORY, multi), category, filterBranch, useJoins))
            <==> HostSelected(db, req, now, multi, category, filterBranch, r)
  {
    var s, key := OnReport(r), InventoryKey(req.org, r.host);
    SplitHostPart(db, s, TagsQ(req, "host_id"), FieldsQ(req, Some(INVENTORY), Through(INVENTORY, multi)), category,
                  BranchQ(req, filterBranch), StaleQ(req, now, useJoins));
    StaleAtReport(db, req, now, useJoins, r);
    BranchOfReport(db, req, filterBranch, r);
    if key in db.inventory {
      TagsOfRow(db, s, req, "host_id");
      FieldsThrough(req, multi);
      ThroughInventory(db, r, FieldsQ(req, None, multi));
      FieldsMean(db, key, req, multi);
    }
  }

  lemma BranchOfReport(db: Db, req: ApiRequest, filterBranch: bool, r: ReportRow)
    ensures Passes(db, OnReport(r), BranchQ(req, filterBranch)) <==>
              (filterBranch && req.branch.Some? ==> r.host in db.hosts && db.hosts[r.host].branch == req.branch)
  {
    if r.host in db.hosts {
      BranchAtReport(db, req, filterBranch, r);
    }
    assert ["host", "branch_id"][0] == "host" && ["org_id"][0] == "org_id" && ["rule", "active"][0] == "rule";
  }

  // ---------- a certificate at work ----------

  /** A certificate of "c1" hides the system of "c2", whatever else is asked for. */
  lemma OtherOwnerIsHidden(
    db: Db, req: ApiRequest, now: Time, multi: Q, filterStale: bool, filterBranch: bool, requireHost: bool,
    key: InventoryKey)
    requires req.certOwner == Some("c1")
    requires key in db.inventory && db.inventory[key].owner == Some("c2")
    ensures !ForAccount(db, req, now, multi, filterStale, filterBranch, requireHost, key)
  {
    assert "c1"[1] == '1' && "c2"[1] == '2';
    ListedExactly(db, req, now, multi, filterStale, filterBranch, requireHost, key);
  }
}
