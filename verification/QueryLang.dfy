/** Query conditions as data, and their truth on a report or on an inventory row. */
module QueryLang {
  import opened Tables

  datatype Val =
    | Null
    | Text(s: string)
    | Num(n: int)
    | Flag(b: bool)
    | Texts(texts: seq<string>)
    | Field(key: string, val: Val)

  /** A condition. A lookup names a field through its path; the other leaves are sub-queries
      that refer to the row being tested. */
  datatype Q =
    | Empty
    | Lookup(path: seq<string>, val: Val)
    | IdIn(field: string, sub: Q)
    | FreshInventory(field: string, org: OrgId, now: Time)
    | AdvisorHost
    | AckedRule(org: OrgId)
    | InactiveOrAckedRule(org: OrgId)
    | AckedOnHost(org: OrgId)
    | And(l: Q, r: Q)
    | Or(l: Q, r: Q)
    | Not(q: Q)

  datatype InventoryKey = InventoryKey(org: OrgId, id: HostId)

  /** An inventory row: the columns the model reads, and which other lookups hold of it. */
  datatype InventoryRow = InventoryRow(
    staleAt: Time, workspaceId: Option<string>, workspaceName: Option<string>, ungrouped: bool,
    owner: Option<string>, holds: set<(seq<string>, Val)>)

  datatype HostRow = HostRow(org: OrgId, branch: Option<string>)

  datatype ReportRow = ReportRow(org: OrgId, rule: RuleId, host: HostId)

  datatype Db = Db(
    inventory: map<InventoryKey, InventoryRow>, hosts: map<HostId, HostRow>, rules: map<RuleId, RuleInfo>,
    acks: set<(RuleId, OrgId)>, hostAcks: set<HostAck>)

  /** The row a condition is tested on. */
  datatype Subject = OnReport(report: ReportRow) | OnInventory(key: InventoryKey)

  // ---------- combining conditions ----------

  /** The & and | operators: an empty condition is the identity of both. */
  function AndQ(l: Q, r: Q): Q {
    if l.Empty? then r else if r.Empty? then l else And(l, r)
  }

  function OrQ(l: Q, r: Q): Q {
    if l.Empty? then r else if r.Empty? then l else Or(l, r)
  }

  // ---------- truth ----------

  const INVENTORY := "advisor_inventory"

  predicate Is(o: Option<string>, v: Val) {
    o.Some? && v == Text(o.value)
  }

  /** One lookup on an inventory row. */
  predicate RowHolds(row: InventoryRow, path: seq<string>, val: Val) {
    if path == ["workspace_id"] then Is(row.workspaceId, val)
    else if path == ["workspace_id", "isnull"] then val == Flag(row.workspaceId.None?)
    else if path == ["workspace_name"] then Is(row.workspaceName, val)
    else if path == ["workspace_ungrouped"] then val == Flag(row.ungrouped)
    else if path == ["owner_id"] then Is(row.owner, val)
    else if path == ["puptoo_stale_timestamp", "gt"] then val.Num? && row.staleAt > val.n
    else (path, val) in row.holds
  }

  /** A lookup through a relation that finds no row sees only nulls. */
  predicate MissingHolds(path: seq<string>, val: Val) {
    path != [] && path[|path| - 1] == "isnull" && val == Flag(true)
  }

  /** One lookup on the inventory row of a key, including the ones that read its key or go on
      to the advisor's own host row, which must share the org. */
  predicate InventoryHolds(db: Db, key: InventoryKey, path: seq<string>, val: Val)
    requires key in db.inventory
  {
    if path == ["org_id"] then val == Text(key.org)
    else if path == ["host", "branch_id"] then
      key.id in db.hosts && db.hosts[key.id].org == key.org && Is(db.hosts[key.id].branch, val)
    else RowHolds(db.inventory[key], path, val)
  }

  predicate LookupHolds(db: Db, subject: Subject, path: seq<string>, val: Val) {
    match subject
    case OnInventory(key) => key in db.inventory && InventoryHolds(db, key, path, val)
    case OnReport(r) =>
      if path == ["org_id"] then val == Text(r.org)
      else if path == ["rule", "active"] then r.rule in db.rules && val == Flag(db.rules[r.rule].active)
      else if path == ["host", "branch_id"] then r.host in db.hosts && Is(db.hosts[r.host].branch, val)
      else if path != [] && path[0] == INVENTORY then
        var key := InventoryKey(r.org, r.host);
        if key in db.inventory then InventoryHolds(db, key, path[1..], val) else MissingHolds(path[1..], val)
      else false
  }

  function SubjectId(subject: Subject): HostId {
    match subject case OnReport(r) => r.host case OnInventory(key) => key.id
  }

  /** The truth of a condition, or None when it adds no clause at all. */
  ghost function Clause(db: Db, subject: Subject, q: Q): Option<bool>
    decreases q
  {
    match q
    case Empty => None
    case Lookup(path, val) => Some(LookupHolds(db, subject, path, val))
    case IdIn(_, sub) =>
      Some(exists key :: && key in db.inventory && key.id == SubjectId(subject)
                         && Clause(db, OnInventory(key), sub) != Some(false))
    case FreshInventory(_, org, now) =>
      var key := InventoryKey(org, SubjectId(subject));
      Some(key in db.inventory && db.inventory[key].staleAt > now)
    case AdvisorHost => Some(SubjectId(subject) in db.hosts)
    case AckedRule(org) => Some(subject.OnReport? && (subject.report.rule, org) in db.acks)
    case InactiveOrAckedRule(org) =>
      Some(&& subject.OnReport?
           && var rule := subject.report.rule;
              (rule in db.rules && !db.rules[rule].active) || (rule, org) in db.acks)
    case AckedOnHost(org) =>
      Some(subject.OnReport? && HostAck(subject.report.rule, org, subject.report.host) in db.hostAcks)
    case And(l, r) =>
      var a, b := Clause(db, subject, l), Clause(db, subject, r);
      if a.None? then b else if b.None? then a else Some(a.value && b.value)
    case Or(l, r) =>
      var a, b := Clause(db, subject, l), Clause(db, subject, r);
      if a.None? then b else if b.None? then a else Some(a.value || b.value)
    case Not(p) =>
      var a := Clause(db, subject, p);
      if a.None? then None else Some(!a.value)
  }

  /** A row passes filter(q), and passes exclude(q); without a clause every row passes both. */
  ghost predicate Passes(db: Db, subject: Subject, q: Q) {
    Clause(db, subject, q) != Some(false)
  }

  ghost predicate NotExcluded(db: Db, subject: Subject, q: Q) {
    Passes(db, subject, Not(q))
  }

  /** The & operator means both, whether or not the operands add clauses. */
  lemma AndMeansBoth(db: Db, subject: Subject, l: Q, r: Q)
    ensures Passes(db, subject, AndQ(l, r)) <==> Passes(db, subject, l) && Passes(db, subject, r)
    ensures Passes(db, subject, And(l, r)) <==> Passes(db, subject, l) && Passes(db, subject, r)
    ensures Clause(db, subject, AndQ(l, r)) == Clause(db, subject, And(l, r))
  {
  }

  /** The | operator means either, between conditions that add clauses. */
  lemma OrMeansEither(db: Db, subject: Subject, l: Q, r: Q)
    ensures Clause(db, subject, OrQ(l, r)) == Clause(db, subject, Or(l, r))
    ensures Clause(db, subject, l).Some? && Clause(db, subject, r).Some? ==>
              (Passes(db, subject, OrQ(l, r)) <==> Passes(db, subject, l) || Passes(db, subject, r))
  {
  }

  // ---------- relation prefixes ----------

  /** The path of a field, reached through a relation if one is given. */
  function Path(relation: Option<string>, path: seq<string>): seq<string> {
    if relation.Some? then [relation.value] + path else path
  }

  /** A condition made of lookups alone. */
  predicate Plain(q: Q) {
    match q
    case Empty => true
    case Lookup(_, _) => true
    case And(l, r) => Plain(l) && Plain(r)
    case Or(l, r) => Plain(l) && Plain(r)
    case Not(p) => Plain(p)
    case _ => false
  }

  /** The same condition reached through a relation. */
  function Through(relation: string, q: Q): Q {
    match q
    case Lookup(path, val) => Lookup([relation] + path, val)
    case And(l, r) => And(Through(relation, l), Through(relation, r))
    case Or(l, r) => Or(Through(relation, l), Through(relation, r))
    case Not(p) => Not(Through(relation, p))
    case _ => q
  }

  /** Without a joined row only a test for null holds, and only in the positive. */
  lemma WithoutRow(db: Db, r: ReportRow, path: seq<string>, val: Val)
    requires InventoryKey(r.org, r.host) !in db.inventory
    ensures Passes(db, OnReport(r), Lookup([INVENTORY] + path, val)) <==>
              path != [] && path[|path| - 1] == "isnull" && val == Flag(true)
  {
    assert ([INVENTORY] + path)[1..] == path && ([INVENTORY] + path)[0] == INVENTORY;
    assert ["org_id"][0] != INVENTORY && ["rule", "active"][0] != INVENTORY && ["host", "branch_id"][0] != INVENTORY;
  }

  /** Reaching inventory fields through the report's relation tests the joined row. */
  lemma {:induction false} ThroughInventory(db: Db, r: ReportRow, q: Q)
    requires Plain(q) && InventoryKey(r.org, r.host) in db.inventory
    ensures Clause(db, OnReport(r), Through(INVENTORY, q)) == Clause(db, OnInventory(InventoryKey(r.org, r.host)), q)
  {
    match q
    case Lookup(path, val) =>
      assert ([INVENTORY] + path)[1..] == path;
      assert ([INVENTORY] + path)[0] == INVENTORY;
      assert ["org_id"][0] != INVENTORY && ["rule", "active"][0] != INVENTORY && ["host", "branch_id"][0] != INVENTORY;
    case And(a, b) => ThroughInventory(db, r, a); ThroughInventory(db, r, b);
    case Or(a, b) => ThroughInventory(db, r, a); ThroughInventory(db, r, b);
    case Not(p) => ThroughInventory(db, r, p);
    case _ =>
  }
}
