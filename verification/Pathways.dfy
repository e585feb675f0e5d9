/** Aggregating an account's reports into pathways, and packing the aggregates of all pathways
    into one expression for each field. */
module Pathways {
  import opened Tables
  import opened Collections

  /** One report of a rule in a pathway. */
  datatype Hit = Hit(pathway: nat, host: HostId, incident: bool, risk: nat)

  /** The host sets collected for one pathway. */
  datatype HostSets = HostSets(
    impacted: set<HostId>, incidents: set<HostId>, low: set<HostId>, medium: set<HostId>,
    high: set<HostId>, critical: set<HostId>)

  type Collected = map<nat, HostSets>

  const NONE := HostSets({}, {}, {}, {}, {}, {})

  function AddHit(sets: HostSets, hit: Hit): HostSets {
    HostSets(
      sets.impacted + {hit.host},
      if hit.incident then sets.incidents + {hit.host} else sets.incidents,
      if hit.risk == 1 then sets.low + {hit.host} else sets.low,
      if hit.risk == 2 then sets.medium + {hit.host} else sets.medium,
      if hit.risk == 3 then sets.high + {hit.host} else sets.high,
      if hit.risk == 4 then sets.critical + {hit.host} else sets.critical)
  }

  // ---------- what is collected, said directly ----------

  function HostsWith(hits: seq<Hit>, pathway: nat, wanted: Hit -> bool): set<HostId> {
    set hit | hit in hits && hit.pathway == pathway && wanted(hit) :: hit.host
  }

  function Direct(hits: seq<Hit>, pathway: nat): HostSets {
    HostSets(
      HostsWith(hits, pathway, (h: Hit) => true), HostsWith(hits, pathway, (h: Hit) => h.incident),
      HostsWith(hits, pathway, (h: Hit) => h.risk == 1), HostsWith(hits, pathway, (h: Hit) => h.risk == 2),
      HostsWith(hits, pathway, (h: Hit) => h.risk == 3), HostsWith(hits, pathway, (h: Hit) => h.risk == 4))
  }

  function PathwaysOf(hits: seq<Hit>): set<nat> {
    set hit | hit in hits :: hit.pathway
  }

  function DirectAll(hits: seq<Hit>): Collected {
    map p | p in PathwaysOf(hits) :: Direct(hits, p)
  }

  lemma DirectStep(hits: seq<Hit>, hit: Hit, pathway: nat)
    ensures Direct(hits + [hit], pathway) ==
            if hit.pathway == pathway then AddHit(Direct(hits, pathway), hit) else Direct(hits, pathway)
    ensures pathway !in PathwaysOf(hits) ==> Direct(hits, pathway) == NONE
    ensures PathwaysOf(hits + [hit]) == PathwaysOf(hits) + {hit.pathway}
  {
    var all := hits + [hit];
    assert forall h :: h in all <==> h in hits || h == hit;
    WithStep(hits, hit, pathway, (h: Hit) => true);
    WithStep(hits, hit, pathway, (h: Hit) => h.incident);
    WithStep(hits, hit, pathway, (h: Hit) => h.risk == 1);
    WithStep(hits, hit, pathway, (h: Hit) => h.risk == 2);
    WithStep(hits, hit, pathway, (h: Hit) => h.risk == 3);
    WithStep(hits, hit, pathway, (h: Hit) => h.risk == 4);
  }

  lemma WithStep(hits: seq<Hit>, hit: Hit, pathway: nat, wanted: Hit -> bool)
    ensures HostsWith(hits + [hit], pathway, wanted) ==
            HostsWith(hits, pathway, wanted) + if hit.pathway == pathway && wanted(hit) then {hit.host} else {}
    ensures pathway !in PathwaysOf(hits) ==> HostsWith(hits, pathway, wanted) == {}
  {
    assert forall h :: h in hits + [hit] <==> h in hits || h == hit;
  }

  /** Collect the hits of an account. A total risk outside 1 to 4 has no risk set and raises. */
  method Collect(hits: seq<Hit>) returns (ok: bool, data: Collected)
    ensures ok <==> forall i :: 0 <= i < |hits| ==> 1 <= hits[i].risk <= 4
    ensures ok ==> data == DirectAll(hits)
  {
    data := map[];
    for i := 0 to |hits|
      invariant forall j :: 0 <= j < i ==> 1 <= hits[j].risk <= 4
      invariant data == DirectAll(hits[..i])
    {
      var hit := hits[i];
      if hit.risk < 1 || hit.risk > 4 {
        return false, data;
      }
      CollectStep(hits[..i], hit);
      assert hits[..i + 1] == hits[..i] + [hit];
      var sets := if hit.pathway in data then data[hit.pathway] else NONE;
      data := data[hit.pathway := AddHit(sets, hit)];
    }
    assert hits[..|hits|] == hits;
    return true, data;
  }

  lemma CollectStep(hits: seq<Hit>, hit: Hit)
    ensures var before := DirectAll(hits);
            DirectAll(hits + [hit]) ==
            before[hit.pathway := AddHit(if hit.pathway in before then before[hit.pathway] else NONE, hit)]
  {
    var before := DirectAll(hits);
    var after := before[hit.pathway := AddHit(if hit.pathway in before then before[hit.pathway] else NONE, hit)];
    forall p: nat ensures SameAt<nat, HostSets>(DirectAll(hits + [hit]), after, p) {
      DirectStep(hits, hit, p);
    }
    SameEverywhere<nat, HostSets>(DirectAll(hits + [hit]), after);
  }

  // ---------- counts and recommendation level ----------

  datatype Row = Row(
    impacted: nat, incidents: nat, low: nat, medium: nat, high: nat, critical: nat,
    hasIncident: bool, reboot: bool, level: nat)

  /** The facts about a pathway's rules that the counts do not depend on. */
  datatype RuleFacts = RuleFacts(reboot: bool, maxRisk: nat)

  function Clamp(risk: nat): nat {
    if risk < 1 then 1 else if risk > 4 then 4 else risk
  }

  function CalculateRecLevel(share: real, hasIncidents: bool, maxRisk: nat): nat {
    var base := if share > 0.25 then 62 else if share > 0.1 then 58 else 54;
    base + (if hasIncidents then 2 else 0) + 12 * (Clamp(maxRisk) - 1)
  }

  function Reduce(sets: HostSets, facts: RuleFacts, systems: nat, impacting: bool): Row {
    var hasIncident := |sets.incidents| > 0;
    Row(|sets.impacted|, |sets.incidents|, |sets.low|, |sets.medium|, |sets.high|, |sets.critical|,
        hasIncident, |sets.impacted| > 0 && facts.reboot && impacting,
        if systems > 0
        then CalculateRecLevel(|sets.impacted| as real / systems as real, hasIncident, facts.maxRisk) else 0)
  }

  /** For hits with proper risks, a pathway's impacted count is the number of distinct hosts in
      its four risk sets together, and its incidents are among them. */
  lemma ImpactedIsUnionOfRisks(hits: seq<Hit>, pathway: nat)
    requires forall i :: 0 <= i < |hits| ==> 1 <= hits[i].risk <= 4
    ensures var d := Direct(hits, pathway);
            && d.impacted == d.low + d.medium + d.high + d.critical
            && d.incidents <= d.impacted
            && |d.impacted| == |d.low + d.medium + d.high + d.critical|
            && |d.incidents| <= |d.impacted|
  {
    var d := Direct(hits, pathway);
    forall host | host in d.impacted ensures host in d.low + d.medium + d.high + d.critical {
      var hit :| hit in hits && hit.pathway == pathway && hit.host == host;
      assert 1 <= hit.risk <= 4;
    }
    SubsetCount(d.incidents, d.impacted);
  }

  lemma LevelMonotone(share: real, share': real, incident: bool, incident': bool, maxRisk: nat)
    requires share <= share' && (incident ==> incident')
    ensures CalculateRecLevel(share, incident, maxRisk) <= CalculateRecLevel(share', incident', maxRisk)
  {
  }

  lemma ShareMonotone(a: nat, b: nat, systems: nat)
    requires a <= b && systems > 0
    ensures a as real / systems as real <= b as real / systems as real
  {
  }

  /** More reports, with the rules and the account's size fixed, never lower a pathway's
      recommendation level or any of its counts. */
  lemma MoreReportsNeverLower(hits: seq<Hit>, more: seq<Hit>, pathway: nat, facts: RuleFacts, systems: nat,
      impacting: bool)
    ensures var few, many := Reduce(Direct(hits, pathway), facts, systems, impacting),
                             Reduce(Direct(hits + more, pathway), facts, systems, impacting);
            && few.level <= many.level && few.impacted <= many.impacted && few.incidents <= many.incidents
            && few.low <= many.low && few.medium <= many.medium
            && few.high <= many.high && few.critical <= many.critical
  {
    var few, many := Direct(hits, pathway), Direct(hits + more, pathway);
    assert forall h :: h in hits ==> h in hits + more;
    SubsetCount(few.impacted, many.impacted);
    SubsetCount(few.incidents, many.incidents);
    SubsetCount(few.low, many.low);
    SubsetCount(few.medium, many.medium);
    SubsetCount(few.high, many.high);
    SubsetCount(few.critical, many.critical);
    if systems > 0 {
      ShareMonotone(|few.impacted|, |many.impacted|, systems);
      LevelMonotone(|few.impacted| as real / systems as real, |many.impacted| as real / systems as real,
                    |few.incidents| > 0, |many.incidents| > 0, facts.maxRisk);
    }
  }

  /** The level decides all three of its factors: with proper risks, equal levels come from the
      same share bucket, the same incident flag and the same maximum risk. */
  lemma LevelDeterminesFactors(share: real, share': real, incident: bool, incident': bool, risk: nat, risk': nat)
    requires 1 <= risk <= 4 && 1 <= risk' <= 4
    ensures 54 <= CalculateRecLevel(share, incident, risk) <= 100
    ensures CalculateRecLevel(share, incident, risk) == CalculateRecLevel(share', incident', risk') <==>
              && risk == risk' && incident == incident'
              && (share > 0.25 <==> share' > 0.25) && (share > 0.1 <==> share' > 0.1)
  {
  }

  // ---------- one expression for each field ----------

  datatype FieldName =
    | ImpactedCount
    | RebootRequired
    | IncidentCount
    | HasIncident
    | Level
    | CriticalCount
    | HighCount
    | MediumCount
    | LowCount

  const FIELDS: seq<FieldName> := [
    ImpactedCount, RebootRequired, IncidentCount, HasIncident, Level, CriticalCount, HighCount, MediumCount, LowCount]

  datatype Value = Num(n: nat) | Flag(b: bool)

  function FieldOf(row: Row, f: FieldName): Value {
    match f
    case ImpactedCount => Num(row.impacted)
    case RebootRequired => Flag(row.reboot)
    case IncidentCount => Num(row.incidents)
    case HasIncident => Flag(row.hasIncident)
    case Level => Num(row.level)
    case CriticalCount => Num(row.critical)
    case HighCount => Num(row.high)
    case MediumCount => Num(row.medium)
    case LowCount => Num(row.low)
  }

  function Default(f: FieldName): Value {
    if f.RebootRequired? || f.HasIncident? then Flag(false) else Num(0)
  }

  /** A constant, or a case over pathway ids with a default. */
  datatype Expr = Constant(v: Value) | Case(whens: map<nat, Value>, otherwise: Value)

  function Eval(e: Expr, pathway: nat): Value {
    match e
    case Constant(v) => v
    case Case(whens, otherwise) => if pathway in whens then whens[pathway] else otherwise
  }

  /** A constant when all pathways share one value, else a case that names only the differences
      from the default. */
  method PackField(data: map<nat, Row>, field: FieldName) returns (e: Expr)
    ensures forall p :: Eval(e, p) == PackedValue(data, field, p)
  {
    var values := set p | p in data :: FieldOf(data[p], field);
    UniformCount(data, field, values);
    if |values| == 1 {
      var v :| v in values;
      return Constant(v);
    }
    return Case(map p | p in data && FieldOf(data[p], field) != Default(field) :: FieldOf(data[p], field),
        Default(field));
  }

  class PathwayAggregates {
    var data: map<nat, Row>

    constructor (data: map<nat, Row>)
      ensures this.data == data
    {
      this.data := data;
    }

    /** Pack one field. With a single pathway the entry is taken out of the aggregates, and its
        value is shown everywhere. */
    method PathwayAggCase(field: FieldName) returns (e: Expr)
      modifies this
      ensures data == if |old(data)| == 1 then map[] else old(data)
      ensures forall p :: Eval(e, p) == PackedValue(old(data), field, p)
    {
      if |data| == 1 {
        var p :| p in data;
        OnlyPathway(data, p);
        e := Constant(FieldOf(data[p], field));
        data := map[];
        return;
      }
      e := PackField(data, field);
    }

    /** All fields, in the order the query names them. With a single pathway the second field
        already finds nothing left. */
    method Annotate() returns (exprs: seq<Expr>)
      modifies this
      ensures |exprs| == |FIELDS|
      ensures forall i, p :: 0 <= i < |FIELDS| ==>
                Eval(exprs[i], p) ==
                PackedValue(if |old(data)| == 1 && i > 0 then map[] else old(data), FIELDS[i], p)
    {
      exprs := [];
      for i := 0 to |FIELDS|
        invariant |exprs| == i
        invariant data == if |old(data)| == 1 && i > 0 then map[] else old(data)
        invariant forall j, p :: 0 <= j < i ==>
                    Eval(exprs[j], p) ==
                    PackedValue(if |old(data)| == 1 && j > 0 then map[] else old(data), FIELDS[j], p)
      {
        var e := PathwayAggCase(FIELDS[i]);
        exprs := exprs + [e];
      }
    }
  }

  /** What the packed form of a field shows for a pathway: its own value, or where it has none
      the value that all others share, or the default. */
  ghost function PackedValue(data: map<nat, Row>, f: FieldName, pathway: nat): Value {
    if pathway in data then FieldOf(data[pathway], f)
    else if Uniform(data, f) then SharedValue(data, f) else Default(f)
  }

  /** All pathways share one value of the field. */
  ghost predicate Uniform(data: map<nat, Row>, f: FieldName) {
    data != map[] && forall p, q :: p in data && q in data ==> FieldOf(data[p], f) == FieldOf(data[q], f)
  }

  ghost function SharedValue(data: map<nat, Row>, f: FieldName): Value
    requires data != map[]
  {
    var p :| p in data;
    FieldOf(data[p], f)
  }

  lemma OnlyPathway(data: map<nat, Row>, p: nat)
    requires |data| == 1 && p in data
    ensures forall q :: q in data ==> q == p
  {
    forall q | q in data ensures q == p {
      assert {p, q} <= data.Keys;
      SubsetCount({p, q}, data.Keys);
    }
  }

  lemma UniformCount(data: map<nat, Row>, f: FieldName, values: set<Value>)
    requires values == set p | p in data :: FieldOf(data[p], f)
    ensures |values| == 1 <==> Uniform(data, f)
  {
    if |values| == 1 {
      forall p, q | p in data && q in data ensures FieldOf(data[p], f) == FieldOf(data[q], f) {
        var pair := {FieldOf(data[p], f), FieldOf(data[q], f)};
        SubsetCount(pair, values);
      }
      assert data == map[] ==> values == {};
    }
    if Uniform(data, f) {
      var p :| p in data;
      assert values == {FieldOf(data[p], f)};
    }
  }

  // ---------- the whole annotation ----------

  /** The loop that replaces each pathway's host sets by counts, flags and a level. */
  method ReduceAll(data: Collected, facts: map<nat, RuleFacts>, systems: nat, impacting: bool)
    returns (rows: map<nat, Row>)
    requires data.Keys <= facts.Keys
    ensures rows.Keys == data.Keys
    ensures forall p :: p in data ==> rows[p] == Reduce(data[p], facts[p], systems, impacting)
  {
    rows := map[];
    var todo := data.Keys;
    while todo != {}
      invariant todo <= data.Keys && rows.Keys == data.Keys - todo
      invariant forall p :: p in rows ==> rows[p] == Reduce(data[p], facts[p], systems, impacting)
    {
      var p :| p in todo;
      rows := rows[p := Reduce(data[p], facts[p], systems, impacting)];
      todo := todo - {p};
    }
  }

  /** The aggregates of the impacted pathways, said directly from the reports. */
  function Aggregates(hits: seq<Hit>, facts: map<nat, RuleFacts>, systems: nat, impacting: bool): map<nat, Row>
    requires PathwaysOf(hits) <= facts.Keys
  {
    map p | p in PathwaysOf(hits) :: Reduce(Direct(hits, p), facts[p], systems, impacting)
  }

  /** With no pathway nothing is shown. With two or more, each impacted pathway shows its own
      aggregate in every field; with one, its own in the first field and the default in the
      others. A pathway that is not impacted shows the value all impacted ones share, where they
      do and are at least two or the field is the first, and otherwise the default. */
  ghost predicate Shown(rows: map<nat, Row>, exprs: seq<Expr>) {
    && |exprs| == (if rows == map[] then 0 else |FIELDS|)
    && (forall i, p :: 0 <= i < |exprs| && p in rows ==>
          Eval(exprs[i], p) == if |rows| >= 2 || i == 0 then FieldOf(rows[p], FIELDS[i]) else Default(FIELDS[i]))
    && (forall i, p :: 0 <= i < |exprs| && p !in rows ==>
          Eval(exprs[i], p) ==
          if (|rows| >= 2 || i == 0) && Uniform(rows, FIELDS[i]) then SharedValue(rows, FIELDS[i])
          else Default(FIELDS[i]))
  }

  method AnnotateRows(rows: map<nat, Row>) returns (exprs: seq<Expr>)
    ensures Shown(rows, exprs)
  {
    if rows == map[] {
      return [];
    }
    var aggregates := new PathwayAggregates(rows);
    exprs := aggregates.Annotate();
    var p :| p in rows;
    assert |rows.Keys| != 0;
  }

  /** From an account's reports to what is shown for its impacted pathways. */
  method ForAccount(hits: seq<Hit>, facts: map<nat, RuleFacts>, systems: nat, impacting: bool)
    returns (ok: bool, exprs: seq<Expr>)
    requires PathwaysOf(hits) <= facts.Keys
    ensures ok <==> forall i :: 0 <= i < |hits| ==> 1 <= hits[i].risk <= 4
    ensures ok ==> Shown(Aggregates(hits, facts, systems, impacting), exprs)
  {
    var data;
    ok, data := Collect(hits);
    if !ok {
      return false, [];
    }
    var rows := ReduceAll(data, facts, systems, impacting);
    assert rows == Aggregates(hits, facts, systems, impacting);
    exprs := AnnotateRows(rows);
  }

  // ---------- where the packing shows a value that is another pathway's ----------

  /** A pathway that is not impacted shows the default of a field, as it should, if and only if
      the packing has emptied the aggregates, the impacted ones differ in the field, or the value
      they share is the default. */
  lemma LeakExactly(rows: map<nat, Row>, exprs: seq<Expr>, i: nat, pathway: nat)
    requires Shown(rows, exprs) && i < |exprs| && pathway !in rows
    ensures Eval(exprs[i], pathway) == Default(FIELDS[i]) <==>
              || (|rows| == 1 && i > 0)
              || !Uniform(rows, FIELDS[i])
              || SharedValue(rows, FIELDS[i]) == Default(FIELDS[i])
  {
    assert |rows.Keys| == |rows|;
  }

  lemma ImpactedHasHosts(hits: seq<Hit>, pathway: nat)
    requires pathway in PathwaysOf(hits)
    ensures |Direct(hits, pathway).impacted| > 0
  {
    var hit :| hit in hits && hit.pathway == pathway;
    assert hit.host in Direct(hits, pathway).impacted;
  }

  lemma RowsCount(rows: map<nat, Row>)
    ensures |rows| == |rows.Keys|
  {
  }

  /** A single impacted pathway leaks its first field alone: its impacted count is shown for
      every other pathway as well. */
  lemma SingleLeaksFirst(rows: map<nat, Row>, exprs: seq<Expr>, own: nat, other: nat)
    requires Shown(rows, exprs) && rows.Keys == {own} && other != own
    ensures |exprs| == |FIELDS|
    ensures Eval(exprs[0], other) == Num(rows[own].impacted)
    ensures forall i :: 0 < i < |exprs| ==> Eval(exprs[i], other) == Default(FIELDS[i])
  {
    RowsCount(rows);
    assert own in rows && other !in rows;
    assert Uniform(rows, FIELDS[0]) && SharedValue(rows, FIELDS[0]) == FieldOf(rows[own], FIELDS[0]);
  }

  lemma SharedCountShown(rows: map<nat, Row>, exprs: seq<Expr>, own: nat, other: nat)
    requires Shown(rows, exprs) && own in rows && other !in rows
    requires forall p :: p in rows ==> rows[p].impacted == rows[own].impacted
    ensures |exprs| == |FIELDS| && Eval(exprs[0], other) == Num(rows[own].impacted)
  {
    assert Uniform(rows, FIELDS[0]) && SharedValue(rows, FIELDS[0]) == FieldOf(rows[own], FIELDS[0]);
  }

  /** Pathways that agree in their impacted count leak it to every other. */
  lemma SharedCountLeaks(
    hits: seq<Hit>, facts: map<nat, RuleFacts>, systems: nat, exprs: seq<Expr>, own: nat, other: nat)
    requires PathwaysOf(hits) <= facts.Keys && Shown(Aggregates(hits, facts, systems, false), exprs)
    requires own in PathwaysOf(hits) && other !in PathwaysOf(hits)
    requires forall p :: p in PathwaysOf(hits) ==> |Direct(hits, p).impacted| == |Direct(hits, own).impacted|
    ensures |exprs| == |FIELDS|
    ensures Eval(exprs[0], other) == Num(|Direct(hits, own).impacted|) != Default(FIELDS[0])
  {
    var rows := Aggregates(hits, facts, systems, false);
    assert rows.Keys == PathwaysOf(hits);
    forall p | p in rows ensures rows[p].impacted == rows[own].impacted {
      AggregateCount(hits, facts, systems, false, p);
      AggregateCount(hits, facts, systems, false, own);
    }
    SharedCountShown(rows, exprs, own, other);
    ImpactedHasHosts(hits, own);
  }

  lemma AggregateCount(hits: seq<Hit>, facts: map<nat, RuleFacts>, systems: nat, impacting: bool, pathway: nat)
    requires PathwaysOf(hits) <= facts.Keys && pathway in PathwaysOf(hits)
    ensures Aggregates(hits, facts, systems, impacting)[pathway].impacted == |Direct(hits, pathway).impacted|
  {
  }

  /** Two pathways with one impacted host each: a third, with none, shows one impacted host. */
  lemma ThirdPathwayShowsOne() returns (hits: seq<Hit>)
    ensures hits == [Hit(1, "a", false, 1), Hit(2, "b", false, 1)] && PathwaysOf(hits) == {1, 2}
    ensures forall facts: map<nat, RuleFacts>, systems: nat, exprs: seq<Expr> ::
              {1, 2} <= facts.Keys && Shown(Aggregates(hits, facts, systems, false), exprs) ==>
                |exprs| == |FIELDS| && Eval(exprs[0], 3) == Num(1)
  {
    hits := [Hit(1, "a", false, 1), Hit(2, "b", false, 1)];
    TwoHits(hits);
    forall facts: map<nat, RuleFacts>, systems: nat, exprs: seq<Expr>
      | {1, 2} <= facts.Keys && Shown(Aggregates(hits, facts, systems, false), exprs)
      ensures |exprs| == |FIELDS| && Eval(exprs[0], 3) == Num(1)
    {
      SharedCountLeaks(hits, facts, systems, exprs, 1, 3);
    }
  }

  lemma TwoHits(hits: seq<Hit>)
    requires hits == [Hit(1, "a", false, 1), Hit(2, "b", false, 1)]
    ensures PathwaysOf(hits) == {1, 2}
    ensures |Direct(hits, 1).impacted| == 1 && |Direct(hits, 2).impacted| == 1
  {
    assert hits[0] in hits && hits[1] in hits && forall h :: h in hits ==> h == hits[0] || h == hits[1];
    assert Direct(hits, 1).impacted == {"a"} && Direct(hits, 2).impacted == {"b"};
  }

  // ---------- where the packing loses a value ----------

  /** With one impacted pathway the packing keeps only the first field: in an account with
      systems the pathway's own level is never the default that is shown instead, nor are all
      of its risk counts. */
  lemma SinglePathwayLosesFields(hits: seq<Hit>, pathway: nat, facts: RuleFacts, systems: nat, impacting: bool)
    requires forall i :: 0 <= i < |hits| ==> 1 <= hits[i].risk <= 4
    requires pathway in PathwaysOf(hits)
    ensures var row := Reduce(Direct(hits, pathway), facts, systems, impacting);
            && (FieldOf(row, Level) == Default(Level) <==> systems == 0)
            && (|| FieldOf(row, LowCount) != Default(LowCount) || FieldOf(row, MediumCount) != Default(MediumCount)
                || FieldOf(row, HighCount) != Default(HighCount)
                || FieldOf(row, CriticalCount) != Default(CriticalCount))
            && (FieldOf(row, HasIncident) == Default(HasIncident) <==>
                forall hit :: hit in hits && hit.pathway == pathway ==> !hit.incident)
  {
    var d := Direct(hits, pathway);
    var hit :| hit in hits && hit.pathway == pathway;
    assert hit.host in d.impacted;
    ImpactedIsUnionOfRisks(hits, pathway);
    SomeRiskCount(d, facts, systems, impacting);
    if exists h :: h in hits && h.pathway == pathway && h.incident {
      var h :| h in hits && h.pathway == pathway && h.incident;
      assert h.host in d.incidents;
    } else {
      assert d.incidents == {};
    }
  }

  lemma SomeRiskCount(d: HostSets, facts: RuleFacts, systems: nat, impacting: bool)
    requires d.impacted == d.low + d.medium + d.high + d.critical && d.impacted != {}
    ensures var row := Reduce(d, facts, systems, impacting);
            || FieldOf(row, LowCount) != Default(LowCount) || FieldOf(row, MediumCount) != Default(MediumCount)
            || FieldOf(row, HighCount) != Default(HighCount) || FieldOf(row, CriticalCount) != Default(CriticalCount)
  {
    assert d.low != {} || d.medium != {} || d.high != {} || d.critical != {};
  }
}
