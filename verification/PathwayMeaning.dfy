/** What is shown for an impacted pathway, said of the account's reports alone. */
module PathwayMeaning {
  import opened Tables
  import opened Collections
  import opened Pathways

  /** The recommendation levels by share of systems, then by maximum risk and incidents. */
  const MATRIX: seq<seq<nat>> := [
    [100, 98, 88, 86, 76, 74, 64, 62],
    [96, 94, 84, 82, 72, 70, 60, 58],
    [92, 90, 80, 78, 68, 66, 56, 54]]

  /** More than a quarter of the systems, more than a tenth, or fewer; without fractions. */
  function Bucket(impacted: nat, systems: nat): (row: nat)
    ensures row < 3
  {
    if 4 * impacted > systems then 0 else if 10 * impacted > systems then 1 else 2
  }

  /** The column: two for each risk, the highest first, with incidents before without; a risk
      outside 1 to 4 counts as the nearest. */
  function Column(risk: nat, incident: bool): (column: nat)
    ensures column < 8
  {
    (if risk >= 4 then 0 else if risk == 3 then 2 else if risk == 2 then 4 else 6) + if incident then 0 else 1
  }

  /** The level is the matrix entry of the share of impacted systems, the maximum risk and the
      incidents. */
  lemma LevelExactly(impacted: nat, systems: nat, incident: bool, maxRisk: nat)
    requires systems > 0
    ensures CalculateRecLevel(impacted as real / systems as real, incident, maxRisk) ==
            MATRIX[Bucket(impacted, systems)][Column(maxRisk, incident)]
  {
    ShareAbove(impacted, systems, 4, 0.25);
    ShareAbove(impacted, systems, 10, 0.1);
    assert MATRIX[0] == [100, 98, 88, 86, 76, 74, 64, 62];
    assert MATRIX[1] == [96, 94, 84, 82, 72, 70, 60, 58];
    assert MATRIX[2] == [92, 90, 80, 78, 68, 66, 56, 54];
  }

  lemma ShareAbove(impacted: nat, systems: nat, times: nat, bound: real)
    requires systems > 0 && ((times == 4 && bound == 0.25) || (times == 10 && bound == 0.1))
    ensures impacted as real / systems as real > bound <==> times * impacted > systems
  {
    ShareTimes(impacted, systems);
    AboveBound(impacted as real / systems as real, impacted as real, systems as real, bound);
    Scaled(impacted, systems, times, bound);
  }

  lemma AboveBound(share: real, impacted: real, systems: real, bound: real)
    requires systems > 0.0 && share * systems == impacted
    ensures share > bound <==> impacted > bound * systems
  {
    MoreThan(share, systems, bound);
  }

  lemma Scaled(impacted: nat, systems: nat, times: nat, bound: real)
    requires (times == 4 && bound == 0.25) || (times == 10 && bound == 0.1)
    ensures impacted as real > bound * systems as real <==> times * impacted > systems
  {
    var a, b := impacted as real, systems as real;
    assert (times * impacted) as real == times as real * a;
    assert times as real * (bound * b) == b;
  }

  lemma ShareTimes(impacted: nat, systems: nat)
    requires systems > 0
    ensures impacted as real / systems as real * systems as real == impacted as real
  {
  }

  lemma MoreThan(share: real, systems: real, bound: real)
    requires systems > 0.0
    ensures share > bound <==> share * systems > bound * systems
  {
    if share > bound {
      Grows(bound, share, systems);
    } else if bound > share {
      Grows(share, bound, systems);
    }
  }

  lemma Grows(a: real, b: real, c: real)
    requires a < b && c > 0.0
    ensures a * c < b * c
  {
    assert (b - a) * c > 0.0;
  }

  /** The hosts with a report in the pathway; with an incident; of one total risk. */
  function Impacted(hits: seq<Hit>, pathway: nat): set<HostId> {
    set hit | hit in hits && hit.pathway == pathway :: hit.host
  }

  function WithIncident(hits: seq<Hit>, pathway: nat): set<HostId> {
    set hit | hit in hits && hit.pathway == pathway && hit.incident :: hit.host
  }

  function OfRisk(hits: seq<Hit>, pathway: nat, risk: nat): set<HostId> {
    set hit | hit in hits && hit.pathway == pathway && hit.risk == risk :: hit.host
  }

  /** Each field of an impacted pathway. */
  ghost function Expected(hits: seq<Hit>, facts: RuleFacts, systems: nat, impacting: bool, pathway: nat,
      f: FieldName): Value
  {
    match f
    case ImpactedCount => Num(|Impacted(hits, pathway)|)
    case RebootRequired => Flag(facts.reboot && impacting)
    case IncidentCount => Num(|WithIncident(hits, pathway)|)
    case HasIncident => Flag(exists hit :: hit in hits && hit.pathway == pathway && hit.incident)
    case Level =>
      Num(if systems == 0 then 0
          else MATRIX[Bucket(|Impacted(hits, pathway)|, systems)]
                     [Column(facts.maxRisk, exists hit :: hit in hits && hit.pathway == pathway && hit.incident)])
    case CriticalCount => Num(|OfRisk(hits, pathway, 4)|)
    case HighCount => Num(|OfRisk(hits, pathway, 3)|)
    case MediumCount => Num(|OfRisk(hits, pathway, 2)|)
    case LowCount => Num(|OfRisk(hits, pathway, 1)|)
  }

  lemma DirectExactly(hits: seq<Hit>, pathway: nat)
    ensures var d := Direct(hits, pathway);
            && d.impacted == Impacted(hits, pathway) && d.incidents == WithIncident(hits, pathway)
            && d.low == OfRisk(hits, pathway, 1) && d.medium == OfRisk(hits, pathway, 2)
            && d.high == OfRisk(hits, pathway, 3) && d.critical == OfRisk(hits, pathway, 4)
  {
  }

  lemma SomeIncident(hits: seq<Hit>, pathway: nat)
    ensures |WithIncident(hits, pathway)| > 0 <==>
              exists hit :: hit in hits && hit.pathway == pathway && hit.incident
  {
    if exists hit :: hit in hits && hit.pathway == pathway && hit.incident {
      var hit :| hit in hits && hit.pathway == pathway && hit.incident;
      assert hit.host in WithIncident(hits, pathway);
    }
  }

  /** The aggregate of an impacted pathway, field by field. */
  lemma AggregateExactly(hits: seq<Hit>, facts: map<nat, RuleFacts>, systems: nat, impacting: bool, pathway: nat,
      f: FieldName)
    requires PathwaysOf(hits) <= facts.Keys && exists hit :: hit in hits && hit.pathway == pathway
    ensures pathway in Aggregates(hits, facts, systems, impacting) && pathway in facts
    ensures FieldOf(Aggregates(hits, facts, systems, impacting)[pathway], f) ==
            Expected(hits, facts[pathway], systems, impacting, pathway, f)
  {
    assert pathway in PathwaysOf(hits);
    DirectExactly(hits, pathway);
    SomeIncident(hits, pathway);
    ImpactedHasHosts(hits, pathway);
    if systems > 0 {
      LevelExactly(|Impacted(hits, pathway)|, systems, |WithIncident(hits, pathway)| > 0, facts[pathway].maxRisk);
    }
  }

  lemma AtLeastTwo(rows: map<nat, Row>, p: nat, q: nat)
    requires p in rows && q in rows && p != q
    ensures |rows| >= 2
  {
    SubsetCount({p, q}, rows.Keys);
    RowsCount(rows);
  }

  /** With two or more impacted pathways each of them shows its own counts, flags and level. */
  lemma ImpactedShowsOwn(
    hits: seq<Hit>, facts: map<nat, RuleFacts>, systems: nat, impacting: bool, exprs: seq<Expr>, a: Hit, b: Hit,
    i: nat)
    requires PathwaysOf(hits) <= facts.Keys && Shown(Aggregates(hits, facts, systems, impacting), exprs)
    requires a in hits && b in hits && a.pathway != b.pathway && i < |FIELDS|
    ensures |exprs| == |FIELDS| && a.pathway in facts
    ensures Eval(exprs[i], a.pathway) == Expected(hits, facts[a.pathway], systems, impacting, a.pathway, FIELDS[i])
  {
    AggregateExactly(hits, facts, systems, impacting, a.pathway, FIELDS[i]);
    AggregateExactly(hits, facts, systems, impacting, b.pathway, FIELDS[i]);
    AtLeastTwo(Aggregates(hits, facts, systems, impacting), a.pathway, b.pathway);
  }

  /** A pathway without reports shows nothing in a field in which two impacted ones differ, and
      in a field in which two or more agree what they show. */
  lemma OthersShow(
    hits: seq<Hit>, facts: map<nat, RuleFacts>, systems: nat, impacting: bool, exprs: seq<Expr>, a: Hit, b: Hit,
    i: nat, other: nat)
    requires PathwaysOf(hits) <= facts.Keys && Shown(Aggregates(hits, facts, systems, impacting), exprs)
    requires a in hits && b in hits && a.pathway != b.pathway && i < |FIELDS|
    requires forall hit :: hit in hits ==> hit.pathway != other
    ensures |exprs| == |FIELDS|
    ensures if forall hit :: hit in hits ==>
                 Expected(hits, facts[hit.pathway], systems, impacting, hit.pathway, FIELDS[i]) ==
                 Expected(hits, facts[a.pathway], systems, impacting, a.pathway, FIELDS[i])
            then Eval(exprs[i], other) == Expected(hits, facts[a.pathway], systems, impacting, a.pathway, FIELDS[i])
            else Eval(exprs[i], other) == if FIELDS[i] in {RebootRequired, HasIncident} then Flag(false) else Num(0)
  {
    var rows := Aggregates(hits, facts, systems, impacting);
    forall hit | hit in hits
      ensures hit.pathway in rows
      ensures FieldOf(rows[hit.pathway], FIELDS[i]) ==
                Expected(hits, facts[hit.pathway], systems, impacting, hit.pathway, FIELDS[i])
    {
      AggregateExactly(hits, facts, systems, impacting, hit.pathway, FIELDS[i]);
    }
    AtLeastTwo(rows, a.pathway, b.pathway);
    UniformMeans(rows, hits, FIELDS[i], a);
    OthersShowRows(rows, exprs, i, other);
  }

  lemma OthersShowRows(rows: map<nat, Row>, exprs: seq<Expr>, i: nat, other: nat)
    requires Shown(rows, exprs) && |rows| >= 2 && i < |FIELDS| && other !in rows
    ensures |exprs| == |FIELDS|
    ensures Eval(exprs[i], other) ==
            if Uniform(rows, FIELDS[i]) then SharedValue(rows, FIELDS[i])
            else if FIELDS[i] in {RebootRequired, HasIncident} then Flag(false) else Num(0)
  {
  }

  lemma UniformMeans(rows: map<nat, Row>, hits: seq<Hit>, f: FieldName, a: Hit)
    requires rows.Keys == PathwaysOf(hits) && a in hits
    ensures forall hit :: hit in hits ==> hit.pathway in rows
    ensures Uniform(rows, f) <==>
              forall hit :: hit in hits ==> FieldOf(rows[hit.pathway], f) == FieldOf(rows[a.pathway], f)
    ensures Uniform(rows, f) ==> SharedValue(rows, f) == FieldOf(rows[a.pathway], f)
  {
    assert a.pathway in rows;
  }
}
