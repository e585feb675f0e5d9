/** The filters on hosts that a request asks for, each built either on inventory fields
    directly or reached from a report through a relation. */
module HostFilters {
  import opened Tables
  import opened Collections
  import opened Digits
  import opened Strings
  import opened QueryLang

  datatype SystemType = Any | Edge | Bootc | Conventional

  datatype Tag = Tag(namespace: string, key: string, value: Option<string>)

  /** A query parameter that starts with filter[system_profile][: its bracketed words, or a
      name that does not match the expected form. */
  datatype FilterParam = Mangled | Bracketed(words: seq<string>, values: seq<string>)

  /** The filter-related parts of a request, with parameters already read. No org is "". */
  datatype ApiRequest = ApiRequest(
    org: OrgId, tags: seq<Tag>, systemType: SystemType, filters: seq<FilterParam>,
    updateMethods: seq<string>, workloads: seq<string>, branch: Option<string>,
    hostGroups: seq<Option<string>>, groupNames: seq<string>, certOwner: Option<string>)

  /** A built condition; a rejected parameter; or an exception of the builder's own. */
  datatype Built = Ok(q: Q) | Invalid | Crash

  // ---------- simple filters ----------

  function SystemTypeQ(t: SystemType, relation: Option<string>): Q {
    match t
    case Any => Empty
    case Edge => Lookup(Path(relation, ["host_type"]), Text("edge"))
    case Bootc => Lookup(Path(relation, ["bootc_booted_image", "isnull"]), Flag(false))
    case Conventional => Lookup(Path(relation, ["host_type", "isnull"]), Flag(true))
  }

  function CertAuthQ(owner: Option<string>, relation: Option<string>): Q {
    if owner.None? then Empty else Lookup(Path(relation, ["owner_id"]), Text(owner.value))
  }

  function UpdateMethodQ(methods: seq<string>, relation: Option<string>): Q {
    if methods == [] || ("ostree" in methods && "dnfyum" in methods) then Empty
    else
      var field := ["system_update_method"];
      OrQ(if "ostree" in methods then Lookup(Path(relation, field), Text("rpm-ostree")) else Empty,
          if "dnfyum" in methods then Lookup(Path(relation, field + ["in"]), Texts(["dnf", "yum"])) else Empty)
  }

  function WorkloadLookup(w: string, relation: Option<string>): Q {
    if w == "sap" then Lookup(Path(relation, ["workloads", "sap", "sap_system"]), Flag(true))
    else Lookup(Path(relation, ["workloads", w, "isnull"]), Flag(false))
  }

  function WorkloadQ(workloads: seq<string>, relation: Option<string>): Q {
    if workloads == [] then Empty
    else OrQ(WorkloadQ(workloads[..|workloads| - 1], relation), WorkloadLookup(workloads[|workloads| - 1], relation))
  }

  function GroupNameLookup(name: string, relation: Option<string>): Q {
    if name == "" then Lookup(Path(relation, ["workspace_ungrouped"]), Flag(true))
    else Lookup(Path(relation, ["workspace_name"]), Text(name))
  }

  function GroupNamesQ(names: seq<string>, relation: Option<string>): Q {
    if names == [] then Empty
    else OrQ(GroupNamesQ(names[..|names| - 1], relation), GroupNameLookup(names[|names| - 1], relation))
  }

  function GroupLookup(group: Option<string>, relation: Option<string>): Q {
    match group
    case None => Lookup(Path(relation, ["workspace_id", "isnull"]), Flag(true))
    case Some(id) => Lookup(Path(relation, ["workspace_id"]), Text(id))
  }

  function GroupsQ(groups: seq<Option<string>>, relation: Option<string>): Q {
    if groups == [] then Empty
    else OrQ(GroupsQ(groups[..|groups| - 1], relation), GroupLookup(groups[|groups| - 1], relation))
  }

  function HostGroupQ(groups: seq<Option<string>>, names: seq<string>, relation: Option<string>): Q {
    if groups == [] && names == [] then Empty
    else AndQ(GroupsQ(groups, relation), GroupNamesQ(names, relation))
  }

  // ---------- the filter[system_profile][...] language ----------

  /** Older workload fields live under the workloads field now. */
  function Redirect(words: seq<string>): seq<string> {
    if |words| < 2 then words
    else if words[1] == "sap_system" then [words[0], "workloads", "sap"] + words[1..]
    else if words[1] == "sap_sids" then [words[0], "workloads", "sap", "sids"] + words[2..]
    else if words[1] in ["ansible", "mssql"] then [words[0], "workloads"] + words[1..]
    else words
  }

  function Remap(words: seq<string>): seq<string>
    requires words != []
  {
    var parts := words[1..];
    if |parts| >= 2 && parts[0] == "operating_system" && parts[1] in ["major", "minor", "name"]
    then ["os_" + parts[1]] + parts[2..] else parts
  }

  /** The comparison a parameter asks for, once its words are rewritten. */
  datatype Shape = Shape(path: seq<string>, operator: string, negate: bool, wrap: Option<string>)

  const COMPARATORS: map<string, string> := map[
    "eq_i" := "iexact", "contains_i" := "icontains", "starts_with_i" := "istartswith",
    "ends_with_i" := "iendswith", "starts_with" := "startswith", "ends_with" := "endswith"]

  function ShapeOf(parts: seq<string>): Shape
    requires parts != []
  {
    var n := |parts| - 1;
    var operator := parts[n];
    if operator == "eq" || operator == "ne" then
      if parts[0] == "workloads" then
        Shape(parts[..n - 1] + ["contains"], operator, operator == "ne", Some(parts[n - 1]))
      else Shape(parts[..n], operator, operator == "ne", None)
    else if operator == "nil" || operator == "not_nil" then Shape(parts[..n] + ["isnull"], operator, false, None)
    else if operator in COMPARATORS then Shape(parts[..n] + [COMPARATORS[operator]], operator, false, None)
    else Shape(parts, operator, false, None)
  }

  /** One value, converted as its operator demands. A boolean word under a comparison with
      numbers, or under eq and ne, makes the builder itself fail, and so does a text of digits
      that is not a number. */
  datatype Converted = Value(val: Val) | Rejected | Fails

  function ConvertDigits(text: string): Converted {
    if IsNumber(text) then Value(Num(Number(text))) else Fails
  }

  function Convert(operator: string, text: string): Converted {
    var isFlag := text in ["true", "True", "false", "False"];
    var flag := text in ["true", "True"];
    if operator in ["gt", "gte", "lt", "lte"] then
      if isFlag then Fails else if IsDigit(text) then ConvertDigits(text) else Rejected
    else if operator in ["eq", "ne"] then
      if isFlag then Fails else if IsDigit(text) then ConvertDigits(text) else Value(Text(text))
    else if operator == "nil" then Value(Flag(if isFlag then flag else true))
    else if operator == "not_nil" then Value(Flag(if isFlag then !flag else false))
    else if isFlag then Value(Flag(flag))
    else Value(Text(text))
  }

  function OneValueQ(shape: Shape, relation: Option<string>, text: string): Built {
    match Convert(shape.operator, text)
    case Rejected => Invalid
    case Fails => Crash
    case Value(val) =>
      var wrapped := if shape.wrap.Some? then Field(shape.wrap.value, val) else val;
      var q := Lookup(Path(relation, shape.path), wrapped);
      Ok(if shape.negate then Not(q) else q)
  }

  /** And the condition of each value onto what is already built. */
  function ValuesQ(q: Q, shape: Shape, relation: Option<string>, texts: seq<string>): Built {
    if texts == [] then Ok(q)
    else
      match ValuesQ(q, shape, relation, texts[..|texts| - 1])
      case Invalid => Invalid
      case Crash => Crash
      case Ok(before) =>
        match OneValueQ(shape, relation, texts[|texts| - 1])
        case Invalid => Invalid
        case Crash => Crash
        case Ok(one) => Ok(AndQ(before, one))
  }

  function CsvList(texts: seq<string>): seq<string> {
    if texts == [] then [] else CsvList(texts[..|texts| - 1]) + Split(texts[|texts| - 1], ',')
  }

  function OneParamQ(q: Q, p: FilterParam, relation: Option<string>): Built {
    if p.Mangled? || p.words == [] then Invalid
    else
      var parts := Remap(Redirect(p.words));
      if parts == [] then Crash
      else
        var shape := ShapeOf(parts);
        if shape.operator == "in"
        then Ok(AndQ(q, Lookup(Path(relation, shape.path), Texts(CsvList(p.values)))))
        else ValuesQ(q, shape, relation, p.values)
  }

  function MultiParamQ(filters: seq<FilterParam>, relation: Option<string>): Built {
    if filters == [] then Ok(Empty)
    else
      match MultiParamQ(filters[..|filters| - 1], relation)
      case Invalid => Invalid
      case Crash => Crash
      case Ok(before) => OneParamQ(before, filters[|filters| - 1], relation)
  }

  // ---------- the loops ----------

  /** The loop over one parameter's values. */
  method AddValues(start: Q, shape: Shape, relation: Option<string>, texts: seq<string>) returns (built: Built)
    ensures built == ValuesQ(start, shape, relation, texts)
  {
    var endFilter := start;
    for j := 0 to |texts|
      invariant ValuesQ(start, shape, relation, texts[..j]) == Ok(endFilter)
    {
      assert texts[..j + 1][..j] == texts[..j];
      var one := OneValueQ(shape, relation, texts[j]);
      if !one.Ok? {
        ValueFailureLasts(start, shape, relation, texts, j + 1);
        return one;
      }
      endFilter := AndQ(endFilter, one.q);
    }
    assert texts[..|texts|] == texts;
    return Ok(endFilter);
  }

  /** One parameter: a list for an operator that takes one, else a condition for each value. */
  method AddParam(endFilter: Q, p: FilterParam, relation: Option<string>) returns (built: Built)
    ensures built == OneParamQ(endFilter, p, relation)
  {
    if p.Mangled? || p.words == [] {
      return Invalid;
    }
    var parts := Remap(Redirect(p.words));
    if parts == [] {
      return Crash;
    }
    var shape := ShapeOf(parts);
    if shape.operator == "in" {
      return Ok(AndQ(endFilter, Lookup(Path(relation, shape.path), Texts(CsvList(p.values)))));
    }
    built := AddValues(endFilter, shape, relation, p.values);
  }

  /** The loop over parameters. */
  method FilterMultiParam(filters: seq<FilterParam>, relation: Option<string>) returns (built: Built)
    ensures built == MultiParamQ(filters, relation)
  {
    var endFilter := Empty;
    for i := 0 to |filters|
      invariant MultiParamQ(filters[..i], relation) == Ok(endFilter)
    {
      assert filters[..i + 1][..i] == filters[..i];
      var next := AddParam(endFilter, filters[i], relation);
      if !next.Ok? {
        FailureLasts(filters, relation, i + 1);
        return next;
      }
      endFilter := next.q;
    }
    assert filters[..|filters|] == filters;
    return Ok(endFilter);
  }

  /** The two loops over group names and over granted groups. */
  method FilterHostGroups(groups: seq<Option<string>>, names: seq<string>, relation: Option<string>) returns (q: Q)
    ensures q == HostGroupQ(groups, names, relation)
  {
    if groups == [] && names == [] {
      return Empty;
    }
    var nameFilter, groupFilter := Empty, Empty;
    for i := 0 to |names|
      invariant nameFilter == GroupNamesQ(names[..i], relation)
    {
      assert names[..i + 1][..i] == names[..i];
      nameFilter := OrQ(nameFilter, GroupNameLookup(names[i], relation));
    }
    for i := 0 to |groups|
      invariant groupFilter == GroupsQ(groups[..i], relation)
    {
      assert groups[..i + 1][..i] == groups[..i];
      groupFilter := OrQ(groupFilter, GroupLookup(groups[i], relation));
    }
    assert names[..|names|] == names && groups[..|groups|] == groups;
    return AndQ(groupFilter, nameFilter);
  }

  method FilterOnWorkload(workloads: seq<string>, relation: Option<string>) returns (q: Q)
    ensures q == WorkloadQ(workloads, relation)
  {
    q := Empty;
    for i := 0 to |workloads|
      invariant q == WorkloadQ(workloads[..i], relation)
    {
      assert workloads[..i + 1][..i] == workloads[..i];
      q := OrQ(q, WorkloadLookup(workloads[i], relation));
    }
    assert workloads[..|workloads|] == workloads;
  }

  lemma {:induction false} ValueFailureLasts(q: Q, shape: Shape, relation: Option<string>, texts: seq<string>, i: nat)
    requires i <= |texts| && !ValuesQ(q, shape, relation, texts[..i]).Ok?
    ensures ValuesQ(q, shape, relation, texts) == ValuesQ(q, shape, relation, texts[..i])
    decreases |texts|
  {
    if i == |texts| {
      assert texts[..i] == texts;
    } else {
      assert texts[..|texts| - 1][..i] == texts[..i];
      ValueFailureLasts(q, shape, relation, texts[..|texts| - 1], i);
    }
  }

  lemma {:induction false} FailureLasts(filters: seq<FilterParam>, relation: Option<string>, i: nat)
    requires i <= |filters| && !MultiParamQ(filters[..i], relation).Ok?
    ensures MultiParamQ(filters, relation) == MultiParamQ(filters[..i], relation)
    decreases |filters|
  {
    if i == |filters| {
      assert filters[..i] == filters;
    } else {
      assert filters[..|filters| - 1][..i] == filters[..i];
      FailureLasts(filters[..|filters| - 1], relation, i);
    }
  }

  // ---------- when a bracketed filter is rejected, and when its builder fails ----------

  predicate FlagWord(text: string) {
    text in ["true", "True", "false", "False"]
  }

  predicate NumberOperator(operator: string) {
    operator in ["gt", "gte", "lt", "lte"]
  }

  predicate EqualityOperator(operator: string) {
    operator in ["eq", "ne"]
  }

  /** A value the conversion itself fails on, and one it rejects. */
  predicate FailingValue(operator: string, text: string) {
    (NumberOperator(operator) || EqualityOperator(operator)) && (FlagWord(text) || (IsDigit(text) && !IsNumber(text)))
  }

  predicate RejectedValue(operator: string, text: string) {
    NumberOperator(operator) && !FlagWord(text) && !IsDigit(text)
  }

  /** Some value fails and none before it is rejected, and the other way round. */
  ghost predicate ValuesFail(operator: string, texts: seq<string>) {
    exists j :: && 0 <= j < |texts| && FailingValue(operator, texts[j])
                && forall k :: 0 <= k < j ==> !RejectedValue(operator, texts[k])
  }

  ghost predicate ValuesRejected(operator: string, texts: seq<string>) {
    exists j :: && 0 <= j < |texts| && RejectedValue(operator, texts[j])
                && forall k :: 0 <= k < j ==> !FailingValue(operator, texts[k])
  }

  function LastWord(p: FilterParam): string
    requires p.Bracketed? && p.words != []
  {
    p.words[|p.words| - 1]
  }

  /** The parameter names no field, or has a boolean word, or digits that are no number, under a
      comparison. */
  ghost predicate ParamFails(p: FilterParam) {
    p.Bracketed? && p.words != [] && (|p.words| == 1 || ValuesFail(LastWord(p), p.values))
  }

  /** The parameter is mangled, or compares numbers with something else. */
  ghost predicate ParamRejected(p: FilterParam) {
    p.Mangled? || p.words == [] || (|p.words| > 1 && ValuesRejected(LastWord(p), p.values))
  }

  lemma ConvertEnds(operator: string, text: string)
    ensures Convert(operator, text).Fails? <==> FailingValue(operator, text)
    ensures Convert(operator, text).Rejected? <==> RejectedValue(operator, text)
  {
  }

  /** The first value that is not in order decides, so not both can be so. */
  lemma ValuesEndOneWay(operator: string, texts: seq<string>)
    ensures !(ValuesFail(operator, texts) && ValuesRejected(operator, texts))
  {
  }

  lemma {:induction false} ValuesEnd(q: Q, shape: Shape, relation: Option<string>, texts: seq<string>)
    ensures ValuesQ(q, shape, relation, texts).Crash? <==> ValuesFail(shape.operator, texts)
    ensures ValuesQ(q, shape, relation, texts).Invalid? <==> ValuesRejected(shape.operator, texts)
  {
    ValuesEndSound(q, shape, relation, texts);
    ValuesEndOneWay(shape.operator, texts);
  }

  lemma {:induction false} ValuesEndSound(q: Q, shape: Shape, relation: Option<string>, texts: seq<string>)
    ensures ValuesQ(q, shape, relation, texts).Crash? ==> ValuesFail(shape.operator, texts)
    ensures ValuesQ(q, shape, relation, texts).Invalid? ==> ValuesRejected(shape.operator, texts)
    ensures ValuesQ(q, shape, relation, texts).Ok? ==> forall k :: 0 <= k < |texts| ==>
              !FailingValue(shape.operator, texts[k]) && !RejectedValue(shape.operator, texts[k])
  {
    if texts != [] {
      var before, n, operator := texts[..|texts| - 1], |texts| - 1, shape.operator;
      ValuesEndSound(q, shape, relation, before);
      ConvertEnds(operator, texts[n]);
      EndLater(operator, texts);
      assert forall k :: 0 <= k < n ==> before[k] == texts[k];
    }
  }

  lemma EndLater(operator: string, texts: seq<string>)
    requires texts != []
    ensures ValuesFail(operator, texts[..|texts| - 1]) ==> ValuesFail(operator, texts)
    ensures ValuesRejected(operator, texts[..|texts| - 1]) ==> ValuesRejected(operator, texts)
  {
    var before := texts[..|texts| - 1];
    if ValuesFail(operator, before) {
      var j :| && 0 <= j < |before| && FailingValue(operator, before[j])
               && forall k :: 0 <= k < j ==> !RejectedValue(operator, before[k]);
      assert texts[j] == before[j] && forall k :: 0 <= k < j ==> texts[k] == before[k];
    }
    if ValuesRejected(operator, before) {
      var j :| && 0 <= j < |before| && RejectedValue(operator, before[j])
               && forall k :: 0 <= k < j ==> !FailingValue(operator, before[k]);
      assert texts[j] == before[j] && forall k :: 0 <= k < j ==> texts[k] == before[k];
    }
  }

  predicate Comparison(operator: string) {
    NumberOperator(operator) || EqualityOperator(operator)
  }

  /** Rewriting the words of a parameter keeps the last one where it is a comparison. */
  lemma OperatorIsLastWord(words: seq<string>)
    requires |words| > 1
    ensures var parts := Remap(Redirect(words));
            && parts != []
            && (Comparison(parts[|parts| - 1]) || Comparison(words[|words| - 1]) ==>
                  parts[|parts| - 1] == words[|words| - 1])
  {
    var redirected := Redirect(words);
    if redirected[|redirected| - 1] != words[|words| - 1] {
      assert words[1] == "sap_sids" && |words| == 2;
      assert redirected[|redirected| - 1] == "sids";
    }
    assert |redirected| > 1;
    var parts := Remap(redirected);
    if parts[|parts| - 1] != redirected[|redirected| - 1] {
      assert |redirected| == 3 && redirected[2] in ["major", "minor", "name"];
      assert parts[0] == "os_" + redirected[2];
      assert parts[0][0] == 'o';
    }
  }

  /** Only comparisons fail or reject. */
  lemma SameEnds(operator: string, last: string, texts: seq<string>)
    requires Comparison(operator) || Comparison(last) ==> operator == last
    ensures ValuesFail(operator, texts) <==> ValuesFail(last, texts)
    ensures ValuesRejected(operator, texts) <==> ValuesRejected(last, texts)
    ensures operator == "in" ==> !ValuesFail(operator, texts) && !ValuesRejected(operator, texts)
  {
  }

  lemma ShapeOperator(parts: seq<string>)
    requires parts != []
    ensures ShapeOf(parts).operator == parts[|parts| - 1]
  {
  }

  lemma ParamEnds(q: Q, p: FilterParam, relation: Option<string>)
    ensures OneParamQ(q, p, relation).Crash? <==> ParamFails(p)
    ensures OneParamQ(q, p, relation).Invalid? <==> ParamRejected(p)
  {
    if p.Bracketed? && |p.words| > 1 {
      var parts := Remap(Redirect(p.words));
      OperatorIsLastWord(p.words);
      ShapeOperator(parts);
      var shape := ShapeOf(parts);
      SameEnds(shape.operator, LastWord(p), p.values);
      ValuesEnd(q, shape, relation, p.values);
    }
  }

  /** Some parameter fails and none before it is rejected, and the other way round. */
  ghost predicate SomeFails(filters: seq<FilterParam>) {
    exists i :: 0 <= i < |filters| && ParamFails(filters[i]) && forall j :: 0 <= j < i ==> !ParamRejected(filters[j])
  }

  ghost predicate SomeRejected(filters: seq<FilterParam>) {
    exists i :: 0 <= i < |filters| && ParamRejected(filters[i]) && forall j :: 0 <= j < i ==> !ParamFails(filters[j])
  }

  lemma OneEnd(p: FilterParam)
    ensures !(ParamFails(p) && ParamRejected(p))
  {
    if p.Bracketed? && |p.words| > 1 {
      ValuesEndOneWay(LastWord(p), p.values);
    }
  }

  lemma SomeEndOneWay(filters: seq<FilterParam>)
    ensures !(SomeFails(filters) && SomeRejected(filters))
  {
    if SomeFails(filters) && SomeRejected(filters) {
      var i :| 0 <= i < |filters| && ParamFails(filters[i]) && forall j :: 0 <= j < i ==> !ParamRejected(filters[j]);
      OneEnd(filters[i]);
    }
  }

  datatype Verdict = Fine | Rejects | Crashes

  function VerdictOf(b: Built): Verdict {
    match b case Ok(_) => Fine case Invalid => Rejects case Crash => Crashes
  }

  /** The verdict on a parameter by itself. */
  ghost function Judge(p: FilterParam): Verdict {
    if ParamFails(p) then Crashes else if ParamRejected(p) then Rejects else Fine
  }

  ghost function Verdicts(filters: seq<FilterParam>): seq<Verdict> {
    seq(|filters|, i requires 0 <= i < |filters| => Judge(filters[i]))
  }

  lemma VerdictStep(q: Q, p: FilterParam, relation: Option<string>)
    ensures VerdictOf(OneParamQ(q, p, relation)) == Judge(p)
  {
    ParamEnds(q, p, relation);
  }

  /** The first parameter that is not in order decides. */
  lemma {:induction false} VerdictIsForemost(filters: seq<FilterParam>, relation: Option<string>)
    ensures VerdictOf(MultiParamQ(filters, relation)) == Foremost(Verdicts(filters), Fine)
  {
    if filters != [] {
      var before, last := filters[..|filters| - 1], filters[|filters| - 1];
      VerdictIsForemost(before, relation);
      assert Verdicts(filters) == Verdicts(before) + [Judge(last)];
      ForemostStep(Verdicts(before), Judge(last), Fine);
      var b := MultiParamQ(before, relation);
      if b.Ok? {
        VerdictStep(b.q, last, relation);
      }
    }
  }

  lemma VerdictsMean(filters: seq<FilterParam>)
    ensures forall i :: 0 <= i < |filters| ==>
              && (Verdicts(filters)[i].Crashes? <==> ParamFails(filters[i]))
              && (Verdicts(filters)[i].Rejects? <==> ParamRejected(filters[i]))
  {
    forall i | 0 <= i < |filters| ensures !(ParamFails(filters[i]) && ParamRejected(filters[i])) {
      OneEnd(filters[i]);
    }
  }

  /** The builder fails exactly when the first parameter that is not in order fails, and rejects
      exactly when that parameter is rejected. */
  lemma CrashExactly(filters: seq<FilterParam>, relation: Option<string>)
    ensures MultiParamQ(filters, relation).Crash? <==> SomeFails(filters)
    ensures MultiParamQ(filters, relation).Invalid? <==> SomeRejected(filters)
  {
    VerdictIsForemost(filters, relation);
    ForemostExactly(Verdicts(filters), Fine);
    VerdictsMean(filters);
    SomeEndOneWay(filters);
  }

  /** filter[system_profile][sap_system][eq]=true makes the builder fail. */
  lemma TrueUnderEqFails(relation: Option<string>) returns (p: FilterParam)
    ensures p == Bracketed(["system_profile", "sap_system", "eq"], ["true"])
    ensures MultiParamQ([p], relation) == Crash
  {
    p := Bracketed(["system_profile", "sap_system", "eq"], ["true"]);
    assert LastWord(p) == "eq" && FailingValue("eq", p.values[0]);
    assert ParamFails([p][0]);
    CrashExactly([p], relation);
  }

  /** filter[system_profile][number_of_cpus][eq]=² makes it fail as well. */
  lemma SuperscriptUnderEqFails(relation: Option<string>) returns (p: FilterParam)
    ensures p == Bracketed(["system_profile", "number_of_cpus", "eq"], ["\U{00B2}"])
    ensures MultiParamQ([p], relation) == Crash
  {
    p := Bracketed(["system_profile", "number_of_cpus", "eq"], ["\U{00B2}"]);
    ForeignDigits();
    assert LastWord(p) == "eq" && FailingValue("eq", p.values[0]);
    assert ParamFails([p][0]);
    CrashExactly([p], relation);
  }

  // ---------- what a bracketed filter means ----------

  /** A row meets one value of a parameter. */
  predicate ValueHolds(db: Db, subject: Subject, shape: Shape, relation: Option<string>, text: string) {
    Convert(shape.operator, text).Value? &&
    var val := Convert(shape.operator, text).val;
    LookupHolds(db, subject, Path(relation, shape.path), if shape.wrap.Some? then Field(shape.wrap.value, val) else val)
    != shape.negate
  }

  /** A row meets a parameter: one lookup for a list, or every value. */
  predicate ParamHolds(db: Db, subject: Subject, p: FilterParam, relation: Option<string>) {
    p.Bracketed? && |p.words| > 1 && Remap(Redirect(p.words)) != [] &&
    var shape := ShapeOf(Remap(Redirect(p.words)));
    if shape.operator == "in" then LookupHolds(db, subject, Path(relation, shape.path), Texts(CsvList(p.values)))
    else forall i :: 0 <= i < |p.values| ==> ValueHolds(db, subject, shape, relation, p.values[i])
  }

  lemma OneValueMeans(db: Db, subject: Subject, shape: Shape, relation: Option<string>, text: string)
    requires OneValueQ(shape, relation, text).Ok?
    ensures Passes(db, subject, OneValueQ(shape, relation, text).q) <==> ValueHolds(db, subject, shape, relation, text)
  {
    var val := Convert(shape.operator, text).val;
    var q := Lookup(Path(relation, shape.path), if shape.wrap.Some? then Field(shape.wrap.value, val) else val);
    assert Clause(db, subject, Not(q)) == Some(!Clause(db, subject, q).value);
  }

  lemma {:induction false} ValuesMean(
    db: Db, subject: Subject, q: Q, shape: Shape, relation: Option<string>, texts: seq<string>)
    requires ValuesQ(q, shape, relation, texts).Ok?
    ensures Passes(db, subject, ValuesQ(q, shape, relation, texts).q) <==>
              && Passes(db, subject, q)
              && forall i :: 0 <= i < |texts| ==> ValueHolds(db, subject, shape, relation, texts[i])
  {
    if texts != [] {
      var before, n := texts[..|texts| - 1], |texts| - 1;
      ValuesMean(db, subject, q, shape, relation, before);
      assert forall k :: 0 <= k < n ==> before[k] == texts[k];
      var b, one := ValuesQ(q, shape, relation, before).q, OneValueQ(shape, relation, texts[n]).q;
      AndMeansBoth(db, subject, b, one);
      OneValueMeans(db, subject, shape, relation, texts[n]);
    }
  }

  lemma ParamMeans(db: Db, subject: Subject, q: Q, p: FilterParam, relation: Option<string>)
    requires OneParamQ(q, p, relation).Ok?
    ensures Passes(db, subject, OneParamQ(q, p, relation).q) <==>
              Passes(db, subject, q) && ParamHolds(db, subject, p, relation)
  {
    ParamEnds(q, p, relation);
    var shape := ShapeOf(Remap(Redirect(p.words)));
    if shape.operator == "in" {
      AndMeansBoth(db, subject, q, Lookup(Path(relation, shape.path), Texts(CsvList(p.values))));
    } else {
      ValuesMean(db, subject, q, shape, relation, p.values);
    }
  }

  /** A row meets every parameter. */
  predicate MeetsAll(db: Db, subject: Subject, filters: seq<FilterParam>, relation: Option<string>) {
    filters == [] ||
    (MeetsAll(db, subject, filters[..|filters| - 1], relation)
        && ParamHolds(db, subject, filters[|filters| - 1], relation))
  }

  lemma {:induction false} MeetsAllExactly(db: Db, subject: Subject, filters: seq<FilterParam>,
      relation: Option<string>)
    ensures MeetsAll(db, subject, filters, relation) <==>
              forall p :: p in filters ==> ParamHolds(db, subject, p, relation)
  {
    if filters != [] {
      var before, last := filters[..|filters| - 1], filters[|filters| - 1];
      MeetsAllExactly(db, subject, before, relation);
      assert filters == before + [last];
    }
  }

  lemma {:induction false} MultiParamMeets(db: Db, subject: Subject, filters: seq<FilterParam>,
      relation: Option<string>)
    requires MultiParamQ(filters, relation).Ok?
    ensures Passes(db, subject, MultiParamQ(filters, relation).q) <==> MeetsAll(db, subject, filters, relation)
  {
    if filters != [] {
      MultiParamMeets(db, subject, filters[..|filters| - 1], relation);
      ParamMeans(db, subject, MultiParamQ(filters[..|filters| - 1], relation).q, filters[|filters| - 1], relation);
    }
  }

  /** Accepted bracketed filters pass exactly the rows that meet every one of them. */
  lemma MultiParamMeans(db: Db, subject: Subject, filters: seq<FilterParam>, relation: Option<string>)
    requires MultiParamQ(filters, relation).Ok?
    ensures Passes(db, subject, MultiParamQ(filters, relation).q) <==>
              forall p :: p in filters ==> ParamHolds(db, subject, p, relation)
  {
    MultiParamMeets(db, subject, filters, relation);
    MeetsAllExactly(db, subject, filters, relation);
  }

  // ---------- what the simple filters mean ----------

  predicate WorkloadFits(db: Db, subject: Subject, w: string, relation: Option<string>) {
    if w == "sap" then LookupHolds(db, subject, Path(relation, ["workloads", "sap", "sap_system"]), Flag(true))
    else LookupHolds(db, subject, Path(relation, ["workloads", w, "isnull"]), Flag(false))
  }

  /** The workload filter passes the rows with at least one of the workloads, and all rows when
      none is asked for. */
  lemma {:induction false} WorkloadMeans(db: Db, subject: Subject, workloads: seq<string>, relation: Option<string>)
    ensures workloads == [] ==> Passes(db, subject, WorkloadQ(workloads, relation))
    ensures workloads != [] ==>
              Clause(db, subject, WorkloadQ(workloads, relation)) ==
              Some(exists w :: w in workloads && WorkloadFits(db, subject, w, relation))
  {
    if workloads != [] {
      var before, last := workloads[..|workloads| - 1], workloads[|workloads| - 1];
      WorkloadMeans(db, subject, before, relation);
      OrMeansEither(db, subject, WorkloadQ(before, relation), WorkloadLookup(last, relation));
      WorkloadAtRow(db, subject, last, relation);
      AnyWorkload(db, subject, workloads, relation);
    }
  }

  lemma WorkloadAtRow(db: Db, subject: Subject, w: string, relation: Option<string>)
    ensures Clause(db, subject, WorkloadLookup(w, relation)) == Some(WorkloadFits(db, subject, w, relation))
  {
  }

  lemma AnyWorkload(db: Db, subject: Subject, workloads: seq<string>, relation: Option<string>)
    requires workloads != []
    ensures (exists w :: w in workloads && WorkloadFits(db, subject, w, relation)) <==>
              || (exists w :: w in workloads[..|workloads| - 1] && WorkloadFits(db, subject, w, relation))
              || WorkloadFits(db, subject, workloads[|workloads| - 1], relation)
  {
    assert workloads == workloads[..|workloads| - 1] + [workloads[|workloads| - 1]];
  }

  /** The update method filter passes the rows updated by one of the methods asked for. It passes
      all rows when none is asked for, or both, or neither of the two it knows. */
  lemma UpdateMethodMeans(db: Db, subject: Subject, methods: seq<string>, relation: Option<string>)
    ensures Passes(db, subject, UpdateMethodQ(methods, relation)) <==>
              var field := ["system_update_method"];
              || ("ostree" in methods <==> "dnfyum" in methods)
              || ("ostree" in methods && LookupHolds(db, subject, Path(relation, field), Text("rpm-ostree")))
              || ("dnfyum" in methods
                  && LookupHolds(db, subject, Path(relation, field + ["in"]), Texts(["dnf", "yum"])))
  {
  }

  // ---------- filters commute with the relation ----------

  /** The relation form of a built condition. */
  function ThroughBuilt(relation: string, b: Built): Built {
    if b.Ok? then Ok(Through(relation, b.q)) else b
  }

  lemma ThroughAnd(relation: string, l: Q, r: Q)
    ensures Through(relation, AndQ(l, r)) == AndQ(Through(relation, l), Through(relation, r))
    ensures Through(relation, OrQ(l, r)) == OrQ(Through(relation, l), Through(relation, r))
    ensures Plain(l) && Plain(r) ==> Plain(AndQ(l, r)) && Plain(OrQ(l, r))
  {
  }

  lemma {:induction false} WorkloadThrough(workloads: seq<string>, relation: string)
    ensures WorkloadQ(workloads, Some(relation)) == Through(relation, WorkloadQ(workloads, None))
    ensures Plain(WorkloadQ(workloads, None))
  {
    if workloads != [] {
      var before, last := workloads[..|workloads| - 1], workloads[|workloads| - 1];
      WorkloadThrough(before, relation);
      ThroughAnd(relation, WorkloadQ(before, None), WorkloadLookup(last, None));
    }
  }

  lemma {:induction false} GroupsThrough(groups: seq<Option<string>>, names: seq<string>, relation: string)
    ensures GroupsQ(groups, Some(relation)) == Through(relation, GroupsQ(groups, None)) && Plain(GroupsQ(groups, None))
    ensures GroupNamesQ(names, Some(relation)) == Through(relation, GroupNamesQ(names, None))
              && Plain(GroupNamesQ(names, None))
    decreases |groups| + |names|
  {
    if groups != [] {
      GroupsThrough(groups[..|groups| - 1], names, relation);
      ThroughAnd(relation, GroupsQ(groups[..|groups| - 1], None), GroupLookup(groups[|groups| - 1], None));
    } else if names != [] {
      GroupsThrough(groups, names[..|names| - 1], relation);
      ThroughAnd(relation, GroupNamesQ(names[..|names| - 1], None), GroupNameLookup(names[|names| - 1], None));
    }
  }

  lemma OneValueThrough(shape: Shape, text: string, relation: string)
    ensures OneValueQ(shape, Some(relation), text) == ThroughBuilt(relation, OneValueQ(shape, None, text))
    ensures OneValueQ(shape, None, text).Ok? ==> Plain(OneValueQ(shape, None, text).q)
  {
    var converted := Convert(shape.operator, text);
    if converted.Value? {
      var wrapped := if shape.wrap.Some? then Field(shape.wrap.value, converted.val) else converted.val;
      var q := Lookup(shape.path, wrapped);
      assert Through(relation, q) == Lookup([relation] + shape.path, wrapped);
      assert Through(relation, Not(q)) == Not(Through(relation, q));
    }
  }

  lemma {:induction false} ValuesThrough(q: Q, shape: Shape, texts: seq<string>, relation: string)
    requires Plain(q)
    ensures ValuesQ(Through(relation, q), shape, Some(relation), texts) ==
              ThroughBuilt(relation, ValuesQ(q, shape, None, texts))
    ensures ValuesQ(q, shape, None, texts).Ok? ==> Plain(ValuesQ(q, shape, None, texts).q)
  {
    if texts != [] {
      var before, last := texts[..|texts| - 1], texts[|texts| - 1];
      ValuesThrough(q, shape, before, relation);
      var b, one := ValuesQ(q, shape, None, before), OneValueQ(shape, None, last);
      OneValueThrough(shape, last, relation);
      if b.Ok? && one.Ok? { ThroughAnd(relation, b.q, one.q); }
    }
  }

  /** The bracketed filters reached through a relation are the same conditions on the related
      row, and are rejected or fail in the same cases. */
  lemma {:induction false} MultiParamThrough(filters: seq<FilterParam>, relation: string)
    ensures MultiParamQ(filters, Some(relation)) == ThroughBuilt(relation, MultiParamQ(filters, None))
    ensures MultiParamQ(filters, None).Ok? ==> Plain(MultiParamQ(filters, None).q)
  {
    if filters != [] {
      var before, p := filters[..|filters| - 1], filters[|filters| - 1];
      MultiParamThrough(before, relation);
      var b := MultiParamQ(before, None);
      if b.Ok? && p.Bracketed? && p.words != [] && Remap(Redirect(p.words)) != [] {
        var shape := ShapeOf(Remap(Redirect(p.words)));
        if shape.operator == "in" {
          ThroughAnd(relation, b.q, Lookup(shape.path, Texts(CsvList(p.values))));
        } else {
          ValuesThrough(b.q, shape, p.values, relation);
        }
      }
    }
  }
}
