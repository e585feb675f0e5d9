/** What a bracketed filter asks of a row, said of its words and values alone. */
module FilterMeaning {
  import opened Tables
  import opened Digits
  import opened Strings
  import opened QueryLang
  import Params
  import opened HostFilters

  // ---------- the words ----------

  /** The field a parameter names, with its operator still at the end. The words after the first
      name it as they stand, but for the fields that have moved: the workloads, and the parts of
      the operating system. */
  function Words(words: seq<string>): (names: seq<string>)
    requires |words| > 1
    ensures names != []
  {
    var field, rest := words[1], words[2..];
    if field == "sap_system" then ["workloads", "sap", "sap_system"] + rest
    else if field == "sap_sids" then ["workloads", "sap", "sids"] + rest
    else if field == "ansible" || field == "mssql" then ["workloads", field] + rest
    else if field == "operating_system" && rest != [] && rest[0] == "major" then ["os_major"] + rest[1..]
    else if field == "operating_system" && rest != [] && rest[0] == "minor" then ["os_minor"] + rest[1..]
    else if field == "operating_system" && rest != [] && rest[0] == "name" then ["os_name"] + rest[1..]
    else [field] + rest
  }

  lemma WordsExactly(words: seq<string>)
    requires |words| > 1
    ensures Redirect(words) != [] && Remap(Redirect(words)) == Words(words)
  {
    var field, rest := words[1], words[2..];
    assert words[1..] == [field] + rest;
    if field == "sap_system" {
      assert ([words[0], "workloads", "sap"] + words[1..])[1..] == ["workloads", "sap", "sap_system"] + rest;
      NotTheSystem(["workloads", "sap", "sap_system"] + rest);
    } else if field == "sap_sids" {
      assert ([words[0], "workloads", "sap", "sids"] + rest)[1..] == ["workloads", "sap", "sids"] + rest;
      NotTheSystem(["workloads", "sap", "sids"] + rest);
    } else if field == "ansible" || field == "mssql" {
      assert ([words[0], "workloads"] + words[1..])[1..] == ["workloads", field] + rest;
      NotTheSystem(["workloads", field] + rest);
    } else {
      assert Redirect(words) == words;
      if rest != [] {
        assert words[1..][1] == rest[0] && words[1..][2..] == rest[1..];
      }
      SystemPart();
    }
  }

  lemma NotTheSystem(parts: seq<string>)
    requires parts != [] && parts[0] == "workloads"
    ensures parts[0] != "operating_system"
  {
    assert |"workloads"| == 9 && |"operating_system"| == 16;
  }

  lemma SystemPart()
    ensures "os_" + "major" == "os_major" && "os_" + "minor" == "os_minor" && "os_" + "name" == "os_name"
  {
  }

  // ---------- one value ----------

  predicate Looks(db: Db, subject: Subject, relation: Option<string>, path: seq<string>, val: Val) {
    LookupHolds(db, subject, match relation case None => path case Some(name) => [name] + path, val)
  }

  /** The field equals the value: a number for digits, and else the text. A workload's field is
      looked for inside its object. */
  predicate Equals(db: Db, subject: Subject, relation: Option<string>, field: seq<string>, text: string)
    requires IsDigit(text) ==> IsNumber(text)
  {
    var val := if IsDigit(text) then Num(Number(text)) else Text(text);
    if field != [] && field[0] == "workloads"
    then Looks(db, subject, relation, field[..|field| - 1] + ["contains"], Field(field[|field| - 1], val))
    else Looks(db, subject, relation, field, val)
  }

  predicate SaysTrue(text: string) {
    text == "true" || text == "True"
  }

  predicate SaysFalse(text: string) {
    text == "false" || text == "False"
  }

  /** A value as it stands: a boolean word, or a text. */
  function Plainly(text: string): Val {
    if SaysTrue(text) then Flag(true) else if SaysFalse(text) then Flag(false) else Text(text)
  }

  /** The name of a comparison in a query. */
  function Comparator(operator: string): string {
    if operator == "eq_i" then "iexact"
    else if operator == "contains_i" then "icontains"
    else if operator == "starts_with_i" then "istartswith"
    else if operator == "ends_with_i" then "iendswith"
    else if operator == "starts_with" then "startswith"
    else if operator == "ends_with" then "endswith"
    else operator
  }

  /** What one value asks of a row, by the operator at the end of the names. */
  predicate Asks(db: Db, subject: Subject, relation: Option<string>, names: seq<string>, text: string)
    requires names != []
  {
    var operator, field := names[|names| - 1], names[..|names| - 1];
    if operator == "eq" then (IsDigit(text) ==> IsNumber(text)) && Equals(db, subject, relation, field, text)
    else if operator == "ne" then (IsDigit(text) ==> IsNumber(text)) && !Equals(db, subject, relation, field, text)
    else if operator == "gt" || operator == "gte" || operator == "lt" || operator == "lte" then
      IsNumber(text) && Looks(db, subject, relation, field + [operator], Num(Number(text)))
    else if operator == "nil" then Looks(db, subject, relation, field + ["isnull"], Flag(!SaysFalse(text)))
    else if operator == "not_nil" then Looks(db, subject, relation, field + ["isnull"], Flag(SaysFalse(text)))
    else Looks(db, subject, relation, field + [Comparator(operator)], Plainly(text))
  }

  lemma NumbersAreDigits(text: string)
    ensures IsNumber(text) ==> IsDigit(text)
  {
  }

  predicate Ordering(operator: string) {
    operator == "gt" || operator == "gte" || operator == "lt" || operator == "lte"
  }

  predicate Equality(operator: string) {
    operator == "eq" || operator == "ne"
  }

  predicate Nil(operator: string) {
    operator == "nil" || operator == "not_nil"
  }

  /** The shape of a condition, by the kind of its operator. */
  lemma ShapeExactly(names: seq<string>)
    requires names != []
    ensures var operator, field, shape := names[|names| - 1], names[..|names| - 1], ShapeOf(names);
            && shape.operator == operator
            && (Nil(operator) ==> shape.path == field + ["isnull"] && !shape.negate && shape.wrap == None)
            && (!Nil(operator) && !Equality(operator) ==>
                  shape.path == field + [Comparator(operator)] && !shape.negate && shape.wrap == None)
  {
    assert names[..|names| - 1] + [names[|names| - 1]] == names;
    ComparatorExactly(names[|names| - 1]);
  }

  lemma EqualityShape(names: seq<string>)
    requires names != [] && Equality(names[|names| - 1])
    ensures var field, shape := names[..|names| - 1], ShapeOf(names);
            && shape.operator == names[|names| - 1]
            && (shape.negate <==> shape.operator == "ne")
            && if field != [] && field[0] == "workloads"
               then shape.path == field[..|field| - 1] + ["contains"] && shape.wrap == Some(field[|field| - 1])
               else shape.path == field && shape.wrap == None
  {
    var n := |names| - 1;
    var field := names[..n];
    assert |"workloads"| == 9 && |names[n]| == 2;
    if names[0] == "workloads" {
      assert n > 0 && field[0] == names[0];
      assert field[..n - 1] == names[..n - 1] && field[n - 1] == names[n - 1];
    }
  }

  lemma ComparatorExactly(operator: string)
    ensures operator in COMPARATORS ==> COMPARATORS[operator] == Comparator(operator)
    ensures operator !in COMPARATORS ==> Comparator(operator) == operator
  {
    var (a, b, c, d, e, f) := ("eq_i", "contains_i", "starts_with_i", "ends_with_i", "starts_with", "ends_with");
    assert |a| == 4 && |b| == 10 && |c| == 13 && |d| == 11 && |e| == 11 && |f| == 9 && d[0] == 'e' && e[0] == 's';
  }

  /** The value a text stands for, by the kind of its operator. */
  lemma ConvertExactly(operator: string, text: string)
    requires Convert(operator, text).Value?
    ensures var val := Convert(operator, text).val;
            if Ordering(operator) then IsNumber(text) && val == Num(Number(text))
            else if Equality(operator)
            then (IsDigit(text) ==> IsNumber(text)) && val == if IsDigit(text) then Num(Number(text)) else Text(text)
            else if operator == "nil" then val == Flag(!SaysFalse(text))
            else if operator == "not_nil" then val == Flag(SaysFalse(text))
            else val == Plainly(text)
  {
    var t, f := "true", "false";
    assert |t| == 4 && |f| == 5 && |"True"| == 4 && |"False"| == 5;
  }

  lemma AsksExactly(db: Db, subject: Subject, relation: Option<string>, names: seq<string>, text: string)
    requires names != [] && Convert(ShapeOf(names).operator, text).Value?
    ensures ValueHolds(db, subject, ShapeOf(names), relation, text) <==> Asks(db, subject, relation, names, text)
  {
    var operator := names[|names| - 1];
    ShapeExactly(names);
    ConvertExactly(operator, text);
    if Equality(operator) {
      EqualityShape(names);
    } else if Ordering(operator) {
      OrderingIsNoComparator(operator);
    }
  }

  lemma OrderingIsNoComparator(operator: string)
    requires Ordering(operator)
    ensures Comparator(operator) == operator && !Nil(operator)
  {
    assert |operator| <= 3;
  }

  // ---------- whole parameters ----------

  /** A row is as a parameter asks: under "in" the field is one of the values listed, and
      otherwise every value holds of it. */
  predicate ParamAsks(db: Db, subject: Subject, relation: Option<string>, p: FilterParam) {
    p.Bracketed? && |p.words| > 1 &&
    var names := Words(p.words);
    if names[|names| - 1] == "in" then Looks(db, subject, relation, names, Texts(CsvList(p.values)))
    else forall i :: 0 <= i < |p.values| ==> Asks(db, subject, relation, names, p.values[i])
  }

  lemma InShape(names: seq<string>)
    requires names != [] && names[|names| - 1] == "in"
    ensures ShapeOf(names).path == names
  {
    assert |"in"| == 2 && "in"[0] == 'i' && "eq"[0] == 'e' && "ne"[0] == 'n' && |"nil"| == 3 && |"not_nil"| == 7;
    ShapeExactly(names);
    assert names[..|names| - 1] + [names[|names| - 1]] == names;
  }

  lemma ParamExactly(db: Db, subject: Subject, relation: Option<string>, p: FilterParam)
    requires OneParamQ(Empty, p, relation).Ok?
    ensures ParamHolds(db, subject, p, relation) <==> ParamAsks(db, subject, relation, p)
  {
    ParamEnds(Empty, p, relation);
    WordsExactly(p.words);
    var names := Words(p.words);
    ShapeExactly(names);
    if names[|names| - 1] == "in" {
      InShape(names);
    } else {
      ValuesEndSound(Empty, ShapeOf(names), relation, p.values);
      forall i | 0 <= i < |p.values|
        ensures ValueHolds(db, subject, ShapeOf(names), relation, p.values[i]) <==>
                  Asks(db, subject, relation, names, p.values[i])
      {
        ConvertEnds(ShapeOf(names).operator, p.values[i]);
        AsksExactly(db, subject, relation, names, p.values[i]);
      }
    }
  }

  lemma {:induction false} EachAccepted(filters: seq<FilterParam>, relation: Option<string>, i: nat)
    requires MultiParamQ(filters, relation).Ok? && i < |filters|
    ensures OneParamQ(Empty, filters[i], relation).Ok?
    decreases |filters|
  {
    var before, last := filters[..|filters| - 1], filters[|filters| - 1];
    if i < |before| {
      assert before[i] == filters[i];
      EachAccepted(before, relation, i);
    } else {
      ParamEnds(MultiParamQ(before, relation).q, last, relation);
      ParamEnds(Empty, last, relation);
    }
  }

  /** Accepted bracketed filters pass exactly the rows that are as every one of them asks. */
  lemma FiltersExactly(db: Db, subject: Subject, filters: seq<FilterParam>, relation: Option<string>)
    requires MultiParamQ(filters, relation).Ok?
    ensures Passes(db, subject, MultiParamQ(filters, relation).q) <==>
              forall i :: 0 <= i < |filters| ==> ParamAsks(db, subject, relation, filters[i])
  {
    MultiParamMeans(db, subject, filters, relation);
    forall i | 0 <= i < |filters|
      ensures ParamHolds(db, subject, filters[i], relation) <==> ParamAsks(db, subject, relation, filters[i])
    {
      EachAccepted(filters, relation, i);
      ParamExactly(db, subject, relation, filters[i]);
    }
  }

  // ---------- lists of values ----------

  lemma {:induction false} FlattenLast(groups: seq<seq<string>>, last: seq<string>)
    ensures Params.Flatten(groups + [last]) == Params.Flatten(groups) + last
  {
    if groups == [] {
      assert groups + [last] == [last] && [last][1..] == [];
    } else {
      assert (groups + [last])[0] == groups[0] && (groups + [last])[1..] == groups[1..] + [last];
      FlattenLast(groups[1..], last);
    }
  }

  /** The list under "in" holds the comma-separated values of all its texts, in order. */
  lemma {:induction false} ListExactly(groups: seq<seq<string>>)
    requires forall i :: 0 <= i < |groups| ==> groups[i] != [] && Clean(groups[i], ',')
    ensures CsvList(Params.JoinEach(groups, ',')) == Params.Flatten(groups)
  {
    if groups != [] {
      var before, last := groups[..|groups| - 1], groups[|groups| - 1];
      ListExactly(before);
      FlattenLast(before, last);
      assert groups == before + [last];
      assert Params.JoinEach(groups, ',')[..|before|] == Params.JoinEach(before, ',');
      SplitJoin(last, ',');
    }
  }
}
