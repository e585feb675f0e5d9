/** Reading a declared parameter out of a query string, and filtering on its values. */
module Params {
  import opened Tables
  import opened Strings
  import opened QueryLang

  datatype Location = InPath | InQuery | Elsewhere

  /** Booleans are read from text directly; any other type through its own conversion, which
      may reject the text. */
  datatype Kind = Boolean | Parsed(parse: string -> Option<Val>)

  datatype Param = Param(
    many: bool, style: string, location: Location, kind: Kind, allowed: seq<Val>,
    required: bool, default: Option<string>)

  datatype Result<+T> = Ok(value: T) | Invalid | CodingError

  /** The value of a parameter in a request. */
  datatype Value = Absent | Single(val: Val) | Several(vals: seq<Val>)

  /** The separator of a style, if the style is known at the location; the empty style is none. */
  function Separator(param: Param): Option<char> {
    match param.location
    case InPath =>
      if param.style == "simple" then Some(',') else if param.style == "label" then Some('.')
      else if param.style == "matrix" then Some(';') else None
    case InQuery =>
      if param.style == "form" then Some(',') else if param.style == "spaceDelimited" then Some(' ')
      else if param.style == "pipeDelimited" then Some('|') else None
    case Elsewhere => None
  }

  function Lower(c: char): char {
    if 'A' <= c <= 'Z' then (c - 'A') + 'a' else c
  }

  function LowerAll(s: string): string {
    seq(|s|, i requires 0 <= i < |s| => Lower(s[i]))
  }

  /** One value of the parameter's basic type. */
  function ValidateOne(param: Param, text: string): Result<Val> {
    match param.kind
    case Boolean => Ok(Flag(LowerAll(text) in ["true", "1", "yes"]))
    case Parsed(parse) =>
      match parse(text)
      case None => Invalid
      case Some(val) => if param.allowed != [] && val !in param.allowed then Invalid else Ok(val)
  }

  /** Validate values in order; the first rejected one decides. */
  function ValidateAll(param: Param, texts: seq<string>): Result<seq<Val>> {
    if texts == [] then Ok([])
    else
      match ValidateOne(param, texts[0])
      case Invalid => Invalid
      case CodingError => CodingError
      case Ok(val) =>
        match ValidateAll(param, texts[1..])
        case Invalid => Invalid
        case CodingError => CodingError
        case Ok(vals) => Ok([val] + vals)
  }

  function ValidatePart(param: Param, text: string): Result<Value> {
    if param.many then
      match Separator(param)
      case None => CodingError
      case Some(sep) =>
        match ValidateAll(param, Split(text, sep))
        case Invalid => Invalid
        case CodingError => CodingError
        case Ok(vals) => Ok(Several(vals))
    else if param.style != "" then CodingError
    else
      match ValidateOne(param, text)
      case Invalid => Invalid
      case CodingError => CodingError
      case Ok(val) => Ok(Single(val))
  }

  /** Validate each occurrence of a many-valued parameter and put the lists together. */
  function ValidateOccurrences(param: Param, texts: seq<string>): Result<seq<Val>> {
    if texts == [] then Ok([])
    else
      match ValidatePart(param, texts[0])
      case Invalid => Invalid
      case CodingError => CodingError
      case Ok(first) =>
        match ValidateOccurrences(param, texts[1..])
        case Invalid => Invalid
        case CodingError => CodingError
        case Ok(rest) => Ok((if first.Several? then first.vals else []) + rest)
  }

  /** The value of a parameter, given its occurrences in the request in order. */
  function ValueOf(param: Param, occurrences: seq<string>): Result<Value> {
    if occurrences == [] then
      if param.required then Invalid
      else match param.default
        case None => Ok(Absent)
        case Some(text) => ValidatePart(param, text)
    else if param.many then
      match ValidateOccurrences(param, occurrences)
      case Invalid => Invalid
      case CodingError => CodingError
      case Ok(vals) => Ok(Several(vals))
    else if |occurrences| > 1 then Invalid
    else ValidatePart(param, occurrences[0])
  }

  // ---------- regrouping ----------

  lemma {:induction false} ValidateAppend(param: Param, a: seq<string>, b: seq<string>)
    ensures ValidateAll(param, a + b) ==
            match ValidateAll(param, a)
            case Invalid => Invalid
            case CodingError => CodingError
            case Ok(x) =>
              match ValidateAll(param, b)
              case Invalid => Invalid
              case CodingError => CodingError
              case Ok(y) => Ok(x + y)
  {
    if a == [] {
      assert a + b == b;
      if ValidateAll(param, b).Ok? { assert [] + ValidateAll(param, b).value == ValidateAll(param, b).value; }
    } else {
      assert (a + b)[0] == a[0] && (a + b)[1..] == a[1..] + b;
      ValidateAppend(param, a[1..], b);
      var first, x, y := ValidateOne(param, a[0]), ValidateAll(param, a[1..]), ValidateAll(param, b);
      if first.Ok? && x.Ok? && y.Ok? {
        assert [first.value] + (x.value + y.value) == ([first.value] + x.value) + y.value;
      }
    }
  }

  /** Repeating a parameter is the same as joining its occurrences with the separator. */
  lemma {:induction false} OccurrencesJoin(param: Param, texts: seq<string>)
    requires param.many && Separator(param).Some? && texts != []
    ensures ValidateOccurrences(param, texts) ==
            ValidateAll(param, Split(Join(texts, Separator(param).value), Separator(param).value))
  {
    var sep := Separator(param).value;
    if |texts| == 1 {
      assert texts[1..] == [];
      var only := ValidateAll(param, Split(texts[0], sep));
      if only.Ok? { assert only.value + [] == only.value; }
    } else {
      OccurrencesJoin(param, texts[1..]);
      SplitConcat(texts[0], Join(texts[1..], sep), sep);
      ValidateAppend(param, Split(texts[0], sep), Split(Join(texts[1..], sep), sep));
    }
  }

  function JoinEach(groups: seq<seq<string>>, sep: char): seq<string>
    requires forall i :: 0 <= i < |groups| ==> groups[i] != []
  {
    seq(|groups|, i requires 0 <= i < |groups| => Join(groups[i], sep))
  }

  function Flatten<T>(groups: seq<seq<T>>): seq<T> {
    if groups == [] then [] else groups[0] + Flatten(groups[1..])
  }

  lemma {:induction false} JoinAppend(a: seq<string>, b: seq<string>, sep: char)
    requires a != [] && b != []
    ensures Join(a + b, sep) == Join(a, sep) + [sep] + Join(b, sep)
  {
    assert (a + b)[0] == a[0] && (a + b)[1..] == a[1..] + b;
    if |a| == 1 {
      assert a[1..] + b == b;
    } else {
      JoinAppend(a[1..], b, sep);
      assert a[0] + [sep] + (Join(a[1..], sep) + [sep] + Join(b, sep)) ==
             (a[0] + [sep] + Join(a[1..], sep)) + [sep] + Join(b, sep);
    }
  }

  lemma {:induction false} JoinOfJoins(groups: seq<seq<string>>, sep: char)
    requires groups != [] && forall i :: 0 <= i < |groups| ==> groups[i] != []
    ensures Flatten(groups) != [] && Join(JoinEach(groups, sep), sep) == Join(Flatten(groups), sep)
  {
    if |groups| == 1 {
      assert Flatten(groups) == groups[0] + Flatten(groups[1..]) == groups[0];
    } else {
      assert JoinEach(groups, sep)[1..] == JoinEach(groups[1..], sep);
      JoinOfJoins(groups[1..], sep);
      JoinAppend(groups[0], Flatten(groups[1..]), sep);
    }
  }

  /** However the same separator-free values are divided between repeated occurrences and
      joined ones, the parameter has the same value, or is rejected the same way; and the
      value is the validated list of those values in order. */
  lemma RegroupingKeepsValue(param: Param, groups: seq<seq<string>>)
    requires param.many && Separator(param).Some? && groups != []
    requires forall i :: 0 <= i < |groups| ==> groups[i] != []
    requires Clean(Flatten(groups), Separator(param).value)
    ensures ValueOf(param, JoinEach(groups, Separator(param).value)) ==
            match ValidateAll(param, Flatten(groups))
            case Invalid => Invalid
            case CodingError => CodingError
            case Ok(vals) => Ok(Several(vals))
  {
    var sep := Separator(param).value;
    JoinOfJoins(groups, sep);
    OccurrencesJoin(param, JoinEach(groups, sep));
    SplitJoin(Flatten(groups), sep);
  }

  /** Two requests whose occurrences join to the same text give the parameter the same value. */
  lemma SameTextSameValue(param: Param, a: seq<string>, b: seq<string>)
    requires param.many && Separator(param).Some? && a != [] && b != []
    requires Join(a, Separator(param).value) == Join(b, Separator(param).value)
    ensures ValueOf(param, a) == ValueOf(param, b)
  {
    OccurrencesJoin(param, a);
    OccurrencesJoin(param, b);
  }

  lemma {:induction false} ValidateAllExact(param: Param, texts: seq<string>)
    ensures ValidateAll(param, texts).Ok? <==> forall i :: 0 <= i < |texts| ==> ValidateOne(param, texts[i]).Ok?
    ensures ValidateAll(param, texts).Ok? ==>
              && |ValidateAll(param, texts).value| == |texts|
              && forall i :: 0 <= i < |texts| ==> ValidateOne(param, texts[i]) == Ok(ValidateAll(param, texts).value[i])
  {
    if texts != [] {
      ValidateAllExact(param, texts[1..]);
      assert forall i :: 0 < i < |texts| ==> texts[i] == texts[1..][i - 1];
      if ValidateAll(param, texts).Invalid? && ValidateOne(param, texts[0]).Ok? {
        var j :| 0 <= j < |texts[1..]| && !ValidateOne(param, texts[1..][j]).Ok?;
        assert texts[j + 1] == texts[1..][j];
      }
    }
  }

  // ---------- filtering on a parameter ----------

  /** Or together one lookup for each value; at least one value is given. */
  function AnyOf(path: seq<string>, vals: seq<Val>): Q
    requires vals != []
  {
    if |vals| == 1 then Lookup(path, vals[0])
    else OrQ(AnyOf(path, vals[..|vals| - 1]), Lookup(path, vals[|vals| - 1]))
  }

  function FilterOnParam(path: seq<string>, param: Param, occurrences: seq<string>): Result<Q> {
    match ValueOf(param, occurrences)
    case Invalid => Invalid
    case CodingError => CodingError
    case Ok(Absent) => Ok(Empty)
    case Ok(Single(val)) => Ok(Lookup(path, val))
    case Ok(Several(vals)) => if vals == [] then CodingError else Ok(AnyOf(path, vals))
  }

  lemma {:induction false} AnyOfMeans(db: Db, subject: Subject, path: seq<string>, vals: seq<Val>)
    requires vals != []
    ensures Clause(db, subject, AnyOf(path, vals)) ==
            Some(exists i :: 0 <= i < |vals| && LookupHolds(db, subject, path, vals[i]))
    ensures !AnyOf(path, vals).Empty?
  {
    var n := |vals| - 1;
    if |vals| > 1 {
      AnyOfMeans(db, subject, path, vals[..n]);
      if exists i :: 0 <= i < |vals| && LookupHolds(db, subject, path, vals[i]) {
        var i :| 0 <= i < |vals| && LookupHolds(db, subject, path, vals[i]);
        assert i < n ==> vals[..n][i] == vals[i];
      }
    } else if exists i :: 0 <= i < |vals| && LookupHolds(db, subject, path, vals[i]) {
      var i :| 0 <= i < |vals| && LookupHolds(db, subject, path, vals[i]);
      assert i == 0;
    } else {
      assert !LookupHolds(db, subject, path, vals[0]);
    }
  }

  lemma {:induction false} OccurrencesNonEmpty(param: Param, texts: seq<string>)
    requires param.many && texts != [] && ValidateOccurrences(param, texts).Ok?
    ensures ValidateOccurrences(param, texts).value != []
  {
    OccurrencesJoin(param, texts);
    var sep := Separator(param).value;
    ValidateAllExact(param, Split(Join(texts, sep), sep));
  }

  /** A supplied many-valued parameter that is accepted filters to the rows that match at
      least one of its values, and never runs out of values to combine. */
  lemma FilterMeansAnyValue(db: Db, subject: Subject, path: seq<string>, param: Param, occurrences: seq<string>)
    requires param.many && occurrences != [] && ValueOf(param, occurrences).Ok?
    ensures var filter := FilterOnParam(path, param, occurrences);
            && filter.Ok?
            && (Passes(db, subject, filter.value) <==>
                exists i :: && 0 <= i < |ValueOf(param, occurrences).value.vals|
                            && LookupHolds(db, subject, path, ValueOf(param, occurrences).value.vals[i]))
  {
    OccurrencesNonEmpty(param, occurrences);
    AnyOfMeans(db, subject, path, ValueOf(param, occurrences).value.vals);
  }

  // ---------- what single values and missing ones come to ----------

  /** The word, in letters of either case. */
  predicate Spells(text: string, word: string) {
    |text| == |word| &&
    forall i :: 0 <= i < |word| ==>
      text[i] == word[i] || ('A' <= text[i] <= 'Z' && text[i] as int + 32 == word[i] as int)
  }

  lemma LowerSpells(text: string, word: string)
    requires forall i :: 0 <= i < |word| ==> !('A' <= word[i] <= 'Z')
    ensures LowerAll(text) == word <==> Spells(text, word)
  {
    if |text| == |word| {
      assert forall i :: 0 <= i < |text| ==> LowerAll(text)[i] == Lower(text[i]);
      assert LowerAll(text) == word <==> forall i :: 0 <= i < |word| ==> LowerAll(text)[i] == word[i];
    }
  }

  /** A boolean is true exactly for the words true, 1 and yes, in either case, and never rejected;
      another value is accepted exactly when its text is read and it is among the allowed ones,
      if any are named. */
  lemma OneValueExactly(param: Param, text: string)
    ensures param.kind.Boolean? ==>
              ValidateOne(param, text) == Ok(Flag(Spells(text, "true") || Spells(text, "1") || Spells(text, "yes")))
    ensures param.kind.Parsed? ==>
              if param.kind.parse(text).Some?
                 && (param.allowed == [] || exists i :: && 0 <= i < |param.allowed|
                                                        && Some(param.allowed[i]) == param.kind.parse(text))
              then ValidateOne(param, text) == Ok(param.kind.parse(text).value)
              else ValidateOne(param, text) == Invalid
  {
    LowerSpells(text, "true");
    LowerSpells(text, "1");
    LowerSpells(text, "yes");
  }

  /** The separators of the six styles, each known in one location only. */
  lemma SeparatorExactly(param: Param, sep: char)
    ensures Separator(param) == Some(sep) <==>
              (param.location, param.style, sep) in {
                (InPath, "simple", ','), (InPath, "label", '.'), (InPath, "matrix", ';'),
                (InQuery, "form", ','), (InQuery, "spaceDelimited", ' '), (InQuery, "pipeDelimited", '|')}
  {
    assert |"simple"| == 6 && |"label"| == 5 && "matrix"[0] == 'm' && "simple"[0] == 's';
    assert |"form"| == 4 && |"spaceDelimited"| == 14 && |"pipeDelimited"| == 13;
  }

  /** A missing parameter is rejected exactly when it is required, absent without a default, and
      otherwise read from its default as if that had been given. A parameter for one value takes
      one occurrence, as one value, and must not have a style; one for many values must have a
      known style. */
  lemma ValueExactly(param: Param, occurrences: seq<string>)
    ensures occurrences == [] && param.required ==> ValueOf(param, occurrences) == Invalid
    ensures occurrences == [] && !param.required && param.default.None? ==> ValueOf(param, occurrences) == Ok(Absent)
    ensures occurrences == [] && !param.required && param.default.Some? ==>
              ValueOf(param, occurrences) == ValueOf(param, [param.default.value])
    ensures |occurrences| > 1 && !param.many ==> ValueOf(param, occurrences) == Invalid
    ensures |occurrences| == 1 && !param.many ==>
              if param.style != "" then ValueOf(param, occurrences) == CodingError
              else if ValidateOne(param, occurrences[0]).Ok?
              then ValueOf(param, occurrences) == Ok(Single(ValidateOne(param, occurrences[0]).value))
              else ValueOf(param, occurrences) == Invalid
    ensures occurrences != [] && param.many && Separator(param).None? ==>
              ValueOf(param, occurrences) == CodingError
  {
    if occurrences == [] && !param.required && param.default.Some? && param.many {
      OneOccurrence(param, param.default.value);
    }
    if |occurrences| == 1 && !param.many {
      OneValueExactly(param, occurrences[0]);
    }
  }

  lemma OneOccurrence(param: Param, text: string)
    requires param.many
    ensures ValueOf(param, [text]) == ValidatePart(param, text)
  {
    assert [text][1..] == [];
    var part := ValidatePart(param, text);
    assert ValidateOccurrences(param, [text][1..]) == Ok([]);
    if part.Ok? {
      assert part.value == Several(part.value.vals) && part.value.vals + [] == part.value.vals;
    }
  }

  /** A filter on one value passes the rows that match it, and on an absent parameter all rows. */
  lemma FilterMeansValue(db: Db, subject: Subject, path: seq<string>, param: Param, occurrences: seq<string>)
    requires !param.many && ValueOf(param, occurrences).Ok?
    ensures FilterOnParam(path, param, occurrences).Ok?
    ensures Passes(db, subject, FilterOnParam(path, param, occurrences).value) <==>
              match ValueOf(param, occurrences).value
              case Absent => true
              case Single(val) => LookupHolds(db, subject, path, val)
              case Several(_) => false
  {
  }
}
