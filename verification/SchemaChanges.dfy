/** The report of differences between two schema bundles, and what Python's equality makes of it. */
module SchemaChanges {
  import opened Wrappers
  import opened JsonValues
  import opened SchemaComparison

  // ---------- Python's == on parsed JSON ----------

  /** The number a value compares as: Python's booleans are the integers 0 and 1. */
  function NumberOf(v: Json): Option<real> {
    match v
    case Bool(truth) => Some(if truth then 1.0 else 0.0)
    case Int(number) => Some(number as real)
    case Float(approx) => Some(approx)
    case _ => None
  }

  predicate PythonEqual(a: Json, b: Json) {
    match (a, b)
    case (Arr(xs), Arr(ys)) => |xs| == |ys| && forall i | 0 <= i < |xs| :: PythonEqual(xs[i], ys[i])
    case (Obj(m), Obj(n)) => m.Keys == n.Keys && forall key | key in m :: PythonEqual(m[key], n[key])
    case _ => if NumberOf(a).Some? then NumberOf(a) == NumberOf(b) else a == b
  }

  /** One representative for all values that compare equal. */
  function Numeric(v: Json): Json {
    match v
    case Bool(truth) => Int(if truth then 1 else 0)
    case Float(approx) => if approx.Floor as real == approx then Int(approx.Floor) else v
    case Arr(items) => Arr(seq(|items|, i requires 0 <= i < |items| => Numeric(items[i])))
    case Obj(fields) => Obj(map key | key in fields :: Numeric(fields[key]))
    case _ => v
  }

  lemma NumericScalar(a: Json, b: Json)
    requires !(a.Arr? && b.Arr?) && !(a.Obj? && b.Obj?)
    ensures PythonEqual(a, b) <==> Numeric(a) == Numeric(b)
  {
    NumericKeepsNumber(a);
    NumericKeepsNumber(b);
  }

  lemma NumericKeepsNumber(v: Json)
    ensures NumberOf(Numeric(v)) == NumberOf(v)
    ensures NumberOf(v).Some? ==>
      (Numeric(v) == (if NumberOf(v).value.Floor as real == NumberOf(v).value
                      then Int(NumberOf(v).value.Floor) else Float(NumberOf(v).value)))
  {
  }

  lemma {:induction false} PythonEqualIsNumeric(a: Json, b: Json)
    ensures PythonEqual(a, b) <==> Numeric(a) == Numeric(b)
    decreases a
  {
    if a.Arr? && b.Arr? {
      if |a.items| == |b.items| {
        forall i | 0 <= i < |a.items|
          ensures PythonEqual(a.items[i], b.items[i]) <==> Numeric(a).items[i] == Numeric(b).items[i]
        {
          PythonEqualIsNumeric(a.items[i], b.items[i]);
        }
      }
      assert Numeric(a) == Numeric(b) <==> Numeric(a).items == Numeric(b).items;
    } else if a.Obj? && b.Obj? {
      assert Numeric(a).fields.Keys == a.fields.Keys && Numeric(b).fields.Keys == b.fields.Keys;
      if a.fields.Keys == b.fields.Keys {
        forall key | key in a.fields
          ensures PythonEqual(a.fields[key], b.fields[key]) <==> Numeric(a).fields[key] == Numeric(b).fields[key]
        {
          PythonEqualIsNumeric(a.fields[key], b.fields[key]);
        }
      }
      assert Numeric(a) == Numeric(b) <==> Numeric(a).fields == Numeric(b).fields;
    } else {
      NumericScalar(a, b);
    }
  }

  /** Documentation and number spelling are independent of each other. */
  lemma {:induction false} NumericCommutes(v: Json)
    ensures Normalized(Numeric(v)) == Numeric(Normalized(v))
    decreases v, 0
  {
    match v
    case Obj(fields) =>
      var left, right := Normalized(Numeric(v)).fields, Numeric(Normalized(v)).fields;
      forall key ensures key in left <==> key in right
        ensures key in left ==> left[key] == right[key]
      {
        if key in fields && key !in DOCUMENTATION {
          FieldCommutes(key, fields[key]);
        }
      }
      assert left == right;
    case Arr(items) =>
      var left, right := Normalized(Numeric(v)).items, Numeric(Normalized(v)).items;
      forall i | 0 <= i < |items| ensures left[i] == right[i] {
        NumericCommutes(items[i]);
      }
      assert left == right;
    case _ =>
  }

  lemma {:induction false} FieldCommutes(key: string, item: Json)
    ensures NormalizedField(key, Numeric(item)) == Numeric(NormalizedField(key, item))
    decreases item, 1
  {
    if key in MAPPINGS && item.Obj? {
      var left, right := NormalizedNames(Numeric(item)).fields, Numeric(NormalizedNames(item)).fields;
      forall name | name in item.fields ensures left[name] == right[name] {
        NumericCommutes(item.fields[name]);
      }
      assert left == right;
    } else if key in SUBSCHEMAS {
      NumericCommutes(item);
    }
  }

  /** Numbers compare by value, booleans as 0 and 1, and nothing else equals a number. */
  lemma NumbersCompareByValue(n: int, x: real, truth: bool, text: string)
    ensures PythonEqual(Int(n), Float(x)) <==> n as real == x
    ensures PythonEqual(Bool(truth), Int(n)) <==> n == (if truth then 1 else 0)
    ensures PythonEqual(Bool(truth), Float(x)) <==> x == (if truth then 1.0 else 0.0)
    ensures !PythonEqual(Int(n), Str(text)) && !PythonEqual(Str(text), Int(n)) && !PythonEqual(Int(n), Null)
  {
  }

  // ---------- The report ----------

  datatype Change = Removed(name: string) | Added(name: string) | Changed(name: string)

  /** The changes from one bundle to another; an empty bundle is an error. */
  function SchemaChanges(baseline: map<string, Json>, candidate: map<string, Json>): Option<set<Change>> {
    if baseline.Keys == {} || candidate.Keys == {} then None
    else
      var before := map name | name in baseline :: Normalized(baseline[name]);
      var after := map name | name in candidate :: Normalized(candidate[name]);
      Some((set name | name in before.Keys - after.Keys :: Removed(name))
           + (set name | name in after.Keys - before.Keys :: Added(name))
           + (set name | name in before.Keys * after.Keys && !PythonEqual(before[name], after[name]) :: Changed(name)))
  }

  /** Two schemas once booleans and floats are read as the numbers they equal. */
  ghost predicate SameUpToNumbers(a: Json, b: Json) {
    SameSchema(Numeric(a), Numeric(b))
  }

  lemma ComparisonIsExact(a: Json, b: Json)
    ensures PythonEqual(Normalized(a), Normalized(b)) <==> SameUpToNumbers(a, b)
  {
    hide Normalized, Numeric, PythonEqual;
    PythonEqualIsNumeric(Normalized(a), Normalized(b));
    NumericCommutes(a);
    NumericCommutes(b);
    NormalFormsAreExact(Numeric(a), Numeric(b));
  }

  /** The report names exactly what was removed, what was added, and what is no longer the same schema
      up to the spelling of numbers. */
  lemma ReportIsExact(baseline: map<string, Json>, candidate: map<string, Json>)
    requires baseline.Keys != {} && candidate.Keys != {}
    ensures SchemaChanges(baseline, candidate).Some?
    ensures var changes := SchemaChanges(baseline, candidate).value;
            forall name ::
              && (Removed(name) in changes <==> name in baseline && name !in candidate)
              && (Added(name) in changes <==> name in candidate && name !in baseline)
              && (Changed(name) in changes <==>
                    name in baseline && name in candidate && !SameUpToNumbers(baseline[name], candidate[name]))
  {
    hide Normalized, PythonEqual, SameUpToNumbers;
    var changes := SchemaChanges(baseline, candidate).value;
    forall name
      ensures Changed(name) in changes <==>
                name in baseline && name in candidate && !SameUpToNumbers(baseline[name], candidate[name])
    {
      if name in baseline && name in candidate {
        ComparisonIsExact(baseline[name], candidate[name]);
      }
    }
  }

  /** The report is empty if and only if the bundles have the same files, each the same schema up to the
      spelling of numbers. */
  lemma EmptyReport(baseline: map<string, Json>, candidate: map<string, Json>)
    requires baseline.Keys != {} && candidate.Keys != {}
    ensures SchemaChanges(baseline, candidate) == Some({}) <==>
              && baseline.Keys == candidate.Keys
              && forall name | name in baseline :: SameUpToNumbers(baseline[name], candidate[name])
  {
    hide SchemaChanges, SameUpToNumbers;
    ReportIsExact(baseline, candidate);
    var changes := SchemaChanges(baseline, candidate).value;
    if changes == {} {
      forall name ensures name in baseline.Keys <==> name in candidate.Keys {
        assert Removed(name) !in changes && Added(name) !in changes;
      }
      forall name | name in baseline ensures SameUpToNumbers(baseline[name], candidate[name]) {
        assert Changed(name) !in changes;
      }
    } else if baseline.Keys == candidate.Keys {
      var change :| change in changes;
      OnlyKnownChanges(baseline, candidate, change);
    }
  }

  lemma OnlyKnownChanges(baseline: map<string, Json>, candidate: map<string, Json>, change: Change)
    requires SchemaChanges(baseline, candidate).Some? && change in SchemaChanges(baseline, candidate).value
    ensures change.name in baseline || change.name in candidate
    ensures change == Removed(change.name) || change == Added(change.name) || change == Changed(change.name)
  {
  }

  /** So a change of a literal from true to 1 goes unreported, although the schemas differ. */
  lemma TrueForOneGoesUnreported()
    ensures var a := Obj(map["const" := Bool(true)]);
            var b := Obj(map["const" := Int(1)]);
            !SameSchema(a, b) && SchemaChanges(map["f" := a], map["f" := b]) == Some({})
  {
    var a := Obj(map["const" := Bool(true)]);
    var b := Obj(map["const" := Int(1)]);
    NormalFormsAreExact(a, b);
    assert Normalized(a).fields["const"] == Bool(true) && Normalized(b).fields["const"] == Int(1);
    Refl(Numeric(a));
    assert Numeric(a) == Numeric(b);
    var x, y := map["f" := a], map["f" := b];
    assert x.Keys == y.Keys == {"f"};
    EmptyReport(x, y);
  }

  // ---------- Exactly when the report is exact ----------

  /** Where both documents hold equal numbers at one place, they spell them the same. */
  predicate SpelledAlike(a: Json, b: Json) {
    match (a, b)
    case (Arr(xs), Arr(ys)) => forall i | 0 <= i < |xs| && i < |ys| :: SpelledAlike(xs[i], ys[i])
    case (Obj(m), Obj(n)) => forall key | key in m && key in n :: SpelledAlike(m[key], n[key])
    case _ => NumberOf(a).Some? && NumberOf(a) == NumberOf(b) ==> a == b
  }

  lemma {:induction false} EqualIffSpelledAlike(a: Json, b: Json)
    ensures a == b <==> PythonEqual(a, b) && SpelledAlike(a, b)
    decreases a
  {
    if a.Arr? && b.Arr? {
      if |a.items| == |b.items| {
        forall i | 0 <= i < |a.items|
          ensures a.items[i] == b.items[i] <==> PythonEqual(a.items[i], b.items[i]) && SpelledAlike(a.items[i], b.items[i])
        {
          EqualIffSpelledAlike(a.items[i], b.items[i]);
        }
      }
      assert a == b <==> a.items == b.items;
    } else if a.Obj? && b.Obj? {
      if a.fields.Keys == b.fields.Keys {
        forall key | key in a.fields
          ensures a.fields[key] == b.fields[key]
                  <==> PythonEqual(a.fields[key], b.fields[key]) && SpelledAlike(a.fields[key], b.fields[key])
        {
          EqualIffSpelledAlike(a.fields[key], b.fields[key]);
        }
      }
      assert a == b <==> a.fields == b.fields;
    }
  }

  /** Two files are the same schema exactly if Python finds them equal and their numbers are spelled
      alike. */
  lemma SameSchemaIff(a: Json, b: Json)
    ensures SameSchema(a, b)
            <==> PythonEqual(Normalized(a), Normalized(b)) && SpelledAlike(Normalized(a), Normalized(b))
  {
    hide Normalized, PythonEqual, SpelledAlike;
    EqualIffSpelledAlike(Normalized(a), Normalized(b));
    NormalFormsAreExact(a, b);
  }

  /** The report is silent about a file that both bundles hold although its schema has changed. */
  ghost predicate Misses(baseline: map<string, Json>, candidate: map<string, Json>, name: string) {
    && SchemaChanges(baseline, candidate).Some? && name in baseline && name in candidate
    && !SameSchema(baseline[name], candidate[name])
    && Changed(name) !in SchemaChanges(baseline, candidate).value
  }

  /** The report misses a change exactly where a file in both bundles is equal but not spelled alike; and
      it never reports a change that is none. */
  lemma ReportMissesIff(baseline: map<string, Json>, candidate: map<string, Json>, name: string)
    requires name in baseline && name in candidate
    ensures Misses(baseline, candidate, name)
            <==> && PythonEqual(Normalized(baseline[name]), Normalized(candidate[name]))
                 && !SpelledAlike(Normalized(baseline[name]), Normalized(candidate[name]))
    ensures SchemaChanges(baseline, candidate).Some?
    ensures Changed(name) in SchemaChanges(baseline, candidate).value ==> !SameSchema(baseline[name], candidate[name])
  {
    hide Normalized, PythonEqual, SpelledAlike, SchemaChanges, SameUpToNumbers, SameSchema;
    SameSchemaIff(baseline[name], candidate[name]);
    ComparisonIsExact(baseline[name], candidate[name]);
    ReportIsExact(baseline, candidate);
  }

  /** No integer 0 or 1 and no float without a fraction. */
  predicate PlainNumbers(v: Json) {
    match v
    case Int(number) => number != 0 && number != 1
    case Float(approx) => approx.Floor as real != approx
    case Arr(items) => forall i | 0 <= i < |items| :: PlainNumbers(items[i])
    case Obj(fields) => forall key | key in fields :: PlainNumbers(fields[key])
    case _ => true
  }

  lemma {:induction false} PlainNumbersAreSpelledAlike(a: Json, b: Json)
    requires PlainNumbers(a) && PlainNumbers(b)
    ensures SpelledAlike(a, b)
    decreases a
  {
    if a.Arr? && b.Arr? {
      forall i | 0 <= i < |a.items| && i < |b.items| ensures SpelledAlike(a.items[i], b.items[i]) {
        PlainNumbersAreSpelledAlike(a.items[i], b.items[i]);
      }
    } else if a.Obj? && b.Obj? {
      forall key | key in a.fields && key in b.fields ensures SpelledAlike(a.fields[key], b.fields[key]) {
        PlainNumbersAreSpelledAlike(a.fields[key], b.fields[key]);
      }
    }
  }

  lemma {:induction false} NormalizedStaysPlain(v: Json)
    requires PlainNumbers(v)
    ensures PlainNumbers(Normalized(v))
    decreases v, 0
  {
    match v
    case Obj(fields) =>
      forall key | key in fields && key !in DOCUMENTATION ensures PlainNumbers(NormalizedField(key, fields[key])) {
        if key in MAPPINGS && fields[key].Obj? {
          forall name | name in fields[key].fields ensures PlainNumbers(Normalized(fields[key].fields[name])) {
            NormalizedStaysPlain(fields[key].fields[name]);
          }
        } else {
          NormalizedStaysPlain(fields[key]);
        }
      }
    case Arr(items) =>
      forall i | 0 <= i < |items| ensures PlainNumbers(Normalized(items[i])) {
        NormalizedStaysPlain(items[i]);
      }
    case _ =>
  }

  /** A simple case: with plain numbers the comparison is exactly the congruence. */
  lemma PlainSchemasCompareExactly(a: Json, b: Json)
    requires PlainNumbers(a) && PlainNumbers(b)
    ensures PythonEqual(Normalized(a), Normalized(b)) <==> SameSchema(a, b)
  {
    hide Normalized, PlainNumbers, PythonEqual, SpelledAlike;
    NormalizedStaysPlain(a);
    NormalizedStaysPlain(b);
    PlainNumbersAreSpelledAlike(Normalized(a), Normalized(b));
    SameSchemaIff(a, b);
  }

  // ---------- The report as it is printed ----------

  function Line(change: Change): string {
    match change
    case Removed(name) => "removed: " + name
    case Added(name) => "added: " + name
    case Changed(name) => "changed: " + name
  }

  lemma LineTellsChange(a: Change, b: Change)
    requires Line(a) == Line(b)
    ensures a == b
  {
    assert Line(a)[0] == (if a.Removed? then 'r' else if a.Added? then 'a' else 'c');
    assert Line(b)[0] == (if b.Removed? then 'r' else if b.Added? then 'a' else 'c');
    var skip := if a.Added? then 7 else 9;
    assert Line(a)[skip..] == a.name && Line(b)[skip..] == b.name;
  }

  /** Python's order of strings: by code point, a prefix first. */
  predicate Before(a: string, b: string) {
    if b == "" then false
    else if a == "" then true
    else if a[0] == b[0] then Before(a[1..], b[1..])
    else a[0] < b[0]
  }

  lemma {:induction false} BeforeIsOrder(a: string, b: string, c: string)
    ensures !Before(a, a)
    ensures Before(a, b) || Before(b, a) || a == b
    ensures Before(a, b) && Before(b, c) ==> Before(a, c)
    decreases |a| + |b| + |c|
  {
    if a != "" && b != "" && c != "" {
      BeforeIsOrder(a[1..], b[1..], c[1..]);
      assert a == [a[0]] + a[1..] && b == [b[0]] + b[1..];
    } else if a != "" && b != "" {
      BeforeIsOrder(a[1..], b[1..], "");
      assert a == [a[0]] + a[1..] && b == [b[0]] + b[1..];
    } else if a != "" {
      BeforeIsOrder(a[1..], "", "");
    }
  }

  ghost predicate Ascending(lines: seq<string>) {
    forall i, j | 0 <= i < j < |lines| :: Before(lines[i], lines[j])
  }

  function InsertLine(line: string, lines: seq<string>): seq<string> {
    if lines == [] then [line]
    else if Before(line, lines[0]) then [line] + lines
    else [lines[0]] + InsertLine(line, lines[1..])
  }

  lemma {:induction false} InsertLineMembers(line: string, lines: seq<string>)
    ensures forall x :: x in InsertLine(line, lines) <==> x == line || x in lines
  {
    if lines != [] && !Before(line, lines[0]) {
      InsertLineMembers(line, lines[1..]);
    }
  }

  lemma {:induction false} InsertLineSorts(line: string, lines: seq<string>)
    requires Ascending(lines) && line !in lines
    ensures Ascending(InsertLine(line, lines))
  {
    hide Before;
    if lines == [] {
    } else if Before(line, lines[0]) {
      forall x | x in lines ensures Before(line, x) {
        BeforeIsOrder(line, lines[0], x);
      }
      Prepend(line, lines);
    } else {
      InsertLineSorts(line, lines[1..]);
      InsertLineMembers(line, lines[1..]);
      BeforeIsOrder(line, lines[0], "");
      Prepend(lines[0], InsertLine(line, lines[1..]));
    }
  }

  lemma Prepend(first: string, rest: seq<string>)
    requires Ascending(rest) && forall x | x in rest :: Before(first, x)
    ensures Ascending([first] + rest)
  {
    hide Before;
  }

  /** The lines, in order: the changes of the report, each once. */
  ghost predicate IsReport(lines: seq<string>, changes: set<Change>) {
    && Ascending(lines)
    && forall line :: line in lines <==> exists change :: change in changes && Line(change) == line
  }

  method ReportLines(baseline: map<string, Json>, candidate: map<string, Json>) returns (r: Option<seq<string>>)
    ensures r.Some? <==> baseline.Keys != {} && candidate.Keys != {}
    ensures r.Some? ==> IsReport(r.value, SchemaChanges(baseline, candidate).value)
  {
    hide Normalized, PythonEqual;
    var report := SchemaChanges(baseline, candidate);
    if report.None? {
      return None;
    }
    hide SchemaChanges, Before, Line, Ascending, IsReport, InsertLine;
    var left, lines := report.value, [];
    NothingReported();
    assert report.value - left == {};
    while left != {}
      invariant left <= report.value
      invariant IsReport(lines, report.value - left)
      decreases |left|
    {
      var change :| change in left;
      NewLineIsReported(lines, report.value - left, change);
      assert report.value - (left - {change}) == report.value - left + {change};
      lines := InsertLine(Line(change), lines);
      left := left - {change};
    }
    assert report.value - left == report.value;
    return Some(lines);
  }

  lemma NothingReported()
    ensures IsReport([], {})
  {
  }

  lemma NewLineIsReported(lines: seq<string>, changes: set<Change>, change: Change)
    requires IsReport(lines, changes) && change !in changes
    ensures IsReport(InsertLine(Line(change), lines), changes + {change})
  {
    hide Before, Line, Ascending;
    var line := Line(change);
    if line in lines {
      var other :| other in changes && Line(other) == line;
      LineTellsChange(other, change);
    }
    InsertLineMembers(line, lines);
    InsertLineSorts(line, lines);
    forall x ensures x in InsertLine(line, lines) <==> exists c :: c in changes + {change} && Line(c) == x {
      if x == line {
        assert change in changes + {change};
      } else if x in lines {
        var c :| c in changes && Line(c) == x;
        assert c in changes + {change};
      }
    }
  }

  /** A set of changes has one report only. */
  lemma {:induction false} ReportIsUnique(a: seq<string>, b: seq<string>)
    requires Ascending(a) && Ascending(b) && forall line :: line in a <==> line in b
    ensures a == b
  {
    hide Before;
    assert a != [] ==> a[0] in b;
    assert b != [] ==> b[0] in a;
    if a != [] && b != [] {
      FirstIsLeast(a, b);
      RestHasRest(a, b);
      ReportIsUnique(a[1..], b[1..]);
      assert a == [a[0]] + a[1..] && b == [b[0]] + b[1..];
    }
  }

  lemma FirstIsLeast(a: seq<string>, b: seq<string>)
    requires Ascending(a) && Ascending(b) && a != [] && b != [] && forall line :: line in a <==> line in b
    ensures a[0] == b[0]
  {
    hide Before;
    assert a[0] in b && b[0] in a;
    var i :| 0 <= i < |a| && a[i] == b[0];
    var j :| 0 <= j < |b| && b[j] == a[0];
    if i > 0 && j > 0 {
      BeforeIsOrder(a[0], b[0], a[0]);
    }
  }

  lemma RestHasRest(a: seq<string>, b: seq<string>)
    requires Ascending(a) && Ascending(b) && a != [] && b != [] && a[0] == b[0]
    requires forall line :: line in a <==> line in b
    ensures Ascending(a[1..]) && Ascending(b[1..]) && forall line :: line in a[1..] <==> line in b[1..]
  {
    hide Before;
    forall line ensures line in a[1..] <==> line in b[1..] {
      RestIsOthers(a, line);
      RestIsOthers(b, line);
    }
  }

  lemma RestIsOthers(a: seq<string>, line: string)
    requires Ascending(a) && a != []
    ensures line in a[1..] <==> line in a && line != a[0]
  {
    hide Before;
    BeforeIsOrder(a[0], a[0], a[0]);
    assert a == [a[0]] + a[1..];
  }

  /** The words of the report: exactly these lines are printed. */
  lemma PrintedReport(baseline: map<string, Json>, candidate: map<string, Json>, lines: seq<string>, name: string)
    requires baseline.Keys != {} && candidate.Keys != {}
    requires IsReport(lines, SchemaChanges(baseline, candidate).value)
    ensures "removed: " + name in lines <==> name in baseline && name !in candidate
    ensures "added: " + name in lines <==> name in candidate && name !in baseline
    ensures "changed: " + name in lines <==>
              name in baseline && name in candidate && !SameUpToNumbers(baseline[name], candidate[name])
    ensures forall line | line in lines :: exists other ::
              line == "removed: " + other || line == "added: " + other || line == "changed: " + other
  {
    hide SchemaChanges, SameUpToNumbers, Ascending;
    ReportIsExact(baseline, candidate);
    var changes := SchemaChanges(baseline, candidate).value;
    LineIsPrinted(lines, changes, Removed(name));
    LineIsPrinted(lines, changes, Added(name));
    LineIsPrinted(lines, changes, Changed(name));
    forall line | line in lines
      ensures exists other :: line == "removed: " + other || line == "added: " + other || line == "changed: " + other
    {
      var change :| change in changes && Line(change) == line;
      assert line == "removed: " + change.name || line == "added: " + change.name || line == "changed: " + change.name;
    }
  }

  lemma LineIsPrinted(lines: seq<string>, changes: set<Change>, change: Change)
    requires IsReport(lines, changes)
    ensures Line(change) in lines <==> change in changes
  {
    hide Line, Ascending;
    if Line(change) in lines {
      var other :| other in changes && Line(other) == Line(change);
      LineTellsChange(other, change);
    }
  }
}
