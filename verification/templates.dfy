/** The document-template table: each template's id, Kazakh name, legal order
    code and form fields, the lookup by id, and the computed parts of the
    rendered documents (percentages, the optional grade-2 row, optional sections
    and the numbered rows of the safety journal). The HTML markup around those
    parts is not modelled. */
module Templates {
  import opened Wrappers
  import Seqs
  import JsText

  datatype FieldType = Text | TextArea | Number | Date | Select

  /** The API list a select field takes its options from. */
  datatype DataSource = Schools | Classes | Teachers | Subjects | Students

  /** A form field; `options` are static choices, `dataSource` an API list. */
  datatype Field = Field(key: string, ftype: FieldType, required: bool,
                         options: Option<seq<string>>, dataSource: Option<DataSource>)

  datatype Template = Template(id: string, nameKz: string, orderCode: string, fields: seq<Field>)

  function Sourced(key: string, ds: DataSource): Field
  {
    Field(key, Select, true, None, Some(ds))
  }

  function Choice(key: string, options: seq<string>): Field
  {
    Field(key, Select, true, Some(options), None)
  }

  function Plain(key: string, ftype: FieldType, required: bool): Field
  {
    Field(key, ftype, required, None, None)
  }

  const Ktp: Template := Template("ktp", "Күнтізбелік-тақырыптық жоспар", "V2100024429", [
    Sourced("subject", Subjects), Sourced("class", Classes), Sourced("teacher", Teachers),
    Plain("academicYear", Text, true)])

  const LessonPlan: Template := Template("lesson-plan", "Қысқа мерзімді жоспар", "V2100024429", [
    Sourced("subject", Subjects), Sourced("class", Classes), Sourced("teacher", Teachers),
    Plain("date", Date, true), Plain("topic", Text, true), Plain("objective", Text, true),
    Plain("allStudents", TextArea, false), Plain("mostStudents", TextArea, false),
    Plain("someStudents", TextArea, false), Plain("lessonPlan", TextArea, true)])

  const ControlAnalysisTemplate: Template := Template("control-analysis", "СОР/СОЧ талдауы", "V2200029326", [
    Sourced("subject", Subjects), Sourced("class", Classes),
    Choice("quarter", ["1", "2", "3", "4"]), Choice("type", ["СОР", "СОЧ"]),
    Plain("totalStudents", Number, true), Plain("completed", Number, true),
    Plain("lowLevel", Number, true), Plain("mediumLevel", Number, true), Plain("highLevel", Number, true),
    Plain("difficulties", TextArea, false), Plain("conclusions", TextArea, true)])

  const ParentMeeting: Template := Template("parent-meeting", "Ата-аналар жиналысының хаттамасы", "V2100024429", [
    Plain("number", Number, true), Plain("date", Date, true), Plain("class", Text, true),
    Plain("topic", Text, true), Plain("present", Number, true), Plain("agenda", TextArea, true),
    Plain("discussion", TextArea, true), Plain("decisions", TextArea, true),
    Plain("chairman", Text, false), Plain("secretary", Text, false)])

  const StudentCharacteristic: Template := Template("student-characteristic", "Оқушыға сипаттама", "V2100024429", [
    Plain("studentName", Text, true), Plain("class", Text, true), Plain("birthDate", Date, false),
    Plain("academicPerformance", TextArea, true), Plain("behavior", TextArea, true),
    Plain("personality", TextArea, false), Plain("recommendations", TextArea, false)])

  const QualityReportTemplate: Template := Template("quality-report", "Білім сапасы туралы есеп", "V2200029326", [
    Sourced("subject", Subjects), Sourced("class", Classes),
    Choice("quarter", ["1", "2", "3", "4", "Год"]),
    Plain("totalStudents", Number, true), Plain("excellent", Number, true), Plain("good", Number, true),
    Plain("satisfactory", Number, true), Plain("unsatisfactory", Number, false),
    Plain("conclusions", TextArea, false)])

  const EducationPlan: Template := Template("education-plan", "Тәрбие жоспары", "V2100024429", [
    Plain("class", Text, true), Plain("teacher", Text, true), Plain("academicYear", Text, true),
    Plain("goals", TextArea, true), Plain("activities", TextArea, true)])

  const ClassPassport: Template := Template("class-passport", "Сыныптың әлеуметтік паспорты", "V2000020317", [
    Plain("class", Text, true), Plain("totalStudents", Number, true), Plain("boys", Number, true),
    Plain("girls", Number, true), Plain("fullFamilies", Number, false), Plain("incompleteFamilies", Number, false),
    Plain("largeFamilies", Number, false), Plain("lowIncome", Number, false),
    Plain("guardianship", Number, false), Plain("disabled", Number, false)])

  const SafetyJournal: Template := Template("safety-journal", "Қауіпсіздік техникасы бойынша нұсқау журналы", "V2100024429", [
    Plain("class", Text, true), Plain("teacher", Text, true), Plain("topic", Text, true),
    Plain("date", Date, true), Plain("students", TextArea, true)])

  const ClassJournal: Template := Template("class-journal", "Сынып журналы", "V2300033330", [])

  /** The ten templates, in table order. */
  const Table: seq<Template> := [Ktp, LessonPlan, ControlAnalysisTemplate, ParentMeeting, StudentCharacteristic,
                                 QualityReportTemplate, EducationPlan, ClassPassport, SafetyJournal, ClassJournal]

  /** The table's ids, in order. */
  const Ids: seq<string> := ["ktp", "lesson-plan", "control-analysis", "parent-meeting", "student-characteristic",
                             "quality-report", "education-plan", "class-passport", "safety-journal", "class-journal"]

  lemma TableIds()
    ensures |Table| == |Ids|
    ensures forall i :: 0 <= i < |Table| ==> Table[i].id == Ids[i]
  {
  }

  /** No two templates share an id. */
  lemma IdsDistinct()
    ensures forall i, j :: 0 <= i < j < |Ids| ==> Ids[i] != Ids[j]
  {
    forall i, j | 0 <= i < j < |Ids| ensures Ids[i] != Ids[j] {
      if |Ids[i]| == |Ids[j]| {
        assert Ids[i][0] != Ids[j][0];
      }
    }
  }

  /** `getTemplateById`: the first template with the id. */
  function GetTemplateById(id: string): (r: Option<Template>)
    ensures r.Some? ==> r.value in Table && r.value.id == id
    ensures r.None? <==> forall j :: 0 <= j < |Table| ==> Table[j].id != id
  {
    Seqs.Find(Table, (t: Template) => t.id == id)
  }

  /** Because the ids are pairwise distinct, the lookup finds every template
      of the table under its own id. */
  lemma LookupFindsEveryTemplate(k: nat)
    requires k < |Table|
    ensures GetTemplateById(Table[k].id) == Some(Table[k])
  {
    TableIds();
    IdsDistinct();
    var r := GetTemplateById(Table[k].id);
    var j :| 0 <= j < |Table| && Table[j] == r.value;
    assert Ids[j] == Ids[k];
  }

  /** Every field with an API data source is rendered as a select. */
  lemma SourcedFieldsAreSelects(k: nat, i: nat)
    requires k < |Table| && i < |Table[k].fields|
    ensures Table[k].fields[i].dataSource.Some? ==> Table[k].fields[i].ftype == Select
  {
  }

  /** `data[key]` of the template's data record, with a missing key read as "". */
  function Value(data: map<string, string>, key: string): string
  {
    if key in data then data[key] else ""
  }

  /** `Math.round(part / total * 100)` for `total > 0`, else 0, with JavaScript's
      round-half-up taken over the exact quotient: the floor of
      `100 * part / total + 1/2`, which Euclidean division by the positive
      `2 * total` computes. */
  function Percent(part: int, total: int): (r: int)
    ensures total <= 0 ==> r == 0
  {
    if total > 0 then (200 * part + total) / (2 * total) else 0
  }

  /** `r` is `100 * part / total` rounded half up: within half a step of it,
      the upper half included. */
  predicate RoundsTo(part: int, total: int, r: int)
  {
    2 * total * r - total <= 200 * part < 2 * total * r + total
  }

  /** `Percent` rounds the exact percentage half up. */
  lemma PercentRounds(part: int, total: int)
    requires total > 0
    ensures RoundsTo(part, total, Percent(part, total))
  {
    var n, d := 200 * part + total, 2 * total;
    assert n == d * (n / d) + n % d && 0 <= n % d < d;
  }

  lemma MulBelowOne(t: int, d: int)
    requires t > 0 && t * d < t
    ensures d < 1
  {
  }

  /** Rounding has one answer: any `x` that rounds correctly is `Percent`. */
  lemma PercentUnique(part: int, total: int, x: int)
    requires total > 0 && RoundsTo(part, total, x)
    ensures Percent(part, total) == x
  {
    var r := Percent(part, total);
    PercentRounds(part, total);
    assert 2 * total * r - 2 * total * x == 2 * total * (r - x);
    MulBelowOne(2 * total, r - x);
    MulBelowOne(2 * total, x - r);
  }

  /** A share of the whole is between 0 and 100 percent; none of it is 0 and
      all of it is 100. */
  lemma PercentBounds(part: int, total: int)
    requires 0 <= part <= total && total > 0
    ensures 0 <= Percent(part, total) <= 100
    ensures Percent(0, total) == 0 && Percent(total, total) == 100
  {
    PercentUnique(0, total, 0);
    PercentUnique(total, total, 100);
    PercentMonotone(0, part, total);
    PercentMonotone(part, total, total);
  }

  /** More of the whole never rounds to a smaller percentage. */
  lemma PercentMonotone(p1: int, p2: int, total: int)
    requires p1 <= p2
    ensures Percent(p1, total) <= Percent(p2, total)
  {
    if total > 0 {
      var r1 := Percent(p1, total);
      var r2 := Percent(p2, total);
      PercentRounds(p1, total);
      PercentRounds(p2, total);
      assert 2 * total * r1 - 2 * total * r2 == 2 * total * (r1 - r2);
      MulBelowOne(2 * total, r1 - r2);
    }
  }

  /** The four counts of the summative-assessment analysis, each read with
      `parseInt(...) || 0`. */
  datatype ControlCounts = ControlCounts(completed: int, low: int, medium: int, high: int)

  /** Knowledge quality and success, in percent. */
  datatype Figures = Figures(quality: int, success: int)

  /** The computed part of the summative-assessment analysis. */
  datatype ControlStats = ControlStats(counts: ControlCounts, figures: Figures, showDifficulties: bool)

  /** Quality is the share of medium and high results among those who did the
      work, success the share not at the low level, both rounded half up; both
      are 0 when nobody did the work. */
  function ControlFigures(c: ControlCounts): (r: Figures)
    ensures c.completed <= 0 ==> r == Figures(0, 0)
    ensures c.completed > 0 ==>
      RoundsTo(c.medium + c.high, c.completed, r.quality) && RoundsTo(c.completed - c.low, c.completed, r.success)
  {
    if c.completed > 0 then
      PercentRounds(c.medium + c.high, c.completed);
      PercentRounds(c.completed - c.low, c.completed);
      Figures(Percent(c.medium + c.high, c.completed), Percent(c.completed - c.low, c.completed))
    else Figures(0, 0)
  }

  /** When the three levels account for everyone who did the work, quality and
      success coincide and both are proper percentages. */
  lemma ControlFiguresConsistent(c: ControlCounts)
    requires c.completed > 0 && c.low >= 0 && c.medium >= 0 && c.high >= 0
    requires c.low + c.medium + c.high == c.completed
    ensures var r := ControlFigures(c); r.quality == r.success && 0 <= r.quality <= 100
  {
    var r := ControlFigures(c);
    PercentUnique(c.medium + c.high, c.completed, r.quality);
    PercentUnique(c.completed - c.low, c.completed, r.success);
    PercentBounds(c.medium + c.high, c.completed);
  }

  /** `control-analysis`: the counts are read from the form with
      `parseInt(...) || 0`, the figures follow from them, and the difficulties
      section appears only when filled in. */
  function ControlAnalysis(data: map<string, string>): (r: ControlStats)
    ensures r.counts.completed == JsText.IntOrZero(Value(data, "completed"))
    ensures r.counts.low == JsText.IntOrZero(Value(data, "lowLevel"))
    ensures r.counts.medium == JsText.IntOrZero(Value(data, "mediumLevel"))
    ensures r.counts.high == JsText.IntOrZero(Value(data, "highLevel"))
    ensures r.showDifficulties <==> Value(data, "difficulties") != ""
  {
    var c := ControlCounts(JsText.IntOrZero(Value(data, "completed")), JsText.IntOrZero(Value(data, "lowLevel")),
                           JsText.IntOrZero(Value(data, "mediumLevel")), JsText.IntOrZero(Value(data, "highLevel")));
    ControlStats(c, ControlFigures(c), Value(data, "difficulties") != "")
  }

  /** One row of the grade table: the grade, its count and its percentage. */
  datatype GradeRow = GradeRow(grade: nat, count: int, percent: int)

  /** The five counts of the knowledge-quality report, each read with
      `parseInt(...) || 0`. */
  datatype GradeCounts = GradeCounts(total: int, excellent: int, good: int, satisfactory: int, unsatisfactory: int)

  /** The computed part of the knowledge-quality report. */
  datatype QualityStats = QualityStats(counts: GradeCounts, figures: Figures, rows: seq<GradeRow>, showConclusions: bool)

  /** A percentage of the class, as the report shows it: rounded half up, or 0
      for an empty class. */
  predicate ShownPercent(part: int, total: int, r: int)
  {
    if total > 0 then RoundsTo(part, total, r) else r == 0
  }

  /** `Percent` is the shown percentage for every class size. */
  lemma PercentShown(part: int, total: int)
    ensures ShownPercent(part, total, Percent(part, total))
  {
    if total > 0 {
      PercentRounds(part, total);
    }
  }

  /** Quality is the share of grades 5 and 4, success the share without grade 2. */
  function QualityFigures(c: GradeCounts): (r: Figures)
    ensures ShownPercent(c.excellent + c.good, c.total, r.quality)
    ensures ShownPercent(c.total - c.unsatisfactory, c.total, r.success)
  {
    PercentShown(c.excellent + c.good, c.total);
    PercentShown(c.total - c.unsatisfactory, c.total);
    Figures(Percent(c.excellent + c.good, c.total), Percent(c.total - c.unsatisfactory, c.total))
  }

  /** The grade table: rows for grades 5, 4 and 3 always, the grade-2 row only
      when its count is positive, each with its share of the class. */
  function GradeRows(c: GradeCounts): (r: seq<GradeRow>)
    ensures |r| == (if c.unsatisfactory > 0 then 4 else 3)
    ensures r[0].grade == 5 && r[0].count == c.excellent
    ensures r[1].grade == 4 && r[1].count == c.good
    ensures r[2].grade == 3 && r[2].count == c.satisfactory
    ensures c.unsatisfactory > 0 ==> r[3].grade == 2 && r[3].count == c.unsatisfactory
    ensures forall i :: 0 <= i < |r| ==> ShownPercent(r[i].count, c.total, r[i].percent)
  {
    PercentShown(c.excellent, c.total);
    PercentShown(c.good, c.total);
    PercentShown(c.satisfactory, c.total);
    PercentShown(c.unsatisfactory, c.total);
    [GradeRow(5, c.excellent, Percent(c.excellent, c.total)),
     GradeRow(4, c.good, Percent(c.good, c.total)),
     GradeRow(3, c.satisfactory, Percent(c.satisfactory, c.total))]
    + (if c.unsatisfactory > 0 then [GradeRow(2, c.unsatisfactory, Percent(c.unsatisfactory, c.total))] else [])
  }

  /** `quality-report`: the counts are read from the form with
      `parseInt(...) || 0`, and the conclusions section appears only when
      filled in. */
  function QualityReport(data: map<string, string>): (r: QualityStats)
    ensures r.counts.total == JsText.IntOrZero(Value(data, "totalStudents"))
    ensures r.counts.excellent == JsText.IntOrZero(Value(data, "excellent"))
    ensures r.counts.good == JsText.IntOrZero(Value(data, "good"))
    ensures r.counts.satisfactory == JsText.IntOrZero(Value(data, "satisfactory"))
    ensures r.counts.unsatisfactory == JsText.IntOrZero(Value(data, "unsatisfactory"))
    ensures r.showConclusions <==> Value(data, "conclusions") != ""
  {
    var c := GradeCounts(JsText.IntOrZero(Value(data, "totalStudents")), JsText.IntOrZero(Value(data, "excellent")),
                         JsText.IntOrZero(Value(data, "good")), JsText.IntOrZero(Value(data, "satisfactory")),
                         JsText.IntOrZero(Value(data, "unsatisfactory")));
    QualityStats(c, QualityFigures(c), GradeRows(c), Value(data, "conclusions") != "")
  }

  /** When the grade counts are non-negative and add up to the class size,
      success is at least quality and both lie between 0 and 100. */
  lemma QualityFiguresConsistent(c: GradeCounts)
    requires c.excellent >= 0 && c.good >= 0 && c.satisfactory >= 0 && c.unsatisfactory >= 0
    requires c.excellent + c.good + c.satisfactory + c.unsatisfactory == c.total > 0
    ensures var r := QualityFigures(c); 0 <= r.quality <= r.success <= 100
  {
    var r := QualityFigures(c);
    PercentUnique(c.excellent + c.good, c.total, r.quality);
    PercentUnique(c.total - c.unsatisfactory, c.total, r.success);
    PercentMonotone(c.excellent + c.good, c.total - c.unsatisfactory, c.total);
    PercentBounds(c.excellent + c.good, c.total);
    PercentBounds(c.total - c.unsatisfactory, c.total);
  }

  /** The optional sections of a template: shown only when their field is filled in. */
  function OptionalSectionKeys(id: string): seq<string>
  {
    if id == "control-analysis" then ["difficulties"]
    else if id == "student-characteristic" then ["birthDate", "personality", "recommendations"]
    else if id == "quality-report" then ["conclusions"]
    else []
  }

  /** The optional sections that appear in the rendered document, in order. */
  function ShownSections(id: string, data: map<string, string>): (r: seq<string>)
    ensures forall k :: k in r <==> k in OptionalSectionKeys(id) && Value(data, k) != ""
  {
    Seqs.Filter(OptionalSectionKeys(id), (k: string) => Value(data, k) != "")
  }

  /** Each optional section belongs to a field of its template that the form
      does not require, so leaving it empty is allowed and drops the section. */
  lemma OptionalSectionsAreOptionalFields(k: nat, j: nat)
    requires k < |Table| && j < |OptionalSectionKeys(Table[k].id)|
    ensures exists i :: (0 <= i < |Table[k].fields| &&
      Table[k].fields[i].key == OptionalSectionKeys(Table[k].id)[j] && !Table[k].fields[i].required)
  {
    if k == 2 {
      assert Table[k].fields[9].key == "difficulties";
    } else if k == 4 {
      if j == 0 {
        assert Table[k].fields[2].key == "birthDate";
      } else if j == 1 {
        assert Table[k].fields[5].key == "personality";
      } else {
        assert Table[k].fields[6].key == "recommendations";
      }
    } else if k == 5 {
      assert Table[k].fields[8].key == "conclusions";
    }
  }

  /** One numbered row of the safety-briefing journal. */
  datatype SafetyRow = SafetyRow(number: nat, name: string)

  /** The non-blank lines of the `students` field, in input order. */
  function StudentLines(data: map<string, string>): seq<string>
  {
    Seqs.Filter(JsText.Split(Value(data, "students"), '\n'), NonBlank)
  }

  /** A line that holds a name: something other than white space. */
  predicate NonBlank(line: string)
  {
    !JsText.IsBlank(line)
  }

  /** `safety-journal` rows: one per non-blank line, numbered from 1 in input
      order, with the trimmed name. */
  function SafetyRows(data: map<string, string>): (r: seq<SafetyRow>)
    ensures |r| == |StudentLines(data)|
    ensures forall i :: 0 <= i < |r| ==>
      r[i].number == i + 1 && r[i].name == JsText.Trim(StudentLines(data)[i]) && r[i].name != "" && '\n' !in r[i].name
  {
    var lines := StudentLines(data);
    seq(|lines|, i requires 0 <= i < |lines| => SafetyRow(i + 1, JsText.Trim(lines[i])))
  }

  /** A name as a teacher would enter it on its own line: non-empty, already
      trimmed, without a line break. */
  predicate CleanName(name: string)
  {
    name != "" && JsText.Trim(name) == name && '\n' !in name
  }

  /** A list of names entered one per line, each already trimmed and
      non-empty, comes back as exactly those rows. */
  lemma SafetyRowsOfNameList(data: map<string, string>, names: seq<string>)
    requires |names| >= 1
    requires forall i :: 0 <= i < |names| ==> CleanName(names[i])
    requires Value(data, "students") == JsText.Join(names, "\n")
    ensures SafetyRows(data) == seq(|names|, i requires 0 <= i < |names| => SafetyRow(i + 1, names[i]))
  {
    NameListLines(data, names);
    RowsOfLines(data, names);
  }

  /** The lines of such a list are exactly the names. */
  lemma NameListLines(data: map<string, string>, names: seq<string>)
    requires |names| >= 1
    requires forall i :: 0 <= i < |names| ==> CleanName(names[i])
    requires Value(data, "students") == JsText.Join(names, "\n")
    ensures StudentLines(data) == names
  {
    CleanNamesSplit(names);
    var text := Value(data, "students");
    JsText.SplitJoin(names, '\n');
    assert JsText.Split(text, '\n') == names;
    Seqs.FilterKeepsAll(names, NonBlank);
  }

  /** Clean names hold no line break and are not blank. */
  lemma CleanNamesSplit(names: seq<string>)
    requires forall i :: 0 <= i < |names| ==> CleanName(names[i])
    ensures forall i :: 0 <= i < |names| ==> '\n' !in names[i] && NonBlank(names[i])
  {
    forall i | 0 <= i < |names| ensures '\n' !in names[i] && NonBlank(names[i]) {
      assert CleanName(names[i]);
      assert JsText.Trim(names[i]) != [];
    }
  }

  /** Rows made of lines that are already trimmed carry the lines themselves. */
  lemma RowsOfLines(data: map<string, string>, names: seq<string>)
    requires StudentLines(data) == names
    requires forall i :: 0 <= i < |names| ==> CleanName(names[i])
    ensures SafetyRows(data) == seq(|names|, i requires 0 <= i < |names| => SafetyRow(i + 1, names[i]))
  {
    TrimmedRows(names);
  }

  /** Numbering trimmed lines is numbering the lines. */
  lemma TrimmedRows(names: seq<string>)
    requires forall i :: 0 <= i < |names| ==> CleanName(names[i])
    ensures seq(|names|, i requires 0 <= i < |names| => SafetyRow(i + 1, JsText.Trim(names[i])))
         == seq(|names|, i requires 0 <= i < |names| => SafetyRow(i + 1, names[i]))
  {
    var r := seq(|names|, i requires 0 <= i < |names| => SafetyRow(i + 1, JsText.Trim(names[i])));
    var expected := seq(|names|, i requires 0 <= i < |names| => SafetyRow(i + 1, names[i]));
    forall i | 0 <= i < |r| ensures r[i] == expected[i] {
      assert CleanName(names[i]);
    }
  }
}
