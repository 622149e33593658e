/** The document-builder page: the form behind a template, the reference lists
    that feed its selects, and the step that turns selected ids into names
    before the template renders. */
module DocBuilder {
  import opened Wrappers
  import Catalog
  import Templates
  import Api
  import Auth

  type NamedItem = Catalog.NamedItem

  /** The form: field key to entered value. */
  type Form = map<string, string>

  /** The five reference lists the page holds. */
  datatype Lists = Lists(schools: seq<NamedItem>, classes: seq<NamedItem>, teachers: seq<NamedItem>,
                         subjects: seq<NamedItem>, students: seq<NamedItem>)

  const NoLists: Lists := Lists([], [], [], [], [])

  /** The list a data source names. */
  function Source(lists: Lists, ds: Templates.DataSource): seq<NamedItem>
  {
    match ds
    case Schools => lists.schools
    case Classes => lists.classes
    case Teachers => lists.teachers
    case Subjects => lists.subjects
    case Students => lists.students
  }

  // ---------------------------------------------------------------- document type

  /** The document type: navigation state, else the `type` query parameter,
      else `ktp`. */
  function ResolveDocumentType(state: Option<string>, query: Option<string>): (r: string)
    ensures r != ""
    ensures Api.StringTruthy(state) ==> r == state.value
    ensures !Api.StringTruthy(state) && Api.StringTruthy(query) ==> r == query.value
    ensures !Api.StringTruthy(state) && !Api.StringTruthy(query) ==> r == "ktp"
  {
    if Api.StringTruthy(state) then state.value
    else if Api.StringTruthy(query) then query.value
    else "ktp"
  }

  /** Opening the builder without a type shows the calendar-thematic plan, and
      the separate `class-journal` page is never reached because the table has
      a template under that id. */
  lemma DefaultTypeAndJournal()
    ensures Templates.GetTemplateById(ResolveDocumentType(None, None)) == Some(Templates.Ktp)
    ensures Templates.GetTemplateById("class-journal").Some?
  {
    Templates.LookupFindsEveryTemplate(0);
    Templates.LookupFindsEveryTemplate(9);
  }

  // ---------------------------------------------------------------- field changes

  predicate IsSchoolKey(key: string)
  {
    key == "school" || key == "school_id"
  }

  predicate IsClassKey(key: string)
  {
    key == "class" || key == "class_id"
  }

  /** The keys a change of `key` deletes: the class after a school change, the
      student after a class change. */
  predicate Dependent(key: string, k: string)
  {
    (IsSchoolKey(key) && IsClassKey(k)) || (IsClassKey(key) && (k == "student" || k == "student_id"))
  }

  /** The form and lists after `handleFieldChange(key, value)`. */
  datatype Change = Change(form: Form, lists: Lists)

  /** `handleFieldChange`: the key takes the value and every other key keeps its
      value, except that a school change deletes the class and empties the
      class list, and a class change deletes the student and empties the
      student list. */
  function HandleFieldChange(form: Form, lists: Lists, key: string, value: string): (r: Change)
    ensures key in r.form && r.form[key] == value
    ensures forall k :: k in r.form <==> k == key || (k in form && !Dependent(key, k))
    ensures forall k :: k in form && k != key && !Dependent(key, k) ==> r.form[k] == form[k]
    ensures r.lists.classes == (if IsSchoolKey(key) then [] else lists.classes)
    ensures r.lists.students == (if IsClassKey(key) then [] else lists.students)
    ensures r.lists.schools == lists.schools && r.lists.teachers == lists.teachers && r.lists.subjects == lists.subjects
  {
    var set1 := form[key := value];
    var cleared := map k | k in set1 && !Dependent(key, k) :: set1[k];
    var lists' := lists.(classes := if IsSchoolKey(key) then [] else lists.classes,
                         students := if IsClassKey(key) then [] else lists.students);
    Change(cleared, lists')
  }

  /** Repeating a change changes nothing more. */
  lemma FieldChangeIdempotent(form: Form, lists: Lists, key: string, value: string)
    ensures var once := HandleFieldChange(form, lists, key, value);
      HandleFieldChange(once.form, once.lists, key, value) == once
  {
    var once := HandleFieldChange(form, lists, key, value);
    var twice := HandleFieldChange(once.form, once.lists, key, value);
    assert twice.form == once.form;
  }

  /** After choosing a school no class of the previous school is left selected,
      and after choosing a class no student of the previous class is. */
  lemma NoStaleSelection(form: Form, lists: Lists, key: string, value: string)
    ensures IsSchoolKey(key) ==>
      var r := HandleFieldChange(form, lists, key, value); "class" !in r.form && "class_id" !in r.form && r.lists.classes == []
    ensures IsClassKey(key) ==>
      var r := HandleFieldChange(form, lists, key, value); "student" !in r.form && "student_id" !in r.form && r.lists.students == []
  {
  }

  // ---------------------------------------------------------------- options and names

  /** One entry of a select. */
  datatype SelectOption = SelectOption(value: string, caption: string)

  /** `getFieldOptions`: static options first (value and label the option
      itself), else one option per item of the data source in order (value the
      id, label the item's display name), else none. */
  function GetFieldOptions(field: Templates.Field, lists: Lists): (r: seq<SelectOption>)
    ensures field.options.Some? ==>
      |r| == |field.options.value| && forall i :: 0 <= i < |r| ==> r[i] == SelectOption(field.options.value[i], field.options.value[i])
    ensures field.options.None? && field.dataSource.Some? ==>
      var src := Source(lists, field.dataSource.value);
      |r| == |src| && forall i :: 0 <= i < |r| ==> r[i].value == src[i].id && r[i].caption == Catalog.Label(src[i])
    ensures field.options.None? && field.dataSource.None? ==> r == []
  {
    if field.options.Some? then
      var opts := field.options.value;
      seq(|opts|, i requires 0 <= i < |opts| => SelectOption(opts[i], opts[i]))
    else if field.dataSource.Some? then
      var src := Source(lists, field.dataSource.value);
      seq(|src|, i requires 0 <= i < |src| => SelectOption(src[i].id, Catalog.Label(src[i])))
    else []
  }

  /** `getNameById`: the display name of the first item with the id, or the id
      itself when no item has it. */
  function GetNameById(lists: Lists, id: string, ds: Templates.DataSource): (r: string)
    ensures Catalog.FindById(Source(lists, ds), id).None? ==> r == id
    ensures Catalog.FindById(Source(lists, ds), id).Some? ==> r == Catalog.Label(Catalog.FindById(Source(lists, ds), id).value)
    ensures id != "" ==> r != ""
  {
    match Catalog.FindById(Source(lists, ds), id)
    case None => id
    case Some(item) => Catalog.Label(item)
  }

  predicate DistinctIds(items: seq<NamedItem>)
  {
    forall i, j :: 0 <= i < j < |items| ==> items[i].id != items[j].id
  }

  /** When the ids of a list are distinct, the name the document shows for a
      selected option is the label the select showed for it. */
  lemma SelectedOptionShowsItsLabel(field: Templates.Field, lists: Lists, i: nat)
    requires field.options.None? && field.dataSource.Some?
    requires DistinctIds(Source(lists, field.dataSource.value))
    requires i < |GetFieldOptions(field, lists)|
    ensures var o := GetFieldOptions(field, lists)[i];
      GetNameById(lists, o.value, field.dataSource.value) == o.caption
  {
    var src := Source(lists, field.dataSource.value);
    var found := Catalog.FindById(src, src[i].id);
    assert found.Some?;
    var j :| 0 <= j < |src| && src[j] == found.value;
    assert j == i;
  }

  // ---------------------------------------------------------------- names for rendering

  /** The keys some field of the template takes from a data source. */
  function SourcedKeys(fields: seq<Templates.Field>): (r: set<string>)
    ensures forall i :: 0 <= i < |fields| && fields[i].dataSource.Some? ==> fields[i].key in r
    decreases |fields|
  {
    if |fields| == 0 then {}
    else (if fields[0].dataSource.Some? then {fields[0].key} else {}) + SourcedKeys(fields[1..])
  }

  /** One step of the substitution: a field with a data source and a
      non-empty value has the value replaced by `getNameById`. */
  function SubstituteOne(f: Templates.Field, form: Form, lists: Lists): (r: Form)
    ensures r.Keys == form.Keys
    ensures forall k :: k in form && k != f.key ==> r[k] == form[k]
    ensures f.dataSource.Some? && Templates.Value(form, f.key) != "" ==>
      f.key in r && r[f.key] == GetNameById(lists, form[f.key], f.dataSource.value)
    ensures !(f.dataSource.Some? && Templates.Value(form, f.key) != "") ==> r == form
  {
    if f.dataSource.Some? && Templates.Value(form, f.key) != ""
    then form[f.key := GetNameById(lists, form[f.key], f.dataSource.value)]
    else form
  }

  /** The template data `generateDocument` renders: fields are visited in order
      and each one with a data source and a non-empty value has that value
      replaced by `getNameById`; all other values pass through. */
  function SubstituteNames(fields: seq<Templates.Field>, form: Form, lists: Lists): (r: Form)
    ensures r.Keys == form.Keys
    ensures forall k :: k in form && (form[k] == "" || k !in SourcedKeys(fields)) ==> r[k] == form[k]
    decreases |fields|
  {
    if |fields| == 0 then form
    else SubstituteNames(fields[1..], SubstituteOne(fields[0], form, lists), lists)
  }

  predicate DistinctKeys(fields: seq<Templates.Field>)
  {
    forall i, j :: 0 <= i < j < |fields| ==> fields[i].key != fields[j].key
  }

  /** With distinct field keys, every filled-in sourced field is rendered with
      the name of the selected item. */
  lemma {:induction false} SubstitutedNames(fields: seq<Templates.Field>, form: Form, lists: Lists, i: nat)
    requires DistinctKeys(fields)
    requires i < |fields| && fields[i].dataSource.Some? && Templates.Value(form, fields[i].key) != ""
    ensures var k := fields[i].key;
      k in SubstituteNames(fields, form, lists) &&
      SubstituteNames(fields, form, lists)[k] == GetNameById(lists, form[k], fields[i].dataSource.value)
    decreases |fields|
  {
    var f := fields[0];
    var next := SubstituteOne(f, form, lists);
    DistinctTail(fields);
    if i == 0 {
      TailKeysOmitHead(fields);
    } else {
      var k := fields[i].key;
      assert fields[1..][i - 1] == fields[i];
      assert k != f.key && k in next && next[k] == form[k];
      SubstitutedNames(fields[1..], next, lists, i - 1);
    }
  }

  /** The fields after the first have distinct keys, none of them the first's. */
  lemma DistinctTail(fields: seq<Templates.Field>)
    requires DistinctKeys(fields) && |fields| > 0
    ensures DistinctKeys(fields[1..])
    ensures forall j :: 0 <= j < |fields[1..]| ==> fields[1..][j].key != fields[0].key
  {
    forall j | 0 <= j < |fields[1..]| ensures fields[1..][j].key != fields[0].key {
      assert fields[1..][j] == fields[j + 1];
    }
  }

  /** A sourced key belongs to some field. */
  lemma {:induction false} SourcedKeyHasField(fields: seq<Templates.Field>, k: string)
    requires k in SourcedKeys(fields)
    ensures exists j :: 0 <= j < |fields| && fields[j].key == k
    decreases |fields|
  {
    if fields[0].key != k {
      SourcedKeyHasField(fields[1..], k);
      var j :| 0 <= j < |fields[1..]| && fields[1..][j].key == k;
      assert fields[j + 1].key == k;
    }
  }

  /** With distinct keys, the first field's key is not sourced by a later field. */
  lemma TailKeysOmitHead(fields: seq<Templates.Field>)
    requires DistinctKeys(fields) && |fields| > 0
    ensures fields[0].key !in SourcedKeys(fields[1..])
  {
    DistinctTail(fields);
    if fields[0].key in SourcedKeys(fields[1..]) {
      SourcedKeyHasField(fields[1..], fields[0].key);
      assert false;
    }
  }

  // ---------------------------------------------------------------- initial form

  /** A field's initial value: today for dates, the user's name, class or
      school for the `teacher`, `class` and `school` fields when the user has
      one, and the empty string otherwise. */
  function InitialValue(f: Templates.Field, u: Auth.User, today: string): (r: string)
    ensures f.ftype == Templates.Date ==> r == today
    ensures f.ftype != Templates.Date && f.key == "teacher" ==> r == u.fullName
    ensures f.ftype != Templates.Date && f.key == "class" ==> r == u.classId.GetOr("")
    ensures f.ftype != Templates.Date && f.key == "school" ==> r == u.schoolId.GetOr("")
    ensures f.ftype != Templates.Date && f.key !in {"teacher", "class", "school"} ==> r == ""
  {
    if f.ftype == Templates.Date then today
    else if f.key == "teacher" && u.fullName != "" then u.fullName
    else if f.key == "class" && Api.StringTruthy(u.classId) then u.classId.value
    else if f.key == "school" && Api.StringTruthy(u.schoolId) then u.schoolId.value
    else ""
  }

  /** The form built by the initialisation effect; every field writes its key
      in order, so a later field with the same key wins. */
  function InitialFields(fields: seq<Templates.Field>, u: Auth.User, today: string): (r: Form)
    ensures forall k :: k in r <==> exists i :: 0 <= i < |fields| && fields[i].key == k
    decreases |fields|
  {
    if |fields| == 0 then map[]
    else
      var last := fields[|fields| - 1];
      var before := InitialFields(fields[..|fields| - 1], u, today);
      assert forall i :: 0 <= i < |fields| - 1 ==> fields[..|fields| - 1][i] == fields[i];
      before[last.key := InitialValue(last, u, today)]
  }

  /** The value a key ends up with is that of the last field with the key. */
  lemma {:induction false} InitialFieldsLastWins(fields: seq<Templates.Field>, u: Auth.User, today: string, i: nat)
    requires i < |fields|
    requires forall j :: i < j < |fields| ==> fields[j].key != fields[i].key
    ensures InitialFields(fields, u, today)[fields[i].key] == InitialValue(fields[i], u, today)
    decreases |fields|
  {
    if i < |fields| - 1 {
      var init := fields[..|fields| - 1];
      assert init[i] == fields[i];
      InitialFieldsLastWins(init, u, today, i);
    }
  }

  /** The initialisation effect: only with a signed-in user is the form
      replaced; otherwise it is left as it was (`None`). */
  function InitialForm(fields: seq<Templates.Field>, user: Option<Auth.User>, today: string): (r: Option<Form>)
    ensures r.Some? <==> user.Some?
    ensures r.Some? ==> r.value == InitialFields(fields, user.value, today)
  {
    if user.Some? then Some(InitialFields(fields, user.value, today)) else None
  }

  /** With distinct keys the initial form holds exactly one entry per field,
      each its initial value. */
  lemma InitialFormPerField(fields: seq<Templates.Field>, u: Auth.User, today: string, i: nat)
    requires DistinctKeys(fields) && i < |fields|
    ensures var m := InitialForm(fields, Some(u), today).value;
      fields[i].key in m && m[fields[i].key] == InitialValue(fields[i], u, today) &&
      |m.Keys| <= |fields|
  {
    InitialFieldsLastWins(fields, u, today, i);
    KeysBound(fields, u, today);
  }

  lemma {:induction false} KeysBound(fields: seq<Templates.Field>, u: Auth.User, today: string)
    ensures |InitialFields(fields, u, today).Keys| <= |fields|
    decreases |fields|
  {
    if |fields| > 0 {
      var last := fields[|fields| - 1];
      var before := InitialFields(fields[..|fields| - 1], u, today);
      KeysBound(fields[..|fields| - 1], u, today);
      assert InitialFields(fields, u, today).Keys == before.Keys + {last.key};
    }
  }

  // ---------------------------------------------------------------- reference lists

  const FallbackSubjects: seq<NamedItem> := [
    Catalog.NamedItem("math", "Математика", "Математика"),
    Catalog.NamedItem("kazakh", "Қазақ тілі", "Қазақ тілі"),
    Catalog.NamedItem("russian", "Орыс тілі", "Орыс тілі"),
    Catalog.NamedItem("english", "Ағылшын тілі", "Ағылшын тілі"),
    Catalog.NamedItem("physics", "Физика", "Физика"),
    Catalog.NamedItem("chemistry", "Химия", "Химия"),
    Catalog.NamedItem("biology", "Биология", "Биология"),
    Catalog.NamedItem("history", "Тарих", "Тарих"),
    Catalog.NamedItem("geography", "География", "География")]

  const FallbackClasses: seq<NamedItem> := [
    Catalog.NamedItem("1a", "1А", "1А"), Catalog.NamedItem("1b", "1Б", "1Б"),
    Catalog.NamedItem("2a", "2А", "2А"), Catalog.NamedItem("2b", "2Б", "2Б"),
    Catalog.NamedItem("3a", "3А", "3А"), Catalog.NamedItem("4a", "4А", "4А"),
    Catalog.NamedItem("5a", "5А", "5А"), Catalog.NamedItem("6a", "6А", "6А"),
    Catalog.NamedItem("7a", "7А", "7А"), Catalog.NamedItem("8a", "8А", "8А"),
    Catalog.NamedItem("9a", "9А", "9А"), Catalog.NamedItem("10a", "10А", "10А"),
    Catalog.NamedItem("11a", "11А", "11А")]

  /** The teacher list made of the signed-in user alone. */
  function CurrentTeacher(u: Auth.User): NamedItem
  {
    Catalog.NamedItem("current", u.fullName, u.fullName)
  }

  /** A list request as the page sees it: each request's own `.catch` turns a
      failure into the empty list. */
  datatype Fetch = Listed(items: seq<NamedItem>) | FetchFailed

  function Got(f: Fetch): seq<NamedItem>
  {
    if f.Listed? then f.items else []
  }

  /** What the teacher list becomes when nothing came back: the user alone when
      the user has a name, otherwise it is left as it was. */
  function TeachersFallback(user: Option<Auth.User>, current: seq<NamedItem>): seq<NamedItem>
  {
    if user.Some? && user.value.fullName != "" then [CurrentTeacher(user.value)] else current
  }

  /** The loading effect. In demo mode only the fallback subjects and classes
      and the user as teacher are set. Otherwise schools are whatever came
      back, classes and subjects fall back when nothing came back, and
      teachers fall back to the user. */
  function LoadLists(token: Option<string>, user: Option<Auth.User>, prev: Lists,
                     schools: Fetch, classes: Fetch, teachers: Fetch, subjects: Fetch): (r: Lists)
    ensures token == Some(Auth.DemoToken) ==>
      r == prev.(subjects := FallbackSubjects, classes := FallbackClasses, teachers := TeachersFallback(user, prev.teachers))
    ensures token != Some(Auth.DemoToken) ==>
      && r.schools == Got(schools)
      && r.classes == (if Got(classes) != [] then Got(classes) else FallbackClasses)
      && r.teachers == (if Got(teachers) != [] then Got(teachers) else TeachersFallback(user, prev.teachers))
      && r.subjects == (if Got(subjects) != [] then Got(subjects) else FallbackSubjects)
      && r.students == prev.students
  {
    if token == Some(Auth.DemoToken) then
      prev.(subjects := FallbackSubjects, classes := FallbackClasses, teachers := TeachersFallback(user, prev.teachers))
    else
      prev.(schools := Got(schools),
            classes := if Got(classes) != [] then Got(classes) else FallbackClasses,
            teachers := if Got(teachers) != [] then Got(teachers) else TeachersFallback(user, prev.teachers),
            subjects := if Got(subjects) != [] then Got(subjects) else FallbackSubjects)
  }

  /** Whatever the server does, the class and subject selects always have
      options after loading, and a named user can always pick themself as
      teacher when the server lists no teachers. */
  lemma ListsNeverEmpty(token: Option<string>, user: Option<Auth.User>, prev: Lists,
                        schools: Fetch, classes: Fetch, teachers: Fetch, subjects: Fetch)
    ensures var r := LoadLists(token, user, prev, schools, classes, teachers, subjects);
      r.classes != [] && r.subjects != [] &&
      (user.Some? && user.value.fullName != "" && (token == Some(Auth.DemoToken) || Got(teachers) == []) ==>
        r.teachers == [CurrentTeacher(user.value)])
  {
  }

  /** The classes of a newly chosen school (`school_id || school`): fetched
      only outside demo mode, and kept only when non-empty. */
  function SchoolClasses(form: Form, token: Option<string>, lists: Lists, fetched: Fetch): (r: Lists)
    ensures var id := if Templates.Value(form, "school_id") != "" then Templates.Value(form, "school_id") else Templates.Value(form, "school");
      r.classes == (if id != "" && token != Some(Auth.DemoToken) && Got(fetched) != [] then Got(fetched) else lists.classes)
    ensures r.(classes := lists.classes) == lists
  {
    var id := if Templates.Value(form, "school_id") != "" then Templates.Value(form, "school_id") else Templates.Value(form, "school");
    if id == "" || token == Some(Auth.DemoToken) then lists
    else if Got(fetched) != [] then lists.(classes := Got(fetched))
    else lists
  }

  /** The students of a newly chosen class: fetched only outside demo mode.
      The request catches its own failure and answers the empty list, so a
      failed request empties the student list. */
  function ClassStudents(form: Form, token: Option<string>, lists: Lists, fetched: Fetch): (r: Lists)
    ensures Templates.Value(form, "class") == "" || token == Some(Auth.DemoToken) ==> r == lists
    ensures Templates.Value(form, "class") != "" && token != Some(Auth.DemoToken) && fetched.Listed? ==>
      r == lists.(students := fetched.items)
    ensures Templates.Value(form, "class") != "" && token != Some(Auth.DemoToken) && fetched.FetchFailed? ==>
      r == lists.(students := [])
  {
    if Templates.Value(form, "class") == "" || token == Some(Auth.DemoToken) then lists
    else lists.(students := Got(fetched))
  }

  /** Picking a school and then loading its classes never shows the previous
      school's classes: outside demo mode the list is exactly what came back
      for the new school, and in demo mode it stays empty. */
  lemma SchoolPickLoadsItsClasses(form: Form, lists: Lists, key: string, value: string, token: Option<string>, fetched: Fetch)
    requires IsSchoolKey(key)
    ensures var c := HandleFieldChange(form, lists, key, value);
      var r := SchoolClasses(c.form, token, c.lists, fetched);
      (token == Some(Auth.DemoToken) ==> r.classes == []) &&
      (value != "" && token != Some(Auth.DemoToken) ==> r.classes == Got(fetched))
    ensures var c := HandleFieldChange(form, lists, key, value);
      var r := SchoolClasses(c.form, token, c.lists, fetched);
      r.classes == [] || r.classes == Got(fetched)
  {
    var c := HandleFieldChange(form, lists, key, value);
    assert Templates.Value(c.form, key) == value;
  }

  /** Picking a class and then loading its students never shows the previous
      class's students: outside demo mode the list is exactly what came back
      for the new class, and in demo mode it stays empty. */
  lemma ClassPickLoadsItsStudents(form: Form, lists: Lists, value: string, token: Option<string>, fetched: Fetch)
    ensures var c := HandleFieldChange(form, lists, "class", value);
      var r := ClassStudents(c.form, token, c.lists, fetched);
      r.students == (if value != "" && token != Some(Auth.DemoToken) then Got(fetched) else [])
  {
    var c := HandleFieldChange(form, lists, "class", value);
    assert Templates.Value(c.form, "class") == value;
  }
}
