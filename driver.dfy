// The script's loading loop: every spreadsheet row becomes an item of its course, the
// course is created the first time its name appears, and rows with status >= 1.5 add to
// the course's running totals.

module Driver {
  import opened Records
  import opened Groups
  import opened Courses

  /** One spreadsheet line once split on commas and its three numeric columns parsed. */
  datatype Row = Row(course: string, name: string, dueDate: string, status: real, grade: real, weight: real)

  /** The item a row describes: its name is split at the last space into type and number. */
  function ToData(row: Row): (d: Data)
    ensures d.course == row.course && d.dueDate == row.dueDate
    ensures d.status == row.status && d.grade == row.grade && d.weight == row.weight
    ensures JoinName(d.kind, d.number) == row.name
    ensures d.number.Unnumbered? <==> ' ' !in row.name
    ensures d.number.Numbered? ==> ' ' !in d.number.text
  {
    SplitNameRoundTrip(row.name);
    var (kind, number) := SplitName(row.name);
    Data(row.course, kind, number, row.dueDate, row.status, row.grade, row.weight)
  }

  /** The items of course `c`, in input order. */
  function RowsOf(rows: seq<Row>, c: string): (r: seq<Data>)
    ensures forall d :: d in r ==> d.course == c
    ensures |r| <= |rows|
  {
    if rows == [] then []
    else
      var last := rows[|rows| - 1];
      RowsOf(rows[..|rows| - 1], c) + (if last.course == c then [ToData(last)] else [])
  }

  /** The course names in the order their first row appears. */
  function CourseOrder(rows: seq<Row>): (r: seq<string>)
    ensures forall i, j :: 0 <= i < j < |r| ==> r[i] != r[j]
    ensures forall c :: c in r <==> RowsOf(rows, c) != []
  {
    if rows == [] then []
    else
      var r := CourseOrder(rows[..|rows| - 1]);
      var last := rows[|rows| - 1];
      if last.course !in r then r + [last.course] else r
  }

  lemma RowsOfSnoc(rows: seq<Row>, row: Row, c: string)
    ensures row.course == c ==> RowsOf(rows + [row], c) == RowsOf(rows, c) + [ToData(row)]
    ensures row.course != c ==> RowsOf(rows + [row], c) == RowsOf(rows, c)
  {
    assert (rows + [row])[..|rows|] == rows;
    assert RowsOf(rows, c) + [] == RowsOf(rows, c);
  }

  lemma CourseOrderSnoc(rows: seq<Row>, row: Row)
    ensures row.course !in CourseOrder(rows) ==> CourseOrder(rows + [row]) == CourseOrder(rows) + [row.course]
    ensures row.course in CourseOrder(rows) ==> CourseOrder(rows + [row]) == CourseOrder(rows)
  {
    assert (rows + [row])[..|rows|] == rows;
  }

  lemma PrefixGrows(rows: seq<Row>, i: nat)
    requires i < |rows|
    ensures rows[..i + 1] == rows[..i] + [rows[i]]
  {
  }

  /** Number of items held by the courses named by `cs`. */
  function Filed(cs: seq<string>, rows: seq<Row>): nat
  {
    if cs == [] then 0
    else Filed(cs[..|cs| - 1], rows) + |RowsOf(rows, cs[|cs| - 1])|
  }

  /** What one more row adds to the items held by a list of distinct courses. */
  lemma {:induction false} FiledStep(cs: seq<string>, rows: seq<Row>, row: Row)
    requires forall i, j :: 0 <= i < j < |cs| ==> cs[i] != cs[j]
    ensures Filed(cs, rows + [row]) == Filed(cs, rows) + (if row.course in cs then 1 else 0)
  {
    if cs != [] {
      var cs', c := cs[..|cs| - 1], cs[|cs| - 1];
      FiledStep(cs', rows, row);
      RowsOfSnoc(rows, row, c);
      assert row.course == c ==> row.course !in cs';
      assert row.course in cs <==> row.course in cs' || row.course == c;
    }
  }

  /** No row is lost or counted twice: the courses together hold exactly one item per row. */
  lemma {:induction false} EveryRowFiled(rows: seq<Row>)
    ensures Filed(CourseOrder(rows), rows) == |rows|
  {
    if rows != [] {
      var init, row := rows[..|rows| - 1], rows[|rows| - 1];
      assert rows == init + [row];
      var cs := CourseOrder(init);
      EveryRowFiled(init);
      FiledStep(cs, init, row);
      CourseOrderSnoc(init, row);
      if row.course !in cs {
        var cs' := cs + [row.course];
        assert cs'[..|cs|] == cs;
        assert RowsOf(init, row.course) == [];
        RowsOfSnoc(init, row, row.course);
        assert Filed(cs', rows) == Filed(cs, rows) + 1;
      }
    }
  }

  /** The courses held by the dictionary `courses`. */
  ghost function Members(courses: map<string, Course>): set<Course>
  {
    set c | c in courses :: courses[c]
  }

  /** `order` lists the keys of `courses` once each, in the order they were added, and
      different names map to different courses. */
  ghost predicate Dictionary(courses: map<string, Course>, order: seq<string>)
  {
    && (forall i, j :: 0 <= i < j < |order| ==> order[i] != order[j])
    && (forall c :: c in courses <==> c in order)
    && (forall c, c' :: c in courses && c' in courses && c != c' ==> courses[c] != courses[c'])
  }

  /** A course as the loading loop keeps it: named `name`, with no groups yet, and with
      totals that are the sums over its counted items. */
  ghost predicate Sound(course: Course, name: string)
    reads course
  {
    course.name == name && course.Ungrouped() && course.TotalsAgree()
  }

  /** The script's course dictionary while the rows are read. */
  ghost predicate Registered(courses: map<string, Course>, order: seq<string>)
    reads Members(courses)
  {
    Dictionary(courses, order) && forall c :: c in courses ==> Sound(courses[c], c)
  }

  /** One turn of the loading loop: the row's course is created when first seen, the row
      adds to its totals when its status is at least 1.5, and it is appended to its items. */
  method AddRow(courses: map<string, Course>, order: seq<string>, row: Row)
    returns (courses': map<string, Course>, order': seq<string>)
    requires Registered(courses, order)
    modifies Members(courses)
    ensures Registered(courses', order')
    ensures row.course in courses' && courses' == courses[row.course := courses'[row.course]]
    ensures row.course in courses ==> order' == order && courses'[row.course] == courses[row.course]
    ensures row.course !in courses ==> order' == order + [row.course] && fresh(courses'[row.course])
    ensures row.course in courses ==> courses'[row.course].data == old(courses[row.course].data) + [ToData(row)]
    ensures row.course !in courses ==> courses'[row.course].data == [ToData(row)]
    ensures forall c :: c in courses && c != row.course ==> courses[c].data == old(courses[c].data)
  {
    courses', order' := courses, order;
    if row.course !in courses {
      var course := new Course(row.course);
      courses' := courses[row.course := course];
      order' := order + [row.course];
    }
    var course := courses'[row.course];
    Record(course, row);
    forall c | c in courses'
      ensures Sound(courses'[c], c)
    {
      if c != row.course {
        assert courses'[c] != course;
      }
    }
  }

  /** Adds the row to its course's totals when its status is at least 1.5, then to its items. */
  method Record(course: Course, row: Row)
    requires Sound(course, course.name)
    modifies course
    ensures Sound(course, course.name)
    ensures course.data == old(course.data) + [ToData(row)]
    ensures row.status >= 1.5 ==> course.grade == old(course.grade) + row.weight * row.grade
                                  && course.maxGrade == old(course.maxGrade) + row.weight
    ensures row.status < 1.5 ==> course.grade == old(course.grade) && course.maxGrade == old(course.maxGrade)
  {
    ghost var before := course.data;
    if row.status >= 1.5 {
      course.UpdateGrade(row.weight * row.grade);
      course.UpdateMaxGrade(row.weight);
    }
    course.DataAppend(ToData(row));
    QualSumSnoc(before, ToData(row), Achieved);
    QualSumSnoc(before, ToData(row), Possible);
  }

  /** Reads every row in order into a new dictionary: the courses appear in the order of
      their first row and each holds its own rows, in input order. */
  method Load(rows: seq<Row>) returns (courses: map<string, Course>, order: seq<string>)
    ensures Registered(courses, order)
    ensures order == CourseOrder(rows)
    ensures forall c :: c in courses ==> fresh(courses[c]) && courses[c].data == RowsOf(rows, c)
    ensures forall c :: c in courses ==> courses[c].Valid() && courses[c].workOrder == []
    ensures forall c :: c in courses ==>
              courses[c].grade == QualSum(RowsOf(rows, c), Achieved)
              && courses[c].maxGrade == QualSum(RowsOf(rows, c), Possible)
  {
    courses, order := map[], [];
    var i := 0;
    while i < |rows|
      invariant 0 <= i <= |rows|
      invariant Registered(courses, order)
      invariant order == CourseOrder(rows[..i])
      invariant forall c :: c in courses ==> fresh(courses[c]) && courses[c].data == RowsOf(rows[..i], c)
    {
      PrefixGrows(rows, i);
      courses, order := LoadStep(courses, order, rows[..i], rows[i]);
      i := i + 1;
    }
    assert rows[..i] == rows;
    forall c | c in courses
      ensures courses[c].Valid() && courses[c].workOrder == []
      ensures courses[c].grade == QualSum(RowsOf(rows, c), Achieved)
      ensures courses[c].maxGrade == QualSum(RowsOf(rows, c), Possible)
    {
      assert Sound(courses[c], c);
    }
  }

  /** One turn of the loading loop, stated against the rows read so far. */
  method LoadStep(courses: map<string, Course>, order: seq<string>, ghost seen: seq<Row>, row: Row)
    returns (courses': map<string, Course>, order': seq<string>)
    requires Registered(courses, order) && order == CourseOrder(seen)
    requires forall c :: c in courses ==> courses[c].data == RowsOf(seen, c)
    modifies Members(courses)
    ensures Registered(courses', order') && order' == CourseOrder(seen + [row])
    ensures forall c :: c in courses' ==> courses'[c].data == RowsOf(seen + [row], c)
    ensures forall c :: c in courses' ==> (c in courses && courses'[c] == courses[c]) || fresh(courses'[c])
  {
    CourseOrderSnoc(seen, row);
    courses', order' := AddRow(courses, order, row);
    forall c | c in courses'
      ensures courses'[c].data == RowsOf(seen + [row], c)
    {
      RowsOfSnoc(seen, row, c);
    }
  }
}
