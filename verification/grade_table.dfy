/** The derivations of components/GradeTable.tsx: the displayed order of the
    rows, the weight cell, the red "unknown grade" flag, the grade options
    and the number parsing of the two numeric cells. The string collation
    `localeCompare` is the parameter `codeLe`, any total order on codes. */
module GradeTable {
  import opened Types
  import opened Dashboard

  /** `codeLe` compares any two codes one way or the other. */
  ghost predicate Total(codeLe: (string, string) -> bool) {
    forall x, y :: codeLe(x, y) || codeLe(y, x)
  }

  /** The comparator: semester first, then code. */
  predicate RowLe(a: Course, b: Course, codeLe: (string, string) -> bool) {
    a.semester < b.semester || (a.semester == b.semester && codeLe(a.code, b.code))
  }

  predicate SortedRows(rows: seq<Course>, codeLe: (string, string) -> bool) {
    forall i :: 0 <= i < |rows| - 1 ==> RowLe(rows[i], rows[i + 1], codeLe)
  }

  /** Inserts `x` before the first row it does not come after. */
  function Insert(x: Course, rows: seq<Course>, codeLe: (string, string) -> bool): (r: seq<Course>)
    ensures |r| == |rows| + 1
    ensures multiset(r) == multiset(rows) + multiset{x}
    ensures r[0] == x || (|rows| > 0 && r[0] == rows[0])
  {
    if rows == [] then [x]
    else if RowLe(x, rows[0], codeLe) then [x] + rows
    else
      assert rows == [rows[0]] + rows[1..];
      [rows[0]] + Insert(x, rows[1..], codeLe)
  }

  /** Inserting into a sorted table keeps it sorted. */
  lemma {:induction false} InsertSorted(x: Course, rows: seq<Course>, codeLe: (string, string) -> bool)
    requires Total(codeLe)
    requires SortedRows(rows, codeLe)
    ensures SortedRows(Insert(x, rows, codeLe), codeLe)
  {
    if rows != [] && !RowLe(x, rows[0], codeLe) {
      assert RowLe(rows[0], x, codeLe) by {
        assert codeLe(x.code, rows[0].code) || codeLe(rows[0].code, x.code);
      }
      var tail := rows[1..];
      assert SortedRows(tail, codeLe) by {
        forall i | 0 <= i < |tail| - 1 ensures RowLe(tail[i], tail[i + 1], codeLe) {
          assert tail[i] == rows[i + 1] && tail[i + 1] == rows[i + 2];
        }
      }
      InsertSorted(x, tail, codeLe);
      var r', r := Insert(x, tail, codeLe), Insert(x, rows, codeLe);
      assert r == [rows[0]] + r';
      assert RowLe(rows[0], r'[0], codeLe) by {
        if r'[0] != x {
          assert r'[0] == rows[1];
        }
      }
      forall i | 0 <= i < |r| - 1 ensures RowLe(r[i], r[i + 1], codeLe) {
        if i > 0 {
          assert r[i] == r'[i - 1] && r[i + 1] == r'[i];
        }
      }
    }
  }

  /** `sortedCourses`: a sorted permutation of the rows, built as a new
      sequence so the list held by the application keeps its order. */
  function SortCourses(courses: seq<Course>, codeLe: (string, string) -> bool): (r: seq<Course>)
    requires Total(codeLe)
    ensures |r| == |courses|
    ensures multiset(r) == multiset(courses)
    ensures SortedRows(r, codeLe)
  {
    if courses == [] then []
    else
      assert courses == [courses[0]] + courses[1..];
      var rest := SortCourses(courses[1..], codeLe);
      InsertSorted(courses[0], rest, codeLe);
      Insert(courses[0], rest, codeLe)
  }

  /** The sorted table lists semesters in non-decreasing order throughout,
      not only between neighbours. */
  lemma {:induction false} SortedSemestersAscend(rows: seq<Course>, codeLe: (string, string) -> bool, i: int, j: int)
    requires SortedRows(rows, codeLe)
    requires 0 <= i <= j < |rows|
    ensures rows[i].semester <= rows[j].semester
    decreases j - i
  {
    if i < j {
      SortedSemestersAscend(rows, codeLe, i + 1, j);
      assert RowLe(rows[i], rows[i + 1], codeLe);
    }
  }

  /** The weight cell: present exactly when the row counts toward the GPA
      and its grade resolves; then grade value times SKS. */
  function Point(c: Course, gradeMap: map<string, real>): (r: Option<real>)
    ensures r.Some? <==> c.grade in gradeMap && c.includedInGpa
    ensures r.Some? ==> r.value == gradeMap[c.grade] * c.sks as real
  {
    if c.grade in gradeMap && c.includedInGpa then Some(gradeMap[c.grade] * c.sks as real) else None
  }

  /** The weight cells of a table added up, absent cells counting 0. */
  function SumPoints(rows: seq<Course>, gradeMap: map<string, real>): real {
    if rows == [] then 0.0
    else
      var last := rows[|rows| - 1];
      SumPoints(rows[..|rows| - 1], gradeMap) + (match Point(last, gradeMap) case Some(p) => p case None => 0.0)
  }

  /** The weight cells of the table, in whatever order it is shown, add up
      to the total points Dashboard divides by the graded SKS. */
  lemma {:induction false} WeightsSumToPoints(rows: seq<Course>, gradeMap: map<string, real>)
    ensures SumPoints(rows, gradeMap) == Accumulate(rows, gradeMap).totalPoints
  {
    if rows != [] {
      WeightsSumToPoints(rows[..|rows| - 1], gradeMap);
    }
  }

  lemma SortedTableWeights(courses: seq<Course>, codeLe: (string, string) -> bool, gradeMap: map<string, real>)
    requires Total(codeLe)
    ensures SumPoints(SortCourses(courses, codeLe), gradeMap) == Accumulate(courses, gradeMap).totalPoints
  {
    var sorted := SortCourses(courses, codeLe);
    WeightsSumToPoints(sorted, gradeMap);
    AccumulateOrderIndependent(sorted, courses, gradeMap);
  }

  /** The red flag on the grade selector: the grade does not resolve and is
      neither `-` nor `BL`. */
  predicate RedFlag(c: Course, gradeMap: map<string, real>)
    ensures RedFlag(c, gradeMap) ==> !Graded(c, gradeMap)
    ensures c.grade == Ungraded || c.grade == Exempted ==> !RedFlag(c, gradeMap)
  {
    c.grade !in gradeMap && c.grade != Ungraded && c.grade != Exempted
  }

  /** For a row whose flag agrees with a non-empty grade, the red flag marks
      exactly the rows Dashboard counts in total SKS but cannot grade. */
  lemma RedFlagMarksUngradable(c: Course, gradeMap: map<string, real>)
    requires Consistent(c) && c.grade != ""
    ensures RedFlag(c, gradeMap) <==> c.includedInGpa && !Graded(c, gradeMap)
  {
  }

  /** Under the default scale, an empty grade and the disabled `C-` are
      flagged, while `-`, `BL` and `A` are not. */
  lemma DefaultScaleFlags(c: Course)
    ensures c.grade == "" ==> RedFlag(c, ActiveMap(DefaultScale()))
    ensures c.grade == "C-" ==> RedFlag(c, ActiveMap(DefaultScale()))
    ensures c.grade in {Ungraded, Exempted, "A"} ==> !RedFlag(c, ActiveMap(DefaultScale()))
  {
    DefaultMapLookups();
  }

  /** The letters of the enabled entries, in scale order. */
  function EnabledLetters(scale: seq<GradeDef>): (r: seq<string>)
    ensures |r| <= |scale|
    ensures forall l :: l in r <==> exists i :: 0 <= i < |scale| && scale[i].enabled && scale[i].letter == l
  {
    if scale == [] then []
    else
      var prefix := scale[..|scale| - 1];
      var last := scale[|scale| - 1];
      assert forall i :: 0 <= i < |prefix| ==> prefix[i] == scale[i];
      EnabledLetters(prefix) + (if last.enabled then [last.letter] else [])
  }

  /** The letters of a scale made of two parts are those of the first part
      followed by those of the second, so the scale order is kept. */
  lemma {:induction false} EnabledLettersAppend(a: seq<GradeDef>, b: seq<GradeDef>)
    ensures EnabledLetters(a + b) == EnabledLetters(a) + EnabledLetters(b)
  {
    if b == [] {
      assert a + b == a;
    } else {
      var b' := b[..|b| - 1];
      var last := b[|b| - 1];
      assert (a + b)[..|a + b| - 1] == a + b';
      assert (a + b)[|a + b| - 1] == last;
      EnabledLettersAppend(a, b');
      calc {
        EnabledLetters(a + b);
        EnabledLetters(a + b') + (if last.enabled then [last.letter] else []);
        EnabledLetters(a) + EnabledLetters(b') + (if last.enabled then [last.letter] else []);
        EnabledLetters(a) + (EnabledLetters(b') + (if last.enabled then [last.letter] else []));
        EnabledLetters(a) + EnabledLetters(b);
      }
    }
  }

  /** One entry contributes its letter exactly when it is enabled. */
  lemma EnabledLettersSingle(d: GradeDef)
    ensures EnabledLetters([d]) == if d.enabled then [d.letter] else []
  {
    assert [d][..0] == [];
  }

  /** The options of the grade selector: `-`, the enabled letters, `BL`. */
  function GradeOptions(scale: seq<GradeDef>): (r: seq<string>)
    ensures |r| >= 2 && r[0] == Ungraded && r[|r| - 1] == Exempted
    ensures r[1..|r| - 1] == EnabledLetters(scale)
  {
    [Ungraded] + EnabledLetters(scale) + [Exempted]
  }

  /** Apart from the two sentinels, a letter is offered exactly when it
      resolves in the active grade map. */
  lemma OptionsResolve(scale: seq<GradeDef>, l: string)
    requires l != Ungraded && l != Exempted
    ensures l in GradeOptions(scale) <==> l in ActiveMap(scale)
  {
    ActiveMapKeys(scale, l);
    var r := GradeOptions(scale);
    if l in r {
      var k :| 0 <= k < |r| && r[k] == l;
      assert r[1..|r| - 1][k - 1] == l;
    }
  }

  /** The default scale does not offer `C-`. */
  lemma DefaultOptionsOmitDisabled()
    ensures "C-" !in GradeOptions(DefaultScale())
  {
    DefaultMapLookups();
    OptionsResolve(DefaultScale(), "C-");
  }

  /** The semester cell: `parseInt(...) || 1`, so NaN and 0 store 1. */
  function SemesterEdit(parsed: Option<int>): (r: int)
    ensures r != 0
    ensures parsed.Some? && parsed.value != 0 ==> r == parsed.value
    ensures parsed.None? || parsed.value == 0 ==> r == 1
  {
    match parsed
    case Some(v) => if v != 0 then v else 1
    case None => 1
  }

  /** The SKS cell: `parseInt(...) || 0`, so NaN stores 0. */
  function SksEdit(parsed: Option<int>): (r: int)
    ensures parsed.None? ==> r == 0
    ensures parsed.Some? ==> r == parsed.value
  {
    match parsed
    case Some(v) => v
    case None => 0
  }
}
