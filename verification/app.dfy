/** The course-list handlers of App.tsx. Each handler builds the next list
    from the previous one without mutating any row, so each is a function
    from `seq<Course>` to `seq<Course>`. Fresh ids (`crypto.randomUUID`) are
    parameters. */
module App {
  import opened Types
  import opened Lists
  import opened Dashboard

  /** One `(field, value)` pair passed to `handleUpdateCourse`. */
  datatype FieldUpdate =
    | SetId(newId: string)
    | SetCode(newCode: string)
    | SetName(newName: string)
    | SetSks(newSks: int)
    | SetGrade(newGrade: string)
    | SetSemester(newSemester: int)
    | SetIncluded(newIncluded: bool)

  /** The updated copy of one matching row: the field is overwritten, and a
      grade update also re-derives `includedInGpa` from the new grade. */
  function Patch(c: Course, f: FieldUpdate): (r: Course)
    ensures r.id == (if f.SetId? then f.newId else c.id)
    ensures r.code == (if f.SetCode? then f.newCode else c.code)
    ensures r.name == (if f.SetName? then f.newName else c.name)
    ensures r.sks == (if f.SetSks? then f.newSks else c.sks)
    ensures r.grade == (if f.SetGrade? then f.newGrade else c.grade)
    ensures r.semester == (if f.SetSemester? then f.newSemester else c.semester)
    ensures f.SetIncluded? ==> r.includedInGpa == f.newIncluded
    ensures f.SetGrade? ==> Consistent(r)
    ensures !f.SetGrade? && !f.SetIncluded? ==> r.includedInGpa == c.includedInGpa
  {
    match f
    case SetId(v) => c.(id := v)
    case SetCode(v) => c.(code := v)
    case SetName(v) => c.(name := v)
    case SetSks(v) => c.(sks := v)
    case SetGrade(v) => c.(grade := v, includedInGpa := CountsTowardGpa(v))
    case SetSemester(v) => c.(semester := v)
    case SetIncluded(v) => c.(includedInGpa := v)
  }

  /** Setting the grade sets `includedInGpa` to "the grade is none of `-`,
      `BL` and the empty string", whatever the flag was before. */
  lemma GradeUpdateDerivesFlag(c: Course, g: string)
    ensures Patch(c, SetGrade(g)).grade == g
    ensures Patch(c, SetGrade(g)).includedInGpa <==> (g != "-" && g != "BL" && g != "")
    ensures Consistent(Patch(c, SetGrade(g)))
  {
  }

  /** Updating any field other than the grade or the flag itself leaves the
      flag, and the grade, as they were. */
  lemma OtherUpdateKeepsFlag(c: Course, f: FieldUpdate)
    requires !f.SetGrade? && !f.SetIncluded?
    ensures Patch(c, f).includedInGpa == c.includedInGpa
    ensures Patch(c, f).grade == c.grade
  {
  }

  /** `handleUpdateCourse`: every row whose id matches is patched, every
      other row is kept, and length and order are preserved. */
  function UpdateCourse(courses: seq<Course>, id: string, f: FieldUpdate): (r: seq<Course>)
    ensures |r| == |courses|
    ensures forall i :: 0 <= i < |courses| && courses[i].id != id ==> r[i] == courses[i]
    ensures forall i :: 0 <= i < |courses| && courses[i].id == id ==> r[i] == Patch(courses[i], f)
  {
    if courses == [] then []
    else
      var last := courses[|courses| - 1];
      UpdateCourse(courses[..|courses| - 1], id, f) + [if last.id == id then Patch(last, f) else last]
  }

  /** An id that no row carries leaves the list unchanged. */
  lemma UpdateUnknownId(courses: seq<Course>, id: string, f: FieldUpdate)
    requires forall i :: 0 <= i < |courses| ==> courses[i].id != id
    ensures UpdateCourse(courses, id, f) == courses
  {
  }

  /** Any update the table issues (every field except the flag itself)
      keeps every row's flag in agreement with its grade. */
  lemma UpdatePreservesConsistency(courses: seq<Course>, id: string, f: FieldUpdate)
    requires AllConsistent(courses)
    requires !f.SetIncluded?
    ensures AllConsistent(UpdateCourse(courses, id, f))
  {
    var r := UpdateCourse(courses, id, f);
    forall i | 0 <= i < |r| ensures Consistent(r[i]) {
      assert Consistent(courses[i]);
      if courses[i].id == id && !f.SetGrade? {
        OtherUpdateKeepsFlag(courses[i], f);
      }
    }
  }

  /** Editing an id, code or name leaves the cumulative standing unchanged:
      total SKS, points and graded SKS do not look at those fields. */
  lemma {:induction false} LabelEditKeepsStanding(courses: seq<Course>, id: string, f: FieldUpdate,
                                                  gradeMap: map<string, real>)
    requires f.SetId? || f.SetCode? || f.SetName?
    ensures Accumulate(UpdateCourse(courses, id, f), gradeMap) == Accumulate(courses, gradeMap)
  {
    if courses != [] {
      var prefix := courses[..|courses| - 1];
      var last := courses[|courses| - 1];
      var r := UpdateCourse(courses, id, f);
      var r' := UpdateCourse(prefix, id, f);
      assert r[..|r| - 1] == r';
      PatchKeepsContribution(last, f, gradeMap);
      assert Contribution(r[|r| - 1], gradeMap) == Contribution(last, gradeMap);
      calc {
        Accumulate(r, gradeMap);
        Accumulate(r', gradeMap).Add(Contribution(r[|r| - 1], gradeMap));
        { LabelEditKeepsStanding(prefix, id, f, gradeMap); }
        Accumulate(prefix, gradeMap).Add(Contribution(last, gradeMap));
        Accumulate(courses, gradeMap);
      }
    }
  }

  lemma PatchKeepsContribution(c: Course, f: FieldUpdate, gradeMap: map<string, real>)
    requires f.SetId? || f.SetCode? || f.SetName?
    ensures Contribution(Patch(c, f), gradeMap) == Contribution(c, gradeMap)
  {
  }

  /** The `filter` predicate of `handleDeleteCourse`. */
  function KeepsOtherIds(id: string): Course -> bool {
    (c: Course) => c.id != id
  }

  /** `handleDeleteCourse`: exactly the rows with another id survive, in
      their original relative order (see `DeleteSplits`). */
  function DeleteCourse(courses: seq<Course>, id: string): (r: seq<Course>)
    ensures |r| <= |courses|
    ensures forall c :: c in r <==> c in courses && c.id != id
    ensures forall i :: 0 <= i < |r| ==> r[i].id != id
    ensures multiset(r) <= multiset(courses)
  {
    var r := Filter(courses, KeepsOtherIds(id));
    assert forall i :: 0 <= i < |r| ==> r[i] in r;
    r
  }

  /** Deleting works row by row, so the survivors keep their order. */
  lemma DeleteSplits(a: seq<Course>, b: seq<Course>, id: string)
    ensures DeleteCourse(a + b, id) == DeleteCourse(a, id) + DeleteCourse(b, id)
  {
    FilterAppend(a, b, KeepsOtherIds(id));
  }

  /** Deleting an id twice removes nothing more. */
  lemma DeleteIdempotent(courses: seq<Course>, id: string)
    ensures DeleteCourse(DeleteCourse(courses, id), id) == DeleteCourse(courses, id)
  {
    FilterIdempotent(courses, KeepsOtherIds(id));
  }

  lemma DeletePreservesConsistency(courses: seq<Course>, id: string)
    requires AllConsistent(courses)
    ensures AllConsistent(DeleteCourse(courses, id))
  {
    var r := DeleteCourse(courses, id);
    forall i | 0 <= i < |r| ensures Consistent(r[i]) {
      assert r[i] in courses;
    }
  }

  /** The blank row both the add button and the mount effect create. */
  function BlankRow(id: string, semester: int): (c: Course)
    ensures c.id == id && c.semester == semester
    ensures c.code == "" && c.name == ""
    ensures c.sks == 3 && c.grade == Ungraded && !c.includedInGpa
    ensures Consistent(c)
  {
    Course(id, "", "", 3, Ungraded, semester, false)
  }

  /** `handleAddCourse`: the old rows followed by exactly one blank row,
      placed in the last row's semester (1 for an empty list). */
  function AddCourse(courses: seq<Course>, freshId: string): (r: seq<Course>)
    ensures |r| == |courses| + 1
    ensures r[..|courses|] == courses
    ensures r[|courses|] == BlankRow(freshId, if |courses| > 0 then courses[|courses| - 1].semester else 1)
  {
    courses + [BlankRow(freshId, if |courses| > 0 then courses[|courses| - 1].semester else 1)]
  }

  lemma AddPreservesConsistency(courses: seq<Course>, freshId: string)
    requires AllConsistent(courses)
    ensures AllConsistent(AddCourse(courses, freshId))
  {
  }

  /** A new row adds its 3 SKS to the total but nothing to points or graded
      SKS, so the IPK shown is unchanged. */
  lemma AddKeepsIpk(courses: seq<Course>, freshId: string, gradeMap: map<string, real>)
    ensures Accumulate(AddCourse(courses, freshId), gradeMap).totalSks == Accumulate(courses, gradeMap).totalSks + 3
    ensures Accumulate(AddCourse(courses, freshId), gradeMap).completedSks == Accumulate(courses, gradeMap).completedSks
    ensures Ipk(Accumulate(AddCourse(courses, freshId), gradeMap)) == Ipk(Accumulate(courses, gradeMap))
  {
    var r := AddCourse(courses, freshId);
    assert r[..|r| - 1] == courses;
  }

  /** Deleting a freshly added row, by its fresh id, gives back the list. */
  lemma DeleteUndoesAdd(courses: seq<Course>, freshId: string)
    requires forall i :: 0 <= i < |courses| ==> courses[i].id != freshId
    ensures DeleteCourse(AddCourse(courses, freshId), freshId) == courses
  {
    var blank := BlankRow(freshId, if |courses| > 0 then courses[|courses| - 1].semester else 1);
    calc {
      DeleteCourse(AddCourse(courses, freshId), freshId);
      Filter(courses + [blank], KeepsOtherIds(freshId));
      { FilterAppend(courses, [blank], KeepsOtherIds(freshId)); }
      Filter(courses, KeepsOtherIds(freshId)) + Filter([blank], KeepsOtherIds(freshId));
      { DeleteKeepsOthers(courses, freshId); DeleteDropsRow(blank, freshId); }
      courses + [];
    }
  }

  lemma DeleteKeepsOthers(courses: seq<Course>, id: string)
    requires forall i :: 0 <= i < |courses| ==> courses[i].id != id
    ensures Filter(courses, KeepsOtherIds(id)) == courses
  {
    FilterKeepsAll(courses, KeepsOtherIds(id));
  }

  lemma DeleteDropsRow(c: Course, id: string)
    requires c.id == id
    ensures Filter([c], KeepsOtherIds(id)) == []
  {
    assert [c][1..] == [];
  }

  /** The `filter` predicate of `handleDataExtracted`: a row is kept unless
      both its code and its name are empty. */
  function NotBlank(c: Course): bool {
    c.code != "" || c.name != ""
  }

  /** `handleDataExtracted`: the previous rows minus the blank ones, then the
      imported rows in their order. */
  function DataExtracted(prev: seq<Course>, extracted: seq<Course>): (r: seq<Course>)
    ensures |extracted| <= |r| <= |prev| + |extracted|
    ensures r[|r| - |extracted|..] == extracted
    ensures forall c :: c in r[..|r| - |extracted|] <==> c in prev && (c.code != "" || c.name != "")
  {
    var kept := Filter(prev, NotBlank);
    assert (kept + extracted)[..|kept|] == kept;
    kept + extracted
  }

  /** The previous rows are filtered one by one, so the survivors keep their
      relative order and the imported rows follow all of them. */
  lemma DataExtractedSplits(a: seq<Course>, b: seq<Course>, extracted: seq<Course>)
    ensures DataExtracted(a + b, extracted) == Filter(a, NotBlank) + DataExtracted(b, extracted)
  {
    FilterAppend(a, b, NotBlank);
  }

  /** When no previous row is blank, the import appends to the list as it is. */
  lemma DataExtractedKeepsFilledRows(prev: seq<Course>, extracted: seq<Course>)
    requires forall i :: 0 <= i < |prev| ==> NotBlank(prev[i])
    ensures DataExtracted(prev, extracted) == prev + extracted
  {
    FilterKeepsAll(prev, NotBlank);
  }

  lemma DataExtractedPreservesConsistency(prev: seq<Course>, extracted: seq<Course>)
    requires AllConsistent(prev) && AllConsistent(extracted)
    ensures AllConsistent(DataExtracted(prev, extracted))
  {
    var r := DataExtracted(prev, extracted);
    var n := |r| - |extracted|;
    forall i | 0 <= i < |r| ensures Consistent(r[i]) {
      if i < n {
        assert r[i] in r[..n];
      } else {
        assert r[i] == r[n..][i - n];
      }
    }
  }

  /** The mount effect: an empty list becomes a single blank row with id
      "1" in semester 1; any other list is left alone. */
  function SeedCourses(courses: seq<Course>): (r: seq<Course>)
    ensures |courses| == 0 ==> r == [BlankRow("1", 1)]
    ensures |courses| > 0 ==> r == courses
  {
    if |courses| == 0 then [BlankRow("1", 1)] else courses
  }

  /** Importing right after mounting drops the seeded blank row, so the list
      is exactly the imported rows. */
  lemma ImportReplacesSeedRow(extracted: seq<Course>)
    ensures DataExtracted(SeedCourses([]), extracted) == extracted
  {
    assert Filter([BlankRow("1", 1)], NotBlank) == [];
  }
}
