/** Records shared by every component: a course row, a grading-scale entry
    (as a value; GradingSettings holds the mutable objects), and the default
    scale the application starts from. */
module Types {

  datatype Option<T> = None | Some(value: T)

  /** One row of the course table. `sks` is the credit weight, `semester`
      the term, `includedInGpa` the stored flag that decides participation. */
  datatype Course = Course(
    id: string,
    code: string,
    name: string,
    sks: int,
    grade: string,
    semester: int,
    includedInGpa: bool
  )

  /** The value view of one grading-scale entry. */
  datatype GradeDef = GradeDef(letter: string, value: real, enabled: bool)

  /** Grade of a row that has no grade yet. */
  const Ungraded: string := "-"
  /** Grade of an exempted (transferred) row. */
  const Exempted: string := "BL"

  /** The rule used whenever a grade is set (App.tsx, FileUpload.tsx):
      the row counts unless its grade is a sentinel or empty. */
  predicate CountsTowardGpa(grade: string)
    ensures grade == Ungraded || grade == Exempted || grade == "" ==> !CountsTowardGpa(grade)
    ensures CountsTowardGpa(grade) ==> |grade| > 0
  {
    grade != Ungraded && grade != Exempted && grade != ""
  }

  /** The invariant that `includedInGpa` agrees with the grade. */
  predicate Consistent(c: Course) {
    c.includedInGpa == CountsTowardGpa(c.grade)
  }

  predicate AllConsistent(cs: seq<Course>) {
    forall i :: 0 <= i < |cs| ==> Consistent(cs[i])
  }

  /** DEFAULT_GRADING_SCALE: ten entries, C- disabled. */
  function DefaultScale(): (s: seq<GradeDef>)
    ensures |s| == 10
    ensures s[7] == GradeDef("C-", 1.5, false)
  {
    [ GradeDef("A", 4.0, true),
      GradeDef("A-", 3.5, true),
      GradeDef("B+", 3.3, true),
      GradeDef("B", 3.0, true),
      GradeDef("B-", 2.5, true),
      GradeDef("C+", 2.3, true),
      GradeDef("C", 2.0, true),
      GradeDef("C-", 1.5, false),
      GradeDef("D", 1.0, true),
      GradeDef("E", 0.0, true) ]
  }

  /** No two default entries share a letter. */
  lemma DefaultLettersDistinct()
    ensures forall i, j :: 0 <= i < j < |DefaultScale()| ==> DefaultScale()[i].letter != DefaultScale()[j].letter
  {
  }

  /** The default values fall strictly, from A = 4.0 down to E = 0.0, and
      all lie in [0, 4]. */
  lemma DefaultValuesDecreasing()
    ensures forall i, j :: 0 <= i < j < |DefaultScale()| ==> DefaultScale()[i].value > DefaultScale()[j].value
    ensures forall i :: 0 <= i < |DefaultScale()| ==> 0.0 <= DefaultScale()[i].value <= 4.0
    ensures DefaultScale()[0] == GradeDef("A", 4.0, true) && DefaultScale()[9] == GradeDef("E", 0.0, true)
  {
  }

  /** Exactly one default entry, C-, is disabled, and no default letter is a
      sentinel. */
  lemma DefaultEnabledEntries()
    ensures forall i :: 0 <= i < |DefaultScale()| ==> (!DefaultScale()[i].enabled <==> i == 7)
    ensures DefaultScale()[7].letter == "C-"
    ensures forall i :: 0 <= i < |DefaultScale()| ==>
              DefaultScale()[i].letter != Ungraded && DefaultScale()[i].letter != Exempted
  {
  }
}
