/** The history computation of components/GpaChart.tsx: courses grouped by
    semester into per-semester IPS values for semesters 1..max with no gaps,
    the width of the chart's semester axis and the projected segment. */
module GpaChart {
  import opened Types
  import opened Dashboard

  /** The graded accumulation of the courses of one semester, visited in
      list order: the entry `semMap` ends up holding for that semester. */
  function SemesterStats(courses: seq<Course>, gradeMap: map<string, real>, sem: int): Stats {
    if courses == [] then NoStats
    else
      var prev := SemesterStats(courses[..|courses| - 1], gradeMap, sem);
      var c := courses[|courses| - 1];
      if c.semester == sem then prev.Add(Contribution(c, gradeMap)) else prev
  }

  /** The IPS of one semester: points over graded SKS, 0 when there are none. */
  function SemesterIps(courses: seq<Course>, gradeMap: map<string, real>, sem: int): real {
    Ipk(SemesterStats(courses, gradeMap, sem))
  }

  /** `maxS`: the largest semester of any course, graded or not, and 0 for an
      empty list or when every semester is below 1. */
  function MaxSemester(courses: seq<Course>): (r: int)
    ensures r >= 0
    ensures courses == [] ==> r == 0
  {
    if courses == [] then 0
    else
      var m := MaxSemester(courses[..|courses| - 1]);
      var c := courses[|courses| - 1];
      if c.semester > m then c.semester else m
  }

  /** `maxS` bounds every semester and is either 0 or attained by a course. */
  lemma {:induction false} MaxSemesterIsMax(courses: seq<Course>)
    ensures forall i :: 0 <= i < |courses| ==> courses[i].semester <= MaxSemester(courses)
    ensures MaxSemester(courses) == 0
         || exists i :: 0 <= i < |courses| && courses[i].semester == MaxSemester(courses)
  {
    if courses != [] {
      var prefix := courses[..|courses| - 1];
      MaxSemesterIsMax(prefix);
      assert forall i :: 0 <= i < |prefix| ==> courses[i] == prefix[i];
    }
  }

  lemma MaxSemesterSnoc(courses: seq<Course>, c: Course)
    ensures MaxSemester(courses + [c])
         == if c.semester > MaxSemester(courses) then c.semester else MaxSemester(courses)
  {
    assert (courses + [c])[..|courses|] == courses;
  }

  function AtLeastOne(n: int): int {
    if n > 1 then n else 1
  }

  datatype SemPoint = SemPoint(sem: int, ips: real)

  /** The chart data: one point per semester 1..max(maxS, 1), in order. */
  function History(courses: seq<Course>, gradeMap: map<string, real>): (r: seq<SemPoint>)
    ensures |r| >= 1 && |r| >= MaxSemester(courses)
    ensures forall j :: 0 <= j < |r| ==> r[j].sem == j + 1
  {
    seq(AtLeastOne(MaxSemester(courses)), j => SemPoint(j + 1, SemesterIps(courses, gradeMap, j + 1)))
  }

  /** Appending a course changes only the accumulation of its own semester. */
  lemma SemesterStatsSnoc(courses: seq<Course>, c: Course, gradeMap: map<string, real>, sem: int)
    ensures SemesterStats(courses + [c], gradeMap, sem)
         == if c.semester == sem then SemesterStats(courses, gradeMap, sem).Add(Contribution(c, gradeMap))
            else SemesterStats(courses, gradeMap, sem)
  {
    assert (courses + [c])[..|courses|] == courses;
  }

  datatype SemTotal = SemTotal(points: real, sks: int)

  /** `semMap` holds, for every semester that received a graded course, its
      points and graded SKS; a semester it lacks has no graded SKS. */
  ghost predicate SemMapAgrees(semMap: map<int, SemTotal>, courses: seq<Course>, gradeMap: map<string, real>) {
    && (forall s :: s in semMap ==>
          semMap[s] == SemTotal(SemesterStats(courses, gradeMap, s).totalPoints,
                                SemesterStats(courses, gradeMap, s).completedSks))
    && (forall s :: s !in semMap ==>
          SemesterStats(courses, gradeMap, s).completedSks == 0 && SemesterStats(courses, gradeMap, s).totalPoints == 0.0)
  }

  /** The `ips` expression read off an agreeing `semMap` is the semester's IPS. */
  lemma IpsFromSemMap(semMap: map<int, SemTotal>, courses: seq<Course>, gradeMap: map<string, real>, sem: int)
    requires SemMapAgrees(semMap, courses, gradeMap)
    ensures (if sem in semMap && semMap[sem].sks > 0 then semMap[sem].points / semMap[sem].sks as real else 0.0)
         == SemesterIps(courses, gradeMap, sem)
  {
  }

  /** A course that is not graded leaves an agreeing `semMap` agreeing. */
  lemma SkipKeepsAgreement(semMap: map<int, SemTotal>, courses: seq<Course>, c: Course, gradeMap: map<string, real>)
    requires SemMapAgrees(semMap, courses, gradeMap)
    requires !Graded(c, gradeMap)
    ensures SemMapAgrees(semMap, courses + [c], gradeMap)
  {
    forall s {
      SemesterStatsSnoc(courses, c, gradeMap, s);
    }
  }

  /** A graded course added to its semester's entry keeps `semMap` agreeing. */
  lemma AddKeepsAgreement(semMap: map<int, SemTotal>, courses: seq<Course>, c: Course, gradeMap: map<string, real>)
    requires SemMapAgrees(semMap, courses, gradeMap)
    requires Graded(c, gradeMap)
    ensures var current := if c.semester in semMap then semMap[c.semester] else SemTotal(0.0, 0);
      SemMapAgrees(semMap[c.semester := SemTotal(current.points + gradeMap[c.grade] * c.sks as real,
                                                 current.sks + c.sks)],
                   courses + [c], gradeMap)
  {
    var current := if c.semester in semMap then semMap[c.semester] else SemTotal(0.0, 0);
    var v := gradeMap[c.grade];
    var semMap' := semMap[c.semester := SemTotal(current.points + v * c.sks as real, current.sks + c.sks)];
    var courses' := courses + [c];
    forall s | s in semMap'
      ensures semMap'[s] == SemTotal(SemesterStats(courses', gradeMap, s).totalPoints,
                                     SemesterStats(courses', gradeMap, s).completedSks)
    {
      SemesterStatsSnoc(courses, c, gradeMap, s);
    }
    forall s | s !in semMap'
      ensures SemesterStats(courses', gradeMap, s).completedSks == 0
      ensures SemesterStats(courses', gradeMap, s).totalPoints == 0.0
    {
      SemesterStatsSnoc(courses, c, gradeMap, s);
    }
  }

  /** The `forEach` of the `useMemo` body: track the largest semester of
      every course and add each graded course to its semester's entry. */
  method GroupBySemester(courses: seq<Course>, gradeMap: map<string, real>)
    returns (semMap: map<int, SemTotal>, maxS: int)
    ensures maxS == MaxSemester(courses)
    ensures SemMapAgrees(semMap, courses, gradeMap)
  {
    semMap := map[];
    maxS := 0;
    for i := 0 to |courses|
      invariant maxS == MaxSemester(courses[..i])
      invariant SemMapAgrees(semMap, courses[..i], gradeMap)
    {
      var c := courses[i];
      assert courses[..i + 1] == courses[..i] + [c];
      MaxSemesterSnoc(courses[..i], c);
      if c.semester > maxS {
        maxS := c.semester;
      }
      if !c.includedInGpa {
        SkipKeepsAgreement(semMap, courses[..i], c, gradeMap);
        continue;
      }
      if c.grade !in gradeMap {
        SkipKeepsAgreement(semMap, courses[..i], c, gradeMap);
        continue;
      }
      AddKeepsAgreement(semMap, courses[..i], c, gradeMap);
      var val := gradeMap[c.grade];
      var current := if c.semester in semMap then semMap[c.semester] else SemTotal(0.0, 0);
      semMap := semMap[c.semester := SemTotal(current.points + val * c.sks as real, current.sks + c.sks)];
    }
    assert courses[..|courses|] == courses;
  }

  /** The `useMemo` body: build the grade map, group the courses, then emit
      one point per semester from 1 to max(maxS, 1). */
  method ComputeHistory(courses: seq<Course>, scale: seq<GradeDef>)
    returns (historyData: seq<SemPoint>, maxSem: int)
    ensures historyData == History(courses, ActiveMap(scale))
    ensures maxSem == |historyData| == AtLeastOne(MaxSemester(courses))
  {
    var gradeMap := BuildGradeMap(scale);
    var semMap, maxS := GroupBySemester(courses, gradeMap);
    historyData := [];
    var top := AtLeastOne(maxS);
    for i := 1 to top + 1
      invariant |historyData| == i - 1
      invariant forall j :: 0 <= j < |historyData| ==>
        historyData[j] == SemPoint(j + 1, SemesterIps(courses, gradeMap, j + 1))
    {
      var ips := if i in semMap && semMap[i].sks > 0 then semMap[i].points / semMap[i].sks as real else 0.0;
      IpsFromSemMap(semMap, courses, gradeMap, i);
      historyData := historyData + [SemPoint(i, ips)];
    }
    maxSem := top;
  }

  /** A course that is not graded changes no semester's IPS. */
  lemma UngradedKeepsIps(courses: seq<Course>, c: Course, gradeMap: map<string, real>, sem: int)
    requires !Graded(c, gradeMap)
    ensures SemesterIps(courses + [c], gradeMap, sem) == SemesterIps(courses, gradeMap, sem)
  {
    SemesterStatsSnoc(courses, c, gradeMap, sem);
  }

  /** An ungraded course in a semester that is already on the axis leaves the
      whole history unchanged. */
  lemma UngradedKeepsHistory(courses: seq<Course>, c: Course, gradeMap: map<string, real>)
    requires !Graded(c, gradeMap)
    requires c.semester <= MaxSemester(courses)
    ensures History(courses + [c], gradeMap) == History(courses, gradeMap)
  {
    MaxSemesterSnoc(courses, c);
    var h, h' := History(courses, gradeMap), History(courses + [c], gradeMap);
    assert |h'| == |h|;
    forall j | 0 <= j < |h| ensures h'[j] == h[j] {
      assert h[j] == SemPoint(j + 1, SemesterIps(courses, gradeMap, j + 1));
      assert h'[j] == SemPoint(j + 1, SemesterIps(courses + [c], gradeMap, j + 1));
      UngradedKeepsIps(courses, c, gradeMap, j + 1);
    }
  }

  /** A semester in which no course is graded gets IPS 0: an absent semester,
      one with only excluded rows, or one whose grades are all unresolved. */
  lemma {:induction false} NothingGradedInSemester(courses: seq<Course>, gradeMap: map<string, real>, sem: int)
    requires forall i :: 0 <= i < |courses| && courses[i].semester == sem ==> !Graded(courses[i], gradeMap)
    ensures SemesterStats(courses, gradeMap, sem).completedSks == 0
    ensures SemesterStats(courses, gradeMap, sem).totalPoints == 0.0
    ensures SemesterIps(courses, gradeMap, sem) == 0.0
  {
    if courses != [] {
      var prefix := courses[..|courses| - 1];
      assert forall i :: 0 <= i < |prefix| ==> prefix[i] == courses[i];
      NothingGradedInSemester(prefix, gradeMap, sem);
    }
  }

  /** A course whose semester is below 1 is grouped but never charted: it
      neither widens the axis nor changes any charted point. */
  lemma SemesterBelowOneIgnored(courses: seq<Course>, c: Course, gradeMap: map<string, real>)
    requires c.semester < 1
    ensures History(courses + [c], gradeMap) == History(courses, gradeMap)
  {
    MaxSemesterSnoc(courses, c);
    var h, h' := History(courses, gradeMap), History(courses + [c], gradeMap);
    assert |h'| == |h|;
    forall j | 0 <= j < |h| ensures h'[j] == h[j] {
      SemesterStatsSnoc(courses, c, gradeMap, j + 1);
    }
  }

  /** The per-semester accumulations of semesters 1..n added together. */
  function SumSemesters(courses: seq<Course>, gradeMap: map<string, real>, n: int): Stats
    decreases n
  {
    if n < 1 then NoStats
    else SumSemesters(courses, gradeMap, n - 1).Add(SemesterStats(courses, gradeMap, n))
  }

  lemma {:induction false} SumSemestersSnoc(courses: seq<Course>, c: Course, gradeMap: map<string, real>, n: int)
    ensures SumSemesters(courses + [c], gradeMap, n)
         == if 1 <= c.semester <= n then SumSemesters(courses, gradeMap, n).Add(Contribution(c, gradeMap))
            else SumSemesters(courses, gradeMap, n)
    decreases n
  {
    if n >= 1 {
      SumSemestersSnoc(courses, c, gradeMap, n - 1);
      SemesterStatsSnoc(courses, c, gradeMap, n);
      var before := SumSemesters(courses, gradeMap, n - 1);
      var here := SemesterStats(courses, gradeMap, n);
      var x := Contribution(c, gradeMap);
      if c.semester == n {
        AddAssoc(before, here, x);
      } else if 1 <= c.semester < n {
        AddSwap(before, x, here);
      }
    }
  }

  lemma AddAssoc(p: Stats, q: Stats, r: Stats)
    ensures p.Add(q).Add(r) == p.Add(q.Add(r))
  {
  }

  /** When every semester lies in 1..n, the semesters' graded SKS and points
      add up to the cumulative figures of Dashboard. */
  lemma {:induction false} SemestersSumToTotal(courses: seq<Course>, gradeMap: map<string, real>, n: int)
    requires forall i :: 0 <= i < |courses| ==> 1 <= courses[i].semester <= n
    ensures SumSemesters(courses, gradeMap, n).completedSks == Accumulate(courses, gradeMap).completedSks
    ensures SumSemesters(courses, gradeMap, n).totalPoints == Accumulate(courses, gradeMap).totalPoints
    ensures SumSemesters(courses, gradeMap, n).totalSks == Accumulate(courses, gradeMap).totalSks
  {
    if courses == [] {
      ZeroSum(gradeMap, n);
    } else {
      var prefix := courses[..|courses| - 1];
      var c := courses[|courses| - 1];
      assert courses == prefix + [c];
      assert forall i :: 0 <= i < |prefix| ==> prefix[i] == courses[i];
      SemestersSumToTotal(prefix, gradeMap, n);
      SumSemestersSnoc(prefix, c, gradeMap, n);
    }
  }

  lemma {:induction false} ZeroSum(gradeMap: map<string, real>, n: int)
    ensures SumSemesters([], gradeMap, n) == NoStats
    decreases n
  {
    if n >= 1 {
      ZeroSum(gradeMap, n - 1);
    }
  }

  /** With every semester at least 1, the charted semesters 1..maxS account
      for all of Dashboard's graded SKS and points. */
  lemma ChartCoversAllGraded(courses: seq<Course>, gradeMap: map<string, real>)
    requires forall i :: 0 <= i < |courses| ==> courses[i].semester >= 1
    ensures SumSemesters(courses, gradeMap, MaxSemester(courses)).completedSks
         == Accumulate(courses, gradeMap).completedSks
    ensures SumSemesters(courses, gradeMap, MaxSemester(courses)).totalPoints
         == Accumulate(courses, gradeMap).totalPoints
  {
    MaxSemesterIsMax(courses);
    SemestersSumToTotal(courses, gradeMap, MaxSemester(courses));
  }

  /** `totalSemestersToShow`: at least 8, and wide enough for the history
      plus two projected semesters when a projection is given. */
  function TotalSemestersToShow(maxSem: int, hasProjection: bool): (r: int)
    ensures r >= 8
    ensures r >= maxSem + (if hasProjection then 2 else 0)
    ensures r == 8 || r == maxSem + (if hasProjection then 2 else 0)
  {
    var projectedCount := if hasProjection then 2 else 0;
    if 8 > maxSem + projectedCount then 8 else maxSem + projectedCount
  }

  /** `d` clamped to 0..k: how many of `k` look-ahead positions fit when `d`
      positions remain on the axis. */
  function Fitting(d: int, k: int): int {
    if d <= 0 then 0 else if d >= k then k else d
  }

  /** The projected-path loop: the 0-based axis positions, after the last
      actual point, that it draws a segment to. Nothing is drawn without a
      projection or without history. */
  method ProjectedSegments(historyLen: int, total: int, hasProjection: bool) returns (xs: seq<int>)
    ensures !hasProjection || historyLen <= 0 ==> xs == []
    ensures hasProjection && historyLen > 0 ==> |xs| == Fitting(total - historyLen, 3)
    ensures forall j :: 0 <= j < |xs| ==> xs[j] == historyLen + j && xs[j] < total
  {
    xs := [];
    if hasProjection && historyLen > 0 {
      for i := 1 to 4
        invariant |xs| == Fitting(total - historyLen, i - 1)
        invariant forall j :: 0 <= j < |xs| ==> xs[j] == historyLen + j && xs[j] < total
      {
        if historyLen + i - 1 < total {
          xs := xs + [historyLen + i - 1];
        }
      }
    }
  }

  /** With a projection, the chart of a history of `len >= 1` semesters draws
      three look-ahead segments when `len < 6` and two otherwise, and the
      projected dot at position `len` always lies on the axis. */
  lemma ProjectionGeometry(len: int)
    requires len >= 1
    ensures Fitting(TotalSemestersToShow(len, true) - len, 3) == if len < 6 then 3 else 2
    ensures len < TotalSemestersToShow(len, true)
  {
  }
}
