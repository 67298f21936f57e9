/** The summary cards of components/Dashboard.tsx: the active grade map built
    from the grading scale, and the cumulative standing (total SKS, graded SKS,
    points and IPK) accumulated over the course list. The same grade map is
    rebuilt in GpaChart.tsx and GradeTable.tsx; they use `ActiveMap` too. */
module Dashboard {
  import opened Types

  /** True when no enabled entry after `i` carries the same letter, so the
      value at `i` is the one the grade map ends up holding. */
  predicate LastEnabled(scale: seq<GradeDef>, i: int)
    requires 0 <= i < |scale|
  {
    forall j :: i < j < |scale| && scale[j].enabled ==> scale[j].letter != scale[i].letter
  }

  predicate DistinctLetters(scale: seq<GradeDef>) {
    forall i, j :: 0 <= i < j < |scale| ==> scale[i].letter != scale[j].letter
  }

  /** The grade map: each enabled entry, in scale order, written over the
      entries before it. */
  function ActiveMap(scale: seq<GradeDef>): map<string, real> {
    if scale == [] then map[]
    else
      var m := ActiveMap(scale[..|scale| - 1]);
      var d := scale[|scale| - 1];
      if d.enabled then m[d.letter := d.value] else m
  }

  /** A letter is a key of the grade map exactly when some enabled entry
      carries it. */
  lemma {:induction false} ActiveMapKeys(scale: seq<GradeDef>, l: string)
    ensures l in ActiveMap(scale) <==> exists i :: 0 <= i < |scale| && scale[i].enabled && scale[i].letter == l
  {
    if scale != [] {
      var n := |scale| - 1;
      var prefix := scale[..n];
      ActiveMapKeys(prefix, l);
      if l in ActiveMap(scale) && !(scale[n].enabled && scale[n].letter == l) {
        var i :| 0 <= i < |prefix| && prefix[i].enabled && prefix[i].letter == l;
        assert scale[i] == prefix[i];
      }
      if exists i :: 0 <= i < |scale| && scale[i].enabled && scale[i].letter == l {
        var i :| 0 <= i < |scale| && scale[i].enabled && scale[i].letter == l;
        if i < n {
          assert prefix[i] == scale[i];
        }
      }
    }
  }

  /** The value looked up for a letter is that of the last enabled entry
      carrying it: a later enabled entry overwrites an earlier one. */
  lemma {:induction false} ActiveMapValue(scale: seq<GradeDef>, i: int)
    requires 0 <= i < |scale| && scale[i].enabled && LastEnabled(scale, i)
    ensures scale[i].letter in ActiveMap(scale) && ActiveMap(scale)[scale[i].letter] == scale[i].value
  {
    var n := |scale| - 1;
    if i < n {
      var prefix := scale[..n];
      assert prefix[i] == scale[i];
      assert LastEnabled(prefix, i);
      ActiveMapValue(prefix, i);
    }
  }

  /** The `reduce` of Dashboard.tsx: one pass over the scale writing each
      enabled entry into the accumulator. */
  method BuildGradeMap(scale: seq<GradeDef>) returns (m: map<string, real>)
    ensures m == ActiveMap(scale)
  {
    m := map[];
    for i := 0 to |scale|
      invariant m == ActiveMap(scale[..i])
    {
      assert scale[..i + 1][..i] == scale[..i];
      if scale[i].enabled {
        m := m[scale[i].letter := scale[i].value];
      }
    }
    assert scale[..|scale|] == scale;
  }

  /** With distinct letters every enabled entry is looked up at its own value. */
  lemma DistinctLookup(scale: seq<GradeDef>, i: int)
    requires DistinctLetters(scale)
    requires 0 <= i < |scale| && scale[i].enabled
    ensures scale[i].letter in ActiveMap(scale) && ActiveMap(scale)[scale[i].letter] == scale[i].value
  {
    assert LastEnabled(scale, i);
    ActiveMapValue(scale, i);
  }

  /** Disabling one entry of a scale with distinct letters removes exactly its
      letter from the grade map and leaves every other lookup as it was. */
  lemma DisablingRemovesLetter(scale: seq<GradeDef>, k: int)
    requires DistinctLetters(scale)
    requires 0 <= k < |scale|
    ensures ActiveMap(scale[k := scale[k].(enabled := false)]) == ActiveMap(scale) - {scale[k].letter}
  {
    var s' := scale[k := scale[k].(enabled := false)];
    var m, m' := ActiveMap(scale), ActiveMap(s');
    assert DistinctLetters(s');
    forall l ensures l in m' <==> l in m && l != scale[k].letter {
      ActiveMapKeys(scale, l);
      ActiveMapKeys(s', l);
      if l in m && l != scale[k].letter {
        var i :| 0 <= i < |scale| && scale[i].enabled && scale[i].letter == l;
        assert s'[i] == scale[i];
      }
    }
    forall l | l in m' ensures m'[l] == m[l] {
      ActiveMapKeys(s', l);
      var i :| 0 <= i < |s'| && s'[i].enabled && s'[i].letter == l;
      DistinctLookup(s', i);
      DistinctLookup(scale, i);
    }
  }

  /** A course takes part in IPK exactly when its stored flag is set and its
      grade resolves in the grade map. */
  predicate Graded(c: Course, gradeMap: map<string, real>) {
    c.includedInGpa && c.grade in gradeMap
  }

  /** The three accumulators of calculateStats. */
  datatype Stats = Stats(totalSks: int, totalPoints: real, completedSks: int) {
    function Add(other: Stats): Stats {
      Stats(totalSks + other.totalSks, totalPoints + other.totalPoints, completedSks + other.completedSks)
    }
  }

  const NoStats := Stats(0, 0.0, 0)

  /** What one course adds: its SKS always, its points and SKS to the graded
      totals only when it is graded. */
  function Contribution(c: Course, gradeMap: map<string, real>): Stats {
    if Graded(c, gradeMap) then Stats(c.sks, gradeMap[c.grade] * c.sks as real, c.sks)
    else Stats(c.sks, 0.0, 0)
  }

  /** The accumulators after the `forEach` has visited every course, in order. */
  function Accumulate(courses: seq<Course>, gradeMap: map<string, real>): Stats {
    if courses == [] then NoStats
    else Accumulate(courses[..|courses| - 1], gradeMap).Add(Contribution(courses[|courses| - 1], gradeMap))
  }

  /** The IPK before `toFixed`: points over graded SKS, 0 when nothing is graded. */
  function Ipk(st: Stats): real {
    if st.completedSks > 0 then st.totalPoints / st.completedSks as real else 0.0
  }

  /** calculateStats: the accumulation loop, then the guarded division. */
  method CalculateStats(courses: seq<Course>, gradeMap: map<string, real>)
    returns (ipk: real, completedSks: int, totalSks: int)
    ensures totalSks == Accumulate(courses, gradeMap).totalSks
    ensures completedSks == Accumulate(courses, gradeMap).completedSks
    ensures ipk == Ipk(Accumulate(courses, gradeMap))
    ensures completedSks <= 0 ==> ipk == 0.0
  {
    var totalPoints;
    totalSks, totalPoints, completedSks := AccumulateCourses(courses, gradeMap);
    ipk := if completedSks > 0 then totalPoints / completedSks as real else 0.0;
  }

  /** The `forEach` of calculateStats over the `let` accumulators. */
  method AccumulateCourses(courses: seq<Course>, gradeMap: map<string, real>)
    returns (totalSks: int, totalPoints: real, completedSks: int)
    ensures Stats(totalSks, totalPoints, completedSks) == Accumulate(courses, gradeMap)
  {
    totalSks := 0;
    totalPoints := 0.0;
    completedSks := 0;
    for i := 0 to |courses|
      invariant Stats(totalSks, totalPoints, completedSks) == Accumulate(courses[..i], gradeMap)
    {
      var c := courses[i];
      AccumulateStep(courses, i, gradeMap);
      if c.includedInGpa {
        if c.grade in gradeMap {
          var val := gradeMap[c.grade];
          totalPoints := totalPoints + val * c.sks as real;
          completedSks := completedSks + c.sks;
        }
      }
      totalSks := totalSks + c.sks;
    }
    assert courses[..|courses|] == courses;
  }

  /** One more course of the list visited. */
  lemma AccumulateStep(courses: seq<Course>, i: int, gradeMap: map<string, real>)
    requires 0 <= i < |courses|
    ensures Accumulate(courses[..i + 1], gradeMap)
         == Accumulate(courses[..i], gradeMap).Add(Contribution(courses[i], gradeMap))
  {
    assert courses[..i + 1][..i] == courses[..i];
  }

  /** Appending one course: its SKS always reach the total; its points and SKS
      reach the graded totals if and only if it is graded. */
  lemma AddsToGpaIffGraded(courses: seq<Course>, c: Course, gradeMap: map<string, real>)
    ensures Accumulate(courses + [c], gradeMap).totalSks == Accumulate(courses, gradeMap).totalSks + c.sks
    ensures Graded(c, gradeMap) ==>
      && Accumulate(courses + [c], gradeMap).completedSks == Accumulate(courses, gradeMap).completedSks + c.sks
      && Accumulate(courses + [c], gradeMap).totalPoints
         == Accumulate(courses, gradeMap).totalPoints + gradeMap[c.grade] * c.sks as real
    ensures !Graded(c, gradeMap) ==>
      && Accumulate(courses + [c], gradeMap).completedSks == Accumulate(courses, gradeMap).completedSks
      && Accumulate(courses + [c], gradeMap).totalPoints == Accumulate(courses, gradeMap).totalPoints
  {
    assert (courses + [c])[..|courses|] == courses;
  }

  /** The accumulation splits over a concatenation of course lists. */
  lemma {:induction false} AccumulateAppend(a: seq<Course>, b: seq<Course>, gradeMap: map<string, real>)
    ensures Accumulate(a + b, gradeMap) == Accumulate(a, gradeMap).Add(Accumulate(b, gradeMap))
    decreases |b|
  {
    if b == [] {
      assert a + b == a;
    } else {
      var b' := b[..|b| - 1];
      assert (a + b)[..|a + b| - 1] == a + b';
      AccumulateAppend(a, b', gradeMap);
    }
  }

  /** The three results do not depend on the order of the courses. */
  lemma {:induction false} AccumulateOrderIndependent(a: seq<Course>, b: seq<Course>, gradeMap: map<string, real>)
    requires multiset(a) == multiset(b)
    ensures Accumulate(a, gradeMap) == Accumulate(b, gradeMap)
    decreases |a|
  {
    if a == [] {
      assert |b| == |multiset(b)| == 0;
    } else {
      var a' := a[..|a| - 1];
      var x := a[|a| - 1];
      assert a == a' + [x];
      assert x in multiset(b) by {
        assert x in multiset(a);
      }
      var k :| 0 <= k < |b| && b[k] == x;
      var rest := b[..k] + b[k + 1..];
      RemoveOne(a', x, b, k);
      AccumulateOrderIndependent(a', rest, gradeMap);
      AccumulateWithout(b, k, gradeMap);
    }
  }

  /** Taking the same course off both sides keeps two lists permutations of
      each other. */
  lemma RemoveOne(a': seq<Course>, x: Course, b: seq<Course>, k: int)
    requires multiset(a' + [x]) == multiset(b)
    requires 0 <= k < |b| && b[k] == x
    ensures multiset(a') == multiset(b[..k] + b[k + 1..])
  {
    var left, right := b[..k], b[k + 1..];
    assert b == left + [x] + right;
    calc {
      multiset(a');
      multiset(a' + [x]) - multiset{x};
      multiset(b) - multiset{x};
      multiset(left) + multiset(right);
      multiset(left + right);
    }
  }

  /** The accumulation of a list is that of the list without its k-th course,
      plus that course's contribution. */
  lemma AccumulateWithout(b: seq<Course>, k: int, gradeMap: map<string, real>)
    requires 0 <= k < |b|
    ensures Accumulate(b, gradeMap)
         == Accumulate(b[..k] + b[k + 1..], gradeMap).Add(Contribution(b[k], gradeMap))
  {
    var left, right, x := b[..k], b[k + 1..], b[k];
    var cx := Contribution(x, gradeMap);
    assert b == (left + [x]) + right;
    calc {
      Accumulate(b, gradeMap);
      { AccumulateAppend(left + [x], right, gradeMap); }
      Accumulate(left + [x], gradeMap).Add(Accumulate(right, gradeMap));
      { assert (left + [x])[..|left|] == left; }
      Accumulate(left, gradeMap).Add(cx).Add(Accumulate(right, gradeMap));
      { AddSwap(Accumulate(left, gradeMap), cx, Accumulate(right, gradeMap)); }
      Accumulate(left, gradeMap).Add(Accumulate(right, gradeMap)).Add(cx);
      { AccumulateAppend(left, right, gradeMap); }
      Accumulate(left + right, gradeMap).Add(cx);
    }
  }

  lemma AddSwap(p: Stats, q: Stats, r: Stats)
    ensures p.Add(q).Add(r) == p.Add(r).Add(q)
  {
  }

  /** totalSks counts every course whatever its grade or flag: it is the same
      under any grade map. */
  lemma {:induction false} TotalSksIgnoresGrades(courses: seq<Course>, m1: map<string, real>, m2: map<string, real>)
    ensures Accumulate(courses, m1).totalSks == Accumulate(courses, m2).totalSks
  {
    if courses != [] {
      TotalSksIgnoresGrades(courses[..|courses| - 1], m1, m2);
    }
  }

  /** With no negative SKS, graded SKS never exceed the total SKS. */
  lemma {:induction false} CompletedWithinTotal(courses: seq<Course>, gradeMap: map<string, real>)
    requires forall i :: 0 <= i < |courses| ==> courses[i].sks >= 0
    ensures 0 <= Accumulate(courses, gradeMap).completedSks <= Accumulate(courses, gradeMap).totalSks
  {
    if courses != [] {
      CompletedWithinTotal(courses[..|courses| - 1], gradeMap);
    }
  }

  /** When no course is graded, nothing is accumulated and the IPK is 0. */
  lemma {:induction false} NothingGradedGivesZero(courses: seq<Course>, gradeMap: map<string, real>)
    requires forall i :: 0 <= i < |courses| ==> !Graded(courses[i], gradeMap)
    ensures Accumulate(courses, gradeMap).completedSks == 0
    ensures Accumulate(courses, gradeMap).totalPoints == 0.0
    ensures Ipk(Accumulate(courses, gradeMap)) == 0.0
  {
    if courses != [] {
      NothingGradedGivesZero(courses[..|courses| - 1], gradeMap);
    }
  }

  lemma StepWithinBounds(lo: real, hi: real, points: real, graded: real, v: real, sks: real, points': real, graded': real)
    requires lo * graded <= points <= hi * graded
    requires lo <= v <= hi && sks >= 0.0
    requires points' == points + v * sks && graded' == graded + sks
    ensures lo * graded' <= points' <= hi * graded'
  {
    assert lo * sks <= v * sks by {
      assert (v - lo) * sks >= 0.0;
    }
    assert v * sks <= hi * sks by {
      assert (hi - v) * sks >= 0.0;
    }
  }

  /** Points between lo and hi times the graded SKS. */
  predicate PointsBetween(st: Stats, lo: real, hi: real) {
    lo * st.completedSks as real <= st.totalPoints <= hi * st.completedSks as real
  }

  /** One more course keeps the points between the bounds. */
  lemma PointsStep(st: Stats, cx: Stats, lo: real, hi: real, v: real)
    requires PointsBetween(st, lo, hi)
    requires cx.completedSks >= 0
    requires (lo <= v <= hi && cx.totalPoints == v * cx.completedSks as real)
          || (cx.totalPoints == 0.0 && cx.completedSks == 0)
    ensures PointsBetween(st.Add(cx), lo, hi)
  {
    var st' := st.Add(cx);
    if cx.completedSks != 0 || cx.totalPoints != 0.0 {
      StepWithinBounds(lo, hi, st.totalPoints, st.completedSks as real, v,
                       cx.completedSks as real, st'.totalPoints, st'.completedSks as real);
    }
  }

  /** Points lie between lo and hi times the graded SKS when every grade a
      graded course resolves to lies in [lo, hi] and no SKS is negative. */
  lemma {:induction false} PointsWithinBounds(courses: seq<Course>, gradeMap: map<string, real>, lo: real, hi: real)
    requires forall i :: 0 <= i < |courses| ==> courses[i].sks >= 0
    requires forall i :: 0 <= i < |courses| && Graded(courses[i], gradeMap) ==> lo <= gradeMap[courses[i].grade] <= hi
    ensures PointsBetween(Accumulate(courses, gradeMap), lo, hi)
  {
    if courses == [] {
      assert lo * 0.0 == 0.0 == hi * 0.0;
    } else {
      var prefix := courses[..|courses| - 1];
      var c := courses[|courses| - 1];
      assert forall i :: 0 <= i < |prefix| ==> prefix[i] == courses[i];
      PointsWithinBounds(prefix, gradeMap, lo, hi);
      var v := if Graded(c, gradeMap) then gradeMap[c.grade] else lo;
      PointsStep(Accumulate(prefix, gradeMap), Contribution(c, gradeMap), lo, hi, v);
    }
  }

  lemma QuotientWithinBounds(lo: real, hi: real, points: real, graded: real)
    requires graded > 0.0
    requires lo * graded <= points <= hi * graded
    ensures lo <= points / graded <= hi
  {
    var q := points / graded;
    assert q * graded == points;
  }

  /** The IPK is a weighted average: with something graded it lies between
      the lowest and the highest grade value the graded courses earned. */
  lemma IpkWithinBounds(courses: seq<Course>, gradeMap: map<string, real>, lo: real, hi: real)
    requires forall i :: 0 <= i < |courses| ==> courses[i].sks >= 0
    requires forall i :: 0 <= i < |courses| && Graded(courses[i], gradeMap) ==> lo <= gradeMap[courses[i].grade] <= hi
    requires Accumulate(courses, gradeMap).completedSks > 0
    ensures lo <= Ipk(Accumulate(courses, gradeMap)) <= hi
  {
    PointsWithinBounds(courses, gradeMap, lo, hi);
    IpkOfBoundedPoints(Accumulate(courses, gradeMap), lo, hi);
  }

  /** In particular the IPK lies within the bounds of the whole grade map. */
  lemma IpkWithinMapBounds(courses: seq<Course>, gradeMap: map<string, real>, lo: real, hi: real)
    requires forall i :: 0 <= i < |courses| ==> courses[i].sks >= 0
    requires forall l :: l in gradeMap ==> lo <= gradeMap[l] <= hi
    requires Accumulate(courses, gradeMap).completedSks > 0
    ensures lo <= Ipk(Accumulate(courses, gradeMap)) <= hi
  {
    IpkWithinBounds(courses, gradeMap, lo, hi);
  }

  /** Under the default scale, a list whose graded courses hold only A and B
      has an IPK of at least 3.0, although E = 0.0 is in the map. */
  lemma DefaultAbIpkAtLeastB(courses: seq<Course>, gradeMap: map<string, real>)
    requires gradeMap == ActiveMap(DefaultScale())
    requires forall i :: 0 <= i < |courses| ==> courses[i].sks >= 0
    requires forall i :: 0 <= i < |courses| ==> courses[i].grade == "A" || courses[i].grade == "B"
    requires Accumulate(courses, gradeMap).completedSks > 0
    ensures 3.0 <= Ipk(Accumulate(courses, gradeMap)) <= 4.0
  {
    DefaultTopLookups();
    IpkWithinBounds(courses, gradeMap, 3.0, 4.0);
  }

  /** Under the default scale A resolves to 4.0 and B to 3.0. */
  lemma DefaultTopLookups()
    ensures "A" in ActiveMap(DefaultScale()) && ActiveMap(DefaultScale())["A"] == 4.0
    ensures "B" in ActiveMap(DefaultScale()) && ActiveMap(DefaultScale())["B"] == 3.0
  {
    DefaultLettersDistinct();
    DistinctLookup(DefaultScale(), 0);
    DistinctLookup(DefaultScale(), 3);
  }

  lemma IpkOfBoundedPoints(st: Stats, lo: real, hi: real)
    requires PointsBetween(st, lo, hi) && st.completedSks > 0
    ensures lo <= Ipk(st) <= hi
  {
    QuotientWithinBounds(lo, hi, st.totalPoints, st.completedSks as real);
  }

  /** The default scale's map: C- (disabled) and the sentinels do not resolve,
      and every value it holds lies in [0, 4]. */
  lemma DefaultMapLookups()
    ensures "C-" !in ActiveMap(DefaultScale())
    ensures Ungraded !in ActiveMap(DefaultScale()) && Exempted !in ActiveMap(DefaultScale())
    ensures "" !in ActiveMap(DefaultScale())
    ensures "A" in ActiveMap(DefaultScale()) && ActiveMap(DefaultScale())["A"] == 4.0
    ensures forall l :: l in ActiveMap(DefaultScale()) ==> 0.0 <= ActiveMap(DefaultScale())[l] <= 4.0
  {
    var s := DefaultScale();
    var m := ActiveMap(s);
    DefaultLettersDistinct();
    DefaultValuesDecreasing();
    DefaultEnabledEntries();
    ActiveMapKeys(s, "C-");
    ActiveMapKeys(s, Ungraded);
    ActiveMapKeys(s, Exempted);
    ActiveMapKeys(s, "");
    DistinctLookup(s, 0);
    forall l | l in m ensures 0.0 <= m[l] <= 4.0 {
      ActiveMapKeys(s, l);
      var i :| 0 <= i < |s| && s[i].enabled && s[i].letter == l;
      DistinctLookup(s, i);
    }
  }

  /** A course holding the disabled default letter C- with its flag set still
      counts only towards the total SKS. */
  lemma DisabledGradeOnlyInTotal(courses: seq<Course>, c: Course)
    requires c.grade == "C-" && c.includedInGpa
    ensures var m := ActiveMap(DefaultScale());
      && Accumulate(courses + [c], m).totalSks == Accumulate(courses, m).totalSks + c.sks
      && Accumulate(courses + [c], m).completedSks == Accumulate(courses, m).completedSks
      && Accumulate(courses + [c], m).totalPoints == Accumulate(courses, m).totalPoints
  {
    DefaultMapLookups();
    AddsToGpaIffGraded(courses, c, ActiveMap(DefaultScale()));
  }

  /** One course of 3 SKS graded A under A = 4.0 gives IPK 4 over 3 graded SKS. */
  lemma SingleCourseIpk(c: Course)
    requires c.sks == 3 && c.grade == "A" && c.includedInGpa
    ensures Accumulate([c], map["A" := 4.0]).completedSks == 3
    ensures Ipk(Accumulate([c], map["A" := 4.0])) == 4.0
  {
    assert [c][..0] == [];
  }
}
