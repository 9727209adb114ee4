/**
 * The semester GPA calculator: an editable, never-empty list of course
 * records and the credit-weighted mean of their grade points.
 */
module GpaSemesterCalculator {

  import opened GradeTable
  import opened WeightedMean
  import opened RecordList

  /** A course's grade: not yet chosen (the empty string), or one of the table's grades. */
  datatype GradeChoice = Unset | Chosen(grade: Grade)

  /** One course row: its identity, a free-text name, its credit hours and its grade. */
  datatype Course = Course(id: nat, name: string, credits: int, grade: GradeChoice)

  /** A field edit: which field of a course to overwrite, and with what. */
  datatype Field = SetName(name: string) | SetCredits(credits: int) | SetGrade(grade: GradeChoice)

  /** The row appended by "add": empty name, no credits, no grade. */
  function Blank(id: nat): (r: Course)
    ensures CourseId(r) == id && r.name == "" && r.grade == Unset
    ensures !Included(r)
  {
    Course(id, "", 0, Unset)
  }

  /** A course's identity. */
  function CourseId(x: Course): nat
  {
    x.id
  }

  // ---------------------------------------------------------------------------
  // List editing

  /** A row after a field edit. */
  function Apply(x: Course, f: Field): (r: Course)
    ensures r.id == x.id
    ensures r.name == (if f.SetName? then f.name else x.name)
    ensures r.credits == (if f.SetCredits? then f.credits else x.credits)
    ensures r.grade == (if f.SetGrade? then f.grade else x.grade)
  {
    match f
    case SetName(n) => x.(name := n)
    case SetCredits(c) => x.(credits := c)
    case SetGrade(g) => x.(grade := g)
  }

  /** The edit "update" applies to the matching rows. */
  function Edit(f: Field): Course -> Course
  {
    x => Apply(x, f)
  }

  // ---------------------------------------------------------------------------
  // The weighted mean

  /** A course takes part in the GPA exactly when it has a grade and positive credits; an F counts. */
  predicate Included(x: Course)
  {
    x.grade.Chosen? && x.credits > 0
  }

  /** What one course adds to the numerator: its grade points times its credits if it is included. */
  function PointsOf(x: Course): real
  {
    if Included(x) then Points(x.grade.grade) * x.credits as real else 0.0
  }

  /** What one course adds to the denominator: its credits if it is included, else nothing. */
  function CreditsOf(x: Course): int
  {
    if Included(x) then x.credits else 0
  }

  /** Sum of grade points times credits over the included courses. */
  function IncludedPoints(s: seq<Course>): real
    decreases |s|
  {
    if s == [] then 0.0 else IncludedPoints(s[..|s| - 1]) + PointsOf(s[|s| - 1])
  }

  /** Sum of credits over the included courses. */
  function IncludedCredits(s: seq<Course>): (w: int)
    ensures w >= 0
    decreases |s|
  {
    if s == [] then 0 else IncludedCredits(s[..|s| - 1]) + CreditsOf(s[|s| - 1])
  }

  /** The GPA: the credit-weighted mean grade points of the included courses, or 0 if there are none. */
  function Gpa(s: seq<Course>): real
  {
    Mean(IncludedPoints(s), IncludedCredits(s))
  }

  /** The loop that computes the GPA, one course at a time. */
  method CalculateGpa(courses: seq<Course>) returns (gpa: real)
    ensures gpa == Gpa(courses)
  {
    var totalPoints := 0.0;
    var totalCredits := 0;
    var i := 0;
    while i < |courses|
      invariant 0 <= i <= |courses|
      invariant totalPoints == IncludedPoints(courses[..i])
      invariant totalCredits == IncludedCredits(courses[..i])
    {
      var course := courses[i];
      assert courses[..i + 1][..i] == courses[..i];
      if course.grade.Chosen? && course.credits > 0 {
        totalPoints := totalPoints + Points(course.grade.grade) * course.credits as real;
        totalCredits := totalCredits + course.credits;
      }
      i := i + 1;
    }
    assert courses[..i] == courses;
    gpa := if totalCredits > 0 then totalPoints / totalCredits as real else 0.0;
  }

  // ---------------------------------------------------------------------------
  // Properties of the weighted mean

  /** Both sums split over a concatenation. */
  lemma {:induction false} SumsAppend(a: seq<Course>, b: seq<Course>)
    ensures IncludedPoints(a + b) == IncludedPoints(a) + IncludedPoints(b)
    ensures IncludedCredits(a + b) == IncludedCredits(a) + IncludedCredits(b)
    decreases |b|
  {
    if b == [] {
      assert a + b == a;
    } else {
      var ab := a + b;
      assert ab[..|ab| - 1] == a + b[..|b| - 1];
      assert ab[|ab| - 1] == b[|b| - 1];
      SumsAppend(a, b[..|b| - 1]);
    }
  }

  /** Lists whose rows contribute the same, row for row, have the same sums. */
  lemma {:induction false} SumsPointwise(s: seq<Course>, t: seq<Course>)
    requires |s| == |t|
    requires forall i :: 0 <= i < |s| ==> PointsOf(s[i]) == PointsOf(t[i]) && CreditsOf(s[i]) == CreditsOf(t[i])
    ensures IncludedPoints(s) == IncludedPoints(t) && IncludedCredits(s) == IncludedCredits(t)
    decreases |s|
  {
    if s != [] {
      SumsPointwise(s[..|s| - 1], t[..|t| - 1]);
    }
  }

  /** A course without a grade or without positive credits can be inserted anywhere, or removed, without moving the GPA. */
  lemma ExcludedCourseIrrelevant(a: seq<Course>, x: Course, b: seq<Course>)
    requires !Included(x)
    ensures Gpa(a + [x] + b) == Gpa(a + b)
  {
    SumsAppend(a + [x], b);
    SumsAppend(a, [x]);
    SumsAppend(a, b);
    assert [x][..0] == [];
    assert IncludedPoints([x]) == 0.0 && IncludedCredits([x]) == 0;
    assert IncludedPoints(a + [x] + b) == IncludedPoints(a + b);
    assert IncludedCredits(a + [x] + b) == IncludedCredits(a + b);
  }

  /** Add leaves the GPA as it was: the blank row has neither grade nor credits. */
  lemma AddKeepsGpa(s: seq<Course>, id: nat)
    ensures Gpa(Added(s, Blank(id))) == Gpa(s)
  {
    ExcludedCourseIrrelevant(s, Blank(id), []);
    assert s + [Blank(id)] + [] == Added(s, Blank(id));
    assert s + [] == s;
  }

  /** Renaming a course never moves the GPA. */
  lemma RenameKeepsGpa(s: seq<Course>, id: nat, name: string)
    ensures Gpa(Updated(s, CourseId, id, Edit(SetName(name)))) == Gpa(s)
  {
    SumsPointwise(Updated(s, CourseId, id, Edit(SetName(name))), s);
  }

  /** The denominator is zero exactly when no course is included. */
  lemma {:induction false} CreditsZeroIffNoneIncluded(s: seq<Course>)
    ensures IncludedCredits(s) == 0 <==> forall i :: 0 <= i < |s| ==> !Included(s[i])
    decreases |s|
  {
    if s != [] {
      var init := s[..|s| - 1];
      CreditsZeroIffNoneIncluded(init);
      assert forall i :: 0 <= i < |init| ==> init[i] == s[i];
    }
  }

  /** The numerator is zero exactly when every included course is graded F, and never negative. */
  lemma {:induction false} PointsZeroIffOnlyFailures(s: seq<Course>)
    ensures IncludedPoints(s) >= 0.0
    ensures IncludedPoints(s) == 0.0 <==> forall i :: 0 <= i < |s| && Included(s[i]) ==> s[i].grade.grade == F
    decreases |s|
  {
    if s != [] {
      var init := s[..|s| - 1];
      var x := s[|s| - 1];
      PointsZeroIffOnlyFailures(init);
      assert forall i :: 0 <= i < |init| ==> init[i] == s[i];
      if Included(x) && x.grade.grade != F {
        PositiveProduct(Points(x.grade.grade), x.credits as real);
      }
    }
  }

  /** The GPA is 0 exactly when every included course is graded F, in particular when none is included. */
  lemma GpaZeroIffOnlyFailures(s: seq<Course>)
    ensures Gpa(s) == 0.0 <==> forall i :: 0 <= i < |s| && Included(s[i]) ==> s[i].grade.grade == F
  {
    PointsZeroIffOnlyFailures(s);
    CreditsZeroIffNoneIncluded(s);
  }

  /** The GPA is 0 when no course is included. */
  lemma GpaZeroWhenNoneIncluded(s: seq<Course>)
    requires forall i :: 0 <= i < |s| ==> !Included(s[i])
    ensures Gpa(s) == 0.0
  {
    CreditsZeroIffNoneIncluded(s);
  }

  /** Grade points are on the 4.0 scale, so the numerator is between 0 and 4 times the denominator. */
  lemma {:induction false} PointsOnScale(s: seq<Course>)
    ensures 0.0 <= IncludedPoints(s) <= 4.0 * IncludedCredits(s) as real
    decreases |s|
  {
    if s != [] {
      var init := s[..|s| - 1];
      var x := s[|s| - 1];
      PointsOnScale(init);
      assert IncludedPoints(s) == IncludedPoints(init) + PointsOf(x);
      assert IncludedCredits(s) == IncludedCredits(init) + CreditsOf(x);
      if Included(x) {
        var v, c := Points(x.grade.grade), x.credits as real;
        StepAbove(IncludedPoints(init), IncludedCredits(init) as real, v, c, 0.0);
        StepBelow(IncludedPoints(init), IncludedCredits(init) as real, v, c, 4.0);
      }
    }
  }

  /** The GPA is always on the 4.0 scale. */
  lemma GpaOnScale(s: seq<Course>)
    ensures 0.0 <= Gpa(s) <= 4.0
  {
    PointsOnScale(s);
    if IncludedCredits(s) > 0 {
      MeanBetween(IncludedPoints(s), IncludedCredits(s), 0.0, 4.0);
    }
  }

  /**
   * A course graded F with positive credits counts, wherever it sits in the list: it adds
   * nothing to the points and its credits to the denominator, so it never raises the GPA
   * and lowers any positive one.
   */
  lemma FailingCourseLowersGpa(a: seq<Course>, x: Course, b: seq<Course>)
    requires x.grade == Chosen(F) && x.credits > 0
    ensures IncludedPoints(a + [x] + b) == IncludedPoints(a + b)
    ensures IncludedCredits(a + [x] + b) == IncludedCredits(a + b) + x.credits
    ensures Gpa(a + [x] + b) <= Gpa(a + b)
    ensures Gpa(a + b) > 0.0 ==> Gpa(a + [x] + b) < Gpa(a + b)
  {
    SumsAppend(a + [x], b);
    SumsAppend(a, [x]);
    SumsAppend(a, b);
    assert [x][..0] == [];
    assert IncludedPoints([x]) == 0.0 && IncludedCredits([x]) == x.credits;
    var s := a + b;
    PointsZeroIffOnlyFailures(s);
    CreditsZeroIffNoneIncluded(s);
    var p, w := IncludedPoints(s), IncludedCredits(s);
    assert IncludedPoints(a + [x] + b) == p;
    assert IncludedCredits(a + [x] + b) == w + x.credits;
    if w > 0 {
      FewerPointsPerCredit(p, w as real, x.credits as real);
    }
  }

  /** The GPA of the worked example: an A over 3 credits and a B over 1 give (4.0 * 3 + 3.0 * 1) / 4 = 3.75. */
  lemma GpaWorkedExample()
    ensures Gpa([Course(1, "Math", 3, Chosen(A)), Course(2, "Art", 1, Chosen(B))]) == 3.75
  {
    var s := [Course(1, "Math", 3, Chosen(A)), Course(2, "Art", 1, Chosen(B))];
    assert s[..1] == [s[0]];
    assert s[..1][..0] == [];
    assert Points(A) == 4.0;
    assert Points(B) == 3.0 by { KeyInTable(B); }
    assert IncludedPoints(s) == 15.0;
    assert IncludedCredits(s) == 4;
  }

  // ---------------------------------------------------------------------------
  // The calculator's state

  /**
   * The calculator: the course rows, the GPA on display, and the counter
   * that issues identities. Every edit replaces the row list and then
   * recomputes the GPA from it.
   */
  class Calculator {
    var courses: seq<Course>
    var gpa: real
    var nextId: nat

    /** Never empty, identities unique and below the counter, GPA up to date. */
    ghost predicate Valid()
      reads this
    {
      |courses| >= 1 && UniqueIds(courses, CourseId) && IdsBelow(courses, CourseId, nextId)
      && gpa == Gpa(courses)
    }

    /** One blank course with identity 1, and a GPA of 0. */
    constructor ()
      ensures Valid()
      ensures courses == [Blank(1)] && gpa == 0.0 && nextId == 2
    {
      courses := [Blank(1)];
      nextId := 2;
      gpa := 0.0;
    }

    /** Append a blank course with a fresh identity; the GPA does not move. */
    method AddCourse()
      requires Valid()
      modifies this
      ensures Valid()
      ensures |courses| == |old(courses)| + 1
      ensures courses[..|old(courses)|] == old(courses)
      ensures courses[|old(courses)|] == Blank(old(nextId))
      ensures !HasId(old(courses), CourseId, old(nextId))
      ensures nextId == old(nextId) + 1
      ensures gpa == old(gpa)
    {
      AddKeepsIds(courses, CourseId, Blank(nextId), nextId);
      AddKeepsGpa(courses, nextId);
      courses := Added(courses, Blank(nextId));
      nextId := nextId + 1;
      gpa := CalculateGpa(courses);
    }

    /** Remove the courses with identity `id`, unless only one course is left. */
    method RemoveCourse(id: nat)
      requires Valid()
      modifies this
      ensures Valid()
      ensures courses == Removed(old(courses), CourseId, id)
      ensures |old(courses)| == 1 ==> courses == old(courses)
      ensures nextId == old(nextId)
    {
      RemoveNeverEmpties(courses, CourseId, id);
      FilterKeepsIds(courses, CourseId, id, nextId);
      if |courses| > 1 {
        courses := Filter(courses, CourseId, id);
      }
      gpa := CalculateGpa(courses);
    }

    /** Overwrite one field of the courses with identity `id`; a rename leaves the GPA as it was. */
    method UpdateCourse(id: nat, f: Field)
      requires Valid()
      modifies this
      ensures Valid()
      ensures courses == Updated(old(courses), CourseId, id, Edit(f))
      ensures f.SetName? ==> gpa == old(gpa)
      ensures nextId == old(nextId)
    {
      if f.SetName? {
        RenameKeepsGpa(courses, id, f.name);
      }
      UpdateKeepsIds(courses, CourseId, id, Edit(f), nextId);
      courses := Updated(courses, CourseId, id, Edit(f));
      gpa := CalculateGpa(courses);
    }
  }
}
