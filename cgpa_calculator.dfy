/**
 * The cumulative GPA calculator: an editable, never-empty list of semester
 * records and the credit-weighted mean of their GPAs.
 */
module CgpaCalculator {

  import opened WeightedMean
  import opened RecordList

  /** One semester row: its identity, a free-text name, its GPA and its credit hours. */
  datatype Semester = Semester(id: nat, name: string, gpa: real, credits: int)

  /** A field edit: which field of a semester to overwrite, and with what. */
  datatype Field = SetName(name: string) | SetGpa(gpa: real) | SetCredits(credits: int)

  /** The row appended by "add": empty name, GPA 0, no credits. */
  function Blank(id: nat): (r: Semester)
    ensures SemesterId(r) == id && r.name == ""
    ensures !Included(r)
  {
    Semester(id, "", 0.0, 0)
  }

  /** A semester's identity. */
  function SemesterId(x: Semester): nat
  {
    x.id
  }

  // ---------------------------------------------------------------------------
  // List editing

  /** A row after a field edit. */
  function Apply(x: Semester, f: Field): (r: Semester)
    ensures r.id == x.id
    ensures r.name == (if f.SetName? then f.name else x.name)
    ensures r.gpa == (if f.SetGpa? then f.gpa else x.gpa)
    ensures r.credits == (if f.SetCredits? then f.credits else x.credits)
  {
    match f
    case SetName(n) => x.(name := n)
    case SetGpa(g) => x.(gpa := g)
    case SetCredits(c) => x.(credits := c)
  }

  /** The edit "update" applies to the matching rows. */
  function Edit(f: Field): Semester -> Semester
  {
    x => Apply(x, f)
  }

  // ---------------------------------------------------------------------------
  // The weighted mean

  /** A semester takes part in the CGPA only with a positive GPA and positive credits. */
  predicate Included(x: Semester)
  {
    x.gpa > 0.0 && x.credits > 0
  }

  /** What one semester adds to the numerator: gpa * credits if it is included, else nothing. */
  function PointsOf(x: Semester): real
  {
    if Included(x) then x.gpa * x.credits as real else 0.0
  }

  /** What one semester adds to the denominator: its credits if it is included, else nothing. */
  function CreditsOf(x: Semester): int
  {
    if Included(x) then x.credits else 0
  }

  /** Sum of gpa * credits over the included semesters. */
  function IncludedPoints(s: seq<Semester>): real
    decreases |s|
  {
    if s == [] then 0.0 else IncludedPoints(s[..|s| - 1]) + PointsOf(s[|s| - 1])
  }

  /** Sum of credits over the included semesters. */
  function IncludedCredits(s: seq<Semester>): (w: int)
    ensures w >= 0
    decreases |s|
  {
    if s == [] then 0 else IncludedCredits(s[..|s| - 1]) + CreditsOf(s[|s| - 1])
  }

  /** The CGPA: the credit-weighted mean GPA of the included semesters, or 0 if there are none. */
  function Cgpa(s: seq<Semester>): real
  {
    Mean(IncludedPoints(s), IncludedCredits(s))
  }

  /** The loop that computes the CGPA, one semester at a time. */
  method CalculateCgpa(semesters: seq<Semester>) returns (cgpa: real)
    ensures cgpa == Cgpa(semesters)
  {
    var totalPoints := 0.0;
    var totalCredits := 0;
    var i := 0;
    while i < |semesters|
      invariant 0 <= i <= |semesters|
      invariant totalPoints == IncludedPoints(semesters[..i])
      invariant totalCredits == IncludedCredits(semesters[..i])
    {
      var semester := semesters[i];
      assert semesters[..i + 1][..i] == semesters[..i];
      if semester.gpa > 0.0 && semester.credits > 0 {
        totalPoints := totalPoints + semester.gpa * semester.credits as real;
        totalCredits := totalCredits + semester.credits;
      }
      i := i + 1;
    }
    assert semesters[..i] == semesters;
    cgpa := if totalCredits > 0 then totalPoints / totalCredits as real else 0.0;
  }

  // ---------------------------------------------------------------------------
  // Display counters

  /** The "Total Semesters" counter: rows with a positive GPA, whatever their credits. */
  function SemestersWithGpa(s: seq<Semester>): (n: nat)
    ensures n <= |s|
    decreases |s|
  {
    if s == [] then 0
    else SemestersWithGpa(s[..|s| - 1]) + (if s[|s| - 1].gpa > 0.0 then 1 else 0)
  }

  /** The "Total Credits" counter: credits summed over every row, included or not. */
  function TotalCredits(s: seq<Semester>): int
    decreases |s|
  {
    if s == [] then 0 else TotalCredits(s[..|s| - 1]) + s[|s| - 1].credits
  }

  // ---------------------------------------------------------------------------
  // Properties of the weighted mean

  /** Both sums split over a concatenation. */
  lemma {:induction false} SumsAppend(a: seq<Semester>, b: seq<Semester>)
    ensures IncludedPoints(a + b) == IncludedPoints(a) + IncludedPoints(b)
    ensures IncludedCredits(a + b) == IncludedCredits(a) + IncludedCredits(b)
    decreases |b|
  {
    if b == [] {
      assert a + b == a;
    } else {
      var ab := a + b;
      assert ab[..|ab| - 1] == a + b[..|b| - 1];
      assert ab[|ab| - 1] == b[|b| - 1];
      SumsAppend(a, b[..|b| - 1]);
    }
  }

  /** Lists whose rows contribute the same, row for row, have the same sums. */
  lemma {:induction false} SumsPointwise(s: seq<Semester>, t: seq<Semester>)
    requires |s| == |t|
    requires forall i :: 0 <= i < |s| ==> PointsOf(s[i]) == PointsOf(t[i]) && CreditsOf(s[i]) == CreditsOf(t[i])
    ensures IncludedPoints(s) == IncludedPoints(t) && IncludedCredits(s) == IncludedCredits(t)
    decreases |s|
  {
    if s != [] {
      SumsPointwise(s[..|s| - 1], t[..|t| - 1]);
    }
  }

  /** A semester that is not included can be inserted anywhere, or removed, without moving the CGPA. */
  lemma ExcludedSemesterIrrelevant(a: seq<Semester>, x: Semester, b: seq<Semester>)
    requires !Included(x)
    ensures Cgpa(a + [x] + b) == Cgpa(a + b)
  {
    SumsAppend(a + [x], b);
    SumsAppend(a, [x]);
    SumsAppend(a, b);
    assert [x][..0] == [];
    assert IncludedPoints([x]) == 0.0 && IncludedCredits([x]) == 0;
    assert IncludedPoints(a + [x] + b) == IncludedPoints(a + b);
    assert IncludedCredits(a + [x] + b) == IncludedCredits(a + b);
  }

  /** Add leaves the CGPA as it was: the blank row is not included. */
  lemma AddKeepsCgpa(s: seq<Semester>, id: nat)
    ensures Cgpa(Added(s, Blank(id))) == Cgpa(s)
  {
    ExcludedSemesterIrrelevant(s, Blank(id), []);
    assert s + [Blank(id)] + [] == Added(s, Blank(id));
    assert s + [] == s;
  }

  /** Renaming a semester never moves the CGPA. */
  lemma RenameKeepsCgpa(s: seq<Semester>, id: nat, name: string)
    ensures Cgpa(Updated(s, SemesterId, id, Edit(SetName(name)))) == Cgpa(s)
  {
    SumsPointwise(Updated(s, SemesterId, id, Edit(SetName(name))), s);
  }

  /** The denominator is zero exactly when no semester is included. */
  lemma {:induction false} CreditsZeroIffNoneIncluded(s: seq<Semester>)
    ensures IncludedCredits(s) == 0 <==> forall i :: 0 <= i < |s| ==> !Included(s[i])
    decreases |s|
  {
    if s != [] {
      var init := s[..|s| - 1];
      CreditsZeroIffNoneIncluded(init);
      assert forall i :: 0 <= i < |init| ==> init[i] == s[i];
    }
  }

  /** The numerator is positive as soon as one semester is included. */
  lemma {:induction false} PointsPositive(s: seq<Semester>)
    ensures IncludedPoints(s) >= 0.0
    ensures IncludedCredits(s) > 0 ==> IncludedPoints(s) > 0.0
    decreases |s|
  {
    if s != [] {
      var init := s[..|s| - 1];
      var x := s[|s| - 1];
      PointsPositive(init);
      assert IncludedPoints(s) == IncludedPoints(init) + PointsOf(x);
      assert IncludedCredits(s) == IncludedCredits(init) + CreditsOf(x);
      if Included(x) {
        PositiveProduct(x.gpa, x.credits as real);
        assert PointsOf(x) > 0.0;
      } else {
        assert PointsOf(x) == 0.0 && CreditsOf(x) == 0;
      }
    }
  }

  /** The CGPA is 0 exactly when no semester has both a positive GPA and positive credits. */
  lemma CgpaZeroIffNoneIncluded(s: seq<Semester>)
    ensures Cgpa(s) == 0.0 <==> forall i :: 0 <= i < |s| ==> !Included(s[i])
  {
    PointsPositive(s);
    CreditsZeroIffNoneIncluded(s);
  }

  /** A lower bound on the included GPAs bounds the numerator from below by that multiple of the denominator. */
  lemma {:induction false} PointsAbove(s: seq<Semester>, lo: real)
    requires forall i :: 0 <= i < |s| && Included(s[i]) ==> lo <= s[i].gpa
    ensures lo * IncludedCredits(s) as real <= IncludedPoints(s)
    decreases |s|
  {
    if s != [] {
      var init := s[..|s| - 1];
      var x := s[|s| - 1];
      assert forall i :: 0 <= i < |init| ==> init[i] == s[i];
      PointsAbove(init, lo);
      if Included(x) {
        StepAbove(IncludedPoints(init), IncludedCredits(init) as real, x.gpa, x.credits as real, lo);
      }
    }
  }

  /** An upper bound on the included GPAs bounds the numerator from above by that multiple of the denominator. */
  lemma {:induction false} PointsBelow(s: seq<Semester>, hi: real)
    requires forall i :: 0 <= i < |s| && Included(s[i]) ==> s[i].gpa <= hi
    ensures IncludedPoints(s) <= hi * IncludedCredits(s) as real
    decreases |s|
  {
    if s != [] {
      var init := s[..|s| - 1];
      var x := s[|s| - 1];
      assert forall i :: 0 <= i < |init| ==> init[i] == s[i];
      PointsBelow(init, hi);
      if Included(x) {
        StepBelow(IncludedPoints(init), IncludedCredits(init) as real, x.gpa, x.credits as real, hi);
      }
    }
  }

  /** With at least one semester included, the CGPA lies within any bounds on the included GPAs. */
  lemma CgpaBetween(s: seq<Semester>, lo: real, hi: real)
    requires exists i :: 0 <= i < |s| && Included(s[i])
    requires forall i :: 0 <= i < |s| && Included(s[i]) ==> lo <= s[i].gpa <= hi
    ensures lo <= Cgpa(s) <= hi
  {
    CreditsZeroIffNoneIncluded(s);
    PointsAbove(s, lo);
    PointsBelow(s, hi);
    MeanBetween(IncludedPoints(s), IncludedCredits(s), lo, hi);
  }

  /** An included semester with the lowest GPA among the included ones. */
  lemma {:induction false} LowestIncluded(s: seq<Semester>) returns (k: nat)
    requires exists i :: 0 <= i < |s| && Included(s[i])
    ensures k < |s| && Included(s[k])
    ensures forall i :: 0 <= i < |s| && Included(s[i]) ==> s[k].gpa <= s[i].gpa
    decreases |s|
  {
    var init := s[..|s| - 1];
    assert forall i :: 0 <= i < |init| ==> init[i] == s[i];
    if exists i :: 0 <= i < |init| && Included(init[i]) {
      k := LowestIncluded(init);
      if Included(s[|s| - 1]) && s[|s| - 1].gpa < s[k].gpa {
        k := |s| - 1;
      }
    } else {
      k := |s| - 1;
    }
  }

  /** An included semester with the highest GPA among the included ones. */
  lemma {:induction false} HighestIncluded(s: seq<Semester>) returns (k: nat)
    requires exists i :: 0 <= i < |s| && Included(s[i])
    ensures k < |s| && Included(s[k])
    ensures forall i :: 0 <= i < |s| && Included(s[i]) ==> s[i].gpa <= s[k].gpa
    decreases |s|
  {
    var init := s[..|s| - 1];
    assert forall i :: 0 <= i < |init| ==> init[i] == s[i];
    if exists i :: 0 <= i < |init| && Included(init[i]) {
      k := HighestIncluded(init);
      if Included(s[|s| - 1]) && s[|s| - 1].gpa > s[k].gpa {
        k := |s| - 1;
      }
    } else {
      k := |s| - 1;
    }
  }

  /** With at least one semester included, the CGPA lies between the lowest and the highest included GPA. */
  lemma CgpaWithinIncludedRange(s: seq<Semester>)
    requires exists i :: 0 <= i < |s| && Included(s[i])
    ensures exists lo, hi :: 0 <= lo < |s| && 0 <= hi < |s| && Included(s[lo]) && Included(s[hi])
                            && s[lo].gpa <= Cgpa(s) <= s[hi].gpa
  {
    var lo := LowestIncluded(s);
    var hi := HighestIncluded(s);
    CgpaBetween(s, s[lo].gpa, s[hi].gpa);
  }

  /** The CGPA of the worked example: 3.5 over 15 credits and 3.8 over 12 give 109/30 (3.63 on screen). */
  lemma CgpaWorkedExample()
    ensures Cgpa([Semester(1, "Fall", 3.5, 15), Semester(2, "Spring", 3.8, 12)]) == 109.0 / 30.0
  {
    var s := [Semester(1, "Fall", 3.5, 15), Semester(2, "Spring", 3.8, 12)];
    assert s[..1] == [s[0]];
    assert s[..1][..0] == [];
    assert IncludedPoints(s) == 98.1;
    assert IncludedCredits(s) == 27;
  }

  // ---------------------------------------------------------------------------
  // Properties of the display counters

  /** The "Total Semesters" counter is 0 exactly when no row has a positive GPA; then the CGPA is 0 too. */
  lemma {:induction false} SemesterCounterZero(s: seq<Semester>)
    ensures SemestersWithGpa(s) == 0 <==> forall i :: 0 <= i < |s| ==> s[i].gpa <= 0.0
    ensures SemestersWithGpa(s) == 0 ==> Cgpa(s) == 0.0
    decreases |s|
  {
    if s != [] {
      var init := s[..|s| - 1];
      SemesterCounterZero(init);
      assert forall i :: 0 <= i < |init| ==> init[i] == s[i];
      CreditsZeroIffNoneIncluded(s);
    }
  }

  /** With no negative credits, "Total Credits" is at least the CGPA's denominator, and equal when every row is included. */
  lemma {:induction false} CreditCounterCoversIncluded(s: seq<Semester>)
    requires forall i :: 0 <= i < |s| ==> s[i].credits >= 0
    ensures IncludedCredits(s) <= TotalCredits(s)
    ensures (forall i :: 0 <= i < |s| ==> Included(s[i])) ==> IncludedCredits(s) == TotalCredits(s)
    decreases |s|
  {
    if s != [] {
      var init := s[..|s| - 1];
      assert forall i :: 0 <= i < |init| ==> init[i] == s[i];
      CreditCounterCoversIncluded(init);
    }
  }

  // ---------------------------------------------------------------------------
  // The calculator's state

  /**
   * The calculator: the semester rows, the CGPA on display, and the counter
   * that issues identities. Every edit replaces the row list and then
   * recomputes the CGPA from it.
   */
  class Calculator {
    var semesters: seq<Semester>
    var cgpa: real
    var nextId: nat

    /** Never empty, identities unique and below the counter, CGPA up to date. */
    ghost predicate Valid()
      reads this
    {
      |semesters| >= 1 && UniqueIds(semesters, SemesterId) && IdsBelow(semesters, SemesterId, nextId)
      && cgpa == Cgpa(semesters)
    }

    /** One blank semester with identity 1, and a CGPA of 0. */
    constructor ()
      ensures Valid()
      ensures semesters == [Blank(1)] && cgpa == 0.0 && nextId == 2
    {
      semesters := [Blank(1)];
      nextId := 2;
      cgpa := 0.0;
    }

    /** Append a blank semester with a fresh identity; the CGPA does not move. */
    method AddSemester()
      requires Valid()
      modifies this
      ensures Valid()
      ensures |semesters| == |old(semesters)| + 1
      ensures semesters[..|old(semesters)|] == old(semesters)
      ensures semesters[|old(semesters)|] == Blank(old(nextId))
      ensures !HasId(old(semesters), SemesterId, old(nextId))
      ensures nextId == old(nextId) + 1
      ensures cgpa == old(cgpa)
    {
      AddKeepsIds(semesters, SemesterId, Blank(nextId), nextId);
      AddKeepsCgpa(semesters, nextId);
      semesters := Added(semesters, Blank(nextId));
      nextId := nextId + 1;
      cgpa := CalculateCgpa(semesters);
    }

    /** Remove the semesters with identity `id`, unless only one semester is left. */
    method RemoveSemester(id: nat)
      requires Valid()
      modifies this
      ensures Valid()
      ensures semesters == Removed(old(semesters), SemesterId, id)
      ensures |old(semesters)| == 1 ==> semesters == old(semesters)
      ensures nextId == old(nextId)
    {
      RemoveNeverEmpties(semesters, SemesterId, id);
      FilterKeepsIds(semesters, SemesterId, id, nextId);
      if |semesters| > 1 {
        semesters := Filter(semesters, SemesterId, id);
      }
      cgpa := CalculateCgpa(semesters);
    }

    /** Overwrite one field of the semesters with identity `id`; a rename leaves the CGPA as it was. */
    method UpdateSemester(id: nat, f: Field)
      requires Valid()
      modifies this
      ensures Valid()
      ensures semesters == Updated(old(semesters), SemesterId, id, Edit(f))
      ensures f.SetName? ==> cgpa == old(cgpa)
      ensures nextId == old(nextId)
    {
      if f.SetName? {
        RenameKeepsCgpa(semesters, id, f.name);
      }
      UpdateKeepsIds(semesters, SemesterId, id, Edit(f), nextId);
      semesters := Updated(semesters, SemesterId, id, Edit(f));
      cgpa := CalculateCgpa(semesters);
    }
  }
}
