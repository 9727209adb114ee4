/**
 * The fixed letter-grade table of the semester GPA calculator: twelve letter
 * grades on a 4.0 scale, looked up by exact key.
 */
module GradeTable {

  /** The twelve letter grades the grade selector offers, in table order. */
  datatype Grade = APlus | A | AMinus | BPlus | B | BMinus | CPlus | C | CMinus | DPlus | D | F

  /** The key under which a grade is stored in the table and shown in the selector. */
  function Key(g: Grade): string
  {
    match g
    case APlus => "A+"
    case A => "A"
    case AMinus => "A-"
    case BPlus => "B+"
    case B => "B"
    case BMinus => "B-"
    case CPlus => "C+"
    case C => "C"
    case CMinus => "C-"
    case DPlus => "D+"
    case D => "D"
    case F => "F"
  }

  /** The grade-point table, keyed by letter grade. */
  const GradePoints: map<string, real> :=
    map[
      "A+" := 4.0, "A" := 4.0, "A-" := 3.7,
      "B+" := 3.3, "B" := 3.0, "B-" := 2.7,
      "C+" := 2.3, "C" := 2.0, "C-" := 1.7,
      "D+" := 1.3, "D" := 1.0, "F" := 0.0
    ]

  /** The grade points of a grade: its entry in the table. */
  function Points(g: Grade): (p: real)
    ensures 0.0 <= p <= 4.0
    ensures p == 4.0 <==> g == APlus || g == A
    ensures p == 0.0 <==> g == F
  {
    assert Key(g) in GradePoints by { KeyInTable(g); }
    GradePoints[Key(g)]
  }

  /** Every grade has an entry in the table. */
  lemma KeyInTable(g: Grade)
    ensures Key(g) in GradePoints
  {
    match g
    case APlus =>
    case A =>
    case AMinus =>
    case BPlus =>
    case B =>
    case BMinus =>
    case CPlus =>
    case C =>
    case CMinus =>
    case DPlus =>
    case D =>
    case F =>
  }

  /** Distinct grades have distinct keys, so no two grades share a table entry. */
  lemma KeyInjective(g: Grade, h: Grade)
    ensures Key(g) == Key(h) ==> g == h
  {
    if Key(g) == Key(h) {
      assert Key(g)[0] == Key(h)[0];
      assert |Key(g)| == |Key(h)|;
      if |Key(g)| == 2 {
        assert Key(g)[1] == Key(h)[1];
      }
    }
  }

  /** The table has exactly twelve keys. */
  lemma TableHasTwelveKeys()
    ensures |GradePoints| == 12
  {
    var m: map<string, real> := map[];
    assert "A+" !in m;
    m := m["A+" := 4.0];
    assert |m| == 1;
    assert "A" !in m;
    m := m["A" := 4.0];
    assert |m| == 2;
    assert "A-" !in m;
    m := m["A-" := 3.7];
    assert |m| == 3;
    assert "B+" !in m;
    m := m["B+" := 3.3];
    assert |m| == 4;
    assert "B" !in m;
    m := m["B" := 3.0];
    assert |m| == 5;
    assert "B-" !in m;
    m := m["B-" := 2.7];
    assert |m| == 6;
    assert "C+" !in m;
    m := m["C+" := 2.3];
    assert |m| == 7;
    assert "C" !in m;
    m := m["C" := 2.0];
    assert |m| == 8;
    assert "C-" !in m;
    m := m["C-" := 1.7];
    assert |m| == 9;
    assert "D+" !in m;
    m := m["D+" := 1.3];
    assert |m| == 10;
    assert "D" !in m;
    m := m["D" := 1.0];
    assert |m| == 11;
    assert "F" !in m;
    m := m["F" := 0.0];
    assert |m| == 12;
    assert m == GradePoints;
  }

  /** Every key of the table is the key of some grade. */
  lemma EveryKeyIsAGrade(k: string)
    requires k in GradePoints
    ensures exists g :: Key(g) == k
  {
    if k == "A+" { assert Key(APlus) == k; }
    else if k == "A" { assert Key(A) == k; }
    else if k == "A-" { assert Key(AMinus) == k; }
    else if k == "B+" { assert Key(BPlus) == k; }
    else if k == "B" { assert Key(B) == k; }
    else if k == "B-" { assert Key(BMinus) == k; }
    else if k == "C+" { assert Key(CPlus) == k; }
    else if k == "C" { assert Key(C) == k; }
    else if k == "C-" { assert Key(CMinus) == k; }
    else if k == "D+" { assert Key(DPlus) == k; }
    else if k == "D" { assert Key(D) == k; }
    else { assert Key(F) == k; }
  }

  /** Every value in the table is on the 4.0 scale. */
  lemma TableValuesOnScale(k: string)
    requires k in GradePoints
    ensures 0.0 <= GradePoints[k] <= 4.0
  {
    EveryKeyIsAGrade(k);
    var g :| Key(g) == k;
    assert GradePoints[k] == Points(g);
  }
}
