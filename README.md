# GPA and CGPA calculators: a Dafny model

The application is a browser form with two calculators:

- **Semester GPA calculator** (`src/components/GPASemesterCalculator.tsx`). It keeps a list of course rows, each with a name, credit hours and a letter grade. It shows the credit-weighted mean of the grade points, using a fixed 12-entry letter-grade table.
- **CGPA calculator** (`src/components/CGPACalculator.tsx`). It keeps a list of semester rows, each with a name, a GPA and credit hours. It shows the credit-weighted mean of the semester GPAs, along with two counters: "Total Semesters" and "Total Credits".

Both lists support three edits: add a blank row, remove a row by identity, and update one field of a row by identity. The list is meant never to become empty: removal is ignored while only one row is left. With the counter identities of this model it cannot (`RemoveNeverEmpties`); with the source's clock identities a collision can empty it (see "## Findings"). After every edit the mean is computed again.

The model has five modules, one per file:

| file | module | models |
|---|---|---|
| `grade_table.dfy` | `GradeTable` | the grade enumeration, its table keys, the grade-point table and lookup |
| `record_list.dfy` | `RecordList` | the editable row list both calculators share (add, remove by identity, update by identity), generic in the row type, and its lemmas |
| `weighted_mean.dfy` | `WeightedMean` | the "points / credits, or 0 when there are no credits" reduction shared by both calculators, and its arithmetic lemmas |
| `cgpa_calculator.dfy` | `CgpaCalculator` | semester rows, their field edits, the CGPA loop and its specification, the display counters, and the `Calculator` class holding the state |
| `gpa_semester_calculator.dfy` | `GpaSemesterCalculator` | course rows, their field edits, the GPA loop and its specification, and the `Calculator` class holding the state |

Each calculator is modelled at three levels:

- **List edits are pure functions.** `Added`, `Filter`/`Removed` and `Updated` mirror the array spread, `filter` and `map` of the source. The two components repeat the same three handlers, the same up to names and the blank record each adds. So these functions are written once, in `RecordList`, over any row type and a function that reads a row's identity (`SemesterId`, `CourseId`). Each calculator supplies its own field edit (`Apply`, wrapped as `Edit`).
- **The mean is specified by recursive sums.** `IncludedPoints` and `IncludedCredits` sum over the rows one at a time, and `Cgpa`/`Gpa` is their `Mean`. A `while` loop (`CalculateCgpa`, `CalculateGpa`) follows the source's `forEach` accumulation and is proved equal to that specification.
- **The component state is a `Calculator` class.** Its fields are the row sequence, the displayed mean and an identity counter. Its methods replace the row list and then explicitly recompute the mean; this stands in for the source's `useEffect`. `Valid()` says four things:
  - the list is never empty;
  - identities are unique;
  - identities are below the counter;
  - the displayed mean is current.

Modelling decisions:

- **Identities** are natural numbers issued by a counter. The source uses `Date.now()`. The first row has identity 1, matching the source's `'1'`, and the counter starts at 2.
- **Numbers.** Semester GPAs and grade points are exact `real`s. Credits are `int`: `parseInt(...) || 0` can produce negative values, so the model does not assume they are non-negative. A row only counts towards the mean when its credits are `> 0`, exactly as in the source.
- **Grades.** A course grade is `GradeChoice = Unset | Chosen(Grade)`. `Unset` is the source's empty string. `Chosen` carries one of the twelve table keys, the only values the grade selector can produce (`GPASemesterCalculator.tsx:115-119`).
  - The source only checks that the grade string is non-empty before it looks the grade up in the table. An unknown non-empty string would make the GPA `NaN`; it is not skipped. The model makes such strings unrepresentable rather than claiming they are skipped.
  - A course graded `F` with positive credits is included. It adds to the denominator and lowers a positive GPA.
- **Worked example.** Courses (A, 3 credits) and (B, 1 credit) give (4.0·3 + 3.0·1)/4 = 15/4 = 3.75; `GpaWorkedExample` proves it.

## Model

| member | source | states |
|---|---|---|
| `GradeTable.Key` | src/components/GPASemesterCalculator.tsx:17-22 | each of the twelve grades is named by the key the table stores it under ("A+", "A", "A-", … "F"); distinct grades get distinct keys (`KeyInjective`) |
| `GradeTable.GradePoints` | src/components/GPASemesterCalculator.tsx:17-22 | the grade-point table itself: the same twelve keys with the same values as the source object (A+ and A 4.0, A- 3.7, B+ 3.3, B 3.0, B- 2.7, C+ 2.3, C 2.0, C- 1.7, D+ 1.3, D 1.0, F 0.0) |
| `GradeTable.Points` | src/components/GPASemesterCalculator.tsx:17-22 | the grade points of a grade are its table entry; they lie in [0.0, 4.0]; they equal 4.0 exactly for A+ and A, and 0.0 exactly for F |
| `GradeTable.KeyInTable` | src/components/GPASemesterCalculator.tsx:17-22 | every grade's key has an entry in the table, so a chosen grade never looks up a missing key |
| `GradeTable.KeyInjective` | src/components/GPASemesterCalculator.tsx:17-22 | distinct grades have distinct keys |
| `GradeTable.TableHasTwelveKeys` | src/components/GPASemesterCalculator.tsx:17-22 | the table has exactly 12 keys |
| `GradeTable.EveryKeyIsAGrade` | src/components/GPASemesterCalculator.tsx:115-119 | every table key (every option the selector lists) is the key of one of the twelve grades |
| `GradeTable.TableValuesOnScale` | src/components/GPASemesterCalculator.tsx:17-22 | every value in the table is in [0.0, 4.0] |
| `WeightedMean.Mean` | src/components/CGPACalculator.tsx:55 | the final ternary of both calculators (also GPASemesterCalculator.tsx:63): 0 when the total credits are not positive, otherwise the mean, which times the total credits gives back the total points |
| `WeightedMean.MeanBetween` | src/components/CGPACalculator.tsx:55 | with positive total credits, bounds whose multiples bound the total points also bound `points / credits` |
| `WeightedMean.FewerPointsPerCredit` | src/components/GPASemesterCalculator.tsx:63 | spreading the same non-negative points over more credits never raises the mean, and lowers a positive one |
| `RecordList.Added` | src/components/CGPACalculator.tsx:29 | add yields one more row: the old rows unchanged and in order, then the new row last (the course list's spread is at GPASemesterCalculator.tsx:37) |
| `RecordList.Removed` | src/components/CGPACalculator.tsx:32-36 | remove never lengthens the list; a list of one row (or none) is returned unchanged; a longer list keeps exactly the rows whose identity differs (same guard and filter at GPASemesterCalculator.tsx:40-44) |
| `RecordList.Filter` | src/components/CGPACalculator.tsx:34 | the filtered list is no longer than the input and holds exactly the input's rows whose identity differs from the removed one (the course list filters the same way at GPASemesterCalculator.tsx:42) |
| `RecordList.Updated` | src/components/CGPACalculator.tsx:38-42 | update keeps the length; rows with another identity are unchanged; rows with the identity receive the edit (same handler at GPASemesterCalculator.tsx:46-50) |
| `RecordList.FilterNoMatch` | src/components/CGPACalculator.tsx:34 | filtering by an identity no row carries returns the list unchanged |
| `RecordList.FilterAppend` | src/components/CGPACalculator.tsx:34 | filtering distributes over concatenation, so the surviving rows keep their original order |
| `RecordList.FilterLength` | src/components/CGPACalculator.tsx:32-36 | with unique identities, filtering drops exactly one row if the identity is present and none otherwise |
| `RecordList.FilterKeepsIds` | src/components/CGPACalculator.tsx:32-36 | filtering keeps identities unique and below the counter |
| `RecordList.RemoveNeverEmpties` | src/components/CGPACalculator.tsx:32-36 | with unique identities, remove never empties a non-empty list, and on a single row it changes nothing (same guard at GPASemesterCalculator.tsx:40-44) |
| `RecordList.RemoveUnknownId` | src/components/CGPACalculator.tsx:32-36 | remove with an identity no row carries changes nothing |
| `RecordList.RemoveWithSharedIdEmpties` | src/components/CGPACalculator.tsx:22-36 | if the two rows of a two-row list share an identity, removing it empties the list: the guard alone does not protect the non-empty invariant |
| `RecordList.AddKeepsIds` | src/components/CGPACalculator.tsx:22-30 | appending a row whose identity is the counter's keeps identities unique and below the advanced counter; that identity was not in use |
| `RecordList.AddThenRemove` | src/components/CGPACalculator.tsx:22-36 | removing a freshly appended row, whose identity no other row carries, restores the list exactly |
| `RecordList.UpdateKeepsIds` | src/components/CGPACalculator.tsx:38-42 | an edit that keeps identities keeps every row's identity, keeps them unique and below the counter, and changes nothing when no row carries the identity |
| `CgpaCalculator.Blank` | src/components/CGPACalculator.tsx:23-28 | the row "add" appends carries the given identity and an empty name, and is not included in the CGPA (GPA 0, credits 0) |
| `CgpaCalculator.Included` | src/components/CGPACalculator.tsx:49 | a semester takes part in the CGPA exactly when its GPA and its credits are both positive |
| `CgpaCalculator.IncludedPoints` | src/components/CGPACalculator.tsx:48-53 | the loop's `totalPoints` as a recursive sum: gpa times credits over the included semesters, in list order |
| `CgpaCalculator.IncludedCredits` | src/components/CGPACalculator.tsx:48-53 | the loop's `totalCredits` as a recursive sum of the included semesters' credits; it is never negative |
| `CgpaCalculator.Cgpa` | src/components/CGPACalculator.tsx:44-56 | the CGPA as a function of the rows: `Mean` of the included points and included credits (the specification `CalculateCgpa` is proved against) |
| `CgpaCalculator.Apply` | src/components/CGPACalculator.tsx:40 | a field edit keeps the identity, sets the named field to the new value and leaves the other fields as they were |
| `CgpaCalculator.CalculateCgpa` | src/components/CGPACalculator.tsx:44-56 | the accumulating loop returns the CGPA: included points over included credits, or 0 when no credits are included |
| `CgpaCalculator.SemestersWithGpa` | src/components/CGPACalculator.tsx:151 | the "Total Semesters" counter (rows with a positive GPA) is at most the number of rows |
| `CgpaCalculator.SumsAppend` | src/components/CGPACalculator.tsx:48-53 | the included points and included credits of a concatenation are the sums of those of its parts |
| `CgpaCalculator.SumsPointwise` | src/components/CGPACalculator.tsx:48-53 | lists whose rows contribute the same, row for row, have the same sums |
| `CgpaCalculator.ExcludedSemesterIrrelevant` | src/components/CGPACalculator.tsx:49-52 | a semester without both a positive GPA and positive credits can be inserted anywhere, or removed, without changing the CGPA |
| `CgpaCalculator.AddKeepsCgpa` | src/components/CGPACalculator.tsx:22-56 | adding the blank semester leaves the CGPA unchanged |
| `CgpaCalculator.RenameKeepsCgpa` | src/components/CGPACalculator.tsx:38-56 | editing a semester's name leaves the CGPA unchanged |
| `CgpaCalculator.CreditsZeroIffNoneIncluded` | src/components/CGPACalculator.tsx:48-53 | the included credits are 0 exactly when no semester is included |
| `CgpaCalculator.PointsPositive` | src/components/CGPACalculator.tsx:48-53 | the included points are never negative, and are positive once any semester is included |
| `CgpaCalculator.CgpaZeroIffNoneIncluded` | src/components/CGPACalculator.tsx:44-56 | the CGPA is 0 exactly when no semester has both a positive GPA and positive credits |
| `CgpaCalculator.PointsAbove` | src/components/CGPACalculator.tsx:48-53 | a lower bound on the included GPAs, times the included credits, is at most the included points |
| `CgpaCalculator.PointsBelow` | src/components/CGPACalculator.tsx:48-53 | the included points are at most an upper bound on the included GPAs times the included credits |
| `CgpaCalculator.CgpaBetween` | src/components/CGPACalculator.tsx:44-56 | with a semester included, the CGPA lies within any bounds on the included semesters' GPAs |
| `CgpaCalculator.LowestIncluded` | src/components/CGPACalculator.tsx:48-53 | when a semester is included, some included semester has the lowest included GPA |
| `CgpaCalculator.HighestIncluded` | src/components/CGPACalculator.tsx:48-53 | when a semester is included, some included semester has the highest included GPA |
| `CgpaCalculator.CgpaWithinIncludedRange` | src/components/CGPACalculator.tsx:44-56 | with a semester included, the CGPA lies between the lowest and the highest included GPA |
| `CgpaCalculator.CgpaWorkedExample` | src/components/CGPACalculator.tsx:44-56 | semesters (3.5, 15 credits) and (3.8, 12 credits) give 98.1/27 = 109/30 ≈ 3.63 |
| `CgpaCalculator.TotalCredits` | src/components/CGPACalculator.tsx:155 | the "Total Credits" counter: credits summed over every row, included or not |
| `CgpaCalculator.SemesterCounterZero` | src/components/CGPACalculator.tsx:151 | "Total Semesters" is 0 exactly when no row has a positive GPA, and then the CGPA is 0 |
| `CgpaCalculator.CreditCounterCoversIncluded` | src/components/CGPACalculator.tsx:155 | with no negative credits, "Total Credits" (all rows, included or not) is at least the CGPA's denominator, and equal to it when every row is included |
| `CgpaCalculator.Calculator.constructor` | src/components/CGPACalculator.tsx:17-20 | the calculator starts with one blank semester of identity 1, a CGPA of 0 and the counter at 2, and satisfies the invariant |
| `CgpaCalculator.Calculator.AddSemester` | src/components/CGPACalculator.tsx:22-30 | one blank semester with a fresh identity is appended and earlier rows are unchanged and in order; the counter advances by one; the CGPA does not move; the invariant is kept |
| `CgpaCalculator.Calculator.RemoveSemester` | src/components/CGPACalculator.tsx:32-36 | the new list is `Removed` of the old list and `id`; a single row is never removed; the invariant, non-emptiness included, is kept |
| `CgpaCalculator.Calculator.UpdateSemester` | src/components/CGPACalculator.tsx:38-42 | the new list is `Updated` of the old list, `id` and the edit; a rename leaves the CGPA as it was; the invariant is kept |
| `GpaSemesterCalculator.Blank` | src/components/GPASemesterCalculator.tsx:31-36 | the row "add" appends carries the given identity, an empty name and no grade, and is not included in the GPA |
| `GpaSemesterCalculator.Included` | src/components/GPASemesterCalculator.tsx:57 | a course takes part in the GPA exactly when it has a grade and positive credits; an F counts |
| `GpaSemesterCalculator.IncludedPoints` | src/components/GPASemesterCalculator.tsx:56-61 | the loop's `totalPoints` as a recursive sum: table grade points times credits over the included courses |
| `GpaSemesterCalculator.IncludedCredits` | src/components/GPASemesterCalculator.tsx:56-61 | the loop's `totalCredits` as a recursive sum of the included courses' credits; it is never negative |
| `GpaSemesterCalculator.Gpa` | src/components/GPASemesterCalculator.tsx:52-64 | the GPA as a function of the rows: `Mean` of the included points and included credits (the specification `CalculateGpa` is proved against) |
| `GpaSemesterCalculator.Apply` | src/components/GPASemesterCalculator.tsx:48 | a field edit keeps the identity, sets the named field to the new value and leaves the other fields as they were |
| `GpaSemesterCalculator.CalculateGpa` | src/components/GPASemesterCalculator.tsx:52-64 | the accumulating loop returns the GPA: included grade points over included credits, or 0 when no credits are included |
| `GpaSemesterCalculator.SumsAppend` | src/components/GPASemesterCalculator.tsx:56-61 | the included points and included credits of a concatenation are the sums of those of its parts |
| `GpaSemesterCalculator.SumsPointwise` | src/components/GPASemesterCalculator.tsx:56-61 | lists whose courses contribute the same, course for course, have the same sums |
| `GpaSemesterCalculator.ExcludedCourseIrrelevant` | src/components/GPASemesterCalculator.tsx:57-60 | a course with no grade or without positive credits can be inserted anywhere, or removed, without changing the GPA |
| `GpaSemesterCalculator.AddKeepsGpa` | src/components/GPASemesterCalculator.tsx:30-64 | adding the blank course leaves the GPA unchanged |
| `GpaSemesterCalculator.RenameKeepsGpa` | src/components/GPASemesterCalculator.tsx:46-64 | editing a course's name leaves the GPA unchanged |
| `GpaSemesterCalculator.CreditsZeroIffNoneIncluded` | src/components/GPASemesterCalculator.tsx:56-61 | the included credits are 0 exactly when no course has both a grade and positive credits |
| `GpaSemesterCalculator.PointsZeroIffOnlyFailures` | src/components/GPASemesterCalculator.tsx:56-61 | the included points are never negative, and are 0 exactly when every included course is graded F |
| `GpaSemesterCalculator.GpaZeroIffOnlyFailures` | src/components/GPASemesterCalculator.tsx:52-64 | the GPA is 0 exactly when every included course is graded F, which covers the case where none is included |
| `GpaSemesterCalculator.GpaZeroWhenNoneIncluded` | src/components/GPASemesterCalculator.tsx:63 | the GPA is 0 when no course is included |
| `GpaSemesterCalculator.PointsOnScale` | src/components/GPASemesterCalculator.tsx:56-61 | the included points lie between 0 and 4.0 times the included credits |
| `GpaSemesterCalculator.GpaOnScale` | src/components/GPASemesterCalculator.tsx:52-64 | the GPA always lies in [0.0, 4.0] |
| `GpaSemesterCalculator.FailingCourseLowersGpa` | src/components/GPASemesterCalculator.tsx:57-60 | an F course with positive credits counts wherever it is inserted: it adds nothing to the points and its credits to the denominator, so it never raises the GPA and lowers a positive GPA |
| `GpaSemesterCalculator.GpaWorkedExample` | src/components/GPASemesterCalculator.tsx:17-63 | courses (A, 3 credits) and (B, 1 credit) give (4.0·3 + 3.0·1)/4 = 3.75 |
| `GpaSemesterCalculator.Calculator.constructor` | src/components/GPASemesterCalculator.tsx:25-28 | the calculator starts with one blank course of identity 1, a GPA of 0 and the counter at 2, and satisfies the invariant |
| `GpaSemesterCalculator.Calculator.AddCourse` | src/components/GPASemesterCalculator.tsx:30-38 | one blank course (no name, 0 credits, no grade) with a fresh identity is appended and earlier courses are unchanged and in order; the counter advances by one; the GPA does not move; the invariant is kept |
| `GpaSemesterCalculator.Calculator.RemoveCourse` | src/components/GPASemesterCalculator.tsx:40-44 | the new list is `Removed` of the old list and `id`; a single course is never removed; the invariant, non-emptiness included, is kept |
| `GpaSemesterCalculator.Calculator.UpdateCourse` | src/components/GPASemesterCalculator.tsx:46-50 | the new list is `Updated` of the old list, `id` and the edit; a rename leaves the GPA as it was; the invariant is kept |

## Left out

- All JSX layout, styling and the Button/Input/Select/Card/Label widgets. They are presentation over library components.
- React's `useState`/`useEffect` wiring. It is replaced by the `Calculator` classes, whose methods recompute the mean explicitly at the end of every edit. Stale-closure effects of React state updates are not modelled.
- The `GPACalculator.tsx` tab container and the `Index.tsx` page. They contain layout only.
- `Date.now()` identity generation. It reads the clock and is replaced by a counter; the effect of a clock collision is recorded under "Findings".
- `parseFloat(...) || 0` and `parseInt(...) || 0` input parsing (`CGPACalculator.tsx:94, 110`, `GPASemesterCalculator.tsx:101`). The model takes already-parsed numbers: a `real` GPA and `int` credits.
- The `min`/`max` attributes of the number inputs. They are browser hints that the code never enforces, so the model does not enforce them either.
- `toFixed(2)` display rounding (`CGPACalculator.tsx:145`, `GPASemesterCalculator.tsx:154`). The model computes the exact mean over reals; IEEE double rounding in the sums and the division is not modelled. The bound lemmas (`CgpaBetween`, `CgpaWithinIncludedRange`, `GpaOnScale`) hold in exact arithmetic only: in doubles, three semesters of GPA 0.1 and 1 credit each give 0.30000000000000004 / 3 = 0.10000000000000002, just above the highest included GPA.
- Updating the `id` field. The source's `keyof` type allows it, but the UI never does it, and it would break identity uniqueness. `Field` covers name, GPA/grade and credits only.
- Grade strings outside the table. The source would compute `NaN`; the model's grade type cannot hold them.
- `CgpaCalculator.Calculator.UpdateSemester`, `GpaSemesterCalculator.Calculator.UpdateCourse`: the only mean-related promise in their contracts is the rename case. For other edits the new mean is stated only through `Valid()`: it is the mean of the new list.

## Findings

| source | as written | input that shows it | evidently intended | confidence | as-written member | corrected member |
|---|---|---|---|---|---|---|
| src/components/CGPACalculator.tsx:24 | a new row's identity is `Date.now().toString()`, and remove deletes every row carrying the identity | add twice within the same millisecond (rows `'1'`, `t`, `t`), remove `'1'`, then remove `t`: the guard sees two rows and the list becomes empty | identities are unique, so removal takes away exactly one row and the list never empties | low (needs two adds in one millisecond); not executed | `RecordList.RemoveWithSharedIdEmpties` | `RecordList.RemoveNeverEmpties` |
