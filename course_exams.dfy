/** The course's exam overview: which exams are visible, which are test exams,
    and the student exams of one exam, newest id first. */
module CourseExams {
  import opened Wrappers
  import StableSort

  /** The exam fields the overview reads; dates are instants on one integer clock. */
  datatype Exam = Exam(id: Option<int>, visibleDate: Option<int>, testExam: Option<bool>)

  datatype StudentExam = StudentExam(id: int, exam: Option<Exam>, startedDate: Option<int>)

  /** `isVisible`: the exam has a visible date and it lies strictly before `now`. */
  function IsVisible(exam: Exam, now: int): (visible: bool)
    ensures exam.visibleDate.None? ==> !visible
    ensures exam.visibleDate.Some? ==> (visible <==> exam.visibleDate.value < now)
  {
    if exam.visibleDate.Some? then exam.visibleDate.value < now else false
  }

  /** Once visible, an exam stays visible as the clock moves forward; at its own
      visible date it is not visible yet. */
  lemma VisibilityIsMonotone(exam: Exam, now: int, later: int)
    requires now <= later
    ensures IsVisible(exam, now) ==> IsVisible(exam, later)
    ensures exam.visibleDate.Some? ==> !IsVisible(exam, exam.visibleDate.value)
  {
  }

  /** `isTestExam`: the flag when it is set, false otherwise. */
  function IsTestExam(exam: Exam): (isTest: bool)
    ensures isTest <==> exam.testExam == Some(true)
    ensures exam.testExam.None? ==> !isTest
  {
    match exam.testExam
    case Some(flag) => flag
    case None => false
  }

  /** The filter condition: the student exam belongs to an exam with a truthy
      (present, non-zero) id equal to `examId`, and it has been started. */
  predicate Matches(studentExam: StudentExam, examId: int) {
    && studentExam.exam.Some?
    && studentExam.exam.value.id.Some?
    && studentExam.exam.value.id.value != 0
    && studentExam.startedDate.Some?
    && studentExam.exam.value.id.value == examId
  }

  /** `Array.prototype.filter` with the condition above: the matching student
      exams, in their original order, each as often as it occurs there. */
  function MatchingExams(studentExams: seq<StudentExam>, examId: int): (matching: seq<StudentExam>)
    ensures forall i :: 0 <= i < |matching| ==> Matches(matching[i], examId)
    ensures forall x :: multiset(matching)[x] == if Matches(x, examId) then multiset(studentExams)[x] else 0
    ensures |matching| <= |studentExams|
  {
    if studentExams == [] then []
    else
      var rest := MatchingExams(studentExams[1..], examId);
      assert studentExams == [studentExams[0]] + studentExams[1..];
      if Matches(studentExams[0], examId) then [studentExams[0]] + rest else rest
  }

  /** The comparator: `se1` goes first when its id is larger, ties keep their order. */
  predicate IdAtLeast(a: StudentExam, b: StudentExam) {
    a.id >= b.id
  }

  lemma IdAtLeastIsTotalPreorder()
    ensures StableSort.TotalPreorder(IdAtLeast)
  {
  }

  /** `getStudentExamForExamIdOrderedByIdReverse`: the matching student exams
      sorted by the comparator above. The filter builds a fresh sequence, so the
      stored student exams keep their order. */
  function StudentExamsForExam(studentExams: Option<seq<StudentExam>>, examId: int): seq<StudentExam> {
    if studentExams.None? then [] else StableSort.Sort(MatchingExams(studentExams.value, examId), IdAtLeast)
  }

  /** The result is empty exactly when the student exams have not arrived or
      none of them matches; in particular for exam id 0, which is falsy. */
  lemma StudentExamsForExamEmpty(studentExams: Option<seq<StudentExam>>, examId: int)
    ensures StudentExamsForExam(studentExams, examId) == [] <==>
      studentExams.None? || forall i :: 0 <= i < |studentExams.value| ==> !Matches(studentExams.value[i], examId)
    ensures examId == 0 ==> StudentExamsForExam(studentExams, examId) == []
  {
    if studentExams.Some? {
      var s := studentExams.value;
      var r := StudentExamsForExam(studentExams, examId);
      StudentExamsForExamPermutes(s, examId);
      if r == [] {
        forall i | 0 <= i < |s| ensures !Matches(s[i], examId) {
          assert multiset(s)[s[i]] > 0;
        }
      } else {
        assert multiset(r)[r[0]] > 0;
      }
    }
  }

  /** Exactly the matching student exams are returned, each as often as it occurs
      in the input: none is dropped or added. */
  lemma StudentExamsForExamPermutes(studentExams: seq<StudentExam>, examId: int)
    ensures var r := StudentExamsForExam(Some(studentExams), examId);
      forall x :: multiset(r)[x] == if Matches(x, examId) then multiset(studentExams)[x] else 0
  {
    StableSort.SortPermutes(MatchingExams(studentExams, examId), IdAtLeast);
  }

  /** Every returned student exam is started and belongs to the exam `examId`. */
  lemma StudentExamsForExamMatch(studentExams: seq<StudentExam>, examId: int)
    ensures var r := StudentExamsForExam(Some(studentExams), examId);
      forall i :: 0 <= i < |r| ==>
        r[i].exam.Some? && r[i].exam.value.id == Some(examId) && r[i].startedDate.Some?
  {
    var r := StudentExamsForExam(Some(studentExams), examId);
    StudentExamsForExamPermutes(studentExams, examId);
    forall i | 0 <= i < |r|
      ensures r[i].exam.Some? && r[i].exam.value.id == Some(examId) && r[i].startedDate.Some?
    {
      assert multiset(r)[r[i]] > 0;
    }
  }

  /** The ids are in descending order, and student exams with equal ids keep the
      order the filter gave them. */
  lemma StudentExamsForExamOrdered(studentExams: seq<StudentExam>, examId: int)
    ensures var r := StudentExamsForExam(Some(studentExams), examId);
      && (forall i, j :: 0 <= i < j < |r| ==> r[i].id >= r[j].id)
      && (forall x :: StableSort.Ties(r, x, IdAtLeast)
                      == StableSort.Ties(MatchingExams(studentExams, examId), x, IdAtLeast))
  {
    var matching := MatchingExams(studentExams, examId);
    IdAtLeastIsTotalPreorder();
    StableSort.SortSorts(matching, IdAtLeast);
    forall x ensures StableSort.Ties(StableSort.Sort(matching, IdAtLeast), x, IdAtLeast)
                     == StableSort.Ties(matching, x, IdAtLeast)
    {
      StableSort.SortStable(matching, x, IdAtLeast);
    }
  }
}
