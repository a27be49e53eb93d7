/** The client-side entities the web components read: results with their
    feedback, submissions, programming exercises, participations, and exercise
    hints with their solution entries. Optional properties of the TypeScript
    models are `Option`s; dates are integer timestamps. */
module ClientEntities {
  import opened Wrappers

  datatype AssessmentType = AUTOMATIC | SEMI_AUTOMATIC | MANUAL

  datatype FeedbackType = AUTOMATIC_FEEDBACK | AUTOMATIC_ADAPTED | MANUAL_FEEDBACK | MANUAL_UNREFERENCED

  datatype SubmissionType = MANUAL_SUBMISSION | TIMEOUT | INSTRUCTOR | EXTERNAL | TEST | ILLEGAL

  datatype HintType = TEXT | CODE

  /** One named check of a result; `text` is the test name for automatic feedback. */
  datatype Feedback = Feedback(text: Option<string>, detailText: Option<string>, feedbackType: Option<FeedbackType>)

  datatype Submission = Submission(submissionType: Option<SubmissionType>)

  datatype Result = Result(
    id: int,
    assessmentType: Option<AssessmentType>,
    submission: Option<Submission>,
    feedbacks: Option<seq<Feedback>>)

  /** A location in the solution that a code hint points at. */
  datatype SolutionEntry = SolutionEntry(filePath: string, line: int, code: string)

  /** An exercise hint as the client holds it: an object whose solution-entry
      array is shared by reference, so sorting it changes the hint. */
  class ExerciseHint {
    var id: int
    var hintType: Option<HintType>
    var solutionEntries: array?<SolutionEntry>

    constructor (id: int, hintType: Option<HintType>, solutionEntries: array?<SolutionEntry>)
      ensures this.id == id && this.hintType == hintType && this.solutionEntries == solutionEntries
    {
      this.id := id;
      this.hintType := hintType;
      this.solutionEntries := solutionEntries;
    }
  }

  /** `buildAndTestStudentSubmissionsAfterDueDate` is a date in the source that is
      only tested for presence. */
  datatype ProgrammingExercise = ProgrammingExercise(
    id: int,
    dueDate: Option<int>,
    buildAndTestStudentSubmissionsAfterDueDate: Option<int>,
    assessmentType: Option<AssessmentType>,
    exerciseHints: Option<seq<ExerciseHint>>)

  /** `results[0]` is the latest result by the server's convention. */
  datatype Participation = Participation(
    id: int,
    exercise: Option<ProgrammingExercise>,
    results: Option<seq<Result>>)

  /** `Result.isManualResult`: the result was (semi-)manually assessed. */
  predicate IsManualResult(r: Result) {
    r.assessmentType == Some(MANUAL) || r.assessmentType == Some(SEMI_AUTOMATIC)
  }
}
