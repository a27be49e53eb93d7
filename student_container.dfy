/** The student's code-editor container: what one route-parameter emission does
    to the view state (repository lock, latest result, illegal-submission flag,
    tutor-assessment embargo, exercise hints and the load flags).

    The three server requests of an emission (participation with latest result,
    feedback details of that result, exercise hints) are not issued here: their
    replies are parameters, and the current time is a parameter too. */
module CodeEditorStudentContainer {
  import opened Wrappers
  import opened ClientEntities

  /** The reply of one HTTP request: a body, or an error. */
  datatype Reply<T> = Received(body: T) | HttpError

  /** Why an emission ends in the error callback: a request failed, or a
      TypeError was thrown while reading a property of `undefined`. */
  datatype LoadError = RequestFailed | ExerciseMissing | FeedbacksMissing

  /** The due date is absent or strictly before `now` (`isBefore` is strict). */
  function DueDateHasPassed(exercise: ProgrammingExercise, now: int): (passed: bool)
    ensures exercise.dueDate.None? ==> passed
    ensures exercise.dueDate.Some? ==> (passed <==> exercise.dueDate.value < now)
  {
    exercise.dueDate.None? || exercise.dueDate.value < now
  }

  /** The repository is locked once a due date has passed, unless editing after the
      due date is allowed (no build-and-test date and automatic assessment). */
  function RepositoryIsLocked(exercise: ProgrammingExercise, now: int): (locked: bool)
    ensures exercise.dueDate.None? ==> !locked
    ensures exercise.dueDate.Some? && now <= exercise.dueDate.value ==> !locked
    ensures exercise.dueDate.Some? && exercise.dueDate.value < now ==>
      (!locked <==> exercise.buildAndTestStudentSubmissionsAfterDueDate.None? && exercise.assessmentType == Some(AUTOMATIC))
    ensures locked ==> DueDateHasPassed(exercise, now)
  {
    var dueDateHasPassed := DueDateHasPassed(exercise, now);
    var isEditingAfterDueAllowed :=
      exercise.buildAndTestStudentSubmissionsAfterDueDate.None? && exercise.assessmentType == Some(AUTOMATIC);
    !isEditingAfterDueAllowed && exercise.dueDate.Some? && dueDateHasPassed
  }

  /** `results ? results[0] : undefined`; an empty array gives `undefined` as well. */
  function LatestResult(participation: Participation): (latest: Option<Result>)
    ensures participation.results.None? ==> latest.None?
    ensures participation.results.Some? ==>
      (latest.Some? <==> |participation.results.value| > 0) &&
      (latest.Some? ==> latest.value == participation.results.value[0])
  {
    match participation.results
    case None => None
    case Some(results) => if |results| > 0 then Some(results[0]) else None
  }

  predicate IsIllegalSubmission(latest: Option<Result>) {
    latest.Some? && latest.value.submission.Some? && latest.value.submission.value.submissionType == Some(ILLEGAL)
  }

  predicate HasManualFeedback(feedbacks: seq<Feedback>) {
    exists i :: 0 <= i < |feedbacks| && feedbacks[i].feedbackType == Some(MANUAL_FEEDBACK)
  }

  /** What `checkForTutorAssessment` decides: manual feedback is shown only after
      the due date, for a manual latest result with at least one MANUAL feedback.
      Reading the feedbacks of a manual result that has none throws. */
  function TutorAssessment(latest: Option<Result>, dueDateHasPassed: bool): (r: Outcome<bool, LoadError>)
    ensures r.Fail? <==> latest.Some? && IsManualResult(latest.value) && latest.value.feedbacks.None?
    ensures r.Fail? ==> r.error == FeedbacksMissing
    ensures !dueDateHasPassed ==> r != Ok(true)
    ensures r.Ok? ==>
      (r.value <==> dueDateHasPassed && latest.Some? && IsManualResult(latest.value)
                    && exists f :: f in latest.value.feedbacks.value && f.feedbackType == Some(MANUAL_FEEDBACK))
  {
    if latest.Some? && IsManualResult(latest.value) then
      match latest.value.feedbacks
      case None => Fail(FeedbacksMissing)
      case Some(feedbacks) => Ok(dueDateHasPassed && HasManualFeedback(feedbacks))
    else
      Ok(false)
  }

  /** `loadParticipationWithLatestResult`: the feedback details are attached to
      `results[0]` only, and only when there is a result; when they cannot be
      fetched the participation passes through unchanged. */
  function LoadParticipationWithLatestResult(participationReply: Reply<Participation>, detailsReply: Reply<Option<seq<Feedback>>>)
    : (r: Outcome<Participation, LoadError>)
    ensures r.Fail? <==> participationReply.HttpError?
    ensures r.Fail? ==> r.error == RequestFailed
    ensures r.Ok? ==>
      var p := participationReply.body;
      && r.value.id == p.id
      && r.value.exercise == p.exercise
      && r.value.results.Some? == p.results.Some?
      && (p.results.Some? ==>
            var before, after := p.results.value, r.value.results.value;
            && |after| == |before|
            && (|before| > 0 ==>
                  && after[1..] == before[1..]
                  && after[0] == before[0].(feedbacks := after[0].feedbacks)
                  && after[0].feedbacks == match detailsReply
                                           case HttpError => before[0].feedbacks
                                           case Received(body) => Some(if body.Some? then body.value else [])))
    ensures r.Ok? && (participationReply.body.results.None? || |participationReply.body.results.value| == 0 || detailsReply.HttpError?)
            ==> r.value == participationReply.body
  {
    match participationReply
    case HttpError => Fail(RequestFailed)
    case Received(p) =>
      if p.results.Some? && |p.results.value| > 0 then
        match detailsReply
        case HttpError => Ok(p)
        case Received(body) =>
          var results := p.results.value;
          var details := if body.Some? then body.value else [];
          Ok(p.(results := Some(results[0 := results[0].(feedbacks := Some(details))])))
      else
        Ok(p)
  }

  /** `loadExerciseHints`: the exercise's own hints when it has them (even an empty
      list), otherwise the fetched ones, with a missing body read as no hints. */
  function LoadExerciseHints(exercise: ProgrammingExercise, hintsReply: Reply<Option<seq<ExerciseHint>>>)
    : (r: Outcome<seq<ExerciseHint>, LoadError>)
    ensures exercise.exerciseHints.Some? ==> r == Ok(exercise.exerciseHints.value)
    ensures exercise.exerciseHints.None? ==>
      match hintsReply
      case HttpError => r == Fail(RequestFailed)
      case Received(body) => r == Ok(if body.Some? then body.value else [])
  {
    if exercise.exerciseHints.Some? then Ok(exercise.exerciseHints.value)
    else match hintsReply
      case HttpError => Fail(RequestFailed)
      case Received(body) => Ok(if body.Some? then body.value else [])
  }

  /** Whether an emission ends in the error callback. */
  predicate EmissionFails(participationReply: Reply<Participation>, detailsReply: Reply<Option<seq<Feedback>>>,
                          hintsReply: Reply<Option<seq<ExerciseHint>>>, now: int)
  {
    var loaded := LoadParticipationWithLatestResult(participationReply, detailsReply);
    || loaded.Fail?
    || loaded.value.exercise.None?
    || TutorAssessment(LatestResult(loaded.value), DueDateHasPassed(loaded.value.exercise.value, now)).Fail?
    || LoadExerciseHints(loaded.value.exercise.value, hintsReply).Fail?
  }

  /** The component's view state. */
  class StudentContainer {
    var participation: Option<Participation>
    var exercise: Option<ProgrammingExercise>
    var loadingParticipation: bool
    var participationCouldNotBeFetched: bool
    var repositoryIsLocked: bool
    var latestResult: Option<Result>
    var hasTutorAssessment: bool
    var isIllegalSubmission: bool

    constructor ()
      ensures participation.None? && exercise.None? && latestResult.None?
      ensures !loadingParticipation && !participationCouldNotBeFetched && !repositoryIsLocked
      ensures !hasTutorAssessment && !isIllegalSubmission
    {
      participation, exercise, latestResult := None, None, None;
      loadingParticipation, participationCouldNotBeFetched, repositoryIsLocked := false, false, false;
      hasTutorAssessment, isIllegalSubmission := false, false;
    }

    /** `checkForTutorAssessment`: sets `hasTutorAssessment`, or throws (and leaves
        it as it was) when a manual latest result has no feedbacks. */
    method CheckForTutorAssessment(dueDateHasPassed: bool) returns (r: Outcome<(), LoadError>)
      modifies this`hasTutorAssessment
      ensures var decided := TutorAssessment(latestResult, dueDateHasPassed);
        && (r.Fail? <==> decided.Fail?)
        && (decided.Ok? ==> hasTutorAssessment == decided.value)
        && (decided.Fail? ==> hasTutorAssessment == old(hasTutorAssessment) && r.error == decided.error)
    {
      var isManualResult := false;
      var hasTutorFeedback := false;
      if latestResult.Some? {
        isManualResult := IsManualResult(latestResult.value);
        if isManualResult {
          if latestResult.value.feedbacks.None? {
            return Fail(FeedbacksMissing);
          }
          hasTutorFeedback := HasManualFeedback(latestResult.value.feedbacks.value);
        }
      }
      hasTutorAssessment := dueDateHasPassed && isManualResult && hasTutorFeedback;
      r := Ok(());
    }

    /** One emission of the route parameters, run to completion with the given
        server replies: the `tap` step, then the hints, then the success or the
        error callback. Fields set before a failure keep their new values. */
    method OnParams(participationReply: Reply<Participation>, detailsReply: Reply<Option<seq<Feedback>>>,
                    hintsReply: Reply<Option<seq<ExerciseHint>>>, now: int)
      modifies this
      ensures !loadingParticipation
      ensures participationCouldNotBeFetched == EmissionFails(participationReply, detailsReply, hintsReply, now)
      ensures var loaded := LoadParticipationWithLatestResult(participationReply, detailsReply);
        && (loaded.Fail? ==>
              && participation == old(participation) && exercise == old(exercise)
              && repositoryIsLocked == old(repositoryIsLocked) && latestResult == old(latestResult)
              && isIllegalSubmission == old(isIllegalSubmission) && hasTutorAssessment == old(hasTutorAssessment))
        && (loaded.Ok? && loaded.value.exercise.None? ==>
              && participation == Some(loaded.value) && exercise.None?
              && repositoryIsLocked == old(repositoryIsLocked) && latestResult == old(latestResult)
              && isIllegalSubmission == old(isIllegalSubmission) && hasTutorAssessment == old(hasTutorAssessment))
        && (loaded.Ok? && loaded.value.exercise.Some? ==>
              var ex := loaded.value.exercise.value;
              var tutor := TutorAssessment(LatestResult(loaded.value), DueDateHasPassed(ex, now));
              var hints := LoadExerciseHints(ex, hintsReply);
              && repositoryIsLocked == RepositoryIsLocked(ex, now)
              && latestResult == LatestResult(loaded.value)
              && isIllegalSubmission == IsIllegalSubmission(LatestResult(loaded.value))
              && hasTutorAssessment == (if tutor.Ok? then tutor.value else old(hasTutorAssessment))
              && (tutor.Ok? && hints.Ok? ==>
                    var ex' := ex.(exerciseHints := Some(hints.value));
                    exercise == Some(ex') && participation == Some(loaded.value.(exercise := Some(ex'))))
              && (tutor.Fail? || hints.Fail? ==>
                    exercise == Some(ex) && participation == Some(loaded.value)))
    {
      loadingParticipation := true;
      participationCouldNotBeFetched := false;
      var loaded := LoadParticipationWithLatestResult(participationReply, detailsReply);
      if loaded.Fail? {
        participationCouldNotBeFetched := true;
        loadingParticipation := false;
        return;
      }
      if loaded.value.exercise.None? {
        // the tap throws on reading the due date of an undefined exercise
        participation := Some(loaded.value);
        exercise := None;
        participationCouldNotBeFetched := true;
        loadingParticipation := false;
        return;
      }
      var failed := ShowParticipation(loaded.value, loaded.value.exercise.value, hintsReply, now);
      participationCouldNotBeFetched := failed;
      loadingParticipation := false;
    }

    /** The `tap` step for a participation `p` with the exercise `ex`, then the
        hints and the success callback. Returns whether the emission ends in
        the error callback. */
    method ShowParticipation(p: Participation, ex: ProgrammingExercise,
                             hintsReply: Reply<Option<seq<ExerciseHint>>>, now: int) returns (failed: bool)
      requires p.exercise == Some(ex)
      modifies this`participation, this`exercise, this`repositoryIsLocked, this`latestResult,
               this`isIllegalSubmission, this`hasTutorAssessment
      ensures var tutor := TutorAssessment(LatestResult(p), DueDateHasPassed(ex, now));
        var hints := LoadExerciseHints(ex, hintsReply);
        && failed == (tutor.Fail? || hints.Fail?)
        && repositoryIsLocked == RepositoryIsLocked(ex, now)
        && latestResult == LatestResult(p)
        && isIllegalSubmission == IsIllegalSubmission(LatestResult(p))
        && hasTutorAssessment == (if tutor.Ok? then tutor.value else old(hasTutorAssessment))
        && (tutor.Ok? && hints.Ok? ==>
              var ex' := ex.(exerciseHints := Some(hints.value));
              exercise == Some(ex') && participation == Some(p.(exercise := Some(ex'))))
        && (tutor.Fail? || hints.Fail? ==> exercise == Some(ex) && participation == Some(p))
    {
      participation := Some(p);
      exercise := Some(ex);
      var dueDateHasPassed := DueDateHasPassed(ex, now);
      repositoryIsLocked := RepositoryIsLocked(ex, now);
      latestResult := LatestResult(p);
      isIllegalSubmission := IsIllegalSubmission(latestResult);
      var checked := CheckForTutorAssessment(dueDateHasPassed);
      if checked.Fail? {
        return true;
      }
      // switchMap to the hints, then the subscription callbacks
      var hints := LoadExerciseHints(ex, hintsReply);
      if hints.Fail? {
        return true;
      }
      // `this.exercise` and `participation.exercise` are one object in the source
      var ex' := ex.(exerciseHints := Some(hints.value));
      exercise := Some(ex');
      participation := Some(p.(exercise := Some(ex')));
      failed := false;
    }
  }

  /** A participation whose latest result was manually assessed with MANUAL
      feedback shows it exactly when the due date has passed or there is none. */
  lemma TutorAssessmentEmbargo(exercise: ProgrammingExercise, latest: Result, now: int)
    requires IsManualResult(latest) && latest.feedbacks.Some?
    requires exists f :: f in latest.feedbacks.value && f.feedbackType == Some(MANUAL_FEEDBACK)
    ensures TutorAssessment(Some(latest), DueDateHasPassed(exercise, now))
         == Ok(exercise.dueDate.None? || exercise.dueDate.value < now)
  {
  }
}
