# Artemis: a verified model of six pieces of its core

Artemis is a learning platform for programming exercises. This project models six parts of it in Dafny and proves what each part promises:

- **The student's code-editor container** (`code-editor-student-container.component.ts`), in `student_container.dfy`. It covers:
  - what one route-parameter emission does to the view state;
  - the repository lock rule;
  - the latest result and the illegal-submission flag;
  - the tutor-assessment embargo before the due date;
  - attaching the feedback details to `results[0]`;
  - the exercise hints;
  - the loading and error flags.
- **The task-status badge of the instructions** (`programming-exercise-instruction-task-status.component.ts`), in `task_status.dfy`. It covers:
  - the `tests` setter;
  - `hasTestMessage`;
  - the in-place sort of each code hint's solution entries, by file path and then line;
  - `testMethod`'s map from hints to their sorted entries, including hints that share one array.
- **The course's exam overview** (`course-exams.component.ts`), in `course_exams.dfy`. It covers visibility, the test-exam flag, and the student exams of one exam, filtered and then sorted by descending id.
- **Copying exercise hints** (`ExerciseHintRepository.copyExerciseHints`), in `hint_copy.dfy` and `hint_id_patch.dfy`:
  - Every template hint is cloned and saved with a fresh id.
  - The old-id to new-id map is built.
  - Every old id in the problem statement is rewritten inside `{...}` groups by the regular expression `(\{[^}]*)(<old>)([^}]*})`.
- **Bitbucket repository URLs** (`BitbucketService`), in `bitbucket.dfy`. It covers:
  - the project key and repository slug read from a repository URL;
  - the fork name;
  - the fork's result map;
  - the clone URL and the web URL.

  The URL parsing and rendering of `java.net.URL` is modelled far enough to prove that the built URLs parse back to what they were built from.
- **Jenkins user management** (`JenkinsUserManagementService`), in `jenkins_users.dfy`:
  - the login rule;
  - the guard order of create, update and delete;
  - the group rule that maps course groups to job permissions (instructor beats teaching assistant);
  - re-applying permissions after a removal.

  The Jenkins server is an object holding accounts and permission grants.

The supporting modules are:

- `wrappers.dfy`: `Option` and `Outcome`, where `Fail` stands for a thrown exception.
- `client_entities.dfy`: the TypeScript entities.
- `stable_sort.dfy`: the stable `Array.prototype.sort`, as an insertion sort with a total-preorder comparator.
- `lexicographic.dfy`: the string order that stands in for `localeCompare`.

Where the source changes state in place, the model does too:

- The container and the badge are classes.
- The sort works on the hint's own `array`.
- The hint copy mutates hint, exercise and store objects in loops.
- The Jenkins server is a class with methods.

Each method's contract ties the new state to specification functions, and the properties are proved as lemmas about those functions.

Server replies, the clock, the permission service and the database's id sequence are parameters.

## Model

| member | source | states |
|---|---|---|
| CodeEditorStudentContainer.DueDateHasPassed | src/main/webapp/app/exercises/programming/participate/code-editor-student-container.component.ts:78 | With no due date the due date has passed. Otherwise it has passed exactly when the due date is strictly before now. |
| CodeEditorStudentContainer.RepositoryIsLocked | src/main/webapp/app/exercises/programming/participate/code-editor-student-container.component.ts:78-80 | Never locked without a due date, or before or at it. After it, unlocked exactly when there is no build-and-test date and the assessment is automatic. Locked implies the due date has passed. |
| CodeEditorStudentContainer.LatestResult | src/main/webapp/app/exercises/programming/participate/code-editor-student-container.component.ts:81 | The latest result is `results[0]` when results exist and are non-empty, and absent otherwise. |
| CodeEditorStudentContainer.TutorAssessment | src/main/webapp/app/exercises/programming/participate/code-editor-student-container.component.ts:158-170 | It throws exactly for a manual result without feedbacks. It is never true before the due date. Otherwise it is true exactly for a manual latest result with a MANUAL feedback after the due date. |
| CodeEditorStudentContainer.TutorAssessmentEmbargo | src/main/webapp/app/exercises/programming/participate/code-editor-student-container.component.ts:158-170 | For a manual result with MANUAL feedback, it is shown exactly when there is no due date or the due date is strictly before now. |
| CodeEditorStudentContainer.LoadParticipationWithLatestResult | src/main/webapp/app/exercises/programming/participate/code-editor-student-container.component.ts:126-140 | It fails only when the participation request fails. Details replace the feedbacks of `results[0]` only; a missing body counts as no feedbacks. Everything else is unchanged. A failed details request, or no results, passes the participation through unchanged. |
| CodeEditorStudentContainer.LoadExerciseHints | src/main/webapp/app/exercises/programming/participate/code-editor-student-container.component.ts:115-120 | The exercise's own hints are used when present, even an empty list. Otherwise the fetched hints are used, a missing body counts as none, and a failed request is an error. |
| CodeEditorStudentContainer.StudentContainer.CheckForTutorAssessment | src/main/webapp/app/exercises/programming/participate/code-editor-student-container.component.ts:158-170 | It sets `hasTutorAssessment` to the decision above, or throws and leaves it unchanged. |
| CodeEditorStudentContainer.StudentContainer.OnParams | src/main/webapp/app/exercises/programming/participate/code-editor-student-container.component.ts:65-101 | One emission ends with loading false. The error flag is set exactly when a request fails or a TypeError is thrown. It states every view field after a failure before the tap, a failure inside the tap and a success, including the hints attached to the exercise. |
| CodeEditorStudentContainer.StudentContainer.ShowParticipation | src/main/webapp/app/exercises/programming/participate/code-editor-student-container.component.ts:72-94 | The `tap` step followed by the hints. It sets the lock, the latest result, the illegal flag and the tutor decision from the participation. It attaches the hints only when neither the tutor check nor the hint request fails, and reports exactly those failures. |
| InstructionTaskStatus.FindWithDetail | src/main/webapp/app/exercises/programming/shared/instructions-render/task/programming-exercise-instruction-task-status.component.ts:74 | `find` succeeds exactly when some feedback named `test` has a non-empty detail text, and what it returns is such a feedback. |
| InstructionTaskStatus.SomeTestHasDetail | src/main/webapp/app/exercises/programming/shared/instructions-render/task/programming-exercise-instruction-task-status.component.ts:74 | `some` holds exactly when some test has a feedback of that name with a detail text. |
| InstructionTaskStatus.HasTestMessage | src/main/webapp/app/exercises/programming/shared/instructions-render/task/programming-exercise-instruction-task-status.component.ts:69-75 | It is false without a latest result or feedbacks. Otherwise it holds exactly when some test name equals the text of a feedback with a detail text. |
| InstructionTaskStatus.EntryLeIsTotalPreorder | src/main/webapp/app/exercises/programming/shared/instructions-render/task/programming-exercise-instruction-task-status.component.ts:122-124 | The comparator (file path, then line) is total and transitive, so the sort is well defined. |
| InstructionTaskStatus.SortedEntriesSpec | src/main/webapp/app/exercises/programming/shared/instructions-render/task/programming-exercise-instruction-task-status.component.ts:122-124 | The sorted entries are ordered by path and then line, and are a permutation of the input. Ties keep their input order. Sorting again changes nothing. |
| InstructionTaskStatus.SortedEntriesIdempotent | src/main/webapp/app/exercises/programming/shared/instructions-render/task/programming-exercise-instruction-task-status.component.ts:122-124 | A second sort leaves the entries as they are. |
| InstructionTaskStatus.SortEntriesInPlace | src/main/webapp/app/exercises/programming/shared/instructions-render/task/programming-exercise-instruction-task-status.component.ts:122 | The array ends up holding the sorted entries of what it held. |
| InstructionTaskStatus.TaskStatus.SetTests | src/main/webapp/app/exercises/programming/shared/instructions-render/task/programming-exercise-instruction-task-status.component.ts:51-62 | The tests are stored, the four fields are copied from the test-status service, and `hasMessage` is recomputed for the new tests. |
| InstructionTaskStatus.TaskStatus.GetSortedSolutionEntriesForCodeHint | src/main/webapp/app/exercises/programming/shared/instructions-render/task/programming-exercise-instruction-task-status.component.ts:116-126 | A non-code hint, or one without entries, gets a fresh empty array. A code hint gets its own array back, sorted in place. |
| InstructionTaskStatus.TaskStatus.SortHintEntries | src/main/webapp/app/exercises/programming/shared/instructions-render/task/programming-exercise-instruction-task-status.component.ts:112 | One iteration of the loop: the hint's array ends up sorted, whether it was sorted already by a hint that shares it or not. |
| InstructionTaskStatus.TaskStatus.SortAllHints | src/main/webapp/app/exercises/programming/shared/instructions-render/task/programming-exercise-instruction-task-status.component.ts:111-113 | Every hint becomes a key, mapped to its sorted entries, and every code array ends sorted. |
| InstructionTaskStatus.TaskStatus.TestMethod | src/main/webapp/app/exercises/programming/shared/instructions-render/task/programming-exercise-instruction-task-status.component.ts:110-114 | The keys are exactly the given hints. Each maps to the sort of its original entries, or to nothing for a non-code hint, which is what the hint then shows. Each code array ends sorted. |
| LexicographicOrder.LessTrichotomy | src/main/webapp/app/exercises/programming/shared/instructions-render/task/programming-exercise-instruction-task-status.component.ts:123 | Of two different paths, one comes first. |
| LexicographicOrder.LessTransitive | src/main/webapp/app/exercises/programming/shared/instructions-render/task/programming-exercise-instruction-task-status.component.ts:123 | The path order is transitive. |
| StableSort.SortPermutes | src/main/webapp/app/overview/course-exams/course-exams.component.ts:98-106 | The sort returns a permutation of its input. |
| StableSort.SortSorts | src/main/webapp/app/overview/course-exams/course-exams.component.ts:98-106 | Under a total preorder, the sort's output is sorted. |
| StableSort.SortStable | src/main/webapp/app/overview/course-exams/course-exams.component.ts:98-106 | Elements the comparator ties keep their relative order. |
| StableSort.SortIdempotent | src/main/webapp/app/exercises/programming/shared/instructions-render/task/programming-exercise-instruction-task-status.component.ts:122-124 | Sorting a sorted sequence again gives it back. |
| CourseExams.IsVisible | src/main/webapp/app/overview/course-exams/course-exams.component.ts:74-76 | An exam without a visible date is not visible. Otherwise it is visible exactly when its visible date is strictly before now. |
| CourseExams.VisibilityIsMonotone | src/main/webapp/app/overview/course-exams/course-exams.component.ts:74-76 | A visible exam stays visible later, and it is not yet visible at its own visible date. |
| CourseExams.IsTestExam | src/main/webapp/app/overview/course-exams/course-exams.component.ts:82-84 | It is a test exam exactly when the flag is set to true. An absent flag means no. |
| CourseExams.MatchingExams | src/main/webapp/app/overview/course-exams/course-exams.component.ts:94-97 | The filter keeps exactly the matching student exams, as often as they occur, and only matching ones. |
| CourseExams.StudentExamsForExamEmpty | src/main/webapp/app/overview/course-exams/course-exams.component.ts:90-107 | The result is empty exactly when the student exams have not arrived or none matches. Exam id 0 always gives nothing. |
| CourseExams.StudentExamsForExamPermutes | src/main/webapp/app/overview/course-exams/course-exams.component.ts:90-107 | The result holds exactly the matching student exams, each with its multiplicity. |
| CourseExams.StudentExamsForExamMatch | src/main/webapp/app/overview/course-exams/course-exams.component.ts:94-97 | Every returned student exam was started and belongs to the exam asked for. |
| CourseExams.StudentExamsForExamOrdered | src/main/webapp/app/overview/course-exams/course-exams.component.ts:98-106 | The ids descend, and equal ids keep the filter's order. |
| ExerciseHintRepository.HintStore.Save | src/main/java/de/tum/in/www1/artemis/repository/hestia/ExerciseHintRepository.java:80 | The hint gets the next id, the sequence advances, and nothing else about the hint changes. |
| ExerciseHintRepository.CopyHint | src/main/java/de/tum/in/www1/artemis/repository/hestia/ExerciseHintRepository.java:69-82 | It returns a fresh hint of the same kind, with the same title and content, attached to the target, with no solution entries, saved with the next id. |
| ExerciseHintRepository.IdMappingKeys | src/main/java/de/tum/in/www1/artemis/repository/hestia/ExerciseHintRepository.java:81 | The map has one key per distinct old id. |
| ExerciseHintRepository.IdMappingLast | src/main/java/de/tum/in/www1/artemis/repository/hestia/ExerciseHintRepository.java:81 | An old id maps to the new id of its last `put`: a later hint with the same id overwrites the earlier one. |
| ExerciseHintRepository.IdMappingInjective | src/main/java/de/tum/in/www1/artemis/repository/hestia/ExerciseHintRepository.java:80-81 | Different old ids map to different new ids. |
| ExerciseHintRepository.Enumerate | src/main/java/de/tum/in/www1/artemis/repository/hestia/ExerciseHintRepository.java:68 | The stream visits every hint of the set exactly once. |
| ExerciseHintRepository.CopyAll | src/main/java/de/tum/in/www1/artemis/repository/hestia/ExerciseHintRepository.java:68-83 | The i-th visited hint is copied to the i-th fresh copy, with consecutive new ids. The copies are collected, and the map is the fold of the `put`s. |
| ExerciseHintRepository.PatchAll | src/main/java/de/tum/in/www1/artemis/repository/hestia/ExerciseHintRepository.java:85-91 | Every key of the map is rewritten once, in some order, and the result is the patch function of that order. |
| ExerciseHintRepository.CopyHintsTo | src/main/java/de/tum/in/www1/artemis/repository/hestia/ExerciseHintRepository.java:66-83 | The target's hints are exactly the fresh copies, as many as the template hints, and the map is the fold of old id to new id. |
| ExerciseHintRepository.PatchProblemStatement | src/main/java/de/tum/in/www1/artemis/repository/hestia/ExerciseHintRepository.java:85-92 | The statement is the patch over an order listing each key once. Text outside groups is unchanged, and a statement without `{` is unchanged. |
| ExerciseHintRepository.CopyExerciseHints | src/main/java/de/tum/in/www1/artemis/repository/hestia/ExerciseHintRepository.java:65-94 | Both steps together. The template hints are unchanged. |
| ExerciseHintRepository.CopyOfEachKey | src/main/java/de/tum/in/www1/artemis/repository/hestia/ExerciseHintRepository.java:81-93 | The returned map's keys are exactly the template hints' ids. Each maps to the id of the copy of the last hint visited with that id. |
| ExerciseHintRepository.CopiesCounted | src/main/java/de/tum/in/www1/artemis/repository/hestia/ExerciseHintRepository.java:68-83 | `Collectors.toSet` loses no copy: there are as many copies as template hints. |
| HintIdPatch.DigitsRoundTrip | src/main/java/de/tum/in/www1/artemis/repository/hestia/ExerciseHintRepository.java:89-90 | Reading the decimal digits of a number gives the number back. |
| HintIdPatch.IdStringRoundTrip | src/main/java/de/tum/in/www1/artemis/repository/hestia/ExerciseHintRepository.java:89-90 | An id written as `Long.toString` writes it reads back as that id. |
| HintIdPatch.IdStringInjective | src/main/java/de/tum/in/www1/artemis/repository/hestia/ExerciseHintRepository.java:89-90 | Different ids are written differently. |
| HintIdPatch.FirstCloseSpec | src/main/java/de/tum/in/www1/artemis/repository/hestia/ExerciseHintRepository.java:90 | `[^}]*}` stops at the first `}`, and finds none only when there is none. |
| HintIdPatch.LastOccurrenceSpec | src/main/java/de/tum/in/www1/artemis/repository/hestia/ExerciseHintRepository.java:90 | The greedy `[^}]*` before the id leaves the last occurrence of the id in the group. |
| HintIdPatch.GroupMatch | src/main/java/de/tum/in/www1/artemis/repository/hestia/ExerciseHintRepository.java:90 | A match spans a `{` up to the first `}`, holding the old id at its last occurrence there. |
| HintIdPatch.NoOpenUnchanged | src/main/java/de/tum/in/www1/artemis/repository/hestia/ExerciseHintRepository.java:90 | A string without `{` is not rewritten. |
| HintIdPatch.NoCloseUnchanged | src/main/java/de/tum/in/www1/artemis/repository/hestia/ExerciseHintRepository.java:90 | A string without `}` is not rewritten. |
| HintIdPatch.UntouchedGroup | src/main/java/de/tum/in/www1/artemis/repository/hestia/ExerciseHintRepository.java:90 | A group without the old id is copied whole. |
| HintIdPatch.ReplaceLastInGroup | src/main/java/de/tum/in/www1/artemis/repository/hestia/ExerciseHintRepository.java:89-90 | In `{a old b}`, with no later occurrence of the old id, the group becomes `{a new b}` and the search resumes after it. |
| HintIdPatch.ReplaceGroupsKeepsOutside | src/main/java/de/tum/in/www1/artemis/repository/hestia/ExerciseHintRepository.java:90 | One `replaceAll` never changes the text outside groups when the new id holds no `}`. |
| HintIdPatch.ReplaceMatchesInsideLongerIds | src/main/java/de/tum/in/www1/artemis/repository/hestia/ExerciseHintRepository.java:90 | The pattern has no digit boundary: in `{1,11}`, moving id 1 to 7 gives `{1,17}`. |
| HintIdPatch.PatchKeepsOutside | src/main/java/de/tum/in/www1/artemis/repository/hestia/ExerciseHintRepository.java:85-91 | However many ids are rewritten, in any order, the text outside groups stays the same. |
| HintIdPatch.PatchWithoutGroupsUnchanged | src/main/java/de/tum/in/www1/artemis/repository/hestia/ExerciseHintRepository.java:85-91 | A statement without `{` comes out unchanged. |
| HintIdPatch.ChainedReplacement | src/main/java/de/tum/in/www1/artemis/repository/hestia/ExerciseHintRepository.java:85-91 | As written, when the new id of `a` ends with the old id of `b` and `a` is rewritten first, the group `{a}` ends up holding neither new id. |
| HintIdPatch.ChainedReplacementExample | src/main/java/de/tum/in/www1/artemis/repository/hestia/ExerciseHintRepository.java:85-91 | With hints 1 and 2 moving to 12 and 13, and id 1 rewritten first, `{1}` becomes `{113}`. |
| HintIdPatch.RewriteTokensOfIdList | src/main/java/de/tum/in/www1/artemis/repository/hestia/ExerciseHintRepository.java:57-59 | Rewriting a `,`-separated list of ids whole replaces every listed id that has a new id by that new id and keeps the others. |
| HintIdPatch.PatchIdsOnceGroup | src/main/java/de/tum/in/www1/artemis/repository/hestia/ExerciseHintRepository.java:57-59 | The one-pass rewrite turns a group listing ids into the group listing each id's new id, then goes on after the group. |
| HintIdPatch.PatchIdsOnceKeepsOutside | src/main/java/de/tum/in/www1/artemis/repository/hestia/ExerciseHintRepository.java:57-59 | The one-pass rewrite never changes the text outside the groups. |
| HintIdPatch.OnePassExample | src/main/java/de/tum/in/www1/artemis/repository/hestia/ExerciseHintRepository.java:57-59 | Rewritten in one pass, `{1}` with hints 1 and 2 moving to 12 and 13 becomes `{12}`. |
| BitbucketService.JoinPieces | src/main/java/de/tum/in/www1/exerciseapp/service/BitbucketService.java:72 | Splitting a join of separator-free parts gives the parts back. |
| BitbucketService.PiecesJoin | src/main/java/de/tum/in/www1/exerciseapp/service/BitbucketService.java:72 | Joining the pieces of a split gives the string back. |
| BitbucketService.JavaSplitPieces | src/main/java/de/tum/in/www1/exerciseapp/service/BitbucketService.java:70-82 | `String.split` with a separator in the string gives the pieces without the trailing empty ones. Without the separator it gives the whole string. |
| BitbucketService.SplitJoined | src/main/java/de/tum/in/www1/exerciseapp/service/BitbucketService.java:70-82 | Splitting a join of two or more separator-free parts, the last one non-empty, gives them back. |
| BitbucketService.UrlRoundTrip | src/main/java/de/tum/in/www1/exerciseapp/service/BitbucketService.java:174-182 | A well-formed URL parses back from its external form. |
| BitbucketService.StripGitRemovesOneSuffix | src/main/java/de/tum/in/www1/exerciseapp/service/BitbucketService.java:78-80 | Exactly one trailing `.git` is removed when there is one. Otherwise the slug is unchanged. |
| BitbucketService.StripGitAppended | src/main/java/de/tum/in/www1/exerciseapp/service/BitbucketService.java:78-80 | Removing `.git` undoes appending it. |
| BitbucketService.StripGitOnlyOnce | src/main/java/de/tum/in/www1/exerciseapp/service/BitbucketService.java:78-80 | Only one suffix goes: `x.git.git` gives `x.git`. |
| BitbucketService.SplitForkNameRoundTrip | src/main/java/de/tum/in/www1/exerciseapp/service/BitbucketService.java:93 | With a username without `-`, the fork name splits back at its last `-` into slug and username. |
| BitbucketService.ForkNameUnique | src/main/java/de/tum/in/www1/exerciseapp/service/BitbucketService.java:93 | With usernames without `-`, different slug and username pairs give different fork names. |
| BitbucketService.ForkNameCollision | src/main/java/de/tum/in/www1/exerciseapp/service/BitbucketService.java:93 | Without that condition names collide: `a-b` with `c` and `a` with `b-c` give the same fork name. |
| BitbucketService.BuildCloneUrlParses | src/main/java/de/tum/in/www1/exerciseapp/service/BitbucketService.java:174-182 | For a server URL and plain names, the clone URL text parses, to the user in front of the server's authority and `/scm/<key>/<slug>.git` after its path. |
| BitbucketService.CloneUrlKeyAndSlug | src/main/java/de/tum/in/www1/exerciseapp/service/BitbucketService.java:70-82 | With no base path, the key and slug read from a clone URL are the ones it was built from. |
| BitbucketService.CloneUrlKeyUnderBasePath | src/main/java/de/tum/in/www1/exerciseapp/service/BitbucketService.java:70-82 | Under a one-segment base path, the key is read as `scm` and the slug as the project key. |
| BitbucketService.KeyMisreadExample | src/main/java/de/tum/in/www1/exerciseapp/service/BitbucketService.java:70-73 | Under `https://host/bitbucket`, the clone URL of `KEY`/`repo-ab12` yields the key `scm`. |
| BitbucketService.CloneUrlKeyAndSlugUnderBase | src/main/java/de/tum/in/www1/exerciseapp/service/BitbucketService.java:70-82 | Read after the server's base path, the key and slug of a clone URL are the ones it was built from, whatever the base path. |
| BitbucketService.UnderBaseAgreesWithoutBasePath | src/main/java/de/tum/in/www1/exerciseapp/service/BitbucketService.java:70-82 | Without a base path, the corrected reading and the code as written agree on every URL. |
| BitbucketService.ForkRepositoryOutcomes | src/main/java/de/tum/in/www1/exerciseapp/service/BitbucketService.java:92-131 | The fork succeeds exactly on CREATED or CONFLICT, with the clone URL of the fork name. The slug is the answer's on CREATED and the fork name on CONFLICT. It fails exactly on another client error, which is rethrown, or on any other exception. |
| BitbucketService.CopyWithFork | src/main/java/de/tum/in/www1/exerciseapp/service/BitbucketService.java:38-46 | Once the key and the slug are read, a fork that is created or already exists gives the parsed clone URL of the fork name in the same project. |
| BitbucketService.CopyRepositoryOfClone | src/main/java/de/tum/in/www1/exerciseapp/service/BitbucketService.java:38-46 | Without a base path, copying the repository behind a clone URL gives the fork's clone URL in the same project. The key and the fork name read back from it. |
| BitbucketService.CopyRepositoryUnderBasePath | src/main/java/de/tum/in/www1/exerciseapp/service/BitbucketService.java:38-46 | As written, under a one-segment base path, copying the repository behind a clone URL forks project `scm`, under a fork name made from the project key. |
| BitbucketService.CopyRepositoryUnderBaseOfClone | src/main/java/de/tum/in/www1/exerciseapp/service/BitbucketService.java:38-46 | With the key and slug read after the base path, copying gives the fork's clone URL in the same project, whatever the base path. |
| BitbucketService.CopyRepositoryFailures | src/main/java/de/tum/in/www1/exerciseapp/service/BitbucketService.java:38-46 | Copying fails with the key's failure, then the slug's. Once both are read, it fails with the fork's client error, with its `BitbucketException`, or with a null pointer when the fork gives `null`. |
| BitbucketService.WebUrlWithParses | src/main/java/de/tum/in/www1/exerciseapp/service/BitbucketService.java:59-68 | For a server URL without query or fragment and plain names, the web URL text parses to the browse page under the server's path. |
| BitbucketService.RepositoryWebUrlOfClone | src/main/java/de/tum/in/www1/exerciseapp/service/BitbucketService.java:59-68 | Without a base path, the web URL of a clone URL is the server URL followed by `/projects/<key>/repos/<slug>/browse`. |
| BitbucketService.RepositoryWebUrlUnderBasePath | src/main/java/de/tum/in/www1/exerciseapp/service/BitbucketService.java:59-68 | As written, under a one-segment base path, the web URL of a clone URL is the browse page of project `scm` and a repository named after the project key. |
| BitbucketService.RepositoryWebUrlUnderBaseOfClone | src/main/java/de/tum/in/www1/exerciseapp/service/BitbucketService.java:59-68 | With the key and slug read after the base path, the web URL of a clone URL is its browse page, whatever the base path. |
| BitbucketService.RepositoryWebUrlFailures | src/main/java/de/tum/in/www1/exerciseapp/service/BitbucketService.java:59-68 | The web URL fails with the key's failure, then the slug's. Once both are read it never fails: an unparsable text gives the server URL. |
| JenkinsUserManagement.IsUserLoginLegal | src/main/java/de/tum/in/www1/artemis/service/connectors/jenkins/JenkinsUserManagementService.java:347-350 | A login is legal exactly when every character is an ASCII letter, a digit, `_` or `-`. The empty login is legal. |
| JenkinsUserManagement.RoleForRule | src/main/java/de/tum/in/www1/artemis/service/connectors/jenkins/JenkinsUserManagementService.java:152-172 | The role is instructor exactly when the instructor group is present. It is teaching assistant exactly when that group is absent and the teaching-assistant group is present. Otherwise there is none. |
| JenkinsUserManagement.ExercisesInGroups | src/main/java/de/tum/in/www1/artemis/service/connectors/jenkins/JenkinsUserManagementService.java:145 | The query returns exactly the exercises whose instructor or teaching-assistant group is given. |
| JenkinsUserManagement.AssignedMembers | src/main/java/de/tum/in/www1/artemis/service/connectors/jenkins/JenkinsUserManagementService.java:146-173 | The grants the loop gives are exactly those for the user on an exercise's job with a permission of the role the rule picks there. |
| JenkinsUserManagement.HoldsRolePermissions | src/main/java/de/tum/in/www1/artemis/service/connectors/jenkins/JenkinsUserManagementService.java:144-174 | After adding, the user holds every permission of its role on the job of every exercise of the groups. |
| JenkinsUserManagement.AssignedOnlyForLogin | src/main/java/de/tum/in/www1/artemis/service/connectors/jenkins/JenkinsUserManagementService.java:144-174 | Adding grants only to that user, and only on jobs of exercises of the groups. |
| JenkinsUserManagement.ReappliedAfterRemoval | src/main/java/de/tum/in/www1/artemis/service/connectors/jenkins/JenkinsUserManagementService.java:215-218 | After a removal the user still holds every permission its own groups give it: a teaching assistant who loses an instructor group keeps the teaching-assistant permissions. |
| JenkinsUserManagement.RemovalRevokes | src/main/java/de/tum/in/www1/artemis/service/connectors/jenkins/JenkinsUserManagementService.java:184-219 | A removed permission is gone unless an exercise with the same job gives it back through the user's own groups. |
| JenkinsUserManagement.RemovalKeepsOtherLogins | src/main/java/de/tum/in/www1/artemis/service/connectors/jenkins/JenkinsUserManagementService.java:184-219 | Other users' grants are untouched by a removal. |
| JenkinsUserManagement.JenkinsServer.GetUser | src/main/java/de/tum/in/www1/artemis/service/connectors/jenkins/JenkinsUserManagementService.java:324-338 | A 404 reads as absent. Any other client error throws a `JenkinsException` with the source's message. Any other failure of the request passes through unwrapped. Otherwise the lookup finds exactly the existing accounts. |
| JenkinsUserManagement.JenkinsServer.AddUserToGroups | src/main/java/de/tum/in/www1/artemis/service/connectors/jenkins/JenkinsUserManagementService.java:144-174 | The grants grow by exactly the rule's grants for the groups. |
| JenkinsUserManagement.JenkinsServer.RemoveUserFromGroups | src/main/java/de/tum/in/www1/artemis/service/connectors/jenkins/JenkinsUserManagementService.java:184-219 | The rule's grants for the groups are revoked, then the rule is applied again for the user's own groups. |
| JenkinsUserManagement.JenkinsServer.CreateUser | src/main/java/de/tum/in/www1/artemis/service/connectors/jenkins/JenkinsUserManagementService.java:68-90 | The existing-login check comes before the legality check, then the request; each failure leaves the server unchanged. On success the account exists and the user's groups are applied. |
| JenkinsUserManagement.JenkinsServer.DeleteUser | src/main/java/de/tum/in/www1/artemis/service/connectors/jenkins/JenkinsUserManagementService.java:120-133 | A missing login changes nothing and is no error. Otherwise the account goes unless the request fails. Grants stay either way. |
| JenkinsUserManagement.JenkinsServer.UpdateUser | src/main/java/de/tum/in/www1/artemis/service/connectors/jenkins/JenkinsUserManagementService.java:239-253 | A missing login fails, and so does a failed request. Otherwise the account takes the user's profile. |
| JenkinsUserManagement.JenkinsServer.UpdateOrCreateUser | src/main/java/de/tum/in/www1/artemis/service/connectors/jenkins/JenkinsUserManagementService.java:222-229 | It creates the account exactly when the lookup finds none, and updates it otherwise. It succeeds exactly when the lookup succeeds, the login exists or is legal, and the request succeeds. Every failure carries the message of the step that failed and leaves accounts and grants unchanged. |
| JenkinsUserManagement.JenkinsServer.UpdateUserAndGroups | src/main/java/de/tum/in/www1/artemis/service/connectors/jenkins/JenkinsUserManagementService.java:256-260 | Update, then add, then remove. A failed update stops it with nothing changed. |

## Left out

- Asynchronous plumbing (RxJS subscriptions, `switchMap`, `Observable` errors) is not modelled. One emission runs to completion, and the three server replies and the current time are parameters.
- Modals and the guided tour (`showDetailsForTests`, `openHintsModal`, `enableTourForExercise`) are UI plumbing without state the model tracks.
- `testStatusForTask` of the instruction service is not part of this model. It is a function parameter of the `tests` setter.
- InstructionTaskStatus.EntryLeIsTotalPreorder: a solution entry always has a file path and a line. The comparator's optional fields are not modelled:
  - an undefined `a.filePath` compares by line only;
  - an undefined `b.filePath` is compared as the string `"undefined"`;
  - an undefined line gives `NaN`, which the sort treats as equal.
- `localeCompare` is locale-sensitive. The model orders file paths by plain lexicographic character order instead.
- `Result.isManualResult` is not part of this model. It is taken as "the assessment is MANUAL or SEMI_AUTOMATIC".
- Dates are integer instants on one clock, with no dayjs/moment parsing.
- CourseExams.StudentExamsForExamOrdered: the model assumes every student exam has an id. The `!` in the comparator is not checked at run time. An undefined id makes both comparisons false, so the comparator returns 0 against every other exam while still ordering the others. Such a comparator is inconsistent, and the resulting order is then implementation-defined.
- CodeEditorStudentContainer.StudentContainer.OnParams: the call `domainService.setDomain` (line 73) is not modelled. The domain service is not part of this model.
- CodeEditorStudentContainer.StudentContainer.OnParams: TypeErrors are modelled only for a missing exercise and for a manual result without feedbacks. Other `undefined` reads follow the entity types.
- The database and JPA `save` are not modelled. `save` is an id sequence that gives each saved hint the next id.
- ExerciseHintRepository.CopyExerciseHints: it requires every template hint to have an id. A `null` key would behave differently in the `HashMap` and in the pattern.
- ExerciseHintRepository.CopyExerciseHints: the problem statement is taken as non-null, and `null` titles or contents are not modelled.
- The iteration order of `HashSet` and `HashMap` is unknown. The stream's order and the map's key order are arbitrary listings, returned as ghost results, and every property holds for all of them.
- The persistence of the target exercise after the copy is not part of this model.
- `java.net.URL` is modelled far enough for the URLs the service builds and reads: protocol, authority, path, query and fragment. The following are not modelled:
  - trimming of whitespace;
  - the protocol-handler lookup;
  - port validation;
  - splitting user info from host;
  - the `jar:` and `file:` special cases;
  - context URLs.

  Protocol letters are ASCII only.
- `participation.getRepositoryUrlAsUrl()` is not modelled. The web URL takes the repository URL directly.
- BitbucketService: a `null` body of the fork response is not modelled, and neither is a missing `slug` in it.
- BitbucketService: `configureRepository`, `deleteRepository`, `giveWritePermission` and `deleteRepositoryImpl` are REST calls with no decision logic beyond the key and slug reading that is modelled. Headers and credentials are not modelled.
- BitbucketService.RepositoryWebUrlOfClone: it is stated for server URLs with an authority, without a base path, and without query or fragment. Under a one-segment base path, RepositoryWebUrlUnderBasePath states what the code does instead.
- BitbucketService.CopyRepositoryOfClone: it is stated for servers without a base path. Under a one-segment base path, CopyRepositoryUnderBasePath states what the code does instead.
- BitbucketService.BuildCloneUrlParses: it is stated for server URLs with a non-empty authority. No property is proved of the clone URL text of a server without one.
- BitbucketService.AuthorityText: the `Url` datatype does not tell an absent authority from an empty one. Both are the empty string.
  - In `java.net.URL`, only a URL without `//` (such as `https:/x`) has a `null` authority, which `buildCloneUrl` writes as `null`.
  - A URL with `//` and nothing before the next `/` (such as `https:///x`) has the empty authority, which it writes as nothing.
  - `AuthorityText` writes `null` for both, so the model gets the clone URL text wrong for an empty authority.
- Error messages of `HttpClientErrorException` and of logging are not modelled. Only their statuses are kept.
- JenkinsJobPermissionsService is not part of this model. The permissions of each role are a parameter of the server, and assigning or revoking a role adds or removes that role's permissions on the job.
- JenkinsUserManagement.JenkinsServer.CreateUser: an `IOException` of the permission service while groups are applied is not modelled, and neither are errors of `addUserToGroups` and `removeUserFromGroups`.
- Jenkins: the form and JSON bodies (`getCreateUserFormHttpEntity`, `getUpdateUserJson`) and password decryption are not modelled. An account stores the user's name, email and clear password.
- Jenkins: a failed lookup is either a client error, with its status, or some other failure of the request. The message and cause of the passed-on `RestClientException` are not modelled.
- Jenkins: each call's lookups share one `Reply`, so the lookups inside `updateOrCreateUser` see the same server answer.

## Findings

| source | as written | input that shows it | evidently intended | confidence | as-written member | corrected member |
|---|---|---|---|---|---|---|
| src/main/java/de/tum/in/www1/exerciseapp/service/BitbucketService.java:70-82 | The key and slug are segments 2 and 3 of the whole URL file, counted from the root. `buildCloneUrl` (line 177), however, puts the server's path in front of `/scm/`. | Server `https://host/bitbucket`, clone URL `https://ab12@host/bitbucket/scm/KEY/repo-ab12.git`: the key is read as `scm` and the slug as `KEY`. | Read the segments after the server's base path, giving `KEY` and `repo-ab12`. This agrees with the code whenever the server has no path. | medium, not executed | BitbucketService.CloneUrlKeyUnderBasePath | BitbucketService.CloneUrlKeyAndSlugUnderBase |
| src/main/java/de/tum/in/www1/exerciseapp/service/BitbucketService.java:38-46 | `copyRepository` reads the key and slug with the two readers above, so under a base path it forks the wrong repository. | Server `https://host/bitbucket`, base repository `https://u@host/bitbucket/scm/KEY/base.git`: project `scm`, repository `KEY` is forked. | Fork project `KEY`, repository `base`. | medium, not executed | BitbucketService.CopyRepositoryUnderBasePath | BitbucketService.CopyRepositoryUnderBaseOfClone |
| src/main/java/de/tum/in/www1/exerciseapp/service/BitbucketService.java:59-68 | `getRepositoryWebUrl` reads the key and slug with the two readers above. | Same server and repository: the web URL is `https://host/bitbucket/projects/scm/repos/KEY/browse`. | `https://host/bitbucket/projects/KEY/repos/base/browse`. | medium, not executed | BitbucketService.RepositoryWebUrlUnderBasePath | BitbucketService.RepositoryWebUrlUnderBaseOfClone |
| src/main/java/de/tum/in/www1/artemis/repository/hestia/ExerciseHintRepository.java:85-91 | Each old id is rewritten by its own `replaceAll`, one after another, so an id written by one step can be rewritten by a later one. Lines 57-59 promise that all hints in the statement get their new ids. | Hints 1 and 2 move to 12 and 13, and the map visits key 1 first: `{1}` becomes `{12}` and then `{113}`. | Every listed id replaced by its own new id in one pass, giving `{12}`. | medium, not executed | HintIdPatch.ChainedReplacement | HintIdPatch.PatchIdsOnceGroup |

The operations themselves follow the code as written: `CopyRepository`, `RepositoryWebUrl` and `PatchProblemStatement`. The corrected readings are the separate functions `CopyRepositoryUnderBase`, `RepositoryWebUrlUnderBase` and `PatchIdsOnce`.
