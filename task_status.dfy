/** The task-status badge of the programming-exercise instructions: whether the
    task's tests have detail messages, and the solution entries of the exercise
    hints, sorted in place by file path and then line. */
module InstructionTaskStatus {
  import opened Wrappers
  import opened ClientEntities
  import LexicographicOrder
  import StableSort

  datatype TestCaseState = SUCCESS | NO_RESULT | NOT_EXECUTED | FAIL

  /** What `testStatusForTask` of the instruction service reports for a task;
      that service is not part of this model and is passed to the setter. */
  datatype TaskTestStatus = TaskTestStatus(
    testCaseState: TestCaseState,
    successfulTests: seq<string>,
    notExecutedTests: seq<string>,
    failedTests: seq<string>)

  /** `feedback.detailText` is truthy: present and non-empty. */
  predicate HasDetail(feedback: Feedback) {
    feedback.detailText.Some? && feedback.detailText.value != ""
  }

  /** `feedbacks.find(...)`: the first feedback named `test` that has a detail text. */
  function FindWithDetail(feedbacks: seq<Feedback>, test: string): (found: Option<Feedback>)
    ensures found.Some? <==> exists j :: 0 <= j < |feedbacks| && feedbacks[j].text == Some(test) && HasDetail(feedbacks[j])
    ensures found.Some? ==> found.value in feedbacks && found.value.text == Some(test) && HasDetail(found.value)
  {
    if feedbacks == [] then None
    else if feedbacks[0].text == Some(test) && HasDetail(feedbacks[0]) then Some(feedbacks[0])
    else
      var rest := FindWithDetail(feedbacks[1..], test);
      assert forall j :: 1 <= j < |feedbacks| ==> feedbacks[j] == feedbacks[1..][j - 1];
      rest
  }

  /** `tests.some(test => feedbacks.find(...))`. */
  function SomeTestHasDetail(tests: seq<string>, feedbacks: seq<Feedback>): (has: bool)
    ensures has <==> exists i, j :: 0 <= i < |tests| && 0 <= j < |feedbacks|
                                    && feedbacks[j].text == Some(tests[i]) && HasDetail(feedbacks[j])
  {
    if tests == [] then false
    else if FindWithDetail(feedbacks, tests[0]).Some? then true
    else
      var rest := SomeTestHasDetail(tests[1..], feedbacks);
      assert forall i :: 1 <= i < |tests| ==> tests[i] == tests[1..][i - 1];
      rest
  }

  /** `hasTestMessage`: some test of the task has a feedback with a detail text. */
  function HasTestMessage(tests: seq<string>, latestResult: Option<Result>): (has: bool)
    ensures latestResult.None? || latestResult.value.feedbacks.None? ==> !has
    ensures latestResult.Some? && latestResult.value.feedbacks.Some? ==>
      var feedbacks := latestResult.value.feedbacks.value;
      (has <==> exists i, j :: 0 <= i < |tests| && 0 <= j < |feedbacks|
                                && feedbacks[j].text == Some(tests[i]) && HasDetail(feedbacks[j]))
  {
    if latestResult.None? || latestResult.value.feedbacks.None? then false
    else SomeTestHasDetail(tests, latestResult.value.feedbacks.value)
  }

  /** The comparator of the sort: by file path, then by line. */
  predicate EntryLe(a: SolutionEntry, b: SolutionEntry) {
    LexicographicOrder.Less(a.filePath, b.filePath) || (a.filePath == b.filePath && a.line <= b.line)
  }

  lemma EntryLeIsTotalPreorder()
    ensures StableSort.TotalPreorder(EntryLe)
  {
    forall a, b ensures EntryLe(a, b) || EntryLe(b, a) {
      LexicographicOrder.LessTrichotomy(a.filePath, b.filePath);
    }
    forall a, b, c | EntryLe(a, b) && EntryLe(b, c) ensures EntryLe(a, c) {
      if LexicographicOrder.Less(a.filePath, b.filePath) && LexicographicOrder.Less(b.filePath, c.filePath) {
        LexicographicOrder.LessTransitive(a.filePath, b.filePath, c.filePath);
      }
    }
  }

  /** What the stable library sort leaves in the array. */
  function SortedEntries(entries: seq<SolutionEntry>): seq<SolutionEntry> {
    StableSort.Sort(entries, EntryLe)
  }

  /** The sorted entries are ordered by file path and then line, are a permutation
      of the input, keep entries at the same location in input order, and a
      second sort changes nothing. */
  lemma SortedEntriesSpec(entries: seq<SolutionEntry>)
    ensures var r := SortedEntries(entries);
      && (forall i, j :: 0 <= i < j < |r| ==>
            LexicographicOrder.Less(r[i].filePath, r[j].filePath)
            || (r[i].filePath == r[j].filePath && r[i].line <= r[j].line))
      && multiset(r) == multiset(entries)
      && (forall x :: StableSort.Ties(r, x, EntryLe) == StableSort.Ties(entries, x, EntryLe))
      && SortedEntries(r) == r
  {
    EntryLeIsTotalPreorder();
    StableSort.SortSorts(entries, EntryLe);
    StableSort.SortPermutes(entries, EntryLe);
    forall x ensures StableSort.Ties(SortedEntries(entries), x, EntryLe) == StableSort.Ties(entries, x, EntryLe) {
      StableSort.SortStable(entries, x, EntryLe);
    }
    StableSort.SortIdempotent(entries, EntryLe);
  }

  lemma SortedEntriesIdempotent(entries: seq<SolutionEntry>)
    ensures SortedEntries(SortedEntries(entries)) == SortedEntries(entries)
  {
    EntryLeIsTotalPreorder();
    StableSort.SortIdempotent(entries, EntryLe);
  }

  predicate IsCodeHint(hint: ExerciseHint)
    reads hint
  {
    hint.hintType == Some(CODE)
  }

  /** The entries a hint's map value holds: its own array for a code hint that
      has one, nothing otherwise. */
  function EntriesShown(hint: ExerciseHint): seq<SolutionEntry>
    reads hint, hint.solutionEntries
  {
    if IsCodeHint(hint) && hint.solutionEntries != null then hint.solutionEntries[..] else []
  }

  predicate HasCodeArray(hint: ExerciseHint)
    reads hint
  {
    IsCodeHint(hint) && hint.solutionEntries != null
  }

  /** The arrays of the code hints that have entries. */
  function CodeArrays(hints: seq<ExerciseHint>): set<array<SolutionEntry>>
    reads set h | h in hints
  {
    set h | h in hints && HasCodeArray(h) :: h.solutionEntries
  }

  /** `Array.prototype.sort` on the hint's array with the entry comparator. */
  method SortEntriesInPlace(a: array<SolutionEntry>)
    modifies a
    ensures a[..] == SortedEntries(old(a[..]))
  {
    var sorted := SortedEntries(a[..]);
    StableSort.SortPermutes(a[..], EntryLe);
    assert |sorted| == |multiset(sorted)| == |multiset(a[..])| == a.Length;
    forall i | 0 <= i < a.Length {
      a[i] := sorted[i];
    }
  }

  class TaskStatus {
    var testsValue: seq<string>
    var latestResult: Option<Result>
    var exerciseHints: seq<ExerciseHint>
    var testCaseState: TestCaseState
    var successfulTests: seq<string>
    var notExecutedTests: seq<string>
    var failedTests: seq<string>
    var hasMessage: bool

    constructor (latestResult: Option<Result>, exerciseHints: seq<ExerciseHint>)
      ensures this.latestResult == latestResult && this.exerciseHints == exerciseHints
      ensures testsValue == [] && !hasMessage
    {
      this.latestResult := latestResult;
      this.exerciseHints := exerciseHints;
      testsValue := [];
      testCaseState := NO_RESULT;
      successfulTests, notExecutedTests, failedTests := [], [], [];
      hasMessage := false;
    }

    /** The `tests` setter: stores the tests, copies the instruction service's
        verdict for them, and recomputes `hasMessage`. */
    method SetTests(tests: seq<string>, testStatusForTask: (seq<string>, Option<Result>) -> TaskTestStatus)
      modifies this
      ensures testsValue == tests
      ensures latestResult == old(latestResult) && exerciseHints == old(exerciseHints)
      ensures var status := testStatusForTask(tests, latestResult);
        && testCaseState == status.testCaseState
        && successfulTests == status.successfulTests
        && notExecutedTests == status.notExecutedTests
        && failedTests == status.failedTests
      ensures hasMessage == HasTestMessage(tests, latestResult)
    {
      testsValue := tests;
      var status := testStatusForTask(testsValue, latestResult);
      testCaseState := status.testCaseState;
      successfulTests := status.successfulTests;
      notExecutedTests := status.notExecutedTests;
      failedTests := status.failedTests;
      hasMessage := HasTestMessage(tests, latestResult);
    }

    /** `getSortedSolutionEntriesForCodeHint`: a fresh empty array for a hint that
        is not a code hint or has no entries; otherwise the hint's own array,
        sorted in place and returned. */
    method GetSortedSolutionEntriesForCodeHint(hint: ExerciseHint) returns (entries: array<SolutionEntry>)
      modifies if IsCodeHint(hint) && hint.solutionEntries != null then {hint.solutionEntries} else {}
      ensures !IsCodeHint(hint) || hint.solutionEntries == null ==> fresh(entries) && entries.Length == 0
      ensures IsCodeHint(hint) && hint.solutionEntries != null ==>
        entries == hint.solutionEntries && entries[..] == SortedEntries(old(entries[..]))
    {
      if !IsCodeHint(hint) {
        entries := new SolutionEntry[0];
        return;
      }
      if hint.solutionEntries == null {
        entries := new SolutionEntry[0];
        return;
      }
      entries := hint.solutionEntries;
      SortEntriesInPlace(entries);
    }

    /** One step of `testMethod`'s loop: sorts `hint`'s entries in place and
        returns them. `want` is what every code array ends up holding and
        `orig` what it held at the start; an array holds one or the other. */
    method SortHintEntries(hint: ExerciseHint, ghost orig: map<array<SolutionEntry>, seq<SolutionEntry>>,
                           ghost want: map<array<SolutionEntry>, seq<SolutionEntry>>)
      returns (entries: seq<SolutionEntry>)
      requires HasCodeArray(hint) ==> hint.solutionEntries in want && hint.solutionEntries in orig
      requires HasCodeArray(hint) ==>
        var a := hint.solutionEntries;
        want[a] == SortedEntries(orig[a]) && (a[..] == orig[a] || a[..] == want[a])
      modifies if HasCodeArray(hint) then {hint.solutionEntries} else {}
      ensures entries == (if HasCodeArray(hint) then want[hint.solutionEntries] else [])
      ensures HasCodeArray(hint) ==> hint.solutionEntries[..] == want[hint.solutionEntries]
    {
      var sorted := GetSortedSolutionEntriesForCodeHint(hint);
      if HasCodeArray(hint) {
        SortedEntriesIdempotent(orig[hint.solutionEntries]);
      }
      entries := sorted[..];
    }

    /** The loop of `testMethod`, over arrays that start out holding `orig` and
        are to end up holding `want`. */
    method SortAllHints(hints: seq<ExerciseHint>, ghost orig: map<array<SolutionEntry>, seq<SolutionEntry>>,
                        ghost want: map<array<SolutionEntry>, seq<SolutionEntry>>)
      returns (m: map<ExerciseHint, seq<SolutionEntry>>)
      requires forall k :: 0 <= k < |hints| && HasCodeArray(hints[k]) ==>
        var a := hints[k].solutionEntries;
        a in want && a in orig && want[a] == SortedEntries(orig[a]) && a[..] == orig[a]
      modifies CodeArrays(hints)
      ensures forall h :: h in m <==> h in hints
      ensures forall k :: 0 <= k < |hints| ==>
        m[hints[k]] == (if HasCodeArray(hints[k]) then want[hints[k].solutionEntries] else [])
      ensures forall k :: 0 <= k < |hints| && HasCodeArray(hints[k]) ==>
        hints[k].solutionEntries[..] == want[hints[k].solutionEntries]
    {
      m := map[];
      var i := 0;
      while i < |hints|
        invariant 0 <= i <= |hints|
        invariant forall k :: 0 <= k < i ==> hints[k] in m
        invariant forall h :: h in m ==> h in hints
        invariant forall k :: 0 <= k < i ==>
          m[hints[k]] == (if HasCodeArray(hints[k]) then want[hints[k].solutionEntries] else [])
        invariant forall k :: 0 <= k < |hints| && HasCodeArray(hints[k]) ==>
          var a := hints[k].solutionEntries;
          a[..] == orig[a] || a[..] == want[a]
        invariant forall k :: 0 <= k < i && HasCodeArray(hints[k]) ==>
          hints[k].solutionEntries[..] == want[hints[k].solutionEntries]
      {
        var hint := hints[i];
        label Before:
        var entries := SortHintEntries(hint, orig, want);
        forall k | 0 <= k < |hints| && HasCodeArray(hints[k])
          ensures var a := hints[k].solutionEntries; a[..] == orig[a] || a[..] == want[a]
          ensures k < i + 1 ==> hints[k].solutionEntries[..] == want[hints[k].solutionEntries]
        {
          var b := hints[k].solutionEntries;
          if !HasCodeArray(hint) || b != hint.solutionEntries {
            assert b[..] == old@Before(b[..]);
          }
        }
        ghost var previous := m;
        m := m[hint := entries];
        forall k | 0 <= k < i + 1
          ensures m[hints[k]] == (if HasCodeArray(hints[k]) then want[hints[k].solutionEntries] else [])
        {
          if hints[k] != hint {
            assert k < i && m[hints[k]] == previous[hints[k]];
          }
        }
        i := i + 1;
      }
    }

    /** `testMethod`: a map from every given hint to its sorted entries. Each code
        hint's array ends up sorted, even when several hints share one array. */
    method TestMethod(hints: seq<ExerciseHint>) returns (m: map<ExerciseHint, seq<SolutionEntry>>)
      modifies CodeArrays(hints)
      ensures m.Keys == set h | h in hints
      ensures forall h :: h in hints ==>
        m[h] == (if HasCodeArray(h) then SortedEntries(old(h.solutionEntries[..])) else [])
      ensures forall h :: h in hints ==> m[h] == EntriesShown(h)
      ensures forall a :: a in CodeArrays(hints) ==> a[..] == SortedEntries(old(a[..]))
    {
      // what every code array holds at the start, and what it ends up holding
      ghost var orig := map a | a in CodeArrays(hints) :: a[..];
      ghost var want := map a | a in CodeArrays(hints) :: SortedEntries(a[..]);
      forall k | 0 <= k < |hints| && HasCodeArray(hints[k])
        ensures var a := hints[k].solutionEntries;
          a in want && a in orig && want[a] == SortedEntries(orig[a]) && a[..] == orig[a]
      {
        assert hints[k].solutionEntries in CodeArrays(hints);
      }
      m := SortAllHints(hints, orig, want);
      forall h | h in hints
        ensures m[h] == (if HasCodeArray(h) then want[h.solutionEntries] else [])
        ensures HasCodeArray(h) ==> h.solutionEntries[..] == want[h.solutionEntries]
      {
        var k :| 0 <= k < |hints| && hints[k] == h;
      }
    }
  }
}
