/** The server's hint repository: copying the hints of a template exercise to a
    new exercise, and rewriting the hint ids in the new exercise's problem
    statement. */
module ExerciseHintRepository {
  import opened Wrappers
  import opened HintIdPatch
  import ClientEntities

  /** `CodeHint` is the subclass of `ExerciseHint`; every other hint is plain. */
  datatype HintKind = PlainHint | CodeHint

  /** A persisted hint. `id` is `None` until the hint is saved. */
  class ExerciseHint {
    const kind: HintKind
    var id: Option<int>
    var exercise: Exercise?
    var title: string
    var content: string
    var solutionEntries: seq<ClientEntities.SolutionEntry>

    /** `new CodeHint()` or `new ExerciseHint()`: nothing set yet. */
    constructor (kind: HintKind)
      ensures this.kind == kind && id.None? && exercise == null
      ensures title == [] && content == [] && solutionEntries == []
    {
      this.kind := kind;
      id := None;
      exercise := null;
      title := [];
      content := [];
      solutionEntries := [];
    }
  }

  /** The exercise fields the copy reads and writes. */
  class Exercise {
    var exerciseHints: set<ExerciseHint>
    var problemStatement: string

    constructor (problemStatement: string)
      ensures exerciseHints == {} && this.problemStatement == problemStatement
    {
      exerciseHints := {};
      this.problemStatement := problemStatement;
    }
  }

  /** The persistence layer as far as `save` goes: every saved entity gets the
      next id of a sequence. */
  class HintStore {
    var nextId: int

    constructor (firstId: int)
      ensures nextId == firstId
    {
      nextId := firstId;
    }

    /** `save`: the hint gets a fresh id, nothing else changes. */
    method Save(hint: ExerciseHint)
      modifies this, hint
      ensures hint.id == Some(old(nextId)) && nextId == old(nextId) + 1
      ensures hint.exercise == old(hint.exercise) && hint.title == old(hint.title)
      ensures hint.content == old(hint.content) && hint.solutionEntries == old(hint.solutionEntries)
    {
      hint.id := Some(nextId);
      nextId := nextId + 1;
    }
  }

  /** `copy` is a copy of `hint` for `target`: same kind, title and content,
      the target as its exercise, and no solution entries. */
  ghost predicate IsCopy(copy: ExerciseHint, hint: ExerciseHint, target: Exercise)
    reads copy, hint
  {
    && copy.kind == hint.kind
    && copy.title == hint.title
    && copy.content == hint.content
    && copy.exercise == target
    && copy.solutionEntries == []
  }

  /** The body of the stream's `map`: a new hint of the same kind with the
      title and content of `hint`, attached to `target` and saved. */
  method CopyHint(hint: ExerciseHint, target: Exercise, store: HintStore) returns (copied: ExerciseHint)
    modifies store
    ensures fresh(copied) && IsCopy(copied, hint, target)
    ensures copied.id == Some(old(store.nextId)) && store.nextId == old(store.nextId) + 1
  {
    copied := new ExerciseHint(hint.kind);
    copied.exercise := target;
    copied.content := hint.content;
    copied.title := hint.title;
    store.Save(copied);
  }

  // ---------------------------------------------------------------------------
  // The id map, on values
  // ---------------------------------------------------------------------------

  /** The `HashMap` after `put(ids[i], first + i)` for i = 0, 1, ...: the i-th
      copied hint has id `ids[i]` and its copy got id `first + i`. */
  function IdMapping(ids: seq<int>, first: int): map<int, int> {
    if ids == [] then map[]
    else IdMapping(ids[..|ids| - 1], first)[ids[|ids| - 1] := first + |ids| - 1]
  }

  /** One more `put`. */
  lemma IdMappingPut(ids: seq<int>, first: int, k: int)
    ensures IdMapping(ids + [k], first) == IdMapping(ids, first)[k := first + |ids|]
  {
    assert (ids + [k])[..|ids|] == ids;
  }

  /** One entry per distinct old id. */
  lemma {:induction false} IdMappingKeys(ids: seq<int>, first: int)
    ensures IdMapping(ids, first).Keys == set k | k in ids
  {
    if ids != [] {
      var init := ids[..|ids| - 1];
      IdMappingKeys(init, first);
      assert ids == init + [ids[|ids| - 1]];
      assert (set k | k in ids) == (set k | k in init) + {ids[|ids| - 1]};
    }
  }

  /** Each old id maps to the new id of its LAST position: a later `put` with
      the same key overwrites the earlier one. */
  lemma {:induction false} IdMappingLast(ids: seq<int>, first: int, k: int)
    requires k in IdMapping(ids, first)
    ensures exists i :: 0 <= i < |ids| && ids[i] == k && IdMapping(ids, first)[k] == first + i
                        && forall j :: i < j < |ids| ==> ids[j] != k
  {
    var n := |ids| - 1;
    var init := ids[..n];
    if ids[n] == k {
      assert IdMapping(ids, first)[k] == first + n;
    } else {
      IdMappingLast(init, first, k);
      var i :| 0 <= i < |init| && init[i] == k && IdMapping(init, first)[k] == first + i
               && forall j :: i < j < |init| ==> init[j] != k;
      assert ids[i] == k && IdMapping(ids, first)[k] == first + i;
    }
  }

  /** Different old ids get different new ids. */
  lemma IdMappingInjective(ids: seq<int>, first: int, k: int, l: int)
    requires k in IdMapping(ids, first) && l in IdMapping(ids, first) && k != l
    ensures IdMapping(ids, first)[k] != IdMapping(ids, first)[l]
  {
    IdMappingLast(ids, first, k);
    IdMappingLast(ids, first, l);
  }

  /** Every key is listed exactly once in `order`. */
  ghost predicate ListsKeysOnce(order: seq<int>, keys: set<int>) {
    && (forall i :: 0 <= i < |order| ==> order[i] in keys)
    && (forall k :: k in keys ==> k in order)
    && (forall i, j :: 0 <= i < j < |order| ==> order[i] != order[j])
  }

  /** A sequence without repetitions has as many distinct elements as entries. */
  lemma {:induction false} DistinctCount<T>(s: seq<T>)
    requires forall i, j :: 0 <= i < j < |s| ==> s[i] != s[j]
    ensures |set x | x in s| == |s|
  {
    if s != [] {
      var init := s[..|s| - 1];
      DistinctCount(init);
      assert s == init + [s[|s| - 1]];
      assert (set x | x in s) == (set x | x in init) + {s[|s| - 1]};
      assert s[|s| - 1] !in init;
    }
  }

  /** A non-empty set of keys has one to pick. */
  lemma SomeKey(keys: set<int>)
    requires keys != {}
    ensures exists k :: k in keys
  {
    if forall k :: k !in keys {
      assert false;
    }
  }

  // ---------------------------------------------------------------------------
  // The copy
  // ---------------------------------------------------------------------------

  /** `picked` lists, once each, the hints of `hints` that are no longer
      `remaining`. */
  ghost predicate PickedSoFar(hints: set<ExerciseHint>, remaining: set<ExerciseHint>, picked: seq<ExerciseHint>) {
    && remaining <= hints
    && (forall i :: 0 <= i < |picked| ==> picked[i] in hints && picked[i] !in remaining)
    && (forall h :: h in hints && h !in remaining ==> h in picked)
    && (forall i, j :: 0 <= i < j < |picked| ==> picked[i] != picked[j])
  }

  lemma PickNext(hints: set<ExerciseHint>, remaining: set<ExerciseHint>, picked: seq<ExerciseHint>, hint: ExerciseHint)
    requires PickedSoFar(hints, remaining, picked) && hint in remaining
    ensures PickedSoFar(hints, remaining - {hint}, picked + [hint])
  {
  }

  /** `made[i]` is the copy of `picked[i]`, saved with id `first + i`. */
  ghost predicate CopiedAs(picked: seq<ExerciseHint>, made: seq<ExerciseHint>, target: Exercise, first: int)
    reads made, picked
  {
    && |picked| == |made|
    && forall i :: 0 <= i < |made| ==> IsCopy(made[i], picked[i], target) && made[i].id == Some(first + i)
  }

  /** One round of the first loop: the copies made so far keep their fields,
      and the copy of `hint` joins them with the next id. */
  method CopyNext(hint: ExerciseHint, target: Exercise, store: HintStore, ghost first: int,
                  ghost picked: seq<ExerciseHint>, ghost made: seq<ExerciseHint>) returns (copied: ExerciseHint)
    requires CopiedAs(picked, made, target, first) && store.nextId == first + |made|
    modifies store
    ensures fresh(copied) && copied.id == Some(old(store.nextId)) && store.nextId == old(store.nextId) + 1
    ensures CopiedAs(picked + [hint], made + [copied], target, first)
  {
    copied := CopyHint(hint, target, store);
  }

  /** The order in which the stream visits the template's `HashSet` of hints:
      some listing of the set, each hint once. */
  method Enumerate(hints: set<ExerciseHint>) returns (order: seq<ExerciseHint>)
    ensures PickedSoFar(hints, {}, order)
  {
    var remaining := hints;
    order := [];
    while remaining != {}
      invariant PickedSoFar(hints, remaining, order)
      decreases remaining
    {
      var hint :| hint in remaining;
      PickNext(hints, remaining, order, hint);
      order := order + [hint];
      remaining := remaining - {hint};
    }
  }

  /** The `map` step of the stream: copies the template hints in the order
      `order`, saving each copy, and puts the old id to new id pair into the
      map; `made` lists the copies in the same order and `oldIds` the ids of
      the template hints. */
  method CopyAll(order: seq<ExerciseHint>, target: Exercise, store: HintStore)
    returns (copies: set<ExerciseHint>, mapping: map<int, int>, ghost made: seq<ExerciseHint>, ghost oldIds: seq<int>)
    requires forall i :: 0 <= i < |order| ==> order[i].id.Some?
    modifies store
    ensures CopiedAs(order, made, target, old(store.nextId))
    ensures forall i :: 0 <= i < |made| ==> fresh(made[i])
    ensures store.nextId == old(store.nextId) + |made|
    ensures forall c :: c in copies <==> c in made
    ensures |oldIds| == |order| && forall i :: 0 <= i < |order| ==> order[i].id == Some(oldIds[i])
    ensures mapping == IdMapping(oldIds, old(store.nextId))
  {
    ghost var first := store.nextId;
    copies, mapping, made, oldIds := {}, map[], [], [];
    for n := 0 to |order|
      invariant CopiedAs(order[..n], made, target, first) && store.nextId == first + n
      invariant forall i :: 0 <= i < |made| ==> fresh(made[i])
      invariant forall c :: c in copies <==> c in made
      invariant |oldIds| == n && forall i :: 0 <= i < n ==> order[i].id == Some(oldIds[i])
      invariant mapping == IdMapping(oldIds, first)
    {
      var hint := order[n];
      var copied := CopyNext(hint, target, store, first, order[..n], made);
      assert order[..n + 1] == order[..n] + [hint];
      IdMappingPut(oldIds, first, hint.id.value);
      mapping := mapping[hint.id.value := copied.id.value];
      copies := copies + {copied};
      made, oldIds := made + [copied], oldIds + [hint.id.value];
    }
    assert order[..|order|] == order;
  }

  /** The second loop: rewrites the ids of every key of `mapping`, one key
      after another in an unspecified order (the `HashMap`'s), and returns that
      order. */
  method PatchAll(statement: string, mapping: map<int, int>) returns (patched: string, ghost order: seq<int>)
    ensures ListsKeysOnce(order, mapping.Keys)
    ensures patched == PatchStatement(statement, order, mapping)
  {
    var keys := mapping.Keys;
    patched := statement;
    order := [];
    while keys != {}
      invariant keys <= mapping.Keys
      invariant forall i :: 0 <= i < |order| ==> order[i] in mapping.Keys - keys
      invariant forall k :: k in mapping.Keys - keys ==> k in order
      invariant forall i, j :: 0 <= i < j < |order| ==> order[i] != order[j]
      invariant patched == PatchStatement(statement, order, mapping)
      decreases keys
    {
      SomeKey(keys);
      var key :| key in keys;
      patched := ReplaceGroups(patched, IdString(key), IdString(mapping[key]));
      ghost var prev := order;
      order := order + [key];
      assert order[..|order| - 1] == prev;
      keys := keys - {key};
    }
  }

  /** Lines 66-83 of `copyExerciseHints`: the target's hints become saved
      copies of the template's hints, one per hint (`picked[i]` is copied to
      `made[i]`), and the returned map is the fold of the `put` calls over the
      old ids `oldIds` in that order. */
  method CopyHintsTo(template: Exercise, target: Exercise, store: HintStore)
    returns (mapping: map<int, int>, ghost picked: seq<ExerciseHint>, ghost made: seq<ExerciseHint>,
             ghost oldIds: seq<int>)
    requires forall h :: h in template.exerciseHints ==> h.id.Some?
    modifies target`exerciseHints, store
    ensures |picked| == |made| == |old(template.exerciseHints)| == |target.exerciseHints|
    ensures forall h :: h in old(template.exerciseHints) <==> h in picked
    ensures forall c :: c in target.exerciseHints <==> c in made
    ensures forall i :: 0 <= i < |made| ==> fresh(made[i])
    ensures CopiedAs(picked, made, target, old(store.nextId))
    ensures store.nextId == old(store.nextId) + |made|
    ensures |oldIds| == |picked| && forall i :: 0 <= i < |picked| ==> picked[i].id == Some(oldIds[i])
    ensures mapping == IdMapping(oldIds, old(store.nextId))
  {
    var hints := template.exerciseHints;
    var visit := Enumerate(hints);
    var copies;
    copies, mapping, made, oldIds := CopyAll(visit, target, store);
    picked := visit;
    CopiesCounted(hints, copies, picked, made, target, old(store.nextId));
    target.exerciseHints := copies;
  }

  /** Lines 85-92 of `copyExerciseHints`: every id of the map is rewritten in
      the target's problem statement, key after key, in the order `order`. */
  method PatchProblemStatement(target: Exercise, mapping: map<int, int>) returns (ghost order: seq<int>)
    modifies target`problemStatement
    ensures ListsKeysOnce(order, mapping.Keys)
    ensures target.problemStatement == PatchStatement(old(target.problemStatement), order, mapping)
    ensures OutsideGroups(target.problemStatement) == OutsideGroups(old(target.problemStatement))
    ensures '{' !in old(target.problemStatement) ==> target.problemStatement == old(target.problemStatement)
  {
    var patched;
    patched, order := PatchAll(target.problemStatement, mapping);
    PatchKeepsOutside(target.problemStatement, order, mapping);
    if '{' !in target.problemStatement {
      PatchWithoutGroupsUnchanged(target.problemStatement, order, mapping);
    }
    target.problemStatement := patched;
  }

  /** `copyExerciseHints`: the hints are copied, then the problem statement is
      patched with the ids of the copies. The template's hints are only read. */
  method CopyExerciseHints(template: Exercise, target: Exercise, store: HintStore)
    returns (mapping: map<int, int>, ghost picked: seq<ExerciseHint>, ghost made: seq<ExerciseHint>,
             ghost oldIds: seq<int>, ghost order: seq<int>)
    requires forall h :: h in template.exerciseHints ==> h.id.Some?
    modifies target, store
    ensures |picked| == |made| == |old(template.exerciseHints)| == |target.exerciseHints|
    ensures forall h :: h in old(template.exerciseHints) <==> h in picked
    ensures forall c :: c in target.exerciseHints <==> c in made
    ensures forall i :: 0 <= i < |made| ==> fresh(made[i])
    ensures CopiedAs(picked, made, target, old(store.nextId))
    ensures store.nextId == old(store.nextId) + |made|
    ensures |oldIds| == |picked| && forall i :: 0 <= i < |picked| ==> picked[i].id == Some(oldIds[i])
    ensures mapping == IdMapping(oldIds, old(store.nextId))
    ensures unchanged(old(template.exerciseHints))
    ensures ListsKeysOnce(order, mapping.Keys)
    ensures target.problemStatement == PatchStatement(old(target.problemStatement), order, mapping)
    ensures OutsideGroups(target.problemStatement) == OutsideGroups(old(target.problemStatement))
    ensures '{' !in old(target.problemStatement) ==> target.problemStatement == old(target.problemStatement)
  {
    mapping, picked, made, oldIds := CopyHintsTo(template, target, store);
    order := PatchProblemStatement(target, mapping);
  }

  /** What the map of a copy run says about the hints: its keys are the ids of
      the picked hints, and each key maps to the id of the copy of the LAST
      picked hint with that id. */
  lemma CopyOfEachKey(picked: seq<ExerciseHint>, made: seq<ExerciseHint>, oldIds: seq<int>, first: int, k: int)
    requires |made| == |picked| && forall i :: 0 <= i < |made| ==> made[i].id == Some(first + i)
    requires |oldIds| == |picked| && forall i :: 0 <= i < |picked| ==> picked[i].id == Some(oldIds[i])
    ensures k in IdMapping(oldIds, first) <==> exists i :: 0 <= i < |picked| && picked[i].id == Some(k)
    ensures k in IdMapping(oldIds, first) ==>
      exists i :: && 0 <= i < |picked| && picked[i].id == Some(k)
                  && made[i].id == Some(IdMapping(oldIds, first)[k])
                  && forall j :: i < j < |picked| ==> picked[j].id != Some(k)
  {
    IdMappingKeys(oldIds, first);
    if k in IdMapping(oldIds, first) {
      IdMappingLast(oldIds, first, k);
      var i :| 0 <= i < |oldIds| && oldIds[i] == k && IdMapping(oldIds, first)[k] == first + i
               && forall j :: i < j < |oldIds| ==> oldIds[j] != k;
      assert picked[i].id == Some(k) && made[i].id == Some(first + i);
      forall j | i < j < |picked| ensures picked[j].id != Some(k) {
        assert picked[j].id == Some(oldIds[j]);
      }
    } else {
      forall i | 0 <= i < |picked| ensures picked[i].id != Some(k) {
        assert oldIds[i] in oldIds;
      }
    }
  }

  /** As many copies as template hints: the picked hints are distinct, and so
      are the copies, whose ids differ. */
  lemma CopiesCounted(hints: set<ExerciseHint>, copies: set<ExerciseHint>,
                      picked: seq<ExerciseHint>, made: seq<ExerciseHint>, target: Exercise, first: int)
    requires PickedSoFar(hints, {}, picked) && CopiedAs(picked, made, target, first)
    requires forall c :: c in copies <==> c in made
    ensures |copies| == |hints| == |picked|
  {
    DistinctCount(picked);
    assert hints == set h | h in picked;
    forall i, j | 0 <= i < j < |made| ensures made[i] != made[j] {
      assert made[i].id != made[j].id;
    }
    DistinctCount(made);
    assert copies == set c | c in made;
  }
}
