/** The merge loop of DoCompactionWork: its per-key state machine makes exactly the drop decisions that
    Dropped states on the set of input entries, and cuts what survives into runs. */
module CompactionLoop {
  import opened Wrappers
  import opened Keys
  import opened Reads
  import opened DropRules
  import opened LsmModel
  import opened InputSelection
  import opened CompactionPick

  /** The part of Compaction that answers IsBaseLevelForKey. */
  class Compaction {
    const level: nat
    const lists: seq<seq<FileMeta>> // the input version
    var levelPtrs: array<nat>
    ghost var asked: Option<UserKey> // the last key asked about

    constructor (level: nat, lists: seq<seq<FileMeta>>)
      requires ListsOk(lists)
      ensures Valid() && fresh(levelPtrs) && asked == None && this.level == level && this.lists == lists
    {
      this.level, this.lists := level, lists;
      levelPtrs := new nat[NUM_LEVELS](_ => 0);
      asked := None;
    }

    ghost predicate Valid()
      reads this, levelPtrs
    {
      && ListsOk(lists) && levelPtrs.Length == NUM_LEVELS
      && (forall l :: level + 2 <= l < NUM_LEVELS ==> levelPtrs[l] <= |lists[l]|)
      && (forall l, i :: level + 2 <= l < NUM_LEVELS && 0 <= i < levelPtrs[l]
                         ==> asked.Some? && lists[l][i].largest.user < asked.value)
    }

    /** The moving pointers answer like a full scan, because keys are asked about in order. */
    method IsBaseLevelForKey(userKey: UserKey) returns (isBase: bool)
      requires Valid() && (asked.Some? ==> asked.value <= userKey)
      modifies this`asked, levelPtrs
      ensures Valid() && asked == Some(userKey) && levelPtrs == old(levelPtrs)
      ensures isBase <==> BaseLevel(LevelsOf(lists), level, userKey)
    {
      asked := Some(userKey);
      var lvl := level + 2;
      while lvl < NUM_LEVELS
        invariant level + 2 <= lvl && Valid() && asked == Some(userKey)
        invariant forall l, f :: level + 2 <= l < lvl && l < NUM_LEVELS && f in lists[l] ==> !f.Spans(userKey)
        decreases NUM_LEVELS - lvl
      {
        var files := lists[lvl];
        while levelPtrs[lvl] < |files|
          invariant levelPtrs[lvl] <= |files| && Valid() && asked == Some(userKey)
          decreases |files| - levelPtrs[lvl]
        {
          var f := files[levelPtrs[lvl]];
          if userKey <= f.largest.user {
            if userKey >= f.smallest.user {
              assert f in LevelsOf(lists)[lvl] && f.Spans(userKey);
              return false;
            }
            break;
          }
          levelPtrs[lvl] := levelPtrs[lvl] + 1;
        }
        NoneSpans(files, levelPtrs[lvl], userKey);
        lvl := lvl + 1;
      }
      isBase := true;
    }
  }

  /** Files before the pointer end before the key; the file at the pointer starts after it. */
  lemma NoneSpans(files: seq<FileMeta>, ptr: nat, u: UserKey)
    requires AllOk(files) && Disjoint(files) && ptr <= |files|
    requires forall i :: 0 <= i < ptr ==> files[i].largest.user < u
    requires ptr < |files| ==> u < files[ptr].smallest.user
    ensures forall f :: f in files ==> !f.Spans(u)
  {
    forall i | 0 <= i < |files| ensures !files[i].Spans(u) {
      if i > ptr { OkBounds(files[ptr]); }
    }
  }

  /** What the loop leaves of a run. */
  ghost function Surviving(es: seq<Entry>, j: Job): seq<Entry> {
    if es == [] then []
    else
      var front, e := Surviving(es[..|es| - 1], j), es[|es| - 1];
      if Dropped(j, e) then front else front + [e]
  }

  /** The previous entry's number decides rule (A). */
  lemma HiddenByPrevious(merged: seq<Entry>, i: nat, snap: nat)
    requires Sorted(merged) && UniqueNumbers(SeqSet(merged)) && i < |merged|
    ensures Hidden(SeqSet(merged), snap, merged[i])
            <==> i > 0 && merged[i - 1].key.user == merged[i].key.user && merged[i - 1].key.num <= snap
  {
    var e := merged[i];
    if i > 0 && merged[i - 1].key.user == e.key.user && merged[i - 1].key.num <= snap {
      assert merged[i - 1] in SeqSet(merged) && e in SeqSet(merged);
      assert Less(merged[i - 1].key, e.key);
    }
    if x :| x in SeqSet(merged) && x.key.user == e.key.user && e.key.num < x.key.num <= snap {
      var k :| 0 <= k < |merged| && merged[k] == x;
      assert k < i;
      assert k < i - 1 ==> Less(x.key, merged[i - 1].key);
      assert Less(merged[i - 1].key, e.key);
    }
  }

  /** The drop decision at position i, from the previous entry and the base level. */
  lemma DropDecision(merged: seq<Entry>, i: nat, j: Job)
    requires Sorted(merged) && UniqueNumbers(SeqSet(merged)) && SeqSet(merged) == UnionEntries(j.Inputs())
      && i < |merged|
    ensures Dropped(j, merged[i]) <==>
            (i > 0 && merged[i - 1].key.user == merged[i].key.user && merged[i - 1].key.num <= j.snap)
              || Droppable(j, merged[i])
    ensures i > 0 ==> merged[i - 1].key.user <= merged[i].key.user
  {
    HiddenByPrevious(merged, i, j.snap);
    if i > 0 { assert Less(merged[i - 1].key, merged[i].key); }
  }

  lemma SurvivingStep(merged: seq<Entry>, i: nat, j: Job)
    requires i < |merged|
    ensures Surviving(merged[..i + 1], j) ==
      Surviving(merged[..i], j) + (if Dropped(j, merged[i]) then [] else [merged[i]])
  {
    assert merged[..i + 1][..i] == merged[..i];
  }

  lemma SurvivesNone(j: Job)
    ensures Surviving([], j) == [] && Flatten([]) == []
  {
  }

  /** merged is what the merging iterator over the job's inputs yields. */
  ghost predicate MergedInputs(merged: seq<Entry>, j: Job) {
    Sorted(merged) && UniqueNumbers(SeqSet(merged)) && SeqSet(merged) == UnionEntries(j.Inputs())
  }

  /** The loop's per-key variables after the entries before i. */
  ghost predicate KeyState(merged: seq<Entry>, i: nat, currentUserKey: Option<UserKey>, lastSequenceForKey: SeqNo,
                           c: Compaction)
    requires i <= |merged|
    reads c, c.levelPtrs
  {
    && c.Valid()
    && (c.asked.Some? ==> i > 0 && c.asked.value <= merged[i - 1].key.user)
    && (if i == 0 then currentUserKey == None
        else currentUserKey == Some(merged[i - 1].key.user) && lastSequenceForKey == merged[i - 1].key.num)
  }

  /** One entry's drop decision, from the running per-key state. */
  method DecideDrop(merged: seq<Entry>, i: nat, j: Job, c: Compaction, currentUserKey: Option<UserKey>,
                    lastSequenceForKey: SeqNo)
    returns (drop: bool, currentUserKey': Option<UserKey>, lastSequenceForKey': SeqNo)
    requires MergedInputs(merged, j) && i < |merged| && j.snap < MAX_SEQUENCE
    requires KeyState(merged, i, currentUserKey, lastSequenceForKey, c) && c.level == j.level
      && LevelsOf(c.lists) == j.base
    modifies c`asked, c.levelPtrs
    ensures drop <==> Dropped(j, merged[i])
    ensures KeyState(merged, i + 1, currentUserKey', lastSequenceForKey', c) && c.levelPtrs == old(c.levelPtrs)
  {
    DropDecision(merged, i, j);
    var e := merged[i];
    drop, currentUserKey', lastSequenceForKey' := false, currentUserKey, lastSequenceForKey;
    if currentUserKey == None || currentUserKey.value != e.key.user {
      currentUserKey' := Some(e.key.user);
      lastSequenceForKey' := MAX_SEQUENCE;
    }
    if lastSequenceForKey' <= j.snap {
      drop := true;
    } else if e.key.kind == Deletion && e.key.num <= j.snap {
      drop := c.IsBaseLevelForKey(e.key.user);
    }
    lastSequenceForKey' := e.key.num;
  }

  method MergeAndDrop(merged: seq<Entry>, j: Job, c: Compaction, stopBefore: set<nat>, full: set<nat>)
    returns (outputs: seq<seq<Entry>>)
    requires MergedInputs(merged, j) && j.snap < MAX_SEQUENCE
    requires c.Valid() && c.asked == None && c.level == j.level && LevelsOf(c.lists) == j.base
    modifies c`asked, c.levelPtrs
    ensures Flatten(outputs) == Surviving(merged, j)
    ensures forall o :: o in outputs ==> o != []
  {
    hide Surviving, Flatten, MergedInputs;
    outputs := [];
    SurvivesNone(j);
    var builder: seq<Entry> := []; // empty when no output file is open
    var currentUserKey: Option<UserKey> := None;
    var lastSequenceForKey: SeqNo := MAX_SEQUENCE;
    var drop;
    for i := 0 to |merged|
      invariant KeyState(merged, i, currentUserKey, lastSequenceForKey, c) && c.levelPtrs == old(c.levelPtrs)
      invariant forall o :: o in outputs ==> o != []
      invariant Flatten(outputs) + builder == Surviving(merged[..i], j)
    {
      SurvivingStep(merged, i, j);
      outputs, builder := FinishOutput(outputs, builder, i in stopBefore);
      drop, currentUserKey, lastSequenceForKey := DecideDrop(merged, i, j, c, currentUserKey, lastSequenceForKey);
      if !drop {
        assert Flatten(outputs) + (builder + [merged[i]]) == Flatten(outputs) + builder + [merged[i]];
        outputs, builder := FinishOutput(outputs, builder + [merged[i]], i in full);
      }
    }
    assert merged[..|merged|] == merged;
    outputs, builder := FinishOutput(outputs, builder, true);
  }

  /** Closes the open output file, if there is one, when asked to. */
  method FinishOutput(outputs: seq<seq<Entry>>, run: seq<Entry>, finish: bool)
    returns (outputs': seq<seq<Entry>>, run': seq<Entry>)
    requires forall o :: o in outputs ==> o != []
    ensures forall o :: o in outputs' ==> o != []
    ensures run' == if finish then [] else run
    ensures Flatten(outputs') + run' == Flatten(outputs) + run
  {
    outputs', run' := outputs, run;
    if finish {
      if run != [] {
        outputs' := outputs + [run];
        assert outputs'[..|outputs|] == outputs;
      }
      run' := [];
      assert Flatten(outputs') + [] == Flatten(outputs) + run;
    }
  }
}
