/** DBImpl: the store's fields and the methods that change them. Each method is one step of LsmModel on the
    abstract state, or a sequence of steps, so the theorems on runs hold of the object. */
module Store {
  import opened Wrappers
  import opened Keys
  import opened Cursors
  import opened Reads
  import opened LsmModel
  import opened LsmShape
  import opened LsmCompaction
  import opened LsmRecovery
  import opened LsmReads
  import opened LsmRuns
  import opened InputSelection
  import opened CompactionPick
  import opened CompactionLoop
  import opened VersionBuilder
  import opened Lookup
  import opened StoreFacts
  import opened Merger
  import opened CompactionInput
  import opened IteratorStack
  import DbIter

  /** A writer's group while a compaction is under way, and whether it has to switch memtables. */
  datatype Written = Written(updates: seq<Update>, switch: bool)

  /** Steps while a compaction is under way: it neither starts nor ends. */
  ghost predicate Busy(ops: seq<Op>) {
    forall k :: 0 <= k < |ops| ==> !ops[k].Start? && !ops[k].Install? && !ops[k].Move?
  }

  /** One more step of a run, which keeps what is good unless a compaction starts. */
  lemma OneMoreGood(db: Db, ops: seq<Op>, before: Db, op: Op) returns (ops': seq<Op>)
    requires Steps(db, ops) == Some(before) && Shape(before) && Enabled(before, op) && !op.Start?
    ensures ops' == ops + [op] && Steps(db, ops') == Some(Apply(before, op))
    ensures Good(before) ==> Good(Apply(before, op))
  {
    hide Shape, Good, Steps, Apply, Enabled;
    OneMoreStep(db, ops, op);
    if Good(before) { StepGood(before, op); }
    ops' := ops + [op];
  }

  class DBImpl {
    ghost var history: seq<Entry>
    var last: SeqNo
    var mem: seq<Entry>
    var imm: Option<seq<Entry>>
    var lists: seq<seq<FileMeta>>
    var nextFile: nat
    var snapshots: seq<SeqNo>
    var job: Option<Job>
    var logNumber: nat
    var logs: map<nat, seq<Batch>>
    var disk: map<nat, seq<Entry>>
    var manifest: seq<Edit>
    var pinned: seq<Levels>

    ghost function Abs(): Db
      reads this
    {
      Db(history, last, SeqSet(mem), if imm.Some? then Some(SeqSet(imm.value)) else None, LevelsOf(lists), nextFile,
         snapshots, job, logNumber, logs, disk, manifest, pinned)
    }

    ghost predicate Valid()
      reads this
    {
      Sorted(mem) && (imm.Some? ==> Sorted(imm.value)) && Listed(lists) && Shape(Abs())
    }

    constructor ()
      ensures Valid() && Abs() == InitDb()
    {
      history, last, mem, imm, lists := [], 0, [], None, seq(NUM_LEVELS, _ => []);
      nextFile, snapshots, job, logNumber := 4, [], None, 3;
      logs, disk, manifest, pinned := map[3 := []], map[], [Edit({}, {}, 3, 4, 0)], [];
      new;
      hide Shape, LevelsOf, Sorted, Listed;
      NoFiles(lists);
      NoEntries();
      InitShape();
    }

    /** The fields as recovery leaves them: empty memtables, a fresh log, a fresh manifest. */
    method Restore(ghost history: seq<Entry>, last: SeqNo, lists: seq<seq<FileMeta>>, newLog: nat,
                   disk: map<nat, seq<Entry>>, manifest: seq<Edit>)
      modifies this
      ensures Abs() == Db(history, last, {}, None, LevelsOf(lists), newLog + 1, [], None, newLog, map[newLog := []],
                          disk, manifest, [])
      ensures mem == [] && imm == None && this.lists == lists
    {
      this.history, this.last, this.lists, this.disk, this.manifest := history, last, lists, disk, manifest;
      StartFresh(newLog);
      EmptyMemtables();
    }

    method StartFresh(newLog: nat)
      modifies `mem, `imm, `snapshots, `job, `pinned, `logNumber, `logs, `nextFile
      ensures mem == [] && imm == None && snapshots == [] && job == None && pinned == []
      ensures logNumber == newLog && logs == map[newLog := []] && nextFile == newLog + 1
    {
      mem, imm, snapshots, job, pinned := [], None, [], None, [];
      logNumber, logs, nextFile := newLog, map[newLog := []], newLog + 1;
    }

    lemma EmptyMemtables()
      requires mem == [] && imm == None
      ensures Abs() ==
        Db(history, last, {}, None, LevelsOf(lists), nextFile, snapshots, job, logNumber, logs, disk, manifest, pinned)
    {
      hide LevelsOf;
      NoEntries();
    }

    /** Write: the whole group is logged, then inserted, then made visible. */
    method Write(updates: seq<Update>)
      requires Valid() && last + |updates| < MAX_SEQUENCE
      modifies this
      ensures Valid() && CanCommit(old(Abs()), Number(updates, old(last) + 1))
      ensures Abs() == CommitTo(old(Abs()), Number(updates, old(last) + 1))
      ensures history == old(history) + Number(updates, old(last) + 1) && job == old(job) && imm == old(imm)
    {
      hide Shape, HistoryOk, Layered, JobShape, NumbersOk;
      var batch := Number(updates, last + 1);
      ghost var db := Abs();
      ShapeBasics(db);
      CommitShape(db, batch);
      logs := logs[logNumber := logs[logNumber] + [batch]];
      OlderThanBatch(db, batch);
      assert forall x :: x in mem ==> x in db.mem;
      mem := AddBatch(mem, batch);
      history, last := history + batch, last + |updates|;
      assert Abs() == CommitTo(db, batch);
    }

    /** MakeRoomForWrite, the branch that switches to a new memtable and log. */
    method SwitchMemTable()
      requires Valid() && imm.None?
      modifies this
      ensures Valid() && Abs() == SwitchTo(old(Abs())) && history == old(history) && job == old(job)
    {
      hide Shape;
      ghost var db := Abs();
      SwitchShape(db);
      logs, logNumber := logs[nextFile := []], nextFile;
      nextFile := nextFile + 1;
      imm, mem := Some(mem), [];
      assert SeqSet([]) == {};
      assert Abs() == SwitchTo(db);
    }

    /** WriteLevel0Table: a run becomes a table file at the level PickLevelForMemTableOutput names. */
    method WriteLevel0Table(run: seq<Entry>, heavy: set<nat>) returns (level: nat, table: Option<FileMeta>)
      requires Sorted(run) && ListsOk(lists)
      modifies `disk
      ensures level <= MAX_MEM_COMPACT_LEVEL
      ensures table == if run == [] then None else Some(TableFrom(run, nextFile))
      ensures disk == if run == [] then old(disk) else old(disk)[nextFile := run]
      ensures run != [] ==> FlushLevelOk(LevelsOf(lists), level, TableFrom(run, nextFile))
    {
      level, table := 0, None;
      if run != [] {
        var f := TableFrom(run, nextFile);
        TableOk(run, nextFile);
        level := PickLevelForMemTableOutput(lists, f, heavy);
        table := Some(f);
        disk := disk[nextFile := f.entries];
      }
    }

    /** LogAndApply: one edit makes the new version and one manifest record. */
    method LogAndApply(edit: Edit)
      requires Listed(lists) && EditFits(lists, edit)
      modifies `lists, `manifest
      ensures Listed(lists) && LevelsOf(lists) == ApplyEdit(LevelsOf(old(lists)), edit)
      ensures manifest == old(manifest) + [edit]
    {
      lists := SaveEdit(lists, edit);
      manifest := manifest + [edit];
    }

    /** The first part of CompactMemTable: the immutable memtable becomes a table and leaves memory. */
    method FlushMemTable(heavy: set<nat>) returns (ghost level: nat, ghost table: Option<FileMeta>)
      requires Valid() && imm.Some?
      modifies this
      ensures Valid() && CanFlush(old(Abs()), level, table) && Abs() == FlushTo(old(Abs()), level, table)
    {
      hide Shape, HistoryOk, Layered, JobShape, FlushLevelOk, LevelsOk;
      hide NumbersOk, SnapshotsOk, EditFits, ApplyEdit, CanFlush, ListsOk;
      hide Sorted, Listed, LevelsOf, SeqSet;
      ghost var db := Abs();
      ShapeBasics(db);
      ListedIsOk(lists);
      var l, t := WriteLevel0Table(imm.value, heavy);
      TableIsFlushable(db, imm.value, l);
      FlushShape(db, l, t);
      FlushFits(db, lists, l, t);
      LogAndApply(Edit({}, if t.Some? then {(l, t.value)} else {}, logNumber, nextFile + 1, last));
      nextFile := nextFile + 1;
      imm := None;
      level, table := l, t;
    }

    /** CompactMemTable: flush, then delete what is no longer needed. */
    method CompactMemTable(heavy: set<nat>) returns (ghost ops: seq<Op>)
      requires Valid() && imm.Some?
      modifies this
      ensures Valid() && imm.None? && history == old(history) && job == old(job)
        && Steps(old(Abs()), ops) == Some(Abs())
      ensures |ops| == 2 && ops[0].Flush? && ops[1] == Collect
      ensures Good(old(Abs())) ==> Good(Abs())
    {
      hide Shape, Good, Steps, CanFlush, ApplyEdit, Listed, LevelsOf, SeqSet, Sorted, FileNumbers;
      ghost var db := Abs();
      ghost var level, table := FlushMemTable(heavy);
      ops := OneStep(db, Flush(level, table));
      if Good(db) { StepGood(db, Flush(level, table)); }
      ops := CollectAfter(db, ops);
    }

    /** pending_outputs_ and AddLiveFiles. */
    method LiveFiles() returns (live: set<nat>)
      ensures live == FileNumbers(Abs())
    {
      hide LevelsOf, LiveNumbers, SeqSet;
      live := if job.Some? then set f | f in job.value.outputs :: f.number else {};
      live := live + LiveNumbers(LevelsOf(lists)) + (if job.Some? then LiveNumbers(job.value.base) else {});
      ghost var others := live;
      for i := 0 to |pinned|
        invariant live == others + set v, n | v in pinned[..i] && n in LiveNumbers(v) :: n
      {
        live := live + LiveNumbers(pinned[i]);
        PinnedStep(pinned, i);
      }
      assert pinned[..|pinned|] == pinned;
      LiveIsFileNumbers(Abs(), live);
    }

    /** RemoveObsoleteFiles: keeps the tables of live versions and pending outputs, and the logs recovery may replay. */
    method RemoveObsoleteFiles()
      requires Valid()
      modifies `disk, `logs
      ensures Valid() && Abs() == CollectTo(old(Abs()))
    {
      hide Shape, Listed, LevelsOf, SeqSet, Sorted, FileNumbers, CollectTo;
      ghost var db := Abs();
      ShapeBasics(db);
      CollectShape(db);
      var live := LiveFiles();
      var minLog := LastEdit(manifest).logNumber;
      disk := KeepFiles(disk, live);
      logs := KeepFiles(logs, set n | n in logs && n >= minLog);
      Collected(db, Abs(), live, minLog);
    }

    method CollectAfter(ghost db0: Db, ghost ops: seq<Op>) returns (ghost ops': seq<Op>)
      requires Valid() && Steps(db0, ops) == Some(Abs())
      modifies `disk, `logs
      ensures Valid() && ops' == ops + [Collect] && Steps(db0, ops') == Some(Abs())
      ensures Good(old(Abs())) ==> Good(Abs())
    {
      hide Shape, Listed, LevelsOf, SeqSet, Sorted, Good, Steps, CollectTo;
      ghost var db := Abs();
      ShapeBasics(db);
      RemoveObsoleteFiles();
      ops' := OneMoreGood(db0, ops, db, Collect);
    }

    // ----- compaction -----

    /** FinishCompactionOutputFile: one more output table, not yet in any version. */
    method FinishCompactionOutputFile(run: seq<Entry>)
      requires Valid() && job.Some? && run != [] && Sorted(run) && SeqSet(run) <= Kept(job.value)
      requires forall g, e, x | g in job.value.outputs && e in g.entries && x in run :: Less(e.key, x.key)
      modifies `job, `nextFile, `disk
      ensures Valid() && CanEmit(old(Abs()), TableFrom(run, old(nextFile)))
      ensures Abs() == EmitTo(old(Abs()), TableFrom(run, old(nextFile)))
    {
      hide Shape, Kept, Sorted, Listed, LevelsOf, SeqSet, CanEmit;
      ghost var db := Abs();
      ShapeBasics(db);
      OutputsAreOk(db);
      RunCanBeEmitted(db, run);
      EmitShape(db, TableFrom(run, nextFile));
      var f := TableFrom(run, nextFile);
      job := Some(job.value.(outputs := job.value.outputs + [f]));
      disk := disk[nextFile := f.entries];
      nextFile := nextFile + 1;
    }

    /** InstallCompactionResults: the outputs replace the inputs in one edit. */
    method InstallCompactionResults()
      requires Valid() && CanInstall(Abs())
      modifies `job, `lists, `manifest
      ensures Valid() && Abs() == InstallTo(old(Abs()))
    {
      hide Shape, HistoryOk, Layered, LevelsOk, NumbersOk, SnapshotsOk, EditFits;
      hide ApplyEdit, CanInstall, Sorted, Listed, LevelsOf, SeqSet;
      hide InputsOk, OutputsOk, NoneOlder, NoneBetween, BaseHolds;
      ghost var db := Abs();
      ShapeBasics(db);
      InstallParts(db, lists);
      InstallShape(db);
      InstallFits(db, lists);
      LogAndApply(JobEdit(job.value, LastEdit(manifest).logNumber, nextFile, last));
      job := None;
    }

    /** What the merging iterator over the inputs yields. */
    method MergeInputs(in0: seq<FileMeta>, in1: seq<FileMeta>) returns (merged: seq<Entry>)
      requires Valid() && job.Some? && job.value.in0 == FileSet(in0) && job.value.in1 == FileSet(in1)
      requires InputOrder(lists, job.value.level, in0, in1)
      ensures MergedInputs(merged, job.value)
    {
      hide Shape;
      ghost var db := Abs();
      ShapeBasics(db);
      InputsApart(db, lists, job.value.level, in0, in1);
      var runs := MakeInputIterator(job.value.level, in0, in1);
      HistoryUnique(db);
      InputsStored(db, job.value);
      RunsMergeable(db, runs);
      ghost var union := MergedExists(runs);
      var input := new MergingIterator(runs, union);
      merged := ReadAll(input);
      MergeIsUnion(merged, runs, job.value);
    }

    /** What happens while the mutex is released: a writer may write, and switch memtables, and then a memtable that
        waits is flushed before the compaction goes on. */
    method Meanwhile(updates: seq<Update>, switch: bool, heavy: set<nat>) returns (ghost ops: seq<Op>)
      requires Valid()
      modifies this
      ensures Valid() && imm.None? && job == old(job) && old(history) <= history
        && Steps(old(Abs()), ops) == Some(Abs())
      ensures Busy(ops) && (Good(old(Abs())) ==> Good(Abs()))
    {
      hide Shape, Good, Steps, Listed, LevelsOf, SeqSet, Sorted, CanFlush, CanCommit, CommitTo, SwitchTo;
      ghost var db := Abs();
      ops := [];
      NoSteps(db);
      if last + |updates| < MAX_SEQUENCE {
        ghost var batch := Number(updates, last + 1);
        Write(updates);
        ops := OneMoreGood(db, ops, db, Commit(batch));
      }
      if switch && imm.None? {
        ghost var before := Abs();
        SwitchMemTable();
        ops := OneMoreGood(db, ops, before, Switch);
      }
      if imm.Some? {
        ghost var more := CompactMemTable(heavy);
        StepsJoin(db, ops, more);
        ops := ops + more;
      }
    }

    /** The compaction j, started at db0, has emitted exactly the entries of flat so far. */
    ghost predicate Working(db0: Db, j: Job, ops: seq<Op>, flat: seq<Entry>)
      reads this
    {
      && Valid() && job.Some? && job.value == j.(outputs := job.value.outputs) && db0.history <= history
      && Steps(db0, ops) == Some(Abs()) && Busy(ops)
      && (Good(db0) ==> Good(Abs()))
      && UnionEntries(set f | f in job.value.outputs) == SeqSet(flat)
    }

    method WorkOn(ghost db0: Db, ghost j: Job, ghost ops: seq<Op>, ghost flat: seq<Entry>, w: Written, heavy: set<nat>)
      returns (ghost ops': seq<Op>)
      requires Working(db0, j, ops, flat)
      modifies this
      ensures Working(db0, j, ops', flat)
    {
      hide Shape, Sorted, Listed, LevelsOf, SeqSet, UnionEntries, Good, Steps;
      ghost var more := Meanwhile(w.updates, w.switch, heavy);
      StepsJoin(db0, ops, more);
      ops' := ops + more;
    }

    method EmitChunk(ghost db0: Db, ghost j: Job, ghost ops: seq<Op>, ghost merged: seq<Entry>, outs: seq<seq<Entry>>,
                     i: nat)
      returns (ghost ops': seq<Op>)
      requires MergedInputs(merged, j) && Flatten(outs) == Surviving(merged, j) && i < |outs| && outs[i] != []
      requires Working(db0, j, ops, Flatten(outs[..i]))
      modifies `job, `nextFile, `disk
      ensures Working(db0, j, ops', Flatten(outs[..i + 1]))
    {
      hide Shape, Kept, Sorted, Listed, LevelsOf, SeqSet, CanEmit;
      hide MergedInputs, Surviving, UnionEntries, Good, Steps, Flatten;
      ghost var db := Abs();
      ChunkIsOutput(merged, j, outs, i, job.value.outputs);
      SameKept(j, job.value.outputs);
      ghost var f := TableFrom(outs[i], nextFile);
      EmittedMore(job.value.outputs, f, Flatten(outs[..i]));
      FinishCompactionOutputFile(outs[i]);
      OneMoreStep(db0, ops, Emit(f));
      if Good(db0) { StepGood(db, Emit(f)); }
      ops' := ops + [Emit(f)];
    }

    /** DoCompactionWork: merge, drop, cut into output files, install. Before every file, `writes` says what a writer
        does meanwhile. */
    method DoCompactionWork(in0: seq<FileMeta>, in1: seq<FileMeta>, stopBefore: set<nat>, full: set<nat>,
                            writes: seq<Written>, heavy: set<nat>) returns (ghost ops: seq<Op>)
      requires Valid() && job.Some? && job.value.outputs == [] && job.value.base == LevelsOf(lists)
      requires job.value.in0 == FileSet(in0) && job.value.in1 == FileSet(in1)
        && InputOrder(lists, job.value.level, in0, in1)
      modifies this
      ensures Valid() && job.None? && old(history) <= history && Steps(old(Abs()), ops) == Some(Abs())
      ensures ops != [] && ops[|ops| - 1] == Install && Busy(ops[..|ops| - 1])
      ensures Good(old(Abs())) ==> Good(Abs())
    {
      hide Shape, Kept, Sorted, Listed, LevelsOf, SeqSet, CanInstall, MergedInputs, Surviving, UnionEntries, Good;
      hide Steps, Flatten, InputOrder, ListsOk;
      ghost var db0, j := Abs(), job.value;
      ShapeBasics(db0);
      ListedIsOk(lists);
      var merged := MergeInputs(in0, in1);
      var c := new Compaction(job.value.level, lists);
      var outs := MergeAndDrop(merged, job.value, c, stopBefore, full);
      ops := [];
      NothingEmitted(db0, j);
      for i := 0 to |outs|
        invariant Working(db0, j, ops, Flatten(outs[..i]))
      {
        assert outs[i] in outs;
        ops := WorkOn(db0, j, ops, Flatten(outs[..i]), if i < |writes| then writes[i] else Written([], false), heavy);
        ops := EmitChunk(db0, j, ops, merged, outs, i);
      }
      assert outs[..|outs|] == outs;
      ops := FinishCompaction(db0, j, ops, merged, outs);
    }

    method FinishCompaction(ghost db0: Db, ghost j: Job, ghost ops: seq<Op>, ghost merged: seq<Entry>,
                            ghost outs: seq<seq<Entry>>)
      returns (ghost ops': seq<Op>)
      requires MergedInputs(merged, j) && Flatten(outs) == Surviving(merged, j) && Working(db0, j, ops, Flatten(outs))
      modifies this
      ensures Valid() && job.None? && history == old(history) && Steps(db0, ops') == Some(Abs())
      ensures ops' == ops + [Install] && (Good(db0) ==> Good(Abs()))
    {
      hide Shape, Kept, Sorted, Listed, LevelsOf, SeqSet, CanInstall;
      hide MergedInputs, Surviving, UnionEntries, Good, Steps, Flatten;
      ghost var db := Abs();
      AllEmitted(merged, j, outs, job.value.outputs);
      ShapeBasics(db);
      AllEmittedCanInstall(db, j);
      InstallCompactionResults();
      ops' := OneMoreGood(db0, ops, db, Install);
    }

    /** The picked compaction starts; its snapshot is the oldest one a reader holds. */
    method StartCompaction(level: nat, in0: seq<FileMeta>, in1: seq<FileMeta>)
      requires Valid() && job.None? && Picked(LevelsOf(lists), level, FileSet(in0), FileSet(in1))
      modifies `job
      ensures Valid() && CanStart(old(Abs()), level, FileSet(in0), FileSet(in1))
      ensures Abs() == StartTo(old(Abs()), level, FileSet(in0), FileSet(in1))
    {
      hide Shape, Picked, Listed, LevelsOf, FileSet, Sorted, SeqSet;
      ghost var db := Abs();
      StartShape(db, level, FileSet(in0), FileSet(in1));
      var smallestSnapshot := if snapshots == [] then last else snapshots[0];
      job := Some(Job(level, FileSet(in0), FileSet(in1), smallestSnapshot, LevelsOf(lists), []));
    }

    /** The trivial move: a lone input file changes level without being rewritten. */
    method MoveFile(level: nat, f: FileMeta)
      requires Valid() && job.None? && Picked(LevelsOf(lists), level, {f}, {})
      modifies `lists, `manifest
      ensures Valid() && CanMove(old(Abs()), level, f) && Abs() == MoveTo(old(Abs()), level, f)
    {
      hide Shape, HistoryOk, Layered, LevelsOk, NumbersOk, SnapshotsOk, JobShape, EditFits, ApplyEdit, Sorted, Listed;
      hide LevelsOf, SeqSet, Picked;
      ghost var db := Abs();
      ShapeBasics(db);
      PickedParts(db, lists, level, f);
      MoveShape(db, level, f);
      MoveFits(db, lists, level, f);
      LogAndApply(Edit({(level, f.number)}, {(level + 1, f)}, LastEdit(manifest).logNumber, nextFile, last));
    }

    /** A compaction that rewrites its inputs, from start to clean-up. */
    method CompactFiles(level: nat, in0: seq<FileMeta>, in1: seq<FileMeta>, stopBefore: set<nat>, full: set<nat>,
                        writes: seq<Written>, heavy: set<nat>) returns (ghost ops: seq<Op>)
      requires Valid() && job.None? && |lists| == NUM_LEVELS
      requires Picked(LevelsOf(lists), level, FileSet(in0), FileSet(in1)) && InputOrder(lists, level, in0, in1)
      modifies this
      ensures Valid() && job.None? && old(history) <= history && Steps(old(Abs()), ops) == Some(Abs())
      ensures ops != [] && ops[0].Start? && forall k :: 1 <= k < |ops| ==> !ops[k].Start?
      ensures Good(old(Abs())) && StartsClean(old(Abs()), ops[0]) ==> Good(Abs())
    {
      hide Shape, Picked, Listed, LevelsOf, FileSet, Sorted, SeqSet;
      hide Good, Steps, StartsClean, InputOrder, CanStart, CollectTo;
      ghost var db := Abs();
      StartCompaction(level, in0, in1);
      ops := OneStep(db, Start(level, FileSet(in0), FileSet(in1)));
      if Good(db) && StartsClean(db, ops[0]) { StepGood(db, ops[0]); }
      ghost var more := DoCompactionWork(in0, in1, stopBefore, full, writes, heavy);
      StepsJoin(db, ops, more);
      ops := ops + more;
      ops := CollectAfter(db, ops);
    }

    /** Runs the compaction picked from one file: a trivial move, or a rewrite. */
    method RunCompaction(level: nat, index: nat, roomToExpand: bool, heavyGrandparents: bool, stopBefore: set<nat>,
                         full: set<nat>,
                         writes: seq<Written>, heavy: set<nat>)
      returns (ghost ops: seq<Op>)
      requires Valid() && job.None? && level + 1 < NUM_LEVELS && |lists| == NUM_LEVELS && index < |lists[level]|
      modifies this
      ensures Valid() && job.None? && old(history) <= history && Steps(old(Abs()), ops) == Some(Abs())
      ensures ops != [] && forall k :: 1 <= k < |ops| ==> !ops[k].Start?
      ensures Good(old(Abs())) && StartsClean(old(Abs()), ops[0]) ==> Good(Abs())
    {
      hide Shape, Picked, Listed, LevelsOf, FileSet, Sorted, SeqSet;
      hide Good, Steps, ListsOk, UniqueIn, StartsClean, InputOrder;
      hide MoveTo, CanMove, HistoryOk, LevelsOk, Layered;
      ghost var db := Abs();
      ShapeBasics(db);
      ListedIsOk(lists);
      HistoryUnique(db);
      ListUnique(db, lists, level);
      var in0, in1 := PickCompaction(lists, level, index, roomToExpand);
      if |in0| == 1 && in1 == [] && !heavyGrandparents {
        LoneInput(in0, in1);
        MoveFile(level, in0[0]);
        ops := OneStep(db, Move(level, in0[0]));
        if Good(db) { MoveGood(db, level, in0[0]); }
      } else {
        ops := CompactFiles(level, in0, in1, stopBefore, full, writes, heavy);
      }
    }

    /** BackgroundCompaction: flush if a memtable waits, else run the picked compaction, if there is one. */
    method BackgroundCompaction(pick: Option<(nat, nat)>, roomToExpand: bool, heavy: set<nat>, heavyGrandparents: bool,
                                stopBefore: set<nat>, full: set<nat>, writes: seq<Written>) returns (ghost ops: seq<Op>)
      requires Valid() && job.None? && |lists| == NUM_LEVELS
      requires imm.None? && pick.Some? ==> pick.value.0 + 1 < NUM_LEVELS && pick.value.1 < |lists[pick.value.0]|
      modifies this
      ensures Valid() && job.None? && old(history) <= history && Steps(old(Abs()), ops) == Some(Abs())
      ensures forall k :: 1 <= k < |ops| ==> !ops[k].Start?
      ensures old(imm).Some? ==> imm.None? && |ops| == 2 && ops[0].Flush? && ops[1] == Collect
      ensures old(imm).None? ==> (ops != [] <==> pick.Some?)
      ensures Good(old(Abs())) && (ops != [] ==> StartsClean(old(Abs()), ops[0])) ==> Good(Abs())
    {
      hide Shape, Good, Steps, StartsClean, Listed, LevelsOf, Sorted, SeqSet;
      ops := [];
      NoSteps(Abs());
      if imm.Some? {
        ops := CompactMemTable(heavy);
      } else if pick.Some? {
        var (level, index) := pick.value;
        ops := RunCompaction(level, index, roomToExpand, heavyGrandparents, stopBefore, full, writes, heavy);
      }
    }

    lemma NothingEmitted(db0: Db, j: Job)
      requires Valid() && db0 == Abs() && job == Some(j) && j.outputs == []
      ensures Working(db0, j, [], Flatten([]))
    {
      assert (set f | f in j.outputs) == {};
      assert UnionEntries({}) == {};
    }

    /** A reader holds the current version. */
    method RefVersion()
      requires Valid()
      modifies `pinned
      ensures Valid() && Abs() == PinTo(old(Abs()))
    {
      PinShape(Abs());
      pinned := pinned + [LevelsOf(lists)];
    }

    method UnrefVersion(i: nat)
      requires Valid() && i < |pinned|
      modifies `pinned
      ensures Valid() && Abs() == UnpinTo(old(Abs()), i)
    {
      UnpinShape(Abs(), i);
      pinned := pinned[..i] + pinned[i + 1..];
    }

    method GetSnapshot() returns (s: SeqNo)
      requires Valid()
      modifies this
      ensures Valid() && s == last && Abs() == SnapshotTo(old(Abs()))
    {
      SnapshotShape(Abs());
      snapshots := snapshots + [last];
      s := last;
    }

    method ReleaseSnapshot(i: nat)
      requires Valid() && i < |snapshots|
      modifies this
      ensures Valid() && Abs() == ReleaseTo(old(Abs()), i)
    {
      ReleaseShape(Abs(), i);
      snapshots := snapshots[..i] + snapshots[i + 1..];
    }

    /** NewInternalIterator: merges the memtables and every table of the current version. */
    method NewInternalIterator() returns (merged: seq<Entry>)
      requires Valid()
      ensures Sorted(merged) && SeqSet(merged) == Contents(Abs())
    {
      hide Shape;
      ghost var db := Abs();
      ShapeBasics(db);
      ListedIsOk(lists);
      StoreTablesApart(db, lists);
      PlacesApart(db);
      HistoryUnique(db);
      UpToIsFileEntries(lists);
      var runs := [mem];
      OneRunOf(mem);
      ghost var es := SeqSet(mem);
      if imm.Some? {
        OneRunOf(imm.value);
        RunsJoin(runs, es, [imm.value], SeqSet(imm.value));
        runs, es := runs + [imm.value], es + SeqSet(imm.value);
      }
      assert es == db.mem + ImmSet(db.imm);
      var tables := AddIterators(lists);
      RunsJoin(runs, es, tables, FileEntries(db.levels));
      runs := runs + tables;
      ghost var union := StoreMerges(db, runs);
      var input := new MergingIterator(runs, union);
      merged := ReadAll(input);
    }

    /** NewIterator: a cursor over exactly the committed map as of the snapshot, in key order. */
    method NewIterator(snapshot: Option<SeqNo>) returns (it: DbIter.DBIter)
      requires Valid() && ReadsOk(Abs())
      requires snapshot.Some? ==> Readable(Abs(), snapshot.value)
      ensures fresh(it) && it.Ok() && !it.Valid()
      ensures var s := if snapshot.Some? then snapshot.value else last;
              forall u, v ::
                (exists e :: e in it.All() && e.key.user == u && e.value == v) <==> ReadAt(history, u, s) == Some(v)
      ensures forall a, b :: 0 <= a < b < |it.All()| ==> it.All()[a].key.user < it.All()[b].key.user
    {
      var s := if snapshot.Some? then snapshot.value else last;
      var merged := NewInternalIterator();
      it := new DbIter.DBIter(merged, s);
      HistoryUnique(Abs());
      forall u, v
        ensures (exists e :: e in it.All() && e.key.user == u && e.value == v) <==> ReadAt(history, u, s) == Some(v)
      {
        DbIter.ViewIsReads(merged, s, u, v);
        ReadsAreHistory(Abs(), u, s, v);
      }
      DbIter.ViewInOrder(merged, s, |merged|);
    }

    /** Get: memtable, immutable memtable, then the version. It reads the committed history. */
    method Get(u: UserKey, snapshot: Option<SeqNo>) returns (r: Option<Value>)
      requires Valid() && ReadsOk(Abs())
      requires snapshot.Some? ==> Readable(Abs(), snapshot.value)
      ensures r == ReadAt(history, u, if snapshot.Some? then snapshot.value else last)
    {
      var s := if snapshot.Some? then snapshot.value else last;
      ghost var db := Abs();
      var saver := RunGet(mem, u, s);
      RunGetIsRight(mem, u, s);
      if saver == NotFound && imm.Some? {
        saver := RunGet(imm.value, u, s);
        RunGetIsRight(imm.value, u, s);
      }
      if saver == NotFound {
        ListedIsOk(lists);
        ListedIsLayered(db, lists);
        saver := VersionGet(lists, u, s);
        UpToIsFileEntries(lists);
      }
      FirstHit(db, mem, imm, u, s, saver);
      r := Answer(saver);
      ReadIsHistory(db, u, s, saver);
    }
  }
}
