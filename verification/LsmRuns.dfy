/** Whole runs: the structural invariant in every run, reads equal to the history in every run whose
    compactions are picked clean, and what a lookup therefore returns. */
module LsmRuns {
  import opened Wrappers
  import opened Keys
  import opened Reads
  import opened LsmModel
  import opened LsmShape
  import opened LsmCompaction
  import opened LsmRecovery
  import opened LsmReads

  /** A store just created and opened. */
  function InitDb(): Db {
    Db([], 0, {}, None, EmptyLevels(), 4, [], None, 3, map[3 := []], map[], [Edit({}, {}, 3, 4, 0)], [])
  }

  /** dbs is a run of the steps ops from a new store. */
  ghost predicate Run(dbs: seq<Db>, ops: seq<Op>) {
    && |dbs| == |ops| + 1 && dbs[0] == InitDb()
    && forall i :: 0 <= i < |ops| ==> Enabled(dbs[i], ops[i]) && dbs[i + 1] == Apply(dbs[i], ops[i])
  }

  /** What the pick must check: the compaction it starts leaves no older entry of a droppable key beside it. */
  ghost predicate StartsClean(db: Db, op: Op) {
    op.Start? && Enabled(db, op) ==> Clean(db.levels, Apply(db, op).job.value)
  }

  /** What the picker could check: the compaction it starts leaves out no level+1 file that continues one it takes. */
  ghost predicate StartsGuarded(db: Db, op: Op) {
    op.Start? && Enabled(db, op) ==> op.level + 1 < |db.levels| && NoneContinues(db.levels, op.level, op.in1)
  }

  lemma GuardedIsClean(db: Db, op: Op)
    requires Shape(db) && StartsGuarded(db, op)
    ensures StartsClean(db, op)
  {
    hide HistoryOk, Layered, JobShape, LogsOk, ManifestOk, DiskOk, NumbersOk, Clean;
    if op.Start? && Enabled(db, op) { GuardIsClean(db, Apply(db, op).job.value); }
  }

  lemma InitShape()
    ensures Shape(InitDb()) && JobClean(InitDb()) && ReadsOk(InitDb())
  {
    var db := InitDb();
    hide LogsOk, SnapshotsOk, JobShape, NumbersOk, DiskOk, HistoryOk, Layered, LevelsOk, ReadsOk;
    InitManifest();
    LastOne(db.manifest);
    FreshLogs(db);
    InitNumbers(db);
    InitEntries(db);
  }

  lemma LastOne(manifest: seq<Edit>)
    requires |manifest| == 1
    ensures LastEdit(manifest) == manifest[0]
  {
  }

  lemma InitNumbers(db: Db)
    requires db.levels == EmptyLevels() && db.snapshots == [] && db.last == 0 && db.job == None
    requires db.logNumber < db.nextFile && db.logs == map[db.logNumber := []] && db.disk == map[] && db.pinned == []
    ensures SnapshotsOk(db) && JobShape(db) && NumbersOk(db) && DiskOk(db)
  {
  }

  lemma InitManifest()
    ensures Replay([Edit({}, {}, 3, 4, 0)]) == EmptyLevels()
  {
    var e := Edit({}, {}, 3, 4, 0);
    assert [e] == [] + [e];
    ReplayOne([], e);
    var levels := ApplyEdit(EmptyLevels(), e);
    forall l: nat | l < NUM_LEVELS ensures levels[l] == EmptyLevels()[l] { EditLevel(EmptyLevels(), e, l); }
    assert levels == EmptyLevels();
  }

  lemma InitEntries(db: Db)
    requires db.history == [] && db.mem == {} && db.imm == None && db.levels == EmptyLevels()
    ensures LevelsOk(db.levels) && HistoryOk(db) && Layered(db) && ReadsOk(db)
  {
    assert FileEntries(db.levels) == {};
  }

  lemma StepShape(db: Db, op: Op)
    requires Shape(db) && Enabled(db, op)
    ensures Shape(Apply(db, op))
  {
    hide Shape, CommitTo, SwitchTo, FlushTo, StartTo, EmitTo, InstallTo, MoveTo, SnapshotTo, ReleaseTo, PinTo;
    hide UnpinTo, CollectTo, ReopenTo, CanCommit, CanStart, CanEmit, CanInstall, CanMove, CanReopen;
    match op
    case Commit(batch) => CommitShape(db, batch);
    case Switch => SwitchShape(db);
    case Flush(level, table) => FlushShape(db, level, table);
    case Start(level, in0, in1) => StartShape(db, level, in0, in1);
    case Emit(f) => EmitShape(db, f);
    case Install => InstallShape(db);
    case Move(level, f) => MoveShape(db, level, f);
    case TakeSnapshot => SnapshotShape(db);
    case ReleaseSnapshot(i) => ReleaseShape(db, i);
    case Pin => PinShape(db);
    case Unpin(i) => UnpinShape(db, i);
    case Collect => CollectShape(db);
    case Reopen(logs, tables, newLog) => ReopenShape(db, logs, tables, newLog);
  }

  // ----- a clean compaction stays clean while it runs -----

  lemma StepClean(db: Db, op: Op)
    requires Shape(db) && JobClean(db) && Enabled(db, op) && StartsClean(db, op)
    ensures JobShape(Apply(db, op)) && JobClean(Apply(db, op))
  {
    hide Shape, Clean, JobClean, JobShape, CommitTo, SwitchTo, FlushTo, StartTo, EmitTo, InstallTo, MoveTo;
    hide SnapshotTo, ReleaseTo, PinTo, UnpinTo, CollectTo, ReopenTo, CanCommit, CanFlush, CanStart, CanEmit;
    hide CanInstall, CanMove, CanReopen, StartsClean;
    StepShape(db, op);
    ShapeJob(db);
    ShapeJob(Apply(db, op));
    match op
    case Flush(level, table) => FlushJobClean(db, level, table);
    case Emit(f) => EmitJobClean(db, f);
    case Start(level, in0, in1) => StartJobClean(db, op);
    case _ => QuietClean(db, op);
  }

  lemma FlushJobClean(db: Db, level: nat, table: Option<FileMeta>)
    requires LevelsOk(db.levels) && JobShape(db) && JobClean(db) && CanFlush(db, level, table)
      && JobShape(FlushTo(db, level, table))
    ensures JobClean(FlushTo(db, level, table))
  {
    hide Clean, JobShape;
    FlushClean(db, level, table);
  }

  lemma EmitJobClean(db: Db, f: FileMeta)
    requires LevelsOk(db.levels) && JobShape(db) && JobClean(db) && CanEmit(db, f) && JobShape(EmitTo(db, f))
    ensures JobClean(EmitTo(db, f))
  {
    hide Clean, JobShape;
    EmitClean(db, f);
  }

  lemma StartJobClean(db: Db, op: Op)
    requires Enabled(db, op) && op.Start? && StartsClean(db, op) && JobShape(Apply(db, op))
    ensures JobClean(Apply(db, op))
  {
    hide Clean, JobShape;
  }

  lemma QuietClean(db: Db, op: Op)
    requires Enabled(db, op) && !op.Flush? && !op.Emit? && !op.Start? && JobShape(db) && JobClean(db)
      && JobShape(Apply(db, op))
    ensures JobClean(Apply(db, op))
  {
    hide Clean, JobShape, ApplyEdit;
    SameJobClean(db, Apply(db, op));
  }

  lemma ShapeJob(db: Db)
    requires Shape(db)
    ensures LevelsOk(db.levels) && JobShape(db)
  {
  }

  /** A step that starts nothing and touches the levels of no running compaction. */
  lemma SameJobClean(db: Db, db': Db)
    requires JobShape(db) && JobShape(db') && JobClean(db)
      && (db'.job.Some? ==> db'.job == db.job && db'.levels == db.levels)
    ensures JobClean(db')
  {
  }

  lemma EmitClean(db: Db, f: FileMeta)
    requires LevelsOk(db.levels) && JobShape(db) && JobClean(db) && CanEmit(db, f)
    ensures Clean(db.levels, EmitTo(db, f).job.value)
  {
    var j, j' := db.job.value, EmitTo(db, f).job.value;
    assert j'.Inputs() == j.Inputs();
    assert forall d :: Droppable(j', d) <==> Droppable(j, d);
  }

  lemma FlushClean(db: Db, level: nat, table: Option<FileMeta>)
    requires LevelsOk(db.levels) && JobShape(db) && JobClean(db) && CanFlush(db, level, table) && level < NUM_LEVELS
    ensures db.job.Some? ==> Clean(FlushTo(db, level, table).levels, db.job.value)
  {
    FlushedLevels(db, level, table);
    if db.job.Some? {
      FlushedClean(db, FlushTo(db, level, table).levels, db.job.value, level, table);
    }
  }

  /** A table flushed to the output level shares no key with the inputs. */
  lemma FlushAvoidsInputs(db: Db, j: Job, t: FileMeta, d: Entry, v: Entry)
    requires LevelsOk(db.levels) && InputsOk(db.levels, j) && FlushLevelOk(db.levels, j.level + 1, t) && t.Ok()
    requires d in UnionEntries(j.Inputs()) && v in t.entries
    ensures v.key.user != d.key.user
  {
    InputsMissFlush(db, j, j.level + 1, t);
    var f :| f in j.Inputs() && d in f.entries;
    EntryInFile(f, d);
    EntryInFile(t, v);
  }

  lemma FlushedClean(db: Db, levels': Levels, j: Job, level: nat, table: Option<FileMeta>)
    requires LevelsOk(db.levels) && InputsOk(db.levels, j) && Clean(db.levels, j)
    requires Flushed(db, levels', level, table)
    ensures Clean(levels', j)
  {
    if table.Some? && level == j.level + 1 {
      forall d, v | d in UnionEntries(j.Inputs()) && v in table.value.entries ensures v.key.user != d.key.user {
        FlushAvoidsInputs(db, j, table.value, d, v);
      }
    }
  }

  // ----- reads -----

  lemma StepReads(db: Db, op: Op)
    requires Shape(db) && JobClean(db) && ReadsOk(db) && Enabled(db, op)
    ensures ReadsOk(Apply(db, op))
  {
    hide ReadsOk, JobClean, JobShape, CommitTo, SwitchTo, FlushTo, StartTo, EmitTo, InstallTo, MoveTo, SnapshotTo;
    hide ReleaseTo, PinTo, UnpinTo, CollectTo, ReopenTo, CanCommit, CanStart, CanEmit, CanInstall, CanReopen;
    match op
    case Commit(batch) => CommitReads(db, batch);
    case Install => InstallReads(db);
    case Reopen(logs, tables, newLog) => ReopenReads(db, logs, tables, newLog);
    case Flush(level, table) => FlushReads(db, level, table);
    case Move(level, f) => MoveReads(db, level, f);
    case _ =>
      QuietReads(db, op);
  }

  lemma MoveReads(db: Db, level: nat, f: FileMeta)
    requires Shape(db) && ReadsOk(db) && Enabled(db, Move(level, f))
    ensures ReadsOk(Apply(db, Move(level, f)))
  {
    MoveShape(db, level, f);
    SameContentsReads(db, Apply(db, Move(level, f)));
  }

  lemma FlushReads(db: Db, level: nat, table: Option<FileMeta>)
    requires Shape(db) && ReadsOk(db) && CanFlush(db, level, table) && level < NUM_LEVELS
    ensures ReadsOk(FlushTo(db, level, table))
  {
    FlushedLevels(db, level, table);
    FlushedContents(db, FlushTo(db, level, table), level, table);
    SameContentsReads(db, FlushTo(db, level, table));
  }

  lemma QuietReads(db: Db, op: Op)
    requires Shape(db) && ReadsOk(db) && Enabled(db, op)
    requires !op.Commit? && !op.Install? && !op.Reopen? && !op.Flush? && !op.Move?
    ensures ReadsOk(Apply(db, op))
  {
    var db' := Apply(db, op);
    assert Contents(db') == Contents(db);
    assert db'.mem + ImmSet(db'.imm) == db.mem + ImmSet(db.imm);
    assert Floor(db) <= Floor(db');
    SameContentsReads(db, db');
  }

  /** Reads are right, and the running compaction, if any, leaves nothing to resurrect. */
  ghost predicate Good(db: Db) { JobShape(db) && JobClean(db) && ReadsOk(db) }

  lemma StepGood(db: Db, op: Op)
    requires Shape(db) && Enabled(db, op) && Good(db) && StartsClean(db, op)
    ensures Good(Apply(db, op))
  {
    StepShape(db, op);
    StepReads(db, op);
    StepClean(db, op);
  }

  /** The state after the steps ops from db, when each is enabled in turn. */
  ghost function Steps(db: Db, ops: seq<Op>): Option<Db> {
    if ops == [] then Some(db)
    else
      var m := Steps(db, ops[..|ops| - 1]);
      if m.Some? && Enabled(m.value, ops[|ops| - 1]) then Some(Apply(m.value, ops[|ops| - 1])) else None
  }

  lemma NoSteps(db: Db)
    ensures Steps(db, []) == Some(db)
  {
  }

  lemma OneStep(db: Db, op: Op) returns (ops: seq<Op>)
    requires Enabled(db, op)
    ensures ops == [op] && Steps(db, ops) == Some(Apply(db, op))
  {
    NoSteps(db);
    OneMoreStep(db, [], op);
    ops := [] + [op];
  }

  lemma OneMoreStep(db: Db, ops: seq<Op>, op: Op)
    requires Steps(db, ops).Some? && Enabled(Steps(db, ops).value, op)
    ensures Steps(db, ops + [op]) == Some(Apply(Steps(db, ops).value, op))
  {
    assert (ops + [op])[..|ops|] == ops;
  }

  lemma {:induction false} StepsJoin(db: Db, ops: seq<Op>, more: seq<Op>)
    requires Steps(db, ops).Some?
    ensures Steps(db, ops + more) == Steps(Steps(db, ops).value, more)
    decreases |more|
  {
    if more == [] {
      assert ops + more == ops;
    } else {
      StepsJoin(db, ops, more[..|more| - 1]);
      assert (ops + more)[..|ops + more| - 1] == ops + more[..|more| - 1];
    }
  }

  // ----- theorems -----

  /** In every run, at every step: layers ordered newest first, levels sorted and disjoint, the running
      compaction still installable, manifest and logs rebuilding the store, and no needed file deleted. */
  lemma {:induction false} EveryRunKeepsShape(dbs: seq<Db>, ops: seq<Op>, i: nat)
    requires Run(dbs, ops) && i < |dbs|
    ensures Shape(dbs[i])
  {
    if i == 0 {
      InitShape();
    } else {
      EveryRunKeepsShape(dbs, ops, i - 1);
      StepShape(dbs[i - 1], ops[i - 1]);
    }
  }

  /** In every run whose compactions are picked clean, every readable snapshot reads the committed history. */
  lemma {:induction false} CleanRunsReadHistory(dbs: seq<Db>, ops: seq<Op>, i: nat)
    requires Run(dbs, ops) && i < |dbs|
    requires forall k :: 0 <= k < |ops| ==> StartsClean(dbs[k], ops[k])
    ensures Shape(dbs[i]) && JobClean(dbs[i]) && ReadsOk(dbs[i])
  {
    if i == 0 {
      InitShape();
    } else {
      CleanRunsReadHistory(dbs, ops, i - 1);
      StepShape(dbs[i - 1], ops[i - 1]);
      StepReads(dbs[i - 1], ops[i - 1]);
      StepClean(dbs[i - 1], ops[i - 1]);
    }
  }

  /** The same, from a guard on file metadata alone: enough that no compaction leaves out a level+1 file that continues
      one it takes. */
  lemma GuardedRunsReadHistory(dbs: seq<Db>, ops: seq<Op>, i: nat)
    requires Run(dbs, ops) && i < |dbs|
    requires forall k :: 0 <= k < |ops| ==> StartsGuarded(dbs[k], ops[k])
    ensures ReadsOk(dbs[i])
  {
    hide ReadsOk, Shape, StartsClean, StartsGuarded, Enabled, Apply;
    forall k | 0 <= k < |ops| ensures StartsClean(dbs[k], ops[k]) {
      EveryRunKeepsShape(dbs, ops, k);
      GuardedIsClean(dbs[k], ops[k]);
    }
    CleanRunsReadHistory(dbs, ops, i);
  }

  // ----- a reader that runs beside later steps -----

  ghost predicate NoCrash(ops: seq<Op>, i: nat, k: nat)
    requires k <= |ops|
  {
    forall m :: i <= m < k ==> !ops[m].Reopen?
  }

  /** Without a crash the history only grows, by entries with larger numbers. */
  lemma {:induction false} HistoryGrows(dbs: seq<Db>, ops: seq<Op>, i: nat, k: nat)
    requires Run(dbs, ops) && i <= k < |dbs| && NoCrash(ops, i, k)
    ensures dbs[i].history <= dbs[k].history && dbs[i].last <= dbs[k].last
    ensures forall e :: e in dbs[k].history && e !in dbs[i].history ==> e.key.num > dbs[i].last
    decreases k
  {
    if i < k {
      HistoryGrows(dbs, ops, i, k - 1);
      StepHistory(dbs[k - 1], ops[k - 1]);
    }
  }

  lemma StepHistory(db: Db, op: Op)
    requires Enabled(db, op) && !op.Reopen?
    ensures var db' := Apply(db, op);
            db.history <= db'.history && db.last <= db'.last
              && forall e :: e in db'.history && e !in db.history ==> e.key.num > db.last
  {
    hide ApplyEdit;
  }

  /** A lookup releases the mutex once it has captured both memtables and the version. Later writes may still reach the
      memtable it holds (`more`), and the store may flush, compact and collect files; as long as the version stays
      pinned its files are on disk, and the lookup answers from the history at s, then and now. */
  lemma CapturedReads(dbs: seq<Db>, ops: seq<Op>, i: nat, k: nat, more: set<Entry>, u: UserKey, s: nat)
    requires Run(dbs, ops) && i <= k < |dbs| && NoCrash(ops, i, k) && ReadsOk(dbs[i])
    requires Floor(dbs[i]) <= s <= dbs[i].last && dbs[i].levels in dbs[k].pinned
    requires more <= SeqSet(dbs[k].history) - SeqSet(dbs[i].history)
    ensures OnDisk(dbs[i].levels, dbs[k].disk)
    ensures SameRead(SeqSet(dbs[i].history), Contents(dbs[i]) + more, u, s)
    ensures SameRead(SeqSet(dbs[k].history), Contents(dbs[i]) + more, u, s)
  {
    hide Contents, ReadsOk, Shape, Floor, OnDisk;
    EveryRunKeepsShape(dbs, ops, i);
    EveryRunKeepsShape(dbs, ops, k);
    HistoryGrows(dbs, ops, i, k);
    PinnedOnDisk(dbs[k], dbs[i].levels);
    CapturedReadable(dbs[i], u, s);
    var h, h' := SeqSet(dbs[i].history), SeqSet(dbs[k].history);
    assert h' == h + (h' - h);
    Unseen(h, h' - h, u, s);
    Unseen(Contents(dbs[i]), more, u, s);
  }

  lemma PinnedOnDisk(db: Db, levels: Levels)
    requires Shape(db) && levels in db.pinned
    ensures OnDisk(levels, db.disk)
  {
    hide OnDisk;
  }

  lemma CapturedReadable(db: Db, u: UserKey, s: nat)
    requires ReadsOk(db) && Floor(db) <= s
    ensures SameRead(SeqSet(db.history), Contents(db), u, s)
  {
    assert Readable(db, s);
  }

  /** Entries newer than s do not matter to a read at s. */
  lemma Unseen(es: set<Entry>, more: set<Entry>, u: UserKey, s: nat)
    requires forall e :: e in more ==> e.key.num > s
    ensures SameRead(es + more, es, u, s)
  {
    forall e ensures IsNewest(es + more, u, s, e) <==> IsNewest(es, u, s, e) { }
  }
}
