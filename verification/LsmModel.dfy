/** The store as a state machine. One value of Db is what the mutex protects plus
    the files on disk; one Op is one atomic step. Background compaction is three
    kinds of step (start, emit one output, install) so that writes, memtable
    switches, flushes and snapshots interleave with it. */
module LsmModel {
  import opened Wrappers
  import opened Keys
  import opened Reads
  import opened DropRules

  const NUM_LEVELS: nat := 7
  const MAX_MEM_COMPACT_LEVEL: nat := 2

  /** A table file: its metadata and the run it holds (tables are written once). */
  datatype FileMeta = FileMeta(number: nat, smallest: InternalKey, largest: InternalKey, entries: seq<Entry>) {
    /** The metadata describes a non-empty sorted run. */
    ghost predicate Ok() {
      && entries != [] && Sorted(entries)
      && smallest == entries[0].key && largest == entries[|entries| - 1].key
    }
    /** The user-key range of the file contains u. */
    predicate Spans(u: UserKey) { smallest.user <= u <= largest.user }
  }

  /** The user-key ranges of two files meet. */
  predicate Overlaps(f: FileMeta, g: FileMeta) {
    f.smallest.user <= g.largest.user && g.smallest.user <= f.largest.user
  }

  /** Where g and f share a user key, g's entries are the newer ones. */
  ghost predicate NewerThan(g: FileMeta, f: FileMeta) {
    forall e, x | e in f.entries && x in g.entries :: e.key.user == x.key.user ==> x.key.num > e.key.num
  }

  /** The tables of each level; a Version. */
  type Levels = seq<set<FileMeta>>

  /** One manifest record. */
  datatype Edit = Edit(deleted: set<(nat, nat)>, added: set<(nat, FileMeta)>,
                       logNumber: nat, nextFile: nat, lastSequence: SeqNo)

  /** A running compaction from `level` into `level + 1`. */
  datatype Job = Job(level: nat, in0: set<FileMeta>, in1: set<FileMeta>, snap: SeqNo,
                     base: Levels, outputs: seq<FileMeta>) {
    function Inputs(): set<FileMeta> { in0 + in1 }
  }

  type Batch = seq<Entry>

  datatype Db = Db(
    history: seq<Entry>,              // every entry ever committed, oldest first
    last: SeqNo,                      // versions_->LastSequence()
    mem: set<Entry>,
    imm: Option<set<Entry>>,
    levels: Levels,                   // versions_->current()
    nextFile: nat,
    snapshots: seq<SeqNo>,            // oldest first
    job: Option<Job>,
    logNumber: nat,                   // the log receiving writes
    logs: map<nat, seq<Batch>>,       // log files on disk
    disk: map<nat, seq<Entry>>,       // table files on disk
    manifest: seq<Edit>,              // manifest records on disk
    pinned: seq<Levels>)              // older versions readers still hold

  // ----- contents -----

  ghost function FileEntries(levels: Levels): set<Entry> {
    set l, f, e | 0 <= l < |levels| && f in levels[l] && e in f.entries :: e
  }

  ghost function SeqSet(es: seq<Entry>): set<Entry> { set e | e in es }

  ghost function ImmSet(imm: Option<set<Entry>>): set<Entry> { if imm.Some? then imm.value else {} }

  ghost function Contents(db: Db): set<Entry> { db.mem + ImmSet(db.imm) + FileEntries(db.levels) }

  ghost function UnionEntries(fs: set<FileMeta>): set<Entry> { set f, e | f in fs && e in f.entries :: e }

  // ----- where an entry is, and which place a read consults first -----

  datatype Place = InMem | InImm | InTable(level: nat, file: FileMeta)

  ghost predicate At(db: Db, p: Place, e: Entry) {
    match p
    case InMem => e in db.mem
    case InImm => e in ImmSet(db.imm)
    case InTable(l, f) => l < |db.levels| && f in db.levels[l] && e in f.entries
  }

  predicate Above(p: Place, q: Place) {
    match p
    case InMem => !q.InMem?
    case InImm => q.InTable?
    case InTable(l, f) => q.InTable? && (l < q.level || (l == q.level == 0 && f.number > q.file.number))
  }

  // ----- structural invariants -----

  ghost predicate LevelsOk(levels: Levels) {
    && |levels| == NUM_LEVELS
    && (forall l, f :: 0 <= l < NUM_LEVELS && f in levels[l] ==> f.Ok())
    && (forall l, f, g :: 1 <= l < NUM_LEVELS && f in levels[l] && g in levels[l] && f != g
                          ==> Less(f.largest, g.smallest) || Less(g.largest, f.smallest))
    && (forall l, k, f, g | 0 <= l < NUM_LEVELS && 0 <= k < NUM_LEVELS && f in levels[l] && g in levels[k]
          :: f.number == g.number ==> l == k && f == g)
  }

  ghost predicate HistoryOk(db: Db) {
    && (forall i, j :: 0 <= i < j < |db.history| ==> db.history[i].key.num < db.history[j].key.num)
    && (forall e :: e in db.history ==> 1 <= e.key.num <= db.last)
    && (forall e :: e in Contents(db) ==> e in db.history)
  }

  /** A read that consults places from the top down meets newer entries first. */
  ghost predicate Layered(db: Db) {
    forall p, q, e, x :: At(db, p, e) && At(db, q, x) && e.key.user == x.key.user && Above(p, q)
                         ==> e.key.num > x.key.num
  }

  ghost predicate NumbersOk(db: Db) {
    && (forall l, f :: 0 <= l < |db.levels| && f in db.levels[l] ==> f.number < db.nextFile)
    && (forall n :: n in db.logs ==> n < db.nextFile)
    && db.logNumber in db.logs
    && (forall n :: n in db.logs ==> n <= db.logNumber)
  }

  ghost predicate SnapshotsOk(db: Db) {
    && db.last < MAX_SEQUENCE
    && (forall i, j :: 0 <= i < j < |db.snapshots| ==> db.snapshots[i] <= db.snapshots[j])
    && (forall i :: 0 <= i < |db.snapshots| ==> db.snapshots[i] <= db.last)
  }

  /** The oldest sequence number a reader may still ask for (smallest_snapshot). */
  function Floor(db: Db): SeqNo { if db.snapshots == [] then db.last else db.snapshots[0] }

  // ----- compaction -----

  /** IsBaseLevelForKey by a full scan: no table two or more levels below the inputs spans u. */
  ghost predicate BaseLevel(levels: Levels, level: nat, u: UserKey) {
    forall l, f :: level + 2 <= l < |levels| && f in levels[l] ==> !f.Spans(u)
  }

  /** Rule (B): an old deletion marker with nothing below the output level. */
  ghost predicate Droppable(j: Job, e: Entry) {
    e.key.kind == Deletion && e.key.num <= j.snap && BaseLevel(j.base, j.level, e.key.user)
  }

  /** The drop decision of the compaction loop, stated on the set of input entries. */
  ghost predicate Dropped(j: Job, e: Entry) {
    Hidden(UnionEntries(j.Inputs()), j.snap, e) || Droppable(j, e)
  }

  ghost function Kept(j: Job): set<Entry> {
    set e | e in UnionEntries(j.Inputs()) && !Dropped(j, e)
  }

  /** f lies before every input, or after every input, in internal-key order. */
  ghost predicate Clear(f: FileMeta, inputs: set<FileMeta>)
  {
    || (forall g :: g in inputs ==> Less(f.largest, g.smallest))
    || (forall g :: g in inputs ==> Less(g.largest, f.smallest))
  }

  predicate Between(f: FileMeta, u: UserKey, g: FileMeta) {
    f.smallest.user <= u <= g.largest.user
  }

  /** The inputs' user-key ranges leave no gap. */
  ghost predicate Covered(inputs: set<FileMeta>) {
    forall u, f, g :: f in inputs && g in inputs && Between(f, u, g) ==> exists h :: h in inputs && h.Spans(u)
  }

  ghost predicate InputsOk(levels: Levels, j: Job) {
    && |levels| == |j.base| == NUM_LEVELS && j.level + 1 < NUM_LEVELS
    && j.in0 <= levels[j.level] && j.in1 <= levels[j.level + 1]
    && Covered(j.Inputs())
  }

  /** Files left at the input level hold only newer entries of an input's keys. */
  ghost predicate NoneOlder(levels: Levels, j: Job)
    requires InputsOk(levels, j)
  {
    forall f, g | f in j.in0 && g in levels[j.level] :: g !in j.in0 ==> NewerThan(g, f)
  }

  /** Files left at the output level are clear of all inputs. */
  ghost predicate NoneBetween(levels: Levels, j: Job)
    requires InputsOk(levels, j)
  {
    forall g | g in levels[j.level + 1] :: g !in j.in1 ==>
      Clear(g, j.Inputs()) && forall f :: f in j.in0 ==> !Overlaps(f, g)
  }

  /** What picking a compaction establishes (PickCompaction and SetupOtherInputs). */
  ghost predicate Picked(levels: Levels, level: nat, in0: set<FileMeta>, in1: set<FileMeta>) {
    var j := Job(level, in0, in1, 0, levels, []);
    in0 != {} && InputsOk(levels, j) && NoneOlder(levels, j) && NoneBetween(levels, j)
  }

  /** The deletion markers rule (B) drops. */
  ghost function Markers(j: Job): set<Entry> { set e | e in UnionEntries(j.Inputs()) && Droppable(j, e) }

  /** The entries of the level+1 files that are not inputs. */
  ghost function Beside(db: Db, j: Job): set<Entry> {
    if j.level + 1 < |db.levels| then UnionEntries(db.levels[j.level + 1] - j.in1) else {}
  }

  /** No dropped marker uncovers an older value beside the inputs. */
  ghost predicate Safe(db: Db, j: Job) {
    forall d, v :: !Uncovers(Contents(db), Markers(j), Beside(db, j), j.snap, d, v)
  }

  /** f starts after `key` with the same user key. */
  predicate Continues(f: FileMeta, key: InternalKey) { Less(key, f.smallest) && f.smallest.user == key.user }

  /** What the picker can check in the metadata: no level+1 file left out continues the last key of one taken. */
  ghost predicate NoneContinues(levels: Levels, level: nat, in1: set<FileMeta>)
    requires level + 1 < |levels|
  {
    forall f, g | f in in1 && g in levels[level + 1] :: g !in in1 ==> !Continues(g, f.largest)
  }

  /** The condition under which the drop rules are right, on the entries themselves: no level+1 file left out of the
      inputs holds an older entry of a key whose deletion marker the loop may drop. */
  ghost predicate Clean(levels: Levels, j: Job)
    requires |levels| == NUM_LEVELS && j.level + 1 < NUM_LEVELS
  {
    forall d, g, v | d in UnionEntries(j.Inputs()) && g in levels[j.level + 1] && v in g.entries
      :: g !in j.in1 && Droppable(j, d) && v.key.user == d.key.user ==> v.key.num > d.key.num
  }

  // ----- manifest and logs -----

  ghost function AddedAt(added: set<(nat, FileMeta)>, l: nat): set<FileMeta> {
    set p | p in added && p.0 == l :: p.1
  }

  /** Builder.Apply followed by SaveTo, level by level. */
  ghost function ApplyEdit(levels: Levels, e: Edit): Levels {
    seq(|levels|, l requires 0 <= l < |levels| =>
      (set f | f in levels[l] && (l, f.number) !in e.deleted) + AddedAt(e.added, l))
  }

  function EmptyLevels(): Levels { seq(NUM_LEVELS, _ => {}) }

  /** Replaying the manifest (VersionSet::Recover). */
  ghost function Replay(manifest: seq<Edit>): (levels: Levels)
    ensures |levels| == NUM_LEVELS
  {
    if manifest == [] then EmptyLevels()
    else ApplyEdit(Replay(manifest[..|manifest| - 1]), manifest[|manifest| - 1])
  }

  function LastEdit(manifest: seq<Edit>): Edit
    requires manifest != []
  {
    manifest[|manifest| - 1]
  }

  function Flatten(records: seq<Batch>): seq<Entry> {
    if records == [] then [] else Flatten(records[..|records| - 1]) + records[|records| - 1]
  }

  /** The entries of the logs numbered from `from` up to but not including `upto`. */
  ghost function LogRange(logs: map<nat, seq<Batch>>, from: nat, upto: nat): set<Entry> {
    set n, e | n in logs && from <= n < upto && e in Flatten(logs[n]) :: e
  }

  /** What recovery reads back: the entries of every log numbered at least `from`. */
  ghost function LogEntries(logs: map<nat, seq<Batch>>, from: nat): set<Entry> {
    set n, e | n in logs && n >= from && e in Flatten(logs[n]) :: e
  }

  function LiveNumbers(levels: Levels): set<nat> {
    set l, f | 0 <= l < |levels| && f in levels[l] :: f.number
  }

  // ----- the steps -----

  datatype Op =
    | Commit(batch: Batch)                                         // DBImpl::Write, the whole group
    | Switch                                                       // MakeRoomForWrite
    | Flush(level: nat, flushed: Option<FileMeta>)                  // CompactMemTable
    | Start(level: nat, in0: set<FileMeta>, in1: set<FileMeta>)    // PickCompaction
    | Emit(file: FileMeta)                                         // FinishCompactionOutputFile
    | Install                                                      // InstallCompactionResults
    | Move(level: nat, file: FileMeta)                             // trivial move
    | TakeSnapshot
    | ReleaseSnapshot(index: nat)
    | Pin                                                          // a reader takes current()
    | Unpin(index: nat)
    | Collect                                                      // RemoveObsoleteFiles
    | Reopen(logs: map<nat, seq<Batch>>, tables: set<FileMeta>, newLog: nat) // crash, then Recover and Open

  /** The group's entries take the next sequence numbers. */
  ghost predicate Numbered(batch: Batch, last: nat) {
    forall i :: 0 <= i < |batch| ==> batch[i].key.num == last + 1 + i
  }

  function FlushEdit(db: Db, level: nat, table: Option<FileMeta>): Edit {
    Edit({}, if table.Some? then {(level, table.value)} else {}, db.logNumber, db.nextFile + 1, db.last)
  }

  /** AddInputDeletions and the outputs' additions. */
  function JobEdit(j: Job, logNumber: nat, nextFile: nat, last: SeqNo): Edit {
    Edit((set f | f in j.in0 :: (j.level, f.number)) + (set f | f in j.in1 :: (j.level + 1, f.number)),
         set f | f in j.outputs :: (j.level + 1, f), logNumber, nextFile, last)
  }

  function InstallEdit(db: Db, j: Job): Edit
    requires db.manifest != []
  {
    JobEdit(j, LastEdit(db.manifest).logNumber, db.nextFile, db.last)
  }

  function MoveEdit(db: Db, level: nat, f: FileMeta): Edit
    requires db.manifest != []
  {
    Edit({(level, f.number)}, {(level + 1, f)}, LastEdit(db.manifest).logNumber, db.nextFile, db.last)
  }

  function SnapshotEdit(levels: Levels, e: Edit): Edit {
    e.(deleted := {}, added := set l, f | 0 <= l < |levels| && f in levels[l] :: (l, f))
  }

  function ReopenEdit(tables: set<FileMeta>, newLog: nat, last: SeqNo): Edit {
    Edit({}, set f | f in tables :: (0, f), newLog, newLog + 1, last)
  }

  /** A flushed memtable may skip to `level` only past levels that its key range does not meet. */
  ghost predicate FlushLevelOk(levels: Levels, level: nat, f: FileMeta) {
    level > 0 ==> forall l, g :: 0 <= l <= level < |levels| && g in levels[l] ==> !Overlaps(g, f)
  }

  ghost predicate TableOf(f: FileMeta, number: nat, es: set<Entry>) {
    f.number == number && f.Ok() && SeqSet(f.entries) == es
  }

  ghost function FileNumbers(db: Db): set<nat> {
    LiveNumbers(db.levels)
    + (set v, n | v in db.pinned && n in LiveNumbers(v) :: n)
    + (if db.job.Some? then LiveNumbers(db.job.value.base) + (set f | f in db.job.value.outputs :: f.number) else {})
  }

  /** A crash leaves of each log file a prefix of its records, or nothing. */
  ghost predicate Crashed(logs: map<nat, seq<Batch>>, survivors: map<nat, seq<Batch>>) {
    forall n :: n in survivors ==> n in logs && survivors[n] <= logs[n]
  }

  /** The tables recovery builds from the surviving logs: together they hold exactly the replayed
      entries, each under a fresh number, later entries under larger numbers. */
  ghost predicate RecoveredTables(tables: set<FileMeta>, es: set<Entry>, firstNumber: nat) {
    && (forall f :: f in tables ==> f.Ok() && f.number >= firstNumber)
    && (forall f, g :: f in tables && g in tables && f.number == g.number ==> f == g)
    && (forall f, g, e, x | f in tables && g in tables && e in f.entries && x in g.entries
          :: f.number < g.number ==> e.key.num < x.key.num)
    && UnionEntries(tables) == es
  }

  /** The larger of `floor` and the largest sequence number in es. */
  ghost function MaxNumber(es: set<Entry>, floor: SeqNo): (m: SeqNo)
    ensures floor <= m && forall e :: e in es ==> e.key.num <= m
    ensures m == floor || exists e :: e in es && e.key.num == m
  {
    if es == {} then floor
    else
      var e :| e in es;
      var m := MaxNumber(es - {e}, floor);
      if e.key.num > m then e.key.num else m
  }

  // Each step: when it may happen, and the state it leads to.

  ghost predicate CanCommit(db: Db, batch: Batch) {
    db.last + |batch| < MAX_SEQUENCE && Numbered(batch, db.last) && db.logNumber in db.logs
  }

  ghost function CommitTo(db: Db, batch: Batch): Db
    requires CanCommit(db, batch)
  {
    db.(history := db.history + batch, last := db.last + |batch|, mem := db.mem + SeqSet(batch),
        logs := db.logs[db.logNumber := db.logs[db.logNumber] + [batch]])
  }

  function SwitchTo(db: Db): Db
    requires db.imm.None?
  {
    db.(mem := {}, imm := Some(db.mem), logNumber := db.nextFile, logs := db.logs[db.nextFile := []],
        nextFile := db.nextFile + 1)
  }

  ghost predicate CanFlush(db: Db, level: nat, table: Option<FileMeta>) {
    && db.imm.Some? && level <= MAX_MEM_COMPACT_LEVEL
    && (table.None? <==> db.imm.value == {})
    && (table.Some? ==> TableOf(table.value, db.nextFile, db.imm.value) && FlushLevelOk(db.levels, level, table.value))
  }

  ghost function FlushTo(db: Db, level: nat, table: Option<FileMeta>): Db {
    var e := FlushEdit(db, level, table);
    db.(imm := None, levels := ApplyEdit(db.levels, e), manifest := db.manifest + [e], nextFile := db.nextFile + 1,
        disk := if table.Some? then db.disk[db.nextFile := table.value.entries] else db.disk)
  }

  ghost predicate CanStart(db: Db, level: nat, in0: set<FileMeta>, in1: set<FileMeta>) {
    db.job.None? && Picked(db.levels, level, in0, in1)
  }

  function StartTo(db: Db, level: nat, in0: set<FileMeta>, in1: set<FileMeta>): Db {
    db.(job := Some(Job(level, in0, in1, Floor(db), db.levels, [])))
  }

  ghost predicate CanEmit(db: Db, f: FileMeta) {
    && db.job.Some? && f.Ok() && f.number == db.nextFile
    && SeqSet(f.entries) <= Kept(db.job.value)
    && (forall g :: g in db.job.value.outputs ==> Less(g.largest, f.smallest))
  }

  function EmitTo(db: Db, f: FileMeta): Db
    requires db.job.Some?
  {
    db.(job := Some(db.job.value.(outputs := db.job.value.outputs + [f])), nextFile := db.nextFile + 1,
        disk := db.disk[db.nextFile := f.entries])
  }

  ghost predicate CanInstall(db: Db) {
    && db.job.Some? && db.manifest != []
    && UnionEntries(set f | f in db.job.value.outputs) == Kept(db.job.value)
  }

  ghost function InstallTo(db: Db): Db
    requires db.job.Some? && db.manifest != []
  {
    var e := InstallEdit(db, db.job.value);
    db.(job := None, levels := ApplyEdit(db.levels, e), manifest := db.manifest + [e])
  }

  ghost predicate CanMove(db: Db, level: nat, f: FileMeta) {
    db.job.None? && db.manifest != [] && Picked(db.levels, level, {f}, {})
  }

  ghost function MoveTo(db: Db, level: nat, f: FileMeta): Db
    requires db.manifest != []
  {
    var e := MoveEdit(db, level, f);
    db.(levels := ApplyEdit(db.levels, e), manifest := db.manifest + [e])
  }

  function SnapshotTo(db: Db): Db { db.(snapshots := db.snapshots + [db.last]) }

  function ReleaseTo(db: Db, i: nat): Db
    requires i < |db.snapshots|
  {
    db.(snapshots := db.snapshots[..i] + db.snapshots[i + 1..])
  }

  function PinTo(db: Db): Db { db.(pinned := db.pinned + [db.levels]) }

  function UnpinTo(db: Db, i: nat): Db
    requires i < |db.pinned|
  {
    db.(pinned := db.pinned[..i] + db.pinned[i + 1..])
  }

  ghost function CollectTo(db: Db): Db
    requires db.manifest != []
  {
    db.(disk := map n | n in db.disk && n in FileNumbers(db) :: db.disk[n],
        logs := map n | n in db.logs && n >= LastEdit(db.manifest).logNumber :: db.logs[n])
  }

  ghost predicate CanReopen(db: Db, logs: map<nat, seq<Batch>>, tables: set<FileMeta>, newLog: nat) {
    && db.manifest != [] && Crashed(db.logs, logs)
    && RecoveredTables(tables, Replayed(db, logs), LastEdit(db.manifest).nextFile)
    && (forall f :: f in tables ==> f.number < newLog)
    && LastEdit(db.manifest).nextFile <= newLog
  }

  /** What recovery reads back from the logs a crash left. */
  ghost function Replayed(db: Db, logs: map<nat, seq<Batch>>): set<Entry>
    requires db.manifest != []
  {
    LogEntries(logs, LastEdit(db.manifest).logNumber)
  }

  ghost function RecoveredLast(db: Db, logs: map<nat, seq<Batch>>): SeqNo
    requires db.manifest != []
  {
    MaxNumber(Replayed(db, logs), LastEdit(db.manifest).lastSequence)
  }

  /** The table files of the new version: those recovery wrote, over those found on disk. */
  ghost function RecoveredDisk(disk: map<nat, seq<Entry>>, levels: Levels, tables: set<FileMeta>): map<nat, seq<Entry>>
    requires forall f, g :: f in tables && g in tables && f.number == g.number ==> f == g
  {
    var written := disk + map f | f in tables :: f.number := f.entries;
    map n | n in LiveNumbers(levels) && n in written :: written[n]
  }

  /** h without the entries in lost. */
  ghost function Without(h: seq<Entry>, lost: set<Entry>): seq<Entry> {
    if h == [] then []
    else
      var front := Without(h[..|h| - 1], lost);
      if h[|h| - 1] in lost then front else front + [h[|h| - 1]]
  }

  /** The entries of the memtables that recovery does not read back. */
  ghost function Lost(db: Db, logs: map<nat, seq<Batch>>): set<Entry>
    requires db.manifest != []
  {
    db.mem + ImmSet(db.imm) - Replayed(db, logs)
  }

  /** The history recovery returns to: everything but the entries the crash lost. */
  ghost function SurvivingHistory(db: Db, logs: map<nat, seq<Batch>>): seq<Entry>
    requires db.manifest != []
  {
    Without(db.history, Lost(db, logs))
  }

  ghost function ReopenTo(db: Db, logs: map<nat, seq<Batch>>, tables: set<FileMeta>, newLog: nat): Db
    requires CanReopen(db, logs, tables, newLog)
  {
    var base := Replay(db.manifest);
    var e := ReopenEdit(tables, newLog, RecoveredLast(db, logs));
    var levels := ApplyEdit(base, e);
    Db(SurvivingHistory(db, logs), e.lastSequence, {}, None, levels, newLog + 1, [], None, newLog, map[newLog := []],
       RecoveredDisk(db.disk, levels, tables),
       [SnapshotEdit(base, e), e], [])
  }

  ghost predicate Enabled(db: Db, op: Op) {
    match op
    case Commit(batch) => CanCommit(db, batch)
    case Switch => db.imm.None?
    case Flush(level, table) => CanFlush(db, level, table)
    case Start(level, in0, in1) => CanStart(db, level, in0, in1)
    case Emit(f) => CanEmit(db, f)
    case Install => CanInstall(db)
    case Move(level, f) => CanMove(db, level, f)
    case TakeSnapshot => true
    case ReleaseSnapshot(i) => i < |db.snapshots|
    case Pin => true
    case Unpin(i) => i < |db.pinned|
    case Collect => db.manifest != []
    case Reopen(logs, tables, newLog) => CanReopen(db, logs, tables, newLog)
  }

  ghost function Apply(db: Db, op: Op): Db
    requires Enabled(db, op)
  {
    match op
    case Commit(batch) => CommitTo(db, batch)
    case Switch => SwitchTo(db)
    case Flush(level, table) => FlushTo(db, level, table)
    case Start(level, in0, in1) => StartTo(db, level, in0, in1)
    case Emit(f) => EmitTo(db, f)
    case Install => InstallTo(db)
    case Move(level, f) => MoveTo(db, level, f)
    case TakeSnapshot => SnapshotTo(db)
    case ReleaseSnapshot(i) => ReleaseTo(db, i)
    case Pin => PinTo(db)
    case Unpin(i) => UnpinTo(db, i)
    case Collect => CollectTo(db)
    case Reopen(logs, tables, newLog) => ReopenTo(db, logs, tables, newLog)
  }

  // ----- invariants of the whole state -----

  /** What the picked version called the base level for an input key still is. */
  ghost predicate BaseHolds(levels: Levels, j: Job)
    requires InputsOk(levels, j)
  {
    forall e, l, g | e in UnionEntries(j.Inputs()) && j.level + 2 <= l < NUM_LEVELS && g in levels[l]
      :: BaseLevel(j.base, j.level, e.key.user) ==> !g.Spans(e.key.user)
  }

  ghost predicate JobShape(db: Db) {
    db.job.Some? ==>
      var j := db.job.value;
      && j.snap <= Floor(db) && InputsOk(db.levels, j) && NoneOlder(db.levels, j)
      && NoneBetween(db.levels, j) && BaseHolds(db.levels, j) && OutputsOk(db, j)
  }

  ghost predicate OutputsOk(db: Db, j: Job) {
    && (forall f :: f in j.outputs ==> f.Ok() && f.number < db.nextFile && f.number !in LiveNumbers(db.levels)
                                       && SeqSet(f.entries) <= Kept(j))
    && (forall i, k :: 0 <= i < k < |j.outputs| ==> Less(j.outputs[i].largest, j.outputs[k].smallest)
                                                    && j.outputs[i].number < j.outputs[k].number)
  }

  ghost predicate JobClean(db: Db)
    requires JobShape(db)
  {
    db.job.Some? ==> Clean(db.levels, db.job.value)
  }

  /** The logs from LogNumber on hold exactly what the memtables hold, oldest log first. */
  ghost predicate LogsOk(db: Db) {
    && db.manifest != [] && db.logNumber in db.logs
    && LastEdit(db.manifest).logNumber <= db.logNumber
    && db.mem == SeqSet(Flatten(db.logs[db.logNumber]))
    && |Flatten(db.logs[db.logNumber])| <= |db.history|
    && Flatten(db.logs[db.logNumber]) == db.history[|db.history| - |Flatten(db.logs[db.logNumber])|..]
    && ImmSet(db.imm) == LogRange(db.logs, LastEdit(db.manifest).logNumber, db.logNumber)
  }

  /** Everything outside the memtables was committed no later than the manifest's last sequence number. */
  ghost predicate ManifestOk(db: Db) {
    && db.manifest != []
    && Replay(db.manifest) == db.levels
    && LastEdit(db.manifest).lastSequence <= db.last
    && LastEdit(db.manifest).nextFile <= db.nextFile
    && (forall e :: e in db.history && e !in db.mem && e !in ImmSet(db.imm)
                    ==> e.key.num <= LastEdit(db.manifest).lastSequence)
    && (forall l, f :: 0 <= l < |db.levels| && f in db.levels[l] ==> f.number < LastEdit(db.manifest).nextFile)
  }

  ghost predicate OnDisk(levels: Levels, disk: map<nat, seq<Entry>>) {
    forall l, f :: 0 <= l < |levels| && f in levels[l] ==> f.number in disk && disk[f.number] == f.entries
  }

  /** Every table a reader, the compaction or recovery may open is on disk with its contents. */
  ghost predicate DiskOk(db: Db) {
    && OnDisk(db.levels, db.disk)
    && (forall v :: v in db.pinned ==> OnDisk(v, db.disk))
    && (db.job.Some? ==> OnDisk(db.job.value.base, db.disk)
                         && forall f :: f in db.job.value.outputs ==>
                            f.number in db.disk && db.disk[f.number] == f.entries)
    && (forall n :: n in db.disk ==> n < db.nextFile)
  }

  /** Everything flushed is older than everything in the memtables. */
  ghost predicate FlushedFirst(db: Db) {
    forall e, x :: e in db.history && e !in db.mem && e !in ImmSet(db.imm) && (x in db.mem || x in ImmSet(db.imm))
                   ==> e.key.num < x.key.num
  }

  /** The structural invariant. */
  ghost predicate Shape(db: Db) {
    && LevelsOk(db.levels) && HistoryOk(db) && Layered(db) && NumbersOk(db) && SnapshotsOk(db) && JobShape(db)
    && LogsOk(db) && ManifestOk(db) && DiskOk(db) && FlushedFirst(db)
  }

  /** A reader may ask for s: a live snapshot or later, or no older than everything already flushed. */
  ghost predicate Readable(db: Db, s: nat) {
    Floor(db) <= s || forall e :: e in db.history && e !in db.mem && e !in ImmSet(db.imm) ==> e.key.num <= s
  }

  /** Every readable snapshot reads what the history of committed writes says. */
  ghost predicate ReadsOk(db: Db) {
    forall u, s :: Readable(db, s) ==> SameRead(SeqSet(db.history), Contents(db), u, s)
  }
}
