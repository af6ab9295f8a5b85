/** Snapshots, pinned versions, file collection, and crash recovery keep the structural invariant. */
module LsmRecovery {
  import opened Wrappers
  import opened Keys
  import opened Reads
  import opened LsmModel
  import opened LsmShape

  // ----- steps that leave the stored entries alone -----

  lemma SnapshotShape(db: Db)
    requires Shape(db)
    ensures Shape(SnapshotTo(db))
  {
    SameStore(db, SnapshotTo(db));
    FloorRises(db, SnapshotTo(db));
  }

  lemma ReleaseShape(db: Db, i: nat)
    requires Shape(db) && i < |db.snapshots|
    ensures Shape(ReleaseTo(db, i))
  {
    SameStore(db, ReleaseTo(db, i));
    FloorRises(db, ReleaseTo(db, i));
  }

  lemma FloorRises(db: Db, db': Db)
    requires JobShape(db) && Floor(db) <= Floor(db')
    requires db'.job == db.job && db'.levels == db.levels && db'.nextFile == db.nextFile
    ensures JobShape(db')
  {
  }

  lemma PinShape(db: Db)
    requires Shape(db)
    ensures Shape(PinTo(db))
  {
    SameStore(db, PinTo(db));
    FloorRises(db, PinTo(db));
  }

  lemma UnpinShape(db: Db, i: nat)
    requires Shape(db) && i < |db.pinned|
    ensures Shape(UnpinTo(db, i))
  {
    SameStore(db, UnpinTo(db, i));
    FloorRises(db, UnpinTo(db, i));
  }

  // ----- file collection -----

  lemma CollectShape(db: Db)
    requires Shape(db)
    ensures Shape(CollectTo(db))
  {
    SameStore(db, CollectTo(db));
    FloorRises(db, CollectTo(db));
    CollectKeeps(db);
    SameLogRange(db.logs, CollectTo(db).logs, LastEdit(db.manifest).logNumber, db.logNumber);
  }

  /** RemoveObsoleteFiles deletes no table that a live version, a pinned version or the running compaction
      needs, and no log that recovery replays. */
  lemma CollectKeeps(db: Db)
    requires DiskOk(db) && LogsOk(db)
    ensures DiskOk(CollectTo(db))
    ensures forall n :: n >= LastEdit(db.manifest).logNumber ==>
              (n in db.logs <==> n in CollectTo(db).logs) && (n in db.logs ==> CollectTo(db).logs[n] == db.logs[n])
  {
    var db' := CollectTo(db);
    forall v: Levels, l, f | (v == db.levels || v in db.pinned || (db.job.Some? && v == db.job.value.base))
      && 0 <= l < |v| && f in v[l] ensures f.number in FileNumbers(db)
    {
      assert f.number in LiveNumbers(v);
    }
  }

  // ----- recovery -----

  lemma {:induction false} FlattenPrefix(records: seq<Batch>, kept: nat)
    requires kept <= |records|
    ensures |Flatten(records[..kept])| <= |Flatten(records)|
    ensures Flatten(records[..kept]) == Flatten(records)[..|Flatten(records[..kept])|]
  {
    if kept == |records| {
      assert records[..kept] == records;
    } else {
      var front := records[..|records| - 1];
      FlattenPrefix(front, kept);
      assert front[..kept] == records[..kept];
    }
  }

  lemma FlattenCut(records: seq<Batch>, survivors: seq<Batch>)
    requires survivors <= records
    ensures Flatten(survivors) <= Flatten(records)
  {
    FlattenPrefix(records, |survivors|);
    assert records[..|survivors|] == survivors;
  }

  /** What the surviving logs replay was in the memtables. */
  lemma ReplayedWithin(db: Db, logs: map<nat, seq<Batch>>)
    requires LogsOk(db) && NumbersOk(db) && Crashed(db.logs, logs)
    ensures Replayed(db, logs) <= db.mem + ImmSet(db.imm)
  {
    var from := LastEdit(db.manifest).logNumber;
    forall e | e in Replayed(db, logs) ensures e in db.mem + ImmSet(db.imm) {
      var n :| n in logs && n >= from && e in Flatten(logs[n]);
      FlattenCut(db.logs[n], logs[n]);
      assert e in Flatten(db.logs[n]);
      if n < db.logNumber { assert e in LogRange(db.logs, from, db.logNumber); }
    }
  }

  lemma {:induction false} WithoutAre(h: seq<Entry>, lost: set<Entry>)
    ensures forall e :: e in Without(h, lost) <==> e in h && e !in lost
  {
    if h != [] {
      var front, last := h[..|h| - 1], h[|h| - 1];
      WithoutAre(front, lost);
      assert h == front + [last];
      forall e ensures e in Without(h, lost) <==> e in h && e !in lost {
        assert e in h <==> e in front || e == last;
      }
    }
  }

  ghost predicate NumbersGrow(h: seq<Entry>) { forall i, j :: 0 <= i < j < |h| ==> h[i].key.num < h[j].key.num }

  lemma {:induction false} WithoutGrows(h: seq<Entry>, lost: set<Entry>)
    requires NumbersGrow(h)
    ensures NumbersGrow(Without(h, lost))
  {
    if h != [] {
      var front, last := h[..|h| - 1], h[|h| - 1];
      assert NumbersGrow(front) by { assert forall i :: 0 <= i < |front| ==> front[i] == h[i]; }
      WithoutGrows(front, lost);
      WithoutAre(front, lost);
      var w := Without(front, lost);
      forall e | e in w ensures e.key.num < last.key.num {
        var i :| 0 <= i < |front| && front[i] == e;
        assert h[i] == e;
      }
      assert forall i :: 0 <= i < |w| ==> w[i] in w;
    }
  }

  /** The levels after recovery: the replayed version plus the recovered tables at level 0. */
  ghost predicate Recovered(levels: Levels, levels': Levels, tables: set<FileMeta>) {
    && |levels| == |levels'| == NUM_LEVELS
    && (forall l, f {:trigger f in levels'[l]} :: 0 <= l < NUM_LEVELS && f in levels'[l] ==>
         f in levels[l] || (l == 0 && f in tables))
    && (forall l, f :: 0 <= l < NUM_LEVELS && f in levels[l] ==> f in levels'[l])
    && (forall f :: f in tables ==> f in levels'[0])
  }

  lemma RecoveredLevels(db: Db, logs: map<nat, seq<Batch>>, tables: set<FileMeta>, newLog: nat)
    requires ManifestOk(db) && CanReopen(db, logs, tables, newLog) && |db.levels| == NUM_LEVELS
    ensures Recovered(db.levels, ReopenTo(db, logs, tables, newLog).levels, tables)
  {
    var e := ReopenEdit(tables, newLog, RecoveredLast(db, logs));
    forall l: nat | l < NUM_LEVELS { EditLevel(db.levels, e, l); }
  }

  /** The fresh manifest of a reopened store replays to its version. */
  lemma FreshManifest(levels: Levels, e: Edit)
    requires |levels| == NUM_LEVELS
    ensures Replay([SnapshotEdit(levels, e), e]) == ApplyEdit(levels, e)
  {
    var s := SnapshotEdit(levels, e);
    assert [s, e] == [s] + [e];
    ReplayOne([], s);
    assert [] + [s] == [s];
    ReplayOne([s], e);
    var built := ApplyEdit(EmptyLevels(), s);
    forall l: nat | l < NUM_LEVELS ensures built[l] == levels[l] { EditLevel(EmptyLevels(), s, l); }
    assert built == levels;
  }

  lemma RecoveredLevelsOk(db: Db, levels': Levels, tables: set<FileMeta>, es: set<Entry>)
    requires LevelsOk(db.levels) && ManifestOk(db)
    requires Recovered(db.levels, levels', tables) && RecoveredTables(tables, es, LastEdit(db.manifest).nextFile)
    ensures LevelsOk(levels')
  {
    var next := LastEdit(db.manifest).nextFile;
    forall l, f | 0 <= l < NUM_LEVELS && f in levels'[l]
      ensures f.Ok() && (if f in tables then l == 0 && f.number >= next else f in db.levels[l] && f.number < next)
    {
    }
  }

  lemma RecoveredPlaces(db: Db, db': Db, tables: set<FileMeta>, es: set<Entry>, p: Place, e: Entry)
    requires Recovered(db.levels, db'.levels, tables) && UnionEntries(tables) == es
    requires es <= db.mem + ImmSet(db.imm) && db'.mem == {} && db'.imm == None && At(db', p, e)
    ensures p.InTable?
    ensures if p.level == 0 && p.file in tables then At(db, InMem, e) || At(db, InImm, e) else At(db, p, e)
  {
    if p.level == 0 && p.file in tables {
      assert e in es;
    }
  }

  /** Recovered tables are numbered above every table of the replayed version. */
  ghost predicate NumberedAbove(levels: Levels, tables: set<FileMeta>) {
    forall l, f, t :: 0 <= l < |levels| && f in levels[l] && t in tables ==> f.number < t.number
  }

  lemma RecoveredLayered(db: Db, db': Db, tables: set<FileMeta>, es: set<Entry>)
    requires Layered(db) && NumberedAbove(db.levels, tables)
    requires Recovered(db.levels, db'.levels, tables) && UnionEntries(tables) == es
    requires forall f, g, e, x | f in tables && g in tables && e in f.entries && x in g.entries
               :: f.number < g.number ==> e.key.num < x.key.num
    requires es <= db.mem + ImmSet(db.imm) && db'.mem == {} && db'.imm == None
    ensures Layered(db')
  {
    forall p, q, e, x | At(db', p, e) && At(db', q, x) && e.key.user == x.key.user && Above(p, q)
      ensures e.key.num > x.key.num
    {
      RecoveredPlaces(db, db', tables, es, p, e);
      RecoveredPlaces(db, db', tables, es, q, x);
    }
  }

  lemma RecoveredContents(db: Db, db': Db, tables: set<FileMeta>, es: set<Entry>)
    requires Recovered(db.levels, db'.levels, tables) && db'.mem == {} && db'.imm == None
    requires UnionEntries(tables) == es
    ensures Contents(db') == FileEntries(db.levels) + es
  {
    forall e | e in FileEntries(db'.levels) ensures e in FileEntries(db.levels) + es {
      var l, f :| 0 <= l < |db'.levels| && f in db'.levels[l] && e in f.entries;
      assert f in db.levels[l] || f in tables;
    }
    forall e | e in FileEntries(db.levels) + es ensures e in FileEntries(db'.levels) {
      if e in es {
        var f :| f in tables && e in f.entries;
        assert f in db'.levels[0];
      } else {
        var l, f :| 0 <= l < |db.levels| && f in db.levels[l] && e in f.entries;
        assert f in db'.levels[l];
      }
    }
  }

  /** An entry of a table is in neither memtable. */
  lemma NotInMemory(db: Db, e: Entry)
    requires Layered(db) && e in FileEntries(db.levels)
    ensures e !in db.mem && e !in ImmSet(db.imm)
  {
    var l, f :| 0 <= l < |db.levels| && f in db.levels[l] && e in f.entries;
    assert At(db, InTable(l, f), e);
    assert (At(db, InMem, e) <==> e in db.mem) && (At(db, InImm, e) <==> e in ImmSet(db.imm));
  }

  /** A stored entry is at one place only. */
  lemma NotInMem(db: Db, e: Entry)
    requires Layered(db) && e in ImmSet(db.imm) + FileEntries(db.levels)
    ensures e !in db.mem
  {
    if e in ImmSet(db.imm) {
      assert At(db, InImm, e);
    } else {
      var l, f :| 0 <= l < |db.levels| && f in db.levels[l] && e in f.entries;
      assert At(db, InTable(l, f), e);
    }
    assert At(db, InMem, e) <==> e in db.mem;
  }

  lemma RecoveredHistory(db: Db, db': Db, logs: map<nat, seq<Batch>>)
    requires db.manifest != [] && LogsOk(db) && NumbersOk(db) && HistoryOk(db) && Layered(db) && Crashed(db.logs, logs)
    requires db'.history == SurvivingHistory(db, logs) && forall e :: e in db'.history ==> e.key.num <= db'.last
    requires Contents(db') == FileEntries(db.levels) + Replayed(db, logs)
    ensures HistoryOk(db')
  {
    hide LogsOk, NumbersOk, Layered, Replayed, FileEntries, Crashed, Without;
    ReplayedWithin(db, logs);
    WithoutAre(db.history, Lost(db, logs));
    WithoutGrows(db.history, Lost(db, logs));
    forall e | e in Contents(db') ensures e in db'.history {
      assert e in Contents(db);
      if e in FileEntries(db.levels) { NotInMemory(db, e); }
    }
  }

  lemma RecoveredBound(db: Db, logs: map<nat, seq<Batch>>)
    requires db.manifest != [] && ManifestOk(db) && HistoryOk(db)
    ensures forall e :: e in SurvivingHistory(db, logs) ==> e.key.num <= RecoveredLast(db, logs)
  {
    WithoutAre(db.history, Lost(db, logs));
  }

  lemma RecoveredFiles(db: Db, db': Db, tables: set<FileMeta>, newLog: nat)
    requires OnDisk(db.levels, db.disk) && NumberedAbove(db.levels, tables)
    requires forall f, g :: f in tables && g in tables && f.number == g.number ==> f == g
    requires forall f :: f in tables ==> f.number < newLog
    requires forall l, f :: 0 <= l < |db.levels| && f in db.levels[l] ==> f.number < newLog
    requires Recovered(db.levels, db'.levels, tables)
    requires db'.disk == RecoveredDisk(db.disk, db'.levels, tables)
    requires db'.nextFile == newLog + 1 && db'.pinned == [] && db'.job == None
    ensures DiskOk(db')
    ensures forall l, f :: 0 <= l < |db'.levels| && f in db'.levels[l] ==> f.number < newLog
  {
    forall l, f | 0 <= l < |db'.levels| && f in db'.levels[l]
      ensures f.number in db'.disk && db'.disk[f.number] == f.entries && f.number < newLog
    {
      assert f.number in LiveNumbers(db'.levels);
      assert f in db.levels[l] || f in tables;
    }
  }

  lemma RecoveredManifest(db: Db, db': Db, logs: map<nat, seq<Batch>>, tables: set<FileMeta>, newLog: nat)
    requires ManifestOk(db) && |db.levels| == NUM_LEVELS
    requires CanReopen(db, logs, tables, newLog) && db' == ReopenTo(db, logs, tables, newLog)
    requires Recovered(db.levels, db'.levels, tables) && HistoryOk(db')
    ensures ManifestOk(db')
  {
    var e := ReopenEdit(tables, newLog, RecoveredLast(db, logs));
    FreshManifest(db.levels, e);
    assert LastEdit(db'.manifest) == e;
  }

  /** A store whose only log is fresh and empty, and whose memtables are empty. */
  lemma FreshLogs(db: Db)
    requires db.manifest != [] && LastEdit(db.manifest).logNumber == db.logNumber && db.logs == map[db.logNumber := []]
    requires db.mem == {} && db.imm == None
    ensures LogsOk(db)
  {
    assert LogRange(db.logs, db.logNumber, db.logNumber) == {};
  }

  lemma ReopenShape(db: Db, logs: map<nat, seq<Batch>>, tables: set<FileMeta>, newLog: nat)
    requires Shape(db) && CanReopen(db, logs, tables, newLog)
    ensures Shape(ReopenTo(db, logs, tables, newLog))
  {
    hide LevelsOk, HistoryOk, Layered, NumbersOk, JobShape, LogsOk, ManifestOk, DiskOk, RecoveredTables, Recovered;
    hide SurvivingHistory, RecoveredLast, ApplyEdit, SnapshotEdit, Contents;
    hide FileEntries, RecoveredDisk, LogEntries, Replay, OnDisk;
    var db' := ReopenTo(db, logs, tables, newLog);
    LevelCount(db.levels);
    NumbersFresh(db, logs, tables, newLog);
    ReopenedEntries(db, db', logs, tables, newLog);
    RecoveredBound(db, logs);
    RecoveredHistory(db, db', logs);
    RecoveredFiles(db, db', tables, newLog);
    RecoveredManifest(db, db', logs, tables, newLog);
    FreshLogs(db');
    RecoveredLastBound(db, logs);
    FreshState(db');
  }

  lemma NumbersFresh(db: Db, logs: map<nat, seq<Batch>>, tables: set<FileMeta>, newLog: nat)
    requires ManifestOk(db) && DiskOk(db) && SnapshotsOk(db) && CanReopen(db, logs, tables, newLog)
    ensures OnDisk(db.levels, db.disk) && db.last < MAX_SEQUENCE
    ensures forall f, g :: f in tables && g in tables && f.number == g.number ==> f == g
    ensures forall l, f :: 0 <= l < |db.levels| && f in db.levels[l] ==> f.number < newLog
    ensures LastEdit(ReopenTo(db, logs, tables, newLog).manifest) == ReopenEdit(tables, newLog, RecoveredLast(db, logs))
  {
    hide RecoveredDisk, ApplyEdit, Replay, SnapshotEdit;
  }

  /** Recovery finds no number beyond the one the store had reached. */
  lemma RecoveredLastBound(db: Db, logs: map<nat, seq<Batch>>)
    requires LogsOk(db) && NumbersOk(db) && HistoryOk(db) && ManifestOk(db) && Crashed(db.logs, logs)
    ensures RecoveredLast(db, logs) <= db.last
  {
    ReplayedWithin(db, logs);
    assert forall e :: e in Replayed(db, logs) ==> e in Contents(db);
  }

  lemma FreshState(db: Db)
    requires db.last < MAX_SEQUENCE && db.job == None && db.snapshots == [] && db.logs == map[db.logNumber := []]
      && db.nextFile == db.logNumber + 1
    requires db.mem == {} && db.imm == None
    requires forall l, f :: 0 <= l < |db.levels| && f in db.levels[l] ==> f.number < db.logNumber
    ensures SnapshotsOk(db) && JobShape(db) && NumbersOk(db) && FlushedFirst(db)
  {
  }

  /** What a reopened store holds: every table in full, and exactly the complete batches of the logs. */
  lemma ReopenedEntries(db: Db, db': Db, logs: map<nat, seq<Batch>>, tables: set<FileMeta>, newLog: nat)
    requires LevelsOk(db.levels) && Layered(db) && LogsOk(db) && NumbersOk(db) && ManifestOk(db)
    requires CanReopen(db, logs, tables, newLog) && db' == ReopenTo(db, logs, tables, newLog)
    ensures Recovered(db.levels, db'.levels, tables) && LevelsOk(db'.levels) && Layered(db')
      && NumberedAbove(db.levels, tables)
    ensures Contents(db') == FileEntries(db.levels) + Replayed(db, logs)
  {
    hide LevelsOk, Layered, LogsOk, ManifestOk, NumbersOk, Recovered, LogEntries;
    LevelCount(db.levels);
    RecoveredLevels(db, logs, tables, newLog);
    RecoveredAbove(db, tables, Replayed(db, logs));
    ReplayedWithin(db, logs);
    RecoveredLevelsOk(db, db'.levels, tables, Replayed(db, logs));
    RecoveredContents(db, db', tables, Replayed(db, logs));
    TablesFollow(tables, Replayed(db, logs), LastEdit(db.manifest).nextFile);
    RecoveredLayered(db, db', tables, Replayed(db, logs));
  }

  lemma LevelCount(levels: Levels)
    requires LevelsOk(levels)
    ensures |levels| == NUM_LEVELS
  {
  }

  lemma TablesFollow(tables: set<FileMeta>, es: set<Entry>, first: nat)
    requires RecoveredTables(tables, es, first)
    ensures UnionEntries(tables) == es
    ensures forall f, g, e, x | f in tables && g in tables && e in f.entries && x in g.entries
              :: f.number < g.number ==> e.key.num < x.key.num
  {
  }

  lemma RecoveredAbove(db: Db, tables: set<FileMeta>, es: set<Entry>)
    requires ManifestOk(db) && RecoveredTables(tables, es, LastEdit(db.manifest).nextFile)
    ensures NumberedAbove(db.levels, tables)
  {
  }
}
