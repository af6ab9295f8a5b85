/** Reads. An install keeps every read at or above its snapshot exactly when its dropped deletion markers
    uncover nothing; when compactions are picked clean, every step of the store keeps every readable
    snapshot equal to the history of committed writes, or after a crash to the part of it that survives. */
module LsmReads {
  import opened Wrappers
  import opened Keys
  import opened Reads
  import opened DropRules
  import opened LsmModel
  import opened LsmShape
  import opened LsmCompaction
  import opened LsmRecovery

  // ----- an install, as drop rules -----

  /** No entry is stored at two places. */
  lemma OnePlace(db: Db, p: Place, q: Place, e: Entry)
    requires LevelsOk(db.levels) && Layered(db) && At(db, p, e) && At(db, q, e)
    ensures p == q
  {
    if p != q && !Above(p, q) && !Above(q, p) {
      assert p.InTable? && q.InTable? && p.level == q.level;
      if p.level > 0 {
        EntryInFile(p.file, e);
        EntryInFile(q.file, e);
      }
    }
  }

  lemma InputsStored(db: Db, j: Job)
    requires InputsOk(db.levels, j)
    ensures UnionEntries(j.Inputs()) <= FileEntries(db.levels)
    ensures Beside(db, j) <= FileEntries(db.levels)
  {
  }

  lemma InputPlace(db: Db, j: Job, e: Entry) returns (p: Place)
    requires InputsOk(db.levels, j) && e in UnionEntries(j.Inputs())
    ensures At(db, p, e) && p.InTable? && p.file in j.Inputs()
    ensures (p.level == j.level && p.file in j.in0) || (p.level == j.level + 1 && p.file in j.in1)
  {
    var f :| f in j.Inputs() && e in f.entries;
    p := InTable(if f in j.in0 then j.level else j.level + 1, f);
  }

  lemma PlaceOf(db: Db, e: Entry) returns (p: Place)
    requires e in Contents(db)
    ensures At(db, p, e)
  {
    if e in db.mem {
      p := InMem;
    } else if e in ImmSet(db.imm) {
      p := InImm;
    } else {
      var l, f :| 0 <= l < |db.levels| && f in db.levels[l] && e in f.entries;
      p := InTable(l, f);
    }
  }

  /** An entry of a key whose marker may go is newer than the marker, an input, or beside the inputs. */
  lemma AroundMarker(db: Db, j: Job, d: Entry, x: Entry)
    requires LevelsOk(db.levels) && Layered(db) && InputsOk(db.levels, j) && NoneOlder(db.levels, j)
      && BaseHolds(db.levels, j)
    requires d in Markers(j) && x in Contents(db) && x !in UnionEntries(j.Inputs()) && x.key.user == d.key.user
    ensures x.key.num > d.key.num || x in Beside(db, j)
  {
    var p := InputPlace(db, j, d);
    var q := PlaceOf(db, x);
    if !Above(q, p) && x !in Beside(db, j) {
      assert q.InTable? && q.file !in j.Inputs();
      if q.level >= j.level + 2 {
        EntryInFile(q.file, x);
      } else {
        assert q.level == j.level && p.file in j.in0;
      }
    }
  }

  lemma BesideAside(db: Db, j: Job, x: Entry)
    requires LevelsOk(db.levels) && Layered(db) && InputsOk(db.levels, j) && x in Beside(db, j)
    ensures x !in UnionEntries(j.Inputs())
  {
    var g :| g in db.levels[j.level + 1] - j.in1 && x in g.entries;
    if x in UnionEntries(j.Inputs()) {
      var p := InputPlace(db, j, x);
      OnePlace(db, p, InTable(j.level + 1, g), x);
    }
  }

  lemma InstallSetting(db: Db, j: Job)
    requires LevelsOk(db.levels) && Layered(db) && HistoryOk(db)
    requires InputsOk(db.levels, j) && NoneOlder(db.levels, j) && BaseHolds(db.levels, j)
    ensures Setting(Contents(db), UnionEntries(j.Inputs()), Markers(j), Beside(db, j), j.snap)
  {
    InputsStored(db, j);
    HistoryUnique(db);
    forall x | x in Beside(db, j) ensures x in Contents(db) - UnionEntries(j.Inputs()) { BesideAside(db, j, x); }
    forall d, x | d in Markers(j) && x in Contents(db) - UnionEntries(j.Inputs()) && x.key.user == d.key.user
      ensures x.key.num > d.key.num || x in Beside(db, j)
    {
      AroundMarker(db, j, d, x);
    }
  }

  lemma HistoryUnique(db: Db)
    requires HistoryOk(db)
    ensures UniqueNumbers(SeqSet(db.history)) && UniqueNumbers(Contents(db)) && Contents(db) <= SeqSet(db.history)
    ensures UniqueNumbers(SeqSet(db.history) + Contents(db))
  {
    var h := db.history;
    forall x, y | x in h && y in h && x.key.num == y.key.num ensures x == y {
      var i :| 0 <= i < |h| && h[i] == x;
      var k :| 0 <= k < |h| && h[k] == y;
      assert i == k;
    }
  }

  /** An install replaces the input entries by the surviving ones and nothing else. */
  lemma InstallIsDrop(db: Db)
    requires Shape(db) && CanInstall(db)
    ensures var j := db.job.value;
            Contents(InstallTo(db)) == After(Contents(db), UnionEntries(j.Inputs()), Markers(j), j.snap)
  {
    var j, db' := db.job.value, InstallTo(db);
    InstalledLevels(db);
    InstallDrops(db, db', j);
  }

  lemma InstallDrops(db: Db, db': Db, j: Job)
    requires LevelsOk(db.levels) && Layered(db) && InputsOk(db.levels, j) && OutputsOk(db, j)
    requires UnionEntries(set f | f in j.outputs) == Kept(j)
    requires Installed(db.levels, db'.levels, j) && db'.mem == db.mem && db'.imm == db.imm
    ensures Contents(db') == After(Contents(db), UnionEntries(j.Inputs()), Markers(j), j.snap)
  {
    InstalledContents(db, db', j);
    var merged := UnionEntries(j.Inputs());
    assert Kept(j) == Survivors(merged, Markers(j), j.snap);
    forall e | e in Contents(db') && e in merged ensures e in Kept(j) {
      RemainingKept(db, db', j, e);
    }
  }

  lemma RemainingKept(db: Db, db': Db, j: Job, e: Entry)
    requires LevelsOk(db.levels) && Layered(db) && InputsOk(db.levels, j) && OutputsOk(db, j)
    requires Installed(db.levels, db'.levels, j) && db'.mem == db.mem && db'.imm == db.imm
    requires e in Contents(db') && e in UnionEntries(j.Inputs())
    ensures e in Kept(j)
  {
    var p := PlaceOf(db', e);
    if p.InTable? && p.level == j.level + 1 && p.file in j.outputs {
      assert e in SeqSet(p.file.entries);
    } else {
      assert At(db, p, e);
      var q := InputPlace(db, j, e);
      OnePlace(db, p, q, e);
    }
  }

  /** The exact condition under which a compaction is invisible to readers. */
  lemma InstallKeepsReadsIff(db: Db)
    requires Shape(db) && CanInstall(db)
    ensures (forall u, s :: db.job.value.snap <= s ==> SameRead(Contents(db), Contents(InstallTo(db)), u, s))
            <==> Safe(db, db.job.value)
  {
    var j := db.job.value;
    InstallIsDrop(db);
    InstallSetting(db, j);
    DropKeepsReadsIff(Contents(db), UnionEntries(j.Inputs()), Markers(j), Beside(db, j), j.snap);
  }

  // ----- the guard in the metadata -----

  /** When no level+1 file left out continues one taken, no dropped marker uncovers anything: a left-out file that
      shares a user key with an input lies before it, so its entries of that key are the newer ones. */
  lemma GuardIsClean(db: Db, j: Job)
    requires LevelsOk(db.levels) && HistoryOk(db) && InputsOk(db.levels, j) && NoneBetween(db.levels, j)
    requires NoneContinues(db.levels, j.level, j.in1)
    ensures Clean(db.levels, j)
  {
    hide Droppable, Covered, HistoryOk;
    HistoryUnique(db);
    forall d, g, v | d in UnionEntries(j.Inputs()) && g in db.levels[j.level + 1] && v in g.entries
      && g !in j.in1 && Droppable(j, d) && v.key.user == d.key.user ensures v.key.num > d.key.num
    {
      var f :| f in j.Inputs() && d in f.entries;
      LeftOutIsNewer(db, j, f, g, d, v);
    }
  }

  lemma LeftOutIsNewer(db: Db, j: Job, f: FileMeta, g: FileMeta, d: Entry, v: Entry)
    requires LevelsOk(db.levels) && InputsOk(db.levels, j) && NoneBetween(db.levels, j) && UniqueNumbers(Contents(db))
    requires NoneContinues(db.levels, j.level, j.in1)
    requires f in j.Inputs() && d in f.entries && g in db.levels[j.level + 1] && g !in j.in1 && v in g.entries
    requires v.key.user == d.key.user
    ensures v.key.num > d.key.num
  {
    hide Covered;
    EntryInFile(f, d);
    EntryInFile(g, v);
    assert Overlaps(f, g);
    assert f in j.in1;
    assert !Continues(g, f.largest);
    assert d in Contents(db) && v in Contents(db);
    BeforeInLevel(f, g, d, v);
  }

  lemma BeforeInLevel(f: FileMeta, g: FileMeta, d: Entry, v: Entry)
    requires Less(f.largest, g.smallest) || Less(g.largest, f.smallest)
    requires AtMost(f.smallest, d.key) && AtMost(d.key, f.largest) && AtMost(g.smallest, v.key)
      && AtMost(v.key, g.largest)
    requires v.key.user == d.key.user && !Continues(g, f.largest) && (v.key.num == d.key.num ==> v == d)
    ensures v.key.num > d.key.num
  {
  }

  // ----- every step keeps reads -----

  /** Adding the same entries, all newer than what is there, keeps two stores answering alike. */
  lemma AddNewer(es: set<Entry>, fs: set<Entry>, more: set<Entry>, u: UserKey, s: nat)
    requires SameRead(es, fs, u, s) && UniqueNumbers(es + more) && fs <= es
    requires forall x, y :: x in es && y in more ==> x.key.num < y.key.num
    ensures SameRead(es + more, fs + more, u, s)
  {
    if y :| y in more && y.key.user == u && y.key.num <= s {
      forall e ensures IsNewest(es + more, u, s, e) <==> IsNewest(fs + more, u, s, e) {
      }
      assert (es + more) + (fs + more) == es + more;
      SameNewest(es + more, fs + more, u, s);
    } else {
      assert forall e :: IsNewest(es + more, u, s, e) <==> IsNewest(es, u, s, e);
      assert forall e :: IsNewest(fs + more, u, s, e) <==> IsNewest(fs, u, s, e);
      SameNewest(es + more, es, u, s);
      SameNewest(fs + more, fs, u, s);
    }
  }

  lemma CommitReads(db: Db, batch: Batch)
    requires Shape(db) && ReadsOk(db) && CanCommit(db, batch)
    ensures ReadsOk(CommitTo(db, batch))
  {
    hide Shape, SameRead, UniqueNumbers, Readable, Contents, SeqSet;
    var db' := CommitTo(db, batch);
    CommitShape(db, batch);
    var more := SeqSet(batch);
    CommitAdds(db, batch);
    forall u, s | Readable(db', s) ensures SameRead(SeqSet(db'.history), Contents(db'), u, s) {
      CommitReadable(db, batch, s);
      AddNewer(SeqSet(db.history), Contents(db), more, u, s);
    }
  }

  lemma CommitAdds(db: Db, batch: Batch)
    requires Shape(db) && CanCommit(db, batch) && Shape(CommitTo(db, batch))
    ensures var db', more := CommitTo(db, batch), SeqSet(batch);
            && SeqSet(db'.history) == SeqSet(db.history) + more && Contents(db') == Contents(db) + more
            && Contents(db) <= SeqSet(db.history) && UniqueNumbers(SeqSet(db.history) + more)
            && HistoryOk(db) && SnapshotsOk(db)
            && forall x, y :: x in SeqSet(db.history) && y in more ==> x.key.num < y.key.num
  {
    hide UniqueNumbers, Layered, JobShape, LogsOk, ManifestOk, DiskOk, NumbersOk, LevelsOk, FileEntries;
    HistoryUnique(db);
    HistoryUnique(CommitTo(db, batch));
    var db', more := CommitTo(db, batch), SeqSet(batch);
    assert SeqSet(db'.history) == SeqSet(db.history) + more;
    assert Contents(db') == Contents(db) + more;
  }

  lemma CommitReadable(db: Db, batch: Batch, s: nat)
    requires SnapshotsOk(db) && CanCommit(db, batch) && Readable(CommitTo(db, batch), s)
    requires HistoryOk(db)
    ensures Readable(db, s)
  {
    var db' := CommitTo(db, batch);
    if Floor(db) > s {
      forall e | e in db.history && e !in db.mem && e !in ImmSet(db.imm) ensures e.key.num <= s {
        assert e !in SeqSet(batch);
      }
    }
  }

  /** A step that keeps contents and history, and lets no reader see further back, keeps reads. */
  lemma SameContentsReads(db: Db, db': Db)
    requires ReadsOk(db) && Contents(db') == Contents(db) && db'.history == db.history
    requires forall s :: Readable(db', s) ==> Readable(db, s)
    ensures ReadsOk(db')
  {
  }

  lemma InstallReads(db: Db)
    requires Shape(db) && JobClean(db) && ReadsOk(db) && CanInstall(db)
    ensures ReadsOk(InstallTo(db))
  {
    var j, db' := db.job.value, InstallTo(db);
    var merged, after := UnionEntries(j.Inputs()), Contents(db');
    InstallIsDrop(db);
    InstallSetting(db, j);
    CleanBeside(db, j);
    forall u, s | Readable(db', s) ensures SameRead(SeqSet(db'.history), after, u, s) {
      assert Readable(db, s);
      InputsSeen(db, j, s);
      ReadKept(Contents(db), merged, Markers(j), Beside(db, j), j.snap, u, s);
      assert SameRead(SeqSet(db.history), Contents(db), u, s);
    }
  }

  lemma CleanBeside(db: Db, j: Job)
    requires InputsOk(db.levels, j) && Clean(db.levels, j)
    ensures forall d, x :: d in Markers(j) && x in Beside(db, j) && x.key.user == d.key.user ==> x.key.num > d.key.num
  {
  }

  /** A reader below the compaction's snapshot asks for something no older than every input. */
  lemma InputsSeen(db: Db, j: Job, s: nat)
    requires Shape(db) && db.job == Some(j) && Readable(db, s)
    ensures j.snap <= s || forall x :: x in UnionEntries(j.Inputs()) ==> x.key.num <= s
  {
    if Floor(db) > s {
      InputsStored(db, j);
      forall x | x in UnionEntries(j.Inputs()) ensures x.key.num <= s {
        StoredOutsideMem(db, x);
      }
    }
  }

  lemma StoredOutsideMem(db: Db, x: Entry)
    requires LevelsOk(db.levels) && Layered(db) && HistoryOk(db) && x in FileEntries(db.levels)
    ensures x in db.history && x !in db.mem && x !in ImmSet(db.imm)
  {
    NotInMem(db, x);
    assert x in Contents(db);
    var l, f :| 0 <= l < |db.levels| && f in db.levels[l] && x in f.entries;
    if x in ImmSet(db.imm) {
      OnePlace(db, InImm, InTable(l, f), x);
    }
  }

  // ----- recovery -----

  /** What has been flushed. */
  ghost function FlushedEntries(db: Db): set<Entry> { SeqSet(db.history) - db.mem - ImmSet(db.imm) }

  /** The largest sequence number in es; 0 if there is none. */
  ghost function Youngest(es: set<Entry>): nat { MaxNumber(es, 0) }

  /** A crash loses entries of the memtables only, so whatever prefix of each log it leaves, every snapshot a reader of
      the reopened store may ask for reads what the surviving history says. */
  lemma ReopenReads(db: Db, logs: map<nat, seq<Batch>>, tables: set<FileMeta>, newLog: nat)
    requires Shape(db) && ReadsOk(db) && CanReopen(db, logs, tables, newLog)
    ensures ReadsOk(ReopenTo(db, logs, tables, newLog))
  {
    hide LevelsOk, Contents, ReadsOk, Replayed, RecoveredTables, SurvivingHistory;
    var db' := ReopenTo(db, logs, tables, newLog);
    ReopenedEntries(db, db', logs, tables, newLog);
    RecoveredBound(db, logs);
    ReplayedWithin(db, logs);
    ReopenedReads(db, db', logs);
  }

  lemma ReopenedReads(db: Db, db': Db, logs: map<nat, seq<Batch>>)
    requires HistoryOk(db) && Layered(db) && FlushedFirst(db) && ReadsOk(db) && db.manifest != []
    requires Replayed(db, logs) <= db.mem + ImmSet(db.imm)
    requires Contents(db') == FileEntries(db.levels) + Replayed(db, logs)
    requires db'.history == SurvivingHistory(db, logs) && db'.mem == {} && db'.imm == None && db'.snapshots == []
    requires forall e :: e in db'.history ==> e.key.num <= db'.last
    ensures ReadsOk(db')
  {
    hide SameRead, UniqueNumbers, Layered, FlushedFirst, Readable;
    hide Contents, Replayed, FileEntries, FlushedEntries, Youngest;
    var f, more := FlushedEntries(db), Replayed(db, logs);
    SurvivingAre(db, db', logs);
    FlushedOlder(db, logs);
    forall u, s | Readable(db', s) ensures SameRead(SeqSet(db'.history), Contents(db'), u, s) {
      ReopenedFloor(db', f, s);
      FlushedRead(db, u, s);
      AddNewer(f, FileEntries(db.levels), more, u, s);
    }
  }

  /** The surviving history is what was flushed and what was replayed. */
  lemma SurvivingAre(db: Db, db': Db, logs: map<nat, seq<Batch>>)
    requires HistoryOk(db) && db.manifest != [] && Replayed(db, logs) <= db.mem + ImmSet(db.imm)
    requires db'.history == SurvivingHistory(db, logs)
    ensures SeqSet(db'.history) == FlushedEntries(db) + Replayed(db, logs)
  {
    hide Replayed, Without;
    WithoutAre(db.history, Lost(db, logs));
    assert forall e :: e in db.mem + ImmSet(db.imm) ==> e in Contents(db);
  }

  lemma FlushedOlder(db: Db, logs: map<nat, seq<Batch>>)
    requires HistoryOk(db) && Layered(db) && FlushedFirst(db) && db.manifest != []
      && Replayed(db, logs) <= db.mem + ImmSet(db.imm)
    ensures forall x, y :: x in FlushedEntries(db) && y in Replayed(db, logs) ==> x.key.num < y.key.num
    ensures UniqueNumbers(FlushedEntries(db) + Replayed(db, logs)) && FileEntries(db.levels) <= FlushedEntries(db)
  {
    hide Replayed;
    HistoryUnique(db);
    assert forall e :: e in db.mem + ImmSet(db.imm) ==> e in Contents(db);
    forall e | e in FileEntries(db.levels) ensures e in FlushedEntries(db) {
      NotInMemory(db, e);
      assert e in Contents(db);
    }
  }

  lemma ReopenedFloor(db: Db, flushed: set<Entry>, s: nat)
    requires db.mem == {} && db.imm == None && db.snapshots == [] && Readable(db, s)
    requires (forall e :: e in db.history ==> e.key.num <= db.last) && flushed <= SeqSet(db.history)
    ensures Youngest(flushed) <= s
  {
  }

  /** From the youngest flushed entry on, what was flushed and the tables read alike. */
  lemma FlushedRead(db: Db, u: UserKey, s: nat)
    requires HistoryOk(db) && Layered(db) && FlushedFirst(db) && ReadsOk(db) && Youngest(FlushedEntries(db)) <= s
    ensures SameRead(FlushedEntries(db), FileEntries(db.levels), u, s)
  {
    hide Layered;
    var f, m := FlushedEntries(db), Youngest(FlushedEntries(db));
    HistoryUnique(db);
    MemoryIsNewer(db);
    assert Readable(db, m);
    assert SameRead(SeqSet(db.history), Contents(db), u, m);
    CutRead(SeqSet(db.history), f, u, m, s);
    CutRead(Contents(db), FileEntries(db.levels), u, m, s);
  }

  lemma MemoryIsNewer(db: Db)
    requires HistoryOk(db) && Layered(db) && FlushedFirst(db)
    ensures var f, m := FlushedEntries(db), Youngest(FlushedEntries(db));
            && f <= SeqSet(db.history) && FileEntries(db.levels) <= f
            && (forall e :: e in db.history && e !in f ==> e.key.num > m)
            && (forall e :: e in Contents(db) && e !in FileEntries(db.levels) ==> e.key.num > m)
  {
    var f, m := FlushedEntries(db), Youngest(FlushedEntries(db));
    forall e | e in FileEntries(db.levels) ensures e in f {
      NotInMemory(db, e);
      assert e in Contents(db);
    }
    forall e | e in db.mem + ImmSet(db.imm) ensures e in db.history && e.key.num > m { assert e in Contents(db); }
  }

  /** Cutting off entries newer than m leaves reads at m as they were, and later reads are reads at m. */
  lemma CutRead(es: set<Entry>, cut: set<Entry>, u: UserKey, m: nat, s: nat)
    requires UniqueNumbers(es) && cut <= es && m <= s
    requires forall e :: e in es && e !in cut ==> e.key.num > m
    requires forall e :: e in cut ==> e.key.num <= m
    ensures SameRead(es, cut, u, m) && SameRead(cut, cut, u, s)
    ensures forall r :: Answers(es, u, m, r) <==> Answers(cut, u, s, r)
  {
    assert forall e :: IsNewest(es, u, m, e) <==> IsNewest(cut, u, m, e);
    assert forall e :: IsNewest(cut, u, s, e) <==> IsNewest(cut, u, m, e);
    assert es + cut == es;
    SameNewest(es, cut, u, m);
  }
}
