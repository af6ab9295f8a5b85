/** Every step keeps the structural invariant. */
module LsmShape {
  import opened Wrappers
  import opened Keys
  import opened Reads
  import opened LsmModel

  // ----- files -----

  lemma EntryInFile(f: FileMeta, e: Entry)
    requires f.Ok() && e in f.entries
    ensures AtMost(f.smallest, e.key) && AtMost(e.key, f.largest) && f.Spans(e.key.user)
  {
  }

  lemma LayeredFiles(db: Db, l: nat, f: FileMeta, e: Entry, k: nat, g: FileMeta, x: Entry)
    requires Layered(db) && l < k < |db.levels| && f in db.levels[l] && g in db.levels[k]
    requires e in f.entries && x in g.entries && e.key.user == x.key.user
    ensures e.key.num > x.key.num
  {
    assert At(db, InTable(l, f), e) && At(db, InTable(k, g), x);
  }

  /** Steps that move no entry keep the invariants on entries. */
  lemma SameStore(db: Db, db': Db)
    requires db'.mem == db.mem && db'.imm == db.imm && db'.levels == db.levels
    ensures Contents(db') == Contents(db)
    ensures Layered(db) ==> Layered(db')
  {
    assert forall p, e :: At(db', p, e) ==> At(db, p, e);
  }

  lemma SameHistory(db: Db, db': Db)
    requires HistoryOk(db) && db'.history == db.history && db'.last == db.last && Contents(db') <= Contents(db)
    ensures HistoryOk(db')
  {
  }

  // ----- edits -----

  lemma EditLevel(levels: Levels, e: Edit, l: nat)
    requires l < |levels|
    ensures |ApplyEdit(levels, e)| == |levels|
    ensures forall f ::
      f in ApplyEdit(levels, e)[l] <==> (f in levels[l] && (l, f.number) !in e.deleted) || (l, f) in e.added
  {
    assert forall f :: f in AddedAt(e.added, l) <==> (l, f) in e.added by {
      forall f | (l, f) in e.added ensures f in AddedAt(e.added, l) { assert (l, f).0 == l; }
    }
  }

  lemma SameLogRange(a: map<nat, seq<Batch>>, b: map<nat, seq<Batch>>, from: nat, upto: nat)
    requires forall n :: from <= n < upto ==> (n in a <==> n in b) && (n in a ==> a[n] == b[n])
    ensures LogRange(a, from, upto) == LogRange(b, from, upto)
  {
  }

  // ----- commit, switch, snapshots, pins -----

  lemma CommitShape(db: Db, batch: Batch)
    requires Shape(db) && CanCommit(db, batch)
    ensures Shape(CommitTo(db, batch))
  {
    hide Layered, LogsOk, JobShape, FlushedFirst, LevelsOk, Flatten;
    CommitLayered(db, batch);
    CommitLogs(db, batch);
    CommitJob(db, batch);
    CommitFlushedFirst(db, batch);
  }

  lemma CommitFlushedFirst(db: Db, batch: Batch)
    requires HistoryOk(db) && FlushedFirst(db) && CanCommit(db, batch)
    ensures FlushedFirst(CommitTo(db, batch))
  {
    var db' := CommitTo(db, batch);
    forall e, x | e in db'.history && e !in db'.mem && e !in ImmSet(db'.imm) && (x in db'.mem || x in ImmSet(db'.imm))
      ensures e.key.num < x.key.num
    {
      assert e in db.history;
      if x in SeqSet(batch) { assert x.key.num > db.last; }
    }
  }

  /** The memtable is a suffix of the history. */
  lemma MemIsNewest(db: Db)
    requires LogsOk(db) && HistoryOk(db)
    ensures forall e, x :: e in db.history && e !in db.mem && x in db.mem ==> e.key.num < x.key.num
  {
    hide Flatten, Contents;
    SuffixIsNewest(db.history, Flatten(db.logs[db.logNumber]));
  }

  lemma SuffixIsNewest(h: seq<Entry>, flat: seq<Entry>)
    requires forall i, j :: 0 <= i < j < |h| ==> h[i].key.num < h[j].key.num
    requires |flat| <= |h| && flat == h[|h| - |flat|..]
    ensures forall e, x :: e in h && e !in flat && x in flat ==> e.key.num < x.key.num
  {
    forall e, x | e in h && e !in flat && x in flat ensures e.key.num < x.key.num {
      var i :| 0 <= i < |h| && h[i] == e;
      var k :| 0 <= k < |flat| && flat[k] == x;
      InSuffix(h, flat, i);
      assert h[|h| - |flat| + k] == x;
    }
  }

  lemma InSuffix(h: seq<Entry>, flat: seq<Entry>, i: nat)
    requires |flat| <= |h| && flat == h[|h| - |flat|..] && i < |h|
    ensures i >= |h| - |flat| ==> h[i] in flat
  {
    if i >= |h| - |flat| { assert flat[i - (|h| - |flat|)] == h[i]; }
  }

  lemma CommitJob(db: Db, batch: Batch)
    requires LevelsOk(db.levels) && JobShape(db) && CanCommit(db, batch)
    ensures JobShape(CommitTo(db, batch))
  {
  }

  lemma CommitLayered(db: Db, batch: Batch)
    requires HistoryOk(db) && Layered(db) && CanCommit(db, batch)
    ensures Layered(CommitTo(db, batch))
  {
    var db' := CommitTo(db, batch);
    forall p, q, e, x | At(db', p, e) && At(db', q, x) && e.key.user == x.key.user && Above(p, q)
      ensures e.key.num > x.key.num
    {
      assert At(db, q, x);
      if p.InMem? && e !in db.mem {
        assert x in Contents(db);
      } else {
        assert At(db, p, e);
      }
    }
  }

  lemma CommitLogs(db: Db, batch: Batch)
    requires LogsOk(db) && CanCommit(db, batch)
    ensures LogsOk(CommitTo(db, batch))
  {
    var db' := CommitTo(db, batch);
    var records := db.logs[db.logNumber];
    assert (records + [batch])[..|records|] == records;
    assert Flatten(db'.logs[db.logNumber]) == Flatten(records) + batch;
    var from := LastEdit(db.manifest).logNumber;
    SameLogRange(db.logs, db'.logs, from, db.logNumber);
  }

  lemma SwitchShape(db: Db)
    requires Shape(db) && db.imm.None?
    ensures Shape(SwitchTo(db))
  {
    SwitchLayered(db);
    SwitchLogs(db);
    MemIsNewest(db);
    assert Contents(SwitchTo(db)) == Contents(db);
    SwitchJob(db);
  }

  lemma SwitchJob(db: Db)
    requires LevelsOk(db.levels) && JobShape(db) && db.imm.None?
    ensures JobShape(SwitchTo(db))
  {
  }

  lemma SwitchLayered(db: Db)
    requires Layered(db) && db.imm.None?
    ensures Layered(SwitchTo(db))
  {
    var db' := SwitchTo(db);
    forall p, q, e, x | At(db', p, e) && At(db', q, x) && e.key.user == x.key.user && Above(p, q)
      ensures e.key.num > x.key.num
    {
      assert At(db, if p.InImm? then InMem else p, e);
      assert At(db, if q.InImm? then InMem else q, x);
    }
  }

  lemma SwitchLogs(db: Db)
    requires LogsOk(db) && NumbersOk(db) && db.imm.None?
    ensures LogsOk(SwitchTo(db))
  {
    var db' := SwitchTo(db);
    var from := LastEdit(db.manifest).logNumber;
    SameLogRange(db.logs, db'.logs, from, db.logNumber);
    var stale := LogRange(db'.logs, from, db.logNumber);
    assert stale == {};
    forall e ensures e in LogRange(db'.logs, from, db'.logNumber) <==> e in db.mem {
      assert e in Flatten(db'.logs[db.logNumber]) <==> e in db.mem;
      forall n | n in db'.logs && from <= n < db'.logNumber && e in Flatten(db'.logs[n]) ensures n == db.logNumber {
        assert n < db.logNumber ==> e in stale;
      }
    }
  }

  lemma ReplayOne(manifest: seq<Edit>, e: Edit)
    ensures Replay(manifest + [e]) == ApplyEdit(Replay(manifest), e)
    ensures LastEdit(manifest + [e]) == e
  {
    assert (manifest + [e])[..|manifest|] == manifest;
  }

  // ----- flush -----

  /** What a flush does to the levels: at most one more table, holding the immutable memtable. */
  ghost predicate Flushed(db: Db, levels': Levels, level: nat, table: Option<FileMeta>) {
    && |db.levels| == |levels'| == NUM_LEVELS && level < NUM_LEVELS
    && (forall l, f | 0 <= l < NUM_LEVELS ::
         f in levels'[l] <==> f in db.levels[l] || (table.Some? && f == table.value && l == level))
    && (table.Some? ==>
         table.value.Ok() && table.value.number == db.nextFile && FlushLevelOk(db.levels, level, table.value))
    && (forall e :: e in ImmSet(db.imm) <==> table.Some? && e in table.value.entries)
  }

  lemma FlushedLevels(db: Db, level: nat, table: Option<FileMeta>)
    requires |db.levels| == NUM_LEVELS && CanFlush(db, level, table) && level < NUM_LEVELS
    ensures Flushed(db, FlushTo(db, level, table).levels, level, table)
  {
    forall l: nat | l < NUM_LEVELS { EditLevel(db.levels, FlushEdit(db, level, table), l); }
    forall e ensures e in ImmSet(db.imm) <==> table.Some? && e in table.value.entries {
      if table.Some? { assert e in SeqSet(table.value.entries) <==> e in table.value.entries; }
    }
  }

  lemma FlushShape(db: Db, level: nat, table: Option<FileMeta>)
    requires Shape(db) && CanFlush(db, level, table) && level < NUM_LEVELS
    ensures Shape(FlushTo(db, level, table))
  {
    var db' := FlushTo(db, level, table);
    FlushedLevels(db, level, table);
    FlushedLevelsOk(db, db'.levels, level, table);
    FlushedContents(db, db', level, table);
    FlushedLayered(db, db', level, table);
    FlushedJob(db, db', level, table);
    ReplayOne(db.manifest, FlushEdit(db, level, table));
    FlushFiles(db, db', level, table);
    FlushLogs(db, db', level, table);
    FlushFlushedFirst(db, db');
  }

  lemma FlushFlushedFirst(db: Db, db': Db)
    requires LogsOk(db) && HistoryOk(db) && db'.history == db.history && db'.mem == db.mem && db'.imm == None
    ensures FlushedFirst(db')
  {
    MemIsNewest(db);
  }

  lemma FlushedLevelsOk(db: Db, levels': Levels, level: nat, table: Option<FileMeta>)
    requires LevelsOk(db.levels) && NumbersOk(db) && Flushed(db, levels', level, table)
    ensures LevelsOk(levels')
  {
    forall l, f, g | 1 <= l < NUM_LEVELS && f in levels'[l] && g in levels'[l] && f != g
      ensures Less(f.largest, g.smallest) || Less(g.largest, f.smallest)
    {
      if f !in db.levels[l] {
        assert !Overlaps(g, f);
      } else if g !in db.levels[l] {
        assert !Overlaps(f, g);
      }
    }
  }

  lemma FlushedContents(db: Db, db': Db, level: nat, table: Option<FileMeta>)
    requires Flushed(db, db'.levels, level, table) && db'.mem == db.mem && db'.imm == None
    ensures Contents(db') == Contents(db)
  {
    forall e | e in Contents(db) ensures e in Contents(db') {
      if e in ImmSet(db.imm) {
        assert table.value in db'.levels[level];
      } else if e in FileEntries(db.levels) {
        var l, f :| 0 <= l < |db.levels| && f in db.levels[l] && e in f.entries;
        assert f in db'.levels[l];
      }
    }
    forall e | e in FileEntries(db'.levels) ensures e in Contents(db) {
      var l, f :| 0 <= l < |db'.levels| && f in db'.levels[l] && e in f.entries;
      assert f in db.levels[l] || e in ImmSet(db.imm);
    }
  }

  lemma FlushedLayered(db: Db, db': Db, level: nat, table: Option<FileMeta>)
    requires LevelsOk(db.levels) && NumbersOk(db) && Layered(db)
    requires Flushed(db, db'.levels, level, table) && db'.mem == db.mem && db'.imm == None
    ensures Layered(db')
  {
    forall p, q, e, x | At(db', p, e) && At(db', q, x) && e.key.user == x.key.user && Above(p, q)
      ensures e.key.num > x.key.num
    {
      var p0 := if p.InTable? && table.Some? && p.file == table.value && p.level == level then InImm else p;
      var q0 := if q.InTable? && table.Some? && q.file == table.value && q.level == level then InImm else q;
      assert At(db, p0, e) && At(db, q0, x);
      if q0.InImm? && p0.InTable? {
        EntryInFile(p0.file, e);
        EntryInFile(table.value, x);
        assert Overlaps(p0.file, table.value);
      }
    }
  }

  /** A file that meets no input lies wholly to one side of gap-free inputs. */
  lemma ClearOfCovered(t: FileMeta, inputs: set<FileMeta>)
    requires t.Ok() && Covered(inputs)
    requires forall g :: g in inputs ==> g.Ok() && !Overlaps(g, t)
    ensures Clear(t, inputs)
  {
    EntryInFile(t, t.entries[0]);
    if f :| f in inputs && f.largest.user < t.smallest.user {
      forall g | g in inputs ensures g.largest.user < t.smallest.user {
        EntryInFile(f, f.entries[0]);
        if t.largest.user < g.smallest.user {
          assert Between(f, t.smallest.user, g);
        }
      }
    }
  }

  lemma FlushedJob(db: Db, db': Db, level: nat, table: Option<FileMeta>)
    requires LevelsOk(db.levels) && Layered(db) && NumbersOk(db) && JobShape(db)
    requires Flushed(db, db'.levels, level, table) && LevelsOk(db'.levels)
    requires db'.job == db.job && Floor(db') == Floor(db) && db'.nextFile == db.nextFile + 1
    ensures JobShape(db')
  {
    if db.job.Some? {
      var j := db.job.value;
      FlushedOutputs(db, db', j, level, table);
      FlushedOlder(db, db'.levels, j, level, table);
      FlushedBetween(db, db'.levels, j, level, table);
      FlushedBase(db, db'.levels, j, level, table);
    }
  }

  lemma FlushedNewer(db: Db, level: nat, t: FileMeta, l: nat, f: FileMeta)
    requires Layered(db) && l < |db.levels| && f in db.levels[l]
    requires forall e :: e in t.entries ==> e in ImmSet(db.imm)
    ensures NewerThan(t, f)
  {
    forall e, x | e in f.entries && x in t.entries && e.key.user == x.key.user ensures x.key.num > e.key.num {
      assert At(db, InImm, x) && At(db, InTable(l, f), e);
    }
  }

  lemma FlushedOlder(db: Db, levels': Levels, j: Job, level: nat, table: Option<FileMeta>)
    requires Layered(db) && InputsOk(db.levels, j) && NoneOlder(db.levels, j)
    requires Flushed(db, levels', level, table)
    ensures InputsOk(levels', j) && NoneOlder(levels', j)
  {
    forall f, g | f in j.in0 && g in levels'[j.level] && g !in j.in0 ensures NewerThan(g, f) {
      if g !in db.levels[j.level] {
        FlushedNewer(db, level, g, j.level, f);
      }
    }
  }

  /** Past the compaction's levels, a flushed table meets no input. */
  lemma InputsMissFlush(db: Db, j: Job, level: nat, t: FileMeta)
    requires LevelsOk(db.levels) && InputsOk(db.levels, j) && level < NUM_LEVELS
    requires FlushLevelOk(db.levels, level, t) && level >= j.level + 1
    ensures forall f :: f in j.Inputs() ==> f.Ok() && !Overlaps(f, t)
  {
  }

  lemma FlushedBetween(db: Db, levels': Levels, j: Job, level: nat, table: Option<FileMeta>)
    requires LevelsOk(db.levels) && InputsOk(db.levels, j) && NoneBetween(db.levels, j)
    requires Flushed(db, levels', level, table) && InputsOk(levels', j)
    ensures NoneBetween(levels', j)
  {
    forall g | g in levels'[j.level + 1] && g !in j.in1
      ensures Clear(g, j.Inputs()) && forall f :: f in j.in0 ==> !Overlaps(f, g)
    {
      if g !in db.levels[j.level + 1] {
        InputsMissFlush(db, j, level, g);
        ClearOfCovered(g, j.Inputs());
      }
    }
  }

  lemma FlushedBase(db: Db, levels': Levels, j: Job, level: nat, table: Option<FileMeta>)
    requires LevelsOk(db.levels) && InputsOk(db.levels, j) && BaseHolds(db.levels, j)
    requires Flushed(db, levels', level, table) && InputsOk(levels', j)
    ensures BaseHolds(levels', j)
  {
    hide LevelsOk, Flushed, Covered, BaseLevel;
    forall e, l: nat, g | e in UnionEntries(j.Inputs()) && j.level + 2 <= l < NUM_LEVELS && g in levels'[l]
      ensures BaseLevel(j.base, j.level, e.key.user) ==> !g.Spans(e.key.user)
    {
      if g !in db.levels[l] { FlushedMisses(db, levels', j, level, table, e, l, g); }
    }
  }

  lemma FlushedMisses(db: Db, levels': Levels, j: Job, level: nat, table: Option<FileMeta>, e: Entry, l: nat,
                      g: FileMeta)
    requires LevelsOk(db.levels) && InputsOk(db.levels, j) && Flushed(db, levels', level, table)
      && e in UnionEntries(j.Inputs())
    requires j.level + 2 <= l < NUM_LEVELS && g in levels'[l] && g !in db.levels[l]
    ensures !g.Spans(e.key.user)
  {
    InputsMissFlush(db, j, level, g);
    var f :| f in j.Inputs() && e in f.entries;
    EntryInFile(f, e);
  }

  lemma FlushedOutputs(db: Db, db': Db, j: Job, level: nat, table: Option<FileMeta>)
    requires Flushed(db, db'.levels, level, table) && OutputsOk(db, j) && db'.nextFile == db.nextFile + 1
    ensures OutputsOk(db', j)
  {
    forall n | n in LiveNumbers(db'.levels) ensures n in LiveNumbers(db.levels) || n == db.nextFile {
      var l, f :| 0 <= l < |db'.levels| && f in db'.levels[l] && n == f.number;
      assert f in db.levels[l] || n == db.nextFile;
    }
  }

  lemma FlushFiles(db: Db, db': Db, level: nat, table: Option<FileMeta>)
    requires NumbersOk(db) && DiskOk(db) && ManifestOk(db) && HistoryOk(db)
    requires Flushed(db, db'.levels, level, table) && db' == FlushTo(db, level, table)
    requires Replay(db'.manifest) == db'.levels && LastEdit(db'.manifest) == FlushEdit(db, level, table)
    ensures NumbersOk(db') && ManifestOk(db') && DiskOk(db')
  {
  }

  lemma FlushLogs(db: Db, db': Db, level: nat, table: Option<FileMeta>)
    requires LogsOk(db) && db' == FlushTo(db, level, table)
    requires LastEdit(db'.manifest) == FlushEdit(db, level, table)
    ensures LogsOk(db')
  {
    assert LogRange(db.logs, db.logNumber, db.logNumber) == {};
  }
}
