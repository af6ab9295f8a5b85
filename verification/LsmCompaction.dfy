/** Compaction steps: start, emit, install and trivial move keep the structural invariant, and an
    install changes the stored entries exactly as the drop rules say. */
module LsmCompaction {
  import opened Wrappers
  import opened Keys
  import opened Reads
  import opened LsmModel
  import opened LsmShape

  // ----- start and emit -----

  lemma StartShape(db: Db, level: nat, in0: set<FileMeta>, in1: set<FileMeta>)
    requires Shape(db) && CanStart(db, level, in0, in1)
    ensures Shape(StartTo(db, level, in0, in1))
  {
    SameStore(db, StartTo(db, level, in0, in1));
    StartJob(db, level, in0, in1);
    StartDisk(db, level, in0, in1);
  }

  lemma StartDisk(db: Db, level: nat, in0: set<FileMeta>, in1: set<FileMeta>)
    requires DiskOk(db) && db.job.None?
    ensures DiskOk(StartTo(db, level, in0, in1))
  {
  }

  lemma StartJob(db: Db, level: nat, in0: set<FileMeta>, in1: set<FileMeta>)
    requires LevelsOk(db.levels) && CanStart(db, level, in0, in1)
    ensures JobShape(StartTo(db, level, in0, in1))
  {
    var j0, j := Job(level, in0, in1, 0, db.levels, []), Job(level, in0, in1, Floor(db), db.levels, []);
    assert j.Inputs() == j0.Inputs();
    assert NoneOlder(db.levels, j);
    assert NoneBetween(db.levels, j);
  }

  lemma EmitShape(db: Db, f: FileMeta)
    requires Shape(db) && CanEmit(db, f)
    ensures Shape(EmitTo(db, f))
  {
    SameStore(db, EmitTo(db, f));
    EmitJob(db, f);
    EmitFiles(db, f);
  }

  lemma EmitFiles(db: Db, f: FileMeta)
    requires DiskOk(db) && NumbersOk(db) && ManifestOk(db) && CanEmit(db, f)
    ensures DiskOk(EmitTo(db, f)) && NumbersOk(EmitTo(db, f)) && ManifestOk(EmitTo(db, f))
  {
  }

  lemma EmitJob(db: Db, f: FileMeta)
    requires NumbersOk(db) && JobShape(db) && CanEmit(db, f)
    ensures JobShape(EmitTo(db, f))
  {
    var j, j' := db.job.value, EmitTo(db, f).job.value;
    assert j'.Inputs() == j.Inputs();
    assert forall e :: Dropped(j', e) <==> Dropped(j, e);
    assert Kept(j') == Kept(j);
    assert forall n :: n in LiveNumbers(db.levels) ==> n < db.nextFile;
    EmitOutputs(db, f);
    SameInputs(db.levels, j, j');
  }

  lemma SameInputs(levels: Levels, j: Job, j': Job)
    requires j' == j.(outputs := j'.outputs) && InputsOk(levels, j)
    requires NoneOlder(levels, j) && NoneBetween(levels, j) && BaseHolds(levels, j)
    ensures InputsOk(levels, j') && NoneOlder(levels, j') && NoneBetween(levels, j') && BaseHolds(levels, j')
  {
    assert j'.Inputs() == j.Inputs();
  }

  lemma EmitOutputs(db: Db, f: FileMeta)
    requires db.job.Some? && OutputsOk(db, db.job.value) && CanEmit(db, f)
    requires forall n :: n in LiveNumbers(db.levels) ==> n < db.nextFile
    requires Kept(EmitTo(db, f).job.value) == Kept(db.job.value)
    ensures OutputsOk(EmitTo(db, f), EmitTo(db, f).job.value)
  {
  }

  // ----- install -----

  /** What an install does to the levels. */
  ghost predicate Installed(levels: Levels, levels': Levels, j: Job) {
    && |levels| == |levels'| == NUM_LEVELS && j.level + 1 < NUM_LEVELS
    && (forall l, f | 0 <= l < NUM_LEVELS :: f in levels'[l] <==>
          (f in levels[l] && !(l == j.level && f in j.in0) && !(l == j.level + 1 && f in j.in1))
          || (l == j.level + 1 && f in j.outputs))
  }

  lemma InstalledLevels(db: Db)
    requires LevelsOk(db.levels) && db.job.Some? && db.manifest != [] && InputsOk(db.levels, db.job.value)
    ensures Installed(db.levels, InstallTo(db).levels, db.job.value)
  {
    var j := db.job.value;
    var e := InstallEdit(db, j);
    forall l: nat | l < NUM_LEVELS { EditLevel(db.levels, e, l); }
    forall l, f | 0 <= l < NUM_LEVELS && f in db.levels[l]
      ensures (l, f.number) in e.deleted <==> (l == j.level && f in j.in0) || (l == j.level + 1 && f in j.in1)
    {
      if (l, f.number) in e.deleted {
        if g :| g in j.in0 && (l, f.number) == (j.level, g.number) {
          assert f == g;
        } else {
          var h :| h in j.in1 && (l, f.number) == (j.level + 1, h.number);
          assert f == h;
        }
      }
    }
    forall l, f | 0 <= l < NUM_LEVELS ensures (l, f) in e.added <==> l == j.level + 1 && f in j.outputs {
    }
  }

  /** Each output entry comes from an input that surrounds it. */
  lemma KeptFromInput(j: Job, e: Entry) returns (f: FileMeta)
    requires e in Kept(j) && forall g :: g in j.Inputs() ==> g.Ok()
    ensures f in j.Inputs() && e in f.entries && AtMost(f.smallest, e.key) && AtMost(e.key, f.largest)
  {
    f :| f in j.Inputs() && e in f.entries;
    EntryInFile(f, e);
  }

  lemma OutputRange(j: Job, o: FileMeta) returns (f: FileMeta, g: FileMeta)
    requires o.Ok() && SeqSet(o.entries) <= Kept(j) && forall g :: g in j.Inputs() ==> g.Ok()
    ensures f in j.Inputs() && AtMost(f.smallest, o.smallest) && AtMost(o.smallest, f.largest)
    ensures g in j.Inputs() && AtMost(g.smallest, o.largest) && AtMost(o.largest, g.largest)
  {
    assert o.entries[0] in SeqSet(o.entries) && o.entries[|o.entries| - 1] in SeqSet(o.entries);
    f := KeptFromInput(j, o.entries[0]);
    g := KeptFromInput(j, o.entries[|o.entries| - 1]);
  }

  lemma InstalledLevelsOk(db: Db, levels': Levels, j: Job)
    requires LevelsOk(db.levels) && InputsOk(db.levels, j) && NoneBetween(db.levels, j) && OutputsOk(db, j)
    requires Installed(db.levels, levels', j)
    ensures LevelsOk(levels')
  {
    InstalledDisjoint(db, levels', j);
    InstalledNumbers(db, levels', j);
  }

  lemma InstalledDisjoint(db: Db, levels': Levels, j: Job)
    requires LevelsOk(db.levels) && InputsOk(db.levels, j) && NoneBetween(db.levels, j) && OutputsOk(db, j)
    requires Installed(db.levels, levels', j)
    ensures forall l, f, g :: 1 <= l < NUM_LEVELS && f in levels'[l] && g in levels'[l] && f != g
                              ==> Less(f.largest, g.smallest) || Less(g.largest, f.smallest)
  {
    hide NoneBetween, OutputsOk, LevelsOk, InputsOk, Less, Covered;
    InputsAreOk(db, j);
    forall l: nat, f, g | 1 <= l < NUM_LEVELS && f in levels'[l] && g in levels'[l] && f != g
      ensures Less(f.largest, g.smallest) || Less(g.largest, f.smallest)
    {
      if f in j.outputs && l == j.level + 1 {
        if g !in j.outputs { LeftIsClear(db, j, g); }
        OutputDisjoint(db, j, f, g);
      } else if g in j.outputs && l == j.level + 1 {
        LeftIsClear(db, j, f);
        OutputDisjoint(db, j, g, f);
      } else {
        LevelDisjoint(db.levels, l, f, g);
      }
    }
  }

  lemma InputsAreOk(db: Db, j: Job)
    requires LevelsOk(db.levels) && InputsOk(db.levels, j)
    ensures forall f :: f in j.Inputs() ==> f.Ok()
  {
  }

  lemma LeftIsClear(db: Db, j: Job, g: FileMeta)
    requires InputsOk(db.levels, j) && NoneBetween(db.levels, j) && j.level + 1 < |db.levels|
      && g in db.levels[j.level + 1] && g !in j.in1
    ensures Clear(g, j.Inputs())
  {
    hide Covered;
  }

  lemma LevelDisjoint(levels: Levels, l: nat, f: FileMeta, g: FileMeta)
    requires LevelsOk(levels) && 1 <= l < NUM_LEVELS && f in levels[l] && g in levels[l] && f != g
    ensures Less(f.largest, g.smallest) || Less(g.largest, f.smallest)
  {
  }

  lemma OutputDisjoint(db: Db, j: Job, o: FileMeta, g: FileMeta)
    requires OutputsOk(db, j) && o in j.outputs && g != o && forall f :: f in j.Inputs() ==> f.Ok()
    requires g in j.outputs || Clear(g, j.Inputs())
    ensures Less(o.largest, g.smallest) || Less(g.largest, o.smallest)
  {
    if g !in j.outputs {
      var a, b := OutputRange(j, o);
    }
  }

  lemma InstalledNumbers(db: Db, levels': Levels, j: Job)
    requires LevelsOk(db.levels) && InputsOk(db.levels, j) && OutputsOk(db, j)
    requires Installed(db.levels, levels', j)
    ensures forall l, k, f, g | 0 <= l < NUM_LEVELS && 0 <= k < NUM_LEVELS && f in levels'[l] && g in levels'[k]
              :: f.number == g.number ==> l == k && f == g
  {
    forall l, k, f, g | 0 <= l < NUM_LEVELS && 0 <= k < NUM_LEVELS && f in levels'[l] && g in levels'[k]
      && f.number == g.number ensures l == k && f == g
    {
      assert f !in j.outputs ==> f.number in LiveNumbers(db.levels);
      assert g !in j.outputs ==> g.number in LiveNumbers(db.levels);
    }
  }

  /** Where an entry of the new levels was before the install. */
  lemma FormerPlace(db: Db, db': Db, j: Job, p: Place, e: Entry) returns (p0: Place)
    requires LevelsOk(db.levels) && InputsOk(db.levels, j) && OutputsOk(db, j)
    requires Installed(db.levels, db'.levels, j) && db'.mem == db.mem && db'.imm == db.imm
    requires At(db', p, e)
    ensures At(db, p0, e)
    ensures (p0 == p && (p.InTable? && p.level == j.level ==> p.file !in j.in0))
            || (p.InTable? && p.level == j.level + 1 && p0.InTable?
                && ((p0.level == j.level && p0.file in j.in0) || (p0.level == j.level + 1 && p0.file in j.in1)))
  {
    if p.InTable? && p.level == j.level + 1 && p.file in j.outputs {
      assert e in SeqSet(p.file.entries);
      var f := KeptFromInput(j, e);
      p0 := InTable(if f in j.in0 then j.level else j.level + 1, f);
    } else {
      p0 := p;
    }
  }

  lemma InstalledLayered(db: Db, db': Db, j: Job)
    requires LevelsOk(db.levels) && Layered(db)
    requires InputsOk(db.levels, j) && NoneOlder(db.levels, j) && OutputsOk(db, j)
    requires Installed(db.levels, db'.levels, j) && db'.mem == db.mem && db'.imm == db.imm
    ensures Layered(db')
  {
    forall p, q, e, x | At(db', p, e) && At(db', q, x) && e.key.user == x.key.user && Above(p, q)
      ensures e.key.num > x.key.num
    {
      var p0 := FormerPlace(db, db', j, p, e);
      var q0 := FormerPlace(db, db', j, q, x);
      if !Above(p0, q0) {
        assert p0.InTable? && p0.level == j.level && q0.level == j.level && q0.file in j.in0;
      }
    }
  }

  lemma InstalledContents(db: Db, db': Db, j: Job)
    requires LevelsOk(db.levels) && InputsOk(db.levels, j) && OutputsOk(db, j)
    requires UnionEntries(set f | f in j.outputs) == Kept(j)
    requires Installed(db.levels, db'.levels, j) && db'.mem == db.mem && db'.imm == db.imm
    ensures Contents(db') <= Contents(db)
    ensures Contents(db) - UnionEntries(j.Inputs()) <= Contents(db')
    ensures Kept(j) <= Contents(db')
  {
    hide Kept, OutputsOk, LevelsOk, Covered;
    forall e | e in Contents(db') ensures e in Contents(db) {
      if e in FileEntries(db'.levels) {
        var l, f :| 0 <= l < |db'.levels| && f in db'.levels[l] && e in f.entries;
        FormerlyStored(db, db', j, l, f, e);
      }
    }
    forall e | e in FileEntries(db.levels) && e !in UnionEntries(j.Inputs()) ensures e in FileEntries(db'.levels) {
      var l, f :| 0 <= l < |db.levels| && f in db.levels[l] && e in f.entries;
      assert f !in j.Inputs();
      assert f in db'.levels[l];
    }
    forall e | e in Kept(j) ensures e in FileEntries(db'.levels) {
      var f :| f in j.outputs && e in f.entries;
      assert f in db'.levels[j.level + 1];
    }
  }

  lemma FormerlyStored(db: Db, db': Db, j: Job, l: nat, f: FileMeta, e: Entry)
    requires LevelsOk(db.levels) && InputsOk(db.levels, j) && OutputsOk(db, j)
    requires Installed(db.levels, db'.levels, j) && db'.mem == db.mem && db'.imm == db.imm
    requires l < |db'.levels| && f in db'.levels[l] && e in f.entries
    ensures e in Contents(db)
  {
    hide LevelsOk, InputsOk, OutputsOk, Installed;
    var p0 := FormerPlace(db, db', j, InTable(l, f), e);
  }

  lemma InstallShape(db: Db)
    requires Shape(db) && CanInstall(db)
    ensures Shape(InstallTo(db))
  {
    var db', j := InstallTo(db), db.job.value;
    InstalledLevels(db);
    InstalledLevelsOk(db, db'.levels, j);
    InstalledLayered(db, db', j);
    InstalledContents(db, db', j);
    ReplayOne(db.manifest, InstallEdit(db, j));
    InstallFiles(db, db', j);
  }

  lemma InstallFiles(db: Db, db': Db, j: Job)
    requires NumbersOk(db) && DiskOk(db) && ManifestOk(db) && HistoryOk(db) && OutputsOk(db, j)
    requires db.job == Some(j) && db' == InstallTo(db) && Installed(db.levels, db'.levels, j)
    requires Replay(db'.manifest) == db'.levels && LastEdit(db'.manifest) == InstallEdit(db, j)
    ensures NumbersOk(db') && ManifestOk(db') && DiskOk(db')
  {
  }

  // ----- trivial move -----

  ghost predicate Moved(levels: Levels, levels': Levels, level: nat, t: FileMeta) {
    && |levels| == |levels'| == NUM_LEVELS && level + 1 < NUM_LEVELS && t in levels[level]
    && (forall l, f | 0 <= l < NUM_LEVELS :: f in levels'[l] <==>
          (f in levels[l] && !(l == level && f == t)) || (l == level + 1 && f == t))
  }

  lemma MovedLevels(db: Db, level: nat, t: FileMeta)
    requires LevelsOk(db.levels) && CanMove(db, level, t)
    ensures Moved(db.levels, MoveTo(db, level, t).levels, level, t)
  {
    assert t in {t};
    var e := MoveEdit(db, level, t);
    forall l: nat | l < NUM_LEVELS { EditLevel(db.levels, e, l); }
  }

  lemma MoveShape(db: Db, level: nat, t: FileMeta)
    requires Shape(db) && CanMove(db, level, t)
    ensures Shape(MoveTo(db, level, t)) && Contents(MoveTo(db, level, t)) == Contents(db)
  {
    var db' := MoveTo(db, level, t);
    MoveEntries(db, db', level, t);
    ReplayOne(db.manifest, MoveEdit(db, level, t));
    MoveFiles(db, db', level, t);
    MoveLogs(db, level, t);
    MoveJob(db, level, t);
  }

  lemma MoveJob(db: Db, level: nat, t: FileMeta)
    requires SnapshotsOk(db) && db.job.None? && db.manifest != []
    ensures SnapshotsOk(MoveTo(db, level, t)) && JobShape(MoveTo(db, level, t))
  {
  }

  lemma MoveEntries(db: Db, db': Db, level: nat, t: FileMeta)
    requires LevelsOk(db.levels) && HistoryOk(db) && Layered(db) && CanMove(db, level, t) && db' == MoveTo(db, level, t)
    ensures LevelsOk(db'.levels) && HistoryOk(db') && Layered(db') && Contents(db') == Contents(db)
    ensures Moved(db.levels, db'.levels, level, t)
  {
    MovedLevels(db, level, t);
    MovedLevelsOk(db, db'.levels, level, t);
    MovedLayered(db, db', level, t);
    MovedContents(db, db', level, t);
    SameHistory(db, db');
  }

  lemma MoveLogs(db: Db, level: nat, t: FileMeta)
    requires LogsOk(db) && LastEdit(MoveTo(db, level, t).manifest) == MoveEdit(db, level, t)
    ensures LogsOk(MoveTo(db, level, t))
  {
  }

  lemma MovedLevelsOk(db: Db, levels': Levels, level: nat, t: FileMeta)
    requires LevelsOk(db.levels) && Picked(db.levels, level, {t}, {}) && Moved(db.levels, levels', level, t)
    ensures LevelsOk(levels')
  {
    var j := Job(level, {t}, {}, 0, db.levels, []);
    assert t in j.Inputs();
    forall g | g in db.levels[level + 1] ensures Less(g.largest, t.smallest) || Less(t.largest, g.smallest) {
      assert Clear(g, j.Inputs());
    }
  }

  lemma MovedLayered(db: Db, db': Db, level: nat, t: FileMeta)
    requires LevelsOk(db.levels) && Layered(db) && Picked(db.levels, level, {t}, {})
    requires Moved(db.levels, db'.levels, level, t) && db'.mem == db.mem && db'.imm == db.imm
    ensures Layered(db')
  {
    var j := Job(level, {t}, {}, 0, db.levels, []);
    forall p, q, e, x | At(db', p, e) && At(db', q, x) && e.key.user == x.key.user && Above(p, q)
      ensures e.key.num > x.key.num
    {
      var p0 := if p == InTable(level + 1, t) then InTable(level, t) else p;
      var q0 := if q == InTable(level + 1, t) then InTable(level, t) else q;
      assert At(db, p0, e) && At(db, q0, x);
      if !Above(p0, q0) {
        assert t in j.in0 && p.file !in j.in0;
      }
    }
  }

  lemma MovedContents(db: Db, db': Db, level: nat, t: FileMeta)
    requires Moved(db.levels, db'.levels, level, t) && db'.mem == db.mem && db'.imm == db.imm
    ensures Contents(db') == Contents(db)
  {
    forall e ensures e in FileEntries(db'.levels) <==> e in FileEntries(db.levels) {
      if e in FileEntries(db'.levels) {
        var l, f :| 0 <= l < |db'.levels| && f in db'.levels[l] && e in f.entries;
        assert f in db.levels[if f == t then level else l];
      }
      if e in FileEntries(db.levels) {
        var l, f :| 0 <= l < |db.levels| && f in db.levels[l] && e in f.entries;
        assert f in db'.levels[if f == t then level + 1 else l];
      }
    }
  }

  lemma MoveFiles(db: Db, db': Db, level: nat, t: FileMeta)
    requires NumbersOk(db) && DiskOk(db) && ManifestOk(db) && HistoryOk(db) && db.job.None?
    requires db' == MoveTo(db, level, t) && Moved(db.levels, db'.levels, level, t)
    requires Replay(db'.manifest) == db'.levels && LastEdit(db'.manifest) == MoveEdit(db, level, t)
    ensures NumbersOk(db') && ManifestOk(db') && DiskOk(db')
  {
  }
}
