/** What the store's methods rest on: lists against levels, edits that fit, runs, tables, and the first hit of a lookup.
    */
module StoreFacts {
  import opened Wrappers
  import opened Keys
  import opened Cursors
  import opened Reads
  import opened LsmModel
  import opened LsmShape
  import opened LsmCompaction
  import opened LsmRecovery
  import opened LsmReads
  import opened LsmRuns
  import opened InputSelection
  import opened CompactionPick
  import opened CompactionLoop
  import opened VersionBuilder
  import opened Lookup
  import opened Merger
  import opened CompactionInput

  // ----- what a reader is promised -----

  /** The value of u as of sequence number s in the committed history. */
  function ReadAt(history: seq<Entry>, u: UserKey, s: nat): Option<Value> {
    if history == [] then None
    else
      var e := history[|history| - 1];
      if e.key.user == u && e.key.num <= s then
        if e.key.kind == Put then Some(e.value) else None
      else ReadAt(history[..|history| - 1], u, s)
  }

  lemma {:induction false} ReadAtAnswers(h: seq<Entry>, u: UserKey, s: nat)
    requires forall i, j :: 0 <= i < j < |h| ==> h[i].key.num < h[j].key.num
    ensures Answers(SeqSet(h), u, s, ReadAt(h, u, s))
  {
    if h != [] {
      var front, e := h[..|h| - 1], h[|h| - 1];
      assert SeqSet(h) == SeqSet(front) + {e};
      if e.key.user == u && e.key.num <= s {
        assert IsNewest(SeqSet(h), u, s, e);
        forall x | IsNewest(SeqSet(h), u, s, x) ensures x == e {
          var i :| 0 <= i < |h| && h[i] == x;
        }
      } else {
        ReadAtAnswers(front, u, s);
        assert forall x :: IsNewest(SeqSet(h), u, s, x) <==> IsNewest(SeqSet(front), u, s, x);
      }
    }
  }

  // ----- lists and levels -----

  /** The version's lists are in BySmallestKey order and represent the levels. */
  ghost predicate Listed(lists: seq<seq<FileMeta>>) {
    |lists| == NUM_LEVELS && forall l :: 0 <= l < NUM_LEVELS ==> StrictlyInOrder(lists[l])
  }

  lemma LevelIs(lists: seq<seq<FileMeta>>, l: nat)
    requires l < |lists|
    ensures LevelsOf(lists)[l] == FileSet(lists[l])
    ensures forall f :: f in LevelsOf(lists)[l] <==> f in lists[l]
  {
  }

  lemma ListedIsOk(lists: seq<seq<FileMeta>>)
    requires Listed(lists) && LevelsOk(LevelsOf(lists))
    ensures ListsOk(lists)
  {
    forall l: nat | l < NUM_LEVELS ensures AllOk(lists[l]) && (l >= 1 ==> Disjoint(lists[l])) {
      LevelIs(lists, l);
      if l >= 1 { DisjointInOrder(lists[l]); }
    }
  }

  lemma DisjointInOrder(files: seq<FileMeta>)
    requires AllOk(files) && StrictlyInOrder(files)
    requires forall f, g :: f in files && g in files && f != g ==>
      Less(f.largest, g.smallest) || Less(g.largest, f.smallest)
    ensures Disjoint(files)
  {
    forall i, k | 0 <= i < k < |files| ensures Less(files[i].largest, files[k].smallest) {
      assert Before(files[i], files[k]);
      OkBounds(files[i]);
      OkBounds(files[k]);
    }
  }

  lemma ListedIsLayered(db: Db, lists: seq<seq<FileMeta>>)
    requires db.levels == LevelsOf(lists) && LevelsOk(db.levels) && Layered(db)
    ensures TablesLayered(lists)
  {
    forall l: nat | l < NUM_LEVELS { LevelIs(lists, l); }
    forall f, g | f in lists[0] && g in lists[0] && f.number >= g.number && f != g ensures NewerThan(f, g) {
      assert f in db.levels[0] && g in db.levels[0];
      forall e, x | e in g.entries && x in f.entries && e.key.user == x.key.user ensures x.key.num > e.key.num {
        assert At(db, InTable(0, f), x) && At(db, InTable(0, g), e);
      }
    }
    forall l, k, f, g | 0 <= l < NUM_LEVELS && 0 <= k < NUM_LEVELS && f in lists[l] && g in lists[k] && l < k
      ensures NewerThan(f, g)
    {
      forall e, x | e in g.entries && x in f.entries && e.key.user == x.key.user ensures x.key.num > e.key.num {
        LayeredFiles(db, l, f, x, k, g, e);
      }
    }
  }

  lemma UpToIsFileEntries(lists: seq<seq<FileMeta>>)
    requires |lists| == NUM_LEVELS
    ensures UpTo(lists, NUM_LEVELS) == FileEntries(LevelsOf(lists))
  {
    forall l: nat | l < NUM_LEVELS { LevelIs(lists, l); }
    forall e | e in UpTo(lists, NUM_LEVELS) ensures e in FileEntries(LevelsOf(lists)) {
      var k, f :| 0 <= k < NUM_LEVELS && f in lists[k] && e in f.entries;
      assert f in LevelsOf(lists)[k];
    }
    forall e | e in FileEntries(LevelsOf(lists)) ensures e in UpTo(lists, NUM_LEVELS) {
      var k, f :| 0 <= k < NUM_LEVELS && f in LevelsOf(lists)[k] && e in f.entries;
      assert f in lists[k];
    }
  }

  lemma ListUnique(db: Db, lists: seq<seq<FileMeta>>, l: nat)
    requires db.levels == LevelsOf(lists) && l < |lists| && UniqueNumbers(Contents(db))
    ensures UniqueIn(lists[l])
  {
    LevelIs(lists, l);
    assert UnionEntries(FileSet(lists[l])) <= FileEntries(db.levels) <= Contents(db);
  }

  // ----- installing an edit -----

  lemma {:induction false} LiveOnce(files: seq<FileMeta>, deleted: set<nat>, f: FileMeta)
    requires StrictlyInOrder(files)
    ensures multiset(Live(files, deleted))[f] <= if f in files then 1 else 0
  {
    if files != [] {
      var front, last := files[..|files| - 1], files[|files| - 1];
      LiveOnce(front, deleted, f);
      assert files == front + [last];
      BeforeIsOrder(last, last, last);
      assert forall k :: 0 <= k < |front| ==> Before(front[k], last);
    }
  }

  lemma CountedTwice(files: seq<FileMeta>, i: nat, k: nat)
    requires i < k < |files|
    ensures multiset(files)[files[i]] >= if files[i] == files[k] then 2 else 1
  {
    var left := files[..k];
    assert files == left + [files[k]] + files[k + 1..];
    assert left[i] == files[i] && files[i] in multiset(left);
  }

  lemma StrictFromCounts(files: seq<FileMeta>)
    requires InOrder(files) && NoTies(FileSet(files)) && forall f :: multiset(files)[f] <= 1
    ensures StrictlyInOrder(files)
  {
    forall i, k | 0 <= i < k < |files| ensures Before(files[i], files[k]) {
      CountedTwice(files, i, k);
      assert files[i] in FileSet(files) && files[k] in FileSet(files);
    }
  }

  /** What an edit must respect so that one save lists each file once. */
  ghost predicate EditFits(lists: seq<seq<FileMeta>>, e: Edit) {
    && |lists| == NUM_LEVELS && EditWithin(e)
    && forall l :: 0 <= l < NUM_LEVELS ==>
         && NoTies(FileSet(lists[l]) + AddedAt(e.added, l))
         && FileSet(lists[l]) !! AddedAt(e.added, l)
         && DeletedAt(e.deleted, l) !! NumbersAt(e.added, l)
  }

  /** LogAndApply's new version: one Builder, one edit. */
  method SaveEdit(lists: seq<seq<FileMeta>>, e: Edit) returns (out: seq<seq<FileMeta>>)
    requires Listed(lists) && EditFits(lists, e)
    ensures Listed(out) && LevelsOf(out) == ApplyEdit(LevelsOf(lists), e)
  {
    forall l: nat | l < NUM_LEVELS ensures InOrder(lists[l]) { StrictIsInOrder(lists[l]); }
    var b := new Builder(lists);
    assert forall l: nat :: AddedAfter([], l) == {} && {} + AddedAt(e.added, l) == AddedAt(e.added, l);
    b.Apply(e);
    out := b.SaveTo();
    assert [] + [e] == [e];
    forall l: nat | l < NUM_LEVELS
      ensures StrictlyInOrder(out[l]) && LevelsOf(out)[l] == ApplyEdit(LevelsOf(lists), e)[l]
    {
      SavedLevel(lists[l], b.added[l], b.deleted[l], out[l], LevelsOf(lists), e, l);
      LevelIs(out, l);
    }
  }

  lemma StrictIsInOrder(files: seq<FileMeta>)
    requires StrictlyInOrder(files)
    ensures InOrder(files)
  {
    forall i, k | 0 <= i < k < |files|
      ensures !Before(files[k], files[i])
    {
      BeforeIsOrder(files[i], files[k], files[i]);
    }
  }

  lemma OneEdit(e: Edit, l: nat)
    requires DeletedAt(e.deleted, l) !! NumbersAt(e.added, l)
    ensures DeletedAfter([e], l) == DeletedAt(e.deleted, l) && AddedAfter([e], l) == AddedAt(e.added, l)
    ensures forall n :: n in DeletedAt(e.deleted, l) <==> (l, n) in e.deleted
  {
    assert [e][..0] == [];
    forall n | (l, n) in e.deleted ensures n in DeletedAt(e.deleted, l) { assert (l, n).0 == l && (l, n).1 == n; }
  }

  lemma SavedLevel(base: seq<FileMeta>, added: seq<FileMeta>, deleted: set<nat>, files: seq<FileMeta>, levels: Levels,
                   e: Edit, l: nat)
    requires l < |levels| && levels[l] == FileSet(base) && StrictlyInOrder(base) && StrictlyInOrder(added)
    requires DeletedAt(e.deleted, l) !! NumbersAt(e.added, l) && FileSet(base) !! AddedAt(e.added, l)
    requires NoTies(FileSet(base) + AddedAt(e.added, l))
    requires deleted == DeletedAfter([e], l) && FileSet(added) == AddedAfter([e], l)
    requires InOrder(files) && multiset(files) == multiset(Live(base, deleted)) + multiset(Live(added, deleted))
    ensures StrictlyInOrder(files) && FileSet(files) == ApplyEdit(levels, e)[l]
  {
    OneEdit(e, l);
    forall f ensures multiset(files)[f] <= 1 {
      LiveOnce(base, deleted, f);
      LiveOnce(added, deleted, f);
      assert f in base <==> f in FileSet(base);
      assert f in added <==> f in FileSet(added);
    }
    forall f ensures f in files <==> f in ApplyEdit(levels, e)[l] {
      SavedAre(base, added, deleted, files, f);
      EditLevel(levels, e, l);
      assert f in base <==> f in FileSet(base);
      assert f in added <==> f in FileSet(added);
      if f in AddedAt(e.added, l) {
        assert (l, f) in e.added && (l, f).0 == l && (l, f).1 == f;
        assert f.number in NumbersAt(e.added, l);
      }
      if (l, f) in e.added {
        assert (l, f).0 == l && (l, f).1 == f;
        assert f in AddedAt(e.added, l);
      }
    }
    StrictFromCounts(files);
  }

  // ----- memtable -----

  /** MemTable::Add: the skip list keeps internal-key order. */
  method AddToRun(run: seq<Entry>, e: Entry) returns (out: seq<Entry>)
    requires Sorted(run) && forall x :: x in run ==> x.key.num != e.key.num
    ensures Sorted(out) && SeqSet(out) == SeqSet(run) + {e}
  {
    var i := SeekFrom(run, e.key, 0);
    SeekIsSlot(run, e);
    InsertedSorted(run, e, i);
    out := run[..i] + [e] + run[i..];
  }

  /** One operation of a write batch. */
  datatype Update = Update(user: UserKey, kind: Kind, value: Value)

  /** MemTableInserter gives the operations consecutive sequence numbers. */
  function Number(updates: seq<Update>, first: SeqNo): (es: seq<Entry>)
    requires first + |updates| <= MAX_SEQUENCE
    ensures |es| == |updates|
    ensures forall i :: 0 <= i < |es| ==> es[i].key.num == first + i
  {
    seq(|updates|, i requires 0 <= i < |updates| =>
      Entry(InternalKey(updates[i].user, first + i, updates[i].kind), updates[i].value))
  }

  method AddBatch(run: seq<Entry>, batch: seq<Entry>) returns (out: seq<Entry>)
    requires Sorted(run)
    requires forall x, e :: x in run && e in batch ==> x.key.num < e.key.num
    requires forall i, k :: 0 <= i < k < |batch| ==> batch[i].key.num < batch[k].key.num
    ensures Sorted(out) && SeqSet(out) == SeqSet(run) + SeqSet(batch)
  {
    out := run;
    for i := 0 to |batch|
      invariant Sorted(out) && SeqSet(out) == SeqSet(run) + SeqSet(batch[..i])
    {
      assert batch[..i + 1] == batch[..i] + [batch[i]];
      forall x | x in out ensures x.key.num != batch[i].key.num {
        assert x in SeqSet(out);
      }
      out := AddToRun(out, batch[i]);
    }
    assert batch[..|batch|] == batch;
  }

  lemma NoFiles(lists: seq<seq<FileMeta>>)
    requires |lists| == NUM_LEVELS && forall l :: 0 <= l < NUM_LEVELS ==> lists[l] == []
    ensures LevelsOf(lists) == EmptyLevels() && Listed(lists)
  {
    forall l: nat | l < NUM_LEVELS ensures LevelsOf(lists)[l] == EmptyLevels()[l] { LevelIs(lists, l); }
  }

  lemma NoEntries()
    ensures SeqSet([]) == {} && Sorted([])
  {
  }

  // ----- edits of the store fit its version -----

  lemma NumberedApart(db: Db, lists: seq<seq<FileMeta>>, e: Edit)
    requires db.levels == LevelsOf(lists) && LevelsOk(db.levels) && |lists| == NUM_LEVELS && EditWithin(e)
    requires forall p, f :: p in e.added && f in lists[p.0] ==> f.number != p.1.number
    requires forall p, q :: p in e.added && q in e.added && p.0 == q.0 && p.1.number == q.1.number ==> p == q
    requires forall p :: p in e.added ==> (p.0, p.1.number) !in e.deleted
    ensures EditFits(lists, e)
  {
    forall l: nat | l < NUM_LEVELS
      ensures NoTies(FileSet(lists[l]) + AddedAt(e.added, l)) && FileSet(lists[l]) !! AddedAt(e.added, l)
      ensures DeletedAt(e.deleted, l) !! NumbersAt(e.added, l)
    {
      LevelIs(lists, l);
      assert forall f :: f in FileSet(lists[l]) ==> f in db.levels[l];
      assert forall f :: f in AddedAt(e.added, l) ==> (l, f) in e.added;
      forall n | n in DeletedAt(e.deleted, l) ensures n !in NumbersAt(e.added, l) {
        var d :| d in e.deleted && d.0 == l && d.1 == n;
        assert d == (l, n);
      }
    }
  }

  lemma FlushFits(db: Db, lists: seq<seq<FileMeta>>, level: nat, table: Option<FileMeta>)
    requires db.levels == LevelsOf(lists) && LevelsOk(db.levels) && NumbersOk(db) && |lists| == NUM_LEVELS
    requires level < NUM_LEVELS && (table.Some? ==> table.value.number == db.nextFile)
    ensures EditFits(lists, FlushEdit(db, level, table))
  {
    forall l: nat | l < NUM_LEVELS { LevelIs(lists, l); }
    assert forall l, f :: 0 <= l < NUM_LEVELS && f in lists[l] ==> f in db.levels[l] && f.number < db.nextFile;
    NumberedApart(db, lists, FlushEdit(db, level, table));
  }

  lemma InstallFits(db: Db, lists: seq<seq<FileMeta>>)
    requires db.levels == LevelsOf(lists) && LevelsOk(db.levels) && |lists| == NUM_LEVELS && db.manifest != []
    requires db.job.Some? && InputsOk(db.levels, db.job.value) && OutputsOk(db, db.job.value)
    ensures EditFits(lists, InstallEdit(db, db.job.value))
  {
    hide EditFits, Kept, Covered, LevelsOk;
    var j := db.job.value;
    assert forall f :: f in j.outputs ==> f.number !in LiveNumbers(db.levels);
    assert forall f, g :: f in j.outputs && g in j.outputs && f.number == g.number ==> f == g;
    OutputsFit(db, lists, j);
  }

  lemma OutputsFit(db: Db, lists: seq<seq<FileMeta>>, j: Job)
    requires db.levels == LevelsOf(lists) && LevelsOk(db.levels) && |lists| == NUM_LEVELS && db.manifest != []
    requires j.level + 1 < NUM_LEVELS && j.in0 <= db.levels[j.level] && j.in1 <= db.levels[j.level + 1]
    requires forall f :: f in j.outputs ==> f.number !in LiveNumbers(db.levels)
    requires forall f, g :: f in j.outputs && g in j.outputs && f.number == g.number ==> f == g
    ensures EditFits(lists, InstallEdit(db, j))
  {
    hide EditFits, LevelsOk;
    var e := InstallEdit(db, j);
    forall l: nat | l < NUM_LEVELS { LevelIs(lists, l); }
    assert forall l, f :: 0 <= l < NUM_LEVELS && f in lists[l] ==>
      f in db.levels[l] && f.number in LiveNumbers(db.levels);
    forall p | p in e.added ensures (p.0, p.1.number) !in e.deleted {
      assert p.1 in j.outputs;
      assert forall f :: f in j.in0 ==> f.number in LiveNumbers(db.levels);
      assert forall f :: f in j.in1 ==> f.number in LiveNumbers(db.levels);
    }
    NumberedApart(db, lists, e);
  }

  lemma MoveFits(db: Db, lists: seq<seq<FileMeta>>, level: nat, f: FileMeta)
    requires db.levels == LevelsOf(lists) && LevelsOk(db.levels) && |lists| == NUM_LEVELS && db.manifest != []
    requires level + 1 < NUM_LEVELS && f in db.levels[level]
    ensures EditFits(lists, MoveEdit(db, level, f))
  {
    forall l: nat | l < NUM_LEVELS { LevelIs(lists, l); }
    assert forall l, g :: 0 <= l < NUM_LEVELS && g in lists[l] ==> g in db.levels[l];
    NumberedApart(db, lists, MoveEdit(db, level, f));
  }

  /** How deep a flushed memtable may go: past levels its range does not meet, and not above too much
      grandparent data (a size heuristic, here any set of levels). */
  method PickLevelForMemTableOutput(lists: seq<seq<FileMeta>>, f: FileMeta, heavy: set<nat>) returns (level: nat)
    requires ListsOk(lists) && f.Ok()
    ensures level <= MAX_MEM_COMPACT_LEVEL && FlushLevelOk(LevelsOf(lists), level, f)
  {
    forall l: nat | l < NUM_LEVELS { LevelIs(lists, l); }
    var lo, hi := Some(f.smallest.user), Some(f.largest.user);
    level := 0;
    var overlap := SomeFileOverlapsRange(false, lists[0], lo, hi);
    if !overlap {
      while level < MAX_MEM_COMPACT_LEVEL
        invariant level <= MAX_MEM_COMPACT_LEVEL
        invariant forall l, g :: 0 <= l <= level && g in lists[l] ==> !Meets(g, lo, hi)
      {
        overlap := SomeFileOverlapsRange(true, lists[level + 1], lo, hi);
        if overlap || level + 2 in heavy {
          break;
        }
        level := level + 1;
      }
      forall l, g | 0 <= l <= level && g in LevelsOf(lists)[l] ensures !Overlaps(g, f) {
        assert g in lists[l] && !Meets(g, lo, hi);
      }
    }
  }

  lemma ShapeBasics(db: Db)
    requires Shape(db)
    ensures db.logNumber in db.logs && db.manifest != [] && LevelsOk(db.levels) && Layered(db) && HistoryOk(db)
    ensures NumbersOk(db) && SnapshotsOk(db) && JobShape(db)
  {
  }

  /** The table WriteLevel0Table builds from a run. */
  function TableFrom(run: seq<Entry>, number: nat): FileMeta
    requires run != []
  {
    FileMeta(number, run[0].key, run[|run| - 1].key, run)
  }

  lemma TableOk(run: seq<Entry>, number: nat)
    requires Sorted(run) && run != []
    ensures TableFrom(run, number).Ok()
  {
  }

  lemma TableIsFlushable(db: Db, run: seq<Entry>, level: nat)
    requires Sorted(run) && db.imm == Some(SeqSet(run)) && level <= MAX_MEM_COMPACT_LEVEL
    requires run != [] ==> FlushLevelOk(db.levels, level, TableFrom(run, db.nextFile))
    ensures CanFlush(db, level, if run == [] then None else Some(TableFrom(run, db.nextFile)))
  {
    if run != [] { assert run[0] in SeqSet(run); }
  }

  lemma OlderThanBatch(db: Db, batch: Batch)
    requires Shape(db) && Numbered(batch, db.last)
    ensures forall x, e :: x in db.mem && e in batch ==> x.key.num < e.key.num
  {
    assert forall x :: x in db.mem ==> x in Contents(db);
  }

  // ----- what the merge loop's outputs make -----

  lemma {:induction false} SurvivingSorted(merged: seq<Entry>, j: Job)
    requires Sorted(merged)
    ensures Sorted(Surviving(merged, j))
    ensures forall e :: e in Surviving(merged, j) <==> e in merged && !Dropped(j, e)
  {
    if merged != [] {
      var front, last := merged[..|merged| - 1], merged[|merged| - 1];
      SurvivingSorted(front, j);
      assert merged == front + [last];
      forall e | e in Surviving(front, j) ensures Less(e.key, last.key) {
        var i :| 0 <= i < |front| && front[i] == e;
        assert merged[i] == e;
      }
    }
  }

  lemma {:induction false} ChunkInFlat(outs: seq<seq<Entry>>, i: nat)
    requires i < |outs| && Sorted(Flatten(outs))
    ensures Sorted(outs[i]) && forall e :: e in outs[i] ==> e in Flatten(outs)
    ensures forall e, x :: e in Flatten(outs[..i]) && x in outs[i] ==> Less(e.key, x.key)
    ensures Flatten(outs[..i + 1]) == Flatten(outs[..i]) + outs[i]
    decreases |outs|
  {
    var front, last := outs[..|outs| - 1], outs[|outs| - 1];
    var flat := Flatten(front);
    assert Flatten(outs) == flat + last;
    assert outs[..i + 1][..i] == outs[..i];
    SortedParts(flat, last);
    if i < |outs| - 1 {
      ChunkInFlat(front, i);
      assert front[..i] == outs[..i] && front[..i + 1] == outs[..i + 1];
    } else {
      assert outs[..i] == front;
    }
  }

  lemma SameKept(j: Job, outputs: seq<FileMeta>)
    ensures Kept(j.(outputs := outputs)) == Kept(j)
  {
    var j' := j.(outputs := outputs);
    assert j'.Inputs() == j.Inputs();
    assert forall e :: Droppable(j', e) <==> Droppable(j, e);
  }

  /** Chunk i of the merge loop's output can be the next output file. */
  lemma ChunkIsOutput(merged: seq<Entry>, j: Job, outs: seq<seq<Entry>>, i: nat, emitted: seq<FileMeta>)
    requires MergedInputs(merged, j) && Flatten(outs) == Surviving(merged, j) && i < |outs|
    requires UnionEntries(set f | f in emitted) == SeqSet(Flatten(outs[..i]))
    ensures Sorted(outs[i]) && SeqSet(outs[i]) <= Kept(j)
    ensures forall g, e, x | g in emitted && e in g.entries && x in outs[i] :: Less(e.key, x.key)
    ensures Flatten(outs[..i + 1]) == Flatten(outs[..i]) + outs[i]
  {
    SurvivingSorted(merged, j);
    ChunkInFlat(outs, i);
    forall g, e | g in emitted && e in g.entries ensures e in Flatten(outs[..i]) {
      assert e in UnionEntries(set f | f in emitted);
    }
  }

  lemma AllEmitted(merged: seq<Entry>, j: Job, outs: seq<seq<Entry>>, emitted: seq<FileMeta>)
    requires MergedInputs(merged, j) && Flatten(outs) == Surviving(merged, j)
    requires UnionEntries(set f | f in emitted) == SeqSet(Flatten(outs))
    ensures UnionEntries(set f | f in emitted) == Kept(j)
  {
    SurvivingSorted(merged, j);
  }

  lemma EmittedMore(emitted: seq<FileMeta>, f: FileMeta, flat: seq<Entry>)
    requires UnionEntries(set g | g in emitted) == SeqSet(flat)
    ensures UnionEntries(set g | g in emitted + [f]) == SeqSet(flat + f.entries)
  {
    var before := set g | g in emitted;
    assert (set g | g in emitted + [f]) == before + {f};
    assert UnionEntries(before + {f}) == UnionEntries(before) + SeqSet(f.entries);
    assert SeqSet(flat + f.entries) == SeqSet(flat) + SeqSet(f.entries);
  }

  /** The table built from a run that follows every output so far can be emitted. */
  lemma RunCanBeEmitted(db: Db, run: seq<Entry>)
    requires db.job.Some? && run != [] && Sorted(run) && SeqSet(run) <= Kept(db.job.value)
    requires forall g :: g in db.job.value.outputs ==> g.Ok()
    requires forall g, e, x | g in db.job.value.outputs && e in g.entries && x in run :: Less(e.key, x.key)
    ensures CanEmit(db, TableFrom(run, db.nextFile))
  {
    TableOk(run, db.nextFile);
    forall g | g in db.job.value.outputs ensures Less(g.largest, run[0].key) {
      assert g.entries[|g.entries| - 1] in g.entries && run[0] in run;
    }
  }

  lemma OutputsAreOk(db: Db)
    requires JobShape(db) && db.job.Some?
    ensures forall g :: g in db.job.value.outputs ==> g.Ok()
  {
  }

  lemma InstallParts(db: Db, lists: seq<seq<FileMeta>>)
    requires JobShape(db) && CanInstall(db) && Listed(lists)
    ensures db.job.Some? && db.manifest != [] && |lists| == NUM_LEVELS
    ensures InputsOk(db.levels, db.job.value) && OutputsOk(db, db.job.value)
  {
  }

  lemma AllEmittedCanInstall(db: Db, j: Job)
    requires db.job.Some? && db.manifest != [] && db.job.value == j.(outputs := db.job.value.outputs)
    requires UnionEntries(set f | f in db.job.value.outputs) == Kept(j)
    ensures CanInstall(db)
  {
    SameKept(j, db.job.value.outputs);
  }

  // ----- file collection -----

  /** Deletes every file whose number is not in keep. */
  method KeepFiles<V>(files: map<nat, V>, keep: set<nat>) returns (kept: map<nat, V>)
    ensures kept == map n | n in files && n in keep :: files[n]
  {
    kept := files;
    var names := files.Keys;
    while names != {}
      invariant names <= files.Keys
      invariant forall n :: n in kept <==> n in files && (n in names || n in keep)
      invariant forall n :: n in kept ==> kept[n] == files[n]
      decreases names
    {
      var n :| n in names;
      names := names - {n};
      if n !in keep {
        kept := kept - {n};
      }
    }
  }

  lemma PinnedStep(pinned: seq<Levels>, i: nat)
    requires i < |pinned|
    ensures (set v, n | v in pinned[..i + 1] && n in LiveNumbers(v) :: n)
            == (set v, n | v in pinned[..i] && n in LiveNumbers(v) :: n) + LiveNumbers(pinned[i])
  {
    assert pinned[..i + 1] == pinned[..i] + [pinned[i]];
  }

  lemma LiveIsFileNumbers(db: Db, live: set<nat>)
    requires live == (if db.job.Some? then set f | f in db.job.value.outputs :: f.number else {})
                     + LiveNumbers(db.levels) + (if db.job.Some? then LiveNumbers(db.job.value.base) else {})
                     + set v, n | v in db.pinned && n in LiveNumbers(v) :: n
    ensures live == FileNumbers(db)
  {
  }

  lemma Collected(db: Db, db': Db, live: set<nat>, minLog: nat)
    requires db.manifest != [] && live == FileNumbers(db) && minLog == LastEdit(db.manifest).logNumber
    requires db'.disk == (map n | n in db.disk && n in live :: db.disk[n])
    requires db'.logs == (map n | n in db.logs && n in (set k | k in db.logs && k >= minLog) :: db.logs[n])
    requires db' == db.(disk := db'.disk, logs := db'.logs)
    ensures db' == CollectTo(db)
  {
    assert db'.logs == CollectTo(db).logs;
    assert db'.disk == CollectTo(db).disk;
  }

  // ----- picked inputs -----

  lemma PickedParts(db: Db, lists: seq<seq<FileMeta>>, level: nat, f: FileMeta)
    requires db.levels == LevelsOf(lists) && db.job.None? && db.manifest != [] && Listed(lists)
      && Picked(db.levels, level, {f}, {})
    ensures CanMove(db, level, f) && level + 1 < NUM_LEVELS == |lists| && f in db.levels[level]
  {
    assert f in {f};
  }

  lemma LoneInput(in0: seq<FileMeta>, in1: seq<FileMeta>)
    requires |in0| == 1 && in1 == []
    ensures FileSet(in0) == {in0[0]} && FileSet(in1) == {}
  {
  }

  lemma MoveGood(db: Db, level: nat, f: FileMeta)
    requires Shape(db) && Good(db) && CanMove(db, level, f)
    ensures Good(MoveTo(db, level, f))
  {
    StepGood(db, Move(level, f));
  }

  // ----- a compaction's inputs can be merged -----

  lemma {:induction false} SelectedOnce(files: seq<FileMeta>, b: Option<UserKey>, e: Option<UserKey>)
    requires forall i, k :: 0 <= i < k < |files| ==> files[i] != files[k]
    ensures forall i, k :: 0 <= i < k < |Selected(files, b, e)| ==> Selected(files, b, e)[i] != Selected(files, b, e)[k]
  {
    if files != [] {
      SelectedOnce(files[..|files| - 1], b, e);
      SelectedAre(files[..|files| - 1], b, e);
    }
  }

  lemma StrictOnce(files: seq<FileMeta>)
    requires StrictlyInOrder(files)
    ensures forall i, k :: 0 <= i < k < |files| ==> files[i] != files[k]
  {
    forall i, k | 0 <= i < k < |files| ensures files[i] != files[k] {
      BeforeIsOrder(files[i], files[i], files[i]);
      assert Before(files[i], files[k]);
    }
  }

  lemma InputsApart(db: Db, lists: seq<seq<FileMeta>>, level: nat, in0: seq<FileMeta>, in1: seq<FileMeta>)
    requires db.levels == LevelsOf(lists) && Listed(lists) && LevelsOk(db.levels) && Layered(db)
      && level + 1 < NUM_LEVELS
    requires InputOrder(lists, level, in0, in1)
    requires FileSet(in0) <= db.levels[level] && FileSet(in1) <= db.levels[level + 1]
    ensures AllOk(in0) && AllOk(in1) && Apart(level, in0, in1)
  {
    assert forall f :: f in in0 ==> f in FileSet(in0);
    assert forall f :: f in in1 ==> f in FileSet(in1);
    if level == 0 {
      var b, e :| in0 == Selected(lists[0], b, e);
      StrictOnce(lists[0]);
      SelectedOnce(lists[0], b, e);
    }
    forall f, g, e, k, l
      | 0 <= k < NUM_LEVELS && 0 <= l < NUM_LEVELS && f in db.levels[k] && g in db.levels[l]
      && e in f.entries && e in g.entries
      ensures f == g && k == l
    {
      OnePlace(db, InTable(k, f), InTable(l, g), e);
    }
  }

  lemma MergeIsUnion(merged: seq<Entry>, runs: seq<seq<Entry>>, j: Job)
    requires MergeOf(merged, runs) && UniqueNumbers(UnionEntries(j.Inputs()))
    requires forall e :: (exists i :: 0 <= i < |runs| && e in runs[i]) <==> e in UnionEntries(j.Inputs())
    ensures MergedInputs(merged, j)
  {
    forall e ensures e in SeqSet(merged) <==> e in UnionEntries(j.Inputs()) { }
  }

  lemma RunsMergeable(db: Db, runs: seq<seq<Entry>>)
    requires UniqueNumbers(Contents(db))
    requires forall i :: 0 <= i < |runs| ==> Sorted(runs[i]) && forall e :: e in runs[i] ==> e in Contents(db)
    requires forall i, k, e :: 0 <= i < k < |runs| && e in runs[i] ==> e !in runs[k]
    ensures Mergeable(runs)
  {
    forall i, k, e, x | 0 <= i < k < |runs| && e in runs[i] && x in runs[k] ensures Compare(e.key, x.key) != 0 {
      assert e != x;
    }
  }

  lemma SortedParts(a: seq<Entry>, b: seq<Entry>)
    requires Sorted(a + b)
    ensures Sorted(a) && Sorted(b) && forall e, x :: e in a && x in b ==> Less(e.key, x.key)
  {
    assert forall i :: 0 <= i < |a| ==> (a + b)[i] == a[i];
    assert forall i :: 0 <= i < |b| ==> (a + b)[|a| + i] == b[i];
  }

  /** The answer of the first place that has one, from mem down, is right about everything stored. */
  lemma FirstHit(db: Db, mem: seq<Entry>, imm: Option<seq<Entry>>, u: UserKey, s: SeqNo, r: Saver)
    requires Layered(db) && db.mem == SeqSet(mem) && db.imm == if imm.Some? then Some(SeqSet(imm.value)) else None
    requires var rm := RunGet(mem, u, s);
             RightFor(db.mem, u, s, rm) &&
             if rm != NotFound then r == rm
             else if imm.Some? && RunGet(imm.value, u, s) != NotFound then
               r == RunGet(imm.value, u, s) && RightFor(ImmSet(db.imm), u, s, r)
             else RightFor(ImmSet(db.imm), u, s, NotFound) && RightFor(FileEntries(db.levels), u, s, r)
    ensures RightFor(Contents(db), u, s, r)
  {
    MemAbove(db);
    var files := FileEntries(db.levels);
    var rm := RunGet(mem, u, s);
    if rm != NotFound {
      RightBelowAll({}, db.mem, ImmSet(db.imm) + files, u, s, r);
      assert {} + db.mem + (ImmSet(db.imm) + files) == Contents(db);
    } else if imm.Some? && RunGet(imm.value, u, s) != NotFound {
      RightBelowAll(db.mem, ImmSet(db.imm), files, u, s, r);
    } else {
      RightBelow(db.mem, ImmSet(db.imm), u, s, NotFound);
      RightBelow(db.mem + ImmSet(db.imm), files, u, s, r);
    }
  }

  lemma MemAbove(db: Db)
    requires Layered(db)
    ensures forall e, x :: e in db.mem && x in ImmSet(db.imm) + FileEntries(db.levels) && e.key.user == x.key.user
              ==> e.key.num > x.key.num
    ensures forall e, x :: e in ImmSet(db.imm) && x in FileEntries(db.levels) && e.key.user == x.key.user
              ==> e.key.num > x.key.num
  {
    forall e, x | e in db.mem && x in ImmSet(db.imm) + FileEntries(db.levels) && e.key.user == x.key.user
      ensures e.key.num > x.key.num
    {
      assert At(db, InMem, e);
      if x in ImmSet(db.imm) {
        assert At(db, InImm, x);
      } else {
        var l, f :| 0 <= l < |db.levels| && f in db.levels[l] && x in f.entries;
        assert At(db, InTable(l, f), x);
      }
    }
    forall e, x | e in ImmSet(db.imm) && x in FileEntries(db.levels) && e.key.user == x.key.user
      ensures e.key.num > x.key.num
    {
      var l, f :| 0 <= l < |db.levels| && f in db.levels[l] && x in f.entries;
      assert At(db, InImm, e) && At(db, InTable(l, f), x);
    }
  }

  lemma ReadIsHistory(db: Db, u: UserKey, s: SeqNo, r: Saver)
    requires HistoryOk(db) && ReadsOk(db) && Readable(db, s) && RightFor(Contents(db), u, s, r)
    ensures Answer(r) == ReadAt(db.history, u, s)
  {
    var h := SeqSet(db.history);
    HistoryUnique(db);
    assert SameRead(h, Contents(db), u, s);
    HistoryAnswer(h, Contents(db), db.history, u, s, r);
  }

  /** A read of the store gives v exactly when the history says so. */
  lemma ReadsAreHistory(db: Db, u: UserKey, s: SeqNo, v: Value)
    requires HistoryOk(db) && ReadsOk(db) && Readable(db, s)
    ensures Answers(Contents(db), u, s, Some(v)) <==> ReadAt(db.history, u, s) == Some(v)
  {
    var h, r := SeqSet(db.history), ReadAt(db.history, u, s);
    HistoryUnique(db);
    assert SameRead(h, Contents(db), u, s);
    ReadAtAnswers(db.history, u, s);
    if Answers(Contents(db), u, s, Some(v)) { ReadIsUnique(h, u, s, Some(v), r); }
  }

  lemma HistoryAnswer(h: set<Entry>, es: set<Entry>, history: seq<Entry>, u: UserKey, s: SeqNo, r: Saver)
    requires h == SeqSet(history) && UniqueNumbers(h) && UniqueNumbers(es) && SameRead(h, es, u, s)
    requires forall i, j :: 0 <= i < j < |history| ==> history[i].key.num < history[j].key.num
    requires RightFor(es, u, s, r)
    ensures Answer(r) == ReadAt(history, u, s)
  {
    RightAnswers(es, u, s, r);
    ReadAtAnswers(history, u, s);
    ReadIsUnique(h, u, s, Answer(r), ReadAt(history, u, s));
  }
}
