/** NewInternalIterator: the runs a store-wide iterator merges, and that they hold the whole store once. */
module IteratorStack {
  import opened Wrappers
  import opened Keys
  import opened Reads
  import opened Cursors
  import opened LsmModel
  import opened LsmReads
  import opened InputSelection
  import opened CompactionPick
  import opened CompactionInput
  import opened Merger
  import opened VersionBuilder
  import opened Lookup
  import opened StoreFacts

  ghost predicate InSome(runs: seq<seq<Entry>>, e: Entry) { exists i :: 0 <= i < |runs| && e in runs[i] }

  /** Sorted runs, no entry in two of them, holding exactly es. */
  ghost predicate RunsOf(runs: seq<seq<Entry>>, es: set<Entry>) {
    && (forall i :: 0 <= i < |runs| ==> Sorted(runs[i]))
    && (forall i, k, e :: 0 <= i < k < |runs| && e in runs[i] ==> e !in runs[k])
    && (forall e :: InSome(runs, e) <==> e in es)
  }

  lemma RunsJoin(runs: seq<seq<Entry>>, es: set<Entry>, more: seq<seq<Entry>>, fs: set<Entry>)
    requires RunsOf(runs, es) && RunsOf(more, fs) && es !! fs
    ensures RunsOf(runs + more, es + fs)
  {
    forall e ensures InSome(runs + more, e) <==> e in es + fs {
      if InSome(runs, e) {
        var i :| 0 <= i < |runs| && e in runs[i];
        assert e in (runs + more)[i];
      }
      if InSome(more, e) {
        var i :| 0 <= i < |more| && e in more[i];
        assert e in (runs + more)[|runs| + i];
      }
      if i :| 0 <= i < |runs + more| && e in (runs + more)[i] {
        assert if i < |runs| then e in runs[i] else e in more[i - |runs|];
      }
    }
    forall i, k, e | 0 <= i < k < |runs + more| && e in (runs + more)[i] ensures e !in (runs + more)[k] {
      if i < |runs| <= k {
        assert InSome(runs, e);
        assert e in more[k - |runs|] ==> InSome(more, e);
      }
    }
  }

  lemma OneRunOf(run: seq<Entry>)
    requires Sorted(run)
    ensures RunsOf([run], SeqSet(run))
  {
    forall e | e in run ensures InSome([run], e) { assert e in [run][0]; }
  }

  /** No entry is in two level-0 files, or at two levels. */
  ghost predicate TablesApart(lists: seq<seq<FileMeta>>)
    requires |lists| == NUM_LEVELS
  {
    && (forall i, k, e :: 0 <= i < k < |lists[0]| && e in lists[0][i].entries ==> e !in lists[0][k].entries)
    && (forall l: nat :: l < NUM_LEVELS ==> UpTo(lists, l) !! UnionEntries(FileSet(lists[l])))
  }

  method AddIterators(lists: seq<seq<FileMeta>>) returns (runs: seq<seq<Entry>>)
    requires ListsOk(lists) && TablesApart(lists)
    ensures RunsOf(runs, UpTo(lists, NUM_LEVELS))
  {
    hide RunsOf, TablesApart;
    runs := [];
    for i := 0 to |lists[0]|
      invariant runs == EntriesOf(lists[0])[..i]
    {
      runs := runs + [lists[0][i].entries];
    }
    assert runs == EntriesOf(lists[0]);
    Level0Runs(lists, runs);
    for level := 1 to NUM_LEVELS
      invariant RunsOf(runs, UpTo(lists, level))
    {
      LevelRun(lists, level, runs);
      if lists[level] != [] {
        var run := ConcatenatedRun(lists[level]);
        runs := runs + [run];
      }
    }
  }

  /** A level above 0 adds one run, the concatenation of its files. */
  lemma LevelRun(lists: seq<seq<FileMeta>>, level: nat, runs: seq<seq<Entry>>)
    requires ListsOk(lists) && TablesApart(lists) && 1 <= level < NUM_LEVELS && RunsOf(runs, UpTo(lists, level))
    ensures RunsOf(if lists[level] != [] then runs + [Flatten(EntriesOf(lists[level]))] else runs,
                   UpTo(lists, level + 1))
  {
    hide RunsOf;
    LevelSplit(lists, level);
    ConcatSorted(lists[level]);
    if lists[level] != [] {
      var run := Flatten(EntriesOf(lists[level]));
      OneRunOf(run);
      assert SeqSet(run) == UnionEntries(FileSet(lists[level]));
      RunsJoin(runs, UpTo(lists, level), [run], SeqSet(run));
    } else {
      assert UnionEntries(FileSet(lists[level])) == {};
      assert UpTo(lists, level + 1) == UpTo(lists, level);
    }
  }

  lemma Level0Runs(lists: seq<seq<FileMeta>>, runs: seq<seq<Entry>>)
    requires ListsOk(lists) && TablesApart(lists) && runs == EntriesOf(lists[0])
    ensures RunsOf(runs, UpTo(lists, 1))
  {
    var files := lists[0];
    EachFile(files);
    LevelSplit(lists, 0);
    assert UpTo(lists, 0) == {};
    forall i | 0 <= i < |runs| ensures Sorted(runs[i]) { assert files[i].Ok(); }
    assert UpTo(lists, 1) == UnionEntries(FileSet(files));
    forall e ensures InSome(runs, e) <==> e in UpTo(lists, 1) {
      assert InSome(runs, e) <==> exists i :: 0 <= i < |files| && e in EntriesOf(files)[i];
    }
    forall i, k, e | 0 <= i < k < |runs| && e in runs[i] ensures e !in runs[k] { assert e in files[i].entries; }
  }

  lemma StoreTablesApart(db: Db, lists: seq<seq<FileMeta>>)
    requires db.levels == LevelsOf(lists) && Listed(lists) && LevelsOk(db.levels) && Layered(db)
    ensures TablesApart(lists)
  {
    forall l: nat | l < NUM_LEVELS { LevelIs(lists, l); }
    StrictOnce(lists[0]);
    forall i, k, e | 0 <= i < k < |lists[0]| && e in lists[0][i].entries ensures e !in lists[0][k].entries {
      if e in lists[0][k].entries {
        OnePlace(db, InTable(0, lists[0][i]), InTable(0, lists[0][k]), e);
      }
    }
    forall l: nat | l < NUM_LEVELS ensures UpTo(lists, l) !! UnionEntries(FileSet(lists[l])) {
      forall e | e in UpTo(lists, l) ensures e !in UnionEntries(FileSet(lists[l])) {
        if e in UnionEntries(FileSet(lists[l])) {
          var k, f :| 0 <= k < l && f in lists[k] && e in f.entries;
          var g :| g in FileSet(lists[l]) && e in g.entries;
          OnePlace(db, InTable(k, f), InTable(l, g), e);
        }
      }
    }
  }

  /** The memtables and the tables share no entry. */
  lemma PlacesApart(db: Db)
    requires LevelsOk(db.levels) && Layered(db)
    ensures db.mem !! ImmSet(db.imm) && (db.mem + ImmSet(db.imm)) !! FileEntries(db.levels)
  {
    forall e | e in db.mem && e in ImmSet(db.imm) ensures false { OnePlace(db, InMem, InImm, e); }
    forall e | e in db.mem + ImmSet(db.imm) && e in FileEntries(db.levels) ensures false {
      var l, f :| 0 <= l < |db.levels| && f in db.levels[l] && e in f.entries;
      OnePlace(db, if e in db.mem then InMem else InImm, InTable(l, f), e);
    }
  }

  /** Merging the runs of the whole store gives the store's entries in key order. */
  lemma StoreMerges(db: Db, runs: seq<seq<Entry>>) returns (merged: seq<Entry>)
    requires UniqueNumbers(Contents(db)) && RunsOf(runs, Contents(db))
    ensures MergeOf(merged, runs) && SeqSet(merged) == Contents(db)
  {
    forall i, e | 0 <= i < |runs| && e in runs[i] ensures e in Contents(db) { assert InSome(runs, e); }
    RunsMergeable(db, runs);
    merged := MergedExists(runs);
    forall e | e in Contents(db) ensures e in merged { assert InSome(runs, e); }
    forall e | e in merged ensures e in Contents(db) { assert InSome(runs, e); }
  }
}
