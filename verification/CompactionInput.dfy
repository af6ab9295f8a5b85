/** The merged input of a compaction: one child per level-0 file, one concatenation per other level. */
module CompactionInput {
  import opened Wrappers
  import opened Keys
  import opened Reads
  import opened Cursors
  import opened LsmModel
  import opened LsmShape
  import opened InputSelection
  import opened CompactionPick
  import opened Merger
  import opened TwoLevel

  function EntriesOf(files: seq<FileMeta>): seq<seq<Entry>> {
    seq(|files|, i requires 0 <= i < |files| => files[i].entries)
  }

  /** The index over a list of files: each file's largest key names the file. */
  function FileIndex(files: seq<FileMeta>): seq<Entry> {
    seq(|files|, i requires 0 <= i < |files| => Entry(files[i].largest, []))
  }

  /** LevelFileNumIterator is an index in the sense TwoLevelIterator needs. */
  lemma FilesIndex(files: seq<FileMeta>)
    requires AllOk(files) && Disjoint(files)
    ensures Indexes(FileIndex(files), EntriesOf(files))
  {
    forall i, k | 0 <= i < k < |files| ensures Less(files[i].largest, files[k].largest) { OkBounds(files[k]); }
    forall i, e | 0 <= i < |files| && e in files[i].entries
      ensures AtMost(e.key, files[i].largest)
    {
      KeyInFile(files[i], e);
    }
    forall i, k, e | 0 <= i < k < |files| && e in files[k].entries
      ensures Less(files[i].largest, e.key)
    {
      KeyInFile(files[k], e);
    }
  }

  lemma {:induction false} ConcatSorted(files: seq<FileMeta>)
    requires AllOk(files) && Disjoint(files)
    ensures Sorted(Flatten(EntriesOf(files)))
    ensures forall e :: e in Flatten(EntriesOf(files)) <==> e in UnionEntries(FileSet(files))
    decreases |files|
  {
    if files != [] {
      var front, last := files[..|files| - 1], files[|files| - 1];
      ConcatSorted(front);
      assert EntriesOf(files)[..|files| - 1] == EntriesOf(front);
      assert FileSet(files) == FileSet(front) + {last};
      AppendSorted(front, last);
    }
  }

  lemma AppendSorted(front: seq<FileMeta>, last: FileMeta)
    requires AllOk(front) && last.Ok() && Disjoint(front + [last])
    requires Sorted(Flatten(EntriesOf(front)))
    requires forall e :: e in Flatten(EntriesOf(front)) <==> e in UnionEntries(FileSet(front))
    ensures Sorted(Flatten(EntriesOf(front)) + last.entries)
  {
    var flat := Flatten(EntriesOf(front));
    forall e, x | e in flat && x in last.entries ensures Less(e.key, x.key) {
      var f :| f in FileSet(front) && e in f.entries;
      KeyInFile(f, e);
      KeyInFile(last, x);
      var i :| 0 <= i < |front| && front[i] == f;
      assert (front + [last])[i] == f && (front + [last])[|front|] == last;
    }
    assert forall i :: 0 <= i < |flat| ==> flat[i] in flat;
    assert forall i :: 0 <= i < |last.entries| ==> last.entries[i] in last.entries;
  }

  /** No entry is in two of the files that are read side by side. */
  ghost predicate Apart(level: nat, in0: seq<FileMeta>, in1: seq<FileMeta>) {
    && (level == 0 ==> forall i, k, e :: 0 <= i < k < |in0| && e in in0[i].entries ==> e !in in0[k].entries)
    && (forall f, g, e :: f in in0 && g in in1 && e in f.entries ==> e !in g.entries)
  }

  /** The run of a level above 0: what a two-level iterator over its files yields, first to last. */
  method ConcatenatedRun(files: seq<FileMeta>) returns (run: seq<Entry>)
    requires AllOk(files) && Disjoint(files)
    ensures run == Flatten(EntriesOf(files)) && Sorted(run)
    ensures forall e :: e in run <==> e in UnionEntries(FileSet(files))
  {
    hide TwoLevelIterator.Ok, Indexes, Flatten, UnionEntries, Sorted, EntriesOf, FileIndex;
    FilesIndex(files);
    ConcatSorted(files);
    var iter := new TwoLevelIterator(FileIndex(files), EntriesOf(files));
    run := WalkForward(iter);
  }

  method WalkForward(iter: TwoLevelIterator) returns (run: seq<Entry>)
    requires iter.Ok()
    modifies iter
    ensures run == iter.All()
  {
    hide TwoLevelIterator.Ok, TwoLevelIterator.Wired, Indexes, Flatten;
    run := [];
    iter.IsWired();
    iter.SeekToFirst();
    iter.IsWired();
    while iter.Valid()
      invariant iter.Ok() && iter.Wired() && iter.Abs().run == iter.All() && iter.Abs().pos <= |iter.All()|
      invariant run == iter.All()[..iter.Abs().pos]
      decreases |iter.All()| - iter.Abs().pos
    {
      run := run + [iter.Here()];
      iter.Next();
      iter.IsWired();
    }
  }

  method MakeInputIterator(level: nat, in0: seq<FileMeta>, in1: seq<FileMeta>) returns (runs: seq<seq<Entry>>)
    requires AllOk(in0) && AllOk(in1) && Disjoint(in1) && (level > 0 ==> Disjoint(in0)) && Apart(level, in0, in1)
    ensures forall i :: 0 <= i < |runs| ==> Sorted(runs[i])
    ensures forall i, k, e :: 0 <= i < k < |runs| && e in runs[i] ==> e !in runs[k]
    ensures forall e ::
      (exists i :: 0 <= i < |runs| && e in runs[i]) <==> e in UnionEntries(FileSet(in0) + FileSet(in1))
  {
    runs := [];
    if level == 0 {
      for i := 0 to |in0|
        invariant runs == EntriesOf(in0)[..i]
      {
        runs := runs + [in0[i].entries];
      }
      assert runs == EntriesOf(in0);
      assert forall i :: 0 <= i < |in0| ==> in0[i].Ok();
      EachFile(in0);
    } else if in0 != [] {
      var run := ConcatenatedRun(in0);
      runs := [run];
      OneRun(in0, run);
    } else {
      assert UnionEntries(FileSet(in0)) == {};
    }
    ghost var first := runs;
    ConcatSorted(in1);
    if in1 != [] {
      var run := ConcatenatedRun(in1);
      runs := runs + [run];
    }
    BothLevels(in0, in1, first, runs);
  }

  lemma OneRun(files: seq<FileMeta>, run: seq<Entry>)
    requires forall e :: e in run <==> e in UnionEntries(FileSet(files))
    ensures forall e :: (exists i :: 0 <= i < |[run]| && e in [run][i]) <==> e in UnionEntries(FileSet(files))
  {
    forall e | e in run ensures exists i :: 0 <= i < |[run]| && e in [run][i] { assert e in [run][0]; }
  }

  lemma EachFile(files: seq<FileMeta>)
    ensures forall e ::
      (exists i :: 0 <= i < |files| && e in EntriesOf(files)[i]) <==> e in UnionEntries(FileSet(files))
  {
    forall e | e in UnionEntries(FileSet(files)) ensures exists i :: 0 <= i < |files| && e in EntriesOf(files)[i] {
      var f :| f in FileSet(files) && e in f.entries;
      var i :| 0 <= i < |files| && files[i] == f;
      assert e in EntriesOf(files)[i];
    }
  }

  lemma BothLevels(in0: seq<FileMeta>, in1: seq<FileMeta>, first: seq<seq<Entry>>, runs: seq<seq<Entry>>)
    requires forall e :: (exists i :: 0 <= i < |first| && e in first[i]) <==> e in UnionEntries(FileSet(in0))
    requires forall e :: e in Flatten(EntriesOf(in1)) <==> e in UnionEntries(FileSet(in1))
    requires runs == first + if in1 == [] then [] else [Flatten(EntriesOf(in1))]
    requires forall i, k, e :: 0 <= i < k < |first| && e in first[i] ==> e !in first[k]
    requires forall f, g, e :: f in in0 && g in in1 && e in f.entries ==> e !in g.entries
    ensures forall i, k, e :: 0 <= i < k < |runs| && e in runs[i] ==> e !in runs[k]
    ensures forall e ::
      (exists i :: 0 <= i < |runs| && e in runs[i]) <==> e in UnionEntries(FileSet(in0) + FileSet(in1))
  {
    assert UnionEntries(FileSet(in0) + FileSet(in1)) == UnionEntries(FileSet(in0)) + UnionEntries(FileSet(in1));
    assert in1 == [] ==> UnionEntries(FileSet(in1)) == {};
    assert forall e :: e in UnionEntries(FileSet(in0)) ==> e !in UnionEntries(FileSet(in1));
    forall e
      ensures (exists i :: 0 <= i < |runs| && e in runs[i]) <==>
        e in UnionEntries(FileSet(in0)) + UnionEntries(FileSet(in1))
    {
      if i :| 0 <= i < |first| && e in first[i] { assert e in runs[i]; }
      if e in UnionEntries(FileSet(in1)) { assert e in runs[|first|]; }
      if i :| 0 <= i < |runs| && e in runs[i] { assert i < |first| ==> e in first[i]; }
    }
    forall i, k, e | 0 <= i < k < |runs| && e in runs[i] ensures e !in runs[k] {
      assert e in first[i];
      if k == |first| { assert e in UnionEntries(FileSet(in0)); }
    }
  }

  /** Sorted runs with no key in two of them. */
  ghost predicate Mergeable(runs: seq<seq<Entry>>) {
    && (forall i :: 0 <= i < |runs| ==> Sorted(runs[i]))
    && forall i, k, e, x | 0 <= i < k < |runs| && e in runs[i] && x in runs[k] :: Compare(e.key, x.key) != 0
  }

  /** Some sorted run holds exactly the children's entries. */
  lemma {:induction false} MergedExists(runs: seq<seq<Entry>>) returns (merged: seq<Entry>)
    requires Mergeable(runs)
    ensures MergeOf(merged, runs)
    decreases |runs|
  {
    if runs == [] {
      merged := [];
    } else {
      var n := |runs| - 1;
      var smaller := MergedExists(runs[..n]);
      forall e, x | e in smaller && x in runs[n] ensures Compare(e.key, x.key) != 0 {
        var i :| 0 <= i < |runs[..n]| && e in runs[..n][i];
        assert e in runs[i];
      }
      merged := InsertAll(smaller, runs[n]);
      MergedWithLast(runs, smaller, merged);
    }
  }

  lemma {:induction false} InsertAll(base: seq<Entry>, run: seq<Entry>) returns (out: seq<Entry>)
    requires Sorted(base) && Sorted(run)
    requires forall e, x | e in base && x in run :: Compare(e.key, x.key) != 0
    ensures Sorted(out) && forall x :: x in out <==> x in base || x in run
    decreases |run|
  {
    if run == [] {
      out := base;
    } else {
      var front, e := run[..|run| - 1], run[|run| - 1];
      assert run == front + [e];
      var most := InsertAll(base, front);
      forall x | x in most ensures Compare(x.key, e.key) != 0 {
        if x in front {
          var k :| 0 <= k < |front| && run[k] == x;
        }
      }
      SeekIsSlot(most, e);
      var i := SeekFrom(most, e.key, 0);
      InsertedSorted(most, e, i);
      out := most[..i] + [e] + most[i..];
    }
  }

  lemma MergedWithLast(runs: seq<seq<Entry>>, smaller: seq<Entry>, merged: seq<Entry>)
    requires runs != [] && Mergeable(runs) && MergeOf(smaller, runs[..|runs| - 1]) && Sorted(merged)
    requires forall x :: x in merged <==> x in smaller || x in runs[|runs| - 1]
    ensures MergeOf(merged, runs)
  {
    var n := |runs| - 1;
    forall x | x in merged ensures exists i :: 0 <= i < |runs| && x in runs[i] {
      if x in smaller {
        var i :| 0 <= i < |runs[..n]| && x in runs[..n][i];
        assert x in runs[i];
      }
    }
    forall i, x | 0 <= i < |runs| && x in runs[i] ensures x in merged {
      if i < n { assert x in runs[..n][i]; }
    }
    forall i, k, e | 0 <= i < k < |runs| && e in runs[i] ensures e !in runs[k] {
      assert Compare(e.key, e.key) == 0;
    }
  }

  /** Reading the merging iterator from first to last yields the sorted union. */
  method ReadAll(input: MergingIterator) returns (out: seq<Entry>)
    requires input.Ok()
    modifies input, input.children
    ensures out == input.merged
  {
    hide MergingIterator.Ok;
    out := [];
    input.SeekToFirst();
    while input.Valid()
      invariant input.Ok() && input.at <= |input.merged| && out == input.merged[..input.at]
      decreases |input.merged| - input.at
    {
      out := out + [input.Here()];
      input.Next();
    }
  }
}
