/** VersionSet::Builder: merging a level's files with the files edits add and delete, and batching a whole
    sequence of edits into one save. */
module VersionBuilder {
  import opened Wrappers
  import opened Keys
  import opened LsmModel
  import opened InputSelection
  import opened CompactionPick

  /** BySmallestKey: smallest key, ties broken by file number. */
  predicate Before(f: FileMeta, g: FileMeta) {
    var r := Compare(f.smallest, g.smallest);
    if r != 0 then r < 0 else f.number < g.number
  }

  ghost predicate InOrder(files: seq<FileMeta>) {
    forall i, k :: 0 <= i < k < |files| ==> !Before(files[k], files[i])
  }

  ghost predicate StrictlyInOrder(files: seq<FileMeta>) {
    forall i, k :: 0 <= i < k < |files| ==> Before(files[i], files[k])
  }

  lemma BeforeIsOrder(f: FileMeta, g: FileMeta, h: FileMeta)
    ensures Before(f, g) ==> !Before(g, f)
    ensures !Before(g, f) && !Before(h, g) ==> !Before(h, f)
  {
  }

  /** What is left of files without the deleted numbers. */
  function Live(files: seq<FileMeta>, deleted: set<nat>): seq<FileMeta> {
    if files == [] then [] else MaybeAdd(Live(files[..|files| - 1], deleted), files[|files| - 1], deleted)
  }

  /** MaybeAddFile. */
  function MaybeAdd(files: seq<FileMeta>, f: FileMeta, deleted: set<nat>): seq<FileMeta> {
    if f.number in deleted then files else files + [f]
  }

  lemma {:induction false} LiveAre(files: seq<FileMeta>, deleted: set<nat>)
    ensures forall f :: f in Live(files, deleted) <==> f in files && f.number !in deleted
  {
    if files != [] {
      LiveAre(files[..|files| - 1], deleted);
      assert forall f :: f in files <==> f in files[..|files| - 1] || f == files[|files| - 1];
    }
  }

  lemma LiveStep(files: seq<FileMeta>, i: nat, deleted: set<nat>)
    requires i < |files|
    ensures Live(files[..i + 1], deleted) == MaybeAdd(Live(files[..i], deleted), files[i], deleted)
  {
    assert files[..i + 1][..i] == files[..i];
  }

  /** No file taken so far comes after the one at index n of `from`. */
  ghost predicate NextFits(from: seq<FileMeta>, n: nat, taken: seq<FileMeta>) {
    n < |from| ==> forall f :: f in taken ==> !Before(from[n], f)
  }

  lemma TakeNext(from: seq<FileMeta>, n: nat, taken: seq<FileMeta>, other: seq<FileMeta>, m: nat, deleted: set<nat>)
    requires n < |from| && (InOrder(from) || StrictlyInOrder(from)) && InOrder(taken)
    requires NextFits(from, n, taken) && NextFits(other, m, taken)
    requires m < |other| ==> !Before(other[m], from[n])
    ensures var taken' := MaybeAdd(taken, from[n], deleted);
            InOrder(taken') && NextFits(from, n + 1, taken') && NextFits(other, m, taken')
  {
    if n + 1 < |from| {
      BeforeIsOrder(from[n], from[n + 1], from[n]);
      forall f | f in taken ensures !Before(from[n + 1], f) {
        BeforeIsOrder(f, from[n], from[n + 1]);
      }
    }
  }

  /** The merge after `pos` base files and `i` added files. */
  ghost predicate Merged(base: seq<FileMeta>, added: seq<FileMeta>, deleted: set<nat>, pos: nat, i: nat,
                         files: seq<FileMeta>) {
    && pos <= |base| && i <= |added|
    && InOrder(files) && NextFits(base, pos, files) && NextFits(added, i, files)
    && multiset(files) == multiset(Live(base[..pos], deleted)) + multiset(Live(added[..i], deleted))
  }

  lemma MergedWithin(base: seq<FileMeta>, added: seq<FileMeta>, deleted: set<nat>, pos: nat, i: nat,
                     files: seq<FileMeta>)
    requires Merged(base, added, deleted, pos, i, files)
    ensures pos <= |base| && i <= |added|
  {
  }

  lemma TakeBase(base: seq<FileMeta>, added: seq<FileMeta>, deleted: set<nat>, pos: nat, i: nat, files: seq<FileMeta>)
    requires InOrder(base) && Merged(base, added, deleted, pos, i, files) && pos < |base|
    requires i < |added| ==> !Before(added[i], base[pos])
    ensures Merged(base, added, deleted, pos + 1, i, MaybeAdd(files, base[pos], deleted))
  {
    TakeNext(base, pos, files, added, i, deleted);
    LiveStep(base, pos, deleted);
  }

  lemma TakeAdded(base: seq<FileMeta>, added: seq<FileMeta>, deleted: set<nat>, pos: nat, i: nat, files: seq<FileMeta>)
    requires StrictlyInOrder(added) && Merged(base, added, deleted, pos, i, files) && i < |added|
    requires pos < |base| ==> Before(added[i], base[pos])
    ensures Merged(base, added, deleted, pos, i + 1, MaybeAdd(files, added[i], deleted))
  {
    if pos < |base| { BeforeIsOrder(added[i], base[pos], added[i]); }
    TakeNext(added, i, files, base, pos, deleted);
    LiveStep(added, i, deleted);
  }

  /** Adds the base files up to the upper bound of `a`. */
  method TakeUpTo(base: seq<FileMeta>, added: seq<FileMeta>, deleted: set<nat>, pos0: nat, i: nat,
                  files0: seq<FileMeta>)
    returns (pos: nat, files: seq<FileMeta>)
    requires InOrder(base) && Merged(base, added, deleted, pos0, i, files0)
    ensures Merged(base, added, deleted, pos, i, files)
    ensures pos < |base| ==> i < |added| && Before(added[i], base[pos])
  {
    hide Merged, MaybeAdd, InOrder;
    pos, files := pos0, files0;
    MergedWithin(base, added, deleted, pos, i, files);
    while pos < |base| && (i == |added| || !Before(added[i], base[pos]))
      invariant Merged(base, added, deleted, pos, i, files) && pos <= |base| && i <= |added|
      decreases |base| - pos
    {
      TakeBase(base, added, deleted, pos, i, files);
      files, pos := MaybeAdd(files, base[pos], deleted), pos + 1;
    }
  }

  /** One level of SaveTo: the surviving base files and the surviving added files, merged in order. */
  method SaveLevel(base: seq<FileMeta>, added: seq<FileMeta>, deleted: set<nat>) returns (files: seq<FileMeta>)
    requires InOrder(base) && StrictlyInOrder(added)
    ensures InOrder(files)
    ensures multiset(files) == multiset(Live(base, deleted)) + multiset(Live(added, deleted))
  {
    files := [];
    var pos := 0;
    for i := 0 to |added|
      invariant Merged(base, added, deleted, pos, i, files)
    {
      pos, files := TakeUpTo(base, added, deleted, pos, i, files);
      TakeAdded(base, added, deleted, pos, i, files);
      files := MaybeAdd(files, added[i], deleted);
    }
    pos, files := TakeUpTo(base, added, deleted, pos, |added|, files);
    assert base[..|base|] == base && added[..|added|] == added;
  }

  // ----- what a sequence of edits leaves in the builder -----

  ghost function NumbersAt(added: set<(nat, FileMeta)>, l: nat): set<nat> {
    set p | p in added && p.0 == l :: p.1.number
  }

  ghost function DeletedAt(deleted: set<(nat, nat)>, l: nat): set<nat> { set p | p in deleted && p.0 == l :: p.1 }

  /** deleted_files after the edits: each edit deletes first, then takes back the numbers it adds. */
  ghost function DeletedAfter(edits: seq<Edit>, l: nat): set<nat> {
    if edits == [] then {}
    else
      var e := edits[|edits| - 1];
      (DeletedAfter(edits[..|edits| - 1], l) + DeletedAt(e.deleted, l)) - NumbersAt(e.added, l)
  }

  /** added_files after the edits. */
  ghost function AddedAfter(edits: seq<Edit>, l: nat): set<FileMeta> {
    if edits == [] then {} else AddedAfter(edits[..|edits| - 1], l) + AddedAt(edits[|edits| - 1].added, l)
  }

  ghost function Alive(files: set<FileMeta>, deleted: set<nat>): set<FileMeta> {
    set f | f in files && f.number !in deleted
  }

  /** The files one builder saves after all the edits, counted: a file both in the base and added again is listed twice.
      */
  ghost function Batched(base: set<FileMeta>, edits: seq<Edit>, l: nat): multiset<FileMeta> {
    multiset(Alive(base, DeletedAfter(edits, l))) + multiset(Alive(AddedAfter(edits, l), DeletedAfter(edits, l)))
  }

  /** The files left by saving after every edit. */
  ghost function OneByOne(base: set<FileMeta>, edits: seq<Edit>, l: nat): set<FileMeta> {
    if edits == [] then base
    else
      var e := edits[|edits| - 1];
      var before := OneByOne(base, edits[..|edits| - 1], l);
      Alive(before, DeletedAt(e.deleted, l) - NumbersAt(e.added, l)) + AddedAt(e.added, l)
  }

  /** A file number names one file. */
  ghost predicate NumbersName(base: set<FileMeta>, edits: seq<Edit>, l: nat) {
    forall f, g :: f in base + AddedAfter(edits, l) && g in base + AddedAfter(edits, l) && f.number == g.number ==>
      f == g
  }

  /** Batching all edits into one builder leaves the same files as saving after each. */
  lemma {:induction false} BatchedFiles(base: set<FileMeta>, edits: seq<Edit>, l: nat)
    requires NumbersName(base, edits, l)
    ensures OneByOne(base, edits, l) == Alive(base + AddedAfter(edits, l), DeletedAfter(edits, l))
  {
    if edits != [] {
      var front, e := edits[..|edits| - 1], edits[|edits| - 1];
      BatchedFiles(base, front, l);
      forall f
        ensures f in OneByOne(base, edits, l) <==> f in Alive(base + AddedAfter(edits, l), DeletedAfter(edits, l))
      {
        if f in base + AddedAfter(front, l) && f.number in NumbersAt(e.added, l) {
          var p :| p in e.added && p.0 == l && p.1.number == f.number;
          assert p.1 in AddedAt(e.added, l);
        }
        if f in AddedAt(e.added, l) {
          var p :| p in e.added && p.0 == l && p.1 == f;
          assert f.number in NumbersAt(e.added, l);
        }
      }
    }
  }

  /** The batched list has no duplicate, and so equals the one-by-one list, exactly when no base file was
      deleted, added back and left alive. */
  lemma BatchingIff(base: set<FileMeta>, edits: seq<Edit>, l: nat)
    requires NumbersName(base, edits, l)
    ensures Batched(base, edits, l) == multiset(OneByOne(base, edits, l))
            <==> base * AddedAfter(edits, l) * OneByOne(base, edits, l) == {}
  {
    BatchedFiles(base, edits, l);
    var d := DeletedAfter(edits, l);
    var kept, again, one := Alive(base, d), Alive(AddedAfter(edits, l), d), OneByOne(base, edits, l);
    assert one == kept + again;
    forall f ensures Batched(base, edits, l)[f] == multiset(one)[f] <==> f !in kept * again {
    }
    if Batched(base, edits, l) == multiset(one) {
      assert forall f :: f !in kept * again;
    } else {
      var f :| Batched(base, edits, l)[f] != multiset(one)[f];
      assert f in base * AddedAfter(edits, l) * one;
    }
  }

  /** A manifest is replayed from the empty version, so replaying it in one builder rebuilds the live version. */
  lemma ReplayInOneBuilder(edits: seq<Edit>, l: nat)
    requires NumbersName({}, edits, l)
    ensures Batched({}, edits, l) == multiset(OneByOne({}, edits, l))
  {
    BatchingIff({}, edits, l);
  }

  /** Edits that never delete and add one number at one level are applied as ApplyEdit says. */
  lemma {:induction false} OneByOneIsReplay(edits: seq<Edit>, l: nat)
    requires l < NUM_LEVELS
    requires forall i :: 0 <= i < |edits| ==> DeletedAt(edits[i].deleted, l) !! NumbersAt(edits[i].added, l)
    ensures OneByOne({}, edits, l) == Replay(edits)[l]
  {
    if edits != [] {
      var front, e := edits[..|edits| - 1], edits[|edits| - 1];
      OneByOneIsReplay(front, l);
      forall n ensures n in DeletedAt(e.deleted, l) <==> (l, n) in e.deleted {
        if (l, n) in e.deleted { assert (l, n).0 == l && (l, n).1 == n; }
      }
      assert DeletedAt(e.deleted, l) - NumbersAt(e.added, l) == DeletedAt(e.deleted, l);
    }
  }

  // ----- the builder object -----

  /** std::set::insert under BySmallestKey. */
  method InsertFile(files: seq<FileMeta>, f: FileMeta) returns (out: seq<FileMeta>)
    requires StrictlyInOrder(files)
    requires forall g :: g in files && !Before(f, g) && !Before(g, f) ==> g == f
    ensures StrictlyInOrder(out) && FileSet(out) == FileSet(files) + {f}
  {
    var i := 0;
    while i < |files| && Before(files[i], f)
      invariant i <= |files| && forall k :: 0 <= k < i ==> Before(files[k], f)
    {
      i := i + 1;
    }
    if i < |files| && !Before(f, files[i]) {
      assert files[i] in files && files[i] == f;
      out := files;
    } else {
      out := files[..i] + [f] + files[i..];
      InsertKeepsOrder(files, f, i);
    }
  }

  lemma InsertKeepsOrder(files: seq<FileMeta>, f: FileMeta, i: nat)
    requires StrictlyInOrder(files) && i <= |files|
    requires forall k :: 0 <= k < i ==> Before(files[k], f)
    requires i < |files| ==> Before(f, files[i])
    ensures StrictlyInOrder(files[..i] + [f] + files[i..])
  {
    forall k | i <= k < |files| ensures Before(f, files[k]) {
      BeforeChain(f, files[i], files[k]);
    }
  }

  lemma BeforeChain(f: FileMeta, g: FileMeta, h: FileMeta)
    ensures Before(f, g) && (Before(g, h) || g == h) ==> Before(f, h)
  {
  }

  /** The first loop of Apply. */
  method DeleteFiles(deleted: seq<set<nat>>, e: Edit) returns (out: seq<set<nat>>)
    requires |deleted| == NUM_LEVELS && EditWithin(e)
    ensures |out| == NUM_LEVELS && forall l :: 0 <= l < NUM_LEVELS ==> out[l] == deleted[l] + DeletedAt(e.deleted, l)
  {
    var rest := e.deleted;
    out := deleted;
    while rest != {}
      invariant rest <= e.deleted && |out| == NUM_LEVELS
      invariant forall l :: 0 <= l < NUM_LEVELS ==> out[l] == deleted[l] + DeletedAt(e.deleted - rest, l)
      decreases rest
    {
      var p :| p in rest;
      DeleteOne(e.deleted, rest, p);
      out := out[p.0 := out[p.0] + {p.1}];
      rest := rest - {p};
    }
    assert e.deleted - rest == e.deleted;
  }

  /** The second loop of Apply: an added file's number is no longer deleted. */
  method AddFiles(deleted: seq<set<nat>>, added: seq<seq<FileMeta>>, e: Edit)
    returns (out: seq<set<nat>>, files: seq<seq<FileMeta>>)
    requires |deleted| == |added| == NUM_LEVELS && EditWithin(e)
    requires forall l :: 0 <= l < NUM_LEVELS ==>
      StrictlyInOrder(added[l]) && NoTies(FileSet(added[l]) + AddedAt(e.added, l))
    ensures |out| == |files| == NUM_LEVELS
    ensures forall l :: 0 <= l < NUM_LEVELS ==> out[l] == deleted[l] - NumbersAt(e.added, l)
    ensures forall l :: 0 <= l < NUM_LEVELS ==>
      StrictlyInOrder(files[l]) && FileSet(files[l]) == FileSet(added[l]) + AddedAt(e.added, l)
  {
    var rest := e.added;
    out, files := deleted, added;
    while rest != {}
      invariant rest <= e.added && |out| == |files| == NUM_LEVELS
      invariant forall l :: 0 <= l < NUM_LEVELS ==> out[l] == deleted[l] - NumbersAt(e.added - rest, l)
      invariant forall l :: 0 <= l < NUM_LEVELS ==> StrictlyInOrder(files[l])
      invariant forall l :: 0 <= l < NUM_LEVELS ==> FileSet(files[l]) == FileSet(added[l]) + AddedAt(e.added - rest, l)
      decreases rest
    {
      hide StrictlyInOrder, NoTies;
      var p :| p in rest;
      AddOne(e.added, rest, p);
      var level := files[p.0];
      assert forall g :: g in level ==> g in FileSet(level);
      assert p.1 in AddedAt(e.added, p.0);
      level := InsertFile(level, p.1);
      out, files := out[p.0 := out[p.0] - {p.1.number}], files[p.0 := level];
      rest := rest - {p};
    }
    assert e.added - rest == e.added;
  }

  class Builder {
    const base: seq<seq<FileMeta>>
    var deleted: seq<set<nat>>
    var added: seq<seq<FileMeta>>
    ghost var edits: seq<Edit> // applied so far

    ghost predicate Valid()
      reads this
    {
      && |base| == |deleted| == |added| == NUM_LEVELS
      && (forall l :: 0 <= l < NUM_LEVELS ==> InOrder(base[l]))
      && (forall l :: 0 <= l < NUM_LEVELS ==> StrictlyInOrder(added[l]))
      && (forall l :: 0 <= l < NUM_LEVELS ==>
           deleted[l] == DeletedAfter(edits, l) && FileSet(added[l]) == AddedAfter(edits, l))
    }

    constructor (base: seq<seq<FileMeta>>)
      requires |base| == NUM_LEVELS && forall l :: 0 <= l < NUM_LEVELS ==> InOrder(base[l])
      ensures Valid() && this.base == base && edits == []
    {
      this.base := base;
      deleted, added := seq(NUM_LEVELS, _ => {}), seq(NUM_LEVELS, _ => []);
      edits := [];
    }

    method Apply(e: Edit)
      requires Valid() && EditWithin(e)
      requires forall l :: 0 <= l < NUM_LEVELS ==> NoTies(AddedAfter(edits, l) + AddedAt(e.added, l))
      modifies this
      ensures Valid() && edits == old(edits) + [e]
    {
      deleted := DeleteFiles(deleted, e);
      deleted, added := AddFiles(deleted, added, e);
      edits := edits + [e];
      assert edits[..|edits| - 1] == old(edits);
    }

    /** Saves every level: the files of Batched, in order. */
    method SaveTo() returns (lists: seq<seq<FileMeta>>)
      requires Valid()
      ensures |lists| == NUM_LEVELS
      ensures forall l :: 0 <= l < NUM_LEVELS ==> InOrder(lists[l])
      ensures forall l, f :: 0 <= l < NUM_LEVELS ==> (f in lists[l] <==>
                f in Alive(FileSet(base[l]) + AddedAfter(edits, l), DeletedAfter(edits, l)))
      ensures forall l :: 0 <= l < NUM_LEVELS ==>
                multiset(lists[l]) == multiset(Live(base[l], deleted[l])) + multiset(Live(added[l], deleted[l]))
    {
      hide Live, InOrder, StrictlyInOrder;
      lists := [];
      for l := 0 to NUM_LEVELS
        invariant |lists| == l
        invariant forall k :: 0 <= k < l ==> InOrder(lists[k])
        invariant forall k :: 0 <= k < l ==>
                    multiset(lists[k]) == multiset(Live(base[k], deleted[k])) + multiset(Live(added[k], deleted[k]))
      {
        var files := SaveLevel(base[l], added[l], deleted[l]);
        lists := lists + [files];
      }
      forall l, f | 0 <= l < NUM_LEVELS
        ensures f in lists[l] <==> f in Alive(FileSet(base[l]) + AddedAfter(edits, l), DeletedAfter(edits, l))
      {
        SavedAre(base[l], added[l], deleted[l], lists[l], f);
      }
    }
  }

  lemma SavedAre(base: seq<FileMeta>, added: seq<FileMeta>, deleted: set<nat>, files: seq<FileMeta>, f: FileMeta)
    requires multiset(files) == multiset(Live(base, deleted)) + multiset(Live(added, deleted))
    ensures f in files <==> f in Alive(FileSet(base) + FileSet(added), deleted)
  {
    LiveAre(base, deleted);
    LiveAre(added, deleted);
    assert f in files <==> f in multiset(files);
  }

  ghost predicate EditWithin(e: Edit) {
    (forall p :: p in e.deleted ==> p.0 < NUM_LEVELS) && (forall p :: p in e.added ==> p.0 < NUM_LEVELS)
  }

  /** Files that the set order cannot tell apart are the same file. */
  ghost predicate NoTies(files: set<FileMeta>) {
    forall f, g :: f in files && g in files && !Before(f, g) && !Before(g, f) ==> f == g
  }

  lemma DeleteOne(all: set<(nat, nat)>, rest: set<(nat, nat)>, p: (nat, nat))
    requires rest <= all && p in rest
    ensures forall l: nat ::
      DeletedAt(all - (rest - {p}), l) == DeletedAt(all - rest, l) + (if l == p.0 then {p.1} else {})
  {
    assert all - (rest - {p}) == (all - rest) + {p};
  }

  lemma AddOne(all: set<(nat, FileMeta)>, rest: set<(nat, FileMeta)>, p: (nat, FileMeta))
    requires rest <= all && p in rest
    ensures forall l: nat ::
      NumbersAt(all - (rest - {p}), l) == NumbersAt(all - rest, l) + (if l == p.0 then {p.1.number} else {})
    ensures forall l: nat :: AddedAt(all - (rest - {p}), l) == AddedAt(all - rest, l) + (if l == p.0 then {p.1} else {})
    ensures forall l: nat :: AddedAt(all - rest, l) <= AddedAt(all, l)
  {
    assert all - (rest - {p}) == (all - rest) + {p};
  }
}
