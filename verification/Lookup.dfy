/** Point lookups: one run, one version, and the order in which a lookup consults them. */
module Lookup {
  import opened Wrappers
  import opened Keys
  import opened Cursors
  import opened Reads
  import opened LsmModel
  import opened LsmShape
  import opened LsmReads
  import opened InputSelection
  import opened CompactionPick

  /** SaverState: what one run says about a user key. */
  datatype Saver = NotFound | Deleted | Found(value: Value)

  // ----- one run -----

  /** MemTable::Get and TableCache::Get: seek, then compare the user key. */
  function RunGet(run: seq<Entry>, u: UserKey, s: SeqNo): Saver {
    var i := SeekFrom(run, LookupKey(u, s), 0);
    if i < |run| && run[i].key.user == u then
      if run[i].key.kind == Put then Found(run[i].value) else Deleted
    else NotFound
  }

  /** A saver's answer for (u, s) is right about es. */
  ghost predicate RightFor(es: set<Entry>, u: UserKey, s: nat, r: Saver) {
    match r
    case Found(v) => exists e :: IsNewest(es, u, s, e) && e.key.kind == Put && e.value == v
    case Deleted => exists e :: IsNewest(es, u, s, e) && e.key.kind == Deletion
    case NotFound => forall e :: e in es && e.key.user == u ==> e.key.num > s
  }

  lemma RunGetIsRight(run: seq<Entry>, u: UserKey, s: SeqNo)
    requires Sorted(run)
    ensures RightFor(SeqSet(run), u, s, RunGet(run, u, s))
  {
    var key := LookupKey(u, s);
    var i := SeekFrom(run, key, 0);
    forall k | 0 <= k < |run| && run[k].key.user == u && run[k].key.num <= s
      ensures i <= k && run[i].key.user == u && run[k].key.num <= run[i].key.num
    {
      assert !Less(run[k].key, key);
      assert k > i ==> Less(run[i].key, run[k].key);
    }
    if i < |run| && run[i].key.user == u {
      assert run[i] in SeqSet(run);
      assert IsNewest(SeqSet(run), u, s, run[i]);
    }
  }

  // ----- places, newest first -----

  /** Nothing in `upper` is a visible entry of u, and lower entries of u are older than upper ones. */
  lemma RightBelow(upper: set<Entry>, lower: set<Entry>, u: UserKey, s: nat, r: Saver)
    requires RightFor(upper, u, s, NotFound) && RightFor(lower, u, s, r)
    ensures RightFor(upper + lower, u, s, r)
  {
    forall e | IsNewest(lower, u, s, e) ensures IsNewest(upper + lower, u, s, e) { }
  }

  /** A right answer, as a reader sees it. */
  function Answer(r: Saver): Option<Value> { if r.Found? then Some(r.value) else None }

  lemma RightAnswers(es: set<Entry>, u: UserKey, s: nat, r: Saver)
    requires UniqueNumbers(es) && RightFor(es, u, s, r)
    ensures Answers(es, u, s, Answer(r))
  {
  }

  // ----- one level -----

  /** A part that holds, for each visible entry of u, one at least as new, answers for the whole. */
  lemma PartAnswers(es: set<Entry>, part: set<Entry>, u: UserKey, s: nat, r: Saver)
    requires part <= es && RightFor(part, u, s, r)
    requires forall e :: e in es && e.key.user == u && e.key.num <= s
               ==> exists y :: y in part && y.key.user == u && e.key.num <= y.key.num <= s
    ensures RightFor(es, u, s, r)
  {
    forall e | IsNewest(part, u, s, e) ensures IsNewest(es, u, s, e) { }
  }

  /** In a disjoint level the file FindFile names answers for the level. */
  lemma LevelRight(files: seq<FileMeta>, u: UserKey, s: SeqNo, index: nat)
    requires AllOk(files) && Disjoint(files) && index <= |files|
    requires forall i :: 0 <= i < index ==> Less(files[i].largest, LookupKey(u, s))
    requires forall i :: index <= i < |files| ==> !Less(files[i].largest, LookupKey(u, s))
    ensures RightFor(UnionEntries(FileSet(files)), u, s,
                     if index == |files| || u < files[index].smallest.user then NotFound
                     else RunGet(files[index].entries, u, s))
  {
    var es := UnionEntries(FileSet(files));
    forall e | e in es && e.key.user == u && e.key.num <= s
      ensures index < |files| && files[index].smallest.user <= u
      ensures exists y :: y in SeqSet(files[index].entries) && y.key.user == u && e.key.num <= y.key.num <= s
    {
      var f :| f in FileSet(files) && e in f.entries;
      var k :| 0 <= k < |files| && files[k] == f;
      var y := FirstFileHas(files, u, s, index, k, e);
    }
    if index < |files| && files[index].smallest.user <= u {
      var f := files[index];
      assert f in FileSet(files) && f.Ok();
      RunGetIsRight(f.entries, u, s);
      assert SeqSet(f.entries) <= es;
      PartAnswers(es, SeqSet(f.entries), u, s, RunGet(f.entries, u, s));
    }
  }

  /** An entry visible in a later file has a newer visible one in the file FindFile names. */
  lemma FirstFileHas(files: seq<FileMeta>, u: UserKey, s: SeqNo, index: nat, k: nat, e: Entry) returns (y: Entry)
    requires AllOk(files) && Disjoint(files) && index <= |files| && k < |files| && e in files[k].entries
    requires forall i :: 0 <= i < index ==> Less(files[i].largest, LookupKey(u, s))
    requires forall i :: index <= i < |files| ==> !Less(files[i].largest, LookupKey(u, s))
    requires e.key.user == u && e.key.num <= s
    ensures index < |files| && files[index].smallest.user <= u
    ensures y in SeqSet(files[index].entries) && y.key.user == u && e.key.num <= y.key.num <= s
  {
    KeyInFile(files[k], e);
    OkBounds(files[k]);
    assert k >= index;
    if k > index {
      OkBounds(files[index]);
      y := files[index].entries[|files[index].entries| - 1];
    } else {
      y := e;
    }
  }

  // ----- Version::Get -----

  /** std::sort by NewestFirst. */
  method SortNewestFirst(files: seq<FileMeta>) returns (out: seq<FileMeta>)
    ensures FileSet(out) == FileSet(files)
    ensures NewestFirst(out)
  {
    out := [];
    for i := 0 to |files|
      invariant FileSet(out) == FileSet(files[..i])
      invariant NewestFirst(out)
    {
      assert files[..i + 1] == files[..i] + [files[i]];
      out := InsertByNumber(out, files[i]);
    }
    assert files[..|files|] == files;
  }

  ghost predicate NewestFirst(files: seq<FileMeta>) {
    forall i, k :: 0 <= i < k < |files| ==> files[i].number >= files[k].number
  }

  method InsertByNumber(files: seq<FileMeta>, f: FileMeta) returns (out: seq<FileMeta>)
    requires NewestFirst(files)
    ensures NewestFirst(out) && FileSet(out) == FileSet(files) + {f}
  {
    var k := 0;
    while k < |files| && files[k].number >= f.number
      invariant k <= |files| && forall a :: 0 <= a < k ==> files[a].number >= f.number
    {
      k := k + 1;
    }
    out := files[..k] + [f] + files[k..];
    InsertedNewestFirst(files, f, k);
  }

  lemma InsertedNewestFirst(files: seq<FileMeta>, f: FileMeta, k: nat)
    requires NewestFirst(files) && k <= |files|
    requires (forall a :: 0 <= a < k ==> files[a].number >= f.number) && (k < |files| ==> files[k].number < f.number)
    ensures var out := files[..k] + [f] + files[k..]; NewestFirst(out) && FileSet(out) == FileSet(files) + {f}
  {
    var out := files[..k] + [f] + files[k..];
    assert out[k] == f && files == files[..k] + files[k..];
    forall a, b | 0 <= a < b < |out| ensures out[a].number >= out[b].number {
      assert b > k ==> out[b] == files[b - 1] && files[k].number >= out[b].number;
    }
  }

  /** Level-0 files with larger numbers hold newer entries. */
  ghost predicate Level0Layered(files: seq<FileMeta>) {
    forall f, g :: f in files && g in files && f.number >= g.number ==> f == g || NewerThan(f, g)
  }

  /** Upper levels hold newer entries. */
  ghost predicate TablesLayered(lists: seq<seq<FileMeta>>)
    requires |lists| == NUM_LEVELS
  {
    && Level0Layered(lists[0])
    && forall l, k, f, g | 0 <= l < NUM_LEVELS && 0 <= k < NUM_LEVELS && f in lists[l] && g in lists[k]
         :: l < k ==> NewerThan(f, g)
  }

  /** Entries of the files from position i on. */
  ghost function Rest(files: seq<FileMeta>, i: nat): set<Entry>
    requires i <= |files|
  {
    UnionEntries(FileSet(files[i..]))
  }

  /** The level-0 files whose range contains u, newest first. */
  method SpanningNewestFirst(files: seq<FileMeta>, u: UserKey) returns (sorted: seq<FileMeta>)
    ensures forall f :: f in sorted <==> f in files && f.Spans(u)
    ensures forall a, b :: 0 <= a < b < |sorted| ==> sorted[a].number >= sorted[b].number
  {
    var tmp := [];
    for i := 0 to |files|
      invariant forall f :: f in tmp <==> f in files[..i] && f.Spans(u)
    {
      assert files[..i + 1] == files[..i] + [files[i]];
      if u >= files[i].smallest.user && u <= files[i].largest.user {
        tmp := tmp + [files[i]];
      }
    }
    assert files[..|files|] == files;
    sorted := SortNewestFirst(tmp);
    assert forall f :: (f in sorted <==> f in FileSet(sorted)) && (f in tmp <==> f in FileSet(tmp));
  }

  /** The level-0 half of ForEachOverlapping, as Get uses it. */
  method Level0Get(files: seq<FileMeta>, u: UserKey, s: SeqNo) returns (r: Saver)
    requires AllOk(files) && Level0Layered(files)
    ensures RightFor(UnionEntries(FileSet(files)), u, s, r)
  {
    var sorted := SpanningNewestFirst(files, u);
    OnlySpanning(files, sorted, u);
    ghost var seen: set<Entry> := {};
    for i := 0 to |sorted|
      invariant RightFor(seen, u, s, NotFound) && seen + Rest(sorted, i) == Rest(sorted, 0)
    {
      var f := sorted[i];
      assert f in sorted && f.Ok();
      RestStep(sorted, i);
      r := RunGet(f.entries, u, s);
      RunGetIsRight(f.entries, u, s);
      RightBelow(seen, SeqSet(f.entries), u, s, r);
      if r != NotFound {
        Level0Above(sorted, i);
        RightBelowAll(seen, SeqSet(f.entries), Rest(sorted, i + 1), u, s, r);
        assert seen + SeqSet(f.entries) + Rest(sorted, i + 1) == Rest(sorted, 0);
        SpanningAnswers(files, sorted, u, s, r);
        return;
      }
      seen := seen + SeqSet(f.entries);
    }
    assert Rest(sorted, |sorted|) == {};
    SpanningAnswers(files, sorted, u, s, NotFound);
    r := NotFound;
  }

  lemma RestStep(files: seq<FileMeta>, i: nat)
    requires i < |files|
    ensures Rest(files, i) == SeqSet(files[i].entries) + Rest(files, i + 1)
  {
    assert files[i..] == [files[i]] + files[i + 1..];
  }

  lemma Level0Above(sorted: seq<FileMeta>, i: nat)
    requires i < |sorted| && Level0Layered(sorted)
    requires forall a, b :: 0 <= a < b < |sorted| ==> sorted[a].number >= sorted[b].number
    ensures forall e, x ::
      e in sorted[i].entries && x in Rest(sorted, i + 1) && x !in sorted[i].entries && e.key.user == x.key.user
      ==> e.key.num > x.key.num
  {
    forall e, x
      | e in sorted[i].entries && x in Rest(sorted, i + 1) && x !in sorted[i].entries && e.key.user == x.key.user
      ensures e.key.num > x.key.num
    {
      var g :| g in FileSet(sorted[i + 1..]) && x in g.entries;
      var k :| i + 1 <= k < |sorted| && sorted[k] == g;
      assert NewerThan(sorted[i], g);
    }
  }

  /** A hit in the middle: nothing above is visible, everything below is older. */
  lemma RightBelowAll(seen: set<Entry>, part: set<Entry>, rest: set<Entry>, u: UserKey, s: nat, r: Saver)
    requires RightFor(seen, u, s, NotFound) && RightFor(part, u, s, r) && r != NotFound
    requires forall e, x :: e in part && x in rest && x !in part && e.key.user == x.key.user ==> e.key.num > x.key.num
    ensures RightFor(seen + part + rest, u, s, r)
  {
    forall e | IsNewest(part, u, s, e) ensures IsNewest(seen + part + rest, u, s, e) { }
  }

  lemma OnlySpanning(files: seq<FileMeta>, sorted: seq<FileMeta>, u: UserKey)
    requires AllOk(files) && Level0Layered(files) && forall f :: f in sorted <==> f in files && f.Spans(u)
    ensures Level0Layered(sorted) && AllOk(sorted)
  {
  }

  /** Files that do not span u say nothing about it. */
  lemma SpanningAnswers(files: seq<FileMeta>, sorted: seq<FileMeta>, u: UserKey, s: nat, r: Saver)
    requires AllOk(files) && (forall f :: f in sorted <==> f in files && f.Spans(u))
      && RightFor(Rest(sorted, 0), u, s, r)
    ensures RightFor(UnionEntries(FileSet(files)), u, s, r)
  {
    var es := UnionEntries(FileSet(files));
    assert sorted[0..] == sorted;
    forall e | e in es && e.key.user == u ensures e in Rest(sorted, 0) {
      var f :| f in FileSet(files) && e in f.entries;
      EntryInFile(f, e);
      assert f in FileSet(sorted);
    }
    PartAnswers(es, Rest(sorted, 0), u, s, r);
  }

  ghost function UpTo(lists: seq<seq<FileMeta>>, l: nat): set<Entry>
    requires l <= |lists|
  {
    set k, f, e | 0 <= k < l && f in lists[k] && e in f.entries :: e
  }

  ghost function From(lists: seq<seq<FileMeta>>, l: nat): set<Entry> {
    set k, f, e | l <= k < |lists| && f in lists[k] && e in f.entries :: e
  }

  lemma LevelSplit(lists: seq<seq<FileMeta>>, l: nat)
    requires l < |lists|
    ensures UpTo(lists, l + 1) == UpTo(lists, l) + UnionEntries(FileSet(lists[l]))
    ensures UpTo(lists, l) + UnionEntries(FileSet(lists[l])) + From(lists, l + 1) == UpTo(lists, |lists|)
  {
  }

  /** Version::Get: level 0 newest first, then one file per deeper level; the first hit answers. */
  method VersionGet(lists: seq<seq<FileMeta>>, u: UserKey, s: SeqNo) returns (r: Saver)
    requires ListsOk(lists) && TablesLayered(lists)
    ensures RightFor(UpTo(lists, NUM_LEVELS), u, s, r)
  {
    r := Level0Get(lists[0], u, s);
    LevelSplit(lists, 0);
    LevelsAbove(lists, 0);
    assert UpTo(lists, 0) == {};
    if r != NotFound {
      RightBelowAll({}, UnionEntries(FileSet(lists[0])), From(lists, 1), u, s, r);
      return;
    }
    assert UpTo(lists, 1) == UnionEntries(FileSet(lists[0]));
    for level := 1 to NUM_LEVELS
      invariant RightFor(UpTo(lists, level), u, s, NotFound)
    {
      var files := lists[level];
      LevelSplit(lists, level);
      LevelsAbove(lists, level);
      var index := FindFile(files, LookupKey(u, s));
      LevelRight(files, u, s, index);
      r := NotFound;
      if index < |files| {
        if !(u < files[index].smallest.user) {
          r := RunGet(files[index].entries, u, s);
          if r != NotFound {
            RightBelowAll(UpTo(lists, level), UnionEntries(FileSet(files)), From(lists, level + 1), u, s, r);
            return;
          }
        }
      }
      RightBelow(UpTo(lists, level), UnionEntries(FileSet(files)), u, s, NotFound);
    }
    r := NotFound;
  }

  lemma LevelsAbove(lists: seq<seq<FileMeta>>, l: nat)
    requires |lists| == NUM_LEVELS && l < NUM_LEVELS && TablesLayered(lists)
    ensures forall e, x :: e in UnionEntries(FileSet(lists[l])) && x in From(lists, l + 1) && e.key.user == x.key.user
              ==> e.key.num > x.key.num
  {
    forall e, x | e in UnionEntries(FileSet(lists[l])) && x in From(lists, l + 1) && e.key.user == x.key.user
      ensures e.key.num > x.key.num
    {
      var f :| f in FileSet(lists[l]) && e in f.entries;
      var k, g :| l + 1 <= k < |lists| && g in lists[k] && x in g.entries;
      assert NewerThan(f, g);
    }
  }
}
