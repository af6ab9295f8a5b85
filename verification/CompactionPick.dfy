/** PickCompaction and SetupOtherInputs choose inputs that the drop rules may rely on. */
module CompactionPick {
  import opened Wrappers
  import opened Keys
  import opened Reads
  import opened LsmModel
  import opened InputSelection

  function FileSet(files: seq<FileMeta>): set<FileMeta> { set f | f in files }

  /** The files of each level as version_set.cc lists them. */
  function LevelsOf(lists: seq<seq<FileMeta>>): Levels {
    seq(|lists|, l requires 0 <= l < |lists| => FileSet(lists[l]))
  }

  ghost predicate ListsOk(lists: seq<seq<FileMeta>>) {
    && |lists| == NUM_LEVELS
    && (forall l :: 0 <= l < NUM_LEVELS ==> AllOk(lists[l]))
    && (forall l :: 1 <= l < NUM_LEVELS ==> Disjoint(lists[l]))
  }

  ghost predicate UniqueIn(files: seq<FileMeta>) { UniqueNumbers(UnionEntries(FileSet(files))) }

  // ----- gap-free unions -----

  lemma MemberMeeting(s: set<FileMeta>, t: set<FileMeta>, f: FileMeta) returns (g: FileMeta)
    requires f in s + t && f.Ok() && forall h :: h in t ==> exists g :: g in s && Overlaps(h, g)
    ensures g in s && Overlaps(f, g)
  {
    if f in s {
      OkBounds(f);
      g := f;
    } else {
      g :| g in s && Overlaps(f, g);
    }
  }

  /** Adding files that each meet a member keeps a gap-free set gap-free. */
  lemma CoverGrows(s: set<FileMeta>, t: set<FileMeta>)
    requires Covered(s)
    requires forall f :: f in s + t ==> f.Ok()
    requires forall f :: f in t ==> exists g :: g in s && Overlaps(f, g)
    ensures Covered(s + t)
  {
    forall u, f, g | f in s + t && g in s + t && Between(f, u, g) ensures exists h :: h in s + t && h.Spans(u) {
      if !f.Spans(u) && !g.Spans(u) {
        OkBounds(f);
        OkBounds(g);
        var f0 := MemberMeeting(s, t, f);
        var g0 := MemberMeeting(s, t, g);
        assert f0.smallest.user <= f.largest.user < u < g.smallest.user <= g0.largest.user;
        assert Between(f0, u, g0);
      }
    }
  }

  /** A file that meets the hull of a gap-free set meets a member. */
  lemma MeetsMember(s: set<FileMeta>, lo: FileMeta, hi: FileMeta, f: FileMeta)
    requires Covered(s) && lo in s && hi in s && f.Ok() && lo.smallest.user <= hi.largest.user
    requires Meets(f, Some(lo.smallest.user), Some(hi.largest.user))
    ensures exists g :: g in s && Overlaps(f, g)
  {
    OkBounds(f);
    var u := if f.smallest.user < lo.smallest.user then lo.smallest.user else f.smallest.user;
    assert Between(lo, u, hi);
    var h :| h in s && h.Spans(u);
    assert Overlaps(f, h);
  }

  // ----- files of one level -----

  /** Files left out hold only newer entries of a chosen file's keys. */
  ghost predicate KeepsOrder(files: seq<FileMeta>, fs: seq<FileMeta>) {
    forall f, g | f in fs && g in files :: g !in fs ==> NewerThan(g, f)
  }

  /** fs holds exactly files[a..b]. */
  ghost predicate Segment(files: seq<FileMeta>, fs: seq<FileMeta>, a: nat, b: nat) {
    && a < b <= |files|
    && (forall i :: 0 <= i < |files| ==> (files[i] in fs <==> a <= i < b))
    && (forall f :: f in fs ==> f in files)
  }

  lemma SegmentLargest(files: seq<FileMeta>, fs: seq<FileMeta>, a: nat, b: nat, key: InternalKey)
    requires AllOk(files) && Disjoint(files) && Segment(files, fs, a, b) && IsLargest(fs, key)
    ensures key == files[b - 1].largest
  {
    var f :| f in fs && f.largest == key;
    var i :| 0 <= i < |files| && files[i] == f;
    assert files[b - 1] in fs;
    if i < b - 1 {
      OkBounds(files[b - 1]);
    }
  }

  /** In a disjoint level the chain of boundary files extends a segment to the right. */
  lemma {:induction false} ChainExtends(files: seq<FileMeta>, fs: seq<FileMeta>, added: seq<FileMeta>, a: nat, b: nat)
    returns (c: nat)
    requires AllOk(files) && Disjoint(files) && Segment(files, fs, a, b) && BoundaryChain(files, fs, added)
    ensures b <= c && Segment(files, fs + added, a, c)
    decreases |added|
  {
    if added == [] {
      assert fs + added == fs;
      c := b;
    } else {
      var rest, f := added[..|added| - 1], added[|added| - 1];
      var b0 := ChainExtends(files, fs, rest, a, b);
      assert fs + added == (fs + rest) + [f];
      var key :| IsLargest(fs + rest, key) && FirstContinuing(files, key, f);
      ContinueSegment(files, fs + rest, a, b0, key, f);
      c := b0 + 1;
    }
  }

  lemma ContinueSegment(files: seq<FileMeta>, fs: seq<FileMeta>, a: nat, b: nat, key: InternalKey, f: FileMeta)
    requires AllOk(files) && Disjoint(files) && Segment(files, fs, a, b)
    requires IsLargest(fs, key) && FirstContinuing(files, key, f)
    ensures Segment(files, fs + [f], a, b + 1)
  {
    SegmentLargest(files, fs, a, b, key);
    NextContinuing(files, b, key, f);
    GrowSegment(files, fs, a, b);
  }

  lemma GrowSegment(files: seq<FileMeta>, fs: seq<FileMeta>, a: nat, b: nat)
    requires AllOk(files) && Disjoint(files) && Segment(files, fs, a, b) && b < |files|
    ensures Segment(files, fs + [files[b]], a, b + 1)
  {
    DistinctFiles(files);
    assert files[b] in fs + [files[b]];
  }

  lemma DistinctFiles(files: seq<FileMeta>)
    requires AllOk(files) && Disjoint(files)
    ensures forall i, k :: 0 <= i < |files| && 0 <= k < |files| && files[i] == files[k] ==> i == k
  {
    forall i, k | 0 <= i < k < |files| ensures files[i] != files[k] { OkBounds(files[i]); OkBounds(files[k]); }
  }

  lemma NextContinuing(files: seq<FileMeta>, b: nat, key: InternalKey, f: FileMeta)
    requires AllOk(files) && Disjoint(files) && 0 < b <= |files| && key == files[b - 1].largest
    requires FirstContinuing(files, key, f)
    ensures b < |files| && f == files[b]
  {
    var i :| 0 <= i < |files| && files[i] == f;
    OkBounds(files[b - 1]);
    OkBounds(f);
    if i > b {
      OkBounds(files[b]);
      assert Less(files[b].largest, f.smallest);
      assert Continues(files[b], key);
    }
  }

  /** A segment that nothing continues keeps the order of entries. */
  lemma SegmentOrder(files: seq<FileMeta>, fs: seq<FileMeta>, a: nat, b: nat)
    requires AllOk(files) && Disjoint(files) && Segment(files, fs, a, b)
    requires UniqueIn(files)
    requires forall key, f :: IsLargest(fs, key) && f in files ==> !Continues(f, key)
    ensures KeepsOrder(files, fs)
  {
    SegmentIsLargest(files, fs, a, b);
    forall f, g | f in fs && g in files && g !in fs ensures NewerThan(g, f) {
      var i :| 0 <= i < |files| && files[i] == f;
      var k :| 0 <= k < |files| && files[k] == g;
      forall e, x | e in f.entries && x in g.entries && e.key.user == x.key.user ensures x.key.num > e.key.num {
        if k >= b {
          assert files[k] in files && !Continues(files[k], files[b - 1].largest);
          RightOfSegment(files, a, b, i, k, e, x);
        } else {
          assert e in UnionEntries(FileSet(files)) && x in UnionEntries(FileSet(files));
          LeftOfSegment(files, i, k, e, x);
        }
      }
    }
  }

  lemma LeftOfSegment(files: seq<FileMeta>, i: nat, k: nat, e: Entry, x: Entry)
    requires AllOk(files) && Disjoint(files) && k < i < |files| && e in files[i].entries && x in files[k].entries
    requires e.key.user == x.key.user && (e.key.num == x.key.num ==> e == x)
    ensures x.key.num > e.key.num
  {
    KeyInFile(files[i], e);
    KeyInFile(files[k], x);
  }

  lemma RightOfSegment(files: seq<FileMeta>, a: nat, b: nat, i: nat, k: nat, e: Entry, x: Entry)
    requires AllOk(files) && Disjoint(files) && a <= i < b <= k < |files| && e in files[i].entries
      && x in files[k].entries
    requires !Continues(files[k], files[b - 1].largest)
    ensures e.key.user != x.key.user
  {
    KeyInFile(files[i], e);
    KeyInFile(files[k], x);
    OkBounds(files[b - 1]);
  }

  lemma SegmentIsLargest(files: seq<FileMeta>, fs: seq<FileMeta>, a: nat, b: nat)
    requires AllOk(files) && Disjoint(files) && Segment(files, fs, a, b)
    ensures IsLargest(fs, files[b - 1].largest)
  {
    forall f | f in fs ensures AtMost(f.largest, files[b - 1].largest) {
      var i :| 0 <= i < |files| && files[i] == f;
      OkBounds(files[b - 1]);
    }
    assert files[b - 1] in fs;
  }

  lemma KeyInFile(f: FileMeta, e: Entry)
    requires f.Ok() && e in f.entries
    ensures AtMost(f.smallest, e.key) && AtMost(e.key, f.largest)
  {
  }

  lemma MeetsConvex(files: seq<FileMeta>, b: Option<UserKey>, e: Option<UserKey>, i: nat, m: nat, k: nat)
    requires AllOk(files) && Disjoint(files) && i < m < k < |files|
    requires Meets(files[i], b, e) && Meets(files[k], b, e)
    ensures Meets(files[m], b, e)
  {
    OkBounds(files[m]);
    assert Less(files[i].largest, files[m].smallest) && Less(files[m].largest, files[k].smallest);
  }

  /** In a disjoint level the files meeting a range are a segment. */
  lemma SelectedSegment(files: seq<FileMeta>, b: Option<UserKey>, e: Option<UserKey>) returns (i: nat, k: nat)
    requires AllOk(files) && Disjoint(files) && Selected(files, b, e) != []
    ensures Segment(files, Selected(files, b, e), i, k)
  {
    SelectedAre(files, b, e);
    var fs := Selected(files, b, e);
    assert fs[0] in fs;
    var m: nat :| m < |files| && files[m] == fs[0];
    i, k := SegmentAround(files, b, e, m);
    forall n | 0 <= n < |files| ensures files[n] in fs <==> i <= n < k { }
  }

  lemma SegmentAround(files: seq<FileMeta>, b: Option<UserKey>, e: Option<UserKey>, m: nat) returns (i: nat, k: nat)
    requires AllOk(files) && Disjoint(files) && m < |files| && Meets(files[m], b, e)
    ensures i <= m < k <= |files| && forall n :: 0 <= n < |files| ==> (Meets(files[n], b, e) <==> i <= n < k)
  {
    i, k := m, m + 1;
    while i > 0 && Meets(files[i - 1], b, e)
      invariant i <= m && forall n :: i <= n <= m ==> Meets(files[n], b, e)
    {
      i := i - 1;
    }
    while k < |files| && Meets(files[k], b, e)
      invariant m < k <= |files| && forall n :: m <= n < k ==> Meets(files[n], b, e)
    {
      k := k + 1;
    }
    forall n | 0 <= n < |files| && Meets(files[n], b, e) ensures i <= n < k {
      if n < i - 1 {
        MeetsConvex(files, b, e, n, i - 1, m);
      } else if n > k {
        MeetsConvex(files, b, e, m, k, n);
      }
    }
  }

  // ----- level 0 -----

  /** A file list picked at level 0: everything meeting a closed range. */
  lemma ClosedOrder(files: seq<FileMeta>, b: Option<UserKey>, e: Option<UserKey>)
    requires AllOk(files) && Closed(files, b, e)
    ensures KeepsOrder(files, Selected(files, b, e))
  {
    SelectedAre(files, b, e);
    forall f, g | f in Selected(files, b, e) && g in files && g !in Selected(files, b, e) ensures NewerThan(g, f) {
      forall x, y | x in f.entries && y in g.entries ensures x.key.user != y.key.user {
        KeyInFile(f, x);
        KeyInFile(g, y);
      }
    }
  }

  /** Nothing at level 0 continues a closed selection, so no boundary file is added. */
  lemma NoBoundaryAtLevel0(files: seq<FileMeta>, b: Option<UserKey>, e: Option<UserKey>, added: seq<FileMeta>)
    requires AllOk(files) && Closed(files, b, e) && BoundaryChain(files, Selected(files, b, e), added)
    ensures added == []
    decreases |added|
  {
    if added != [] {
      var fs, rest, f := Selected(files, b, e), added[..|added| - 1], added[|added| - 1];
      NoBoundaryAtLevel0(files, b, e, rest);
      assert fs + rest == fs;
      SelectedAre(files, b, e);
      var key :| IsLargest(fs + rest, key) && FirstContinuing(files, key, f);
      var l :| l in fs && l.largest == key;
      OkBounds(l);
      OkBounds(f);
      assert Meets(f, b, e);
      assert false;
    }
  }

  // ----- SetupOtherInputs -----

  /** What AddBoundaryInputs starts from: a contiguous stretch of a disjoint level, or everything at
      level 0 that meets a closed range. */
  ghost predicate Startable(files: seq<FileMeta>, level: nat, fs: seq<FileMeta>) {
    && fs != [] && (forall f :: f in fs ==> f in files)
    && (if level > 0 then exists a: nat, b: nat :: Segment(files, fs, a, b)
        else exists b, e :: fs == Selected(files, b, e) && Closed(files, b, e))
  }

  /** After the boundary files are in, nothing left at the level holds older entries of a chosen key. */
  lemma BoundariesKeepOrder(lists: seq<seq<FileMeta>>, level: nat, fs: seq<FileMeta>, added: seq<FileMeta>)
    requires ListsOk(lists) && level < NUM_LEVELS && UniqueIn(lists[level]) && Startable(lists[level], level, fs)
    requires BoundaryChain(lists[level], fs, added)
    requires forall key, f :: IsLargest(fs + added, key) && f in lists[level] ==> !Continues(f, key)
    ensures KeepsOrder(lists[level], fs + added) && forall f :: f in fs + added ==> f in lists[level]
  {
    var files := lists[level];
    if level > 0 {
      var a: nat, b: nat :| Segment(files, fs, a, b);
      var c := ChainExtends(files, fs, added, a, b);
      SegmentOrder(files, fs + added, a, c);
    } else {
      var b, e :| fs == Selected(files, b, e) && Closed(files, b, e);
      NoBoundaryAtLevel0(files, b, e, added);
      assert fs + added == fs;
      ClosedOrder(files, b, e);
    }
  }

  /** Boundary files meet what they continue, so a gap-free set stays gap-free. */
  lemma {:induction false} ChainCovers(files: seq<FileMeta>, fs: seq<FileMeta>, added: seq<FileMeta>,
                                       others: set<FileMeta>)
    requires AllOk(files) && BoundaryChain(files, fs, added) && AllOk(fs)
    requires Covered(FileSet(fs) + others) && forall f :: f in others ==> f.Ok()
    ensures Covered(FileSet(fs + added) + others) && AllOk(fs + added)
    decreases |added|
  {
    if added == [] {
      assert fs + added == fs;
    } else {
      var rest, f := added[..|added| - 1], added[|added| - 1];
      ChainCovers(files, fs, rest, others);
      assert fs + added == (fs + rest) + [f];
      var key :| IsLargest(fs + rest, key) && FirstContinuing(files, key, f);
      ContinueCovers(fs + rest, key, f, others);
    }
  }

  lemma ContinueCovers(fs: seq<FileMeta>, key: InternalKey, f: FileMeta, others: set<FileMeta>)
    requires AllOk(fs) && f.Ok() && IsLargest(fs, key) && Continues(f, key)
    requires Covered(FileSet(fs) + others) && forall g :: g in others ==> g.Ok()
    ensures Covered(FileSet(fs + [f]) + others)
  {
    var g :| g in fs && g.largest == key;
    OkBounds(f);
    OkBounds(g);
    assert Overlaps(f, g) && g in FileSet(fs) + others;
    CoverGrows(FileSet(fs) + others, {f});
    assert FileSet(fs + [f]) + others == FileSet(fs) + others + {f};
  }

  /** The level+1 side: every file meeting the hull of in0, and the two sides together gap-free. */
  ghost predicate GoodInputs(lists: seq<seq<FileMeta>>, level: nat, in0: seq<FileMeta>, in1: seq<FileMeta>)
    requires |lists| == NUM_LEVELS && level + 1 < NUM_LEVELS
  {
    && in0 != [] && (forall f :: f in in0 ==> f in lists[level]) && KeepsOrder(lists[level], in0)
    && (exists s, l :: IsSmallest(in0, s) && IsLargest(in0, l)
                       && in1 == Selected(lists[level + 1], Some(s.user), Some(l.user)))
    && Covered(FileSet(in0) + FileSet(in1))
  }

  /** A file that misses the hull of in0 is clear of in0 and of every file that meets the hull. */
  lemma MissesHull(files: seq<FileMeta>, in0: seq<FileMeta>, s: InternalKey, l: InternalKey, g: FileMeta)
    requires AllOk(files) && Disjoint(files) && AllOk(in0) && IsSmallest(in0, s) && IsLargest(in0, l)
    requires g in files && !Meets(g, Some(s.user), Some(l.user))
    ensures Clear(g, FileSet(in0) + FileSet(Selected(files, Some(s.user), Some(l.user))))
    ensures forall f :: f in in0 ==> !Overlaps(f, g)
  {
    SelectedAre(files, Some(s.user), Some(l.user));
    var k :| 0 <= k < |files| && files[k] == g;
    OkBounds(g);
    forall f | f in in0 ensures f.Ok() && f.smallest.user <= f.largest.user { OkBounds(f); }
    forall h | h in files && Meets(h, Some(s.user), Some(l.user))
      ensures if g.largest.user < s.user then Less(g.largest, h.smallest) else Less(h.largest, g.smallest)
    {
      var i :| 0 <= i < |files| && files[i] == h;
      OkBounds(h);
    }
    if g.largest.user < s.user {
      assert forall h :: h in FileSet(in0) + FileSet(Selected(files, Some(s.user), Some(l.user))) ==>
        Less(g.largest, h.smallest);
    } else {
      assert forall h :: h in FileSet(in0) + FileSet(Selected(files, Some(s.user), Some(l.user))) ==>
        Less(h.largest, g.smallest);
    }
  }

  lemma GoodIsPicked(lists: seq<seq<FileMeta>>, level: nat, in0: seq<FileMeta>, in1: seq<FileMeta>)
    requires ListsOk(lists) && level + 1 < NUM_LEVELS && GoodInputs(lists, level, in0, in1)
    ensures Picked(LevelsOf(lists), level, FileSet(in0), FileSet(in1))
  {
    var s, l :| IsSmallest(in0, s) && IsLargest(in0, l)
      && in1 == Selected(lists[level + 1], Some(s.user), Some(l.user));
    SelectedAre(lists[level + 1], Some(s.user), Some(l.user));
    PickedFromParts(lists, level, in0, s, l, in1);
  }

  lemma PickedFromParts(lists: seq<seq<FileMeta>>, level: nat, in0: seq<FileMeta>, s: InternalKey, l: InternalKey,
                        in1: seq<FileMeta>)
    requires |lists| == NUM_LEVELS && level + 1 < NUM_LEVELS && AllOk(in0) && in0 != []
    requires AllOk(lists[level + 1]) && Disjoint(lists[level + 1]) && IsSmallest(in0, s) && IsLargest(in0, l)
    requires forall f :: f in in0 ==> f in lists[level]
    requires forall f :: f in in1 ==> f in lists[level + 1]
    requires in1 == Selected(lists[level + 1], Some(s.user), Some(l.user))
    requires KeepsOrder(lists[level], in0) && Covered(FileSet(in0) + FileSet(in1))
    ensures Picked(LevelsOf(lists), level, FileSet(in0), FileSet(in1))
  {
    var j := Job(level, FileSet(in0), FileSet(in1), 0, LevelsOf(lists), []);
    GoodInputsOk(lists, j, in0, in1);
    GoodOlder(lists, j, in0);
    GoodBetween(lists, j, in0, s, l);
    assert in0[0] in FileSet(in0);
  }

  lemma GoodInputsOk(lists: seq<seq<FileMeta>>, j: Job, in0: seq<FileMeta>, in1: seq<FileMeta>)
    requires |lists| == NUM_LEVELS && j.level + 1 < NUM_LEVELS
    requires forall f :: f in in0 ==> f in lists[j.level]
    requires forall f :: f in in1 ==> f in lists[j.level + 1]
    requires Covered(FileSet(in0) + FileSet(in1))
    requires j.in0 == FileSet(in0) && j.in1 == FileSet(in1) && j.base == LevelsOf(lists)
    ensures InputsOk(LevelsOf(lists), j)
  {
    var levels := LevelsOf(lists);
    assert j.Inputs() == FileSet(in0) + FileSet(in1);
    assert levels[j.level] == FileSet(lists[j.level]) && levels[j.level + 1] == FileSet(lists[j.level + 1]);
  }

  lemma GoodOlder(lists: seq<seq<FileMeta>>, j: Job, in0: seq<FileMeta>)
    requires InputsOk(LevelsOf(lists), j) && |lists| == NUM_LEVELS && KeepsOrder(lists[j.level], in0)
      && j.in0 == FileSet(in0)
    ensures NoneOlder(LevelsOf(lists), j)
  {
    assert LevelsOf(lists)[j.level] == FileSet(lists[j.level]);
  }

  lemma GoodBetween(lists: seq<seq<FileMeta>>, j: Job, in0: seq<FileMeta>, s: InternalKey, l: InternalKey)
    requires |lists| == NUM_LEVELS && InputsOk(LevelsOf(lists), j) && AllOk(in0)
    requires AllOk(lists[j.level + 1]) && Disjoint(lists[j.level + 1]) && IsSmallest(in0, s) && IsLargest(in0, l)
    requires j.in0 == FileSet(in0) && j.in1 == FileSet(Selected(lists[j.level + 1], Some(s.user), Some(l.user)))
    ensures NoneBetween(LevelsOf(lists), j)
  {
    assert LevelsOf(lists)[j.level + 1] == FileSet(lists[j.level + 1]);
    SelectedAre(lists[j.level + 1], Some(s.user), Some(l.user));
    forall g | g in lists[j.level + 1] && g !in j.in1
      ensures Clear(g, j.Inputs()) && forall f :: f in j.in0 ==> !Overlaps(f, g)
    {
      MissesHull(lists[j.level + 1], in0, s, l, g);
    }
  }

  /** Files meeting the hull of a gap-free pair keep it gap-free. */
  lemma SelectedCovers(files: seq<FileMeta>, base: set<FileMeta>, lo: FileMeta, hi: FileMeta)
    requires AllOk(files) && Covered(base) && lo in base && hi in base
    requires lo.smallest.user <= hi.largest.user && forall f :: f in base ==> f.Ok()
    ensures Covered(base + FileSet(Selected(files, Some(lo.smallest.user), Some(hi.largest.user))))
  {
    var t := FileSet(Selected(files, Some(lo.smallest.user), Some(hi.largest.user)));
    SelectedAre(files, Some(lo.smallest.user), Some(hi.largest.user));
    forall f | f in t ensures exists g :: g in base && Overlaps(f, g) {
      MeetsMember(base, lo, hi, f);
    }
    CoverGrows(base, t);
  }

  lemma {:induction false} NarrowerSelection(files: seq<FileMeta>, b: Option<UserKey>, e: Option<UserKey>,
                                             b': Option<UserKey>, e': Option<UserKey>)
    requires Contains(b', e', b, e)
    ensures |Selected(files, b, e)| <= |Selected(files, b', e')|
    ensures |Selected(files, b, e)| == |Selected(files, b', e')| ==> Selected(files, b, e) == Selected(files, b', e')
  {
    if files != [] { NarrowerSelection(files[..|files| - 1], b, e, b', e'); }
  }

  /** The hull of the chosen files, as two of them. */
  lemma HullFiles(fs: seq<FileMeta>, s: InternalKey, l: InternalKey) returns (lo: FileMeta, hi: FileMeta)
    requires AllOk(fs) && IsSmallest(fs, s) && IsLargest(fs, l)
    ensures lo in fs && hi in fs && lo.smallest == s && hi.largest == l && s.user <= l.user
  {
    lo :| lo in fs && lo.smallest == s;
    hi :| hi in fs && hi.largest == l;
    OkBounds(lo);
  }

  /** Choosing the level+1 files that meet the hull of a gap-free in0. */
  lemma ChooseIn1(lists: seq<seq<FileMeta>>, level: nat, in0: seq<FileMeta>, s: InternalKey, l: InternalKey)
    requires |lists| == NUM_LEVELS && level + 1 < NUM_LEVELS && in0 != []
    requires AllOk(lists[level]) && AllOk(lists[level + 1])
    requires (forall f :: f in in0 ==> f in lists[level]) && KeepsOrder(lists[level], in0) && Covered(FileSet(in0))
    requires IsSmallest(in0, s) && IsLargest(in0, l)
    ensures GoodInputs(lists, level, in0, Selected(lists[level + 1], Some(s.user), Some(l.user)))
  {
    var lo, hi := HullFiles(in0, s, l);
    SelectedCovers(lists[level + 1], FileSet(in0), lo, hi);
  }

  /** The input files a compaction of `level` may start from: one file, or at level 0 everything that
      meets the range of one file, transitively. */
  ghost predicate StartOk(files: seq<FileMeta>, level: nat, picked: seq<FileMeta>) {
    Startable(files, level, picked) && Covered(FileSet(picked))
  }

  /** The inputs can be read in order: level-0 files one by one, any other level's as one concatenation. */
  ghost predicate InputOrder(lists: seq<seq<FileMeta>>, level: nat, in0: seq<FileMeta>, in1: seq<FileMeta>)
    requires |lists| == NUM_LEVELS
  {
    && (if level == 0 then exists b, e :: in0 == Selected(lists[0], b, e) else Disjoint(in0))
    && Disjoint(in1)
  }

  lemma {:induction false} SelectedDisjoint(files: seq<FileMeta>, b: Option<UserKey>, e: Option<UserKey>)
    requires Disjoint(files)
    ensures Disjoint(Selected(files, b, e))
  {
    if files != [] {
      var front, last := files[..|files| - 1], files[|files| - 1];
      SelectedDisjoint(front, b, e);
      SelectedAre(front, b, e);
      forall f | f in Selected(front, b, e) ensures Less(f.largest, last.smallest) {
        var i :| 0 <= i < |front| && files[i] == f;
      }
    }
  }

  /** Each boundary file starts after everything before it ends. */
  lemma {:induction false} ChainDisjoint(files: seq<FileMeta>, fs: seq<FileMeta>, added: seq<FileMeta>)
    requires Disjoint(fs) && BoundaryChain(files, fs, added)
    ensures Disjoint(fs + added)
    decreases |added|
  {
    if added == [] {
      assert fs + added == fs;
    } else {
      var rest, f := added[..|added| - 1], added[|added| - 1];
      ChainDisjoint(files, fs, rest);
      var key :| IsLargest(fs + rest, key) && FirstContinuing(files, key, f);
      assert fs + added == (fs + rest) + [f];
      AppendDisjoint(fs + rest, key, f);
    }
  }

  lemma AppendDisjoint(fs: seq<FileMeta>, key: InternalKey, f: FileMeta)
    requires Disjoint(fs) && IsLargest(fs, key) && Less(key, f.smallest)
    ensures Disjoint(fs + [f])
  {
    forall g | g in fs ensures Less(g.largest, f.smallest) { }
  }

  lemma ChainListed(lists: seq<seq<FileMeta>>, level: nat, fs: seq<FileMeta>, added: seq<FileMeta>)
    requires ListsOk(lists) && level < NUM_LEVELS && Startable(lists[level], level, fs)
    requires BoundaryChain(lists[level], fs, added) && (level > 0 ==> Disjoint(fs))
    ensures if level == 0 then exists b, e :: fs + added == Selected(lists[0], b, e) else Disjoint(fs + added)
  {
    if level == 0 {
      var b, e :| fs == Selected(lists[0], b, e) && Closed(lists[0], b, e);
      NoBoundaryAtLevel0(lists[0], b, e, added);
      assert fs + added == fs;
    } else {
      ChainDisjoint(lists[level], fs, added);
    }
  }

  lemma ExpansionListed(lists: seq<seq<FileMeta>>, level: nat, fs: seq<FileMeta>, added: seq<FileMeta>, s: InternalKey,
                        l: InternalKey)
    requires ListsOk(lists) && level < NUM_LEVELS && Startable(lists[level], level, fs)
    requires BoundaryChain(lists[level], fs, added)
    requires level > 0 ==> fs == Selected(lists[level], Some(s.user), Some(l.user))
    ensures if level == 0 then exists b, e :: fs + added == Selected(lists[0], b, e) else Disjoint(fs + added)
  {
    if level > 0 { SelectedDisjoint(lists[level], Some(s.user), Some(l.user)); }
    ChainListed(lists, level, fs, added);
  }

  method SetupOtherInputs(lists: seq<seq<FileMeta>>, level: nat, picked: seq<FileMeta>, roomToExpand: bool)
    returns (in0: seq<FileMeta>, in1: seq<FileMeta>)
    requires ListsOk(lists) && level + 1 < NUM_LEVELS && UniqueIn(lists[level]) && StartOk(lists[level], level, picked)
    requires level > 0 ==> Disjoint(picked)
    ensures forall f :: f in picked ==> f in in0
    ensures InputOrder(lists, level, in0, in1) && GoodInputs(lists, level, in0, in1)
    ensures Picked(LevelsOf(lists), level, FileSet(in0), FileSet(in1))
  {
    ghost var added0, b, e;
    in0, added0 := AddBoundaryInputs(lists[level], picked);
    WithBoundaries(lists, level, picked, added0, {});
    ChainListed(lists, level, picked, added0);

    var smallest, largest := GetRange(in0);
    in1, b, e := GetOverlappingInputs(level + 1, lists[level + 1], Some(smallest.user), Some(largest.user));
    ChooseIn1(lists, level, in0, smallest, largest);
    SelectedDisjoint(lists[level + 1], Some(smallest.user), Some(largest.user));
    SelectedAre(lists[level + 1], Some(smallest.user), Some(largest.user));

    var allStart, allLimit := GetRange(in0 + in1);
    if in1 != [] {
      var start0;
      start0, b, e := GetOverlappingInputs(level, lists[level], Some(allStart.user), Some(allLimit.user));
      ExpansionStarts(lists, level, in0, in1, allStart, allLimit, start0, b, e);
      var expanded0;
      expanded0, added0 := AddBoundaryInputs(lists[level], start0);
      if |expanded0| > |in0| && roomToExpand {
        var newStart, newLimit := GetRange(expanded0);
        var expanded1;
        expanded1, b, e := GetOverlappingInputs(level + 1, lists[level + 1], Some(newStart.user), Some(newLimit.user));
        if |expanded1| == |in1| {
          ExpansionGood(lists, level, in0, in1, smallest, largest, start0, added0, newStart, newLimit);
          ExpansionListed(lists, level, start0, added0, allStart, allLimit);
          SelectedDisjoint(lists[level + 1], Some(newStart.user), Some(newLimit.user));
          in0, in1 := expanded0, expanded1;
        }
      }
    }
    GoodIsPicked(lists, level, in0, in1);
  }

  // ----- boundary files on the level+1 side too -----

  /** SetupOtherInputs followed by AddBoundaryInputs on inputs_[1], which the repository does not do: the inputs are
      still good, and no level+1 file left out continues one taken. */
  method SetupWithBoundaries(lists: seq<seq<FileMeta>>, level: nat, picked: seq<FileMeta>, roomToExpand: bool)
    returns (in0: seq<FileMeta>, in1: seq<FileMeta>)
    requires ListsOk(lists) && level + 1 < NUM_LEVELS && UniqueIn(lists[level]) && StartOk(lists[level], level, picked)
    requires level > 0 ==> Disjoint(picked)
    ensures (forall f :: f in picked ==> f in in0) && InputOrder(lists, level, in0, in1)
    ensures Picked(LevelsOf(lists), level, FileSet(in0), FileSet(in1))
    ensures NoneContinues(LevelsOf(lists), level, FileSet(in1))
  {
    hide GoodInputs, InputOrder, Picked;
    var chosen;
    in0, chosen := SetupOtherInputs(lists, level, picked, roomToExpand);
    GoodMembers(lists, level, in0, chosen);
    ghost var added;
    in1, added := AddBoundaryInputs(lists[level + 1], chosen);
    ExtendedIn1(lists, level, in0, chosen, added);
  }

  lemma GoodMembers(lists: seq<seq<FileMeta>>, level: nat, in0: seq<FileMeta>, in1: seq<FileMeta>)
    requires ListsOk(lists) && level + 1 < NUM_LEVELS && GoodInputs(lists, level, in0, in1)
    ensures AllOk(in0) && AllOk(in1)
  {
    var s, l :| IsSmallest(in0, s) && IsLargest(in0, l)
      && in1 == Selected(lists[level + 1], Some(s.user), Some(l.user));
    SelectedAre(lists[level + 1], Some(s.user), Some(l.user));
  }

  lemma ExtendedIn1(lists: seq<seq<FileMeta>>, level: nat, in0: seq<FileMeta>, in1: seq<FileMeta>, added: seq<FileMeta>)
    requires ListsOk(lists) && level + 1 < NUM_LEVELS && GoodInputs(lists, level, in0, in1)
      && InputOrder(lists, level, in0, in1)
    requires AllOk(in0) && AllOk(in1) && BoundaryChain(lists[level + 1], in1, added)
    requires forall key, f :: IsLargest(in1 + added, key) && f in lists[level + 1] ==> !Continues(f, key)
    ensures InputOrder(lists, level, in0, in1 + added)
    ensures Picked(LevelsOf(lists), level, FileSet(in0), FileSet(in1 + added))
    ensures NoneContinues(LevelsOf(lists), level, FileSet(in1 + added))
  {
    hide KeepsOrder, UniqueIn, Covered, BoundaryChain, Segment, Picked, NoneContinues;
    var files, all := lists[level + 1], in1 + added;
    ChainDisjoint(files, in1, added);
    var s, l :| IsSmallest(in0, s) && IsLargest(in0, l) && in1 == Selected(files, Some(s.user), Some(l.user));
    if in1 == [] {
      NothingContinues(files, added);
      assert all == in1;
      GoodIsPicked(lists, level, in0, in1);
    } else {
      var a, b, c := ExtendedSegment(files, in1, added, s, l);
      ExtendedCovers(files, in0, in1, added);
      ExtendedPicked(lists, level, in0, s, l, a, b, c, all);
      SegmentClosed(files, all, a, c);
    }
    NoneLeftContinues(lists, level, all);
  }

  lemma NoneLeftContinues(lists: seq<seq<FileMeta>>, level: nat, fs: seq<FileMeta>)
    requires level + 1 < |lists|
    requires forall f, g :: f in fs && g in lists[level + 1] && g !in fs ==> !Continues(g, f.largest)
    ensures NoneContinues(LevelsOf(lists), level, FileSet(fs))
  {
    LevelIsList(lists, level + 1);
  }

  lemma ExtendedSegment(files: seq<FileMeta>, in1: seq<FileMeta>, added: seq<FileMeta>, s: InternalKey, l: InternalKey)
    returns (a: nat, b: nat, c: nat)
    requires AllOk(files) && Disjoint(files) && in1 == Selected(files, Some(s.user), Some(l.user)) && in1 != []
    requires BoundaryChain(files, in1, added)
    ensures b <= c && Segment(files, in1, a, b) && Segment(files, in1 + added, a, c)
  {
    a, b := SelectedSegment(files, Some(s.user), Some(l.user));
    c := ChainExtends(files, in1, added, a, b);
  }

  lemma ExtendedCovers(files: seq<FileMeta>, in0: seq<FileMeta>, in1: seq<FileMeta>, added: seq<FileMeta>)
    requires AllOk(files) && AllOk(in0) && AllOk(in1) && BoundaryChain(files, in1, added)
      && Covered(FileSet(in0) + FileSet(in1))
    ensures Covered(FileSet(in0) + FileSet(in1 + added))
  {
    hide BoundaryChain, Covered;
    assert FileSet(in1) + FileSet(in0) == FileSet(in0) + FileSet(in1);
    ChainCovers(files, in1, added, FileSet(in0));
    assert FileSet(in1 + added) + FileSet(in0) == FileSet(in0) + FileSet(in1 + added);
  }

  lemma ExtendedPicked(lists: seq<seq<FileMeta>>, level: nat, in0: seq<FileMeta>, s: InternalKey, l: InternalKey,
                       a: nat, b: nat, c: nat, all: seq<FileMeta>)
    requires ListsOk(lists) && level + 1 < NUM_LEVELS && in0 != [] && (forall f :: f in in0 ==> f in lists[level])
    requires KeepsOrder(lists[level], in0) && AllOk(in0) && IsSmallest(in0, s) && IsLargest(in0, l)
    requires Covered(FileSet(in0) + FileSet(all)) && b <= c && Segment(lists[level + 1], all, a, c)
    requires Segment(lists[level + 1], Selected(lists[level + 1], Some(s.user), Some(l.user)), a, b)
    ensures Picked(LevelsOf(lists), level, FileSet(in0), FileSet(all))
  {
    hide KeepsOrder, Covered;
    var j := Job(level, FileSet(in0), FileSet(all), 0, LevelsOf(lists), []);
    GoodInputsOk(lists, j, in0, all);
    GoodOlder(lists, j, in0);
    ExtendedBetween(lists, j, in0, s, l, a, b, c, all);
    assert in0[0] in FileSet(in0);
  }

  lemma LevelIsList(lists: seq<seq<FileMeta>>, l: nat)
    requires l < |lists|
    ensures LevelsOf(lists)[l] == FileSet(lists[l])
  {
  }

  lemma NothingContinues(files: seq<FileMeta>, added: seq<FileMeta>)
    requires BoundaryChain(files, [], added)
    ensures added == []
    decreases |added|
  {
    if added != [] {
      var rest := added[..|added| - 1];
      NothingContinues(files, rest);
    }
  }

  /** Nothing in the level continues the last key of a file of a segment that nothing continues. */
  lemma SegmentClosed(files: seq<FileMeta>, fs: seq<FileMeta>, a: nat, c: nat)
    requires AllOk(files) && Disjoint(files) && Segment(files, fs, a, c)
    requires forall key, f :: IsLargest(fs, key) && f in files ==> !Continues(f, key)
    ensures forall f, g :: f in fs && g in files && g !in fs ==> !Continues(g, f.largest)
  {
    SegmentIsLargest(files, fs, a, c);
    forall f, g | f in fs && g in files && g !in fs ensures !Continues(g, f.largest) {
      var i :| 0 <= i < |files| && files[i] == f;
      var k :| 0 <= k < |files| && files[k] == g;
      assert !Continues(g, files[c - 1].largest);
      AfterSegment(files, a, c, i, k);
    }
  }

  lemma AfterSegment(files: seq<FileMeta>, a: nat, c: nat, i: nat, k: nat)
    requires AllOk(files) && Disjoint(files) && a <= i < c <= |files| && k < |files| && !(a <= k < c)
    requires !Continues(files[k], files[c - 1].largest)
    ensures !Continues(files[k], files[i].largest)
  {
    OkBounds(files[i]);
    OkBounds(files[k]);
    OkBounds(files[c - 1]);
  }

  lemma ExtendedBetween(lists: seq<seq<FileMeta>>, j: Job, in0: seq<FileMeta>, s: InternalKey, l: InternalKey,
                        a: nat, b: nat, c: nat, all: seq<FileMeta>)
    requires |lists| == NUM_LEVELS && InputsOk(LevelsOf(lists), j) && AllOk(in0)
    requires AllOk(lists[j.level + 1]) && Disjoint(lists[j.level + 1]) && IsSmallest(in0, s) && IsLargest(in0, l)
    requires j.in0 == FileSet(in0) && j.in1 == FileSet(all) && b <= c && Segment(lists[j.level + 1], all, a, c)
    requires Segment(lists[j.level + 1], Selected(lists[j.level + 1], Some(s.user), Some(l.user)), a, b)
    ensures NoneBetween(LevelsOf(lists), j)
  {
    hide Covered, KeepsOrder;
    var files := lists[j.level + 1];
    LevelIsList(lists, j.level + 1);
    SelectedAre(files, Some(s.user), Some(l.user));
    forall g | g in files && g !in j.in1 ensures Clear(g, j.Inputs()) && forall f :: f in j.in0 ==> !Overlaps(f, g) {
      var k :| 0 <= k < |files| && files[k] == g;
      assert !(a <= k < c) && g !in Selected(files, Some(s.user), Some(l.user));
      MissesHull(files, in0, s, l, g);
      BesideSegment(files, in0, s, l, a, b, c, k, all);
    }
  }

  lemma BesideSegment(files: seq<FileMeta>, in0: seq<FileMeta>, s: InternalKey, l: InternalKey, a: nat, b: nat, c: nat,
                      k: nat, all: seq<FileMeta>)
    requires AllOk(files) && Disjoint(files) && AllOk(in0) && IsSmallest(in0, s) && IsLargest(in0, l)
    requires a < b <= c <= |files| && k < |files| && !(a <= k < c) && Segment(files, all, a, c)
    requires !Meets(files[k], Some(s.user), Some(l.user)) && Meets(files[b - 1], Some(s.user), Some(l.user))
    ensures Clear(files[k], FileSet(in0) + FileSet(all))
  {
    var g := files[k];
    OkBounds(g);
    OkBounds(files[b - 1]);
    InHull(in0, s, l);
    forall f | f in in0 ensures AtMost(s, f.smallest) && AtMost(f.largest, l) { }
    if k < a {
      assert g.largest.user < s.user;
      forall h | h in all ensures Less(g.largest, h.smallest) { var i :| 0 <= i < |files| && files[i] == h; }
      assert forall f :: f in FileSet(in0) + FileSet(all) ==> Less(g.largest, f.smallest);
    } else {
      assert g.smallest.user > l.user;
      forall h | h in all ensures Less(h.largest, g.smallest) { var i :| 0 <= i < |files| && files[i] == h; }
      assert forall f :: f in FileSet(in0) + FileSet(all) ==> Less(f.largest, g.smallest);
    }
  }

  /** Adding the boundary files keeps what in0 needs. */
  lemma WithBoundaries(lists: seq<seq<FileMeta>>, level: nat, fs: seq<FileMeta>, added: seq<FileMeta>,
                       others: set<FileMeta>)
    requires ListsOk(lists) && level < NUM_LEVELS && UniqueIn(lists[level]) && Startable(lists[level], level, fs)
    requires BoundaryChain(lists[level], fs, added)
    requires forall key, f :: IsLargest(fs + added, key) && f in lists[level] ==> !Continues(f, key)
    requires Covered(FileSet(fs) + others) && forall f :: f in others ==> f.Ok()
    ensures KeepsOrder(lists[level], fs + added) && forall f :: f in fs + added ==> f in lists[level]
    ensures Covered(FileSet(fs + added) + others) && (others == {} ==> Covered(FileSet(fs + added)))
  {
    BoundariesKeepOrder(lists, level, fs, added);
    ChainCovers(lists[level], fs, added, others);
    assert FileSet(fs + added) + {} == FileSet(fs + added);
  }

  lemma ExpansionGood(lists: seq<seq<FileMeta>>, level: nat, in0: seq<FileMeta>, in1: seq<FileMeta>, s: InternalKey,
                      l: InternalKey,
                      fs: seq<FileMeta>, added: seq<FileMeta>, s': InternalKey, l': InternalKey)
    requires ListsOk(lists) && level + 1 < NUM_LEVELS && UniqueIn(lists[level]) && Startable(lists[level], level, fs)
    requires IsSmallest(in0, s) && IsLargest(in0, l) && in1 == Selected(lists[level + 1], Some(s.user), Some(l.user))
    requires (forall f :: f in in0 ==> f in fs) && Covered(FileSet(fs) + FileSet(in1))
    requires BoundaryChain(lists[level], fs, added)
    requires forall key, f :: IsLargest(fs + added, key) && f in lists[level] ==> !Continues(f, key)
    requires IsSmallest(fs + added, s') && IsLargest(fs + added, l')
    requires |Selected(lists[level + 1], Some(s'.user), Some(l'.user))| == |in1|
    ensures GoodInputs(lists, level, fs + added, Selected(lists[level + 1], Some(s'.user), Some(l'.user)))
  {
    SelectedAre(lists[level + 1], Some(s.user), Some(l.user));
    WithBoundaries(lists, level, fs, added, FileSet(in1));
    HullGrows(in0, s, l, fs + added, s', l');
    NarrowerSelection(lists[level + 1], Some(s.user), Some(l.user), Some(s'.user), Some(l'.user));
  }

  lemma HullGrows(fs: seq<FileMeta>, s: InternalKey, l: InternalKey, gs: seq<FileMeta>, s': InternalKey,
                  l': InternalKey)
    requires IsSmallest(fs, s) && IsLargest(fs, l) && IsSmallest(gs, s') && IsLargest(gs, l')
    requires forall f :: f in fs ==> f in gs
    ensures Contains(Some(s'.user), Some(l'.user), Some(s.user), Some(l.user))
  {
    var f :| f in fs && f.smallest == s;
    var g :| g in fs && g.largest == l;
  }

  /** The widened selection at `level` may again be extended by boundary files, contains the old one, and
      with the level+1 inputs leaves no gap. */
  lemma ExpansionStarts(lists: seq<seq<FileMeta>>, level: nat, in0: seq<FileMeta>, in1: seq<FileMeta>,
                        s: InternalKey, l: InternalKey, fs: seq<FileMeta>, b: Option<UserKey>, e: Option<UserKey>)
    requires ListsOk(lists) && level + 1 < NUM_LEVELS && in0 != [] && Covered(FileSet(in0) + FileSet(in1))
    requires (forall f :: f in in0 ==> f in lists[level]) && (forall f :: f in in1 ==> f in lists[level + 1])
    requires IsSmallest(in0 + in1, s) && IsLargest(in0 + in1, l)
    requires fs == Selected(lists[level], b, e) && Contains(b, e, Some(s.user), Some(l.user))
    requires level > 0 ==> b == Some(s.user) && e == Some(l.user)
    requires level == 0 ==> Closed(lists[0], b, e)
    requires forall u :: InRange(u, b, e) && !InRange(u, Some(s.user), Some(l.user)) ==>
      exists f :: f in lists[level] && f.Spans(u)
    ensures Startable(lists[level], level, fs) && Covered(FileSet(fs) + FileSet(in1))
    ensures forall f :: f in in0 ==> f in fs
  {
    assert FileSet(in0 + in1) == FileSet(in0) + FileSet(in1);
    ExpansionCovers(lists, level, in0 + in1, s, l, fs, b, e);
    ExpansionContains(lists[level], in0 + in1, s, l, fs, b, e);
    forall f | f in in0 ensures f in fs { assert f in in0 + in1; }
    assert in0[0] in fs;
    SelectedAre(lists[level], b, e);
    if level > 0 {
      var i, k := SelectedSegment(lists[level], b, e);
    }
    assert FileSet(in0 + in1) + FileSet(fs) == FileSet(fs) + FileSet(in1);
  }

  lemma ExpansionContains(files: seq<FileMeta>, base: seq<FileMeta>, s: InternalKey, l: InternalKey,
                          fs: seq<FileMeta>, b: Option<UserKey>, e: Option<UserKey>)
    requires AllOk(base) && IsSmallest(base, s) && IsLargest(base, l)
    requires fs == Selected(files, b, e) && Contains(b, e, Some(s.user), Some(l.user))
    ensures forall f :: f in base && f in files ==> f in fs
  {
    SelectedAre(files, b, e);
    InHull(base, s, l);
    forall f | f in base && f in files ensures f in fs { OkBounds(f); }
  }

  lemma ExpansionCovers(lists: seq<seq<FileMeta>>, level: nat, base: seq<FileMeta>, s: InternalKey, l: InternalKey,
                        fs: seq<FileMeta>, b: Option<UserKey>, e: Option<UserKey>)
    requires |lists| == NUM_LEVELS && level < NUM_LEVELS && AllOk(lists[level]) && AllOk(base)
    requires Covered(FileSet(base)) && IsSmallest(base, s) && IsLargest(base, l)
    requires fs == Selected(lists[level], b, e) && Contains(b, e, Some(s.user), Some(l.user))
    requires level > 0 ==> b == Some(s.user) && e == Some(l.user)
    requires level == 0 ==> Closed(lists[0], b, e)
    requires forall u :: InRange(u, b, e) && !InRange(u, Some(s.user), Some(l.user)) ==>
      exists f :: f in lists[level] && f.Spans(u)
    ensures Covered(FileSet(base) + FileSet(fs))
  {
    if level > 0 {
      var lo, hi := HullFiles(base, s, l);
      SelectedCovers(lists[level], FileSet(base), lo, hi);
    } else {
      ClosedCovers(lists[0], base, s, l, fs, b, e);
    }
  }

  /** A closed range grown from a gap-free hull, with every file that meets it, is gap-free. */
  lemma ClosedCovers(files: seq<FileMeta>, base: seq<FileMeta>, s: InternalKey, l: InternalKey,
                     fs: seq<FileMeta>, b: Option<UserKey>, e: Option<UserKey>)
    requires AllOk(files) && AllOk(base) && IsSmallest(base, s) && IsLargest(base, l) && Covered(FileSet(base))
    requires fs == Selected(files, b, e) && Contains(b, e, Some(s.user), Some(l.user)) && Closed(files, b, e)
    requires forall u :: InRange(u, b, e) && !InRange(u, Some(s.user), Some(l.user)) ==>
      exists f :: f in files && f.Spans(u)
    ensures Covered(FileSet(base) + FileSet(fs))
  {
    SelectedAre(files, b, e);
    InHull(base, s, l);
    var lo, hi := HullFiles(base, s, l);
    forall u, f, g | f in FileSet(base) + FileSet(fs) && g in FileSet(base) + FileSet(fs) && Between(f, u, g)
      ensures exists h :: h in FileSet(base) + FileSet(fs) && h.Spans(u)
    {
      assert InRange(u, b, e);
      if InRange(u, Some(s.user), Some(l.user)) {
        assert Between(lo, u, hi);
      } else {
        var h :| h in files && h.Spans(u);
        assert Meets(h, b, e);
      }
    }
  }

  lemma InHull(fs: seq<FileMeta>, s: InternalKey, l: InternalKey)
    requires IsSmallest(fs, s) && IsLargest(fs, l)
    ensures forall f :: f in fs ==> s.user <= f.smallest.user && f.largest.user <= l.user
  {
  }

  // ----- PickCompaction -----

  /** A compaction of `level` started from any one of its files (PickCompaction goes by size, by seeks or
      by the compaction pointer). */
  method PickCompaction(lists: seq<seq<FileMeta>>, level: nat, index: nat, roomToExpand: bool)
    returns (in0: seq<FileMeta>, in1: seq<FileMeta>)
    requires ListsOk(lists) && level + 1 < NUM_LEVELS && UniqueIn(lists[level]) && index < |lists[level]|
    ensures lists[level][index] in in0
    ensures InputOrder(lists, level, in0, in1)
    ensures Picked(LevelsOf(lists), level, FileSet(in0), FileSet(in1))
  {
    var files, f := lists[level], lists[level][index];
    var picked := [f];
    OkBounds(f);
    if level == 0 {
      var smallest, largest := GetRange(picked);
      ghost var b, e;
      picked, b, e := GetOverlappingInputs(0, files, Some(smallest.user), Some(largest.user));
      Level0Start(files, f, b, e);
    } else {
      DistinctFiles(files);
      assert Segment(files, picked, index, index + 1);
    }
    in0, in1 := SetupOtherInputs(lists, level, picked, roomToExpand);
  }

  lemma Level0Start(files: seq<FileMeta>, f: FileMeta, b: Option<UserKey>, e: Option<UserKey>)
    requires AllOk(files) && f in files && Closed(files, b, e)
    requires Contains(b, e, Some(f.smallest.user), Some(f.largest.user))
    requires forall u :: InRange(u, b, e) && !InRange(u, Some(f.smallest.user), Some(f.largest.user)) ==>
      exists g :: g in files && g.Spans(u)
    ensures StartOk(files, 0, Selected(files, b, e)) && f in Selected(files, b, e)
  {
    OkBounds(f);
    SelectedAre(files, b, e);
    var fs := Selected(files, b, e);
    forall u, g, h | g in FileSet(fs) && h in FileSet(fs) && Between(g, u, h)
      ensures exists k :: k in FileSet(fs) && k.Spans(u)
    {
      assert Within(g, b, e) && Within(h, b, e) && InRange(u, b, e);
      if f.Spans(u) {
        assert f in FileSet(fs);
      } else {
        var k :| k in files && k.Spans(u);
        assert Meets(k, b, e);
      }
    }
  }
}
