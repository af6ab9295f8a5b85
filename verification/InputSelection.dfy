/** Searching and selecting table files of one level: the loops of version_set.cc over lists of files. */
module InputSelection {
  import opened Wrappers
  import opened Keys
  import opened LsmModel

  ghost predicate AllOk(files: seq<FileMeta>) { forall f :: f in files ==> f.Ok() }

  /** A level above 0: files in key order, ranges disjoint by internal key. */
  ghost predicate Disjoint(files: seq<FileMeta>) {
    forall i, k :: 0 <= i < k < |files| ==> Less(files[i].largest, files[k].smallest)
  }

  lemma OkBounds(f: FileMeta)
    requires f.Ok()
    ensures AtMost(f.smallest, f.largest) && f.smallest.user <= f.largest.user
  {
    if |f.entries| > 1 { assert Less(f.entries[0].key, f.entries[|f.entries| - 1].key); }
  }

  // ----- FindFile -----

  /** The first file whose largest key is at or after `key`. */
  method FindFile(files: seq<FileMeta>, key: InternalKey) returns (right: nat)
    requires AllOk(files) && Disjoint(files)
    ensures right <= |files|
    ensures forall i :: 0 <= i < right ==> Less(files[i].largest, key)
    ensures forall i :: right <= i < |files| ==> !Less(files[i].largest, key)
  {
    var left := 0;
    right := |files|;
    while left < right
      invariant 0 <= left <= right <= |files|
      invariant forall i :: 0 <= i < left ==> Less(files[i].largest, key)
      invariant forall i :: right <= i < |files| ==> !Less(files[i].largest, key)
    {
      var mid := (left + right) / 2;
      if Less(files[mid].largest, key) {
        forall i | 0 <= i < mid ensures Less(files[i].largest, key) { OkBounds(files[mid]); }
        left := mid + 1;
      } else {
        forall i | mid < i < |files| ensures !Less(files[i].largest, key) { OkBounds(files[i]); }
        right := mid;
      }
    }
  }

  // ----- range overlap -----

  /** A possibly half-open range of user keys; None is unbounded. */
  predicate Meets(f: FileMeta, begin: Option<UserKey>, end: Option<UserKey>) {
    && (begin.None? || begin.value <= f.largest.user)
    && (end.None? || f.smallest.user <= end.value)
  }

  method SomeFileOverlapsRange(disjointSorted: bool, files: seq<FileMeta>, smallest: Option<UserKey>,
                               largest: Option<UserKey>)
    returns (overlap: bool)
    requires AllOk(files) && (disjointSorted ==> Disjoint(files))
    ensures overlap <==> exists f :: f in files && Meets(f, smallest, largest)
  {
    if !disjointSorted {
      for i := 0 to |files|
        invariant forall k :: 0 <= k < i ==> !Meets(files[k], smallest, largest)
      {
        var f := files[i];
        assert f in files;
        if (smallest.Some? && smallest.value > f.largest.user) || (largest.Some? && largest.value < f.smallest.user) {
        } else {
          return true;
        }
      }
      return false;
    }
    var index := 0;
    if smallest.Some? {
      index := FindFile(files, InternalKey(smallest.value, MAX_SEQUENCE, KIND_FOR_SEEK));
    }
    if index >= |files| {
      return false;
    }
    overlap := !(largest.Some? && largest.value < files[index].smallest.user);
    forall k | index < k < |files| ensures files[index].smallest.user <= files[k].smallest.user {
      OkBounds(files[index]);
    }
    assert files[index] in files;
  }

  // ----- GetOverlappingInputs -----

  function Selected(files: seq<FileMeta>, begin: Option<UserKey>, end: Option<UserKey>): seq<FileMeta> {
    if files == [] then []
    else
      var front := Selected(files[..|files| - 1], begin, end);
      if Meets(files[|files| - 1], begin, end) then front + [files[|files| - 1]] else front
  }

  /** [b, e] contains [begin, end]; an unbounded side stays unbounded. */
  predicate Contains(b: Option<UserKey>, e: Option<UserKey>, begin: Option<UserKey>, end: Option<UserKey>) {
    && (if begin.None? then b.None? else b.Some? && b.value <= begin.value)
    && (if end.None? then e.None? else e.Some? && end.value <= e.value)
  }

  predicate Within(f: FileMeta, b: Option<UserKey>, e: Option<UserKey>) {
    && (b.None? || b.value <= f.smallest.user)
    && (e.None? || f.largest.user <= e.value)
  }

  /** Every file that meets the range lies inside it. */
  ghost predicate Closed(files: seq<FileMeta>, b: Option<UserKey>, e: Option<UserKey>) {
    forall f :: f in files && Meets(f, b, e) ==> Within(f, b, e)
  }

  predicate InRange(u: UserKey, b: Option<UserKey>, e: Option<UserKey>) {
    (b.None? || b.value <= u) && (e.None? || u <= e.value)
  }

  /** Files that can still move the lower bound b, or the upper bound e: what a restart uses up. */
  function CountBelow(files: seq<FileMeta>, b: UserKey): nat {
    if files == [] then 0
    else CountBelow(files[..|files| - 1], b) + if files[|files| - 1].smallest.user < b then 1 else 0
  }

  function CountAbove(files: seq<FileMeta>, e: UserKey): nat {
    if files == [] then 0
    else CountAbove(files[..|files| - 1], e) + if files[|files| - 1].largest.user > e then 1 else 0
  }

  lemma {:induction false} CountBelowDrops(files: seq<FileMeta>, b: UserKey, b': UserKey)
    requires b' <= b
    ensures CountBelow(files, b') <= CountBelow(files, b)
    ensures (exists f :: f in files && b' <= f.smallest.user < b) ==> CountBelow(files, b') < CountBelow(files, b)
  {
    if files != [] {
      CountBelowDrops(files[..|files| - 1], b, b');
      assert forall f :: f in files ==> f in files[..|files| - 1] || f == files[|files| - 1];
    }
  }

  lemma {:induction false} CountAboveDrops(files: seq<FileMeta>, e: UserKey, e': UserKey)
    requires e <= e'
    ensures CountAbove(files, e') <= CountAbove(files, e)
    ensures (exists f :: f in files && e < f.largest.user <= e') ==> CountAbove(files, e') < CountAbove(files, e)
  {
    if files != [] {
      CountAboveDrops(files[..|files| - 1], e, e');
      assert forall f :: f in files ==> f in files[..|files| - 1] || f == files[|files| - 1];
    }
  }

  function Restarts(files: seq<FileMeta>, b: Option<UserKey>, e: Option<UserKey>): nat {
    (if b.Some? then CountBelow(files, b.value) else 0) + (if e.Some? then CountAbove(files, e.value) else 0)
  }

  /** The files of a level that meet [begin, end]; at level 0, of the least range [b, e] that contains
      [begin, end] and every file meeting it. */
  method GetOverlappingInputs(level: nat, files: seq<FileMeta>, begin: Option<UserKey>, end: Option<UserKey>)
    returns (inputs: seq<FileMeta>, ghost b: Option<UserKey>, ghost e: Option<UserKey>)
    requires AllOk(files)
    ensures inputs == Selected(files, b, e)
    ensures Contains(b, e, begin, end)
    ensures level > 0 ==> b == begin && e == end
    ensures level == 0 ==> Closed(files, b, e)
    ensures level == 0 ==>
      forall b2, e2 :: Contains(b2, e2, begin, end) && Closed(files, b2, e2) ==> Contains(b2, e2, b, e)
    ensures forall u :: InRange(u, b, e) && !InRange(u, begin, end)
              ==> exists f :: f in files && f.Spans(u)
  {
    var userBegin, userEnd := begin, end;
    inputs := [];
    var i := 0;
    while i < |files|
      invariant 0 <= i <= |files|
      invariant Contains(userBegin, userEnd, begin, end)
      invariant level > 0 ==> userBegin == begin && userEnd == end
      invariant inputs == Selected(files[..i], userBegin, userEnd)
      invariant level == 0 ==>
        forall k :: 0 <= k < i && Meets(files[k], userBegin, userEnd) ==> Within(files[k], userBegin, userEnd)
      invariant forall b2, e2 :: Contains(b2, e2, begin, end) && Closed(files, b2, e2) ==>
        Contains(b2, e2, userBegin, userEnd) || level > 0
      invariant forall u :: InRange(u, userBegin, userEnd) && !InRange(u, begin, end)
                  ==> exists f :: f in files && f.Spans(u)
      decreases Restarts(files, userBegin, userEnd), |files| - i
    {
      var f := files[i];
      assert f in files;
      OkBounds(f);
      assert files[..i + 1][..i] == files[..i];
      i := i + 1;
      if userBegin.Some? && f.largest.user < userBegin.value {
      } else if userEnd.Some? && f.smallest.user > userEnd.value {
      } else {
        inputs := inputs + [f];
        if level == 0 {
          if userBegin.Some? && f.smallest.user < userBegin.value {
            CountBelowDrops(files, userBegin.value, f.smallest.user);
            userBegin := Some(f.smallest.user);
            inputs := [];
            i := 0;
          } else if userEnd.Some? && f.largest.user > userEnd.value {
            CountAboveDrops(files, userEnd.value, f.largest.user);
            userEnd := Some(f.largest.user);
            inputs := [];
            i := 0;
          }
        }
      }
    }
    assert files[..|files|] == files;
    b, e := userBegin, userEnd;
  }

  lemma {:induction false} SelectedAre(files: seq<FileMeta>, b: Option<UserKey>, e: Option<UserKey>)
    ensures forall f :: f in Selected(files, b, e) <==> f in files && Meets(f, b, e)
  {
    if files != [] {
      SelectedAre(files[..|files| - 1], b, e);
      assert forall f :: f in files <==> f in files[..|files| - 1] || f == files[|files| - 1];
    }
  }

  // ----- AddBoundaryInputs -----

  /** key is the largest key of the files. */
  ghost predicate IsLargest(files: seq<FileMeta>, key: InternalKey) {
    && (forall f :: f in files ==> AtMost(f.largest, key))
    && exists f :: f in files && f.largest == key
  }

  lemma ExtendLargest(files: seq<FileMeta>, key: InternalKey, f: FileMeta)
    requires IsLargest(files, key)
    ensures IsLargest(files + [f], if Less(key, f.largest) then f.largest else key)
  {
    var g :| g in files && g.largest == key;
    assert g in files + [f] && f in files + [f];
  }

  lemma LargestUnique(files: seq<FileMeta>, a: InternalKey, b: InternalKey)
    requires IsLargest(files, a) && IsLargest(files, b)
    ensures a == b
  {
  }

  method FindLargestKey(files: seq<FileMeta>) returns (largest: Option<InternalKey>)
    ensures largest.None? <==> files == []
    ensures largest.Some? ==> IsLargest(files, largest.value)
  {
    if files == [] {
      return None;
    }
    var key := files[0].largest;
    for i := 1 to |files|
      invariant IsLargest(files[..i], key)
    {
      assert files[..i + 1] == files[..i] + [files[i]];
      ExtendLargest(files[..i], key, files[i]);
      if Compare(files[i].largest, key) > 0 {
        key := files[i].largest;
      }
    }
    assert files[..|files|] == files;
    largest := Some(key);
  }

  /** The first file of the level that continues `key`. */
  ghost predicate FirstContinuing(files: seq<FileMeta>, key: InternalKey, f: FileMeta) {
    f in files && Continues(f, key) && forall g :: g in files && Continues(g, key) ==> AtMost(f.smallest, g.smallest)
  }

  method FindSmallestBoundaryFile(files: seq<FileMeta>, key: InternalKey) returns (boundary: Option<FileMeta>)
    ensures boundary.None? ==> forall f :: f in files ==> !Continues(f, key)
    ensures boundary.Some? ==> FirstContinuing(files, key, boundary.value)
  {
    boundary := None;
    for i := 0 to |files|
      invariant boundary.None? ==> forall f :: f in files[..i] ==> !Continues(f, key)
      invariant boundary.Some? ==> FirstContinuing(files[..i], key, boundary.value)
    {
      var f := files[i];
      assert files[..i + 1] == files[..i] + [f];
      if Compare(f.smallest, key) > 0 && f.smallest.user == key.user {
        if boundary.None? || Less(f.smallest, boundary.value.smallest) {
          boundary := Some(f);
        }
      }
    }
    assert files[..|files|] == files;
  }

  function CountAfter(files: seq<FileMeta>, key: InternalKey): nat {
    if files == [] then 0
    else CountAfter(files[..|files| - 1], key) + if Less(key, files[|files| - 1].smallest) then 1 else 0
  }

  lemma {:induction false} CountAfterDrops(files: seq<FileMeta>, key: InternalKey, key': InternalKey)
    requires AtMost(key, key')
    ensures CountAfter(files, key') <= CountAfter(files, key)
    ensures (exists f :: f in files && Less(key, f.smallest) && AtMost(f.smallest, key')) ==>
      CountAfter(files, key') < CountAfter(files, key)
  {
    if files != [] {
      CountAfterDrops(files[..|files| - 1], key, key');
      assert forall f :: f in files ==> f in files[..|files| - 1] || f == files[|files| - 1];
    }
  }

  /** Each added file is the first one continuing the largest key so far. */
  ghost predicate BoundaryChain(files: seq<FileMeta>, inputs: seq<FileMeta>, added: seq<FileMeta>)
    decreases |added|
  {
    added == [] ||
    var rest := added[..|added| - 1];
    BoundaryChain(files, inputs, rest) &&
    exists key :: IsLargest(inputs + rest, key) && FirstContinuing(files, key, added[|added| - 1])
  }

  lemma ExtendChain(files: seq<FileMeta>, inputs: seq<FileMeta>, added: seq<FileMeta>, key: InternalKey, f: FileMeta)
    requires BoundaryChain(files, inputs, added)
    requires IsLargest(inputs + added, key) && FirstContinuing(files, key, f)
    ensures BoundaryChain(files, inputs, added + [f]) && (inputs + added) + [f] == inputs + (added + [f])
  {
    assert (added + [f])[..|added|] == added;
  }

  /** Files of the level, each new to the inputs and to the files added before it. */
  ghost predicate NewFiles(files: seq<FileMeta>, inputs: seq<FileMeta>, added: seq<FileMeta>) {
    forall i :: 0 <= i < |added| ==> added[i] in files && added[i] !in inputs && added[i] !in added[..i]
  }

  lemma NoneAdded(files: seq<FileMeta>, inputs: seq<FileMeta>)
    ensures BoundaryChain(files, inputs, []) && NewFiles(files, inputs, []) && inputs + [] == inputs
  {
  }

  lemma OneMoreNew(files: seq<FileMeta>, inputs: seq<FileMeta>, added: seq<FileMeta>, f: FileMeta)
    requires NewFiles(files, inputs, added) && f in files && f !in inputs + added
    ensures NewFiles(files, inputs, added + [f])
  {
    var more := added + [f];
    forall i | 0 <= i < |more| ensures more[i] in files && more[i] !in inputs && more[i] !in more[..i] {
      if i < |added| { assert more[..i] == added[..i]; } else { assert more[..i] == added; }
    }
  }

  lemma NotYetIn(files: seq<FileMeta>, key: InternalKey, f: FileMeta)
    requires IsLargest(files, key) && f.Ok() && Less(key, f.smallest)
    ensures f !in files
  {
    OkBounds(f);
  }

  method AddBoundaryInputs(files: seq<FileMeta>, inputs: seq<FileMeta>)
    returns (result: seq<FileMeta>, ghost added: seq<FileMeta>)
    requires AllOk(files) && AllOk(inputs)
    ensures result == inputs + added && BoundaryChain(files, inputs, added)
    ensures forall key, f :: IsLargest(result, key) && f in files ==> !Continues(f, key)
    ensures NewFiles(files, inputs, added)
  {
    hide BoundaryChain, NewFiles;
    result, added := inputs, [];
    NoneAdded(files, inputs);
    var largest := FindLargestKey(inputs);
    if largest.None? {
      return;
    }
    var key := largest.value;
    var searching := true;
    while searching
      invariant result == inputs + added && BoundaryChain(files, inputs, added)
      invariant IsLargest(result, key)
      invariant NewFiles(files, inputs, added)
      invariant !searching ==> forall f :: f in files ==> !Continues(f, key)
      decreases searching, CountAfter(files, key)
    {
      var boundary := FindSmallestBoundaryFile(files, key);
      if boundary.Some? {
        var f := boundary.value;
        OkBounds(f);
        CountAfterDrops(files, key, f.largest);
        ExtendLargest(result, key, f);
        ExtendChain(files, inputs, added, key, f);
        NotYetIn(result, key, f);
        OneMoreNew(files, inputs, added, f);
        result, added := result + [f], added + [f];
        key := f.largest;
      } else {
        searching := false;
      }
    }
    forall k | IsLargest(result, k) ensures k == key { LargestUnique(result, k, key); }
  }

  // ----- GetRange -----

  ghost predicate IsSmallest(files: seq<FileMeta>, key: InternalKey) {
    && (forall f :: f in files ==> AtMost(key, f.smallest))
    && exists f :: f in files && f.smallest == key
  }

  lemma ExtendSmallest(files: seq<FileMeta>, key: InternalKey, f: FileMeta)
    requires IsSmallest(files, key)
    ensures IsSmallest(files + [f], if Less(f.smallest, key) then f.smallest else key)
  {
    var g :| g in files && g.smallest == key;
    assert g in files + [f] && f in files + [f];
  }

  method GetRange(inputs: seq<FileMeta>) returns (smallest: InternalKey, largest: InternalKey)
    requires inputs != []
    ensures IsSmallest(inputs, smallest) && IsLargest(inputs, largest)
  {
    smallest, largest := inputs[0].smallest, inputs[0].largest;
    for i := 1 to |inputs|
      invariant IsSmallest(inputs[..i], smallest) && IsLargest(inputs[..i], largest)
    {
      var f := inputs[i];
      assert inputs[..i + 1] == inputs[..i] + [f];
      ExtendLargest(inputs[..i], largest, f);
      ExtendSmallest(inputs[..i], smallest, f);
      if Less(f.smallest, smallest) {
        smallest := f.smallest;
      }
      if Less(largest, f.largest) {
        largest := f.largest;
      }
    }
    assert inputs[..|inputs|] == inputs;
  }
}
