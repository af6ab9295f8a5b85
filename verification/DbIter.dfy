/** DBIter: a cursor over what a reader sees, driven by a cursor over all internal keys. */
module DbIter {
  import opened Wrappers
  import opened Keys
  import opened Reads
  import opened Cursors
  import opened LsmModel

  // ----- what a reader sees -----

  ghost predicate Seen(run: seq<Entry>, s: nat, i: nat)
    requires i < |run|
  {
    run[i].key.num <= s
  }

  /** Entry i shows: the newest entry of its user key at s, and a value. */
  ghost predicate Shows(run: seq<Entry>, s: nat, i: nat)
    requires i < |run|
  {
    && Seen(run, s, i) && run[i].key.kind == Put
    && forall k :: 0 <= k < i && run[k].key.user == run[i].key.user ==> !Seen(run, s, k)
  }

  /** The shown entries among the first n. */
  ghost function View(run: seq<Entry>, s: nat, n: nat): seq<Entry>
    requires n <= |run|
  {
    if n == 0 then [] else View(run, s, n - 1) + if Shows(run, s, n - 1) then [run[n - 1]] else []
  }

  lemma {:induction false} ViewPrefix(run: seq<Entry>, s: nat, m: nat, n: nat)
    requires m <= n <= |run|
    ensures View(run, s, m) <= View(run, s, n)
    ensures (forall i :: m <= i < n ==> !Shows(run, s, i)) ==> View(run, s, m) == View(run, s, n)
    ensures m < |run| && Shows(run, s, m) && m < n ==>
      |View(run, s, m)| < |View(run, s, n)| && View(run, s, n)[|View(run, s, m)|] == run[m]
    decreases n
  {
    if m < n {
      ViewPrefix(run, s, m, n - 1);
      var front := View(run, s, n - 1);
      assert View(run, s, n) == front + if Shows(run, s, n - 1) then [run[n - 1]] else [];
      assert forall i :: 0 <= i < |front| ==> View(run, s, n)[i] == front[i];
    }
  }

  lemma {:induction false} ViewHolds(run: seq<Entry>, s: nat, n: nat, e: Entry)
    requires n <= |run|
    ensures e in View(run, s, n) <==> exists i :: 0 <= i < n && run[i] == e && Shows(run, s, i)
  {
    if n > 0 {
      ViewHolds(run, s, n - 1, e);
      if i :| 0 <= i < n && run[i] == e && Shows(run, s, i) {
        if i < n - 1 { assert Shows(run, s, i); }
      }
    }
  }

  lemma ShowsIsNewest(run: seq<Entry>, s: nat, i: nat)
    requires Sorted(run) && UniqueNumbers(SeqSet(run)) && i < |run|
    ensures Shows(run, s, i) <==> IsNewest(SeqSet(run), run[i].key.user, s, run[i]) && run[i].key.kind == Put
  {
    var e := run[i];
    assert e in SeqSet(run);
    forall k | 0 <= k < |run| && run[k].key.user == e.key.user ensures k < i <==> run[k].key.num > e.key.num {
      assert run[k] in SeqSet(run);
      LessIsIndex(run, k, i);
      LessIsIndex(run, i, k);
    }
    if Shows(run, s, i) {
      forall x | x in SeqSet(run) && x.key.user == e.key.user && x.key.num <= s ensures x.key.num <= e.key.num {
        var k :| 0 <= k < |run| && run[k] == x;
        assert x.key.num > e.key.num ==> k < i;
      }
    }
    if IsNewest(SeqSet(run), e.key.user, s, e) {
      forall k | 0 <= k < i && run[k].key.user == e.key.user ensures !Seen(run, s, k) {
        assert run[k] in SeqSet(run);
      }
    }
  }

  /** The view is the user-visible map: in key order, and holding u with value v exactly when a read of u gives v. */
  lemma ViewIsReads(run: seq<Entry>, s: nat, u: UserKey, v: Value)
    requires Sorted(run) && UniqueNumbers(SeqSet(run))
    ensures (exists e :: e in View(run, s, |run|) && e.key.user == u && e.value == v) <==>
      Answers(SeqSet(run), u, s, Some(v))
  {
    if e :| e in View(run, s, |run|) && e.key.user == u && e.value == v {
      ViewHolds(run, s, |run|, e);
      var i :| 0 <= i < |run| && run[i] == e && Shows(run, s, i);
      ShowsIsNewest(run, s, i);
    }
    if Answers(SeqSet(run), u, s, Some(v)) {
      var e :| IsNewest(SeqSet(run), u, s, e) && e.key.kind == Put && e.value == v;
      var i :| 0 <= i < |run| && run[i] == e;
      ShowsIsNewest(run, s, i);
      ViewHolds(run, s, |run|, e);
    }
  }

  lemma {:induction false} ViewInOrder(run: seq<Entry>, s: nat, n: nat)
    requires Sorted(run) && n <= |run|
    ensures forall a, b :: 0 <= a < b < |View(run, s, n)| ==> View(run, s, n)[a].key.user < View(run, s, n)[b].key.user
  {
    if n > 0 {
      ViewInOrder(run, s, n - 1);
      var front := View(run, s, n - 1);
      if Shows(run, s, n - 1) {
        forall a | 0 <= a < |front| ensures front[a].key.user < run[n - 1].key.user {
          ViewHolds(run, s, n - 1, front[a]);
          var i :| 0 <= i < n - 1 && run[i] == front[a] && Shows(run, s, i);
          LessIsIndex(run, i, n - 1);
        }
      }
    }
  }

  lemma UsersInOrder(run: seq<Entry>, i: nat, k: nat)
    requires Sorted(run) && i <= k < |run|
    ensures run[i].key.user <= run[k].key.user
  {
    LessIsIndex(run, i, k);
  }

  lemma RankPasses(run: seq<Entry>, s: nat, i: nat, r: nat)
    requires i < r <= |run| && Shows(run, s, i) && forall j :: i < j < r ==> !Shows(run, s, j)
    ensures |View(run, s, r)| == |View(run, s, i)| + 1
  {
    ViewPrefix(run, s, i + 1, r);
  }

  // ----- scanning forward -----

  datatype Skip = Skip(on: bool, upTo: UserKey)

  /** The scan skips entries of user key u. */
  predicate Skipped(skip: Skip, u: UserKey) { skip.on && u <= skip.upTo }

  /** From q on: an entry that an earlier visible one hides is skipped, and no visible key is before the skipped one. */
  ghost predicate SkipsHidden(run: seq<Entry>, s: nat, q: nat, skip: Skip) {
    && (forall i, k :: 0 <= k < q <= i < |run| && run[k].key.user == run[i].key.user && Seen(run, s, k)
                       ==> Skipped(skip, run[i].key.user))
    && (skip.on ==> forall i :: q <= i < |run| && Seen(run, s, i) ==> skip.upTo <= run[i].key.user)
  }

  /** Entry i shows, and its key is past what the caller asked to skip. */
  ghost predicate Wanted(run: seq<Entry>, s: nat, i: nat, skip: Skip)
    requires i < |run|
  {
    Shows(run, s, i) && !Skipped(skip, run[i].key.user)
  }

  /** The scan from `from`, asked to skip `asked`, has reached q and now skips `now`. */
  ghost predicate Scan(run: seq<Entry>, s: nat, from: nat, asked: Skip, q: nat, now: Skip) {
    && from <= q <= |run| && SkipsHidden(run, s, q, now)
    && (asked.on ==> now.on && asked.upTo <= now.upTo)
    && (forall i :: from <= i < q ==> !Wanted(run, s, i, asked))
    && (forall i :: q <= i < |run| && Skipped(now, run[i].key.user) ==> !Wanted(run, s, i, asked))
  }

  /** A visible deletion marker: its key is skipped from now on. */
  lemma ScanMarker(run: seq<Entry>, s: nat, from: nat, asked: Skip, q: nat, now: Skip)
    requires Sorted(run) && Scan(run, s, from, asked, q, now) && q < |run|
    requires Seen(run, s, q) && run[q].key.kind == Deletion
    ensures Scan(run, s, from, asked, q + 1, Skip(true, run[q].key.user))
  {
    forall i | q < i < |run| ensures run[q].key.user <= run[i].key.user { UsersInOrder(run, q, i); }
    forall i, k | 0 <= k < q + 1 <= i < |run| && run[k].key.user == run[i].key.user && Seen(run, s, k)
      ensures run[i].key.user <= run[q].key.user
    {
      UsersInOrder(run, k, q);
    }
  }

  /** An entry the snapshot cannot see, or one of the skipped key. */
  lemma ScanPast(run: seq<Entry>, s: nat, from: nat, asked: Skip, q: nat, now: Skip)
    requires Sorted(run) && Scan(run, s, from, asked, q, now) && q < |run|
    requires !Seen(run, s, q) || (run[q].key.kind == Put && Skipped(now, run[q].key.user))
    ensures Scan(run, s, from, asked, q + 1, now)
  {
  }

  lemma ScanHit(run: seq<Entry>, s: nat, from: nat, asked: Skip, q: nat, now: Skip)
    requires Scan(run, s, from, asked, q, now) && q < |run|
    requires Seen(run, s, q) && run[q].key.kind == Put && !Skipped(now, run[q].key.user)
    ensures Wanted(run, s, q, asked)
  {
  }

  /** After entry i, nothing up to r shows when nothing up to r past i's key is wanted. */
  lemma NextShown(run: seq<Entry>, s: nat, i: nat, from: nat, r: nat)
    requires Sorted(run) && i < |run| && Shows(run, s, i) && from <= i + 1 && from <= r <= |run|
    requires forall j :: from <= j < r ==> !Wanted(run, s, j, Skip(true, run[i].key.user))
    requires r < |run| ==> Wanted(run, s, r, Skip(true, run[i].key.user))
    ensures |View(run, s, r)| == |View(run, s, i)| + 1
  {
    if r <= i { UsersInOrder(run, r, i); }
    forall j | i < j < r ensures !Shows(run, s, j) {
      UsersInOrder(run, i, j);
      assert !Wanted(run, s, j, Skip(true, run[i].key.user)) && Seen(run, s, i);
    }
    RankPasses(run, s, i, r);
  }

  lemma NoneShown(run: seq<Entry>, s: nat, from: nat, r: nat, skip: UserKey)
    requires r <= |run| && forall i :: from <= i < r ==> !Wanted(run, s, i, Skip(false, skip))
    ensures forall i :: from <= i < r ==> !Shows(run, s, i)
  {
    forall i | from <= i < r ensures !Shows(run, s, i) { assert !Wanted(run, s, i, Skip(false, skip)); }
  }

  /** Where Seek starts, nothing is hidden by an entry before it, and nothing before it shows a key from target on. */
  lemma SeekHidesNothing(run: seq<Entry>, s: SeqNo, target: UserKey)
    requires Sorted(run)
    ensures var q := SeekFrom(run, LookupKey(target, s), 0);
            && SkipsHidden(run, s, q, Skip(false, 0.0))
            && (forall i :: 0 <= i < q && run[i].key.user >= target ==> !Shows(run, s, i))
            && (forall i :: q <= i < |run| ==> run[i].key.user >= target)
  {
    SeekSplits(run, LookupKey(target, s));
  }

  /** The view splits at r into keys below target and keys from target on. */
  lemma ViewSplits(run: seq<Entry>, s: SeqNo, target: UserKey, q: nat, r: nat)
    requires Sorted(run) && q <= r <= |run|
    requires forall i :: 0 <= i < q && run[i].key.user >= target ==> !Shows(run, s, i)
    requires forall i :: q <= i < |run| ==> run[i].key.user >= target
    requires forall i :: q <= i < r ==> !Shows(run, s, i)
    ensures var all := View(run, s, |run|);
            forall k :: 0 <= k < |all| ==> (k < |View(run, s, r)| <==> all[k].key.user < target)
  {
    var all, below := View(run, s, |run|), View(run, s, r);
    ViewPrefix(run, s, r, |run|);
    forall k | 0 <= k < |all| ensures k < |below| <==> all[k].key.user < target {
      ViewHolds(run, s, |run|, all[k]);
      var i :| 0 <= i < |run| && run[i] == all[k] && Shows(run, s, i);
      ShownOnce(run, s, i, k);
      if i < r { ViewPrefix(run, s, i, r); } else { ViewPrefix(run, s, r, i); }
    }
  }

  /** Where Seek stops, having passed only entries it does not want, the view splits at target. */
  lemma SeekLands(run: seq<Entry>, s: SeqNo, target: UserKey, r: nat)
    requires Sorted(run)
    requires SeekFrom(run, LookupKey(target, s), 0) <= r <= |run|
    requires forall i :: SeekFrom(run, LookupKey(target, s), 0) <= i < r ==> !Wanted(run, s, i, Skip(false, 0.0))
    ensures var all := View(run, s, |run|);
            |View(run, s, r)| <= |all|
              && forall k :: 0 <= k < |all| ==> (k < |View(run, s, r)| <==> all[k].key.user < target)
  {
    var q := SeekFrom(run, LookupKey(target, s), 0);
    SeekHidesNothing(run, s, target);
    NoneShown(run, s, q, r, 0.0);
    ViewPrefix(run, s, r, |run|);
    ViewSplits(run, s, target, q, r);
  }

  /** An entry that shows is in the view at its rank and nowhere else. */
  lemma ShownOnce(run: seq<Entry>, s: nat, i: nat, k: nat)
    requires Sorted(run) && i < |run| && Shows(run, s, i) && k < |View(run, s, |run|)|
      && View(run, s, |run|)[k] == run[i]
    ensures k == |View(run, s, i)|
  {
    ViewPrefix(run, s, i, |run|);
    ViewInOrder(run, s, |run|);
  }

  // ----- scanning backward -----

  /** The candidate of a backward scan: none yet, or entry i. */
  ghost predicate Candidate(run: seq<Entry>, s: nat, m: nat, n: nat, i: Option<nat>) {
    && m <= n <= |run|
    && match i
       case None => forall j :: m <= j < n ==> !Shows(run, s, j)
       case Some(i) =>
         && m <= i < n && Seen(run, s, i) && run[i].key.kind == Put
         && (forall k :: m <= k < i ==> !Seen(run, s, k))
         && (forall j :: i < j < n ==> !Shows(run, s, j))
  }

  /** The last entry that shows among the first n. */
  ghost predicate LastShown(run: seq<Entry>, s: nat, n: nat, i: Option<nat>) {
    && n <= |run| && (i.Some? ==> i.value < n && Shows(run, s, i.value))
    && forall j :: (if i.Some? then i.value + 1 else 0) <= j < n ==> !Shows(run, s, j)
  }

  /** One visible entry further back. */
  lemma CandidateBack(run: seq<Entry>, s: nat, m: nat, n: nat, i: Option<nat>)
    requires Sorted(run) && 0 < m && Candidate(run, s, m, n, i) && Seen(run, s, m - 1)
    requires i.Some? ==> run[m - 1].key.user == run[i.value].key.user
    ensures Candidate(run, s, m - 1, n, if run[m - 1].key.kind == Put then Some(m - 1) else None)
  {
  }

  lemma NoCandidate(run: seq<Entry>, s: nat, m: nat, n: nat)
    requires m == 0 && Candidate(run, s, m, n, None)
    ensures LastShown(run, s, n, None)
  {
  }

  lemma CandidateShows(run: seq<Entry>, s: nat, m: nat, n: nat, i: nat)
    requires Sorted(run) && Candidate(run, s, m, n, Some(i))
    requires m > 0 ==> run[m - 1].key.user < run[i].key.user
    ensures Shows(run, s, i)
  {
    forall k | 0 <= k < m ensures run[k].key.user < run[i].key.user { UsersInOrder(run, k, m - 1); }
  }

  // ----- the iterator -----

  datatype Direction = Forward | Reverse

  class DBIter {
    const run: seq<Entry>
    const sequence: SeqNo
    var iter: Cursor
    var direction: Direction
    var valid: bool
    var savedKey: UserKey
    var savedValue: Value
    ghost var at: nat // position in the view; its length when not valid

    ghost function All(): seq<Entry> { View(run, sequence, |run|) }

    /** The position in the view that entry i of the run has, or would have. */
    ghost function Rank(i: nat): nat
      requires i <= |run|
    {
      |View(run, sequence, i)|
    }

    constructor (run: seq<Entry>, sequence: SeqNo)
      requires Sorted(run)
      ensures Ok() && this.run == run && this.sequence == sequence && at == |All()|
    {
      this.run, this.sequence := run, sequence;
      iter, direction, valid, savedKey, savedValue := Cursor(run, |run|), Forward, false, 0.0, [];
      at := |View(run, sequence, |run|)|;
    }

    /** How many entries the cursor has at or before it. */
    ghost function Behind(): nat
      reads this
    {
      if iter.Valid() then iter.pos + 1 else 0
    }

    /** In reverse: entry i is saved, and the cursor is before all of its key's entries with nothing visible between. */
    ghost predicate SavedIs(i: nat)
      requires iter.run == run
      reads this
    {
      && Behind() <= i < |run| && Shows(run, sequence, i)
      && savedKey == run[i].key.user && savedValue == run[i].value
      && (iter.Valid() ==> iter.Here().key.user < savedKey)
      && forall k :: Behind() <= k < i ==> !Seen(run, sequence, k)
    }

    ghost predicate Ok()
      reads this
    {
      && Sorted(run) && iter.run == run && (valid <==> at < |All()|) && at <= |All()|
      && (valid && direction == Forward ==>
            iter.Valid() && Shows(run, sequence, iter.pos) && at == Rank(iter.pos))
      && (valid && direction == Reverse ==> exists i :: SavedIs(i) && at == Rank(i))
    }

    predicate Valid()
      requires Ok()
      reads this
      ensures Valid() <==> at < |All()|
    {
      valid
    }

    function Key(): (u: UserKey)
      requires Ok() && Valid()
      reads this
      ensures u == All()[at].key.user
    {
      ShownThere();
      if direction == Forward then iter.Here().key.user else savedKey
    }

    function Val(): (v: Value)
      requires Ok() && Valid()
      reads this
      ensures v == All()[at].value
    {
      ShownThere();
      if direction == Forward then iter.Here().value else savedValue
    }

    /** The entry of the run the iterator stands for. */
    lemma ShownIndex() returns (i: nat)
      requires Ok() && valid
      ensures i < |run| && Shows(run, sequence, i) && at == Rank(i)
      ensures if direction == Forward then iter.Valid() && i == iter.pos else SavedIs(i)
    {
      if direction == Forward {
        i := iter.pos;
      } else {
        i :| SavedIs(i) && at == Rank(i);
      }
    }

    lemma ShownThere()
      requires Ok() && valid
      ensures direction == Forward ==> All()[at] == iter.Here()
      ensures direction == Reverse ==> All()[at].key.user == savedKey && All()[at].value == savedValue
    {
      var i := ShownIndex();
      ViewPrefix(run, sequence, i, |run|);
    }

    // ----- forward -----

    /** Moves to the first shown entry from here on, past `skip` when skipping. */
    method FindNextUserEntry(skipping: bool, skip: UserKey)
      requires Sorted(run) && iter.run == run && iter.Valid() && direction == Forward
      requires SkipsHidden(run, sequence, iter.pos, Skip(skipping, skip))
      modifies `iter, `valid, `savedKey, `at
      ensures Ok() && old(iter.pos) <= iter.pos <= |run| && at == Rank(iter.pos)
      ensures forall i :: old(iter.pos) <= i < iter.pos ==> !Wanted(run, sequence, i, Skip(skipping, skip))
      ensures iter.pos < |run| ==> Wanted(run, sequence, iter.pos, Skip(skipping, skip))
    {
      ghost var from := iter.pos;
      var skippingNow, skipNow := skipping, skip;
      while iter.Valid()
        invariant iter.run == run
          && Scan(run, sequence, from, Skip(skipping, skip), iter.pos, Skip(skippingNow, skipNow))
        decreases |run| - iter.pos
      {
        var e := iter.Here();
        if e.key.num <= sequence && e.key.kind == Deletion {
          ScanMarker(run, sequence, from, Skip(skipping, skip), iter.pos, Skip(skippingNow, skipNow));
          skippingNow, skipNow := true, e.key.user;
        } else if e.key.num <= sequence && !(skippingNow && e.key.user <= skipNow) {
          ScanHit(run, sequence, from, Skip(skipping, skip), iter.pos, Skip(skippingNow, skipNow));
          ViewPrefix(run, sequence, iter.pos, |run|);
          valid, savedKey := true, 0.0;
          at := Rank(iter.pos);
          return;
        } else {
          ScanPast(run, sequence, from, Skip(skipping, skip), iter.pos, Skip(skippingNow, skipNow));
        }
        iter := iter.Next();
      }
      savedKey, valid := 0.0, false;
      at := Rank(|run|);
    }

    method Next()
      requires Ok() && Valid()
      modifies this
      ensures Ok() && at == old(at) + 1
    {
      ghost var i := ShownIndex();
      if direction == Reverse {
        direction := Forward;
        iter := if !iter.Valid() then iter.SeekToFirst() else iter.Next();
      } else {
        savedKey := iter.Here().key.user;
        iter := iter.Next();
      }
      ghost var from := iter.pos;
      if iter.Valid() {
        SkipsThisKey(i, from);
        FindNextUserEntry(true, savedKey);
      } else {
        valid, savedKey := false, 0.0;
        at := Rank(|run|);
      }
      NextShown(run, sequence, i, from, iter.pos);
    }

    /** From just after entry i, or from before its key, skipping its key skips all that it hides. */
    lemma SkipsThisKey(i: nat, from: nat)
      requires Sorted(run) && i < |run| && Shows(run, sequence, i) && from <= i + 1
      requires forall k :: from <= k < i ==> !Seen(run, sequence, k)
      requires 0 < from <= i ==> run[from - 1].key.user < run[i].key.user
      ensures SkipsHidden(run, sequence, from, Skip(true, run[i].key.user))
    {
      forall j, k | 0 <= k < from <= j < |run| && run[k].key.user == run[j].key.user
        ensures run[j].key.user <= run[i].key.user
      {
        UsersInOrder(run, k, if from <= i then from - 1 else i);
      }
      forall j | from <= j < |run| && Seen(run, sequence, j) ensures run[i].key.user <= run[j].key.user {
        if j >= i { UsersInOrder(run, i, j); }
      }
    }

    method SeekToFirst()
      requires Ok()
      modifies this
      ensures Ok() && at == 0
    {
      direction, savedValue := Forward, [];
      iter := iter.SeekToFirst();
      if iter.Valid() {
        ghost var skip := savedKey;
        FindNextUserEntry(false, savedKey);
        NoneShown(run, sequence, 0, iter.pos, skip);
        ViewPrefix(run, sequence, 0, iter.pos);
      } else {
        valid, at := false, 0;
      }
    }

    /** Lands on the first shown key at or after target. */
    method Seek(target: UserKey)
      requires Ok()
      modifies this
      ensures Ok() && at <= |All()| && forall k :: 0 <= k < |All()| ==> (k < at <==> All()[k].key.user < target)
    {
      direction, savedValue, savedKey := Forward, [], 0.0;
      iter := iter.Seek(LookupKey(target, sequence));
      SeekHidesNothing(run, sequence, target);
      if iter.Valid() {
        FindNextUserEntry(false, savedKey);
      } else {
        valid := false;
        at := Rank(|run|);
      }
      SeekLands(run, sequence, target, iter.pos);
    }

    // ----- reverse -----

    /** Saves the last shown entry at or before the cursor. */
    method FindPrevUserEntry() returns (ghost i: Option<nat>)
      requires Sorted(run) && iter.run == run && direction == Reverse
      modifies this
      ensures Ok() && (valid <==> i.Some?) && LastShown(run, sequence, old(Behind()), i)
      ensures at == if i.Some? then Rank(i.value) else |All()|
    {
      hide Candidate, Shows, Seen, View;
      ghost var n := Behind();
      var valueType;
      valueType, i := ScanBack();
      if valueType == Deletion {
        NoCandidate(run, sequence, Behind(), n);
        valid, savedKey, savedValue, direction := false, 0.0, [], Forward;
        at := |All()|;
      } else {
        valid := true;
        CandidateShows(run, sequence, Behind(), n, i.value);
        CandidateIsSaved(i.value, n);
        ViewPrefix(run, sequence, i.value, |run|);
        at := Rank(i.value);
      }
    }

    /** The loop: back over the entries of one user key, keeping the newest visible value. */
    method ScanBack() returns (valueType: Kind, ghost i: Option<nat>)
      requires Sorted(run) && iter.run == run
      modifies `iter, `savedKey, `savedValue
      ensures iter.run == run && Candidate(run, sequence, Behind(), old(Behind()), i)
      ensures valueType == (if i.Some? then Put else Deletion) && (valueType == Deletion ==> Behind() == 0)
      ensures i.Some? ==> savedKey == run[i.value].key.user && savedValue == run[i.value].value
      ensures i.Some? && iter.Valid() ==> iter.Here().key.user < savedKey
    {
      ghost var n := Behind();
      valueType, i := Deletion, None;
      while iter.Valid()
        invariant iter.run == run && Candidate(run, sequence, Behind(), n, i)
        invariant valueType == (if i.Some? then Put else Deletion)
        invariant i.Some? ==> savedKey == run[i.value].key.user && savedValue == run[i.value].value
        decreases Behind()
      {
        var e := iter.Here();
        if e.key.num <= sequence {
          if valueType != Deletion && e.key.user < savedKey {
            break;
          }
          if i.Some? { UsersInOrder(run, iter.pos, i.value); }
          CandidateBack(run, sequence, Behind(), n, i);
          valueType := e.key.kind;
          if valueType == Deletion {
            savedKey, savedValue := 0.0, [];
            i := None;
          } else {
            savedKey, savedValue := e.key.user, e.value;
            i := Some(iter.pos);
          }
        }
        iter := iter.Prev();
      }
    }

    lemma CandidateIsSaved(i: nat, n: nat)
      requires iter.run == run && Candidate(run, sequence, Behind(), n, Some(i)) && Shows(run, sequence, i)
      requires savedKey == run[i].key.user && savedValue == run[i].value
        && (iter.Valid() ==> iter.Here().key.user < savedKey)
      ensures SavedIs(i) && LastShown(run, sequence, n, Some(i))
    {
    }

    method Prev()
      requires Ok() && Valid()
      modifies this
      ensures Ok() && at == if old(at) == 0 then |All()| else old(at) - 1
    {
      ghost var i := ShownIndex();
      if direction == Forward {
        savedKey := iter.Here().key.user;
        while true
          invariant iter.run == run && iter.Valid() && iter.pos <= i
          invariant forall k :: iter.pos <= k <= i ==> run[k].key.user == savedKey
          decreases iter.pos
        {
          iter := iter.Prev();
          if !iter.Valid() {
            valid, savedKey, savedValue := false, 0.0, [];
            at := |All()|;
            ViewPrefix(run, sequence, 0, i);
            return;
          }
          if iter.Here().key.user < savedKey {
            break;
          }
          UsersInOrder(run, iter.pos, i);
        }
        direction := Reverse;
      }
      ghost var p := FindPrevUserEntry();
      if p.Some? {
        RankPasses(run, sequence, p.value, i);
      } else {
        ViewPrefix(run, sequence, 0, i);
      }
    }

    method SeekToLast()
      requires Ok()
      modifies this
      ensures Ok() && at == if |All()| == 0 then 0 else |All()| - 1
    {
      direction, savedValue := Reverse, [];
      iter := iter.SeekToLast();
      ghost var p := FindPrevUserEntry();
      if p.Some? {
        RankPasses(run, sequence, p.value, |run|);
      } else {
        ViewPrefix(run, sequence, 0, |run|);
      }
    }
  }
}
