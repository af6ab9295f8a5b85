/** MergingIterator: a cursor over the sorted union of its children, whatever mix of calls moves it. */
module Merger {
  import opened Wrappers
  import opened Keys
  import opened Cursors

  datatype Direction = Forward | Reverse

  /** merged is the sorted union of the runs, and no key is in two of them. */
  ghost predicate MergeOf(merged: seq<Entry>, runs: seq<seq<Entry>>) {
    && Sorted(merged)
    && (forall i :: 0 <= i < |runs| ==> Sorted(runs[i]) && forall e :: e in runs[i] ==> e in merged)
    && (forall e :: e in merged ==> exists i :: 0 <= i < |runs| && e in runs[i])
    && (forall i, k, e :: 0 <= i < k < |runs| && e in runs[i] ==> e !in runs[k])
  }

  /** How many entries of a run lie before position p of the union. */
  function CutAt(run: seq<Entry>, merged: seq<Entry>, p: nat): (c: nat)
    requires p <= |merged|
    ensures c <= |run|
  {
    if p == |merged| then |run| else SeekFrom(run, merged[p].key, 0)
  }

  /** e is among the entries before position p. */
  predicate Below(merged: seq<Entry>, p: nat, e: Entry)
    requires p <= |merged|
  {
    p == |merged| || Less(e.key, merged[p].key)
  }

  lemma CutSplits(run: seq<Entry>, merged: seq<Entry>, p: nat)
    requires Sorted(run) && p <= |merged|
    ensures forall k :: 0 <= k < |run| ==> (k < CutAt(run, merged, p) <==> Below(merged, p, run[k]))
  {
    if p < |merged| { SeekSplits(run, merged[p].key); }
  }

  lemma CutUnique(run: seq<Entry>, merged: seq<Entry>, p: nat, c: nat)
    requires Sorted(run) && p <= |merged| && c <= |run|
    requires forall k :: 0 <= k < |run| ==> (k < c <==> Below(merged, p, run[k]))
    ensures c == CutAt(run, merged, p)
  {
    CutSplits(run, merged, p);
    var d := CutAt(run, merged, p);
    var k := if c < d then c else d;
    if k < |run| { assert (k < c <==> Below(merged, p, run[k])) && (k < d <==> Below(merged, p, run[k])); }
  }

  lemma BelowIsIndex(merged: seq<Entry>, p: nat, m: nat)
    requires Sorted(merged) && p <= |merged| && m < |merged|
    ensures Below(merged, p, merged[m]) <==> m < p
  {
    if p < |merged| { LessIsIndex(merged, m, p); }
  }

  lemma BelowStep(merged: seq<Entry>, p: nat, e: Entry)
    requires Sorted(merged) && p < |merged| && e in merged
    ensures Below(merged, p + 1, e) <==> Below(merged, p, e) || e == merged[p]
  {
    var m :| 0 <= m < |merged| && merged[m] == e;
    BelowIsIndex(merged, p, m);
    BelowIsIndex(merged, p + 1, m);
    BelowIsIndex(merged, p, p);
  }

  /** Passing merged[p] moves the cut of the run that holds it, and no other. */
  lemma CutStep(run: seq<Entry>, merged: seq<Entry>, p: nat)
    requires Sorted(run) && Sorted(merged) && p < |merged| && forall e :: e in run ==> e in merged
    ensures var c := CutAt(run, merged, p);
            if merged[p] in run then c < |run| && run[c] == merged[p] && CutAt(run, merged, p + 1) == c + 1
            else CutAt(run, merged, p + 1) == c
  {
    var c := CutAt(run, merged, p);
    CutSplits(run, merged, p);
    forall k | 0 <= k < |run| ensures Below(merged, p + 1, run[k]) <==> k < c || run[k] == merged[p] {
      BelowStep(merged, p, run[k]);
    }
    if merged[p] in run {
      CutHolds(run, merged, p);
      CutUnique(run, merged, p + 1, c + 1);
    } else {
      CutUnique(run, merged, p + 1, c);
    }
  }

  lemma CutHolds(run: seq<Entry>, merged: seq<Entry>, p: nat)
    requires Sorted(run) && p < |merged| && merged[p] in run
    ensures var c := CutAt(run, merged, p);
            c < |run| && run[c] == merged[p] && forall k :: 0 <= k < |run| && run[k] == merged[p] ==> k == c
  {
    var c := CutAt(run, merged, p);
    CutSplits(run, merged, p);
    forall k | 0 <= k < |run| && run[k] == merged[p] ensures k == c {
      assert !Below(merged, p, run[k]);
      LessIsIndex(run, c, k);
    }
  }

  lemma SeekIsCut(run: seq<Entry>, merged: seq<Entry>, target: InternalKey)
    requires Sorted(run) && Sorted(merged) && forall e :: e in run ==> e in merged
    ensures SeekFrom(run, target, 0) == CutAt(run, merged, SeekFrom(merged, target, 0))
  {
    var c, p := SeekFrom(run, target, 0), SeekFrom(merged, target, 0);
    SeekSplits(run, target);
    SeekSplits(merged, target);
    forall k | 0 <= k < |run| ensures k < c <==> Below(merged, p, run[k]) {
      assert run[k] in merged;
      var m :| 0 <= m < |merged| && merged[m] == run[k];
      BelowIsIndex(merged, p, m);
    }
    CutUnique(run, merged, p, c);
  }

  class MergingIterator {
    ghost const merged: seq<Entry>
    const runs: seq<seq<Entry>>
    const children: array<Cursor>
    var current: Option<nat>
    var direction: Direction
    ghost var at: nat // position in merged; |merged| when there is no current entry

    constructor (runs: seq<seq<Entry>>, ghost merged: seq<Entry>)
      requires MergeOf(merged, runs)
      ensures Ok() && fresh(children) && this.runs == runs && this.merged == merged && !Abs().Valid()
    {
      this.runs, this.merged, at := runs, merged, |merged|;
      children := new Cursor[|runs|](i requires 0 <= i < |runs| => Cursor(runs[i], |runs[i]|));
      current, direction := None, Forward;
    }

    /** Each child scans its own run. */
    ghost predicate Wired()
      reads this, children
    {
      && MergeOf(merged, runs) && children.Length == |runs|
      && forall i :: 0 <= i < children.Length ==> children[i].run == runs[i]
    }

    /** Every child is at its first entry not before position p. */
    ghost predicate AllAfter(p: nat)
      requires Wired() && p <= |merged|
      reads this, children
    {
      forall i :: 0 <= i < children.Length ==> children[i].pos == CutAt(runs[i], merged, p)
    }

    /** Every child is at its last entry before position p. */
    ghost predicate AllBefore(p: nat)
      requires Wired() && p <= |merged|
      reads this, children
    {
      forall i :: 0 <= i < children.Length ==> children[i].pos == StepBack(runs[i], CutAt(runs[i], merged, p))
    }

    ghost predicate CurrentIsAt()
      requires Wired()
      reads this, children
    {
      && at <= |merged| && (current.None? <==> at == |merged|)
      && (current.Some? ==> current.value < children.Length && children[current.value].Valid()
                            && children[current.value].Here() == merged[at])
    }

    /** The other children are strictly after the current entry, or strictly before it. */
    ghost predicate OthersAround()
      requires Wired() && CurrentIsAt()
      reads this, children
    {
      current.Some? ==> forall i :: 0 <= i < children.Length && i != current.value ==>
        children[i].pos == (if direction == Forward then CutAt(runs[i], merged, at)
                            else StepBack(runs[i], CutAt(runs[i], merged, at)))
    }

    ghost predicate Ok()
      reads this, children
    {
      Wired() && CurrentIsAt() && OthersAround()
    }

    /** The cursor this iterator behaves as. */
    ghost function Abs(): Cursor
      reads this
    {
      Cursor(merged, at)
    }

    predicate Valid()
      requires Ok()
      reads this, children
      ensures Valid() <==> Abs().Valid()
    {
      current.Some?
    }

    function Here(): (e: Entry)
      requires Ok() && Valid()
      reads this, children
      ensures e == Abs().Here()
    {
      children[current.value].Here()
    }

    method SeekToFirst()
      requires Ok()
      modifies this, children
      ensures Ok() && Abs() == old(Abs()).SeekToFirst()
    {
      var i := 0;
      while i < children.Length
        invariant 0 <= i <= children.Length && Wired()
        invariant forall k :: 0 <= k < i ==> children[k].pos == 0
      {
        children[i] := children[i].SeekToFirst();
        i := i + 1;
      }
      FirstCut();
      FindSmallest(0);
      direction := Forward;
    }

    lemma FirstCut()
      requires Wired()
      ensures forall i :: 0 <= i < |runs| ==> CutAt(runs[i], merged, 0) == 0
    {
      forall i | 0 <= i < |runs| ensures CutAt(runs[i], merged, 0) == 0 {
        forall k | 0 <= k < |runs[i]| ensures !Below(merged, 0, runs[i][k]) {
          assert runs[i][k] in merged;
          var m :| 0 <= m < |merged| && merged[m] == runs[i][k];
          BelowIsIndex(merged, 0, m);
        }
        CutUnique(runs[i], merged, 0, 0);
      }
    }

    method SeekToLast()
      requires Ok()
      modifies this, children
      ensures Ok() && Abs() == old(Abs()).SeekToLast()
    {
      var i := 0;
      while i < children.Length
        invariant 0 <= i <= children.Length && Wired()
        invariant forall k :: 0 <= k < i ==> children[k].pos == StepBack(runs[k], |runs[k]|)
      {
        children[i] := children[i].SeekToLast();
        i := i + 1;
      }
      FindLargest(|merged|);
      direction := Reverse;
    }

    /** Lands on the first entry of the union at or after target. */
    method Seek(target: InternalKey)
      requires Ok()
      modifies this, children
      ensures Ok() && Abs() == old(Abs()).Seek(target)
    {
      var i := 0;
      while i < children.Length
        invariant 0 <= i <= children.Length && Wired()
        invariant forall k :: 0 <= k < i ==> children[k].pos == SeekFrom(runs[k], target, 0)
      {
        children[i] := children[i].Seek(target);
        i := i + 1;
      }
      ghost var p := SeekFrom(merged, target, 0);
      forall k | 0 <= k < |runs| ensures SeekFrom(runs[k], target, 0) == CutAt(runs[k], merged, p) {
        SeekIsCut(runs[k], merged, target);
      }
      FindSmallest(p);
      direction := Forward;
    }

    method Next()
      requires Ok() && Valid()
      modifies this, children
      ensures Ok() && Abs() == old(Abs()).Next()
    {
      if direction != Forward {
        TurnForward();
      }
      CutsAfterCurrent();
      children[current.value] := children[current.value].Next();
      FindSmallest(at + 1);
    }

    /** Moving past the current entry moves the cut of the child that holds it, and no other. */
    lemma CutsAfterCurrent()
      requires Ok() && Valid() && direction == Forward
      ensures children[current.value].pos == CutAt(runs[current.value], merged, at)
      ensures forall i :: 0 <= i < |runs| ==>
                CutAt(runs[i], merged, at + 1) == CutAt(runs[i], merged, at) + if i == current.value then 1 else 0
    {
      forall i | 0 <= i < |runs|
        ensures CutAt(runs[i], merged, at + 1) == CutAt(runs[i], merged, at) + if i == current.value then 1 else 0
        ensures i == current.value ==> children[i].pos == CutAt(runs[i], merged, at)
      {
        CutStep(runs[i], merged, at);
        OnlyHolder(i);
      }
    }

    method Prev()
      requires Ok() && Valid()
      modifies this, children
      ensures Ok() && Abs() == old(Abs()).Prev()
    {
      if direction != Reverse {
        TurnReverse();
      }
      CutStep(runs[current.value], merged, at);
      OnlyHolder(current.value);
      children[current.value] := children[current.value].Prev();
      FindLargest(at);
    }

    /** The direction switch of Next: puts every other child strictly after the current entry. */
    method TurnForward()
      requires Ok() && Valid()
      modifies this, children
      ensures Ok() && Valid() && direction == Forward && current == old(current) && at == old(at)
    {
      var c, i := current.value, 0;
      while i < children.Length
        invariant 0 <= i <= children.Length && Wired() && children[c] == old(children[c])
        invariant current == old(current) && at == old(at) && CurrentIsAt()
        invariant forall k :: 0 <= k < i && k != c ==> children[k].pos == CutAt(runs[k], merged, at)
      {
        if i != c {
          OthersLack(i);
          SeekPast(i, children[c].Here().key);
          AfterIsCut(i);
        }
        i := i + 1;
      }
      direction := Forward;
    }

    /** The direction switch of Prev: puts every other child strictly before the current entry. */
    method TurnReverse()
      requires Ok() && Valid()
      modifies this, children
      ensures Ok() && Valid() && direction == Reverse && current == old(current) && at == old(at)
    {
      var c, i := current.value, 0;
      while i < children.Length
        invariant 0 <= i <= children.Length && Wired() && children[c] == old(children[c])
        invariant current == old(current) && at == old(at) && CurrentIsAt()
        invariant forall k :: 0 <= k < i && k != c ==> children[k].pos == StepBack(runs[k], CutAt(runs[k], merged, at))
      {
        if i != c {
          children[i] := children[i].Seek(children[c].Here().key);
          if children[i].Valid() {
            children[i] := children[i].Prev(); // at the first entry >= key: step back below it
          } else {
            children[i] := children[i].SeekToLast(); // no entry >= key
          }
        }
        i := i + 1;
      }
      direction := Reverse;
    }

    /** Only the current child's run holds the current entry, and the child is at its cut. */
    lemma OnlyHolder(i: nat)
      requires Wired() && CurrentIsAt() && current.Some? && i < |runs|
      ensures merged[at] in runs[i] <==> i == current.value
      ensures i == current.value ==> children[i].pos == CutAt(runs[i], merged, at)
    {
      assert children[current.value].Here() in runs[current.value];
      if i == current.value { CutHolds(runs[i], merged, at); }
    }

    /** No other child holds the current key. */
    lemma OthersLack(i: nat)
      requires Wired() && CurrentIsAt() && current.Some? && i < children.Length && i != current.value
      ensures forall k :: 0 <= k < |runs[i]| ==>
                (AtMost(runs[i][k].key, merged[at].key) <==> Below(merged, at, runs[i][k]))
    {
      OnlyHolder(i);
      forall k | 0 <= k < |runs[i]| ensures AtMost(runs[i][k].key, merged[at].key) <==> Below(merged, at, runs[i][k]) {
        assert runs[i][k] in merged;
        var m :| 0 <= m < |merged| && merged[m] == runs[i][k];
        LessIsIndex(merged, m, at);
      }
    }

    /** Positions a child strictly after key. */
    method SeekPast(i: nat, key: InternalKey)
      requires Wired() && i < children.Length
      modifies children
      ensures Wired() && forall k :: 0 <= k < children.Length && k != i ==> children[k] == old(children[k])
      ensures forall k :: 0 <= k < |runs[i]| ==> (k < children[i].pos <==> AtMost(runs[i][k].key, key))
      ensures children[i].pos <= |runs[i]|
    {
      SeekSplits(runs[i], key);
      children[i] := children[i].Seek(key);
      ghost var c := children[i].pos;
      forall k | c < k < |runs[i]| ensures !AtMost(runs[i][k].key, key) { LessIsIndex(runs[i], c, k); }
      if children[i].Valid() && Compare(key, children[i].Here().key) == 0 {
        children[i] := children[i].Next();
      }
    }

    lemma AfterIsCut(i: nat)
      requires Wired() && CurrentIsAt() && current.Some? && i < children.Length && i != current.value
      requires children[i].pos <= |runs[i]|
      requires forall k :: 0 <= k < |runs[i]| ==> (k < children[i].pos <==> AtMost(runs[i][k].key, merged[at].key))
      ensures children[i].pos == CutAt(runs[i], merged, at)
    {
      OthersLack(i);
      CutUnique(runs[i], merged, at, children[i].pos);
    }

    /** Child c holds the least key of the valid children before n. */
    ghost predicate IsLeast(c: nat, n: nat)
      requires c < n <= children.Length
      reads this, children
    {
      && children[c].Valid()
      && forall k :: 0 <= k < n && children[k].Valid() ==> AtMost(children[c].Here().key, children[k].Here().key)
    }

    /** Child c holds the greatest key of the valid children from n on. */
    ghost predicate IsGreatest(c: nat, n: nat)
      requires n <= c < children.Length
      reads this, children
    {
      && children[c].Valid()
      && forall k :: n <= k < children.Length && children[k].Valid() ==>
         AtMost(children[k].Here().key, children[c].Here().key)
    }

    /** With every child just after position p, the smallest is merged[p]. */
    method FindSmallest(ghost p: nat)
      requires Wired() && p <= |merged| && AllAfter(p)
      modifies this
      ensures Wired() && CurrentIsAt() && at == p && AllAfter(p)
      ensures direction == old(direction)
    {
      var smallest: Option<nat> := None;
      var i := 0;
      while i < children.Length
        invariant 0 <= i <= children.Length
        invariant smallest.None? ==> forall k :: 0 <= k < i ==> !children[k].Valid()
        invariant smallest.Some? ==> smallest.value < i && IsLeast(smallest.value, i)
      {
        var child := children[i];
        if child.Valid() {
          if smallest.None? {
            smallest := Some(i);
          } else if Compare(child.Here().key, children[smallest.value].Here().key) < 0 {
            smallest := Some(i);
          }
        }
        i := i + 1;
      }
      SmallestIs(p, smallest);
      current, at := smallest, p;
    }

    lemma SmallestIs(p: nat, smallest: Option<nat>)
      requires Wired() && p <= |merged| && AllAfter(p)
      requires smallest.None? ==> forall k :: 0 <= k < children.Length ==> !children[k].Valid()
      requires smallest.Some? ==> smallest.value < children.Length && IsLeast(smallest.value, children.Length)
      ensures smallest.None? <==> p == |merged|
      ensures smallest.Some? ==> children[smallest.value].Here() == merged[p]
    {
      if p < |merged| {
        assert merged[p] in merged;
        var h :| 0 <= h < |runs| && merged[p] in runs[h];
        CutStep(runs[h], merged, p);
        assert children[h].Valid() && children[h].Here() == merged[p];
        var e := children[smallest.value].Here();
        assert e in runs[smallest.value];
        var m :| 0 <= m < |merged| && merged[m] == e;
        CutSplits(runs[smallest.value], merged, p);
        BelowIsIndex(merged, p, m);
        LessIsIndex(merged, p, m);
      }
    }

    /** With every child just before position p, the largest is the one before merged[p]. */
    method FindLargest(ghost p: nat)
      requires Wired() && p <= |merged| && AllBefore(p)
      modifies this
      ensures Wired() && CurrentIsAt() && at == if p == 0 then |merged| else p - 1
      ensures current.Some? ==> forall i :: 0 <= i < children.Length && i != current.value ==>
                children[i].pos == StepBack(runs[i], CutAt(runs[i], merged, at))
      ensures direction == old(direction)
    {
      var largest: Option<nat> := None;
      var i := children.Length;
      while i > 0
        invariant 0 <= i <= children.Length
        invariant largest.None? ==> forall k :: i <= k < children.Length ==> !children[k].Valid()
        invariant largest.Some? ==> i <= largest.value < children.Length && IsGreatest(largest.value, i)
      {
        i := i - 1;
        var child := children[i];
        if child.Valid() {
          if largest.None? {
            largest := Some(i);
          } else if Compare(child.Here().key, children[largest.value].Here().key) > 0 {
            largest := Some(i);
          }
        }
      }
      LargestIs(p, largest);
      current, at := largest, if p == 0 then |merged| else p - 1;
      if current.Some? {
        forall k | 0 <= k < children.Length && k != current.value
          ensures children[k].pos == StepBack(runs[k], CutAt(runs[k], merged, at))
        {
          CutStep(runs[k], merged, at);
          OnlyHolder(k);
        }
      }
    }

    lemma LargestIs(p: nat, largest: Option<nat>)
      requires Wired() && p <= |merged| && AllBefore(p)
      requires largest.None? ==> forall k :: 0 <= k < children.Length ==> !children[k].Valid()
      requires largest.Some? ==> largest.value < children.Length && IsGreatest(largest.value, 0)
      ensures largest.None? <==> p == 0
      ensures largest.Some? ==> children[largest.value].Here() == merged[p - 1]
    {
      FirstCut();
      if p > 0 {
        var h := HolderBefore(p);
        var l := largest.value;
        var e := children[l].Here();
        assert e in runs[l];
        var m :| 0 <= m < |merged| && merged[m] == e;
        CutSplits(runs[l], merged, p);
        BelowIsIndex(merged, p, m);
        LessIsIndex(merged, p - 1, m);
      }
    }

    lemma HolderBefore(p: nat) returns (h: nat)
      requires Wired() && 0 < p <= |merged| && AllBefore(p)
      ensures h < children.Length && children[h].Valid() && children[h].Here() == merged[p - 1]
    {
      assert merged[p - 1] in merged;
      h :| 0 <= h < |runs| && merged[p - 1] in runs[h];
      CutStep(runs[h], merged, p - 1);
    }
  }
}
