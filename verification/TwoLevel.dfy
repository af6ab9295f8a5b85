/** TwoLevelIterator: a cursor over the concatenation of blocks, found through an index over their keys. */
module TwoLevel {
  import opened Wrappers
  import opened Keys
  import opened Cursors
  import opened LsmModel

  /** Flatten puts block i at the length of the blocks before it. */
  lemma {:induction false} FlatAt(blocks: seq<seq<Entry>>, i: nat)
    requires i < |blocks|
    ensures |Flatten(blocks[..i])| + |blocks[i]| == |Flatten(blocks[..i + 1])| <= |Flatten(blocks)|
    ensures forall k :: 0 <= k < |blocks[i]| ==> Flatten(blocks)[|Flatten(blocks[..i])| + k] == blocks[i][k]
    decreases |blocks|
  {
    var front := blocks[..|blocks| - 1];
    assert blocks[..i + 1][..i] == blocks[..i];
    assert blocks[..i + 1][i] == blocks[i];
    if i < |blocks| - 1 {
      FlatAt(front, i);
      assert front[..i] == blocks[..i] && front[..i + 1] == blocks[..i + 1];
    } else {
      assert blocks[..i] == front && blocks[..i + 1] == blocks;
    }
  }

  /** Every position of the concatenation is in some block. */
  lemma {:induction false} BlockOf(blocks: seq<seq<Entry>>, p: nat) returns (i: nat)
    requires p < |Flatten(blocks)|
    ensures i < |blocks| && |Flatten(blocks[..i])| <= p < |Flatten(blocks[..i + 1])|
  {
    var front := blocks[..|blocks| - 1];
    if p < |Flatten(front)| {
      i := BlockOf(front, p);
      assert front[..i] == blocks[..i] && front[..i + 1] == blocks[..i + 1];
    } else {
      i := |blocks| - 1;
      assert blocks[..i + 1] == blocks;
    }
  }

  lemma {:induction false} FlatGrows(blocks: seq<seq<Entry>>, i: nat, k: nat)
    requires i <= k <= |blocks|
    ensures |Flatten(blocks[..i])| <= |Flatten(blocks[..k])|
    decreases k
  {
    if i < k {
      FlatGrows(blocks, i, k - 1);
      FlatAt(blocks, k - 1);
    }
  }

  /** Index entry i bounds block i from above and every later block strictly from below. */
  ghost predicate Indexes(index: seq<Entry>, blocks: seq<seq<Entry>>) {
    && |index| == |blocks| && Sorted(index)
    && (forall i, e :: 0 <= i < |blocks| && e in blocks[i] ==> AtMost(e.key, index[i].key))
    && (forall i, k, e :: 0 <= i < k < |blocks| && e in blocks[k] ==> Less(index[i].key, e.key))
  }

  lemma IndexBefore(index: seq<Entry>, blocks: seq<seq<Entry>>, i: nat, b: nat, e: Entry)
    requires Indexes(index, blocks) && i < b < |blocks| && e in blocks[b]
    ensures Less(index[i].key, e.key)
  {
  }

  class TwoLevelIterator {
    const index: seq<Entry>
    const blocks: seq<seq<Entry>>
    var indexIter: Cursor
    var dataIter: Option<Cursor>
    var handle: nat // the block dataIter reads

    constructor (index: seq<Entry>, blocks: seq<seq<Entry>>)
      requires Indexes(index, blocks)
      ensures Ok() && this.index == index && this.blocks == blocks && !Abs().Valid()
    {
      this.index, this.blocks := index, blocks;
      indexIter, dataIter, handle := Cursor(index, |index|), None, 0;
    }

    ghost function All(): seq<Entry> { Flatten(blocks) }

    /** Where block i starts in the concatenation. */
    ghost function Offset(i: nat): nat
      requires i <= |blocks|
    {
      |Flatten(blocks[..i])|
    }

    /** The data iterator reads the block the index points at. */
    ghost predicate Wired()
      reads this
    {
      && Indexes(index, blocks) && indexIter.run == index
      && (dataIter.Some? ==> indexIter.Valid() && handle == indexIter.pos && dataIter.value.run == blocks[handle])
    }

    ghost predicate Ok()
      reads this
    {
      Wired() && (dataIter.Some? ==> dataIter.value.Valid())
    }

    /** The cursor this iterator behaves as. */
    ghost function Abs(): Cursor
      requires Wired()
      reads this
    {
      Cursor(All(), if dataIter.Some? && dataIter.value.Valid() then Offset(handle) + dataIter.value.pos else |All()|)
    }

    lemma IsWired()
      requires Ok()
      ensures Wired() && Abs().run == All() && Abs().pos <= |All()|
    {
      if dataIter.Some? { FlatAt(blocks, handle); }
    }

    predicate Valid()
      requires Ok()
      reads this
      ensures Valid() <==> Abs().Valid()
    {
      if dataIter.Some? then FlatAt(blocks, handle); true else false
    }

    function Here(): (e: Entry)
      requires Ok() && Valid()
      reads this
      ensures e == Abs().Here()
    {
      FlatAt(blocks, handle);
      dataIter.value.Here()
    }

    /** Opens the block the index points at, unless it is already open. */
    method InitDataBlock()
      requires Indexes(index, blocks) && indexIter.run == index
      requires dataIter.Some? ==> handle < |blocks| && dataIter.value.run == blocks[handle]
      modifies `dataIter, `handle
      ensures Wired() && (dataIter.Some? <==> indexIter.Valid())
    {
      if !indexIter.Valid() {
        dataIter := None;
      } else if dataIter.Some? && handle == indexIter.pos {
      } else {
        handle := indexIter.pos;
        dataIter := Some(Cursor(blocks[handle], |blocks[handle]|));
      }
    }

    /** How many entries the concatenation has before what the iterator has yet to yield going forward. */
    ghost function Ahead(): nat
      requires Wired()
      reads this
    {
      if dataIter.Some? then Offset(handle) + dataIter.value.pos else |All()|
    }

    method SkipEmptyDataBlocksForward()
      requires Wired() && (dataIter.Some? ==> dataIter.value.pos <= |blocks[handle]|)
      requires dataIter.None? ==> !indexIter.Valid()
      modifies `indexIter, `dataIter, `handle
      ensures Ok() && Abs().pos == old(Ahead())
    {
      while dataIter.None? || !dataIter.value.Valid()
        invariant Wired() && (dataIter.Some? ==> dataIter.value.pos <= |blocks[handle]|) && Ahead() == old(Ahead())
        invariant dataIter.None? ==> !indexIter.Valid()
        decreases |index| - indexIter.pos
      {
        if !indexIter.Valid() {
          dataIter := None;
          return;
        }
        FlatAt(blocks, handle);
        AllIsAll();
        indexIter := indexIter.Next();
        InitDataBlock();
        if dataIter.Some? {
          dataIter := Some(dataIter.value.SeekToFirst());
        }
      }
    }

    lemma AllIsAll()
      ensures blocks[..|blocks|] == blocks
    {
    }

    method SeekToFirst()
      requires Ok()
      modifies this
      ensures Ok() && Abs() == old(Abs()).SeekToFirst()
    {
      indexIter := indexIter.SeekToFirst();
      InitDataBlock();
      if dataIter.Some? {
        dataIter := Some(dataIter.value.SeekToFirst());
      }
      SkipEmptyDataBlocksForward();
    }

    method Next()
      requires Ok() && Valid()
      modifies this
      ensures Ok() && Abs() == old(Abs()).Next()
    {
      dataIter := Some(dataIter.value.Next());
      SkipEmptyDataBlocksForward();
    }

    method Seek(target: InternalKey)
      requires Ok()
      modifies this
      ensures Ok() && Abs() == old(Abs()).Seek(target)
    {
      indexIter := indexIter.Seek(target);
      InitDataBlock();
      if dataIter.Some? {
        dataIter := Some(dataIter.value.Seek(target));
      }
      SeekIsThere(target, indexIter.pos);
      SkipEmptyDataBlocksForward();
    }

    /** The block the index names for target, sought to target, is where the concatenation is. */
    lemma SeekIsThere(target: InternalKey, i: nat)
      requires Indexes(index, blocks) && i == SeekFrom(index, target, 0)
      ensures SeekFrom(All(), target, 0) == if i < |blocks| then Offset(i) + SeekFrom(blocks[i], target, 0) else |All()|
    {
      AllIsAll();
      var p := if i < |blocks| then Offset(i) + SeekFrom(blocks[i], target, 0) else |All()|;
      if i < |blocks| { FlatAt(blocks, i); }
      forall k | 0 <= k < p ensures Less(All()[k].key, target) {
        BeforeIsLess(target, i, k);
      }
      if p < |All()| {
        AfterIsNotLess(target, i, p);
      }
      var q := SeekFrom(All(), target, 0);
      assert q < p ==> q < |All()|;
    }

    lemma BeforeIsLess(target: InternalKey, i: nat, k: nat)
      requires Indexes(index, blocks) && i == SeekFrom(index, target, 0) && k < |All()|
      requires i < |blocks| ==> k < Offset(i) + SeekFrom(blocks[i], target, 0)
      ensures Less(All()[k].key, target)
    {
      var b := BlockOf(blocks, k);
      FlatAt(blocks, b);
      var e := blocks[b][k - Offset(b)];
      if b < i {
        assert e in blocks[b] && AtMost(e.key, index[b].key);
      } else if b > i {
        FlatAt(blocks, i);
        FlatGrows(blocks, i + 1, b);
        assert false;
      }
    }

    lemma AfterIsNotLess(target: InternalKey, i: nat, p: nat)
      requires Indexes(index, blocks) && i == SeekFrom(index, target, 0) && i < |blocks| && p < |All()|
      requires p == Offset(i) + SeekFrom(blocks[i], target, 0)
      ensures !Less(All()[p].key, target)
    {
      var b := BlockOf(blocks, p);
      FlatAt(blocks, b);
      var e := blocks[b][p - Offset(b)];
      assert e == All()[p] && e in blocks[b];
      if b < i { FlatGrows(blocks, b + 1, i); }
      if b > i { IndexBefore(index, blocks, i, b, e); }
    }

    // ----- backward -----

    /** The position just before what the iterator has yet to yield going backward, or none. */
    ghost function BehindPos(): nat
      requires Wired()
      reads this
    {
      if dataIter.Some? then
        if dataIter.value.Valid() then Offset(handle) + dataIter.value.pos
        else StepBack(All(), Offset(handle))
      else |All()|
    }

    method SkipEmptyDataBlocksBackward()
      requires Wired() && (dataIter.None? ==> !indexIter.Valid())
      modifies `indexIter, `dataIter, `handle
      ensures Ok() && Abs().pos == old(BehindPos())
    {
      while dataIter.None? || !dataIter.value.Valid()
        invariant Wired() && BehindPos() == old(BehindPos())
        invariant dataIter.None? ==> !indexIter.Valid()
        decreases if indexIter.Valid() then indexIter.pos + 1 else 0
      {
        if !indexIter.Valid() {
          dataIter := None;
          return;
        }
        FlatAt(blocks, handle);
        if handle > 0 { FlatAt(blocks, handle - 1); }
        indexIter := indexIter.Prev();
        InitDataBlock();
        if dataIter.Some? {
          dataIter := Some(dataIter.value.SeekToLast());
        }
      }
    }

    method SeekToLast()
      requires Ok()
      modifies this
      ensures Ok() && Abs() == old(Abs()).SeekToLast()
    {
      indexIter := indexIter.SeekToLast();
      InitDataBlock();
      if dataIter.Some? {
        dataIter := Some(dataIter.value.SeekToLast());
        FlatAt(blocks, handle);
      }
      AllIsAll();
      SkipEmptyDataBlocksBackward();
    }

    method Prev()
      requires Ok() && Valid()
      modifies this
      ensures Ok() && Abs() == old(Abs()).Prev()
    {
      FlatAt(blocks, handle);
      dataIter := Some(dataIter.value.Prev());
      SkipEmptyDataBlocksBackward();
    }
  }
}
