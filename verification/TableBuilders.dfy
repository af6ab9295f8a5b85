/** TableBuilder: the file it leaves is the table of the entries it was given. */
module TableBuilders {
  import opened Wrappers
  import opened Keys
  import opened Coding
  import opened KeyEncoding
  import opened BlockFormat
  import opened BlockStreams
  import opened BlockIteration
  import LogFormat
  import opened FilterBlock
  import opened TableFormat

  /** A table under way: the blocks written, the entries of the open block, and the handle of a block whose index
      entry waits for the next key. */
  datatype Build = Build(file: Bytes, entries: seq<KeyValue>, c: Contents, open: seq<KeyValue>, lastKey: Bytes,
                         pending: Option<BlockHandle>)

  ghost predicate Building(o: Options, b: Build) {
    && b.entries == Joined(b.c.blocks) + b.open
    && KeysOk(b.entries, b.lastKey)
    && BlocksOk(b.c.blocks) && BlocksStored(o, b.file, b.c)
    && Separates(b.c.blocks + [b.open], b.c.separators)
    && (forall k :: k in b.c.separators ==> |k| >= 8)
    && if b.pending.None? then |b.c.separators| == |b.c.blocks| && (b.c.blocks != [] ==> b.open != [])
       else
         && |b.c.separators| + 1 == |b.c.blocks| && b.open == []
         && b.pending.value == b.c.handles[|b.c.handles| - 1]
  }

  /** The keys grow up to lastKey. */
  ghost predicate KeysOk(entries: seq<KeyValue>, lastKey: Bytes) {
    && Increasing(InternalCompare, entries) && (forall e :: e in entries ==> |e.key| >= 8)
    && (entries != [] ==> entries[|entries| - 1].key == lastKey)
  }

  ghost predicate BlocksOk(blocks: seq<seq<KeyValue>>) { forall i :: 0 <= i < |blocks| ==> blocks[i] != [] }

  lemma NoneAfterLast(entries: seq<KeyValue>, lastKey: Bytes, e: KeyValue)
    requires KeysOk(entries, lastKey) && e in entries
    ensures !Before(lastKey, e.key)
  {
    var i :| 0 <= i < |entries| && entries[i] == e;
    BeforeIs(lastKey, e.key);
    BeforeIs(e.key, lastKey);
    if i < |entries| - 1 { assert InternalCompare(entries[i].key, entries[|entries| - 1].key) < 0; }
  }

  /** The next key is after every key so far. */
  lemma KeyAdded(entries: seq<KeyValue>, lastKey: Bytes, e: KeyValue)
    requires KeysOk(entries, lastKey) && |e.key| >= 8 && (entries != [] ==> Before(lastKey, e.key))
    ensures KeysOk(entries + [e], e.key)
  {
    var all := entries + [e];
    forall i, k | 0 <= i < k < |all| ensures InternalCompare(all[i].key, all[k].key) < 0 {
      if k < |entries| {
        assert InternalCompare(entries[i].key, entries[k].key) < 0;
      } else {
        NoneAfterLast(entries, lastKey, entries[i]);
        BeforeTransitive(entries[i].key, lastKey, e.key);
        assert Before(entries[i].key, e.key);
      }
    }
  }

  /** The shortened key that closes a block when `next` opens the following one. */
  ghost predicate Divides(lastKey: Bytes, sep: Bytes, next: Bytes) {
    && |sep| >= 8 && !Before(sep, lastKey) && Before(sep, next)
    && (sep == lastKey || LessBytes(UserOf(sep), UserOf(next)))
  }

  /** The contents when the pending separator, if any, is recorded. */
  function WithSeparator(b: Build, sep: Bytes): Contents {
    if b.pending.Some? then b.c.(separators := b.c.separators + [sep]) else b.c
  }

  lemma LastBlockEnds(o: Options, b: Build)
    requires Building(o, b) && b.pending.Some?
    ensures Ends(b.c.blocks[|b.c.blocks| - 1], b.lastKey)
    ensures forall e :: e in b.c.blocks[|b.c.blocks| - 1] ==> e in b.entries
  {
    hide BlocksStored, Separates, Increasing;
    var blocks := b.c.blocks;
    var last := blocks[|blocks| - 1];
    assert b.entries == Joined(blocks[..|blocks| - 1]) + last;
    assert last != [] && b.entries[|b.entries| - 1] == last[|last| - 1];
  }

  lemma AddKeeps(o: Options, b: Build, e: KeyValue, sep: Bytes)
    requires Building(o, b) && |e.key| >= 8 && (b.entries != [] ==> Before(b.lastKey, e.key))
    requires b.pending.Some? ==> Divides(b.lastKey, sep, e.key)
    ensures Building(o, Build(b.file, b.entries + [e], WithSeparator(b, sep), b.open + [e], e.key, None))
  {
    hide BlocksStored, KeysOk, Before;
    KeyAdded(b.entries, b.lastKey, e);
    assert b.entries + [e] == Joined(b.c.blocks) + (b.open + [e]);
    SeparatesMore(o, b, e, sep);
    assert BlocksStored(o, b.file, b.c) ==> BlocksStored(o, b.file, WithSeparator(b, sep)) by { SameBlocks(o, b, sep); }
  }

  lemma SameBlocks(o: Options, b: Build, sep: Bytes)
    ensures BlocksStored(o, b.file, b.c) <==> BlocksStored(o, b.file, WithSeparator(b, sep))
  {
  }

  lemma SeparatesMore(o: Options, b: Build, e: KeyValue, sep: Bytes)
    requires Building(o, b) && |e.key| >= 8 && (b.entries != [] ==> Before(b.lastKey, e.key))
    requires b.pending.Some? ==> Divides(b.lastKey, sep, e.key)
    ensures Separates(b.c.blocks + [b.open + [e]], WithSeparator(b, sep).separators)
  {
    hide Before, BlocksStored, KeysOk, Ends, LessBytes, UserOf, Joined;
    var blocks, seps := b.c.blocks + [b.open + [e]], WithSeparator(b, sep).separators;
    var before, n := b.c.blocks + [b.open], |b.c.blocks|;
    forall i, x: KeyValue | 0 <= i < |seps| && x in blocks[i] ensures !Before(seps[i], x.key) {
      assert i < n && before[i] == blocks[i];
      if i == |b.c.separators| { NewSeparatorAfter(o, b, sep, x); }
    }
    forall i, j, x: KeyValue | 0 <= i < |seps| && i < j < |blocks| && x in blocks[j]
      ensures Before(seps[i], x.key) && (Ends(blocks[i], seps[i]) || LessBytes(UserOf(seps[i]), UserOf(x.key)))
    {
      assert before[i] == blocks[i];
      if x in before[j] {
        assert i < |b.c.separators|;
      } else if i < |b.c.separators| {
        SeparatorBeforeNext(o, b, e, i);
      } else {
        LastBlockEnds(o, b);
      }
    }
  }

  lemma NewSeparatorAfter(o: Options, b: Build, sep: Bytes, x: KeyValue)
    requires Building(o, b) && b.pending.Some? && !Before(sep, b.lastKey) && x in b.c.blocks[|b.c.blocks| - 1]
    ensures !Before(sep, x.key)
  {
    hide Before, BlocksStored, Separates;
    LastBlockEnds(o, b);
    NoneAfterLast(b.entries, b.lastKey, x);
    BeforeTransitive(x.key, b.lastKey, sep);
  }

  /** An older separator is before the next key too. */
  lemma SeparatorBeforeNext(o: Options, b: Build, e: KeyValue, i: nat)
    requires Building(o, b) && i < |b.c.separators| && (b.entries != [] ==> Before(b.lastKey, e.key))
    ensures Before(b.c.separators[i], e.key)
    ensures Ends(b.c.blocks[i], b.c.separators[i]) || LessBytes(UserOf(b.c.separators[i]), UserOf(e.key))
  {
    hide Before, BlocksStored;
    var all := b.c.blocks + [b.open];
    var x: KeyValue := all[i + 1][0];
    assert x in all[i + 1];
    InEntries(o, b, i + 1, x);
    NoneAfterLast(b.entries, b.lastKey, x);
    BeforeTransitive(x.key, b.lastKey, e.key);
    BeforeTransitive(b.c.separators[i], x.key, e.key);
    BeforeIs(x.key, e.key);
    BeforeIs(b.c.separators[i], x.key);
    BeforeIs(b.c.separators[i], e.key);
  }

  lemma InEntries(o: Options, b: Build, i: nat, x: KeyValue)
    requires Building(o, b) && i <= |b.c.blocks| && x in (b.c.blocks + [b.open])[i]
    ensures x in b.entries
  {
    hide BlocksStored, KeysOk, Separates;
    if i < |b.c.blocks| { JoinedAre(b.c.blocks, x); }
  }

  /** The open block is written out. */
  lemma FlushKeeps(o: Options, b: Build, h: BlockHandle)
    requires Building(o, b) && b.open != [] && b.pending.None?
    requires h == BlockHandle(|b.file|, |BlockBytes(b.open, o.interval)|)
    ensures var c := Contents(b.c.blocks + [b.open], b.c.handles + [h], b.c.separators);
            Building(o, Build(b.file + RawBlock(o.extend, BlockBytes(b.open, o.interval)),
                              b.entries, c, [], b.lastKey, Some(h)))
  {
    hide BlocksStored, KeysOk, Separates, RawBlock, BlockBytes;
    BlockWritten(o, b.file, b.c, b.open, h);
    var blocks := b.c.blocks + [b.open];
    assert blocks[..|blocks| - 1] == b.c.blocks;
    assert Joined(blocks) + [] == b.entries;
    SeparatesNothing(blocks, b.c.separators);
  }

  lemma SeparatesNothing(blocks: seq<seq<KeyValue>>, separators: seq<Bytes>)
    requires Separates(blocks, separators)
    ensures Separates(blocks + [[]], separators)
  {
    hide Before, Ends;
    var more := blocks + [[]];
    assert forall i :: 0 <= i < |blocks| ==> more[i] == blocks[i];
  }

  lemma BlockWritten(o: Options, file: Bytes, c: Contents, open: seq<KeyValue>, h: BlockHandle)
    requires BlocksStored(o, file, c) && h == BlockHandle(|file|, |BlockBytes(open, o.interval)|)
    ensures BlocksStored(o, file + RawBlock(o.extend, BlockBytes(open, o.interval)),
                         Contents(c.blocks + [open], c.handles + [h], c.separators))
  {
    hide RawBlock, BlockBytes;
    var raw := RawBlock(o.extend, BlockBytes(open, o.interval));
    LongerFile(o, file, raw, c);
    assert (file + raw)[|file|..|file| + |raw|] == raw;
  }

  lemma LongerFile(o: Options, file: Bytes, more: Bytes, c: Contents)
    requires BlocksStored(o, file, c)
    ensures BlocksStored(o, file + more, c)
  {
    hide Stored, BlockBytes;
    forall i | 0 <= i < |c.blocks|
      ensures Stored(o.extend, file + more, c.handles[i], BlockBytes(c.blocks[i], o.interval))
    {
      StoredLonger(o.extend, file, more, c.handles[i], BlockBytes(c.blocks[i], o.interval));
    }
  }

  // ----- the finished contents -----

  /** The index keys grow. */
  lemma IndexGrows(o: Options, b: Build, i: nat, k: nat)
    requires Building(o, b) && i < k < |b.c.separators|
    ensures Before(b.c.separators[i], b.c.separators[k])
  {
    hide Before, BlocksStored, KeysOk;
    var all := b.c.blocks + [b.open];
    var x: KeyValue := all[k][0];
    assert x in all[k];
    BeforeTransitive(b.c.separators[i], x.key, b.c.separators[k]);
  }

  /** Every block's keys grow. */
  lemma {:induction false} BlocksGrow(blocks: seq<seq<KeyValue>>, i: nat)
    requires Increasing(InternalCompare, Joined(blocks)) && i < |blocks|
    ensures Increasing(InternalCompare, blocks[i])
  {
    var n := |blocks| - 1;
    var front, last := Joined(blocks[..n]), blocks[n];
    var all := Joined(blocks);
    assert all == front + last;
    if i == n {
      forall a, b | 0 <= a < b < |last| ensures InternalCompare(last[a].key, last[b].key) < 0 {
        assert all[|front| + a] == last[a] && all[|front| + b] == last[b];
      }
    } else {
      forall a, b | 0 <= a < b < |front| ensures InternalCompare(front[a].key, front[b].key) < 0 {
        assert all[a] == front[a] && all[b] == front[b];
      }
      BlocksGrow(blocks[..n], i);
    }
  }

  /** The order of a finished table. */
  ghost predicate OrderOk(c: Contents)
    requires |c.separators| <= |c.handles|
  {
    && |c.separators| == |c.blocks| && Separates(c.blocks, c.separators)
    && (forall i :: 0 <= i < |c.blocks| ==> Increasing(InternalCompare, c.blocks[i]))
    && Increasing(InternalCompare, IndexEntries(c))
  }

  /** Nothing is open and every block has its index entry. */
  lemma FinishedInOrder(o: Options, b: Build)
    requires Building(o, b) && b.open == [] && b.pending.None?
    ensures OrderOk(b.c) && Joined(b.c.blocks) == b.entries
  {
    hide BlocksStored;
    var blocks := b.c.blocks;
    assert blocks == [];
    assert IndexEntries(b.c) == [];
  }

  /** The last separator: not before the last key. */
  lemma LastSeparator(o: Options, b: Build, sep: Bytes)
    requires Building(o, b) && b.pending.Some? && |sep| >= 8 && !Before(sep, b.lastKey)
    ensures OrderOk(WithSeparator(b, sep)) && Joined(b.c.blocks) == b.entries
    ensures BlocksStored(o, b.file, WithSeparator(b, sep))
  {
    hide BlocksStored, Before, Separates, Increasing, IndexEntries;
    SameBlocks(o, b, sep);
    StoredSizes(o, b.file, b.c);
    assert b.entries == Joined(b.c.blocks) by { NothingOpen(o, b); }
    JoinedGrow(o, b);
    forall i: nat | i < |b.c.blocks| ensures Increasing(InternalCompare, b.c.blocks[i]) { BlocksGrow(b.c.blocks, i); }
    LastSeparates(o, b, sep);
    LastIndexed(o, b, sep);
  }

  lemma NothingOpen(o: Options, b: Build)
    requires Building(o, b) && b.open == []
    ensures b.entries == Joined(b.c.blocks)
  {
    hide BlocksStored, KeysOk, Separates;
    assert Joined(b.c.blocks) + [] == Joined(b.c.blocks);
  }

  lemma JoinedGrow(o: Options, b: Build)
    requires Building(o, b)
    ensures Increasing(InternalCompare, b.entries)
  {
  }

  lemma StoredSizes(o: Options, file: Bytes, c: Contents)
    requires BlocksStored(o, file, c)
    ensures |c.handles| == |c.blocks|
  {
  }

  lemma LastSeparates(o: Options, b: Build, sep: Bytes)
    requires Building(o, b) && b.pending.Some? && |sep| >= 8 && !Before(sep, b.lastKey)
    ensures Separates(b.c.blocks, b.c.separators + [sep])
  {
    hide BlocksStored, Before, Ends, KeysOk;
    var blocks, seps := b.c.blocks, b.c.separators + [sep];
    var all := blocks + [b.open];
    assert forall i :: 0 <= i < |blocks| ==> all[i] == blocks[i];
    forall x | x in blocks[|blocks| - 1] ensures !Before(sep, x.key) { NewSeparatorAfter(o, b, sep, x); }
  }

  lemma LastIndexed(o: Options, b: Build, sep: Bytes)
    requires Building(o, b) && b.pending.Some? && |sep| >= 8 && !Before(sep, b.lastKey)
    requires |b.c.handles| == |b.c.blocks|
    ensures Increasing(InternalCompare, IndexEntries(WithSeparator(b, sep)))
  {
    hide BlocksStored, KeysOk, Separates, InternalCompare;
    var seps := b.c.separators + [sep];
    forall i: nat, k: nat | i < k < |seps| ensures InternalCompare(seps[i], seps[k]) < 0 {
      if k < |b.c.separators| {
        IndexGrows(o, b, i, k);
      } else {
        BeforeLast(o, b, i);
        BeforeTransitive(seps[i], b.lastKey, sep);
      }
      assert Before(seps[i], seps[k]);
    }
  }

  lemma BeforeLast(o: Options, b: Build, i: nat)
    requires Building(o, b) && b.pending.Some? && i < |b.c.separators|
    ensures Before(b.c.separators[i], b.lastKey)
  {
    hide BlocksStored, KeysOk, Before;
    LastBlockEnds(o, b);
    var all := b.c.blocks + [b.open];
    var last := b.c.blocks[|b.c.blocks| - 1];
    assert last[|last| - 1] in all[|b.c.blocks| - 1];
  }

  // ----- the builder -----

  /** Every key was added to the filter for its block's offset. */
  ghost predicate Covered(added: set<Added>, c: Contents, open: seq<KeyValue>, offset: nat) {
    && |c.handles| == |c.blocks|
    && (forall i, e :: 0 <= i < |c.blocks| && e in c.blocks[i] ==>
         Added(c.handles[i].offset / FILTER_BASE, e.key) in added)
    && forall e :: e in open ==> Added(offset / FILTER_BASE, e.key) in added
  }

  class TableBuilder {
    const o: Options
    const dataBlock: BlockBuilder
    const indexBlock: BlockBuilder
    const filterBlock: FilterBlockBuilder?
    var file: Bytes
    var offset: nat
    var lastKey: Bytes
    var numEntries: nat
    var closed: bool
    var pendingIndexEntry: bool
    var pendingHandle: BlockHandle
    ghost var entries: seq<KeyValue>
    ghost var c: Contents

    constructor (o: Options)
      ensures Valid() && !closed && entries == [] && this.o == o
      ensures fresh(dataBlock) && fresh(indexBlock) && (filterBlock != null ==> fresh(filterBlock))
    {
      hide Building, IndexEntries, BlockBuilder.Valid, FilterBlockBuilder.Valid, UserHash;
      this.o := o;
      dataBlock := new BlockBuilder(o.interval);
      indexBlock := new BlockBuilder(1);
      var filter := NewFilter(o);
      filterBlock := filter;
      file, offset, lastKey, numEntries, closed := [], 0, [], 0, false;
      pendingIndexEntry, pendingHandle, entries, c := false, BlockHandle(0, 0), [], Contents([], [], []);
      new;
      NothingBuilt(o);
    }

    ghost function Abs(): Build
      reads this, dataBlock
    {
      Build(file, entries, c, dataBlock.kvs, lastKey, if pendingIndexEntry then Some(pendingHandle) else None)
    }

    ghost predicate Wired()
      reads this, dataBlock, indexBlock
    {
      && offset == |file| && numEntries == |entries| && dataBlock != indexBlock
      && dataBlock.Valid() && indexBlock.Valid() && dataBlock.interval == o.interval && indexBlock.interval == 1
      && |c.separators| <= |c.handles| && indexBlock.kvs == IndexEntries(c)
    }

    ghost predicate FilterWired()
      reads this, filterBlock
    {
      && (filterBlock == null <==> o.filter.None?)
      && (filterBlock != null ==> filterBlock.Valid() && filterBlock.hash == UserHash(o.filter.value.hash)
                                  && |filterBlock.filterOffsets| == offset / FILTER_BASE)
    }

    ghost predicate FilterOk()
      reads this, dataBlock, filterBlock
    {
      FilterWired() && (filterBlock != null ==> Covered(filterBlock.added, c, dataBlock.kvs, offset))
    }

    ghost predicate Valid()
      reads this, dataBlock, indexBlock, filterBlock
    {
      Wired() && FilterOk() && Building(o, Abs())
    }

    /** Appends an entry whose key is after all before it. */
    method Add(key: Bytes, value: Bytes)
      requires Valid() && !closed && |key| >= 8 && (entries != [] ==> Before(lastKey, key))
      modifies this, dataBlock, indexBlock, filterBlock
      ensures Valid() && !closed && entries == old(entries) + [KeyValue(key, value)]
    {
      hide Building, Covered, FilterBlockBuilder.Valid, BlockBuilder.Valid, IndexEntries;
      ghost var b, e := Abs(), KeyValue(key, value);
      ghost var sep := lastKey;
      if pendingIndexEntry {
        sep := AddIndexEntry(key);
      }
      if filterBlock != null {
        filterBlock.AddKey(key);
        CoveredMore(old(filterBlock.added), b.c, b.open, offset, e, WithSeparator(b, sep));
      }
      lastKey, numEntries, entries := key, numEntries + 1, entries + [e];
      dataBlock.Add(key, value);
      AddKeeps(o, b, e, sep);
      if dataBlock.CurrentSizeEstimate() >= o.blockSize {
        Flush();
      }
    }

    /** The index entry of the last block, now that the next key is known. */
    method AddIndexEntry(key: Bytes) returns (ghost sep: Bytes)
      requires Wired() && Building(o, Abs()) && pendingIndexEntry && |key| >= 8
        && (entries != [] ==> Before(lastKey, key))
      modifies `lastKey, `pendingIndexEntry, `c, indexBlock
      ensures Wired() && !pendingIndexEntry && Divides(old(lastKey), sep, key) && c == WithSeparator(old(Abs()), sep)
    {
      hide Building, BlockBuilder.Valid, IndexEntries, Divides, EncodeHandle, UserOf;
      ghost var b := Abs();
      LastKeyLong(o, b);
      BeforeEncoded(lastKey, key);
      var shortened := FindShortestInternalSeparator(lastKey, key);
      sep := shortened;
      DividesIs(lastKey, sep, key);
      IndexMore(o, b, sep);
      lastKey := shortened;
      indexBlock.Add(lastKey, EncodeHandle(pendingHandle));
      pendingIndexEntry := false;
      c := WithSeparator(b, sep);
    }

    method Flush()
      requires Wired() && FilterOk() && Building(o, Abs()) && !closed
      modifies `file, `offset, `pendingIndexEntry, `pendingHandle, `c, dataBlock, filterBlock
      ensures Valid() && dataBlock.kvs == [] && (entries != [] ==> pendingIndexEntry || old(dataBlock.kvs) == [])
    {
      hide Building, Covered, FilterBlockBuilder.Valid, BlockBuilder.Valid, IndexEntries, RawBlock, BlockBytes;
      ghost var b := Abs();
      if dataBlock.IsEmpty() {
        return;
      }
      OpenIsNotPending(o, b);
      pendingHandle := WriteBlock(dataBlock);
      pendingIndexEntry := true;
      c := Contents(b.c.blocks + [b.open], b.c.handles + [pendingHandle], b.c.separators);
      FlushKeeps(o, b, pendingHandle);
      SameIndex(b.c, c);
      if filterBlock != null {
        CoveredBlock(filterBlock.added, b.c, b.open, pendingHandle, c, offset);
        filterBlock.StartBlock(offset);
      }
    }

    /** Flushes, then writes the filter block, the metaindex block, the index block and the footer. */
    method Finish() returns (ghost m: Meta)
      requires Valid() && !closed
      modifies this, dataBlock, indexBlock, filterBlock
      ensures closed && entries == old(entries) && Joined(c.blocks) == entries
      ensures |file| < LIMIT32 ==> IsTable(o, file, c, m)
    {
      hide Building, Covered, FilterBlockBuilder.Valid, BlockBuilder.Valid, IndexEntries;
      hide BlockBytes, BlocksStored, OrderOk, Stored;
      hide FilterCovers, MetaEntries, FooterBytes, Joined;
      Flush();
      closed := true;
      ghost var b, f0 := Abs(), file;
      StoredBlocks(o, b);
      var filterHandle;
      ghost var filter;
      filterHandle, filter := FinishFilter();
      ghost var f1 := file;
      var metaHandle;
      ghost var metaEntries;
      metaHandle, metaEntries := FinishMetaindex(filterHandle);
      ghost var f2 := file;
      var indexHandle := FinishIndex(b);
      ghost var f3 := file;
      m := Meta(metaHandle, indexHandle, filter);
      MetaEntriesAre(o, m, filterHandle, metaEntries);
      if filter.Some? { StoredStays(o.extend, f1, f3, filter.value.0, filter.value.1); }
      StoredStays(o.extend, f2, f3, metaHandle, BlockBytes(metaEntries, o.interval));
      BlocksStay(o, f0, f3, b.c);
      SeparatorsDoNotMatter(o, f3, b.c, c, filter);
      if |f3| < LIMIT32 { PartsAreTable(o, f3, c, m); }
      file := file + FooterBytes(metaHandle, indexHandle);
      offset := offset + FOOTER_SIZE;
    }

    method FinishFilter() returns (handle: Option<BlockHandle>, ghost filter: Option<(BlockHandle, Bytes)>)
      requires Wired() && FilterOk()
      modifies `file, `offset, filterBlock
      ensures Wired() && old(file) <= file
      ensures (o.filter.Some? <==> filter.Some?) && handle == if filter.Some? then Some(filter.value.0) else None
      ensures filter.Some? ==> Stored(o.extend, file, filter.value.0, filter.value.1)
                               && FilterCovers(o.filter.value.hash, filter.value.1, c)
    {
      hide Covered, FilterBlockBuilder.Valid, BlockBuilder.Valid, IndexEntries;
      hide Stored, RawBlock, FilterCovers, FilterMayMatch;
      handle, filter := None, None;
      if filterBlock != null {
        ghost var added := filterBlock.added;
        var contents := filterBlock.Finish();
        FilterCoversAll(o.filter.value.hash, contents, c, added, dataBlock.kvs, offset);
        JustStored(o.extend, file, contents);
        var h := WriteRawBlock(contents);
        handle, filter := Some(h), Some((h, contents));
      }
    }

    method FinishMetaindex(filterHandle: Option<BlockHandle>) returns (handle: BlockHandle, ghost kvs: seq<KeyValue>)
      requires Wired() && (o.filter.Some? <==> filterHandle.Some?)
      modifies `file, `offset
      ensures Wired() && old(file) <= file
      ensures kvs ==
        if o.filter.Some? then [KeyValue(FilterKey(o.filter.value.name), EncodeHandle(filterHandle.value))] else []
      ensures Stored(o.extend, file, handle, BlockBytes(kvs, o.interval))
    {
      hide BlockBuilder.Valid, IndexEntries, Stored, RawBlock, BlockBytes, EncodeHandle, FilterKey;
      var metaIndexBlock := new BlockBuilder(o.interval);
      if o.filter.Some? {
        metaIndexBlock.Add(FilterKey(o.filter.value.name), EncodeHandle(filterHandle.value));
      }
      kvs := metaIndexBlock.kvs;
      JustStored(o.extend, file, BlockBytes(kvs, o.interval));
      handle := WriteBlock(metaIndexBlock);
    }

    method FinishIndex(ghost b: Build) returns (handle: BlockHandle)
      requires Wired() && Building(o, b) && b.open == [] && b.c == c && b.lastKey == lastKey && b.entries == entries
      requires b.pending == if pendingIndexEntry then Some(pendingHandle) else None
      modifies `file, `offset, `lastKey, `pendingIndexEntry, `c, indexBlock
      ensures old(file) <= file && c.blocks == b.c.blocks && c.handles == b.c.handles
      ensures |c.separators| <= |c.handles| && OrderOk(c) && Joined(c.blocks) == b.entries
      ensures Stored(o.extend, file, handle, BlockBytes(IndexEntries(c), 1))
    {
      hide Building, BlockBuilder.Valid, IndexEntries, Stored, RawBlock, BlockBytes, EncodeHandle, OrderOk, Joined;
      if pendingIndexEntry {
        LastKeyLong(o, b);
        var succ := FindShortInternalSuccessor(lastKey);
        SuccessorNotBefore(lastKey, succ);
        LastSeparator(o, b, succ);
        IndexMore(o, b, succ);
        lastKey := succ;
        indexBlock.Add(lastKey, EncodeHandle(pendingHandle));
        pendingIndexEntry := false;
        c := WithSeparator(b, succ);
      } else {
        FinishedInOrder(o, b);
      }
      JustStored(o.extend, file, BlockBytes(indexBlock.kvs, 1));
      handle := WriteBlock(indexBlock);
    }

    method WriteBlock(block: BlockBuilder) returns (handle: BlockHandle)
      requires block.Valid() && offset == |file|
      modifies `file, `offset, block
      ensures block.Valid() && block.kvs == [] && offset == |file|
      ensures handle == BlockHandle(old(|file|), |BlockBytes(old(block.kvs), block.interval)|)
      ensures file == old(file) + RawBlock(o.extend, BlockBytes(old(block.kvs), block.interval))
    {
      hide BlockBytes, BlockBuilder.Valid;
      var raw := block.Finish();
      handle := WriteRawBlock(raw);
      block.Reset();
    }

    method WriteRawBlock(contents: Bytes) returns (handle: BlockHandle)
      requires offset == |file|
      modifies `file, `offset
      ensures offset == |file| && handle == BlockHandle(old(|file|), |contents|)
      ensures file == old(file) + RawBlock(o.extend, contents)
    {
      handle := BlockHandle(offset, |contents|);
      file := file + contents;
      var crc := o.extend(o.extend(0, contents), [NO_COMPRESSION]);
      var trailer := [NO_COMPRESSION] + EncodeFixed32(Mask(crc));
      RawIs(o.extend, contents, old(file));
      file := file + trailer;
      offset := offset + |contents| + TRAILER_SIZE;
    }
  }

  /** A longer file still stores what it stored. */
  lemma StoredStays(extend: LogFormat.Checksum, file: Bytes, longer: Bytes, h: BlockHandle, contents: Bytes)
    requires Stored(extend, file, h, contents) && file <= longer
    ensures Stored(extend, longer, h, contents) && h.offset + h.size + TRAILER_SIZE <= |longer|
  {
    hide RawBlock;
    assert longer == file + longer[|file|..];
    StoredLonger(extend, file, longer[|file|..], h, contents);
  }

  lemma BlocksStay(o: Options, file: Bytes, longer: Bytes, c: Contents)
    requires BlocksStored(o, file, c) && file <= longer
    ensures BlocksStored(o, longer, c)
  {
    hide BlocksStored;
    assert longer == file + longer[|file|..];
    LongerFile(o, file, longer[|file|..], c);
  }

  lemma SeparatorsDoNotMatter(o: Options, file: Bytes, c: Contents, c': Contents, filter: Option<(BlockHandle, Bytes)>)
    requires BlocksStored(o, file, c) && c'.blocks == c.blocks && c'.handles == c.handles
      && (o.filter.Some? <==> filter.Some?)
    ensures BlocksStored(o, file, c') && |c'.handles| == |c'.blocks| == |c.handles| == |c.blocks|
    ensures filter.Some? ==>
      (FilterCovers(o.filter.value.hash, filter.value.1, c) <==> FilterCovers(o.filter.value.hash, filter.value.1, c'))
  {
    hide Stored, FilterMayMatch;
  }

  lemma JustStored(extend: LogFormat.Checksum, file: Bytes, contents: Bytes)
    ensures Stored(extend, file + RawBlock(extend, contents), BlockHandle(|file|, |contents|), contents)
  {
    hide RawBlock;
    var raw := RawBlock(extend, contents);
    assert (file + raw)[|file|..|file| + |raw|] == raw;
  }

  lemma FilterCoversAll(hash: Bloom.Hash, filter: Bytes, c: Contents, added: set<Added>, open: seq<KeyValue>,
                        offset: nat)
    requires Covered(added, c, open, offset)
    requires |filter| <= LIMIT32 ==> forall a, at :: a in added && at / FILTER_BASE == a.index ==>
               FilterMayMatch(UserHash(hash), filter, at, a.key)
    ensures FilterCovers(hash, filter, c)
  {
    hide FilterMayMatch;
    if |filter| <= LIMIT32 {
      forall i, e | 0 <= i < |c.blocks| && e in c.blocks[i]
        ensures FilterMayMatch(UserHash(hash), filter, c.handles[i].offset, e.key)
      {
        var a := Added(c.handles[i].offset / FILTER_BASE, e.key);
        assert a in added && c.handles[i].offset / FILTER_BASE == a.index;
      }
    }
  }

  /** The parts of a table, from where Finish leaves them. */
  lemma PartsAreTable(o: Options, file: Bytes, c: Contents, m: Meta)
    requires BlocksStored(o, file, c) && |c.separators| <= |c.handles| && OrderOk(c)
    requires (o.filter.Some? <==> m.filter.Some?)
    requires m.filter.Some? ==> Stored(o.extend, file, m.filter.value.0, m.filter.value.1)
                                && FilterCovers(o.filter.value.hash, m.filter.value.1, c)
    requires Stored(o.extend, file, m.metaindex, BlockBytes(MetaEntries(o, m), o.interval))
    requires Stored(o.extend, file, m.index, BlockBytes(IndexEntries(c), 1))
    requires |file| < LIMIT32
    ensures IsTable(o, file + FooterBytes(m.metaindex, m.index), c, m)
  {
    hide BlockBytes, FilterCovers, BlocksStored, Separates, Increasing, IndexEntries, FooterBytes, MetaEntries;
    var footer := FooterBytes(m.metaindex, m.index);
    var whole := file + footer;
    BlocksStay(o, file, whole, c);
    if m.filter.Some? { StoredStays(o.extend, file, whole, m.filter.value.0, m.filter.value.1); }
    StoredInside(o.extend, file, m.metaindex, BlockBytes(MetaEntries(o, m), o.interval));
    StoredInside(o.extend, file, m.index, BlockBytes(IndexEntries(c), 1));
    StoredStays(o.extend, file, whole, m.metaindex, BlockBytes(MetaEntries(o, m), o.interval));
    StoredStays(o.extend, file, whole, m.index, BlockBytes(IndexEntries(c), 1));
    assert whole[|whole| - FOOTER_SIZE..] == footer;
  }

  lemma StoredInside(extend: LogFormat.Checksum, file: Bytes, h: BlockHandle, contents: Bytes)
    requires Stored(extend, file, h, contents)
    ensures h.offset + h.size + TRAILER_SIZE <= |file|
  {
    hide RawBlock;
  }

  method NewFilter(o: Options) returns (filter: FilterBlockBuilder?)
    ensures filter == null <==> o.filter.None?
    ensures filter != null ==> fresh(filter) && filter.Valid() && filter.hash == UserHash(o.filter.value.hash)
                               && |filter.filterOffsets| == 0
  {
    hide FilterBlockBuilder.Valid, UserHash;
    filter := null;
    if o.filter.Some? {
      filter := new FilterBlockBuilder(UserHash(o.filter.value.hash), o.filter.value.bitsPerKey);
      filter.StartBlock(0);
    }
  }

  lemma RawIs(extend: LogFormat.Checksum, contents: Bytes, file: Bytes)
    ensures file + RawBlock(extend, contents)
            == file + contents + ([NO_COMPRESSION] + EncodeFixed32(Mask(extend(extend(0, contents), [NO_COMPRESSION]))))
  {
    hide Mask, EncodeFixed32;
  }

  lemma NothingBuilt(o: Options)
    ensures Building(o, Build([], [], Contents([], [], []), [], [], None)) && IndexEntries(Contents([], [], [])) == []
  {
  }

  lemma SuccessorNotBefore(key: Bytes, succ: Bytes)
    requires |key| >= 8 && |succ| >= 8 && (succ == key || LessEncoded(key, succ))
    ensures !Before(succ, key)
  {
    BeforeEncoded(key, succ);
    BeforeIs(succ, key);
    BeforeIs(key, succ);
  }

  lemma MetaEntriesAre(o: Options, m: Meta, filterHandle: Option<BlockHandle>, kvs: seq<KeyValue>)
    requires (o.filter.Some? <==> m.filter.Some?) && (m.filter.Some? ==> filterHandle == Some(m.filter.value.0))
    requires kvs ==
      if m.filter.Some? then [KeyValue(FilterKey(o.filter.value.name), EncodeHandle(filterHandle.value))] else []
    ensures MetaEntries(o, m) == kvs
  {
  }

  lemma StoredBlocks(o: Options, b: Build)
    requires Building(o, b)
    ensures BlocksStored(o, b.file, b.c)
  {
  }

  lemma LastKeyLong(o: Options, b: Build)
    requires Building(o, b) && b.pending.Some?
    ensures |b.lastKey| >= 8 && b.entries != []
  {
    hide BlocksStored, Separates;
    LastBlockEnds(o, b);
    assert b.entries[|b.entries| - 1] in b.entries;
  }

  lemma BeforeEncoded(a: Bytes, b: Bytes)
    requires |a| >= 8 && |b| >= 8
    ensures Before(a, b) <==> LessEncoded(a, b)
  {
  }

  /** What FindShortestSeparator promises is what divides blocks. */
  lemma DividesIs(last: Bytes, sep: Bytes, next: Bytes)
    requires |last| >= 8 && |sep| >= 8 && |next| >= 8
    requires (sep == last || LessEncoded(last, sep)) && LessEncoded(sep, next)
    requires sep == last || LessBytes(ExtractUserKey(sep), ExtractUserKey(next))
    ensures Divides(last, sep, next)
  {
    BeforeEncoded(last, sep);
    BeforeEncoded(sep, next);
    BeforeIs(sep, last);
    BeforeIs(last, sep);
  }

  lemma IndexMore(o: Options, b: Build, sep: Bytes)
    requires Building(o, b) && b.pending.Some? && |b.c.separators| <= |b.c.handles|
    ensures var c := WithSeparator(b, sep);
            && |c.separators| <= |c.handles|
            && IndexEntries(c) == IndexEntries(b.c) + [KeyValue(sep, EncodeHandle(b.pending.value))]
  {
    hide Building, IndexEntries;
    PendingIs(o, b);
    IndexAppend(b.c, sep);
  }

  lemma PendingIs(o: Options, b: Build)
    requires Building(o, b) && b.pending.Some?
    ensures |b.c.separators| + 1 == |b.c.handles| && b.pending.value == b.c.handles[|b.c.separators|]
  {
    hide KeysOk, Separates, Joined;
  }

  lemma IndexAppend(c: Contents, sep: Bytes)
    requires |c.separators| < |c.handles|
    ensures IndexEntries(c.(separators := c.separators + [sep]))
            == IndexEntries(c) + [KeyValue(sep, EncodeHandle(c.handles[|c.separators|]))]
  {
    hide EncodeHandle;
  }

  lemma SameIndex(c: Contents, c': Contents)
    requires |c.separators| <= |c.handles| && c.handles <= c'.handles && c'.separators == c.separators
    ensures IndexEntries(c') == IndexEntries(c)
  {
    hide EncodeHandle;
  }

  lemma OpenIsNotPending(o: Options, b: Build)
    requires Building(o, b) && b.open != []
    ensures b.pending.None?
  {
  }

  lemma CoveredMore(added: set<Added>, c: Contents, open: seq<KeyValue>, offset: nat, e: KeyValue, c': Contents)
    requires Covered(added, c, open, offset) && c'.blocks == c.blocks && c'.handles == c.handles
    ensures Covered(added + {Added(offset / FILTER_BASE, e.key)}, c', open + [e], offset)
  {
  }

  lemma CoveredBlock(added: set<Added>, c: Contents, open: seq<KeyValue>, h: BlockHandle, c': Contents, offset: nat)
    requires Covered(added, c, open, h.offset) && c'.blocks == c.blocks + [open] && c'.handles == c.handles + [h]
    ensures Covered(added, c', [], offset)
  {
  }
}
