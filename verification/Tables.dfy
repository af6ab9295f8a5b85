/** Table: opening a built file, and the point lookup, which loses nothing to the index or the filter. */
module Tables {
  import opened Wrappers
  import opened Keys
  import opened Coding
  import opened KeyEncoding
  import opened BlockFormat
  import opened BlockStreams
  import opened BlockIteration
  import opened LogFormat
  import opened Bloom
  import opened FilterBlock
  import opened TableFormat
  import opened TableBuilders

  // ----- what a lookup may answer -----

  /** e is the first of the entries at or after k. */
  ghost predicate IsFirst(entries: seq<KeyValue>, k: Bytes, e: KeyValue) {
    && e in entries && !Before(e.key, k)
    && forall x :: x in entries && !Before(x.key, k) ==> x == e || Before(e.key, x.key)
  }

  /** An entry at or after k with k's user key. */
  ghost predicate Wanted(entries: seq<KeyValue>, k: Bytes) { exists e :: e in entries && Answers(e.key, k) }

  predicate Answers(key: Bytes, k: Bytes) { SameUser(key, k) && !Before(key, k) }

  /** What is reported is the first entry at or after k, and there is a report whenever an entry answers. */
  ghost predicate Looked(entries: seq<KeyValue>, k: Bytes, r: Option<KeyValue>) {
    (r.Some? ==> IsFirst(entries, k, r.value)) && (Wanted(entries, k) ==> r.Some?)
  }

  /** Block i is the first whose index key is not before k. */
  ghost predicate IndexPoints(c: Contents, k: Bytes, i: nat) {
    && i <= |c.separators|
    && (forall n :: 0 <= n < i ==> Before(c.separators[n], k))
    && (i < |c.separators| ==> !Before(c.separators[i], k))
  }

  lemma EarlierBlocks(c: Contents, k: Bytes, i: nat, n: nat, e: KeyValue)
    requires |c.separators| <= |c.handles| && OrderOk(c) && IndexPoints(c, k, i) && n < i && e in c.blocks[n]
    ensures Before(e.key, k)
  {
    hide Before, Increasing, IndexEntries;
    BeforeTransitive(e.key, c.separators[n], k);
  }

  lemma PastTheIndex(c: Contents, k: Bytes)
    requires |c.separators| <= |c.handles| && OrderOk(c) && IndexPoints(c, k, |c.separators|)
    ensures Looked(Joined(c.blocks), k, None)
  {
    hide Before, Increasing, IndexEntries, Separates;
    forall e | e in Joined(c.blocks) ensures Before(e.key, k) {
      JoinedAre(c.blocks, e);
      var n :| 0 <= n < |c.blocks| && e in c.blocks[n];
      EarlierBlocks(c, k, |c.separators|, n, e);
    }
  }

  /** The first entry at or after k, when block i has it. */
  lemma FoundInBlock(c: Contents, k: Bytes, i: nat, j: nat)
    requires |c.separators| <= |c.handles| && OrderOk(c) && IndexPoints(c, k, i) && i < |c.blocks| && j < |c.blocks[i]|
    requires (forall n :: 0 <= n < j ==> Before(c.blocks[i][n].key, k)) && !Before(c.blocks[i][j].key, k)
    ensures Looked(Joined(c.blocks), k, Some(c.blocks[i][j]))
  {
    hide Before, IndexEntries;
    var e := c.blocks[i][j];
    JoinedAre(c.blocks, e);
    forall x | x in Joined(c.blocks) && !Before(x.key, k) ensures x == e || Before(e.key, x.key) {
      JoinedAre(c.blocks, x);
      var n :| 0 <= n < |c.blocks| && x in c.blocks[n];
      if n < i {
        EarlierBlocks(c, k, i, n, x);
      } else if n == i {
        var p :| 0 <= p < |c.blocks[i]| && c.blocks[i][p] == x;
        if p > j { InBlockOrder(c.blocks[i], j, p); }
      } else {
        LaterBlock(c, i, n, e, x);
      }
    }
  }

  lemma InBlockOrder(block: seq<KeyValue>, j: nat, p: nat)
    requires Increasing(InternalCompare, block) && j < p < |block|
    ensures Before(block[j].key, block[p].key)
  {
  }

  lemma LaterBlock(c: Contents, i: nat, n: nat, e: KeyValue, x: KeyValue)
    requires Separates(c.blocks, c.separators) && i < |c.separators| && i < n < |c.blocks| && e in c.blocks[i]
      && x in c.blocks[n]
    ensures Before(e.key, x.key)
  {
    hide Before;
    BeforeTransitive(e.key, c.separators[i], x.key);
  }

  /** When no entry of block i answers, none does: a later entry with k's user key would put its user key in the gap
      between block i and its separator. */
  lemma NoneInBlock(c: Contents, k: Bytes, i: nat)
    requires |c.separators| <= |c.handles| && OrderOk(c) && IndexPoints(c, k, i) && i < |c.blocks|
    requires forall e :: e in c.blocks[i] ==> !Answers(e.key, k)
    ensures Looked(Joined(c.blocks), k, None)
  {
    hide Before, Increasing, IndexEntries, SameUser;
    forall x | x in Joined(c.blocks) ensures !Answers(x.key, k) {
      JoinedAre(c.blocks, x);
      var n :| 0 <= n < |c.blocks| && x in c.blocks[n];
      if n < i {
        EarlierBlocks(c, k, i, n, x);
      } else if n > i {
        if Ends(c.blocks[i], c.separators[i]) { assert c.blocks[i][|c.blocks[i]| - 1] in c.blocks[i]; }
        GapIsEmpty(k, c.separators[i], x.key);
      }
    }
  }

  lemma GapIsEmpty(k: Bytes, sep: Bytes, x: Bytes)
    requires !Before(sep, k) && Before(sep, x)
    requires !Answers(sep, k) || LessBytes(UserOf(sep), UserOf(x))
    ensures !Answers(x, k)
  {
    BeforeIs(sep, k);
    BeforeIs(sep, x);
    BeforeIs(x, k);
  }

  // ----- what the filter may say -----

  /** The policy only sees user keys. */
  lemma SameMatch(hash: Hash, filter: Bytes, at: nat, a: Bytes, b: Bytes)
    requires SameUser(a, b)
    ensures FilterMayMatch(UserHash(hash), filter, at, a) <==> FilterMayMatch(UserHash(hash), filter, at, b)
  {
    hide DecodeFixed32, ShiftRight, UserOf;
    forall f ensures MayMatch(UserHash(hash), a, f) <==> MayMatch(UserHash(hash), b, f) {
      SameBits(UserHash(hash), f, a, b);
    }
  }

  lemma SameBits(hash: Hash, f: Bytes, a: Bytes, b: Bytes)
    requires hash(a) == hash(b)
    ensures MayMatch(hash, a, f) <==> MayMatch(hash, b, f)
  {
    hide Bit, Probe;
    if |f| >= 2 {
      forall j | 0 <= j < f[|f| - 1] as int ensures ProbeHits(hash, a, f, j) <==> ProbeHits(hash, b, f, j) {
        assert BitPos(hash, a, (|f| - 1) * 8, j) == BitPos(hash, b, (|f| - 1) * 8, j);
      }
    }
  }

  /** A filter that rejects k at block i's offset leaves nothing in the block that answers. */
  lemma RejectedBlock(hash: Hash, filter: Bytes, c: Contents, k: Bytes, i: nat)
    requires |c.handles| == |c.blocks| && FilterCovers(hash, filter, c) && |filter| <= LIMIT32 && i < |c.blocks|
    requires !FilterMayMatch(UserHash(hash), filter, c.handles[i].offset, k)
    ensures forall e :: e in c.blocks[i] ==> !Answers(e.key, k)
  {
    hide FilterMayMatch, Before, UserHash;
    forall e | e in c.blocks[i] ensures !SameUser(e.key, k) {
      if SameUser(e.key, k) { SameMatch(hash, filter, c.handles[i].offset, e.key, k); }
    }
  }

  // ----- sizes -----

  /** Keys and values are no longer than the block. */
  lemma {:induction false} KeyFits(kvs: seq<KeyValue>, interval: Interval, i: nat)
    requires i < |kvs|
    ensures |kvs[i].key| <= Offset(kvs, interval, i + 1) && |kvs[i].value| <= Offset(kvs, interval, i + 1)
  {
    hide EncodeVarint, CommonPrefix;
    var shared := SharedAt(kvs, interval, i);
    assert Entries(kvs, interval, i + 1) == Entries(kvs, interval, i) + EntryBytes(shared, kvs[i]);
    if i > 0 { KeyFits(kvs, interval, i - 1); }
  }

  lemma BlockIsSmall(kvs: seq<KeyValue>, interval: Interval)
    requires |BlockBytes(kvs, interval)| < LIMIT32
    ensures Small(kvs, interval)
  {
    hide Entries, Restarts;
    forall e | e in kvs ensures |e.key| < LIMIT32 && |e.value| < LIMIT32 {
      var i :| 0 <= i < |kvs| && kvs[i] == e;
      KeyFits(kvs, interval, i);
      OffsetsGrow(kvs, interval, i + 1, |kvs|);
    }
  }

  /** A block of a small file reads back, and is small. */
  lemma StoredIsSmall(extend: Checksum, file: Bytes, h: BlockHandle, kvs: seq<KeyValue>, interval: Interval,
                      verify: bool)
    requires Composes(extend) && |file| < LIMIT32 && Stored(extend, file, h, BlockBytes(kvs, interval))
    ensures ReadBlock(extend, file, h, verify) == Whole(BlockBytes(kvs, interval)) && Small(kvs, interval)
      && SmallHandle(h)
  {
    hide BlockBytes, ReadBlock;
    StoredInside(extend, file, h, BlockBytes(kvs, interval));
    StoredReads(extend, file, h, BlockBytes(kvs, interval), verify);
    BlockIsSmall(kvs, interval);
  }

  // ----- the table -----

  class Table {
    const o: Options
    const file: Bytes
    const indexBlock: Bytes
    const filter: FilterBlockReader?
    ghost const c: Contents
    ghost const m: Meta

    constructor (o: Options, file: Bytes, indexBlock: Bytes, filter: FilterBlockReader?, ghost c: Contents,
                 ghost m: Meta)
      requires filter != null ==> filter.Wired()
      ensures Ready() && this.o == o && this.file == file && this.indexBlock == indexBlock && this.filter == filter
        && this.c == c && this.m == m
    {
      this.o, this.file, this.indexBlock, this.filter, this.c, this.m := o, file, indexBlock, filter, c, m;
    }

    ghost predicate Ready() { filter != null ==> filter.Wired() }

    /** The table is open on a file that TableBuilder left. */
    ghost predicate Holds() {
      && Built(o, file, c, m) && indexBlock == BlockBytes(IndexEntries(c), 1)
      && (o.filter.Some? <==> m.filter.Some?) && (filter == null <==> o.filter.None?)
      && (filter != null ==>
           filter.Wired() && filter.hash == UserHash(o.filter.value.hash) && filter.contents == m.filter.value.1)
    }

    /** InternalGet: what handle_result is called with, if it is. */
    method InternalGet(k: Bytes, verifyChecksums: bool) returns (r: Option<KeyValue>)
      requires Ready()
      ensures Holds() ==> Looked(Joined(c.blocks), k, r)
    {
      hide Built, Looked, IndexPoints, Increasing, Transitive, BlockBytes, Joined, IndexEntries;
      if Holds() { IndexIsGood(o, file, c, m); } else { NothingIncreases(InternalCompare); }
      ghost var index := if Holds() then IndexEntries(c) else [];
      InternalOrder();
      var iiter := NewIterator(InternalCompare, indexBlock, index, 1);
      if iiter.None? {
        return None;
      }
      iiter.value.Seek(k);
      ghost var i := iiter.value.pos;
      if Holds() { SeekPoints(c, k, index, i); }
      if !iiter.value.Valid() {
        if Holds() { PastTheBlocks(o, file, c, m, k, i); }
        return None;
      }
      var handleValue := iiter.value.Value();
      if Holds() { IndexedBlock(o, file, c, m, k, i, verifyChecksums); }
      r := SearchBlock(handleValue, k, i, verifyChecksums);
    }

    /** The filter, then the block that the index entry's value points to. */
    method SearchBlock(handleValue: Bytes, k: Bytes, ghost i: nat, verifyChecksums: bool) returns (r: Option<KeyValue>)
      requires Ready()
      requires Holds() ==>
        Built(o, file, c, m) && i < |c.blocks| && IndexPoints(c, k, i)
          && BlockReadable(o, file, c, i, handleValue, verifyChecksums)
      ensures Holds() ==> Looked(Joined(c.blocks), k, r)
    {
      hide Built, Looked, IndexPoints, Increasing, Transitive, BlockBytes, Joined, IndexEntries, FilterMayMatch;
      var decoded := DecodeHandle(handleValue, 0);
      if filter != null && decoded.Some? {
        var admitted := filter.KeyMayMatch(decoded.value.0.offset, k);
        if !admitted {
          if Holds() { RejectedByFilter(o, file, c, m, k, i); }
          return None;
        }
      }
      if decoded.None? {
        return None;
      }
      var contents := ReadBlock(o.extend, file, decoded.value.0, verifyChecksums);
      if !contents.Whole? {
        return None;
      }
      ghost var kvs := if Holds() then c.blocks[i] else [];
      if Holds() { BlockGrows(o, file, c, m, i); } else { NothingIncreases(InternalCompare); }
      InternalOrder();
      var blockIter := NewIterator(InternalCompare, contents.contents, kvs, o.interval);
      if blockIter.None? {
        return None;
      }
      blockIter.value.Seek(k);
      if Holds() { BlockAnswers(o, file, c, m, k, i, blockIter.value.pos); }
      if blockIter.value.Valid() {
        r := Some(KeyValue(blockIter.value.Key(), blockIter.value.Value()));
      } else {
        r := None;
      }
    }
  }

  /** file is the small table with these contents. */
  ghost predicate Built(o: Options, file: Bytes, c: Contents, m: Meta) {
    IsTable(o, file, c, m) && Composes(o.extend) && |file| < LIMIT32
  }

  lemma NothingIncreases(cmp: Comparator)
    ensures Increasing(cmp, [])
  {
  }

  lemma IndexIsGood(o: Options, file: Bytes, c: Contents, m: Meta)
    requires Built(o, file, c, m)
    ensures |c.separators| <= |c.handles| && Increasing(InternalCompare, IndexEntries(c)) && Small(IndexEntries(c), 1)
  {
    hide BlockBytes, Separates, Increasing, IndexEntries, FilterCovers;
    StoredIsSmall(o.extend, file, m.index, IndexEntries(c), 1, false);
  }

  lemma SeekPoints(c: Contents, k: Bytes, index: seq<KeyValue>, i: nat)
    requires |c.separators| <= |c.handles| && index == IndexEntries(c) && i <= |index|
    requires (forall n :: 0 <= n < i ==> InternalCompare(index[n].key, k) < 0)
      && (i < |index| ==> InternalCompare(index[i].key, k) >= 0)
    ensures IndexPoints(c, k, i)
  {
    hide InternalCompare, EncodeHandle;
    forall n | 0 <= n < i ensures Before(c.separators[n], k) { assert index[n].key == c.separators[n]; }
  }

  lemma PastTheBlocks(o: Options, file: Bytes, c: Contents, m: Meta, k: Bytes, i: nat)
    requires Built(o, file, c, m) && IndexPoints(c, k, i) && i == |c.separators|
    ensures Looked(Joined(c.blocks), k, None)
  {
    hide BlockBytes, Separates, Increasing, IndexEntries, FilterCovers, IndexPoints, Looked, Joined;
    PastTheIndex(c, k);
  }

  /** The index entry's value is block i's handle, and the block reads back. */
  ghost predicate BlockReadable(o: Options, file: Bytes, c: Contents, i: nat, handleValue: Bytes, verify: bool)
    requires i < |c.blocks| && |c.handles| == |c.blocks|
  {
    && DecodeHandle(handleValue, 0).Some? && DecodeHandle(handleValue, 0).value.0 == c.handles[i]
    && ReadBlock(o.extend, file, c.handles[i], verify) == Whole(BlockBytes(c.blocks[i], o.interval))
    && Small(c.blocks[i], o.interval)
  }

  lemma IndexedBlock(o: Options, file: Bytes, c: Contents, m: Meta, k: Bytes, i: nat, verify: bool)
    requires Built(o, file, c, m) && i < |c.separators|
    ensures |c.handles| == |c.blocks| == |c.separators|
    ensures BlockReadable(o, file, c, i, IndexEntries(c)[i].value, verify)
  {
    hide BlockBytes, Separates, Increasing, FilterCovers, DecodeHandle, EncodeHandle, ReadBlock, Stored;
    StoredIsSmall(o.extend, file, c.handles[i], c.blocks[i], o.interval, verify);
    WholeHandleReads(c.handles[i]);
  }

  lemma RejectedByFilter(o: Options, file: Bytes, c: Contents, m: Meta, k: Bytes, i: nat)
    requires Built(o, file, c, m) && IndexPoints(c, k, i) && i < |c.blocks| && m.filter.Some?
    requires !FilterMayMatch(UserHash(o.filter.value.hash), m.filter.value.1, c.handles[i].offset, k)
    ensures Looked(Joined(c.blocks), k, None)
  {
    hide BlockBytes, Separates, Increasing, IndexEntries, FilterCovers;
    hide IndexPoints, Looked, Joined, FilterMayMatch, Stored;
    hide FooterBytes, MetaEntries, UserHash;
    StoredInside(o.extend, file, m.filter.value.0, m.filter.value.1);
    FilterSize32(o, file, m);
    RejectedBlock(o.filter.value.hash, m.filter.value.1, c, k, i);
    NoneInBlock(c, k, i);
  }

  lemma FilterSize32(o: Options, file: Bytes, m: Meta)
    requires m.filter.Some? && Stored(o.extend, file, m.filter.value.0, m.filter.value.1) && |file| < LIMIT32
    ensures |m.filter.value.1| <= LIMIT32
  {
    hide RawBlock;
  }

  lemma BlockGrows(o: Options, file: Bytes, c: Contents, m: Meta, i: nat)
    requires Built(o, file, c, m) && i < |c.blocks|
    ensures Increasing(InternalCompare, c.blocks[i])
  {
    hide Increasing;
  }

  /** Where the search of block i stops decides the answer. */
  lemma BlockAnswers(o: Options, file: Bytes, c: Contents, m: Meta, k: Bytes, i: nat, j: nat)
    requires Built(o, file, c, m) && IndexPoints(c, k, i) && i < |c.blocks| && j <= |c.blocks[i]|
    requires forall n :: 0 <= n < j ==> InternalCompare(c.blocks[i][n].key, k) < 0
    requires j < |c.blocks[i]| ==> InternalCompare(c.blocks[i][j].key, k) >= 0
    ensures Looked(Joined(c.blocks), k, if j < |c.blocks[i]| then Some(c.blocks[i][j]) else None)
  {
    hide BlockBytes, Separates, Increasing, IndexEntries, FilterCovers;
    hide IndexPoints, Looked, Joined, Stored, InternalCompare;
    hide FooterBytes, MetaEntries, UserHash;
    if j < |c.blocks[i]| {
      FoundInBlock(c, k, i, j);
    } else {
      forall e | e in c.blocks[i] ensures Before(e.key, k) {
        var n :| 0 <= n < |c.blocks[i]| && c.blocks[i][n] == e;
        assert InternalCompare(c.blocks[i][n].key, k) < 0;
      }
      NoneInBlock(c, k, i);
    }
  }

  // ----- opening -----

  /** Table::Open: None where it returns a status other than OK. */
  method Open(o: Options, file: Bytes, paranoid: bool, ghost c: Contents, ghost m: Meta) returns (table: Option<Table>)
    ensures Built(o, file, c, m) ==> table.Some? && table.value.Holds()
    ensures table.Some? ==>
      table.value.Ready() && table.value.o == o && table.value.file == file && table.value.c == c && table.value.m == m
  {
    hide Built, BlockBytes, IndexEntries;
    if Built(o, file, c, m) { FooterOpens(o, file, c, m, paranoid); }
    if |file| < FOOTER_SIZE {
      return None;
    }
    var footer := DecodeFooter(file[|file| - FOOTER_SIZE..]);
    if footer.None? {
      return None;
    }
    var indexBlock := ReadBlock(o.extend, file, footer.value.1, paranoid);
    if !indexBlock.Whole? {
      return None;
    }
    var filter := ReadMeta(o, file, footer.value.0, paranoid, c, m);
    var t := new Table(o, file, indexBlock.contents, filter, c, m);
    table := Some(t);
  }

  lemma FooterOpens(o: Options, file: Bytes, c: Contents, m: Meta, verify: bool)
    requires Built(o, file, c, m)
    ensures |file| >= FOOTER_SIZE && DecodeFooter(file[|file| - FOOTER_SIZE..]) == Some((m.metaindex, m.index))
    ensures ReadBlock(o.extend, file, m.index, verify) == Whole(BlockBytes(IndexEntries(c), 1))
  {
    hide BlockBytes, Separates, Increasing, IndexEntries, FilterCovers;
    hide Stored, FooterBytes, DecodeFooter, MetaEntries, ReadBlock;
    StoredIsSmall(o.extend, file, m.index, IndexEntries(c), 1, verify);
    FooterReads(m.metaindex, m.index);
  }

  /** ReadMeta and ReadFilter: the filter's reader, if there is a filter and its bytes can be read. */
  method ReadMeta(o: Options, file: Bytes, metaindex: BlockHandle, paranoid: bool, ghost c: Contents, ghost m: Meta)
    returns (filter: FilterBlockReader?)
    ensures filter != null ==> filter.Wired()
    ensures Built(o, file, c, m) && metaindex == m.metaindex ==>
              (filter == null <==> o.filter.None?) && (o.filter.Some? <==> m.filter.Some?)
              && (filter != null ==>
                    && filter.Wired() && filter.hash == UserHash(o.filter.value.hash)
                    && filter.contents == m.filter.value.1)
  {
    hide Built, BlockBytes, UserHash, MetaEntries, FilterKey;
    filter := null;
    FilterIsThere(o, file, c, m);
    if o.filter.None? {
      return;
    }
    ghost var built := Built(o, file, c, m) && metaindex == m.metaindex;
    if built { MetaReads(o, file, c, m, paranoid); }
    var contents := ReadBlock(o.extend, file, metaindex, paranoid);
    if !contents.Whole? {
      return;
    }
    ghost var kvs := if built then MetaEntries(o, m) else [];
    if !built { NothingIncreases(CompareBytes); }
    BytesOrder();
    var iter := NewIterator(CompareBytes, contents.contents, kvs, o.interval);
    if iter.None? {
      return;
    }
    var key := FilterKey(o.filter.value.name);
    SameCompares(key);
    iter.value.Seek(key);
    if iter.value.Valid() && iter.value.Key() == key {
      filter := ReadFilter(o, file, iter.value.Value(), paranoid);
    }
  }

  lemma FilterIsThere(o: Options, file: Bytes, c: Contents, m: Meta)
    ensures Built(o, file, c, m) ==> (o.filter.Some? <==> m.filter.Some?)
  {
  }

  method ReadFilter(o: Options, file: Bytes, handleValue: Bytes, paranoid: bool) returns (filter: FilterBlockReader?)
    requires o.filter.Some?
    ensures var h := DecodeHandle(handleValue, 0);
            if h.Some? && ReadBlock(o.extend, file, h.value.0, paranoid).Whole? then
              filter != null && filter.Wired() && filter.hash == UserHash(o.filter.value.hash)
              && filter.contents == ReadBlock(o.extend, file, h.value.0, paranoid).contents
            else filter == null
  {
    hide UserHash;
    var handle := DecodeHandle(handleValue, 0);
    if handle.None? {
      return null;
    }
    var contents := ReadBlock(o.extend, file, handle.value.0, paranoid);
    if !contents.Whole? {
      return null;
    }
    filter := new FilterBlockReader(UserHash(o.filter.value.hash), contents.contents);
  }

  lemma SameCompares(key: Bytes)
    ensures CompareBytes(key, key) == 0
  {
    RankEmbeds(key, key);
  }

  /** The metaindex block of a built table reads back, and its one entry leads to the filter. */
  lemma MetaReads(o: Options, file: Bytes, c: Contents, m: Meta, verify: bool)
    requires Built(o, file, c, m) && o.filter.Some?
    ensures m.filter.Some? && var kvs := MetaEntries(o, m);
            && ReadBlock(o.extend, file, m.metaindex, verify) == Whole(BlockBytes(kvs, o.interval))
               && Small(kvs, o.interval)
            && Increasing(CompareBytes, kvs) && |kvs| == 1 && kvs[0].key == FilterKey(o.filter.value.name)
            && DecodeHandle(kvs[0].value, 0).Some? && DecodeHandle(kvs[0].value, 0).value.0 == m.filter.value.0
            && ReadBlock(o.extend, file, m.filter.value.0, verify) == Whole(m.filter.value.1)
  {
    hide BlockBytes, Separates, IndexEntries, FilterCovers, Stored;
    hide FooterBytes, ReadBlock, DecodeHandle, EncodeHandle, FilterKey;
    StoredIsSmall(o.extend, file, m.metaindex, MetaEntries(o, m), o.interval, verify);
    StoredReads(o.extend, file, m.filter.value.0, m.filter.value.1, verify);
    StoredInside(o.extend, file, m.filter.value.0, m.filter.value.1);
    WholeHandleReads(m.filter.value.0);
  }

  lemma NextIsAfter(o: Options, b: Build, kvs: seq<KeyValue>, i: nat)
    requires Building(o, b) && i < |kvs| && b.entries == kvs[..i] && Increasing(InternalCompare, kvs)
    ensures b.entries != [] ==> Before(b.lastKey, kvs[i].key)
  {
    hide BlocksStored, Separates, InternalCompare, Joined;
    if i > 0 { assert InternalCompare(kvs[i - 1].key, kvs[i].key) < 0; }
  }

  /** BuildTable: a table of the entries, in order. */
  method BuildTable(o: Options, kvs: seq<KeyValue>) returns (file: Bytes, ghost c: Contents, ghost m: Meta)
    requires Increasing(InternalCompare, kvs) && forall e :: e in kvs ==> |e.key| >= 8
    ensures Joined(c.blocks) == kvs && (|file| < LIMIT32 ==> IsTable(o, file, c, m))
  {
    hide IsTable, Building, Increasing, Joined;
    hide TableBuilder.Wired, TableBuilder.FilterOk;
    var builder := new TableBuilder(o);
    for i := 0 to |kvs|
      invariant builder.Valid() && !builder.closed && fresh(builder) && fresh(builder.dataBlock)
        && fresh(builder.indexBlock)
      invariant builder.filterBlock != null ==> fresh(builder.filterBlock)
      invariant builder.o == o && builder.entries == kvs[..i]
    {
      NextIsAfter(builder.o, builder.Abs(), kvs, i);
      builder.Add(kvs[i].key, kvs[i].value);
    }
    m := builder.Finish();
    file, c := builder.file, builder.c;
    assert kvs[..|kvs|] == kvs;
  }

  /** Building, opening and looking up: the first entry at or after k is found whenever an entry answers k. */
  method BuildAndGet(o: Options, kvs: seq<KeyValue>, k: Bytes) returns (r: Option<KeyValue>, fits: bool)
    requires Composes(o.extend) && Increasing(InternalCompare, kvs) && forall e :: e in kvs ==> |e.key| >= 8
    ensures fits ==> Looked(kvs, k, r)
  {
    hide Looked, IsTable, Increasing, Joined;
    ghost var c, m;
    var file;
    file, c, m := BuildTable(o, kvs);
    fits := |file| < LIMIT32;
    var table := Open(o, file, false, c, m);
    if table.None? {
      return None, fits;
    }
    r := table.value.InternalGet(k, false);
  }
}
