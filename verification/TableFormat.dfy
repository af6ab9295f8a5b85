/** The file format of a table: raw blocks with their trailers, block handles, the footer; the order of its keys; and
    what it means for a file to be the table of a list of entries. */
module TableFormat {
  import opened Wrappers
  import opened Keys
  import opened Coding
  import opened KeyEncoding
  import opened BlockFormat
  import opened BlockStreams
  import opened BlockIteration
  import opened LogFormat
  import opened Bloom
  import opened FilterBlock

  // ----- the order of encoded internal keys -----

  /** ExtractUserKey, and a total extension to strings too short to be internal keys. */
  function UserOf(key: Bytes): Bytes { if |key| >= 8 then ExtractUserKey(key) else key }

  function TrailerOf(key: Bytes): nat { if |key| >= 8 then Trailer(key) else 0 }

  /** InternalKeyComparator::Compare, totally. */
  function InternalCompare(a: Bytes, b: Bytes): (r: int)
    ensures |a| >= 8 && |b| >= 8 ==> r == CompareEncoded(a, b)
  {
    var r := CompareBytes(UserOf(a), UserOf(b));
    if r != 0 then r
    else if TrailerOf(a) > TrailerOf(b) then -1
    else if TrailerOf(a) < TrailerOf(b) then 1
    else 0
  }

  predicate Before(a: Bytes, b: Bytes) { InternalCompare(a, b) < 0 }

  predicate SameUser(a: Bytes, b: Bytes) { UserOf(a) == UserOf(b) }

  /** The order in terms of numbers. */
  lemma BeforeIs(a: Bytes, b: Bytes)
    ensures Before(a, b) <==> Rank(UserOf(a)) < Rank(UserOf(b)) || (SameUser(a, b) && TrailerOf(a) > TrailerOf(b))
    ensures SameUser(a, b) <==> Rank(UserOf(a)) == Rank(UserOf(b))
    ensures LessBytes(UserOf(a), UserOf(b)) <==> Rank(UserOf(a)) < Rank(UserOf(b))
  {
    RankEmbeds(UserOf(a), UserOf(b));
  }

  lemma BeforeTransitive(a: Bytes, b: Bytes, c: Bytes)
    ensures Before(a, b) && Before(b, c) ==> Before(a, c)
    ensures Before(a, b) && !Before(c, b) ==> Before(a, c)
    ensures !Before(b, a) && Before(b, c) ==> Before(a, c)
    ensures !Before(b, a) && !Before(c, b) ==> !Before(c, a)
  {
    hide Before;
    BeforeIs(a, b);
    BeforeIs(b, a);
    BeforeIs(b, c);
    BeforeIs(c, b);
    BeforeIs(a, c);
    BeforeIs(c, a);
  }

  lemma InternalOrder()
    ensures Transitive(InternalCompare)
  {
    forall a, b, c | InternalCompare(a, b) < 0 && InternalCompare(b, c) < 0 ensures InternalCompare(a, c) < 0 {
      BeforeTransitive(a, b, c);
      assert Before(a, b) && Before(b, c);
    }
  }

  lemma BytesOrder()
    ensures Transitive(CompareBytes)
  {
    forall a, b, c | CompareBytes(a, b) < 0 && CompareBytes(b, c) < 0 ensures CompareBytes(a, c) < 0 {
      RankEmbeds(a, b);
      RankEmbeds(b, c);
      RankEmbeds(a, c);
    }
  }

  // ----- handles -----

  datatype BlockHandle = BlockHandle(offset: nat, size: nat)

  function EncodeHandle(h: BlockHandle): Bytes { EncodeVarint(h.offset) + EncodeVarint(h.size) }

  /** GetVarint64Ptr: at most ten bytes, in 64-bit arithmetic. */
  function GetVarint64(bytes: Bytes, p: nat): (r: Option<(nat, nat)>)
    ensures r.Some? ==> p < r.value.1 <= |bytes|
  {
    var r := DecodeVarint(bytes, p, |bytes|, 10);
    if r.None? then None else Some((r.value.0 % LIMIT64, r.value.1))
  }

  /** BlockHandle::DecodeFrom at p: the handle and where it ends. */
  function DecodeHandle(bytes: Bytes, p: nat): Option<(BlockHandle, nat)> {
    var offset := GetVarint64(bytes, p);
    if offset.None? then None
    else
      var size := GetVarint64(bytes, offset.value.1);
      if size.None? then None
      else Some((BlockHandle(offset.value.0, size.value.0), size.value.1))
  }

  predicate SmallHandle(h: BlockHandle) { h.offset < LIMIT32 && h.size < LIMIT32 }

  lemma VarintReads(bytes: Bytes, p: nat, n: nat)
    requires n < LIMIT32 && HoldsAt(bytes, p, EncodeVarint(n))
    ensures GetVarint64(bytes, p) == Some((n, p + |EncodeVarint(n)|))
  {
    hide EncodeVarint, DecodeVarint, Power128;
    TenBytes();
    VarintRoundTrip(bytes, p, |bytes|, n, 10);
  }

  lemma TenBytes()
    ensures Power128(10) >= LIMIT32
  {
    FiveBytes();
    assert Power128(10) == 128 * (128 * (128 * (128 * (128 * Power128(5)))));
  }

  lemma HandleReads(bytes: Bytes, p: nat, h: BlockHandle)
    requires SmallHandle(h) && HoldsAt(bytes, p, EncodeHandle(h))
    ensures DecodeHandle(bytes, p) == Some((h, p + |EncodeHandle(h)|))
  {
    hide HoldsAt, EncodeVarint, GetVarint64;
    HoldsParts(bytes, p, EncodeVarint(h.offset), EncodeVarint(h.size));
    VarintReads(bytes, p, h.offset);
    VarintReads(bytes, p + |EncodeVarint(h.offset)|, h.size);
  }

  lemma WholeHandleReads(h: BlockHandle)
    requires SmallHandle(h)
    ensures DecodeHandle(EncodeHandle(h), 0) == Some((h, |EncodeHandle(h)|))
  {
    hide DecodeHandle, EncodeHandle;
    var bytes := EncodeHandle(h);
    assert bytes[0..0 + |bytes|] == bytes;
    HandleReads(bytes, 0, h);
  }

  // ----- raw blocks -----

  const TRAILER_SIZE: nat := 5
  const NO_COMPRESSION: byte := 0

  /** Contents, compression type, masked checksum of both. */
  function RawBlock(extend: Checksum, contents: Bytes): (raw: Bytes)
    ensures |raw| == |contents| + TRAILER_SIZE && raw[..|contents|] == contents
  {
    contents + [NO_COMPRESSION] + EncodeFixed32(Mask(extend(extend(0, contents), [NO_COMPRESSION])))
  }

  ghost predicate Stored(extend: Checksum, file: Bytes, h: BlockHandle, contents: Bytes) {
    h.size == |contents| && HoldsAt(file, h.offset, RawBlock(extend, contents))
  }

  lemma StoredLonger(extend: Checksum, file: Bytes, more: Bytes, h: BlockHandle, contents: Bytes)
    requires Stored(extend, file, h, contents)
    ensures Stored(extend, file + more, h, contents)
  {
    hide RawBlock;
    HoldsLonger(file, more, h.offset, RawBlock(extend, contents));
  }

  /** What ReadBlock comes to: the contents, a status other than OK (or a compressed block), or a read past the buffer.
      */
  datatype BlockRead = Whole(contents: Bytes) | Failed | Overread

  /** The size of the block and its trailer, as a 64-bit number. */
  function ReadSize(h: BlockHandle): nat { (h.size + TRAILER_SIZE) % LIMIT64 }

  function ReadBlock(extend: Checksum, file: Bytes, h: BlockHandle, verify: bool): BlockRead {
    if h.offset + ReadSize(h) > |file| then Failed
    else if h.size >= ReadSize(h) then Overread // the compression type is looked for past what was read
    else
      var data := file[h.offset..h.offset + h.size + TRAILER_SIZE];
      if verify && Unmask(DecodeFixed32(data[h.size + 1..])) != extend(0, data[..h.size + 1]) then Failed
      else if data[h.size] != NO_COMPRESSION then Failed
      else Whole(data[..h.size])
  }

  /** ReadBlock reads past its buffer exactly when the size of block and trailer does not fit in 64 bits, and the little
      that is left of it is in the file. */
  lemma OverreadIff(extend: Checksum, file: Bytes, h: BlockHandle, verify: bool)
    requires h.size < LIMIT64
    ensures ReadBlock(extend, file, h, verify).Overread? <==>
      h.size >= LIMIT64 - TRAILER_SIZE && h.offset + (h.size - (LIMIT64 - TRAILER_SIZE)) <= |file|
  {
  }

  /** So it does on any file, for the handle whose trailer makes the size wrap to 0. */
  lemma LargestHandleOverreads(extend: Checksum, file: Bytes, verify: bool)
    ensures ReadBlock(extend, file, BlockHandle(0, LIMIT64 - TRAILER_SIZE), verify) == Overread
  {
    OverreadIff(extend, file, BlockHandle(0, LIMIT64 - TRAILER_SIZE), verify);
  }

  lemma StoredReads(extend: Checksum, file: Bytes, h: BlockHandle, contents: Bytes, verify: bool)
    requires Stored(extend, file, h, contents) && Composes(extend) && |file| < LIMIT64
    ensures ReadBlock(extend, file, h, verify) == Whole(contents)
  {
    hide Mask, Unmask, EncodeFixed32, DecodeFixed32;
    var data := file[h.offset..h.offset + h.size + TRAILER_SIZE];
    var crc := extend(extend(0, contents), [NO_COMPRESSION]);
    assert data == RawBlock(extend, contents);
    assert data[h.size + 1..] == EncodeFixed32(Mask(crc)) + [];
    Fixed32RoundTrip(Mask(crc), []);
    UnmaskInvertsMask(crc);
    assert data[..h.size + 1] == contents + [NO_COMPRESSION];
    assert data[..h.size] == contents;
  }

  // ----- the footer -----

  const FOOTER_SIZE: nat := 48
  const MAGIC_LOW: word := 0x8b80fb57
  const MAGIC_HIGH: word := 0xdb477524

  /** Two handles, made 40 bytes long, and the magic number. */
  function FooterBytes(meta: BlockHandle, index: BlockHandle): (bytes: Bytes)
    ensures |bytes| == FOOTER_SIZE
  {
    var handles := EncodeHandle(meta) + EncodeHandle(index);
    var padded := if |handles| <= 40 then handles + Zeros(40 - |handles|) else handles[..40];
    padded + EncodeFixed32(MAGIC_LOW) + EncodeFixed32(MAGIC_HIGH)
  }

  lemma {:induction false} VarintLength(n: nat, count: nat)
    requires count > 0 && n < Power128(count)
    ensures |EncodeVarint(n)| <= count
    decreases count
  {
    if n >= 128 { VarintLength(n / 128, count - 1); }
  }

  lemma ShortHandle(h: BlockHandle)
    requires SmallHandle(h)
    ensures 2 <= |EncodeHandle(h)| <= 20
  {
    FiveBytes();
    VarintLength(h.offset, 5);
    VarintLength(h.size, 5);
  }

  /** Footer::DecodeFrom. */
  function DecodeFooter(bytes: Bytes): Option<(BlockHandle, BlockHandle)>
    requires |bytes| == FOOTER_SIZE
  {
    if DecodeFixed32(bytes[40..]) != MAGIC_LOW || DecodeFixed32(bytes[44..]) != MAGIC_HIGH then None
    else
      var meta := DecodeHandle(bytes, 0);
      if meta.None? then None
      else
        var index := DecodeHandle(bytes, meta.value.1);
        if index.None? then None else Some((meta.value.0, index.value.0))
  }

  lemma FooterReads(meta: BlockHandle, index: BlockHandle)
    requires SmallHandle(meta) && SmallHandle(index)
    ensures DecodeFooter(FooterBytes(meta, index)) == Some((meta, index))
  {
    hide DecodeHandle, EncodeHandle, EncodeFixed32, DecodeFixed32;
    var bytes := FooterBytes(meta, index);
    ShortHandle(meta);
    ShortHandle(index);
    var a, b := EncodeHandle(meta), EncodeHandle(index);
    assert bytes[0..0 + |a|] == a && bytes[|a|..|a| + |b|] == b;
    HandleReads(bytes, 0, meta);
    HandleReads(bytes, |a|, index);
    assert bytes[40..] == EncodeFixed32(MAGIC_LOW) + EncodeFixed32(MAGIC_HIGH);
    assert bytes[44..] == EncodeFixed32(MAGIC_HIGH) + [];
    Fixed32RoundTrip(MAGIC_LOW, EncodeFixed32(MAGIC_HIGH));
    Fixed32RoundTrip(MAGIC_HIGH, []);
  }

  // ----- tables -----

  /** Options. The filter policy sees user keys. */
  datatype Options = Options(extend: Checksum, interval: Interval, blockSize: nat, filter: Option<FilterOptions>)

  datatype FilterOptions = FilterOptions(hash: Hash, bitsPerKey: nat, name: Bytes)

  /** InternalFilterPolicy: the hash of the user key. */
  function UserHash(hash: Hash): Hash { (key: Bytes) => hash(UserOf(key)) }

  /** The blocks of a table, where they are, and their keys in the index. */
  datatype Contents = Contents(blocks: seq<seq<KeyValue>>, handles: seq<BlockHandle>, separators: seq<Bytes>)

  function Joined(blocks: seq<seq<KeyValue>>): seq<KeyValue> {
    if blocks == [] then [] else Joined(blocks[..|blocks| - 1]) + blocks[|blocks| - 1]
  }

  lemma {:induction false} JoinedAre(blocks: seq<seq<KeyValue>>, e: KeyValue)
    ensures e in Joined(blocks) <==> exists i :: 0 <= i < |blocks| && e in blocks[i]
  {
    if blocks != [] {
      var n := |blocks| - 1;
      JoinedAre(blocks[..n], e);
      if i :| 0 <= i < n && e in blocks[i] { assert e in blocks[..n][i]; }
      if i :| 0 <= i < n && e in blocks[..n][i] { assert e in blocks[i]; }
    }
  }

  /** The index block's entries. */
  function IndexEntries(c: Contents): (kvs: seq<KeyValue>)
    requires |c.separators| <= |c.handles|
    ensures |kvs| == |c.separators|
  {
    seq(|c.separators|, i requires 0 <= i < |c.separators| => KeyValue(c.separators[i], EncodeHandle(c.handles[i])))
  }

  /** Separator i is not before the keys of block i, and before every later key; either it is the last key of block i,
      or its user key is before those of all later keys. */
  ghost predicate Separates(blocks: seq<seq<KeyValue>>, separators: seq<Bytes>) {
    && |separators| <= |blocks|
    && (forall i, e :: 0 <= i < |separators| && e in blocks[i] ==> !Before(separators[i], e.key))
    && (forall i, j, e :: 0 <= i < |separators| && i < j < |blocks| && e in blocks[j] ==> Before(separators[i], e.key))
    && (forall i, j, e :: 0 <= i < |separators| && i < j < |blocks| && e in blocks[j] ==>
          Ends(blocks[i], separators[i]) || LessBytes(UserOf(separators[i]), UserOf(e.key)))
  }

  ghost predicate Ends(block: seq<KeyValue>, key: Bytes) { block != [] && block[|block| - 1].key == key }

  ghost predicate BlocksStored(o: Options, file: Bytes, c: Contents) {
    && |c.handles| == |c.blocks|
    && forall i :: 0 <= i < |c.blocks| ==> Stored(o.extend, file, c.handles[i], BlockBytes(c.blocks[i], o.interval))
  }

  /** The filter block, if there is one, admits every key at its block's offset. */
  ghost predicate FilterCovers(hash: Hash, filter: Bytes, c: Contents)
    requires |c.handles| == |c.blocks|
  {
    |filter| <= LIMIT32 ==> forall i, e :: 0 <= i < |c.blocks| && e in c.blocks[i] ==>
      FilterMayMatch(UserHash(hash), filter, c.handles[i].offset, e.key)
  }

  /** Where the meta blocks are; filter is present exactly when the options have a filter policy. */
  datatype Meta = Meta(metaindex: BlockHandle, index: BlockHandle, filter: Option<(BlockHandle, Bytes)>)

  const FILTER_PREFIX: Bytes := [0x66, 0x69, 0x6c, 0x74, 0x65, 0x72, 0x2e] // "filter."

  function FilterKey(name: Bytes): Bytes { FILTER_PREFIX + name }

  ghost function MetaEntries(o: Options, m: Meta): seq<KeyValue>
    requires o.filter.Some? <==> m.filter.Some?
  {
    if o.filter.None? then [] else [KeyValue(FilterKey(o.filter.value.name), EncodeHandle(m.filter.value.0))]
  }

  /** file is the table with these contents. */
  ghost predicate IsTable(o: Options, file: Bytes, c: Contents, m: Meta) {
    && BlocksStored(o, file, c) && |c.separators| == |c.blocks|
    && (forall i :: 0 <= i < |c.blocks| ==> Increasing(InternalCompare, c.blocks[i]))
    && Separates(c.blocks, c.separators) && Increasing(InternalCompare, IndexEntries(c))
    && (o.filter.Some? <==> m.filter.Some?)
    && (m.filter.Some? ==> Stored(o.extend, file, m.filter.value.0, m.filter.value.1)
                           && FilterCovers(o.filter.value.hash, m.filter.value.1, c))
    && Stored(o.extend, file, m.metaindex, BlockBytes(MetaEntries(o, m), o.interval))
    && Stored(o.extend, file, m.index, BlockBytes(IndexEntries(c), 1))
    && SmallHandle(m.metaindex) && SmallHandle(m.index)
    && |file| >= FOOTER_SIZE && file[|file| - FOOTER_SIZE..] == FooterBytes(m.metaindex, m.index)
  }
}
