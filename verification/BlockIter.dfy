/** Block::Iter. On a block the builder made it is a cursor over the entries, for any mix of calls. */
module BlockIteration {
  import opened Wrappers
  import opened Keys
  import opened Coding
  import opened KeyEncoding
  import opened BlockFormat
  import opened BlockStreams

  type Comparator = (Bytes, Bytes) -> int

  ghost predicate Transitive(cmp: Comparator) {
    forall a, b, c :: cmp(a, b) < 0 && cmp(b, c) < 0 ==> cmp(a, c) < 0
  }

  ghost predicate Increasing(cmp: Comparator, kvs: seq<KeyValue>) {
    forall i, k :: 0 <= i < k < |kvs| ==> cmp(kvs[i].key, kvs[k].key) < 0
  }

  // ----- parsing one entry -----

  datatype Parse = End | Corrupt | Overrun | Parsed(key: Bytes, valueAt: nat, valueLength: nat)

  /** The entry at `at`, whose key may start with a piece of the previous one. */
  function ParseEntry(data: Bytes, limit: nat, at: nat, previous: Bytes): (r: Parse)
    requires limit <= |data|
    ensures r.Parsed? ==> at < r.valueAt && r.valueAt + r.valueLength <= limit
  {
    if at >= limit then End
    else
      var h := DecodeEntry(data, at, limit);
      if h.None? || |previous| < h.value.shared then Corrupt
      else if !Inside(h.value, limit) then Overrun // the program reads on past the entries
      else Parsed(previous[..h.value.shared] + data[h.value.keyAt..h.value.keyAt + h.value.nonShared],
                 h.value.keyAt + h.value.nonShared, h.value.valueLength)
  }

  lemma ParsesEntry(kvs: seq<KeyValue>, interval: Interval, data: Bytes, limit: nat, i: nat, previous: Bytes)
    requires Small(kvs, interval) && limit == Offset(kvs, interval, |kvs|) <= |data|
      && data[..limit] == Entries(kvs, interval, |kvs|)
    requires i < |kvs| && (i % interval != 0 ==> previous == kvs[i - 1].key)
    ensures var r := ParseEntry(data, limit, Offset(kvs, interval, i), previous);
            && r.Parsed? && r.key == kvs[i].key && r.valueAt + r.valueLength == Offset(kvs, interval, i + 1)
            && data[r.valueAt..r.valueAt + r.valueLength] == kvs[i].value
  {
    hide DecodeEntry, EntryBytes, Entries;
    var at, shared, e := Offset(kvs, interval, i), SharedAt(kvs, interval, i), kvs[i];
    EntryAt(kvs, interval, i, |kvs|);
    OffsetsGrow(kvs, interval, i + 1, |kvs|);
    OffsetsGrow(kvs, interval, i, i + 1);
    HoldsLonger(data[..limit], data[limit..], at, EntryBytes(shared, e));
    assert data == data[..limit] + data[limit..];
    EntryDecodes(data, at, limit, shared, e);
    assert previous[..shared] == e.key[..shared];
    assert e.key == e.key[..shared] + e.key[shared..];
  }

  lemma BlockStarts(kvs: seq<KeyValue>, interval: Interval)
    requires Small(kvs, interval)
    ensures var data, limit := BlockBytes(kvs, interval), Offset(kvs, interval, |kvs|);
            limit <= |data| && data[..limit] == Entries(kvs, interval, |kvs|)
  {
    hide Entries, Restarts;
    RestartsSmall(kvs, interval);
    var tail := Words(Restarts(kvs, interval)) + EncodeFixed32(NumRestarts(|kvs|, interval) % LIMIT32);
    assert BlockBytes(kvs, interval) == Entries(kvs, interval, |kvs|) + tail;
  }

  /** The restart words read back. */
  lemma RestartPointIs(kvs: seq<KeyValue>, interval: Interval, j: nat)
    requires Small(kvs, interval) && j < NumRestarts(|kvs|, interval)
    ensures var data, limit := BlockBytes(kvs, interval), Offset(kvs, interval, |kvs|);
            && limit + 4 * NumRestarts(|kvs|, interval) + 4 == |data| && RestartEntry(interval, j) <= |kvs|
            && DecodeFixed32(data[limit + 4 * j..]) == Offset(kvs, interval, RestartEntry(interval, j))
  {
    hide Entries, Words, EncodeFixed32, DecodeFixed32, Restarts, NumRestarts, Small;
    RestartInRange(|kvs|, interval, j);
    RestartsSmall(kvs, interval);
    RestartIs(kvs, interval, j);
    var rs, tail := Restarts(kvs, interval), EncodeFixed32(NumRestarts(|kvs|, interval) % LIMIT32);
    var data, limit := BlockBytes(kvs, interval), Offset(kvs, interval, |kvs|);
    WordAt(rs, j, tail);
    assert data == Entries(kvs, interval, |kvs|) + (Words(rs) + tail);
    assert data[limit + 4 * j..] == (Words(rs) + tail)[4 * j..];
    SmallIs(rs[j]);
  }

  lemma RestartIs(kvs: seq<KeyValue>, interval: Interval, j: nat)
    requires j < NumRestarts(|kvs|, interval) && RestartEntry(interval, j) <= |kvs|
    ensures Restarts(kvs, interval)[j] == Offset(kvs, interval, RestartEntry(interval, j))
  {
  }

  lemma SmallIs(n: nat)
    requires n < LIMIT32
    ensures n % LIMIT32 == n
  {
  }

  /** Block::Block and NumRestarts: where the restart array starts, and how many words it has. */
  lemma TrailerIs(kvs: seq<KeyValue>, interval: Interval)
    requires Small(kvs, interval)
    ensures var data := BlockBytes(kvs, interval);
            && |data| >= 4 && DecodeFixed32(data[|data| - 4..]) == NumRestarts(|kvs|, interval)
            && |data| - (1 + NumRestarts(|kvs|, interval)) * 4 == Offset(kvs, interval, |kvs|)
  {
    hide Entries, Words, EncodeFixed32, DecodeFixed32, Restarts, NumRestarts, Small;
    RestartsSmall(kvs, interval);
    var data, n := BlockBytes(kvs, interval), NumRestarts(|kvs|, interval);
    SmallIs(n);
    assert data[|data| - 4..] == EncodeFixed32(n) + [];
    Fixed32RoundTrip(n, []);
  }

  /** The count of restart points is there, is not 0, and fits in the block. */
  predicate HasRestarts(data: Bytes) {
    |data| >= 4 && var count := DecodeFixed32(data[|data| - 4..]); 0 < count <= (|data| - 4) / 4
  }

  /** Block::Block: where the restart array starts, as a 32-bit number. */
  function RestartOffset(data: Bytes): (r: nat)
    requires HasRestarts(data)
    ensures r < LIMIT32 && r + 4 * DecodeFixed32(data[|data| - 4..]) <= |data|
  {
    (|data| - (1 + DecodeFixed32(data[|data| - 4..])) * 4) % LIMIT32
  }

  lemma RestartOffsetIs(kvs: seq<KeyValue>, interval: Interval)
    requires Small(kvs, interval)
    ensures var data := BlockBytes(kvs, interval);
            && HasRestarts(data) && RestartOffset(data) == Offset(kvs, interval, |kvs|)
            && DecodeFixed32(data[|data| - 4..]) == NumRestarts(|kvs|, interval)
  {
    hide BlockBytes, Offset, DecodeFixed32, NumRestarts;
    TrailerIs(kvs, interval);
  }

  /** Block::NewIterator: None for the error iterator and for the empty one. */
  method NewIterator(cmp: Comparator, data: Bytes, ghost kvs: seq<KeyValue>, ghost interval: Interval)
    returns (it: Option<BlockIter>)
    ensures it.Some? ==> var i := it.value;
              fresh(i) && i.Framed() && i.restarts <= |i.data| && !i.overrun && i.cmp == cmp && i.data == data
                && i.kvs == kvs && i.interval == interval
    ensures Small(kvs, interval) && data == BlockBytes(kvs, interval) ==> it.Some? && it.value.Built()
  {
    hide Small, BlockBytes, DecodeFixed32, RestartOffset, Offset, NumRestarts;
    if Small(kvs, interval) && data == BlockBytes(kvs, interval) { RestartOffsetIs(kvs, interval); }
    if !HasRestarts(data) {
      return None;
    }
    var i := new BlockIter(cmp, data, kvs, interval);
    it := Some(i);
  }

  class BlockIter {
    const cmp: Comparator
    const data: Bytes
    const restarts: nat    // offset of the restart array
    const numRestarts: nat
    ghost const kvs: seq<KeyValue>
    ghost const interval: Interval
    var current: nat       // offset of the current entry; restarts if there is none
    var restartIndex: nat
    var key: Bytes
    var valueAt: nat
    var valueLength: nat
    var overrun: bool      // an entry that ends past the entries was taken for a good one; what follows is undefined
    ghost var pos: nat     // index of the current entry; |kvs| if there is none

    constructor (cmp: Comparator, data: Bytes, ghost kvs: seq<KeyValue>, ghost interval: Interval)
      requires HasRestarts(data)
      ensures Framed() && restarts <= |data| && !overrun && this.cmp == cmp && this.data == data && this.kvs == kvs
        && this.interval == interval
      ensures Small(kvs, interval) && data == BlockBytes(kvs, interval) ==> Ok() && pos == |kvs|
    {
      hide Small, BlockBytes, DecodeFixed32, Offset, RestartOffset, NumRestarts;
      if Small(kvs, interval) && data == BlockBytes(kvs, interval) { RestartOffsetIs(kvs, interval); }
      this.cmp, this.data, this.kvs, this.interval := cmp, data, kvs, interval;
      numRestarts, restarts := DecodeFixed32(data[|data| - 4..]), RestartOffset(data);
      current, restartIndex := RestartOffset(data), DecodeFixed32(data[|data| - 4..]);
      key, valueAt, valueLength, pos := [], 0, 0, |kvs|;
      overrun := false;
    }

    /** The block is the finished block of kvs. */
    ghost predicate Built() {
      Small(kvs, interval) && data == BlockBytes(kvs, interval) && restarts == Offset(kvs, interval, |kvs|)
      && numRestarts == NumRestarts(|kvs|, interval)
    }

    /** The iterator is at entry i. */
    ghost predicate On(i: nat)
      reads this
    {
      && i < |kvs| && current == Offset(kvs, interval, i) && key == kvs[i].key
      && valueAt + valueLength == Offset(kvs, interval, i + 1) && valueAt + valueLength <= |data|
      && data[valueAt..valueAt + valueLength] == kvs[i].value
      && restartIndex < numRestarts && RestartEntry(interval, restartIndex) <= i
    }

    ghost predicate Off()
      reads `current
    {
      current == restarts
    }

    ghost predicate Ok()
      reads this
    {
      Built() && !overrun && pos <= |kvs| && if pos < |kvs| then On(pos) else Off()
    }

    predicate Valid()
      reads this
      ensures Ok() ==> (Valid() <==> pos < |kvs|)
    {
      InsideBlock();
      current < restarts
    }

    lemma InsideBlock()
      ensures Ok() ==> (current < restarts <==> pos < |kvs|)
    {
      if Ok() { OffsetsGrow(kvs, interval, pos, |kvs|); }
    }

    function Key(): (k: Bytes)
      reads this
      ensures Ok() && Valid() ==> k == kvs[pos].key
    {
      key
    }

    function Value(): (v: Bytes)
      requires Valid() && valueAt + valueLength <= |data|
      reads this
      ensures Ok() ==> v == kvs[pos].value
    {
      data[valueAt..valueAt + valueLength]
    }

    /** Parsing will next look at entry i. */
    ghost predicate Poised(i: nat)
      reads this
    {
      && i <= |kvs| && valueAt + valueLength == Offset(kvs, interval, i)
      && (i < |kvs| && i % interval != 0 ==> key == kvs[i - 1].key)
      && restartIndex < numRestarts && RestartEntry(interval, restartIndex) <= i
    }

    function GetRestartPoint(j: nat): nat
      requires restarts + 4 * numRestarts <= |data| && j < numRestarts
    {
      DecodeFixed32(data[restarts + 4 * j..])
    }

    /** The restart array fits in the block. */
    predicate Framed() { restarts + 4 * numRestarts <= |data| && numRestarts > 0 && restarts < LIMIT32 }

    /** Some entry of the block passes the test although it ends past the entries. */
    ghost predicate HasOverlong()
      requires restarts <= |data|
    {
      exists p: nat :: Overlong(data, p, restarts)
    }

    lemma BuiltIsFramed()
      requires Built()
      ensures Framed() && restarts == Offset(kvs, interval, |kvs|) && numRestarts == NumRestarts(|kvs|, interval)
    {
      RestartPointIs(kvs, interval, 0);
    }

    lemma PointIs(j: nat)
      requires Built() && Framed() && j < numRestarts
      ensures RestartEntry(interval, j) <= |kvs| && (|kvs| > 0 ==> RestartEntry(interval, j) < |kvs|)
      ensures GetRestartPoint(j) == Offset(kvs, interval, RestartEntry(interval, j))
    {
      RestartPointIs(kvs, interval, j);
      RestartInRange(|kvs|, interval, j);
    }

    method SeekToRestartPoint(index: nat)
      requires Framed() && index < numRestarts
      modifies `key, `restartIndex, `valueAt, `valueLength
      ensures restartIndex == index && (Built() ==> Poised(RestartEntry(interval, index)))
    {
      hide Built, GetRestartPoint, RestartEntry, Offset;
      if Built() { PointIs(index); }
      ZeroMod(index, interval);
      key, restartIndex := [], index;
      valueAt, valueLength := GetRestartPoint(index), 0;
    }

    lemma ZeroMod(j: nat, d: Interval)
      ensures RestartEntry(d, j) % d == 0
    {
      DivMod(j, 0, d);
    }

    method CorruptionError()
      modifies `current, `restartIndex, `key, `valueLength
      ensures Off() && key == []
    {
      current, restartIndex, key, valueLength := restarts, numRestarts, [], 0;
    }

    /** Moves to the entry after the one just parsed, on any block. */
    method ParseNextKey() returns (ok: bool)
      requires Framed() && restartIndex < numRestarts
      modifies `current, `restartIndex, `key, `valueAt, `valueLength, `overrun
      ensures var r := ParseEntry(data, restarts, old(valueAt + valueLength), old(key));
              && (ok <==> r.Parsed?) && (!ok ==> Off()) && (overrun <==> old(overrun) || r.Overrun?)
              && (r.Parsed? ==>
                   current == old(valueAt + valueLength) && key == r.key && valueAt == r.valueAt
                     && valueLength == r.valueLength)
      ensures ok ==>
        restartIndex < numRestarts && (restartIndex == old(restartIndex) || GetRestartPoint(restartIndex) < current)
    {
      current := valueAt + valueLength;
      if current >= restarts {
        current, restartIndex := restarts, numRestarts;
        return false;
      }
      var h := DecodeEntry(data, current, restarts);
      if h.None? || |key| < h.value.shared {
        CorruptionError();
        return false;
      }
      if !Inside(h.value, restarts) {
        CorruptionError();
        overrun := true;
        return false;
      }
      key := key[..h.value.shared] + data[h.value.keyAt..h.value.keyAt + h.value.nonShared];
      valueAt, valueLength := h.value.keyAt + h.value.nonShared, h.value.valueLength;
      AdvanceRestart();
      ok := true;
    }

    /** Keeps up with the restart points passed. */
    method AdvanceRestart()
      requires Framed() && restartIndex < numRestarts
      modifies `restartIndex
      ensures restartIndex < numRestarts
        && (restartIndex == old(restartIndex) || GetRestartPoint(restartIndex) < current)
    {
      while restartIndex + 1 < numRestarts && GetRestartPoint(restartIndex + 1) < current
        invariant restartIndex < numRestarts
        invariant restartIndex == old(restartIndex) || GetRestartPoint(restartIndex) < current
      {
        restartIndex := restartIndex + 1;
      }
    }

    /** On a finished block it moves to entry i, or off the end. */
    method ParseEntryAt(ghost i: nat) returns (ok: bool)
      requires Framed() && restarts <= |data| && restartIndex < numRestarts && (Built() ==> Poised(i))
      modifies `current, `restartIndex, `key, `valueAt, `valueLength, `overrun
      ensures overrun ==> old(overrun) || HasOverlong()
      ensures Built() ==> overrun == old(overrun)
      ensures if ok then restartIndex < numRestarts
        && old(valueAt + valueLength) < valueAt + valueLength <= restarts else Off()
      ensures Built() ==> (ok <==> i < |kvs|) && if i < |kvs| then On(i) && Poised(i + 1) else Off()
    {
      hide Built, ParseEntry, Offset, GetRestartPoint, RestartEntry;
      if Built() {
        if i < |kvs| {
          EntryParses(i);
        } else {
          NothingLeft(i);
        }
      }
      ParsesForward(valueAt + valueLength, key);
      OverrunShows(valueAt + valueLength, key);
      ok := ParseNextKey();
      if Built() && i < |kvs| {
        PointIs(restartIndex);
        BeforeCurrent(RestartEntry(interval, restartIndex), i);
      }
    }

    lemma OverrunShows(at: nat, previous: Bytes)
      requires Framed() && restarts <= |data|
      ensures ParseEntry(data, restarts, at, previous).Overrun? ==> HasOverlong()
    {
      OverrunIsOverlong(at);
    }

    lemma ParsesForward(at: nat, previous: Bytes)
      requires restarts <= |data|
      ensures var r := ParseEntry(data, restarts, at, previous);
        r.Parsed? ==> at < r.valueAt && r.valueAt + r.valueLength <= restarts
    {
    }

    lemma EntryParses(i: nat)
      requires Built() && Framed() && Poised(i) && i < |kvs|
      ensures var r := ParseEntry(data, restarts, valueAt + valueLength, key);
              && r.Parsed? && r.key == kvs[i].key && r.valueAt + r.valueLength == Offset(kvs, interval, i + 1)
              && data[r.valueAt..r.valueAt + r.valueLength] == kvs[i].value
    {
      hide BlockBytes, Small, ParseEntry, Entries;
      BlockStarts(kvs, interval);
      ParsesEntry(kvs, interval, data, restarts, i, key);
    }

    lemma NothingLeft(i: nat)
      requires Built() && Framed() && Poised(i) && i == |kvs|
      ensures ParseEntry(data, restarts, valueAt + valueLength, key) == End
    {
    }

    lemma BeforeCurrent(a: nat, i: nat)
      requires Built() && a <= |kvs| && i <= |kvs|
      ensures Offset(kvs, interval, a) < Offset(kvs, interval, i) <==> a < i
    {
      if a < i { OffsetsGrow(kvs, interval, a, i); } else { OffsetsGrow(kvs, interval, i, a); }
    }

    method SeekToFirst()
      requires Ok()
      modifies this
      ensures Ok() && pos == 0
    {
      hide Built, Offset, GetRestartPoint;
      BuiltIsFramed();
      SeekToRestartPoint(0);
      var ok := ParseEntryAt(0);
      pos := 0;
    }

    method Next()
      requires Ok() && Valid()
      modifies this
      ensures Ok() && pos == old(pos) + 1
    {
      hide Built, Offset, RestartEntry;
      BuiltIsFramed();
      var ok := ParseEntryAt(pos + 1);
      pos := pos + 1;
    }

    method SeekToLast()
      requires Ok()
      modifies this
      ensures Ok() && pos == if |kvs| == 0 then 0 else |kvs| - 1
    {
      hide Built, Offset, RestartEntry, GetRestartPoint, Poised, Off, HasOverlong;
      BuiltIsFramed();
      SeekToRestartPoint(numRestarts - 1);
      PointIs(numRestarts - 1);
      ghost var i := RestartEntry(interval, numRestarts - 1);
      var more := ParseEntryAt(i);
      while more && valueAt + valueLength < restarts
        invariant if i < |kvs| then more && On(i) && Poised(i + 1) else !more && Off() && i == |kvs|
        invariant (|kvs| > 0 ==> i < |kvs|) && !overrun
        decreases |kvs| - i
      {
        BeforeCurrent(i + 1, |kvs|);
        i := i + 1;
        more := ParseEntryAt(i);
      }
      if i < |kvs| { BeforeCurrent(i + 1, |kvs|); }
      pos := i;
    }

    method Prev()
      requires Ok() && Valid()
      modifies this
      ensures Ok() && pos == if old(pos) == 0 then |kvs| else old(pos) - 1
    {
      hide Built, Offset, GetRestartPoint;
      BuiltIsFramed();
      ghost var i := pos;
      var original := current;
      var found := FindRestartBefore(i);
      if !found {
        current, restartIndex := restarts, numRestarts;
        pos := |kvs|;
        return;
      }
      ghost var j := RestartEntry(interval, restartIndex);
      SeekToRestartPoint(restartIndex);
      var more := ParseEntryAt(j);
      j := ScanTo(j, i, original);
      pos := j;
    }

    /** Scans backwards to a restart point before entry i. */
    method FindRestartBefore(ghost i: nat) returns (found: bool)
      requires Built() && Framed() && On(i)
      modifies `restartIndex
      ensures found <==> i > 0
      ensures found ==> restartIndex < numRestarts && RestartEntry(interval, restartIndex) < i
    {
      hide Built, Offset, GetRestartPoint;
      while GetRestartPoint(restartIndex) >= current
        invariant restartIndex < numRestarts && RestartEntry(interval, restartIndex) <= i
        decreases restartIndex
      {
        PointIs(restartIndex);
        BeforeCurrent(RestartEntry(interval, restartIndex), i);
        if restartIndex == 0 {
          return false;
        }
        restartIndex := restartIndex - 1;
      }
      PointIs(restartIndex);
      BeforeCurrent(RestartEntry(interval, restartIndex), i);
      found := true;
    }

    /** Loops until the end of the current entry hits the start of entry i. */
    method ScanTo(ghost from: nat, ghost i: nat, original: nat) returns (ghost j: nat)
      requires Built() && Framed() && from < i <= |kvs| && On(from) && Poised(from + 1)
        && original == Offset(kvs, interval, i)
      modifies `current, `restartIndex, `key, `valueAt, `valueLength, `overrun
      ensures j == i - 1 && On(j) && overrun == old(overrun)
    {
      hide Built, Offset, RestartEntry;
      j := from;
      var more := true;
      while more && valueAt + valueLength < original
        invariant j < i && more && On(j) && Poised(j + 1) && overrun == old(overrun)
        decreases i - j
      {
        BeforeCurrent(j + 1, i);
        j := j + 1;
        more := ParseEntryAt(j);
      }
      BeforeCurrent(j + 1, i);
    }

    /** The whole key at a restart point, decoded without the iterator's state; None if the block is damaged. */
    function RestartKey(j: nat): Option<Bytes>
      requires Framed() && j < numRestarts && restarts <= |data|
    {
      var h := DecodeEntry(data, GetRestartPoint(j), restarts);
      if h.None? || h.value.shared != 0 || !Inside(h.value, restarts) then None
      else Some(data[h.value.keyAt..h.value.keyAt + h.value.nonShared])
    }

    lemma RestartKeyIs(j: nat)
      requires Built() && Framed() && restarts <= |data| && j < numRestarts && |kvs| > 0
      ensures RestartEntry(interval, j) < |kvs| && RestartKey(j) == Some(kvs[RestartEntry(interval, j)].key)
    {
      hide BlockBytes, Small, RestartEntry, GetRestartPoint, DecodeEntry, Entries;
      PointIs(j);
      ZeroMod(j, interval);
      BlockStarts(kvs, interval);
      RestartDecodes(RestartEntry(interval, j));
    }

    lemma RestartDecodes(i: nat)
      requires Built() && Framed() && restarts <= |data| && i < |kvs| && i % interval == 0
      ensures var h := DecodeEntry(data, Offset(kvs, interval, i), restarts);
              h.Some? && h.value.shared == 0 && Inside(h.value, restarts)
                && data[h.value.keyAt..h.value.keyAt + h.value.nonShared] == kvs[i].key
    {
      hide DecodeEntry, Entries, EntryBytes, BlockBytes;
      BlockStarts(kvs, interval);
      EntryAt(kvs, interval, i, |kvs|);
      OffsetsGrow(kvs, interval, i + 1, |kvs|);
      HoldsLonger(data[..restarts], data[restarts..], Offset(kvs, interval, i), EntryBytes(0, kvs[i]));
      assert data == data[..restarts] + data[restarts..];
      EntryDecodes(data, Offset(kvs, interval, i), restarts, 0, kvs[i]);
      assert kvs[i].key[0..] == kvs[i].key;
    }

    /** The header at restart point j passes the tests although the entry ends past the entries. */
    predicate RestartOverruns(j: nat)
      requires Framed() && j < numRestarts && restarts <= |data|
    {
      var h := DecodeEntry(data, GetRestartPoint(j), restarts);
      h.Some? && h.value.shared == 0 && !Inside(h.value, restarts)
    }

    lemma OverrunsAreNone(j: nat)
      requires Framed() && j < numRestarts && restarts <= |data|
      ensures RestartOverruns(j) ==> RestartKey(j).None?
    {
    }

    lemma OverrunIsOverlong(at: nat)
      requires Framed() && restarts <= |data|
      ensures var h := DecodeEntry(data, at, restarts); h.Some? && !Inside(h.value, restarts) ==> HasOverlong()
    {
      InsideIff(data, at, restarts);
    }

    /** Restart point j is before target, as far as its key can be read. */
    predicate RestartBefore(j: nat, target: Bytes)
      requires Framed() && j < numRestarts && restarts <= |data|
    {
      RestartKey(j).Some? && cmp(RestartKey(j).value, target) < 0
    }

    /** The binary search of Seek: the last restart point found before target, or failure on a damaged block. */
    method SearchRestarts(target: Bytes) returns (left: nat, ok: bool)
      requires Framed() && restarts <= |data| && !overrun
      modifies `overrun
      ensures overrun ==> !ok && HasOverlong()
      ensures left < numRestarts && (left > 0 ==> RestartBefore(left, target))
      ensures !ok ==> numRestarts > 1 && exists j :: 0 <= j < numRestarts && RestartKey(j).None?
    {
      hide RestartKey;
      left, ok := 0, true;
      var right := numRestarts - 1;
      while left < right
        invariant left <= right < numRestarts && (left > 0 ==> RestartBefore(left, target)) && !overrun
      {
        var mid := (left + right + 1) / 2;
        OverrunIsOverlong(GetRestartPoint(mid));
        OverrunsAreNone(mid);
        if RestartOverruns(mid) {
          overrun := true;
          return left, false;
        }
        var midKey := RestartKey(mid);
        if midKey.None? {
          return left, false;
        }
        if cmp(midKey.value, target) < 0 {
          left := mid;
        } else {
          right := mid - 1;
        }
      }
    }

    /** Lands on the first entry at or after target. */
    method Seek(target: Bytes)
      requires Framed() && restarts <= |data| && !overrun
      requires Built() ==> Transitive(cmp) && Increasing(cmp, kvs)
      modifies this
      ensures overrun ==> HasOverlong()
      ensures Built() ==> Ok() && (forall i :: 0 <= i < pos ==> cmp(kvs[i].key, target) < 0)
                               && (pos < |kvs| ==> cmp(kvs[pos].key, target) >= 0)
      ensures Valid() ==> valueAt + valueLength <= |data|
    {
      hide Built, RestartKey, Offset, GetRestartPoint, RestartEntry;
      var left, ok := SearchRestarts(target);
      if Built() { RestartsReadable(left, target); }
      if !ok {
        CorruptionError();
        pos := |kvs|;
        return;
      }
      SeekToRestartPoint(left);
      ghost var i := RestartEntry(interval, left);
      while true
        invariant restartIndex < numRestarts && (overrun ==> HasOverlong()) && (Built() ==> !overrun)
        invariant Built() ==> Poised(i) && forall k :: 0 <= k < i ==> cmp(kvs[k].key, target) < 0
        decreases if valueAt + valueLength <= restarts then restarts - (valueAt + valueLength) else 0
      {
        var more := ParseEntryAt(i);
        if !more || cmp(key, target) >= 0 {
          pos := i;
          return;
        }
        i := i + 1;
      }
    }

    /** On a finished block every restart key can be read, and all entries before the one found are before target. */
    lemma RestartsReadable(left: nat, target: Bytes)
      requires Built() && Framed() && restarts <= |data| && left < numRestarts
        && (left > 0 ==> RestartBefore(left, target))
      requires Transitive(cmp) && Increasing(cmp, kvs)
      ensures numRestarts > 1 ==> forall j :: 0 <= j < numRestarts ==> RestartKey(j).Some?
      ensures RestartEntry(interval, left) <= |kvs|
        && forall k :: 0 <= k < RestartEntry(interval, left) ==> cmp(kvs[k].key, target) < 0
    {
      hide RestartKey, Offset, BlockBytes, Small;
      if |kvs| > 0 {
        forall j: nat | j < numRestarts ensures RestartKey(j).Some? { RestartKeyIs(j); }
        RestartKeyIs(left);
      }
    }
  }
}
