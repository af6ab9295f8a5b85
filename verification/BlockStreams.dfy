/** BlockBuilder and Block::Iter: what the builder wrote, the iterator walks, in either direction and by search. */
module BlockStreams {
  import opened Wrappers
  import opened Keys
  import opened Coding
  import opened KeyEncoding
  import opened BlockFormat

  // ----- whole blocks -----

  /** PutFixed32 of each: what does not fit in 32 bits is cut off. */
  function Words(ws: seq<nat>): (bytes: Bytes)
    ensures |bytes| == 4 * |ws|
  {
    if ws == [] then [] else Words(ws[..|ws| - 1]) + EncodeFixed32(ws[|ws| - 1] % LIMIT32)
  }

  /** Sizes fit the format's 32-bit fields. */
  ghost predicate Small(kvs: seq<KeyValue>, interval: Interval) {
    && Offset(kvs, interval, |kvs|) + 1 < LIMIT32
    && forall e :: e in kvs ==> |e.key| < LIMIT32 && |e.value| < LIMIT32
  }

  lemma RestartsSmall(kvs: seq<KeyValue>, interval: Interval)
    requires Small(kvs, interval)
    ensures (forall j :: 0 <= j < |Restarts(kvs, interval)| ==> Restarts(kvs, interval)[j] < LIMIT32)
      && NumRestarts(|kvs|, interval) < LIMIT32
  {
    forall j: nat | j < NumRestarts(|kvs|, interval) ensures Restarts(kvs, interval)[j] < LIMIT32 {
      RestartInRange(|kvs|, interval, j);
      OffsetsGrow(kvs, interval, RestartEntry(interval, j), |kvs|);
    }
    OffsetsGrow(kvs, interval, 0, |kvs|);
    FewRestarts(|kvs|, interval);
  }

  lemma FewRestarts(n: nat, interval: Interval)
    ensures NumRestarts(n, interval) <= n + 1
  {
    if n > 0 {
      var q := (n - 1) / interval;
      assert q <= q * interval <= n - 1;
    }
  }

  /** A finished block: entries, restart offsets, and how many there are. */
  ghost function BlockBytes(kvs: seq<KeyValue>, interval: Interval): Bytes {
    Entries(kvs, interval, |kvs|) + Words(Restarts(kvs, interval))
    + EncodeFixed32(NumRestarts(|kvs|, interval) % LIMIT32)
  }

  lemma {:induction false} WordAt(ws: seq<nat>, j: nat, more: Bytes)
    requires j < |ws|
    ensures DecodeFixed32((Words(ws) + more)[4 * j..]) == ws[j] % LIMIT32
    decreases |ws|
  {
    var front, last := ws[..|ws| - 1], EncodeFixed32(ws[|ws| - 1] % LIMIT32);
    assert Words(ws) + more == Words(front) + (last + more);
    if j == |ws| - 1 {
      assert (Words(front) + (last + more))[4 * j..] == last + more;
      Fixed32RoundTrip(ws[j] % LIMIT32, more);
    } else {
      WordAt(front, j, last + more);
    }
  }

  // ----- the builder -----

  class BlockBuilder {
    const interval: Interval // block_restart_interval
    var buffer: Bytes
    var restarts: seq<nat>
    var counter: nat // entries since the last restart
    var lastKey: Bytes
    ghost var kvs: seq<KeyValue>

    constructor (interval: Interval)
      ensures Valid() && kvs == [] && this.interval == interval
    {
      this.interval := interval;
      buffer, restarts, counter, lastKey, kvs := [], [0], 0, [], [];
    }

    ghost predicate Valid()
      reads this
    {
      && buffer == Entries(kvs, interval, |kvs|) && restarts == Restarts(kvs, interval)
      && counter == (if kvs == [] then 0 else (|kvs| - 1) % interval + 1)
      && lastKey == if kvs == [] then [] else kvs[|kvs| - 1].key
    }

    method Add(key: Bytes, value: Bytes)
      requires Valid()
      modifies this
      ensures Valid() && kvs == old(kvs) + [KeyValue(key, value)]
    {
      hide Entries, Restarts, EntryBytes, CommonPrefix;
      ghost var i, before := |kvs|, kvs;
      var e := KeyValue(key, value);
      var shared := 0;
      CounterSays(i, interval);
      LongerEntries(before, e, interval, i);
      LongerRestarts(before, e, interval);
      EntryAdded(before, e, interval);
      NoPrefix(key);
      if counter < interval {
        shared := FindShared(lastKey, key);
      } else {
        restarts := restarts + [|buffer|];
        counter := 0;
      }
      buffer := buffer + EntryBytes(shared, e);
      lastKey := lastKey[..shared] + key[shared..];
      assert lastKey == key;
      counter := counter + 1;
      kvs := kvs + [e];
    }

    /** The sharing loop. */
    method FindShared(last: Bytes, key: Bytes) returns (shared: nat)
      ensures shared == CommonPrefix(last, key)
    {
      var minLength := if |last| < |key| then |last| else |key|;
      shared := 0;
      assert last[0..] == last && key[0..] == key;
      while shared < minLength && last[shared] == key[shared]
        invariant shared <= minLength && CommonPrefix(last, key) == shared + CommonPrefix(last[shared..], key[shared..])
      {
        assert last[shared..][1..] == last[shared + 1..] && key[shared..][1..] == key[shared + 1..];
        shared := shared + 1;
      }
    }

    method Finish() returns (block: Bytes)
      requires Valid()
      modifies this`buffer
      ensures block == BlockBytes(kvs, interval)
    {
      hide Entries, Restarts;
      for i := 0 to |restarts|
        invariant buffer == old(buffer) + Words(restarts[..i])
      {
        assert restarts[..i + 1][..i] == restarts[..i];
        buffer := buffer + EncodeFixed32(restarts[i] % LIMIT32);
      }
      assert restarts[..|restarts|] == restarts;
      buffer := buffer + EncodeFixed32(|restarts| % LIMIT32);
      block := buffer;
    }

    method Reset()
      modifies `buffer, `restarts, `counter, `lastKey, `kvs
      ensures Valid() && kvs == []
    {
      buffer, restarts, counter, lastKey, kvs := [], [0], 0, [], [];
    }

    function CurrentSizeEstimate(): nat
      reads this
    {
      |buffer| + 4 * |restarts| + 4
    }

    /** empty() */
    predicate IsEmpty()
      requires Valid()
      reads this
      ensures IsEmpty() <==> kvs == []
    {
      OffsetsGrow(kvs, interval, 0, |kvs|);
      buffer == []
    }
  }

  /** One more entry, sharing with the one before it unless it is at a restart. */
  lemma EntryAdded(kvs: seq<KeyValue>, e: KeyValue, interval: Interval)
    ensures var all := kvs + [e];
            && SharedAt(all, interval, |kvs|) ==
               (if |kvs| % interval == 0 then 0 else CommonPrefix(kvs[|kvs| - 1].key, e.key))
            && Entries(all, interval, |all|) ==
               Entries(all, interval, |kvs|) + EntryBytes(SharedAt(all, interval, |kvs|), e)
  {
    hide EntryBytes;
  }

  lemma NoPrefix(key: Bytes)
    ensures CommonPrefix([], key) == 0
  {
  }

  lemma {:induction false} LongerEntries(kvs: seq<KeyValue>, e: KeyValue, interval: Interval, n: nat)
    requires n <= |kvs|
    ensures Entries(kvs + [e], interval, n) == Entries(kvs, interval, n)
    decreases n
  {
    hide EntryBytes;
    if n > 0 { LongerEntries(kvs, e, interval, n - 1); }
  }

  /** The restart array grows exactly when the new entry's position is a multiple of the interval. */
  lemma LongerRestarts(kvs: seq<KeyValue>, e: KeyValue, interval: Interval)
    ensures Restarts(kvs + [e], interval)
            == Restarts(kvs, interval) + if |kvs| > 0
              && |kvs| % interval == 0 then [Offset(kvs, interval, |kvs|)] else []
  {
    var n := |kvs|;
    MoreRestarts(n, interval);
    forall j: nat | j < NumRestarts(n, interval)
      ensures var r := RestartEntry(interval, j); r <= n && Offset(kvs + [e], interval, r) == Offset(kvs, interval, r)
    {
      RestartInRange(n, interval, j);
      LongerEntries(kvs, e, interval, RestartEntry(interval, j));
    }
    LongerEntries(kvs, e, interval, n);
  }

  lemma MoreRestarts(n: nat, interval: Interval)
    ensures NumRestarts(n + 1, interval) == NumRestarts(n, interval) + if n > 0 && n % interval == 0 then 1 else 0
    ensures n > 0 && n % interval == 0 ==> NumRestarts(n, interval) * interval == n
  {
    if n > 0 {
      var q, r := (n - 1) / interval, (n - 1) % interval;
      assert n == q * interval + (r + 1);
      if r + 1 < interval {
        DivMod(q, r + 1, interval);
      } else {
        assert n == (q + 1) * interval + 0;
        DivMod(q + 1, 0, interval);
      }
    }
  }

  lemma CounterSays(i: nat, interval: Interval)
    ensures i > 0 ==> ((i - 1) % interval + 1 < interval <==> i % interval != 0)
    ensures i > 0 && i % interval != 0 ==> i % interval == (i - 1) % interval + 1
    ensures i % interval == 0 && i > 0 ==> (i - 1) % interval + 1 == interval
  {
    if i > 0 {
      var q, r := (i - 1) / interval, (i - 1) % interval;
      assert i == q * interval + (r + 1);
      if r + 1 < interval {
        DivMod(q, r + 1, interval);
      } else {
        assert i == (q + 1) * interval + 0;
        DivMod(q + 1, 0, interval);
      }
    }
  }

  lemma DivMod(q: nat, r: nat, d: nat)
    requires r < d
    ensures (q * d + r) / d == q && (q * d + r) % d == r
  {
    var n := q * d + r;
    var a, b := n / d, n % d;
    assert n == d * a + b && d * a == a * d;
    assert (q - a) * d == b - r && (a - q) * d == r - b by {
      assert (q - a) * d == q * d - a * d && (a - q) * d == a * d - q * d;
    }
    if a < q { AtLeastOne(q - a, d); } else if q < a { AtLeastOne(a - q, d); }
  }

  lemma AtLeastOne(x: nat, d: nat)
    requires x >= 1
    ensures x * d >= d
  {
    assert x * d == d + (x - 1) * d;
  }
}
