/** A block of a table: prefix-compressed entries, restart points, and what each parses back to. */
module BlockFormat {
  import opened Wrappers
  import opened Keys
  import opened Coding
  import opened KeyEncoding

  // ----- varints -----

  const LIMIT32: nat := 0x1_0000_0000

  /** PutVarint32. */
  function EncodeVarint(n: nat): (bytes: Bytes)
    ensures |bytes| >= 1 && (|bytes| == 1 <==> n < 128) && (n < 128 ==> bytes[0] == n)
    ensures n >= 128 ==> bytes[0] >= 128
  {
    if n < 128 then [n] else [n % 128 + 128] + EncodeVarint(n / 128)
  }

  /** GetVarint32Ptr on bytes[p..limit], reading at most `count` more bytes: the value and where it ends. */
  function DecodeVarint(bytes: Bytes, p: nat, limit: nat, count: nat): (r: Option<(nat, nat)>)
    requires limit <= |bytes|
    ensures r.Some? ==> p < r.value.1 <= limit
    decreases count
  {
    if count == 0 || p >= limit then None
    else if bytes[p] < 128 then Some((bytes[p] as nat, p + 1))
    else
      var rest := DecodeVarint(bytes, p + 1, limit, count - 1);
      if rest.None? then None else Some(((bytes[p] - 128) as nat + rest.value.0 * 128, rest.value.1))
  }

  function Power128(count: nat): nat { if count == 0 then 1 else 128 * Power128(count - 1) }

  /** bytes holds `part` at p. */
  ghost predicate HoldsAt(bytes: Bytes, p: nat, part: Bytes) { p + |part| <= |bytes| && bytes[p..p + |part|] == part }

  lemma HoldsParts(bytes: Bytes, p: nat, a: Bytes, b: Bytes)
    requires HoldsAt(bytes, p, a + b)
    ensures HoldsAt(bytes, p, a) && HoldsAt(bytes, p + |a|, b)
  {
    assert bytes[p..p + |a|] == (a + b)[..|a|];
    assert bytes[p + |a|..p + |a| + |b|] == (a + b)[|a|..];
  }

  lemma HoldsLonger(bytes: Bytes, more: Bytes, p: nat, part: Bytes)
    requires HoldsAt(bytes, p, part)
    ensures HoldsAt(bytes + more, p, part)
  {
    assert (bytes + more)[p..p + |part|] == bytes[p..p + |part|];
  }

  lemma {:induction false} VarintRoundTrip(bytes: Bytes, p: nat, limit: nat, n: nat, count: nat)
    requires count > 0 && n < Power128(count) && HoldsAt(bytes, p, EncodeVarint(n))
      && p + |EncodeVarint(n)| <= limit <= |bytes|
    ensures DecodeVarint(bytes, p, limit, count) == Some((n, p + |EncodeVarint(n)|))
    decreases count
  {
    assert bytes[p] == bytes[p..p + |EncodeVarint(n)|][0];
    if n >= 128 {
      HoldsParts(bytes, p, [n % 128 + 128], EncodeVarint(n / 128));
      VarintRoundTrip(bytes, p + 1, limit, n / 128, count - 1);
    }
  }

  /** GetVarint32Ptr: at most five bytes, in 32-bit arithmetic. */
  function GetVarint32(bytes: Bytes, p: nat, limit: nat): (r: Option<(nat, nat)>)
    requires limit <= |bytes|
    ensures r.Some? ==> p < r.value.1 <= limit
  {
    var r := DecodeVarint(bytes, p, limit, 5);
    if r.None? then None else Some((r.value.0 % LIMIT32, r.value.1))
  }

  lemma GetInvertsPut(bytes: Bytes, p: nat, limit: nat, n: nat)
    requires n < LIMIT32 && HoldsAt(bytes, p, EncodeVarint(n)) && p + |EncodeVarint(n)| <= limit <= |bytes|
    ensures GetVarint32(bytes, p, limit) == Some((n, p + |EncodeVarint(n)|))
    ensures (bytes[p] < 128 <==> n < 128) && (n < 128 ==> bytes[p] == n && |EncodeVarint(n)| == 1)
  {
    FiveBytes();
    VarintRoundTrip(bytes, p, limit, n, 5);
    assert bytes[p] == bytes[p..p + |EncodeVarint(n)|][0];
  }

  lemma FiveBytes()
    ensures Power128(5) >= LIMIT32
  {
    assert Power128(5) == 128 * (128 * (128 * (128 * (128 * Power128(0)))));
  }

  // ----- entries -----

  datatype KeyValue = KeyValue(key: Bytes, value: Bytes)

  function CommonPrefix(a: Bytes, b: Bytes): (n: nat)
    ensures n <= |a| && n <= |b| && a[..n] == b[..n]
  {
    if a == [] || b == [] || a[0] != b[0] then 0
    else
      var n := 1 + CommonPrefix(a[1..], b[1..]);
      assert a[..n] == [a[0]] + a[1..][..n - 1] && b[..n] == [b[0]] + b[1..][..n - 1];
      n
  }

  /** block_restart_interval */
  type Interval = n: nat | n > 0 witness 1

  /** The entry a restart point is at. */
  function RestartEntry(interval: Interval, j: nat): nat { j * interval }

  function EntryBytes(shared: nat, e: KeyValue): Bytes
    requires shared <= |e.key|
  {
    EncodeVarint(shared) + EncodeVarint(|e.key| - shared) + EncodeVarint(|e.value|) + e.key[shared..] + e.value
  }

  /** How many key bytes entry i shares with the one before it; none at a restart point. */
  function SharedAt(kvs: seq<KeyValue>, interval: Interval, i: nat): (n: nat)
    requires i < |kvs|
    ensures n <= |kvs[i].key| && (i % interval == 0 ==> n == 0)
    ensures i % interval != 0 ==> n <= |kvs[i - 1].key| && kvs[i].key[..n] == kvs[i - 1].key[..n]
  {
    if i % interval == 0 then 0 else CommonPrefix(kvs[i - 1].key, kvs[i].key)
  }

  /** The bytes of the first n entries. */
  function Entries(kvs: seq<KeyValue>, interval: Interval, n: nat): Bytes
    requires n <= |kvs|
  {
    if n == 0 then [] else Entries(kvs, interval, n - 1) + EntryBytes(SharedAt(kvs, interval, n - 1), kvs[n - 1])
  }

  function Offset(kvs: seq<KeyValue>, interval: Interval, n: nat): nat
    requires n <= |kvs|
  {
    |Entries(kvs, interval, n)|
  }

  function NumRestarts(n: nat, interval: Interval): (r: nat)
    ensures r > 0
  {
    if n == 0 then 1 else (n - 1) / interval + 1
  }

  /** The restart array: the offset of every interval-th entry. */
  function Restarts(kvs: seq<KeyValue>, interval: Interval): (rs: seq<nat>)
    ensures |rs| == NumRestarts(|kvs|, interval)
  {
    seq(NumRestarts(|kvs|, interval), j requires 0 <= j < NumRestarts(|kvs|, interval) =>
      RestartInRange(|kvs|, interval, j); Offset(kvs, interval, RestartEntry(interval, j)))
  }

  lemma RestartInRange(n: nat, interval: Interval, j: nat)
    requires j < NumRestarts(n, interval)
    ensures RestartEntry(interval, j) <= n && (n > 0 ==> RestartEntry(interval, j) < n)
  {
    if n > 0 {
      var q := (n - 1) / interval;
      assert j <= q;
      assert q * interval <= n - 1;
      assert j * interval <= q * interval;
    }
  }

  lemma {:induction false} OffsetsGrow(kvs: seq<KeyValue>, interval: Interval, i: nat, k: nat)
    requires i <= k <= |kvs|
    ensures Offset(kvs, interval, i) + (k - i) <= Offset(kvs, interval, k)
    decreases k
  {
    if i < k { OffsetsGrow(kvs, interval, i, k - 1); }
  }

  /** Entry i sits at its offset in the bytes of all entries. */
  lemma {:induction false} EntryAt(kvs: seq<KeyValue>, interval: Interval, i: nat, n: nat)
    requires i < n <= |kvs|
    ensures HoldsAt(Entries(kvs, interval, n), Offset(kvs, interval, i), EntryBytes(SharedAt(kvs, interval, i), kvs[i]))
    ensures Offset(kvs, interval, i + 1) == Offset(kvs, interval, i) + |EntryBytes(SharedAt(kvs, interval, i), kvs[i])|
    decreases n
  {
    hide EntryBytes, SharedAt;
    var part := EntryBytes(SharedAt(kvs, interval, i), kvs[i]);
    if i < n - 1 {
      EntryAt(kvs, interval, i, n - 1);
      var front, last := Entries(kvs, interval, n - 1), EntryBytes(SharedAt(kvs, interval, n - 1), kvs[n - 1]);
      HoldsLonger(front, last, Offset(kvs, interval, i), part);
    }
  }

  // ----- parsing -----

  /** DecodeEntry: lengths, and where the key's bytes start. */
  datatype Header = Header(shared: nat, nonShared: nat, valueLength: nat, keyAt: nat)

  function DecodeEntry(data: Bytes, p: nat, limit: nat): (h: Option<Header>)
    requires limit <= |data|
    ensures h.Some? ==> p + 3 <= h.value.keyAt <= limit && h.value.nonShared < LIMIT32 && h.value.valueLength < LIMIT32
  {
    if limit < p + 3 then None
    else if data[p] < 128 && data[p + 1] < 128 && data[p + 2] < 128 then // all three in one byte each
      Checked(Header(data[p] as nat, data[p + 1] as nat, data[p + 2] as nat, p + 3), limit)
    else
      var a := GetVarint32(data, p, limit);
      if a.None? then None
      else
        var b := GetVarint32(data, a.value.1, limit);
        if b.None? then None
        else
          var c := GetVarint32(data, b.value.1, limit);
          if c.None? then None
          else Checked(Header(a.value.0, b.value.0, c.value.0, c.value.1), limit)
  }

  /** The two lengths are added, and compared with what is left, in 32 bits. */
  function Checked(h: Header, limit: nat): Option<Header>
    requires h.keyAt <= limit
  {
    if (limit - h.keyAt) % LIMIT32 < (h.nonShared + h.valueLength) % LIMIT32 then None else Some(h)
  }

  /** The entry ends within the entries. */
  predicate Inside(h: Header, limit: nat) { h.keyAt + h.nonShared + h.valueLength <= limit }

  /** There is an entry at p that passes the test, and whose lengths add up to more than 32 bits hold. */
  predicate Overlong(data: Bytes, p: nat, limit: nat)
    requires limit <= |data|
  {
    var h := DecodeEntry(data, p, limit);
    h.Some? && h.value.nonShared + h.value.valueLength >= LIMIT32
  }

  /** An entry that passes the test stays within the block exactly when its lengths add up in 32 bits. */
  lemma InsideIff(data: Bytes, p: nat, limit: nat)
    requires limit <= |data| && limit < LIMIT32
    ensures var h := DecodeEntry(data, p, limit); h.Some? ==> (Inside(h.value, limit) <==> !Overlong(data, p, limit))
  {
    hide GetVarint32;
  }

  /** Seven bytes: nothing shared, 2^32 - 1 key bytes and one value byte. The lengths add up to 0. */
  const OVERLONG_ENTRY: Bytes := [0, 0xff, 0xff, 0xff, 0xff, 0x0f, 1]

  lemma OverlongPasses()
    ensures DecodeEntry(OVERLONG_ENTRY, 0, 7) == Some(Header(0, 0xffff_ffff, 1, 7)) && Overlong(OVERLONG_ENTRY, 0, 7)
    ensures !Inside(Header(0, 0xffff_ffff, 1, 7), 7)
  {
    var data := OVERLONG_ENTRY;
    assert DecodeVarint(data, 5, 7, 1) == Some((15, 6));
    assert DecodeVarint(data, 4, 7, 2) == Some((127 + 15 * 128, 6));
    assert DecodeVarint(data, 3, 7, 3) == Some((127 + (127 + 15 * 128) * 128, 6));
    assert DecodeVarint(data, 2, 7, 4) == Some((127 + (127 + (127 + 15 * 128) * 128) * 128, 6));
    assert DecodeVarint(data, 1, 7, 5) == Some((0xffff_ffff, 6));
    assert DecodeVarint(data, 0, 7, 5) == Some((0, 1)) && DecodeVarint(data, 6, 7, 5) == Some((1, 7));
  }

  lemma EntryDecodes(data: Bytes, p: nat, limit: nat, shared: nat, e: KeyValue)
    requires shared <= |e.key| && HoldsAt(data, p, EntryBytes(shared, e))
      && p + |EntryBytes(shared, e)| <= limit <= |data|
    requires |e.key| < LIMIT32 && |e.value| < LIMIT32 && limit < LIMIT32
    ensures var h := DecodeEntry(data, p, limit);
            && h.Some? && h.value.shared == shared && h.value.nonShared == |e.key| - shared
               && h.value.valueLength == |e.value|
            && h.value.keyAt + h.value.nonShared + h.value.valueLength == p + |EntryBytes(shared, e)|
            && data[h.value.keyAt..h.value.keyAt + h.value.nonShared] == e.key[shared..]
            && data[h.value.keyAt + h.value.nonShared..h.value.keyAt + h.value.nonShared + h.value.valueLength] ==
               e.value
  {
    hide EncodeVarint, DecodeEntry, HoldsAt;
    var h := EntryHeader(data, p, limit, shared, e);
    EntryParts(data, p, shared, e);
    EntrySlices(data, h.keyAt, e.key[shared..], e.value);
  }

  lemma EntrySlices(data: Bytes, at: nat, a: Bytes, b: Bytes)
    requires HoldsAt(data, at, a) && HoldsAt(data, at + |a|, b)
    ensures at + |a| + |b| <= |data| && data[at..at + |a|] == a && data[at + |a|..at + |a| + |b|] == b
  {
  }

  lemma EntryHeader(data: Bytes, p: nat, limit: nat, shared: nat, e: KeyValue) returns (h: Header)
    requires shared <= |e.key| && HoldsAt(data, p, EntryBytes(shared, e))
      && p + |EntryBytes(shared, e)| <= limit <= |data|
    requires |e.key| < LIMIT32 && |e.value| < LIMIT32 && limit < LIMIT32
    ensures var a, b, c := EncodeVarint(shared), EncodeVarint(|e.key| - shared), EncodeVarint(|e.value|);
            h == Header(shared, |e.key| - shared, |e.value|, p + |a| + |b| + |c|)
              && DecodeEntry(data, p, limit) == Some(h)
  {
    hide EncodeVarint, GetVarint32, DecodeEntry, EntryBytes, HoldsAt;
    var a, b, c := EncodeVarint(shared), EncodeVarint(|e.key| - shared), EncodeVarint(|e.value|);
    EntryParts(data, p, shared, e);
    GetInvertsPut(data, p, limit, shared);
    GetInvertsPut(data, p + |a|, limit, |e.key| - shared);
    GetInvertsPut(data, p + |a| + |b|, limit, |e.value|);
    h := Header(shared, |e.key| - shared, |e.value|, p + |a| + |b| + |c|);
    HeaderIs(data, p, limit, shared, |e.key| - shared, |e.value|, p + |a|, p + |a| + |b|, p + |a| + |b| + |c|);
  }

  /** Fast path and slow path read the same header. */
  lemma HeaderIs(data: Bytes, p: nat, limit: nat, s: nat, n: nat, v: nat, pb: nat, pc: nat, pk: nat)
    requires p < pb < pc < pk && pk + n + v <= limit <= |data| && limit < LIMIT32
    requires GetVarint32(data, p, limit) == Some((s, pb)) && (data[p] < 128 <==> s < 128)
      && (s < 128 ==> data[p] == s && pb == p + 1)
    requires GetVarint32(data, pb, limit) == Some((n, pc)) && (data[pb] < 128 <==> n < 128)
      && (n < 128 ==> data[pb] == n && pc == pb + 1)
    requires GetVarint32(data, pc, limit) == Some((v, pk)) && (data[pc] < 128 <==> v < 128)
      && (v < 128 ==> data[pc] == v && pk == pc + 1)
    ensures DecodeEntry(data, p, limit) == Some(Header(s, n, v, pk))
  {
    hide GetVarint32;
  }

  lemma EntryParts(data: Bytes, p: nat, shared: nat, e: KeyValue)
    requires shared <= |e.key| && HoldsAt(data, p, EntryBytes(shared, e))
    ensures var a, b, c := EncodeVarint(shared), EncodeVarint(|e.key| - shared), EncodeVarint(|e.value|);
            && HoldsAt(data, p, a) && HoldsAt(data, p + |a|, b) && HoldsAt(data, p + |a| + |b|, c)
            && |EntryBytes(shared, e)| == |a| + |b| + |c| + |e.key| - shared + |e.value|
            && HoldsAt(data, p + |a| + |b| + |c|, e.key[shared..])
               && HoldsAt(data, p + |a| + |b| + |c| + |e.key| - shared, e.value)
  {
    hide EncodeVarint, HoldsAt;
    var a, b, c := EncodeVarint(shared), EncodeVarint(|e.key| - shared), EncodeVarint(|e.value|);
    HoldsParts(data, p, a + b + c + e.key[shared..], e.value);
    HoldsParts(data, p, a + b + c, e.key[shared..]);
    HoldsParts(data, p, a + b, c);
    HoldsParts(data, p, a, b);
  }
}
