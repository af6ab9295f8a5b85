/** The reassembly bitmap of a DTLS handshake message: marking a byte range sets exactly its bits, and the
    completeness test holds exactly when every byte is marked. */
module DtlsBitmap {
  /** The bit of a byte with value 1 << k. */
  function BitOf(k: nat): bv8
    requires k < 8
  {
    if k == 0 then 1 else if k == 1 then 2 else if k == 2 then 4 else if k == 3 then 8
    else if k == 4 then 16 else if k == 5 then 32 else if k == 6 then 64 else 128
  }

  predicate Has(b: bv8, k: nat)
    requires k < 8
  {
    b & BitOf(k) != 0
  }

  /** (1 << n) - 1 */
  function LowBits(n: nat): bv8
    requires n <= 8
  {
    if n == 0 then 0 else if n == 1 then 1 else if n == 2 then 3 else if n == 3 then 7 else if n == 4 then 15
    else if n == 5 then 31 else if n == 6 then 63 else if n == 7 then 127 else 255
  }

  /** bit_range: bits from start up to end. */
  function BitRange(start: nat, end: nat): bv8
    requires start <= 8 && end <= 8
  {
    !LowBits(start) & LowBits(end)
  }

  lemma LowBitsHas(n: nat, k: nat)
    requires n <= 8 && k < 8
    ensures Has(LowBits(n), k) <==> k < n
  {
  }

  lemma AndHas(a: bv8, b: bv8, k: nat)
    requires k < 8
    ensures Has(!a & b, k) <==> !Has(a, k) && Has(b, k)
  {
  }

  lemma OrHas(a: bv8, b: bv8, k: nat)
    requires k < 8
    ensures Has(a | b, k) <==> Has(a, k) || Has(b, k)
  {
  }

  lemma BitRangeHas(start: nat, end: nat, k: nat)
    requires start <= 8 && end <= 8 && k < 8
    ensures Has(BitRange(start, end), k) <==> start <= k < end
  {
    hide Has, LowBits;
    LowBitsHas(start, k);
    LowBitsHas(end, k);
    AndHas(LowBits(start), LowBits(end), k);
  }

  /** A byte is its bits. */
  lemma SameBits(a: bv8, b: bv8)
    requires forall k :: 0 <= k < 8 ==> (Has(a, k) <==> Has(b, k))
    ensures a == b
  {
    assert Has(a, 0) == Has(b, 0) && Has(a, 1) == Has(b, 1) && Has(a, 2) == Has(b, 2) && Has(a, 3) == Has(b, 3);
    assert Has(a, 4) == Has(b, 4) && Has(a, 5) == Has(b, 5) && Has(a, 6) == Has(b, 6) && Has(a, 7) == Has(b, 7);
  }

  predicate Marked(bitmap: seq<bv8>, i: nat) { i / 8 < |bitmap| && Has(bitmap[i / 8], i % 8) }

  /** The bitmap of a message of length n: one bit a byte, none beyond. */
  ghost predicate BitmapFor(bitmap: seq<bv8>, n: nat) {
    |bitmap| == (n + 7) / 8 && forall i: nat :: Marked(bitmap, i) ==> i < n
  }

  lemma OrRange(b: bv8, start: nat, end: nat, k: nat)
    requires start <= 8 && end <= 8 && k < 8
    ensures Has(b | BitRange(start, end), k) <==> Has(b, k) || start <= k < end
  {
    hide Has, BitRange;
    OrHas(b, BitRange(start, end), k);
    BitRangeHas(start, end, k);
  }

  lemma FullByte(k: nat)
    requires k < 8
    ensures Has(0xff, k)
  {
  }

  /** Byte m of the bitmap is as marking [start, end) leaves it. */
  ghost predicate ByteDone(b: bv8, before: bv8, m: nat, start: nat, end: nat) {
    forall k :: 0 <= k < 8 ==> (Has(b, k) <==> Has(before, k) || start <= m * 8 + k < end)
  }

  lemma ByteOfRange(before: bv8, m: nat, start: nat, end: nat, low: nat, high: nat)
    requires low <= 8 && high <= 8
    requires start == m * 8 + low || (low == 0 && start <= m * 8)
    requires end == m * 8 + high || (high == 8 && m * 8 + 8 <= end)
    ensures ByteDone(before | BitRange(low, high), before, m, start, end)
  {
    hide Has, BitRange;
    forall k | 0 <= k < 8
      ensures Has(before | BitRange(low, high), k) <==> Has(before, k) || start <= m * 8 + k < end
    {
      OrRange(before, low, high, k);
      assert low <= k < high <==> start <= m * 8 + k < end;
    }
  }

  lemma ByteInside(before: bv8, m: nat, start: nat, end: nat)
    requires start <= m * 8 && m * 8 + 8 <= end
    ensures ByteDone(0xff, before, m, start, end)
  {
    hide Has;
    forall k | 0 <= k < 8 { FullByte(k); }
  }

  lemma ByteOutside(b: bv8, m: nat, start: nat, end: nat)
    requires end <= m * 8 || m * 8 + 8 <= start
    ensures ByteDone(b, b, m, start, end)
  {
  }

  lemma AllBytesDone(bitmap: seq<bv8>, before: seq<bv8>, n: nat, start: nat, end: nat)
    requires |bitmap| == |before| && BitmapFor(before, n) && end <= n
    requires forall m :: 0 <= m < |bitmap| ==> ByteDone(bitmap[m], before[m], m, start, end)
    ensures BitmapFor(bitmap, n) && forall i: nat :: Marked(bitmap, i) <==> Marked(before, i) || start <= i < end
  {
    hide Has;
    forall i: nat ensures Marked(bitmap, i) <==> Marked(before, i) || start <= i < end {
      if i / 8 < |bitmap| { assert ByteDone(bitmap[i / 8], before[i / 8], i / 8, start, end); }
    }
  }

  /** dtls1_hm_fragment_mark, up to the completeness test. */
  method MarkRange(bitmap: array<bv8>, ghost n: nat, start: nat, end: nat)
    requires BitmapFor(bitmap[..], n) && start < end <= n
    modifies bitmap
    ensures BitmapFor(bitmap[..], n)
    ensures forall i: nat :: Marked(bitmap[..], i) <==> Marked(old(bitmap[..]), i) || start <= i < end
  {
    hide Has, BitRange, ByteDone;
    ghost var before := bitmap[..];
    var first, last := start / 8, end / 8;
    if first == last {
      ByteOfRange(bitmap[first], first, start, end, start % 8, end % 8);
      bitmap[first] := bitmap[first] | BitRange(start % 8, end % 8);
    } else {
      ByteOfRange(bitmap[first], first, start, end, start % 8, 8);
      bitmap[first] := bitmap[first] | BitRange(start % 8, 8);
      var i := first + 1;
      while i < last
        invariant first < i <= last && ByteDone(bitmap[first], before[first], first, start, end)
        invariant forall m :: first < m < i ==> ByteDone(bitmap[m], before[m], m, start, end)
        invariant forall m :: 0 <= m < bitmap.Length && (m < first || i <= m) ==> bitmap[m] == before[m]
      {
        ByteInside(bitmap[i], i, start, end);
        bitmap[i] := 0xff;
        i := i + 1;
      }
      if end % 8 != 0 {
        ByteOfRange(bitmap[last], last, start, end, 0, end % 8);
        bitmap[last] := bitmap[last] | BitRange(0, end % 8);
      }
    }
    forall m | 0 <= m < bitmap.Length ensures ByteDone(bitmap[m], before[m], m, start, end) {
      if m < first || last < m || (m == last && end % 8 == 0) { ByteOutside(before[m], m, start, end); }
    }
    AllBytesDone(bitmap[..], before, n, start, end);
  }

  /** The completeness test: every whole byte is 0xff and the last one holds exactly the remaining bits. */
  method AllMarked(bitmap: array<bv8>, n: nat) returns (complete: bool)
    requires BitmapFor(bitmap[..], n)
    ensures complete <==> forall i: nat :: i < n ==> Marked(bitmap[..], i)
  {
    hide Has, BitRange;
    for i := 0 to n / 8
      invariant forall j: nat :: j < i * 8 ==> Marked(bitmap[..], j)
    {
      forall k | 0 <= k < 8 { FullByte(k); }
      if bitmap[i] != 0xff {
        NotFull(bitmap[..], n, i, 8, 0xff);
        return false;
      }
    }
    if n % 8 != 0 {
      forall k | 0 <= k < 8 { BitRangeHas(0, n % 8, k); }
      if bitmap[n / 8] != BitRange(0, n % 8) {
        NotFull(bitmap[..], n, n / 8, n % 8, BitRange(0, n % 8));
        return false;
      }
    }
    complete := true;
  }

  /** A byte that differs from its full value lacks one of its bits. */
  lemma NotFull(bitmap: seq<bv8>, n: nat, i: nat, bits: nat, full: bv8)
    requires BitmapFor(bitmap, n) && i < |bitmap| && 0 < bits <= 8 && i * 8 + bits <= n
      && (bits < 8 ==> i * 8 + bits == n)
    requires bitmap[i] != full && forall k :: 0 <= k < 8 ==> (Has(full, k) <==> k < bits)
    ensures exists j: nat :: j < n && !Marked(bitmap, j)
  {
    hide Has;
    if forall k :: 0 <= k < bits ==> Has(bitmap[i], k) {
      forall k | 0 <= k < 8 ensures Has(bitmap[i], k) <==> Has(full, k) {
        assert (i * 8 + k) / 8 == i && (i * 8 + k) % 8 == k;
        assert Marked(bitmap, i * 8 + k) <==> Has(bitmap[i], k);
      }
      SameBits(bitmap[i], full);
    } else {
      var k :| 0 <= k < bits && !Has(bitmap[i], k);
      assert (i * 8 + k) / 8 == i && (i * 8 + k) % 8 == k;
      assert !Marked(bitmap, i * 8 + k);
    }
  }
}
