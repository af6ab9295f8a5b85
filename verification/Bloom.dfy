/** The Bloom filter policy: which bits a filter has, and that a filter made from a list of keys admits each of them. */
module Bloom {
  import opened Keys
  import opened Coding
  import opened KeyEncoding

  /** BloomHash of what the policy sees of a key; that filters lose nothing holds for any hash. */
  type Hash = Bytes -> word

  // ----- single bits -----

  /** n & (1 << k) */
  predicate HasBit(n: nat, k: nat) { if k == 0 then n % 2 == 1 else HasBit(n / 2, k - 1) }

  /** n | (1 << k), for numbers of `width` bits. */
  function OrBit(n: nat, k: nat, width: nat): (r: nat)
    requires n < Power2(width) && k < width
    ensures r < Power2(width)
  {
    if k == 0 then n / 2 * 2 + 1 else n % 2 + OrBit(n / 2, k - 1, width - 1) * 2
  }

  lemma {:induction false} OrBitHas(n: nat, k: nat, width: nat, i: nat)
    requires n < Power2(width) && k < width
    ensures HasBit(OrBit(n, k, width), i) <==> HasBit(n, i) || i == k
    decreases i
  {
    if i > 0 && k > 0 { OrBitHas(n / 2, k - 1, width - 1, i - 1); }
  }

  lemma {:induction false} ZeroHasNone(k: nat)
    ensures !HasBit(0, k)
  {
    if k > 0 { ZeroHasNone(k - 1); }
  }

  lemma EightBits()
    ensures Power2(8) == 256
  {
    assert Power2(4) == 2 * (2 * (2 * (2 * Power2(0))));
    assert Power2(8) == 2 * (2 * (2 * (2 * Power2(4))));
  }

  function OrByte(b: byte, k: nat): byte
    requires k < 8
  {
    EightBits();
    OrBit(b, k, 8)
  }

  predicate Bit(bitmap: Bytes, b: nat)
    requires b / 8 < |bitmap|
  {
    HasBit(bitmap[b / 8], b % 8)
  }

  // ----- probes -----

  /** The j-th hash of the double-hashing sequence. */
  function Probe(h: word, j: nat): word {
    if j == 0 then h else (Probe(h, j - 1) + RotateLeft15(h)) % 0x1_0000_0000
  }

  function BitPos(hash: Hash, key: Bytes, bits: nat, j: nat): (b: nat)
    requires bits > 0
    ensures b < bits
  {
    Probe(hash(key), j) as int % bits
  }

  /** k_: bits_per_key * ln(2), between 1 and 30. */
  function ProbeCount(bitsPerKey: nat): (k: nat)
    ensures 1 <= k <= 30
  {
    var k := (bitsPerKey as real * 0.69).Floor;
    if k < 1 then 1 else if k > 30 then 30 else k
  }

  /** The size of a filter for n keys, in bytes. */
  function FilterSize(n: nat, bitsPerKey: nat): (bytes: nat)
    ensures bytes >= 8
  {
    var bits := n * bitsPerKey;
    ((if bits < 64 then 64 else bits) + 7) / 8
  }

  /** One of the first j probes of key falls on b. */
  ghost predicate ProbedBy(hash: Hash, key: Bytes, bits: nat, j: nat, b: nat)
    requires bits > 0
  {
    exists i :: 0 <= i < j && BitPos(hash, key, bits, i) == b
  }

  /** One of the k probes of one of the keys falls on b. */
  ghost predicate Probed(hash: Hash, keys: seq<Bytes>, bits: nat, k: nat, b: nat)
    requires bits > 0
  {
    exists i :: 0 <= i < |keys| && ProbedBy(hash, keys[i], bits, k, b)
  }

  /** The filter of keys: exactly the probed bits, then the number of probes. */
  ghost predicate IsFilter(hash: Hash, keys: seq<Bytes>, k: nat, f: Bytes) {
    && |f| >= 2 && f[|f| - 1] == k
    && forall b :: 0 <= b < (|f| - 1) * 8 ==> (Bit(f, b) <==> Probed(hash, keys, (|f| - 1) * 8, k, b))
  }

  /** The bit that probe j of key asks for is set. */
  ghost predicate ProbeHits(hash: Hash, key: Bytes, f: Bytes, j: nat)
    requires |f| >= 2
  {
    Bit(f, BitPos(hash, key, (|f| - 1) * 8, j))
  }

  /** What KeyMayMatch says. */
  ghost predicate MayMatch(hash: Hash, key: Bytes, f: Bytes) {
    |f| >= 2 && (f[|f| - 1] > 30 || forall j :: 0 <= j < f[|f| - 1] as int ==> ProbeHits(hash, key, f, j))
  }

  /** No false negatives. */
  lemma FilterAdmits(hash: Hash, keys: seq<Bytes>, k: nat, f: Bytes, key: Bytes)
    requires IsFilter(hash, keys, k, f) && key in keys
    ensures MayMatch(hash, key, f)
  {
    var bits := (|f| - 1) * 8;
    forall j | 0 <= j < k ensures ProbeHits(hash, key, f, j) {
      var b := BitPos(hash, key, bits, j);
      assert ProbedBy(hash, key, bits, k, b);
      assert Probed(hash, keys, bits, k, b);
    }
  }

  /** Probe j of key falls on a bit that no key of the filter probes. */
  ghost predicate Stray(hash: Hash, keys: seq<Bytes>, k: nat, f: Bytes, key: Bytes, j: nat)
    requires |f| >= 2
  {
    !Probed(hash, keys, (|f| - 1) * 8, k, BitPos(hash, key, (|f| - 1) * 8, j))
  }

  /** A filter rejects exactly the keys with a stray probe. */
  lemma FilterRejects(hash: Hash, keys: seq<Bytes>, k: nat, f: Bytes, key: Bytes)
    requires IsFilter(hash, keys, k, f) && k <= 30
    ensures !MayMatch(hash, key, f) <==> exists j :: 0 <= j < k && Stray(hash, keys, k, f, key, j)
  {
    hide Bit, Probed;
    forall j | 0 <= j < k ensures ProbeHits(hash, key, f, j) <==> !Stray(hash, keys, k, f, key, j) {
    }
  }

  // ----- the policy's methods -----

  /** CreateFilter: appends the filter of keys to dst. */
  method CreateFilter(hash: Hash, bitsPerKey: nat, keys: seq<Bytes>, dst: Bytes) returns (out: Bytes)
    ensures dst <= out && |out| == |dst| + FilterSize(|keys|, bitsPerKey) + 1
    ensures IsFilter(hash, keys, ProbeCount(bitsPerKey), out[|dst|..])
  {
    hide Bit, FilterSize, ProbeCount, Probed;
    var bytes, k: byte := FilterSize(|keys|, bitsPerKey), ProbeCount(bitsPerKey);
    var bitmap := new byte[bytes](_ => 0);
    NoneProbed(hash, bitmap[..], bytes * 8, k);
    for i := 0 to |keys|
      invariant bitmap.Length == bytes
      invariant BitsAre(hash, keys[..i], bytes * 8, k, bitmap[..])
    {
      AddKey(hash, keys[..i], keys[i], k, bitmap);
      assert keys[..i + 1] == keys[..i] + [keys[i]];
    }
    assert keys[..|keys|] == keys;
    out := dst + bitmap[..] + [k];
    assert out[|dst|..] == bitmap[..] + [k];
    TrailingCount(hash, keys, bytes * 8, k, bitmap[..]);
  }

  /** The bits of the bitmap are the ones probed. */
  ghost predicate BitsAre(hash: Hash, keys: seq<Bytes>, bits: nat, k: nat, bitmap: Bytes) {
    bits > 0 && |bitmap| * 8 == bits
      && forall b :: 0 <= b < bits ==> (Bit(bitmap, b) <==> Probed(hash, keys, bits, k, b))
  }

  lemma NoneProbed(hash: Hash, bitmap: Bytes, bits: nat, k: nat)
    requires bits > 0 && |bitmap| * 8 == bits && forall i :: 0 <= i < |bitmap| ==> bitmap[i] == 0
    ensures BitsAre(hash, [], bits, k, bitmap)
  {
    forall b | 0 <= b < bits ensures !Bit(bitmap, b) {
      assert bitmap[b / 8] == 0;
      ZeroHasNone(b % 8);
    }
  }

  lemma TrailingCount(hash: Hash, keys: seq<Bytes>, bits: nat, k: byte, bitmap: Bytes)
    requires BitsAre(hash, keys, bits, k, bitmap)
    ensures IsFilter(hash, keys, k as nat, bitmap + [k])
  {
    var f := bitmap + [k];
    forall b | 0 <= b < bits ensures Bit(f, b) <==> Bit(bitmap, b) { assert f[b / 8] == bitmap[b / 8]; }
  }

  lemma ProbedMore(hash: Hash, keys: seq<Bytes>, key: Bytes, bits: nat, k: nat, b: nat)
    requires bits > 0
    ensures Probed(hash, keys + [key], bits, k, b) <==>
      Probed(hash, keys, bits, k, b) || ProbedBy(hash, key, bits, k, b)
  {
    var more := keys + [key];
    if i :| 0 <= i < |more| && ProbedBy(hash, more[i], bits, k, b) {
      assert i < |keys| ==> ProbedBy(hash, keys[i], bits, k, b);
    }
    if i :| 0 <= i < |keys| && ProbedBy(hash, keys[i], bits, k, b) { assert ProbedBy(hash, more[i], bits, k, b); }
    assert more[|keys|] == key;
  }

  /** The probe loop for one key. */
  method AddKey(hash: Hash, ghost keys: seq<Bytes>, key: Bytes, k: nat, bitmap: array<byte>)
    requires BitsAre(hash, keys, bitmap.Length * 8, k, bitmap[..])
    modifies bitmap
    ensures BitsAre(hash, keys + [key], bitmap.Length * 8, k, bitmap[..])
  {
    hide Bit, Probed, ProbedBy;
    ghost var before := bitmap[..];
    var bits := bitmap.Length * 8;
    var h: int := hash(key);
    var delta := RotateLeft15(h);
    forall b | 0 <= b < bits ensures !ProbedBy(hash, key, bits, 0, b) { ProbedNone(hash, key, bits, b); }
    for j := 0 to k
      invariant h == Probe(hash(key), j)
      invariant forall b :: 0 <= b < bits ==>
        (Bit(bitmap[..], b) <==> Bit(before, b) || ProbedBy(hash, key, bits, j, b))
    {
      var bitPos := h % bits;
      ghost var was := bitmap[..];
      bitmap[bitPos / 8] := OrByte(bitmap[bitPos / 8], bitPos % 8);
      forall b | 0 <= b < bits ensures Bit(bitmap[..], b) <==> Bit(before, b) || ProbedBy(hash, key, bits, j + 1, b) {
        OneBitSet(was, bitmap[..], bitPos, b);
        ProbedOnce(hash, key, bits, j, b);
      }
      h := (h + delta) % 0x1_0000_0000;
    }
    forall b | 0 <= b < bits ensures Bit(bitmap[..], b) <==> Probed(hash, keys + [key], bits, k, b) {
      ProbedMore(hash, keys, key, bits, k, b);
    }
  }

  lemma ProbedNone(hash: Hash, key: Bytes, bits: nat, b: nat)
    requires bits > 0
    ensures !ProbedBy(hash, key, bits, 0, b)
  {
  }

  lemma ProbedOnce(hash: Hash, key: Bytes, bits: nat, j: nat, b: nat)
    requires bits > 0
    ensures ProbedBy(hash, key, bits, j + 1, b) <==> ProbedBy(hash, key, bits, j, b) || b == BitPos(hash, key, bits, j)
  {
  }

  lemma OneBitSet(was: Bytes, now: Bytes, p: nat, b: nat)
    requires |was| == |now| && p / 8 < |was| && b / 8 < |was| && now == was[p / 8 := OrByte(was[p / 8], p % 8)]
    ensures Bit(now, b) <==> Bit(was, b) || b == p
  {
    hide HasBit, OrBit;
    EightBits();
    if b / 8 == p / 8 { OrBitHas(was[p / 8], p % 8, 8, b % 8); }
  }

  /** KeyMayMatch. */
  method KeyMayMatch(hash: Hash, key: Bytes, f: Bytes) returns (admitted: bool)
    ensures admitted <==> MayMatch(hash, key, f)
  {
    hide HasBit;
    if |f| < 2 {
      return false;
    }
    var bits, k := (|f| - 1) * 8, f[|f| - 1];
    if k > 30 {
      return true;
    }
    var h: int := hash(key);
    var delta := RotateLeft15(h);
    for j := 0 to k as int
      invariant h == Probe(hash(key), j)
      invariant forall i :: 0 <= i < j ==> ProbeHits(hash, key, f, i)
    {
      var bitPos := h % bits;
      if !HasBit(f[bitPos / 8], bitPos % 8) {
        assert !ProbeHits(hash, key, f, j);
        return false;
      }
      h := (h + delta) % 0x1_0000_0000;
    }
    admitted := true;
  }
}
