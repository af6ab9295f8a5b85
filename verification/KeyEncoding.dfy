/** User keys as byte strings and internal keys as their encodings: the bytewise comparator embeds into the reals
    that the rest of the model uses for user keys, the comparator on encoded internal keys agrees with Keys.Compare,
    and shortened index keys stay between the keys they separate. */
module KeyEncoding {
  import opened Wrappers
  import opened Keys

  type Bytes = seq<byte>

  // ----- the bytewise comparator -----

  /** Slice::compare: the first differing byte decides, then the length. */
  function CompareBytes(a: Bytes, b: Bytes): int {
    if a == [] || b == [] then
      if a == [] && b == [] then 0 else if a == [] then -1 else 1
    else if a[0] != b[0] then if a[0] < b[0] then -1 else 1
    else CompareBytes(a[1..], b[1..])
  }

  /** Where a byte string lies in [0, 1). */
  function Rank(s: Bytes): (r: real)
    ensures 0.0 <= r < 1.0
  {
    if s == [] then 0.0 else (s[0] as real + 1.0 + Rank(s[1..])) / 257.0
  }

  /** The comparator orders byte strings as their ranks. */
  lemma {:induction false} RankEmbeds(a: Bytes, b: Bytes)
    ensures CompareBytes(a, b) < 0 <==> Rank(a) < Rank(b)
    ensures CompareBytes(a, b) == 0 <==> Rank(a) == Rank(b)
    ensures CompareBytes(a, b) == 0 <==> a == b
  {
    if a != [] && b != [] {
      RankEmbeds(a[1..], b[1..]);
      assert a == [a[0]] + a[1..] && b == [b[0]] + b[1..];
    }
  }

  // ----- encoded internal keys -----

  const LIMIT64: nat := 0x1_0000_0000_0000_0000

  function EncodeFixed64(n: nat, count: nat): (bytes: Bytes)
    ensures |bytes| == count
  {
    if count == 0 then [] else [n % 0x100] + EncodeFixed64(n / 0x100, count - 1)
  }

  function DecodeFixed64(bytes: Bytes): (n: nat)
    ensures n < Power256(|bytes|)
  {
    if bytes == [] then 0 else bytes[0] as int + DecodeFixed64(bytes[1..]) * 0x100
  }

  function Power256(count: nat): nat { if count == 0 then 1 else 0x100 * Power256(count - 1) }

  lemma {:induction false} FixedRoundTrip(n: nat, count: nat)
    requires n < Power256(count)
    ensures DecodeFixed64(EncodeFixed64(n, count)) == n
  {
    if count > 0 {
      FixedRoundTrip(n / 0x100, count - 1);
      assert EncodeFixed64(n, count)[1..] == EncodeFixed64(n / 0x100, count - 1);
    }
  }

  lemma TagFits(k: InternalKey)
    ensures Tag(k) < LIMIT64 == Power256(8)
  {
    EightBytes();
  }

  lemma EightBytes()
    ensures LIMIT64 == Power256(8)
  {
    assert Power256(8) == 0x100 * (0x100 * (0x100 * (0x100 * (0x100 * (0x100 * (0x100 * (0x100 * Power256(0))))))));
  }

  /** AppendInternalKey. */
  function Encode(user: Bytes, num: SeqNo, kind: Kind): (bytes: Bytes)
    ensures |bytes| == |user| + 8
  {
    user + EncodeFixed64(Tag(InternalKey(0.0, num, kind)), 8)
  }

  function ExtractUserKey(key: Bytes): Bytes
    requires |key| >= 8
  {
    key[..|key| - 8]
  }

  function Trailer(key: Bytes): (n: nat)
    requires |key| >= 8
    ensures n < LIMIT64
  {
    EightBytes();
    DecodeFixed64(key[|key| - 8..])
  }

  /** InternalKeyComparator::Compare. */
  function CompareEncoded(a: Bytes, b: Bytes): int
    requires |a| >= 8 && |b| >= 8
  {
    var r := CompareBytes(ExtractUserKey(a), ExtractUserKey(b));
    if r != 0 then r
    else if Trailer(a) > Trailer(b) then -1
    else if Trailer(a) < Trailer(b) then 1
    else 0
  }

  lemma EncodedParts(user: Bytes, num: SeqNo, kind: Kind)
    ensures ExtractUserKey(Encode(user, num, kind)) == user
    ensures Trailer(Encode(user, num, kind)) == Tag(InternalKey(0.0, num, kind))
  {
    var k := InternalKey(0.0, num, kind);
    TagFits(k);
    FixedRoundTrip(Tag(k), 8);
    assert Encode(user, num, kind)[|user|..] == EncodeFixed64(Tag(k), 8);
  }

  /** Encoded keys compare as the keys they encode. */
  lemma EncodingAgrees(ua: Bytes, na: SeqNo, ka: Kind, ub: Bytes, nb: SeqNo, kb: Kind)
    ensures CompareEncoded(Encode(ua, na, ka), Encode(ub, nb, kb))
            == Compare(InternalKey(Rank(ua), na, ka), InternalKey(Rank(ub), nb, kb))
  {
    EncodedParts(ua, na, ka);
    EncodedParts(ub, nb, kb);
    RankEmbeds(ua, ub);
    SignIsUnit(ua, ub);
  }

  lemma {:induction false} SignIsUnit(a: Bytes, b: Bytes)
    ensures -1 <= CompareBytes(a, b) <= 1
    ensures CompareBytes(a, b) == -CompareBytes(b, a)
  {
    if a != [] && b != [] { SignIsUnit(a[1..], b[1..]); }
  }

  /** ParseInternalKey: user key, sequence number and kind, unless the kind byte is unknown. */
  function ParseInternalKey(key: Bytes): Option<(Bytes, SeqNo, Kind)> {
    if |key| < 8 then None
    else
      var num := Trailer(key);
      var c := num % 0x100;
      if c > 1 then None
      else Some((ExtractUserKey(key), num / 0x100, if c == 0 then Deletion else Put))
  }

  lemma ParseInvertsEncode(user: Bytes, num: SeqNo, kind: Kind)
    ensures ParseInternalKey(Encode(user, num, kind)) == Some((user, num, kind))
  {
    EncodedParts(user, num, kind);
  }

  // ----- separators -----

  predicate LessBytes(a: Bytes, b: Bytes) { CompareBytes(a, b) < 0 }

  /** A common prefix does not matter; the first different byte decides. */
  lemma {:induction false} FirstDifference(a: Bytes, b: Bytes, i: nat)
    requires i <= |a| && i <= |b| && a[..i] == b[..i]
    ensures CompareBytes(a, b) == CompareBytes(a[i..], b[i..])
    decreases i
  {
    if i > 0 {
      assert a[0] == a[..i][0] && b[0] == b[..i][0];
      assert a[1..][..i - 1] == a[..i][1..] && b[1..][..i - 1] == b[..i][1..];
      FirstDifference(a[1..], b[1..], i - 1);
      assert a[1..][i - 1..] == a[i..] && b[1..][i - 1..] == b[i..];
    }
  }

  lemma DifferAt(a: Bytes, b: Bytes, i: nat)
    requires i < |a| && i < |b| && a[..i] == b[..i] && a[i] < b[i]
    ensures LessBytes(a, b)
  {
    FirstDifference(a, b, i);
  }

  /** BytewiseComparator::FindShortestSeparator: start itself, or a string no longer than it and strictly between. */
  method FindShortestSeparator(start: Bytes, limit: Bytes) returns (sep: Bytes)
    ensures sep == start || (LessBytes(start, sep) && LessBytes(sep, limit) && |sep| <= |start|)
  {
    var minLength := if |start| < |limit| then |start| else |limit|;
    var diff := 0;
    while diff < minLength && start[diff] == limit[diff]
      invariant diff <= minLength && start[..diff] == limit[..diff]
    {
      assert start[..diff + 1] == start[..diff] + [start[diff]] && limit[..diff + 1] == limit[..diff] + [limit[diff]];
      diff := diff + 1;
    }
    sep := start;
    if diff >= minLength {
      // one string is a prefix of the other
    } else {
      var diffByte := start[diff];
      if diffByte < 0xff && diffByte + 1 < limit[diff] {
        sep := start[..diff] + [diffByte + 1];
        assert sep[..diff] == start[..diff];
        DifferAt(start, sep, diff);
        DifferAt(sep, limit, diff);
      }
    }
  }

  /** BytewiseComparator::FindShortSuccessor. */
  method FindShortSuccessor(key: Bytes) returns (succ: Bytes)
    ensures |succ| <= |key| && (succ == key || LessBytes(key, succ))
    ensures succ == key <==> forall i :: 0 <= i < |key| ==> key[i] == 0xff
  {
    for i := 0 to |key|
      invariant forall k :: 0 <= k < i ==> key[k] == 0xff
    {
      if key[i] != 0xff {
        succ := key[..i] + [key[i] + 1];
        assert succ[..i] == key[..i];
        DifferAt(key, succ, i);
        assert succ[i] != key[i];
        return;
      }
    }
    succ := key;
  }

  predicate LessEncoded(a: Bytes, b: Bytes)
    requires |a| >= 8 && |b| >= 8
  {
    CompareEncoded(a, b) < 0
  }

  /** InternalKeyComparator::FindShortestSeparator: in [start, limit) whenever start is before limit. */
  method FindShortestInternalSeparator(start: Bytes, limit: Bytes) returns (sep: Bytes)
    requires |start| >= 8 && |limit| >= 8 && LessEncoded(start, limit)
    ensures |sep| >= 8 && (sep == start || LessEncoded(start, sep)) && LessEncoded(sep, limit)
    ensures sep == start
      || (LessBytes(ExtractUserKey(start), ExtractUserKey(sep))
          && LessBytes(ExtractUserKey(sep), ExtractUserKey(limit)))
  {
    var userStart, userLimit := ExtractUserKey(start), ExtractUserKey(limit);
    var tmp := FindShortestSeparator(userStart, userLimit);
    sep := start;
    if |tmp| < |userStart| && CompareBytes(userStart, tmp) < 0 {
      RankEmbeds(userStart, tmp);
      sep := Encode(tmp, MAX_SEQUENCE, KIND_FOR_SEEK);
      EncodedParts(tmp, MAX_SEQUENCE, KIND_FOR_SEEK);
    }
  }

  /** InternalKeyComparator::FindShortSuccessor: not before the key. */
  method FindShortInternalSuccessor(key: Bytes) returns (succ: Bytes)
    requires |key| >= 8
    ensures |succ| >= 8 && (succ == key || LessEncoded(key, succ))
  {
    var user := ExtractUserKey(key);
    var tmp := FindShortSuccessor(user);
    succ := key;
    if |tmp| < |user| && CompareBytes(user, tmp) < 0 {
      succ := Encode(tmp, MAX_SEQUENCE, KIND_FOR_SEEK);
      EncodedParts(tmp, MAX_SEQUENCE, KIND_FOR_SEEK);
    }
  }
}
