/** nanopb's wire format: varints, zigzag numbers, machine integers and tags, and what each reads back as.
    A varint is written as LevelDB writes one. */
module PbWire {
  import opened Wrappers
  import opened Keys
  import opened Coding
  import opened KeyEncoding
  import opened BlockFormat

  /** What a reader returns: a value and the bytes it has not read. */
  type Read<T> = Option<(T, Bytes)>

  // ----- varints -----

  /** The loop of pb_decode_varint after k bytes, in 64-bit arithmetic: at most ten bytes are read. */
  function Varint64From(bytes: Bytes, k: nat, result: nat): (r: Read<nat>)
    ensures r.Some? ==> |r.value.1| < |bytes| && r.value.1 == bytes[|bytes| - |r.value.1|..]
    decreases |bytes|
  {
    if k >= 10 || bytes == [] then None
    else
      var result' := result + bytes[0] % 128 * Power128(k) % LIMIT64;
      if bytes[0] < 128 then Some((result', bytes[1..])) else Varint64From(bytes[1..], k + 1, result')
  }

  function Varint64(bytes: Bytes): Read<nat> { Varint64From(bytes, 0, 0) }

  /** The bits of either number. */
  function Or(a: nat, b: nat): nat {
    if a == 0 then b
    else if b == 0 then a
    else (if a % 2 == 1 || b % 2 == 1 then 1 else 0) + 2 * Or(a / 2, b / 2)
  }

  /** The byte may not be more of a 32-bit number, as it is not more of its sign. */
  predicate NotSign(b: byte, bitpos: byte, result: nat) {
    bitpos >= 32 && b % 128 != 0 && (result < 0x8000_0000 || b != if bitpos < 63 then 0xff else 1)
  }

  /** The last of five bytes has bits beyond the 32. */
  predicate TooWide(b: byte, bitpos: byte) { bitpos == 28 && b / 16 % 8 != 0 }

  /** The result with the bits of one more byte. */
  function Gathered(b: byte, bitpos: byte, result: nat): nat {
    if bitpos >= 32 then result else Or(result, b % 128 * Power2(bitpos) % LIMIT32)
  }

  /** The loop of pb_decode_varint32_eof, in 32-bit arithmetic: further bytes may only repeat the sign. The shift count
      has eight bits, so that the 37th byte after the first is taken for bits of the number again. */
  function Varint32From(bytes: Bytes, bitpos: byte, result: nat): (r: Read<nat>)
    ensures r.Some? ==> |r.value.1| < |bytes| && r.value.1 == bytes[|bytes| - |r.value.1|..]
    decreases |bytes|
  {
    if bytes == [] then None
    else
      var b := bytes[0];
      if NotSign(b, bitpos, result) then None
      else
        var result' := Gathered(b, bitpos, result);
        if b >= 128 then Varint32From(bytes[1..], (bitpos + 7) % 0x100, result')
        else if TooWide(b, bitpos) then None
        else Some((result', bytes[1..]))
  }

  function Varint32(bytes: Bytes): (r: Read<nat>)
    ensures r.Some? ==> |r.value.1| < |bytes| && r.value.1 == bytes[|bytes| - |r.value.1|..]
  {
    if bytes == [] then None
    else if bytes[0] < 128 then Some((bytes[0] as nat, bytes[1..]))
    else Varint32From(bytes[1..], 7, bytes[0] % 128)
  }

  lemma Powers()
    ensures Power128(1) == 0x80 && Power128(4) == 0x1000_0000 && Power128(5) == 0x8_0000_0000
      && Power128(9) == 0x8000_0000_0000_0000
    ensures Power128(10) >= LIMIT64
  {
    assert Power128(1) == 128 * Power128(0);
    assert Power128(4) == 128 * (128 * (128 * Power128(1)));
    assert Power128(5) == 128 * Power128(4);
    assert Power128(9) == 128 * (128 * (128 * (128 * Power128(5))));
    assert Power128(10) == 128 * Power128(9);
  }

  lemma {:induction false} PowersGrow(j: nat, k: nat)
    requires j <= k
    ensures 1 <= Power128(j) <= Power128(k)
  {
    if j < k { PowersGrow(j, k - 1); } else if j > 0 { PowersGrow(j - 1, k - 1); }
  }

  /** A positive number at place k that is below place j. */
  lemma PlaceBelow(n: nat, k: nat, j: nat)
    requires n >= 1 && n * Power128(k) < Power128(j)
    ensures k < j
  {
    AtLeast(n, Power128(k));
    if j <= k { PowersGrow(j, k); }
  }

  lemma AtLeast(n: nat, p: nat)
    requires n >= 1
    ensures n * p >= p
  {
  }

  /** The lowest seven bits and the rest, at their places. */
  lemma Digits(n: nat, k: nat)
    ensures n * Power128(k) == n % 128 * Power128(k) + n / 128 * Power128(k + 1)
    ensures n % 128 * Power128(k) <= n * Power128(k) && n / 128 * Power128(k + 1) <= n * Power128(k)
  {
    Distribute(n % 128, n / 128, Power128(k));
  }

  lemma Distribute(low: nat, high: nat, p: nat)
    ensures (low + 128 * high) * p == low * p + high * (128 * p) && low * p >= 0 && high * (128 * p) >= 0
  {
  }

  lemma VarintStarts(n: nat, rest: Bytes)
    ensures var bytes := EncodeVarint(n) + rest; bytes != [] && (n < 128 ==> bytes[0] == n && bytes[1..] == rest)
    ensures var bytes := EncodeVarint(n) + rest;
      n >= 128 ==> bytes[0] == n % 128 + 128 && bytes[1..] == EncodeVarint(n / 128) + rest
  {
    assert (EncodeVarint(n) + rest)[0] == EncodeVarint(n)[0];
  }

  lemma {:induction false} Varint64Reads(n: nat, rest: Bytes, k: nat, result: nat)
    requires n * Power128(k) < LIMIT64 && (k == 0 || n >= 1)
    ensures Varint64From(EncodeVarint(n) + rest, k, result) == Some((result + n * Power128(k), rest))
    decreases n
  {
    hide Power128, EncodeVarint;
    Powers();
    if k > 0 { PlaceBelow(n, k, 10); }
    Digits(n, k);
    VarintStarts(n, rest);
    if n >= 128 { Varint64Reads(n / 128, rest, k + 1, result + n % 128 * Power128(k)); }
    Varint64Step(n, EncodeVarint(n) + rest, k, result);
  }

  lemma Varint64Step(n: nat, bytes: Bytes, k: nat, result: nat)
    requires k < 10 && bytes != [] && bytes[0] == (if n < 128 then n else n % 128 + 128)
      && n % 128 * Power128(k) < LIMIT64
    ensures var result' := result + n % 128 * Power128(k);
      Varint64From(bytes, k, result) ==
        if n < 128 then Some((result', bytes[1..])) else Varint64From(bytes[1..], k + 1, result')
  {
    hide Power128;
  }

  lemma SevenBits(m: nat)
    ensures Power2(m + 7) == 128 * Power2(m)
  {
    assert Power2(m + 2) == 2 * Power2(m + 1);
    assert Power2(m + 4) == 2 * Power2(m + 3);
    assert Power2(m + 6) == 2 * Power2(m + 5);
  }

  lemma Places()
    ensures Power2(7) == 0x80 && Power2(14) == 0x4000 && Power2(21) == 0x20_0000 && Power2(28) == 0x1000_0000
  {
    SevenBits(0);
    SevenBits(7);
    SevenBits(14);
    SevenBits(21);
  }

  lemma Twice(n: nat, p: nat)
    ensures n * (2 * p) == 2 * (n * p) && n * p >= 0 && (n >= 1 && p >= 1 ==> n * p >= 1)
  {
  }

  /** Bits at separate places add up. */
  lemma {:induction false} OrAdds(a: nat, n: nat, j: nat)
    requires a < Power2(j)
    ensures Or(a, n * Power2(j)) == a + n * Power2(j)
  {
    if j > 0 {
      var b := n * Power2(j - 1);
      Twice(n, Power2(j - 1));
      OrAdds(a / 2, n, j - 1);
      OrEven(a, b);
    }
  }

  lemma OrEven(a: nat, b: nat)
    ensures Or(a, 2 * b) == a % 2 + 2 * Or(a / 2, b)
  {
  }

  function FirstByte(n: nat): byte { if n < 128 then n else n % 128 + 128 }

  lemma Varint32Step(n: nat, rest: Bytes, bitpos: byte, result: nat)
    ensures Varint32From(EncodeVarint(n) + rest, bitpos, result) ==
      if NotSign(FirstByte(n), bitpos, result) then None
      else
        var result' := Gathered(FirstByte(n), bitpos, result);
        if n >= 128 then Varint32From(EncodeVarint(n / 128) + rest, (bitpos + 7) % 0x100, result')
        else if TooWide(n, bitpos) then None
        else Some((result', rest))
  {
    hide NotSign, TooWide, Gathered;
    VarintStarts(n, rest);
    hide EncodeVarint;
  }

  /** Digits of seven bits that a sign may have from place k on: none or all of the bits, and the 64th bit is set. */
  predicate SignDigits(n: nat, k: nat)
    requires k <= 9
    decreases 9 - k
  {
    if k == 9 then n == 1 else (n % 128 == 0 || n % 128 == 127) && SignDigits(n / 128, k + 1)
  }

  /** A number of more than 32 bits that pb_decode_varint32 takes for a negative one of 32: its lowest 32 bits are
      negative, and all its bits from the 36th to the 63rd are alike in groups of seven. */
  predicate SeemsNegative(n: nat) {
    n >= LIMIT32 && n % LIMIT32 >= 0x8000_0000 && SignDigits(n / 0x8_0000_0000, 5)
  }

  /** What pb_decode_varint32 makes of the varint of n. */
  function AsWord(n: nat, rest: Bytes): Read<nat> {
    if n < LIMIT32 || SeemsNegative(n) then Some((n % LIMIT32, rest)) else None
  }

  lemma {:induction false} ZeroIsNoSign(k: nat)
    requires k <= 9
    ensures !SignDigits(0, k)
    decreases 9 - k
  {
    if k < 9 { ZeroIsNoSign(k + 1); }
  }

  lemma {:induction false} SignBytes(n: nat, rest: Bytes, k: nat, result: nat)
    requires 5 <= k <= 9 && 1 <= n < Power2(64 - 7 * k)
    ensures Varint32From(EncodeVarint(n) + rest, 7 * k, result) ==
      if result >= 0x8000_0000 && SignDigits(n, k) then Some((result, rest)) else None
    decreases 9 - k
  {
    hide EncodeVarint, Varint32From, NotSign, TooWide, Gathered, FirstByte;
    Varint32Step(n, rest, 7 * k, result);
    HighByte(n, k, result);
    if k == 9 {
      assert Power2(1) == 2 * Power2(0);
    } else {
      SevenBits(57 - 7 * k);
      hide Power2;
      ZeroIsNoSign(k + 1);
      if n >= 128 { SignBytes(n / 128, rest, k + 1, result); }
    }
  }

  /** A byte after the fifth: seven bits of a sign, and the last one of the tenth. */
  lemma HighByte(n: nat, k: nat, result: nat)
    requires 5 <= k <= 9 && n >= 1 && (k == 9 ==> n == 1)
    ensures Gathered(FirstByte(n), 7 * k, result) == result && (n < 128 ==> !TooWide(n, 7 * k))
    ensures k < 9 && n < 128 ==> NotSign(FirstByte(n), 7 * k, result)
    ensures k < 9 && n >= 128 ==>
      (NotSign(FirstByte(n), 7 * k, result) <==> n % 128 != 0 && (result < 0x8000_0000 || n % 128 != 127))
    ensures k == 9 ==> (NotSign(FirstByte(n), 63, result) <==> result < 0x8000_0000)
  {
  }

  lemma {:induction false} LowBytes(n: nat, rest: Bytes, k: nat, result: nat)
    requires 1 <= k <= 4 && 1 <= n < Power2(64 - 7 * k) && result < Power2(7 * k)
    ensures Varint32From(EncodeVarint(n) + rest, 7 * k, result) == AsWord(result + n * Power2(7 * k), rest)
    decreases 4 - k
  {
    hide EncodeVarint, Varint32From, Power2, SeemsNegative, NotSign, TooWide, Gathered;
    Places();
    if k == 4 {
      TopByte(n, rest, result);
    } else {
      Varint32Step(n, rest, 7 * k, result);
      LowByte(n, k, result);
      SevenBits(57 - 7 * k);
      SevenBits(7 * k);
      if n >= 128 { LowBytes(n / 128, rest, k + 1, result + n % 128 * Power2(7 * k)); }
    }
  }

  /** A byte before the fifth: its bits go above those gathered. */
  lemma LowByte(n: nat, k: nat, result: nat)
    requires 1 <= k <= 3 && result < Power2(7 * k)
    ensures !NotSign(FirstByte(n), 7 * k, result) && !TooWide(FirstByte(n), 7 * k)
    ensures Gathered(FirstByte(n), 7 * k, result) ==
      result + n % 128 * Power2(7 * k) < 128 * Power2(7 * k) <= 0x1000_0000
    ensures n * Power2(7 * k) == n % 128 * Power2(7 * k) + n / 128 * (128 * Power2(7 * k))
  {
    hide Power2, Or;
    Places();
    var p := Power2(7 * k);
    Distribute(n % 128, n / 128, p);
    Product(n % 128, p);
    OrAdds(result, n % 128, 7 * k);
  }

  lemma Product(low: nat, p: nat)
    requires low < 128
    ensures 0 <= low * p && low * p + p <= 128 * p
  {
  }

  /** The fifth byte: four bits of it are left. */
  lemma TopByte(n: nat, rest: Bytes, result: nat)
    requires 1 <= n < Power2(36) && result < 0x1000_0000
    ensures Varint32From(EncodeVarint(n) + rest, 28, result) == AsWord(result + n * 0x1000_0000, rest)
  {
    hide EncodeVarint, Varint32From, Power2, SignDigits, NotSign, TooWide, Gathered, FirstByte;
    Varint32Step(n, rest, 28, result);
    FifthByte(n, result);
    Wide(n, result);
    ZeroIsNoSign(5);
    if n >= 128 {
      SevenBits(29);
      SignBytes(n / 128, rest, 5, result + n % 16 * 0x1000_0000);
    }
  }

  lemma FifthByte(n: nat, result: nat)
    requires result < 0x1000_0000
    ensures !NotSign(FirstByte(n), 28, result) && (n < 128 ==> (TooWide(n, 28) <==> n >= 16))
    ensures Gathered(FirstByte(n), 28, result) == result + n % 16 * 0x1000_0000
  {
    hide Power2, Or;
    Places();
    Wide(n, result);
    OrAdds(result, n % 16, 28);
  }

  lemma Wide(n: nat, result: nat)
    requires result < 0x1000_0000
    ensures n % 128 * 0x1000_0000 % LIMIT32 == n % 16 * 0x1000_0000
    ensures var t := result + n * 0x1000_0000;
      t % LIMIT32 == result + n % 16 * 0x1000_0000 && t / 0x8_0000_0000 == n / 128 && (t < LIMIT32 <==> n < 16)
  {
    var low, t := result + n % 16 * 0x1000_0000, result + n * 0x1000_0000;
    assert n == n / 16 * 16 + n % 16 && n == n / 128 * 128 + n % 128 && n % 128 == n % 128 / 16 * 16 + n % 16;
    Above32(n % 128 / 16, n % 16 * 0x1000_0000);
    Above32(n / 16, low);
    Above35(n / 128, result + n % 128 * 0x1000_0000);
  }

  lemma Above32(high: nat, low: nat)
    requires low < LIMIT32
    ensures (high * LIMIT32 + low) % LIMIT32 == low && (high * LIMIT32 + low < LIMIT32 <==> high == 0)
  {
  }

  lemma Above35(high: nat, low: nat)
    requires low < 0x8_0000_0000
    ensures (high * 0x8_0000_0000 + low) / 0x8_0000_0000 == high
  {
  }

  /** pb_decode_varint32 reads a number of 32 bits back, takes the lowest 32 bits of one that seems negative, and
      refuses every other one. */
  lemma Varint32ReadsIff(n: nat, rest: Bytes)
    requires n < LIMIT64
    ensures Varint32(EncodeVarint(n) + rest) == AsWord(n, rest)
  {
    hide Varint32From, SeemsNegative, Power2;
    VarintStarts(n, rest);
    hide EncodeVarint;
    if n >= 128 {
      Places();
      Upper();
      LowBytes(n / 128, rest, 1, n % 128);
    }
  }

  lemma Upper()
    ensures Power2(57) == LIMIT64 / 128
  {
    Places();
    SevenBits(28);
    SevenBits(35);
    SevenBits(42);
    SevenBits(49);
    hide Power2;
    assert Power2(57) == 2 * Power2(56);
  }

  lemma Varint32ReadsLength(n: nat, rest: Bytes)
    requires n < LIMIT64 / 2
    ensures Varint32(EncodeVarint(n) + rest) == if n < LIMIT32 then Some((n, rest)) else None
  {
    hide Varint32, EncodeVarint, SeemsNegative;
    Varint32ReadsIff(n, rest);
    SignedIsLarge(n);
  }

  lemma SignedIsLarge(n: nat)
    ensures SeemsNegative(n) ==> n >= LIMIT64 / 2
  {
    if SeemsNegative(n) {
      var m := n / 0x8_0000_0000;
      assert SignDigits(m / 128 / 128, 7);
      assert m / 128 / 128 / 128 / 128 == 1;
    }
  }

  /** Of the longer numbers that are read, only the words of negative 32-bit numbers are read as what was sent; others,
      such as this one, are taken for a number that was not. */
  lemma Varint32Misreads(n: nat, rest: Bytes)
    requires LIMIT32 <= n < LIMIT64
    ensures Varint32(EncodeVarint(n) + rest).Some? && AsSigned(W64, n) != AsSigned(W32, n) <==>
      SeemsNegative(n) && n < LIMIT64 - LIMIT32 / 2
    ensures Varint32(EncodeVarint(0x8000_0000_8000_0000) + rest) == Some((0x8000_0000, rest))
  {
    hide Varint32, EncodeVarint;
    Varint32ReadsIff(n, rest);
    Varint32ReadsIff(0x8000_0000_8000_0000, rest);
    SeemsSo();
    hide SeemsNegative;
  }

  lemma SeemsSo()
    ensures SeemsNegative(0x8000_0000_8000_0000)
  {
    assert SignDigits(1, 9);
    assert SignDigits(0x80, 8);
    assert SignDigits(0x4000, 7);
    assert SignDigits(0x20_0000, 6);
    assert SignDigits(0x1000_0000, 5);
  }

  /** A negative number of 32 bits that was sent as one of 64. */
  lemma Varint32ReadsNegative(i: int, rest: Bytes)
    requires 0 - LIMIT32 / 2 <= i < 0
    ensures Varint32(EncodeVarint(i % LIMIT64) + rest) == Some((i % LIMIT32, rest))
  {
    hide Varint32, EncodeVarint;
    Varint32ReadsIff(i % LIMIT64, rest);
    NegativeSeems(i);
  }

  lemma NegativeSeems(i: int)
    requires 0 - LIMIT32 / 2 <= i < 0
    ensures SeemsNegative(i % LIMIT64) && i % LIMIT64 % LIMIT32 == i % LIMIT32
  {
    var n := i % LIMIT64;
    assert n == i + LIMIT64;
    var m := n / 0x8_0000_0000;
    assert m == 0x1fff_ffff;
    assert SignDigits(1, 9);
    assert SignDigits(0xff, 8);
    assert SignDigits(0x7fff, 7);
    assert SignDigits(0x3f_ffff, 6);
    assert SignDigits(0x1fff_ffff, 5);
  }

  lemma Varint64Inverts(n: nat, rest: Bytes)
    requires n < LIMIT64
    ensures Varint64(EncodeVarint(n) + rest) == Some((n, rest))
  {
    hide Varint64From, EncodeVarint;
    assert n * Power128(0) == n;
    hide Power128;
    Varint64Reads(n, rest, 0, 0);
  }

  // ----- machine integers -----

  datatype Width = W8 | W16 | W32 | W64

  function Limit(w: Width): nat {
    match w case W8 => 0x100 case W16 => 0x1_0000 case W32 => LIMIT32 case W64 => LIMIT64
  }

  predicate Signed(w: Width, i: int) { 0 - Limit(w) / 2 <= i < Limit(w) / 2 }

  /** The conversion of a word to a signed type: two's complement. */
  function AsSigned(w: Width, i: int): (r: int)
    ensures Signed(w, r)
  {
    var low := i % Limit(w);
    if low < Limit(w) / 2 then low else low - Limit(w)
  }

  /** pb_dec_varint: narrow fields are taken through 32 bits, as some writers send negative ones. */
  function NarrowSigned(w: Width, n: nat): (r: Option<int>)
    ensures r.Some? ==> Signed(w, r.value)
  {
    var i := AsSigned(if w == W64 then W64 else W32, n);
    if AsSigned(w, i) == i then Some(i) else None
  }

  lemma SignedSurvives(w: Width, i: int)
    requires Signed(w, i)
    ensures NarrowSigned(w, i % LIMIT64) == Some(i)
  {
    SameWord(w, i);
    WordOf(if w == W64 then W64 else W32, i);
    hide AsSigned;
  }

  lemma SameWord(w: Width, i: int)
    requires Signed(w, i)
    ensures AsSigned(w, i) == i
  {
  }

  /** A signed number and its 64-bit word convert alike. */
  lemma WordOf(w: Width, i: int)
    requires Signed(w, i)
    ensures AsSigned(w, i % LIMIT64) == i
  {
    SameWord(w, i);
    Truncate(w, i);
  }

  lemma Truncate(w: Width, i: int)
    requires Signed(W64, i)
    ensures i % LIMIT64 % Limit(w) == i % Limit(w)
  {
    Word(i);
    Shift8(i);
    Shift16(i);
    Shift32(i);
    hide Signed;
  }

  lemma Word(i: int)
    requires Signed(W64, i)
    ensures i % LIMIT64 == if i < 0 then i + LIMIT64 else i
  {
  }

  lemma Shift8(i: int)
    ensures (i + LIMIT64) % 0x100 == i % 0x100
  {
  }

  lemma Shift16(i: int)
    ensures (i + LIMIT64) % 0x1_0000 == i % 0x1_0000
  {
  }

  lemma Shift32(i: int)
    ensures (i + LIMIT64) % LIMIT32 == i % LIMIT32
  {
  }

  /** pb_encode_svarint: the complement of the doubled word, or the doubled word. */
  function ZigZag(i: int): (n: nat)
    ensures n < LIMIT64
  {
    var doubled := 2 * (i % LIMIT64) % LIMIT64;
    if i < 0 then LIMIT64 - 1 - doubled else doubled
  }

  /** pb_decode_svarint. */
  function UnZigZag(n: nat): (i: int)
    ensures n < LIMIT64 ==> Signed(W64, i)
  {
    if n % 2 == 1 then AsSigned(W64, LIMIT64 - 1 - n / 2) else n / 2
  }

  lemma ZigZagIs(i: int)
    requires Signed(W64, i)
    ensures ZigZag(i) == if i < 0 then -2 * i - 1 else 2 * i
  {
    assert i % LIMIT64 == if i < 0 then i + LIMIT64 else i;
    if i < 0 { assert 2 * (i + LIMIT64) == 2 * i + LIMIT64 + LIMIT64; }
  }

  lemma ZigZagInverts(i: int)
    requires Signed(W64, i)
    ensures UnZigZag(ZigZag(i)) == i
  {
    ZigZagIs(i);
    hide ZigZag, AsSigned;
    if i < 0 {
      AsSignedShifts(i);
      assert (-2 * i - 1) / 2 == -i - 1;
    }
  }

  lemma AsSignedShifts(i: int)
    requires Signed(W64, i) && i < 0
    ensures AsSigned(W64, LIMIT64 + i) == i
  {
  }

  /** pb_dec_svarint: the value as it is, if the field can hold it. */
  function NarrowZigZag(w: Width, n: nat): (r: Option<int>)
    ensures r.Some? ==> Signed(w, r.value)
  {
    var i := UnZigZag(n);
    if AsSigned(w, i) == i then Some(i) else None
  }

  // ----- tags -----

  datatype Wire = Varints | Words64 | Strings | Words32

  function WireCode(w: Wire): nat { match w case Varints => 0 case Words64 => 1 case Strings => 2 case Words32 => 5 }

  function TagBytes(tag: nat, w: Wire): Bytes { EncodeVarint(tag * 8 + WireCode(w)) }

  /** What pb_decode_tag finds: a field's number and wire type, the end of the message, or an error. */
  datatype TagRead = Tagged(tag: nat, wire: nat, rest: Bytes) | EndOfMessage | Malformed

  function ReadTag(bytes: Bytes): (r: TagRead)
    ensures r.Tagged? ==> |r.rest| < |bytes| && r.rest == bytes[|bytes| - |r.rest|..]
  {
    if bytes == [] then EndOfMessage
    else
      var r := Varint32(bytes);
      if r.None? then Malformed
      else if r.value.0 == 0 then EndOfMessage
      else Tagged(r.value.0 / 8, r.value.0 % 8, r.value.1)
  }

  lemma TagReads(tag: nat, w: Wire, rest: Bytes)
    requires 0 < tag < 0x2000_0000
    ensures ReadTag(TagBytes(tag, w) + rest) == Tagged(tag, WireCode(w), rest)
  {
    hide Varint32, EncodeVarint;
    Varint32ReadsLength(tag * 8 + WireCode(w), rest);
  }
}
