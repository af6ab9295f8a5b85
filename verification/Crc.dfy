/** crc32c::Extend: the four-stride computation equals the byte-at-a-time one, for every length and alignment,
    given what the tables are built to satisfy. */
module Crc {
  type word = bv32
  type octet = bv8

  /** A 256-entry table, indexed by words below 256. */
  type Table = word -> word

  const ALL_ONES: word := 0xffffffff

  /** kByteExtensionTable and the four stride tables. */
  datatype Tables = Tables(bytes: Table, stride0: Table, stride1: Table, stride2: Table, stride3: Table)

  // ----- bits -----

  function Xor(a: word, b: word): word { a ^ b }

  function Low(x: word): word { x & 0xff }

  function Down(x: word): word { x >> 8 }

  function Up(x: word): word { x << 8 }

  function Widen(c: octet): word { c as word }

  lemma XorSplits(a: word, b: word)
    ensures Low(Xor(a, b)) == Xor(Low(a), Low(b)) && Down(Xor(a, b)) == Xor(Down(a), Down(b))
    ensures Low(a) < 256 && Low(b) < 256
  {
  }

  lemma XorCommutes(a: word, b: word)
    ensures Xor(a, b) == Xor(b, a)
  {
  }

  lemma XorAssociates(a: word, b: word, c: word)
    ensures Xor(Xor(a, b), c) == Xor(a, Xor(b, c))
  {
  }

  lemma XorZero(a: word)
    ensures Xor(a, 0) == a && Xor(0, a) == a && Xor(a, a) == 0
  {
  }

  lemma XorRegroups(a: word, b: word, c: word, d: word)
    ensures Xor(Xor(a, b), Xor(c, d)) == Xor(Xor(a, c), Xor(b, d))
  {
    hide Xor;
    XorAssociates(a, b, Xor(c, d));
    XorAssociates(b, c, d);
    XorCommutes(b, c);
    XorAssociates(c, b, d);
    XorAssociates(a, c, Xor(b, d));
  }

  lemma LowByte(l: word, c: octet)
    ensures Low(Xor(l, Widen(c))) == Xor(Low(l), Widen(c)) && Down(Xor(l, Widen(c))) == Down(l)
  {
  }

  lemma UpDown(x: word)
    requires x < 0x100_0000
    ensures Down(Up(x)) == x && Low(Up(x)) == 0
  {
  }

  // ----- the byte loop -----

  /** STEP1. */
  function ByteStep(t: Tables, l: word, c: octet): word { Xor(t.bytes(Xor(Low(l), Widen(c))), Down(l)) }

  function Bytes(t: Tables, l: word, data: seq<octet>): word {
    if data == [] then l else ByteStep(t, Bytes(t, l, data[..|data| - 1]), data[|data| - 1])
  }

  /** The byte-at-a-time checksum. */
  function ExtendByBytes(t: Tables, crc: word, data: seq<octet>): word {
    Xor(Bytes(t, Xor(crc, ALL_ONES), data), ALL_ONES)
  }

  // ----- what the tables satisfy -----

  ghost predicate Linear(table: Table) {
    forall a: word, b: word {:trigger table(a), table(b)} :: a < 256 && b < 256 ==>
      table(Xor(a, b)) == Xor(table(a), table(b))
  }

  /** The state advanced by one zero byte. */
  function Advance(t: Tables, x: word): word { Xor(t.bytes(Low(x)), Down(x)) }

  function Advance4(t: Tables, x: word): word { Advance(t, Advance(t, Advance(t, Advance(t, x)))) }

  function Advance16(t: Tables, x: word): word { Advance4(t, Advance4(t, Advance4(t, Advance4(t, x)))) }

  /** The byte table is linear, and the stride tables hold 16-byte advances of the four bytes of a word. */
  ghost predicate WellMade(t: Tables) {
    && Linear(t.bytes)
    && (forall b: word :: b < 256 ==> t.stride3(b) == Advance16(t, b))
    && (forall b: word :: b < 256 ==> t.stride2(b) == Advance16(t, b << 8))
    && (forall b: word :: b < 256 ==> t.stride1(b) == Advance16(t, b << 16))
    && (forall b: word :: b < 256 ==> t.stride0(b) == Advance16(t, b << 24))
  }

  // ----- linearity -----

  lemma TablesLinear(t: Tables)
    requires WellMade(t)
    ensures Linear(t.bytes)
  {
  }

  lemma TableLinear(table: Table, a: word, b: word)
    requires Linear(table) && a < 256 && b < 256
    ensures table(Xor(a, b)) == Xor(table(a), table(b))
  {
  }

  lemma AdvanceLinear(t: Tables, a: word, b: word)
    requires Linear(t.bytes)
    ensures Advance(t, Xor(a, b)) == Xor(Advance(t, a), Advance(t, b))
  {
    hide Xor, Low, Down, Linear;
    XorSplits(a, b);
    TableLinear(t.bytes, Low(a), Low(b));
    XorRegroups(t.bytes(Low(a)), t.bytes(Low(b)), Down(a), Down(b));
  }

  lemma Advance4Linear(t: Tables, a: word, b: word)
    requires Linear(t.bytes)
    ensures Advance4(t, Xor(a, b)) == Xor(Advance4(t, a), Advance4(t, b))
  {
    hide Advance, Linear, Xor;
    AdvanceLinear(t, a, b);
    var a1, b1 := Advance(t, a), Advance(t, b);
    AdvanceLinear(t, a1, b1);
    var a2, b2 := Advance(t, a1), Advance(t, b1);
    AdvanceLinear(t, a2, b2);
    AdvanceLinear(t, Advance(t, a2), Advance(t, b2));
  }

  lemma Advance16Linear(t: Tables, a: word, b: word)
    requires Linear(t.bytes)
    ensures Advance16(t, Xor(a, b)) == Xor(Advance16(t, a), Advance16(t, b))
  {
    hide Advance4, Linear, Xor;
    Advance4Linear(t, a, b);
    var a1, b1 := Advance4(t, a), Advance4(t, b);
    Advance4Linear(t, a1, b1);
    var a2, b2 := Advance4(t, a1), Advance4(t, b1);
    Advance4Linear(t, a2, b2);
    Advance4Linear(t, Advance4(t, a2), Advance4(t, b2));
  }

  // ----- words -----

  /** ReadUint32LE. */
  function Word(b0: octet, b1: octet, b2: octet, b3: octet): word {
    Widen(b0) | (Widen(b1) << 8) | (Widen(b2) << 16) | (Widen(b3) << 24)
  }

  function WordAt(data: seq<octet>, p: nat): word
    requires p + 4 <= |data|
  {
    Word(data[p], data[p + 1], data[p + 2], data[p + 3])
  }

  lemma ByteStepIsAdvance(t: Tables, l: word, c: octet)
    ensures ByteStep(t, l, c) == Advance(t, Xor(l, Widen(c)))
  {
    hide Xor, Low, Down, Widen;
    LowByte(l, c);
  }

  /** A zero low byte passes through an advance as a shift. */
  lemma AdvanceShifts(t: Tables, x: word)
    requires Linear(t.bytes) && Low(x) == 0
    ensures Advance(t, x) == Down(x)
  {
    hide Xor, Low, Down, Linear;
    TableLinear(t.bytes, 0, 0);
    XorZero(0);
    XorZero(t.bytes(0));
    XorZero(Down(x));
  }

  /** One byte of a word: the rest of the word moves down. */
  lemma WordByte(t: Tables, l: word, c: octet, rest: word)
    requires Linear(t.bytes) && Low(rest) == 0
    ensures Advance(t, Xor(l, Xor(Widen(c), rest))) == Xor(ByteStep(t, l, c), Down(rest))
  {
    hide Xor, Low, Down, Linear, Widen, Advance, ByteStep;
    ByteStepIsAdvance(t, l, c);
    AdvanceShifts(t, rest);
    AdvanceLinear(t, Xor(l, Widen(c)), rest);
    XorAssociates(l, Widen(c), rest);
  }

  lemma WordParts(b0: octet, b1: octet, b2: octet, b3: octet)
    ensures var r2 := Xor(Widen(b2), Up(Widen(b3)));
            var r1 := Xor(Widen(b1), Up(r2));
            Word(b0, b1, b2, b3) == Xor(Widen(b0), Up(r1))
            && Widen(b3) < 0x100_0000 && r2 < 0x100_0000 && r1 < 0x100_0000
  {
  }

  /** Four byte steps are one word xored in and advanced by four bytes. */
  lemma WordStep(t: Tables, l: word, b0: octet, b1: octet, b2: octet, b3: octet)
    requires Linear(t.bytes)
    ensures ByteStep(t, ByteStep(t, ByteStep(t, ByteStep(t, l, b0), b1), b2), b3) ==
      Advance4(t, Xor(l, Word(b0, b1, b2, b3)))
  {
    hide Word, Advance, ByteStep, Linear, Xor, Up, Down, Low, Widen;
    WordParts(b0, b1, b2, b3);
    var r2 := Xor(Widen(b2), Up(Widen(b3)));
    var r1 := Xor(Widen(b1), Up(r2));
    UpDown(r1);
    UpDown(r2);
    UpDown(Widen(b3));
    WordByte(t, l, b0, Up(r1));
    var l1 := ByteStep(t, l, b0);
    WordByte(t, l1, b1, Up(r2));
    var l2 := ByteStep(t, l1, b1);
    WordByte(t, l2, b2, Up(Widen(b3)));
    ByteStepIsAdvance(t, ByteStep(t, l2, b2), b3);
  }

  // ----- strides -----

  /** The table look-ups of STEP4: a word advanced by sixteen bytes. */
  function Stride(t: Tables, x: word): word {
    Xor(Xor(Xor(t.stride3(x & 0xff), t.stride2((x >> 8) & 0xff)), t.stride1((x >> 16) & 0xff)), t.stride0(x >> 24))
  }

  lemma BytesOfWord(x: word)
    ensures x == Xor(Xor(Xor(x & 0xff, ((x >> 8) & 0xff) << 8), ((x >> 16) & 0xff) << 16), (x >> 24) << 24)
    ensures x & 0xff < 256 && (x >> 8) & 0xff < 256 && (x >> 16) & 0xff < 256 && x >> 24 < 256
  {
  }

  lemma StrideIsAdvance(t: Tables, x: word)
    requires WellMade(t)
    ensures Stride(t, x) == Advance16(t, x)
  {
    hide Xor, Linear, Advance16;
    BytesOfWord(x);
    var a, b, c, d := x & 0xff, ((x >> 8) & 0xff) << 8, ((x >> 16) & 0xff) << 16, (x >> 24) << 24;
    Advance16Linear(t, a, b);
    Advance16Linear(t, Xor(a, b), c);
    Advance16Linear(t, Xor(Xor(a, b), c), d);
  }

  /** The last three STEP4Ws, from the state the first one leaves. */
  function Fold(t: Tables, l: word, c1: word, c2: word, c3: word): word {
    Advance4(t, Xor(Advance4(t, Xor(Advance4(t, Xor(l, c1)), c2)), c3))
  }

  /** What the four partial results stand for. */
  function Combine(t: Tables, c0: word, c1: word, c2: word, c3: word): word { Fold(t, Advance4(t, c0), c1, c2, c3) }

  lemma FoldLinear(t: Tables, l: word, c1: word, c2: word, c3: word, m: word, d1: word, d2: word, d3: word)
    requires Linear(t.bytes)
    ensures Fold(t, Xor(l, m), Xor(c1, d1), Xor(c2, d2), Xor(c3, d3)) ==
      Xor(Fold(t, l, c1, c2, c3), Fold(t, m, d1, d2, d3))
  {
    hide Xor, Linear, Advance4;
    XorRegroups(l, m, c1, d1);
    Advance4Linear(t, Xor(l, c1), Xor(m, d1));
    var l1, m1 := Advance4(t, Xor(l, c1)), Advance4(t, Xor(m, d1));
    XorRegroups(l1, m1, c2, d2);
    Advance4Linear(t, Xor(l1, c2), Xor(m1, d2));
    var l2, m2 := Advance4(t, Xor(l1, c2)), Advance4(t, Xor(m1, d2));
    XorRegroups(l2, m2, c3, d3);
    Advance4Linear(t, Xor(l2, c3), Xor(m2, d3));
  }

  lemma CombineLinear(t: Tables, c0: word, c1: word, c2: word, c3: word, d0: word, d1: word, d2: word, d3: word)
    requires Linear(t.bytes)
    ensures Combine(t, Xor(c0, d0), Xor(c1, d1), Xor(c2, d2), Xor(c3, d3))
            == Xor(Combine(t, c0, c1, c2, c3), Combine(t, d0, d1, d2, d3))
  {
    hide Xor, Linear, Advance4, Fold;
    Advance4Linear(t, c0, d0);
    FoldLinear(t, Advance4(t, c0), c1, c2, c3, Advance4(t, d0), d1, d2, d3);
  }

  /** Advancing every partial result advances what they stand for. */
  lemma Combine4Advances(t: Tables, c0: word, c1: word, c2: word, c3: word)
    requires Linear(t.bytes)
    ensures Combine(t, Advance4(t, c0), Advance4(t, c1), Advance4(t, c2), Advance4(t, c3)) ==
      Advance4(t, Combine(t, c0, c1, c2, c3))
  {
    hide Xor, Linear, Advance4;
    var l := Advance4(t, c0);
    Advance4Linear(t, l, c1);
    var l1 := Advance4(t, Xor(l, c1));
    Advance4Linear(t, l1, c2);
    var l2 := Advance4(t, Xor(l1, c2));
    Advance4Linear(t, l2, c3);
  }

  lemma CombineAdvances(t: Tables, c0: word, c1: word, c2: word, c3: word)
    requires Linear(t.bytes)
    ensures Combine(t, Advance16(t, c0), Advance16(t, c1), Advance16(t, c2), Advance16(t, c3)) ==
      Advance16(t, Combine(t, c0, c1, c2, c3))
  {
    hide Combine, Linear, Advance4;
    Combine4Advances(t, c0, c1, c2, c3);
    var a0, a1, a2, a3 := Advance4(t, c0), Advance4(t, c1), Advance4(t, c2), Advance4(t, c3);
    Combine4Advances(t, a0, a1, a2, a3);
    var b0, b1, b2, b3 := Advance4(t, a0), Advance4(t, a1), Advance4(t, a2), Advance4(t, a3);
    Combine4Advances(t, b0, b1, b2, b3);
    Combine4Advances(t, Advance4(t, b0), Advance4(t, b1), Advance4(t, b2), Advance4(t, b3));
  }

  /** With nothing in the other strides, a state is advanced by sixteen bytes. */
  lemma CombineAlone(t: Tables, l: word)
    ensures Combine(t, l, 0, 0, 0) == Advance16(t, l)
  {
    hide Xor, Advance4;
    XorZero(Advance4(t, l));
    XorZero(Advance4(t, Advance4(t, l)));
    XorZero(Advance4(t, Advance4(t, Advance4(t, l))));
  }

  /** Sixteen bytes from state l, as four words in four strides. */
  lemma SwathOf(t: Tables, l: word, w0: word, w1: word, w2: word, w3: word)
    requires Linear(t.bytes)
    ensures Combine(t, Xor(w0, l), w1, w2, w3) == Xor(Combine(t, w0, w1, w2, w3), Advance16(t, l))
  {
    hide Xor, Linear, Combine, Advance16;
    CombineAlone(t, l);
    XorZero(w1);
    XorZero(w2);
    XorZero(w3);
    CombineLinear(t, w0, w1, w2, w3, l, 0, 0, 0);
  }

  /** STEP16 on the partial results is sixteen bytes on what they stand for. */
  lemma SwathStep(t: Tables, c0: word, c1: word, c2: word, c3: word, w0: word, w1: word, w2: word, w3: word)
    requires WellMade(t)
    ensures Combine(t, Xor(w0, Stride(t, c0)), Xor(w1, Stride(t, c1)), Xor(w2, Stride(t, c2)), Xor(w3, Stride(t, c3)))
            == Combine(t, Xor(w0, Combine(t, c0, c1, c2, c3)), w1, w2, w3)
  {
    StridesAre(t, c0, c1, c2, c3);
    hide Xor, Linear, Combine, Advance16, Stride;
    CombineLinear(t, w0, w1, w2, w3, Advance16(t, c0), Advance16(t, c1), Advance16(t, c2), Advance16(t, c3));
    CombineAdvances(t, c0, c1, c2, c3);
    SwathOf(t, Combine(t, c0, c1, c2, c3), w0, w1, w2, w3);
  }

  lemma StridesAre(t: Tables, c0: word, c1: word, c2: word, c3: word)
    requires WellMade(t)
    ensures Stride(t, c0) == Advance16(t, c0) && Stride(t, c1) == Advance16(t, c1)
    ensures Stride(t, c2) == Advance16(t, c2) && Stride(t, c3) == Advance16(t, c3)
  {
    StrideIsAdvance(t, c0);
    StrideIsAdvance(t, c1);
    StrideIsAdvance(t, c2);
    StrideIsAdvance(t, c3);
  }

  /** STEP4(0) and the rotation of the partial results are four bytes on what they stand for. */
  lemma WordRotates(t: Tables, c0: word, c1: word, c2: word, c3: word, w: word)
    requires WellMade(t)
    ensures Combine(t, c1, c2, c3, Xor(w, Stride(t, c0))) == Advance4(t, Xor(Combine(t, c0, c1, c2, c3), w))
  {
    hide Xor, Linear, Stride, Advance4, Advance16, WellMade;
    TablesLinear(t);
    StrideIsAdvance(t, c0);
    CombineSplits(t, c0, c1, c2, c3);
    var x := Advance4(t, Xor(Advance4(t, Xor(Advance4(t, c1), c2)), c3));
    XorAssociates(x, w, Advance16(t, c0));
    XorCommutes(w, Advance16(t, c0));
    XorAssociates(x, Advance16(t, c0), w);
    XorCommutes(x, Advance16(t, c0));
    assert Xor(x, Xor(w, Advance16(t, c0))) == Xor(Xor(Advance16(t, c0), x), w);
  }

  lemma CombineSplits(t: Tables, c0: word, c1: word, c2: word, c3: word)
    requires Linear(t.bytes)
    ensures Combine(t, c0, c1, c2, c3)
            == Xor(Advance16(t, c0), Advance4(t, Xor(Advance4(t, Xor(Advance4(t, c1), c2)), c3)))
  {
    hide Xor, Linear, Advance4;
    var a := Advance4(t, c0);
    Advance4Linear(t, a, c1);
    var a1, b1 := Advance4(t, a), Advance4(t, c1);
    XorAssociates(a1, b1, c2);
    Advance4Linear(t, a1, Xor(b1, c2));
    var a2, b2 := Advance4(t, a1), Advance4(t, Xor(b1, c2));
    XorAssociates(a2, b2, c3);
    Advance4Linear(t, a2, Xor(b2, c3));
  }

  // ----- the byte loop over words -----

  lemma {:induction false} BytesJoin(t: Tables, l: word, a: seq<octet>, b: seq<octet>)
    ensures Bytes(t, l, a + b) == Bytes(t, Bytes(t, l, a), b)
    decreases |b|
  {
    if b == [] {
      assert a + b == a;
    } else {
      assert (a + b)[..|a + b| - 1] == a + b[..|b| - 1];
      BytesJoin(t, l, a, b[..|b| - 1]);
    }
  }

  lemma BytesMore(t: Tables, l: word, data: seq<octet>, p: nat)
    requires p < |data|
    ensures Bytes(t, l, data[..p + 1]) == ByteStep(t, Bytes(t, l, data[..p]), data[p])
  {
    assert data[..p + 1][..p] == data[..p];
  }

  lemma BytesWord(t: Tables, l: word, data: seq<octet>, p: nat)
    requires Linear(t.bytes) && p + 4 <= |data|
    ensures Bytes(t, l, data[..p + 4]) == Advance4(t, Xor(Bytes(t, l, data[..p]), WordAt(data, p)))
  {
    hide Xor, Linear, Advance4, ByteStep, Bytes, Word;
    BytesMore(t, l, data, p);
    BytesMore(t, l, data, p + 1);
    BytesMore(t, l, data, p + 2);
    BytesMore(t, l, data, p + 3);
    WordStep(t, Bytes(t, l, data[..p]), data[p], data[p + 1], data[p + 2], data[p + 3]);
  }

  /** Sixteen bytes of the byte loop, as four strides. */
  lemma BytesSwath(t: Tables, l: word, data: seq<octet>, p: nat)
    requires Linear(t.bytes) && p + 16 <= |data|
    ensures Bytes(t, l, data[..p + 16])
            == Combine(t, Xor(WordAt(data, p), Bytes(t, l, data[..p])), WordAt(data, p + 4), WordAt(data, p + 8),
                       WordAt(data, p + 12))
  {
    hide Xor, Linear, Advance4, Bytes, WordAt;
    BytesWord(t, l, data, p);
    BytesWord(t, l, data, p + 4);
    BytesWord(t, l, data, p + 8);
    BytesWord(t, l, data, p + 12);
    XorCommutes(WordAt(data, p), Bytes(t, l, data[..p]));
  }

  // ----- Extend -----

  /** Extend, for data at an address with the given alignment. */
  method Extend(t: Tables, crc: word, data: seq<octet>, address: nat) returns (r: word)
    requires WellMade(t)
    ensures r == ExtendByBytes(t, crc, data)
  {
    hide Xor, Linear, Bytes, ByteStep, Combine, Stride, WordAt, WellMade;
    TablesLinear(t);
    ghost var l0 := Xor(crc, ALL_ONES);
    var p, e, l := 0, |data|, Xor(crc, ALL_ONES);
    assert data[..0] == [];
    EmptyBytes(t, l0);
    var x := (4 - address % 4) % 4; // up to the first aligned byte
    if x <= e {
      p, l := StepBytes(t, l0, data, p, x, l);
    }
    if e - p >= 16 {
      p, l := StepStrides(t, l0, data, p, l);
    }
    p, l := StepBytes(t, l0, data, p, e, l);
    assert data[..e] == data;
    r := Xor(l, ALL_ONES);
  }

  lemma EmptyBytes(t: Tables, l: word)
    ensures Bytes(t, l, []) == l
  {
  }

  /** STEP1 from p up to q. */
  method StepBytes(t: Tables, ghost l0: word, data: seq<octet>, p: nat, q: nat, l: word) returns (p': nat, l': word)
    requires p <= q <= |data| && l == Bytes(t, l0, data[..p])
    ensures p' == q && l' == Bytes(t, l0, data[..q])
  {
    p', l' := p, l;
    while p' != q
      invariant p <= p' <= q && l' == Bytes(t, l0, data[..p'])
    {
      BytesMore(t, l0, data, p');
      l' := ByteStep(t, l', data[p']);
      p' := p' + 1;
    }
  }

  /** The four stride accumulators. */
  datatype Strides = Strides(crc0: word, crc1: word, crc2: word, crc3: word) {
    ghost function Meaning(t: Tables): word { Combine(t, crc0, crc1, crc2, crc3) }
  }

  /** Swaths of sixteen bytes, then words, in four strides. */
  method StepStrides(t: Tables, ghost l0: word, data: seq<octet>, p: nat, l: word) returns (p': nat, l': word)
    requires WellMade(t) && p + 16 <= |data| && l == Bytes(t, l0, data[..p])
    ensures p <= p' <= |data| && l' == Bytes(t, l0, data[..p'])
  {
    hide Xor, Linear, Bytes, Combine, WordAt, WellMade;
    TablesLinear(t);
    BytesSwath(t, l0, data, p);
    var c := Strides(Xor(WordAt(data, p), l), WordAt(data, p + 4), WordAt(data, p + 8), WordAt(data, p + 12));
    p' := p + 16;
    while |data| - p' >= 16
      invariant p <= p' <= |data| && c.Meaning(t) == Bytes(t, l0, data[..p'])
    {
      c := StepSwath(t, l0, data, p', c);
      p' := p' + 16;
    }
    while |data| - p' >= 4
      invariant p <= p' <= |data| && c.Meaning(t) == Bytes(t, l0, data[..p'])
    {
      c := StepRotate(t, l0, data, p', c);
      p' := p' + 4;
    }
    l' := CombineStrides(t, c.crc0, c.crc1, c.crc2, c.crc3);
  }

  /** STEP16. */
  method StepSwath(t: Tables, ghost l0: word, data: seq<octet>, p: nat, c: Strides) returns (c': Strides)
    requires WellMade(t) && p + 16 <= |data| && c.Meaning(t) == Bytes(t, l0, data[..p])
    ensures c'.Meaning(t) == Bytes(t, l0, data[..p + 16])
  {
    hide Xor, Linear, Bytes, Combine, Stride, WordAt, WellMade;
    TablesLinear(t);
    BytesSwath(t, l0, data, p);
    SwathStep(t, c.crc0, c.crc1, c.crc2, c.crc3,
              WordAt(data, p), WordAt(data, p + 4), WordAt(data, p + 8), WordAt(data, p + 12));
    c' := Strides(Xor(WordAt(data, p), Stride(t, c.crc0)), Xor(WordAt(data, p + 4), Stride(t, c.crc1)),
                  Xor(WordAt(data, p + 8), Stride(t, c.crc2)), Xor(WordAt(data, p + 12), Stride(t, c.crc3)));
  }

  /** STEP4(0), and the accumulators change places. */
  method StepRotate(t: Tables, ghost l0: word, data: seq<octet>, p: nat, c: Strides) returns (c': Strides)
    requires WellMade(t) && p + 4 <= |data| && c.Meaning(t) == Bytes(t, l0, data[..p])
    ensures c'.Meaning(t) == Bytes(t, l0, data[..p + 4])
  {
    hide Xor, Linear, Bytes, Combine, Stride, WordAt, WellMade, Advance4;
    TablesLinear(t);
    BytesWord(t, l0, data, p);
    WordRotates(t, c.crc0, c.crc1, c.crc2, c.crc3, WordAt(data, p));
    c' := Strides(c.crc1, c.crc2, c.crc3, Xor(WordAt(data, p), Stride(t, c.crc0)));
  }

  /** The four STEP4Ws. */
  method CombineStrides(t: Tables, crc0: word, crc1: word, crc2: word, crc3: word) returns (l: word)
    ensures l == Combine(t, crc0, crc1, crc2, crc3)
  {
    hide Xor;
    XorZero(crc0);
    l := StepWord(t, crc0, 0);
    XorCommutes(crc1, l);
    l := StepWord(t, crc1, l);
    XorCommutes(crc2, l);
    l := StepWord(t, crc2, l);
    XorCommutes(crc3, l);
    l := StepWord(t, crc3, l);
  }

  /** STEP4W: four zero bytes from the word xored with the state. */
  method StepWord(t: Tables, w: word, l: word) returns (r: word)
    ensures r == Advance4(t, Xor(w, l))
  {
    hide Xor, Low, Down;
    r := Xor(w, l);
    ghost var start := r;
    for i := 0 to 4
      invariant i <= 4
        && r ==
        (if i == 0 then start else if i == 1 then Advance(t, start) else if i == 2 then Advance(t, Advance(t, start))
                      else if i == 3 then Advance(t, Advance(t, Advance(t, start))) else Advance4(t, start))
    {
      XorCommutes(Down(r), t.bytes(Low(r)));
      r := Xor(Down(r), t.bytes(Low(r)));
    }
  }

  /** Extending by a and then by b is extending by both, at any alignments. */
  lemma ExtendJoins(t: Tables, crc: word, a: seq<octet>, b: seq<octet>)
    ensures ExtendByBytes(t, ExtendByBytes(t, crc, a), b) == ExtendByBytes(t, crc, a + b)
  {
    hide Xor, Bytes;
    var l := Bytes(t, Xor(crc, ALL_ONES), a);
    BytesJoin(t, Xor(crc, ALL_ONES), a, b);
    XorAssociates(l, ALL_ONES, ALL_ONES);
    XorZero(ALL_ONES);
    XorZero(l);
  }
}
