/** The handshake fragment header on the wire (section 4.2.2 of RFC 6347), and the fragments of a record. */
module DtlsWire {
  import opened Wrappers
  import opened Keys

  const HEADER_LENGTH: nat := 12 // DTLS1_HM_HEADER_LENGTH

  /** A handshake fragment: the header's fields and the body it carries. */
  datatype Fragment = Fragment(msgType: byte, msgLen: nat, seqNum: nat, off: nat, body: seq<byte>) {
    /** The fields fit their widths on the wire. */
    predicate Fits() { msgLen < 0x100_0000 && seqNum < 0x1_0000 && off < 0x100_0000 && |body| < 0x100_0000 }
  }

  /** A whole handshake message. */
  datatype Message = Message(msgType: byte, body: seq<byte>)

  function U16(n: nat): (b: seq<byte>)
    requires n < 0x1_0000
    ensures |b| == 2
  {
    [n / 0x100, n % 0x100]
  }

  function U24(n: nat): (b: seq<byte>)
    requires n < 0x100_0000
    ensures |b| == 3
  {
    [n / 0x100 / 0x100, n / 0x100 % 0x100, n % 0x100]
  }

  function FromU16(b: seq<byte>): nat
    requires |b| == 2
  {
    b[0] as int * 0x100 + b[1] as int
  }

  function FromU24(b: seq<byte>): nat
    requires |b| == 3
  {
    (b[0] as int * 0x100 + b[1] as int) * 0x100 + b[2] as int
  }

  function EncodeFragment(f: Fragment): (bytes: seq<byte>)
    requires f.Fits()
    ensures |bytes| == HEADER_LENGTH + |f.body|
  {
    [f.msgType] + U24(f.msgLen) + U16(f.seqNum) + U24(f.off) + U24(|f.body|) + f.body
  }

  /** dtls1_parse_fragment: a fragment and the bytes after it. */
  function ParseFragment(bytes: seq<byte>): (r: Option<(Fragment, seq<byte>)>)
    ensures r.Some? ==> |r.value.1| < |bytes|
  {
    if |bytes| < HEADER_LENGTH then None
    else
      var length := FromU24(bytes[9..12]);
      if |bytes| < HEADER_LENGTH + length then None
      else Some((Fragment(bytes[0], FromU24(bytes[1..4]), FromU16(bytes[4..6]), FromU24(bytes[6..9]),
                          bytes[HEADER_LENGTH..HEADER_LENGTH + length]),
                 bytes[HEADER_LENGTH + length..]))
  }

  lemma ParseInvertsEncode(f: Fragment, rest: seq<byte>)
    requires f.Fits()
    ensures ParseFragment(EncodeFragment(f) + rest) == Some((f, rest))
  {
    var bytes := EncodeFragment(f) + rest;
    assert bytes == [f.msgType] + U24(f.msgLen) + U16(f.seqNum) + U24(f.off) + U24(|f.body|) + (f.body + rest);
    assert bytes[1..4] == U24(f.msgLen) && bytes[4..6] == U16(f.seqNum);
    assert bytes[6..9] == U24(f.off) && bytes[9..12] == U24(|f.body|);
    assert bytes[HEADER_LENGTH..] == f.body + rest;
    assert bytes[HEADER_LENGTH..HEADER_LENGTH + |f.body|] == f.body;
    assert bytes[HEADER_LENGTH + |f.body|..] == rest;
  }

  /** The fragments of a record, and whether the record holds nothing else. */
  function ParseRecord(bytes: seq<byte>): (seq<Fragment>, bool) {
    if bytes == [] then ([], true)
    else
      var r := ParseFragment(bytes);
      if r.None? then ([], false)
      else
        var rest := ParseRecord(r.value.1);
        ([r.value.0] + rest.0, rest.1)
  }

  function EncodeRecord(fs: seq<Fragment>): seq<byte>
    requires forall f :: f in fs ==> f.Fits()
  {
    if fs == [] then [] else EncodeFragment(fs[0]) + EncodeRecord(fs[1..])
  }

  /** A record made of fragments parses into exactly those fragments. */
  lemma {:induction false} RecordRoundTrip(fs: seq<Fragment>)
    requires forall f :: f in fs ==> f.Fits()
    ensures ParseRecord(EncodeRecord(fs)) == (fs, true)
  {
    if fs != [] {
      ParseInvertsEncode(fs[0], EncodeRecord(fs[1..]));
      RecordRoundTrip(fs[1..]);
      assert |EncodeFragment(fs[0])| >= HEADER_LENGTH;
      assert fs == [fs[0]] + fs[1..];
    }
  }
}
