/** nanopb's encoder and decoder joined: a message written into a buffer and read back from it. */
module PbTransfer {
  import opened Wrappers
  import opened Keys
  import opened KeyEncoding
  import opened PbWire
  import opened PbMessages
  import opened PbDecoding
  import opened PbRoundTrip
  import opened PbEncoder
  import opened PbDecoder

  /** pb_encode into a buffer of the given size, and pb_decode from what was written into any struct of the type. */
  method Transfer(d: Descriptor, m: Message, dest: Message, size: nat) returns (sent: bool, read: bool, r: Message)
    requires WellFormed(d) && IsMessage(d, m) && IsMessage(d, dest) && size < HUGE
    ensures |m.slots| == |d.fields|
    ensures sent <==> Encodable(d, m) && |EncodeMessage(d, m)| <= size
    ensures sent ==> (read <==> Readable(d, m))
    ensures read ==> sent && IsMessage(d, r) && |r.slots| == |d.fields| && Same(d, m, r)
  {
    hide WellFormed, IsMessage, Encodable, Readable, Same, EncodeMessage, Decode;
    MessageSlots(d, m);
    var stream := new OStream(false, size, []);
    var e := stream.Encode(d, m);
    sent, read, r := e.Done?, false, dest;
    if !sent { return; }
    var input := new IStream(stream.out, 0, |stream.out|);
    assert input.Rest() == EncodeMessage(d, m);
    DecodesWhatWasEncodedIff(d, m, dest);
    read, r := input.DecodeAll(d, dest);
    if read { MessageSlots(d, r); }
  }
}
