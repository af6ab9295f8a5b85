/** Sending a DTLS flight: messages cut into fragments that tile them exactly, sealed in records, packed into datagrams.
    */
module DtlsSend {
  import opened Wrappers
  import opened Keys
  import opened DtlsWire
  import opened DtlsReceive

  /** DTLS_OUTGOING_MESSAGE: a handshake message, or a ChangeCipherSpec. */
  datatype Outgoing = Handshake(seqNum: nat, message: Message) | ChangeCipherSpec

  function LengthOf(m: Outgoing): nat { if m.Handshake? then |m.message.body| else 0 }

  /** The fragments cover the first `upto` bytes of the message, each byte once, in order. */
  ghost predicate Tiles(fs: seq<Fragment>, m: Outgoing, upto: nat) {
    if fs == [] then upto == 0
    else
      var f := fs[|fs| - 1];
      && m.Handshake? && f.seqNum == m.seqNum && PartOf(f, m.message) && f.body != []
      && f.off + |f.body| == upto && Tiles(fs[..|fs| - 1], m, f.off)
  }

  /** The fragments carry the whole message: one empty fragment for an empty one, none for a ChangeCipherSpec. */
  ghost predicate TilesWhole(fs: seq<Fragment>, m: Outgoing) {
    match m
    case ChangeCipherSpec => fs == []
    case Handshake(seqNum, message) =>
      if message.body == [] then fs == [Fragment(message.msgType, 0, seqNum, 0, [])] else Tiles(fs, m, |message.body|)
  }

  lemma TilesMore(fs: seq<Fragment>, m: Outgoing, off: nat, todo: nat)
    requires m.Handshake? && Tiles(fs, m, off) && 0 < todo && off + todo <= |m.message.body|
    ensures var f := Fragment(m.message.msgType, |m.message.body|, m.seqNum, off, m.message.body[off..off + todo]);
      Tiles(fs + [f], m, off + todo)
  {
    var f := Fragment(m.message.msgType, |m.message.body|, m.seqNum, off, m.message.body[off..off + todo]);
    assert (fs + [f])[..|fs|] == fs;
  }

  /** The next fragment continues the tiling, or completes it. */
  lemma NextTile(fs: seq<Fragment>, m: Outgoing, off: nat, todo: nat)
    requires m.Handshake? && Tiles(fs, m, off) && off + todo <= |m.message.body| && (off == 0 || off < |m.message.body|)
    requires todo == 0 ==> off == |m.message.body|
    ensures var f := Fragment(m.message.msgType, |m.message.body|, m.seqNum, off, m.message.body[off..off + todo]);
            if off + todo == |m.message.body| then TilesWhole(fs + [f], m) else Tiles(fs + [f], m, off + todo)
  {
    if todo > 0 { TilesMore(fs, m, off, todo); }
  }

  // ----- what tiling gives the receiver -----

  /** What a receiver is fed depends only on which fragments it gets, not on their order or number. */
  lemma {:induction false} CoveredIs(fs: seq<Fragment>, n: nat, i: nat)
    ensures i in Covered(fs, n) <==> exists f :: f in fs && f.seqNum == n && f.off <= i < f.off + |f.body|
  {
    if fs != [] {
      var front, last := fs[..|fs| - 1], fs[|fs| - 1];
      CoveredIs(front, n, i);
      assert forall f :: f in fs <==> f in front || f == last;
    }
  }

  lemma {:induction false} TilesCover(fs: seq<Fragment>, m: Outgoing, upto: nat)
    requires m.Handshake? && Tiles(fs, m, upto)
    ensures Covered(fs, m.seqNum) == Range(0, upto)
    ensures forall f :: f in fs ==> f.seqNum == m.seqNum && PartOf(f, m.message)
  {
    if fs != [] {
      var front, last := fs[..|fs| - 1], fs[|fs| - 1];
      TilesCover(front, m, last.off);
      assert forall f :: f in fs <==> f in front || f == last;
    }
  }

  // ----- what goes out -----

  /** A sealed record: what it holds, and how long it is on the wire. */
  datatype Record = Record(handshake: bool, payload: seq<byte>, length: nat)

  type Packet = seq<Record>

  function WireLength(packet: Packet): nat {
    if packet == [] then 0 else WireLength(packet[..|packet| - 1]) + packet[|packet| - 1].length
  }

  /** The handshake fragments that a receiver parses from the records of a packet. */
  function FragmentsIn(packet: Packet): seq<Fragment> {
    if packet == [] then []
    else
      var last := packet[|packet| - 1];
      FragmentsIn(packet[..|packet| - 1]) + if last.handshake then ParseRecord(last.payload).0 else []
  }

  function FragmentsOf(packets: seq<Packet>): seq<Fragment> {
    if packets == [] then [] else FragmentsOf(packets[..|packets| - 1]) + FragmentsIn(packets[|packets| - 1])
  }

  lemma OneMoreRecord(packet: Packet, record: Record)
    ensures WireLength(packet + [record]) == WireLength(packet) + record.length
    ensures FragmentsIn(packet + [record]) ==
      FragmentsIn(packet) + if record.handshake then ParseRecord(record.payload).0 else []
  {
    assert (packet + [record])[..|packet|] == packet;
  }

  lemma OneMorePacket(packets: seq<Packet>, packet: Packet)
    ensures FragmentsOf(packets + [packet]) == FragmentsOf(packets) + FragmentsIn(packet)
  {
    assert (packets + [packet])[..|packets|] == packets;
  }

  /** The fragments of message n. */
  function Only(fs: seq<Fragment>, n: nat): seq<Fragment> {
    if fs == [] then []
    else Only(fs[..|fs| - 1], n) + if fs[|fs| - 1].seqNum == n then [fs[|fs| - 1]] else []
  }

  lemma {:induction false} OnlyJoins(a: seq<Fragment>, b: seq<Fragment>, n: nat)
    ensures Only(a + b, n) == Only(a, n) + Only(b, n)
    decreases |b|
  {
    if b == [] {
      assert a + b == a;
    } else {
      OnlyJoins(a, b[..|b| - 1], n);
      assert (a + b)[..|a + b| - 1] == a + b[..|b| - 1];
    }
  }

  /** Fragments all of one message. */
  lemma {:induction false} OnlyThese(fs: seq<Fragment>, k: nat, n: nat)
    requires forall f :: f in fs ==> f.seqNum == k
    ensures Only(fs, n) == if n == k then fs else []
  {
    if fs != [] {
      OnlyThese(fs[..|fs| - 1], k, n);
      assert fs == fs[..|fs| - 1] + [fs[|fs| - 1]] && fs[|fs| - 1] in fs;
    }
  }

  // ----- the sender -----

  lemma CcsIsNothing(fs: seq<Fragment>, m: Outgoing, offset: nat)
    requires Tiles(fs, m, offset)
    ensures m.ChangeCipherSpec? ==> TilesWhole(fs, m) && offset == 0
  {
  }

  /** The fields of every fragment of the message fit their widths. */
  predicate Encodable(m: Outgoing) { m.Handshake? ==> |m.message.body| < 0x100_0000 && m.seqNum < 0x1_0000 }

  /** Messages are numbered as they are made. */
  ghost predicate Numbered(messages: seq<Outgoing>) {
    forall i, k :: 0 <= i < k < |messages| && messages[i].Handshake? && messages[k].Handshake? ==>
      messages[i].seqNum != messages[k].seqNum
  }

  function Joined(done: seq<seq<Fragment>>): seq<Fragment> {
    if done == [] then [] else Joined(done[..|done| - 1]) + done[|done| - 1]
  }

  lemma OneMoreDone(done: seq<seq<Fragment>>, fs: seq<Fragment>)
    ensures Joined(done + [fs]) == Joined(done) + fs
  {
    assert (done + [fs])[..|done|] == done;
  }

  lemma {:induction false} TilesAreOf(fs: seq<Fragment>, m: Outgoing, upto: nat)
    requires Tiles(fs, m, upto)
    ensures forall f :: f in fs ==> m.Handshake? && f.seqNum == m.seqNum
  {
    if fs != [] {
      var front, last := fs[..|fs| - 1], fs[|fs| - 1];
      TilesAreOf(front, m, last.off);
      assert forall f :: f in fs <==> f in front || f == last;
    }
  }

  /** When all messages are done, the fragments sent of each tile it. */
  lemma {:induction false} DoneTile(done: seq<seq<Fragment>>, messages: seq<Outgoing>, i: nat)
    requires |done| <= |messages| && Numbered(messages) && i < |messages| && messages[i].Handshake?
    requires forall k :: 0 <= k < |done| ==> TilesWhole(done[k], messages[k])
    ensures Only(Joined(done), messages[i].seqNum) == if i < |done| then done[i] else []
  {
    if done == [] {
    } else {
      hide TilesWhole, Only, Joined;
      var front, last, k := done[..|done| - 1], done[|done| - 1], |done| - 1;
      assert done == front + [last];
      OneMoreDone(front, last);
      DoneTile(front, messages, i);
      OnlyJoins(Joined(front), last, messages[i].seqNum);
      WholeIsOf(last, messages[k]);
      var seqNum := messages[i].seqNum;
      OnlyThese(last, if messages[k].Handshake? then messages[k].seqNum else seqNum + 1, seqNum);
    }
  }

  lemma WholeIsOf(fs: seq<Fragment>, m: Outgoing)
    requires TilesWhole(fs, m)
    ensures forall f :: f in fs ==> m.Handshake? && f.seqNum == m.seqNum
  {
    if m.Handshake? && m.message.body != [] { TilesAreOf(fs, m, |m.message.body|); }
  }

  /** How much of the message goes into the next fragment. */
  function Todo(m: Message, offset: nat, room: nat): (todo: nat)
    requires offset <= |m.body|
    ensures todo <= |m.body| - offset
  {
    if |m.body| - offset <= room then |m.body| - offset else room
  }

  function NextFragment(m: Outgoing, offset: nat, room: nat): Fragment
    requires m.Handshake? && offset <= |m.message.body|
  {
    var todo := Todo(m.message, offset, room);
    Fragment(m.message.msgType, |m.message.body|, m.seqNum, offset, m.message.body[offset..offset + todo])
  }

  datatype Seal = NoProgress | Partial | Success

  datatype FlightResult = Sent | Retry | MtuTooSmall

  class Sender {
    const messages: seq<Outgoing> // outgoing_messages
    const overhead: nat           // dtls_max_seal_overhead
    const prefix: nat             // dtls_seal_prefix_len
    var written: nat              // outgoing_written
    var offset: nat               // outgoing_offset
    ghost var done: seq<seq<Fragment>>   // the fragments of each message written
    ghost var current: seq<Fragment>     // those of the message being written
    ghost var given: seq<Packet>         // what the transport has accepted

    constructor (messages: seq<Outgoing>, overhead: nat, prefix: nat)
      requires prefix <= overhead && Numbered(messages) && forall m :: m in messages ==> Encodable(m)
      ensures Valid() && written == 0 && offset == 0 && given == []
      ensures this.messages == messages && this.overhead == overhead && this.prefix == prefix
    {
      this.messages, this.overhead, this.prefix := messages, overhead, prefix;
      written, offset, done, current, given := 0, 0, [], [], [];
    }

    /** The fragments cut so far tile the messages, up to the current offset. */
    ghost predicate Cut()
      reads `written, `offset, `done, `current
      ensures Cut() ==> written <= |messages|
    {
      && written <= |messages| && |done| == written && prefix <= overhead
      && (forall m :: m in messages ==> Encodable(m))
      && (forall i :: 0 <= i < written ==> TilesWhole(done[i], messages[i]))
      && (if written == |messages| then offset == 0 && current == []
          else Tiles(current, messages[written], offset) && (offset == 0 || offset < LengthOf(messages[written])))
    }

    /** The fragments in the order in which they were cut. */
    ghost function Fragments(): seq<Fragment>
      reads `done, `current
    {
      Joined(done) + current
    }

    /** The transport has been given exactly these. */
    ghost predicate Valid()
      reads this
    {
      Cut() && Numbered(messages) && FragmentsOf(given) == Fragments()
    }

    /** The smallest room in which the message makes progress. */
    function Needed(m: Outgoing): nat {
      if m.ChangeCipherSpec? then 1 + overhead
      else if HEADER_LENGTH + 1 + overhead < prefix then prefix else HEADER_LENGTH + 1 + overhead
    }

    /** seal_next_message, into maxOut bytes; sealing adds at most the maximum overhead. On success the message is the
        next one's turn. */
    method SealNextMessage(maxOut: nat) returns (r: Seal, record: Record)
      requires Cut() && written < |messages|
      modifies `offset, `current
      ensures r == NoProgress <==> maxOut < Needed(messages[written])
      ensures r == NoProgress ==> offset == old(offset) && current == old(current)
      ensures r == Partial ==>
        old(offset) < offset < LengthOf(messages[written]) && Tiles(current, messages[written], offset)
      ensures r == Success ==> offset == 0 && TilesWhole(current, messages[written])
      ensures r != NoProgress ==>
        |record.payload| <= record.length <= |record.payload| + overhead && 0 < record.length <= maxOut
      ensures r != NoProgress && messages[written].ChangeCipherSpec? ==>
        record.payload == [1] && !record.handshake && current == old(current)
      ensures r != NoProgress && messages[written].Handshake? ==>
        var f := NextFragment(messages[written], old(offset), maxOut - HEADER_LENGTH - overhead);
        f.Fits() && record.handshake && record.payload == EncodeFragment(f) && current == old(current) + [f]
    {
      hide Tiles, TilesWhole, U16, U24;
      CcsIsNothing(current, messages[written], offset);
      var m := messages[written];
      record := Record(false, [], 0);
      if m.ChangeCipherSpec? {
        if maxOut < 1 + overhead {
          return NoProgress, record;
        }
        var sealing: nat :| sealing <= overhead;
        return Success, Record(false, [1], 1 + sealing);
      }
      if maxOut < HEADER_LENGTH + 1 + overhead || maxOut < prefix {
        return NoProgress, record;
      }
      assert Encodable(m);
      var left := |m.message.body| - offset;
      var todo := left;
      if todo > maxOut - HEADER_LENGTH - overhead {
        todo := maxOut - HEADER_LENGTH - overhead;
      }
      var body := m.message.body[offset..offset + todo];
      var frag := Fragment(m.message.msgType, |m.message.body|, m.seqNum, offset, body);
      NextTile(current, m, offset, todo);
      current := current + [frag];
      var sealing: nat :| sealing <= overhead;
      record := Record(true, EncodeFragment(frag), HEADER_LENGTH + todo + sealing);
      if todo == left {
        offset := 0;
        r := Success;
      } else {
        offset := offset + todo;
        r := Partial;
      }
    }

    /** One turn of the loop of seal_next_packet: the next record joins the packet. */
    method PackNext(room: nat, packet: Packet) returns (r: Seal, packet': Packet, ghost more: seq<Fragment>)
      requires Cut() && written < |messages|
      modifies `written, `offset, `done, `current
      ensures Cut() && (r == NoProgress <==> room < Needed(messages[old(written)]))
      ensures r == NoProgress ==> packet' == packet && written == old(written) && offset == old(offset)
      ensures r == Partial ==> written == old(written) && old(offset) < offset
      ensures r == Success ==> written == old(written) + 1
      ensures r != NoProgress ==> packet' != [] && WireLength(packet') <= WireLength(packet) + room
      ensures Parses(packet) ==> Parses(packet')
      ensures FragmentsIn(packet') == FragmentsIn(packet) + more && Fragments() == old(Fragments()) + more
    {
      hide Tiles, TilesWhole, Joined, WireLength, FragmentsIn, EncodeFragment, ParseRecord, NextFragment, Encodable;
      var record;
      more := [];
      r, record := SealNextMessage(room);
      packet' := packet;
      if r == NoProgress { return; }
      var m := messages[written];
      more := if m.Handshake? then [NextFragment(m, old(offset), room - HEADER_LENGTH - overhead)] else [];
      if m.Handshake? { OneFragment(more[0]); }
      OneMoreRecord(packet, record);
      packet' := packet + [record];
      if r == Success {
        OneMoreDone(done, current);
        NothingCut();
        done, current := done + [current], [];
        written := written + 1;
      }
    }

    /** seal_next_packet: as much of the flight as fits. It fails only if nothing does. */
    method SealNextPacket(maxOut: nat) returns (ok: bool, packet: Packet)
      requires Cut() && written < |messages|
      modifies `written, `offset, `done, `current
      ensures Cut() && (ok <==> maxOut >= Needed(messages[old(written)]))
      ensures ok ==> packet != [] && (old(written) < written || (old(written) == written && old(offset) < offset))
      ensures !ok ==> packet == [] && written == old(written) && offset == old(offset)
      ensures WireLength(packet) <= maxOut && Fragments() == old(Fragments()) + FragmentsIn(packet) && Parses(packet)
    {
      hide Sender.Cut, Sender.Fragments, WireLength, FragmentsIn;
      packet := [];
      NoRecords();
      var full := false;
      while written < |messages| && !full
        invariant Cut() && WireLength(packet) <= maxOut && old(written) <= written && Parses(packet)
        invariant packet != [] ==> maxOut >= Needed(messages[old(written)])
        invariant packet == [] ==> written == old(written) && offset == old(offset)
        invariant packet != [] ==> old(written) < written || old(offset) < offset
        invariant packet == [] && full ==> maxOut < Needed(messages[written])
        invariant Fragments() == old(Fragments()) + FragmentsIn(packet)
        decreases |messages| - written, !full
      {
        ghost var before := Fragments();
        ghost var packed := FragmentsIn(packet);
        var r;
        ghost var more;
        r, packet, more := PackNext(maxOut - WireLength(packet), packet);
        Reassociate(old(Fragments()), packed, more);
        full := r != Success;
      }
      ok := packet != [];
    }

    /** send_flight: packet after packet, of which the transport accepts so many; a packet it refuses is built again the
        next time. */
    method SendFlight(mtu: nat, accepts: nat) returns (r: FlightResult, packets: seq<Packet>)
      requires Valid()
      modifies this
      ensures Valid() && given == old(given) + packets
        && forall p :: p in packets ==> p != [] && WireLength(p) <= mtu && Parses(p)
      ensures r == Sent ==> AllTiled(messages, FragmentsOf(given))
      ensures r == MtuTooSmall ==> written < |messages| && mtu < Needed(messages[written])
      ensures r == Retry ==> written < |messages| && |packets| == accepts
      ensures (forall m :: m in messages ==> mtu >= Needed(m)) ==> r != MtuTooSmall
    {
      hide Sender.Cut, Sender.Fragments, WireLength, FragmentsOf, FragmentsIn, AllTiled, Parses;
      packets := [];
      while written < |messages|
        invariant Valid() && given == old(given) + packets && |packets| <= accepts
        invariant forall p :: p in packets ==> p != [] && WireLength(p) <= mtu && Parses(p)
        decreases accepts - |packets|
      {
        var oldWritten, oldOffset := written, offset;
        ghost var oldDone, oldCurrent := done, current;
        var ok, packet := SealNextPacket(mtu);
        if !ok {
          NoRecords();
          assert messages[written] in messages;
          return MtuTooSmall, packets;
        }
        if |packets| == accepts {
          written, offset, done, current := oldWritten, oldOffset, oldDone, oldCurrent;
          return Retry, packets;
        }
        OneMorePacket(given, packet);
        given, packets := given + [packet], packets + [packet];
      }
      AllSent();
      r := Sent;
    }

    lemma AllSent()
      requires Valid() && written == |messages|
      ensures AllTiled(messages, FragmentsOf(given))
    {
      forall m | m in messages && m.Handshake? ensures TilesWhole(Only(FragmentsOf(given), m.seqNum), m) {
        var i :| 0 <= i < |messages| && messages[i] == m;
        DoneTile(done, messages, i);
        assert Fragments() == Joined(done);
      }
      JoinedAre(done, messages);
      assert Fragments() == Joined(done);
    }
  }

  /** The fragments are those of the handshake messages, and of each they tile it. */
  ghost predicate AllTiled(messages: seq<Outgoing>, fs: seq<Fragment>) {
    && (forall m :: m in messages && m.Handshake? ==> TilesWhole(Only(fs, m.seqNum), m))
    && (forall f :: f in fs ==> exists m :: m in messages && m.Handshake? && m.seqNum == f.seqNum)
  }

  /** Every handshake record parses into fragments and nothing else. */
  ghost predicate Parses(packet: Packet) {
    forall record :: record in packet && record.handshake ==> ParseRecord(record.payload).1
  }

  lemma {:induction false} JoinedAre(done: seq<seq<Fragment>>, messages: seq<Outgoing>)
    requires |done| <= |messages| && forall k :: 0 <= k < |done| ==> TilesWhole(done[k], messages[k])
    ensures forall f :: f in Joined(done) ==> exists m :: m in messages && m.Handshake? && m.seqNum == f.seqNum
  {
    if done != [] {
      var front, last, m := done[..|done| - 1], done[|done| - 1], messages[|done| - 1];
      JoinedAre(front, messages);
      WholeIsOf(last, m);
      forall f | f in Joined(done) ensures exists m :: m in messages && m.Handshake? && m.seqNum == f.seqNum {
        assert f in Joined(front) || (f in last && m in messages);
      }
    }
  }

  lemma NothingCut()
    ensures forall m :: Tiles([], m, 0)
  {
  }

  lemma NoRecords()
    ensures WireLength([]) == 0 && FragmentsIn([]) == []
  {
  }

  lemma Reassociate(a: seq<Fragment>, b: seq<Fragment>, c: seq<Fragment>)
    ensures a + b + c == a + (b + c)
  {
  }

  lemma OneFragment(f: Fragment)
    requires f.Fits()
    ensures ParseRecord(EncodeFragment(f)) == ([f], true)
  {
    RecordRoundTrip([f]);
    assert EncodeRecord([f][1..]) == [];
    assert EncodeFragment(f) + [] == EncodeFragment(f);
  }
}
