/** A flight from sender to receiver: whatever the order in which its records arrive, and however often, the receiver
    takes exactly the messages that were sent. */
module DtlsExchange {
  import opened Wrappers
  import opened Keys
  import opened DtlsWire
  import opened DtlsReceive
  import opened DtlsSend
  import opened DtlsDelivery

  /** The payloads of the handshake records. */
  ghost predicate Payload(packets: seq<Packet>, bytes: seq<byte>) {
    exists p, record :: p in packets && record in p && record.handshake && record.payload == bytes
  }

  /** What arrives is what was sent: nothing is lost for good, and nothing is made up. */
  ghost predicate Carries(packets: seq<Packet>, arrived: seq<seq<byte>>) {
    forall bytes :: bytes in arrived <==> Payload(packets, bytes)
  }

  lemma {:induction false} InAll(records: seq<seq<byte>>, f: Fragment)
    ensures f in All(records) <==> exists record :: record in records && f in ParseRecord(record).0
  {
    if records != [] {
      var front, last := records[..|records| - 1], records[|records| - 1];
      hide ParseRecord;
      InAll(front, f);
      assert last in records && forall record :: record in records <==> record in front || record == last;
    }
  }

  lemma {:induction false} InPacket(packet: Packet, f: Fragment)
    ensures f in FragmentsIn(packet) <==>
      exists record :: record in packet && record.handshake && f in ParseRecord(record.payload).0
  {
    if packet != [] {
      var front, last := packet[..|packet| - 1], packet[|packet| - 1];
      hide ParseRecord;
      InPacket(front, f);
      assert forall record :: record in packet <==> record in front || record == last;
    }
  }

  lemma {:induction false} InPackets(packets: seq<Packet>, f: Fragment)
    ensures f in FragmentsOf(packets) <==> exists p :: p in packets && f in FragmentsIn(p)
  {
    if packets != [] {
      var front, last := packets[..|packets| - 1], packets[|packets| - 1];
      hide FragmentsIn;
      InPackets(front, f);
      assert last in packets && forall p :: p in packets <==> p in front || p == last;
    }
  }

  /** The fragments that arrive are the fragments that were sent. */
  lemma SameFragments(packets: seq<Packet>, arrived: seq<seq<byte>>, f: Fragment)
    requires Carries(packets, arrived)
    ensures f in All(arrived) <==> f in FragmentsOf(packets)
  {
    InAll(arrived, f);
    InPackets(packets, f);
    forall p | p in packets
      ensures f in FragmentsIn(p) <==>
        exists record :: record in p && record.handshake && f in ParseRecord(record.payload).0
    {
      InPacket(p, f);
    }
    if f in All(arrived) {
      var bytes :| bytes in arrived && f in ParseRecord(bytes).0;
      var p, record :| p in packets && record in p && record.handshake && record.payload == bytes;
      assert f in FragmentsIn(p);
    }
    if f in FragmentsOf(packets) {
      var p :| p in packets && f in FragmentsIn(p);
      var record :| record in p && record.handshake && f in ParseRecord(record.payload).0;
      assert Payload(packets, record.payload);
    }
  }

  lemma {:induction false} OnlyAre(fs: seq<Fragment>, n: nat)
    ensures forall f :: f in Only(fs, n) <==> f in fs && f.seqNum == n
  {
    if fs != [] {
      OnlyAre(fs[..|fs| - 1], n);
      assert forall f :: f in fs <==> f in fs[..|fs| - 1] || f == fs[|fs| - 1];
    }
  }

  /** The handshake messages of a flight, in order. */
  function Messages(flight: seq<Outgoing>): seq<Message> {
    if flight == [] then []
    else
      var last := flight[|flight| - 1];
      Messages(flight[..|flight| - 1]) + if last.Handshake? then [last.message] else []
  }

  /** Handshake messages are numbered one after the other from `first`. */
  predicate InSequence(flight: seq<Outgoing>, first: nat) {
    flight != [] ==>
      var last := flight[|flight| - 1];
      InSequence(flight[..|flight| - 1], first)
        && (last.Handshake? ==> last.seqNum == first + |Messages(flight[..|flight| - 1])|)
  }

  /** The message with number n of a flight numbered from `first`, for the numbers it has. */
  function Sent(flight: seq<Outgoing>, first: nat, n: nat): Message {
    if first <= n < first + |Messages(flight)| then Messages(flight)[n - first] else Message(0, [])
  }

  ghost function Original(flight: seq<Outgoing>, first: nat): nat -> Message { (n: nat) => Sent(flight, first, n) }

  lemma {:induction false} SentIs(flight: seq<Outgoing>, first: nat, m: Outgoing)
    requires InSequence(flight, first) && m in flight && m.Handshake?
    ensures first <= m.seqNum < first + |Messages(flight)| && Sent(flight, first, m.seqNum) == m.message
  {
    var front, last := flight[..|flight| - 1], flight[|flight| - 1];
    if m in front { SentIs(front, first, m); }
  }

  lemma {:induction false} SenderOf(flight: seq<Outgoing>, first: nat, n: nat) returns (m: Outgoing)
    requires InSequence(flight, first) && first <= n < first + |Messages(flight)|
    ensures m in flight && m.Handshake? && m.seqNum == n
  {
    var front, last := flight[..|flight| - 1], flight[|flight| - 1];
    if n < first + |Messages(front)| { m := SenderOf(front, first, n); } else { m := last; }
  }

  lemma {:induction false} SequenceNumbered(flight: seq<Outgoing>, first: nat)
    requires InSequence(flight, first)
    ensures Numbered(flight)
  {
    if flight != [] {
      var front, last := flight[..|flight| - 1], flight[|flight| - 1];
      SequenceNumbered(front, first);
      forall i | 0 <= i < |front| && flight[i].Handshake? && last.Handshake? ensures flight[i].seqNum != last.seqNum {
        assert front[i] in front;
        SentIs(front, first, front[i]);
      }
    }
  }

  /** What the flight's fragments parse to. */
  lemma FlightFits(s: Sender, first: nat, packets: seq<Packet>, arrived: seq<seq<byte>>, limit: nat)
    requires s.prefix <= s.overhead
    requires InSequence(s.messages, first) && |Messages(s.messages)| <= MAX_FLIGHT && Carries(packets, arrived)
    requires AllTiled(s.messages, FragmentsOf(packets)) && forall p :: p in packets ==> Parses(p)
    requires forall m :: m in s.messages ==> LengthOf(m) <= limit
    ensures forall bytes :: bytes in arrived ==>
      Genuine(bytes, Original(s.messages, first)) && Orderly(bytes, first, limit)
    ensures forall n: nat ::
      Arrived(All(arrived), n, Sent(s.messages, first, n)) <==> first <= n < first + |Messages(s.messages)|
  {
    hide TilesWhole, PartOf, AllTiled, InSequence, Carries, ParseRecord, Arrived;
    var fs, flight := FragmentsOf(packets), s.messages;
    forall f | f in fs
      ensures PartOf(f, Sent(flight, first, f.seqNum)) && first <= f.seqNum < first + |Messages(flight)|
        && f.msgLen <= limit
    {
      FragmentIsOf(flight, first, fs, f, limit);
    }
    forall bytes | bytes in arrived
      ensures Genuine(bytes, Original(flight, first)) && Orderly(bytes, first, limit)
    {
      PayloadParses(packets, arrived, bytes);
      forall f | f in ParseRecord(bytes).0 ensures f in fs {
        InAll(arrived, f);
        SameFragments(packets, arrived, f);
      }
    }
    forall n: nat
      ensures Arrived(All(arrived), n, Sent(flight, first, n)) <==> first <= n < first + |Messages(flight)|
    {
      ArrivedIff(flight, first, packets, arrived, n);
    }
  }

  lemma PayloadParses(packets: seq<Packet>, arrived: seq<seq<byte>>, bytes: seq<byte>)
    requires Carries(packets, arrived) && bytes in arrived && forall p :: p in packets ==> Parses(p)
    ensures ParseRecord(bytes).1
  {
    assert Payload(packets, bytes);
  }

  /** A fragment sent is part of the message with its number. */
  lemma FragmentIsOf(flight: seq<Outgoing>, first: nat, fs: seq<Fragment>, f: Fragment, limit: nat)
    requires InSequence(flight, first) && AllTiled(flight, fs) && f in fs
      && forall m :: m in flight ==> LengthOf(m) <= limit
    ensures PartOf(f, Sent(flight, first, f.seqNum)) && first <= f.seqNum < first + |Messages(flight)|
      && f.msgLen <= limit
  {
    hide Sent, Messages, InSequence;
    var m :| m in flight && m.Handshake? && m.seqNum == f.seqNum;
    SentIs(flight, first, m);
    OnlyAre(fs, m.seqNum);
    if m.message.body != [] { TilesCover(Only(fs, m.seqNum), m, |m.message.body|); }
  }

  lemma ArrivedIff(flight: seq<Outgoing>, first: nat, packets: seq<Packet>, arrived: seq<seq<byte>>, n: nat)
    requires InSequence(flight, first) && AllTiled(flight, FragmentsOf(packets)) && Carries(packets, arrived)
    requires forall f :: f in FragmentsOf(packets) ==>
      PartOf(f, Sent(flight, first, f.seqNum)) && first <= f.seqNum < first + |Messages(flight)|
    ensures Arrived(All(arrived), n, Sent(flight, first, n)) <==> first <= n < first + |Messages(flight)|
  {
    hide PartOf, TilesWhole, InSequence, Carries, Covered;
    var fs := FragmentsOf(packets);
    forall f ensures f in All(arrived) <==> f in fs { SameFragments(packets, arrived, f); }
    if first <= n < first + |Messages(flight)| {
      var m := SenderOf(flight, first, n);
      SentIs(flight, first, m);
      OnlyAre(fs, n);
      TilesArrive(Only(fs, n), All(arrived), n, m.message);
    }
  }

  lemma SlotShows(slots: Slots, readSeq: nat, i: nat)
    requires SlotsOk(slots, readSeq) && i < MAX_FLIGHT && slots[i].Some?
    ensures slots[i].value.seqNum >= readSeq && PresentIn(slots, readSeq, slots[i].value.seqNum)
  {
  }

  lemma NothingHeld(r: Receiver, orig: nat -> Message)
    requires Holds(r, [])
    ensures r.Faithful(orig)
  {
    hide PresentIn, SlotsOk, Agrees;
    var slots := r.ring[..];
    NothingTaken();
    forall n: nat | n >= r.readSeq ensures !PresentIn(slots, r.readSeq, n) { assert !r.Present(n); }
    forall i | 0 <= i < MAX_FLIGHT && slots[i].Some? ensures false { SlotShows(slots, r.readSeq, i); }
  }

  /** The messages up to the first that has not arrived are all of the flight. */
  lemma AllOut(flight: seq<Outgoing>, first: nat, fs: seq<Fragment>, out: seq<Message>)
    requires forall n: nat :: Arrived(fs, n, Sent(flight, first, n)) <==> first <= n < first + |Messages(flight)|
    requires AllArrived(fs, first, first + |out|, Original(flight, first))
    requires !Arrived(fs, first + |out|, Sent(flight, first, first + |out|))
    requires forall k :: 0 <= k < |out| ==> out[k] == Sent(flight, first, first + k)
    ensures out == Messages(flight)
  {
    hide Arrived, Messages;
    if |out| > 0 {
      var last := first + |out| - 1;
      assert Arrived(fs, last, Original(flight, first)(last));
    }
  }

  /** A sender writes a flight, the network carries it, and a receiver that has nothing yet takes all of it. */
  method Exchange(s: Sender, r: Receiver, mtu: nat, accepts: nat, network: seq<Packet> -> seq<seq<byte>>)
    returns (sent: bool, ok: bool, out: seq<Message>)
    requires s.Valid() && s.given == [] && Holds(r, []) && r.readEpoch != 1
    requires InSequence(s.messages, r.readSeq) && |Messages(s.messages)| <= MAX_FLIGHT
    requires forall m :: m in s.messages ==> LengthOf(m) <= r.maxMessageLen
    requires forall packets :: Carries(packets, network(packets))
    modifies s, r`readSeq, r.ring
    ensures sent ==> ok && out == Messages(s.messages)
  {
    hide Messages, InSequence, Carries, AllTiled, Holds, Genuine, Orderly, Arrived, AllArrived, Sent, All;
    ok, out := false, [];
    ghost var first := r.readSeq;
    var result, packets := s.SendFlight(mtu, accepts);
    sent := result == FlightResult.Sent;
    if !sent { return; }
    assert [] + packets == packets;
    ghost var orig := Original(s.messages, first);
    FlightFits(s, first, packets, network(packets), r.maxMessageLen);
    NothingHeld(r, orig);
    ok, out := Deliver(r, network(packets), orig);
    AllOut(s.messages, first, All(network(packets)), out);
  }
}
