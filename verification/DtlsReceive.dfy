/** Receiving DTLS handshake messages: fragments in any order, with duplicates and overlaps, reassembled in a ring
    of slots (section 4.2.3 of RFC 6347). */
module DtlsReceive {
  import opened Wrappers
  import opened Keys
  import opened DtlsBitmap
  import opened DtlsWire

  const MAX_FLIGHT: nat := 7 // SSL_MAX_HANDSHAKE_FLIGHT

  ghost function Range(start: nat, end: nat): (r: set<nat>)
    ensures forall i :: i in r <==> start <= i < end
    decreases end - start
  {
    if start >= end then {} else {start} + Range(start + 1, end)
  }

  /** hm_fragment: a message being reassembled, owned by its slot. The bitmap goes away when it is complete. */
  datatype HmFragment = HmFragment(msgType: byte, seqNum: nat, data: seq<byte>, reassembly: Option<seq<bv8>>) {
    /** The bytes received so far. */
    ghost function Received(): set<nat> {
      if reassembly.None? then Range(0, |data|) else set i | i in Range(0, |data|) && Marked(reassembly.value, i)
    }

    /** The bitmap describes this message, and is there exactly while a byte is missing. */
    ghost predicate Ok() {
      reassembly.Some? ==>
        BitmapFor(reassembly.value, |data|) && exists i: nat :: i < |data| && !Marked(reassembly.value, i)
    }
  }

  /** dtls1_hm_fragment_new */
  method NewFragment(f: Fragment) returns (frag: HmFragment)
    ensures frag.Ok() && frag.Received() == {} && frag.msgType == f.msgType && frag.seqNum == f.seqNum
      && |frag.data| == f.msgLen
    ensures f.msgLen > 0 ==> frag.reassembly.Some?
  {
    var bitmap: seq<bv8> := seq((f.msgLen + 7) / 8, _ => 0);
    frag := HmFragment(f.msgType, f.seqNum, seq(f.msgLen, _ => 0), if f.msgLen > 0 then Some(bitmap) else None);
    forall i: nat ensures !Marked(bitmap, i) { }
    assert f.msgLen > 0 ==> !Marked(bitmap, 0);
  }

  /** Copies a body in and marks its bytes; the bitmap goes away if none is missing. */
  method Absorb(frag: HmFragment, off: nat, body: seq<byte>) returns (frag': HmFragment)
    requires frag.Ok() && frag.reassembly.Some? && off + |body| <= |frag.data|
    ensures frag'.Ok() && frag' == frag.(data := frag'.data, reassembly := frag'.reassembly)
      && |frag'.data| == |frag.data|
    ensures frag'.Received() == frag.Received() + Range(off, off + |body|)
    ensures forall i :: 0 <= i < |frag.data| ==>
      frag'.data[i] == if off <= i < off + |body| then body[i - off] else frag.data[i]
  {
    hide Marked;
    var data := frag.data[..off] + body + frag.data[off + |body|..];
    if |body| == 0 {
      assert data == frag.data;
      return frag;
    }
    var bits := frag.reassembly.value;
    var bitmap := new bv8[|bits|](i requires 0 <= i < |bits| => bits[i]);
    assert bitmap[..] == bits;
    MarkRange(bitmap, |data|, off, off + |body|);
    var complete := AllMarked(bitmap, |data|);
    frag' := frag.(data := data, reassembly := if complete then None else Some(bitmap[..]));
    AbsorbedBytes(frag, frag', bitmap[..], off, |body|);
  }

  lemma AbsorbedBytes(frag: HmFragment, frag': HmFragment, bitmap: seq<bv8>, off: nat, length: nat)
    requires frag.reassembly.Some? && |frag'.data| == |frag.data| && off + length <= |frag.data|
    requires forall i: nat :: Marked(bitmap, i) <==> Marked(frag.reassembly.value, i) || off <= i < off + length
    requires frag'.reassembly == Some(bitmap) ||
             (frag'.reassembly == None && forall i: nat :: i < |frag.data| ==> Marked(bitmap, i))
    ensures frag'.Received() == frag.Received() + Range(off, off + length)
  {
    hide Marked;
    forall i: nat ensures i in frag'.Received() <==> i in frag.Received() + Range(off, off + length) {
      assert Marked(bitmap, i) <==> Marked(frag.reassembly.value, i) || off <= i < off + length;
    }
  }

  /** The bytes of message n that the fragments carry. */
  ghost function Covered(fs: seq<Fragment>, n: nat): set<nat> {
    if fs == [] then {}
    else
      var f := fs[|fs| - 1];
      Covered(fs[..|fs| - 1], n) + if f.seqNum == n then Range(f.off, f.off + |f.body|) else {}
  }

  /** Some fragment is of message n. */
  ghost predicate Touched(fs: seq<Fragment>, n: nat) { exists f :: f in fs && f.seqNum == n }

  lemma NothingTaken()
    ensures forall n: nat :: Covered([], n) == {} && !Touched([], n)
  {
  }

  lemma OneMoreTaken(fs: seq<Fragment>, f: Fragment)
    ensures forall n: nat ::
      Covered(fs + [f], n) == Covered(fs, n) + if f.seqNum == n then Range(f.off, f.off + |f.body|) else {}
    ensures forall n: nat :: Touched(fs + [f], n) <==> Touched(fs, n) || f.seqNum == n
  {
    assert (fs + [f])[..|fs|] == fs;
    forall n: nat ensures Touched(fs + [f], n) <==> Touched(fs, n) || f.seqNum == n {
      assert f in fs + [f] && forall g :: g in fs ==> g in fs + [f];
    }
  }

  datatype Outcome = Absorbed | Ignored | Alert

  /** A stored message agrees with message m on the bytes received. */
  ghost predicate Agrees(frag: HmFragment, m: Message) {
    && frag.msgType == m.msgType && |frag.data| == |m.body|
    && forall i :: i in frag.Received() && i < |frag.data| ==> frag.data[i] == m.body[i]
  }

  /** A fragment of message m. */
  ghost predicate PartOf(f: Fragment, m: Message) {
    f.msgType == m.msgType && f.msgLen == |m.body| && f.off + |f.body| <= f.msgLen
      && f.body == m.body[f.off..f.off + |f.body|]
  }

  /** A slot's message stays true to the message it came from. */
  lemma GrownAgrees(frag: HmFragment, grown: HmFragment, f: Fragment, m: Message)
    requires grown == frag.(data := grown.data, reassembly := grown.reassembly)
      && |grown.data| == |frag.data| == f.msgLen
    requires f.off + |f.body| <= f.msgLen && grown.Received() == frag.Received() + Range(f.off, f.off + |f.body|)
    requires forall i :: 0 <= i < |frag.data| ==>
      grown.data[i] == if f.off <= i < f.off + |f.body| then f.body[i - f.off] else frag.data[i]
    ensures Agrees(frag, m) && PartOf(f, m) ==> Agrees(grown, m)
  {
  }

  lemma FreshAgrees(f: Fragment, m: Message)
    ensures forall frag: HmFragment ::
      frag.Received() == {} && frag.msgType == f.msgType && |frag.data| == f.msgLen && PartOf(f, m) ==> Agrees(frag, m)
  {
  }

  /** The message of a slot, old or just created, agrees with the one the fragment is part of. */
  lemma SlotAgrees(slots: Slots, f: Fragment, frag: HmFragment, orig: nat -> Message)
    requires |slots| == MAX_FLIGHT && frag.seqNum == f.seqNum && frag.msgType == f.msgType && |frag.data| == f.msgLen
    requires
      if slots[f.seqNum % MAX_FLIGHT].Some? then slots[f.seqNum % MAX_FLIGHT] == Some(frag)
      else frag.Received() == {}
    ensures FaithfulIn(slots, orig) && PartOf(f, orig(f.seqNum)) ==> Agrees(frag, orig(f.seqNum))
    ensures frag.Received() == Before(slots, f.seqNum)
  {
    FreshAgrees(f, orig(f.seqNum));
  }

  lemma NothingNew(frag: HmFragment, f: Fragment)
    requires frag.reassembly.None? && f.off + |f.body| <= |frag.data|
    ensures frag.Received() == frag.Received() + Range(f.off, f.off + |f.body|)
  {
  }

  // ----- the ring, as a list of slots -----

  type Slots = seq<Option<HmFragment>>

  predicate Window(readSeq: nat, n: nat) { readSeq <= n < readSeq + MAX_FLIGHT }

  /** Each slot holds a message inside the receive window whose number is congruent to the slot's index. */
  ghost predicate SlotsOk(slots: Slots, readSeq: nat) {
    && |slots| == MAX_FLIGHT
    && forall i :: 0 <= i < MAX_FLIGHT && slots[i].Some? ==>
         slots[i].value.Ok() && Window(readSeq, slots[i].value.seqNum) && slots[i].value.seqNum % MAX_FLIGHT == i
  }

  ghost function ReceivedIn(slots: Slots, readSeq: nat, n: nat): set<nat>
    requires |slots| == MAX_FLIGHT
  {
    if Window(readSeq, n) && slots[n % MAX_FLIGHT].Some? then slots[n % MAX_FLIGHT].value.Received() else {}
  }

  ghost predicate PresentIn(slots: Slots, readSeq: nat, n: nat)
    requires |slots| == MAX_FLIGHT
  {
    Window(readSeq, n) && slots[n % MAX_FLIGHT].Some?
  }

  ghost predicate FaithfulIn(slots: Slots, orig: nat -> Message) {
    forall i :: 0 <= i < |slots| && slots[i].Some? ==> Agrees(slots[i].value, orig(slots[i].value.seqNum))
  }

  /** The type and length that the stored part of message n was announced with. */
  datatype Header = Header(msgType: byte, length: nat)

  /** The headers of the messages inside the window of which some fragment has arrived. */
  ghost function HeadersIn(slots: Slots, readSeq: nat): (h: map<nat, Header>)
    requires |slots| == MAX_FLIGHT
    ensures forall n: nat :: n in h <==> PresentIn(slots, readSeq, n)
  {
    map n: nat | readSeq <= n < readSeq + MAX_FLIGHT && slots[n % MAX_FLIGHT].Some? ::
      Header(slots[n % MAX_FLIGHT].value.msgType, |slots[n % MAX_FLIGHT].value.data|)
  }

  /** Where a receiver stands: its window, its epoch, its limit, and the headers it holds. */
  datatype Standing = Standing(readSeq: nat, readEpoch: nat, maxMessageLen: nat, headers: map<nat, Header>)

  /** The range and epoch checks let the fragment through. */
  predicate InBounds(st: Standing, f: Fragment) {
    && f.off <= f.msgLen && f.off + |f.body| <= f.msgLen && f.msgLen <= st.maxMessageLen
    && (st.readEpoch == 1 ==> f.seqNum == st.readSeq)
  }

  predicate OutOfReach(st: Standing, f: Fragment) { f.seqNum < st.readSeq || f.seqNum > st.readSeq + MAX_FLIGHT }

  /** The fragment is of a message in the window, and agrees with the header held of it, if there is one. */
  predicate Compatible(st: Standing, f: Fragment) {
    Window(st.readSeq, f.seqNum) && (f.seqNum in st.headers ==> st.headers[f.seqNum] == Header(f.msgType, f.msgLen))
  }

  function Taking(st: Standing, f: Fragment): Standing {
    st.(headers := st.headers[f.seqNum := Header(f.msgType, f.msgLen)])
  }

  /** The fragments that a receiver takes of a record: in order, up to the first that is not acceptable; and whether
      there
      is none such. Those out of reach are passed over. */
  function Front(st: Standing, fs: seq<Fragment>): (seq<Fragment>, bool)
    decreases |fs|
  {
    if fs == [] then ([], true)
    else if !InBounds(st, fs[0]) then ([], false)
    else if OutOfReach(st, fs[0]) then Front(st, fs[1..])
    else if !Compatible(st, fs[0]) then ([], false)
    else
      var rest := Front(Taking(st, fs[0]), fs[1..]);
      ([fs[0]] + rest.0, rest.1)
  }

  lemma FrontStep(st: Standing, f: Fragment, rest: seq<Fragment>)
    ensures InBounds(st, f) && OutOfReach(st, f) ==> Front(st, [f] + rest) == Front(st, rest)
    ensures InBounds(st, f) && Compatible(st, f) ==>
      Front(st, [f] + rest) == ([f] + Front(Taking(st, f), rest).0, Front(Taking(st, f), rest).1)
    ensures !(InBounds(st, f) && (OutOfReach(st, f) || Compatible(st, f))) ==> Front(st, [f] + rest) == ([], false)
  {
    assert ([f] + rest)[1..] == rest;
  }

  lemma SameSlot(readSeq: nat, a: nat, b: nat)
    requires Window(readSeq, a) && Window(readSeq, b) && a % MAX_FLIGHT == b % MAX_FLIGHT
    ensures a == b
  {
  }

  /** What a slot held before a fragment of message n. */
  ghost function Before(slots: Slots, n: nat): set<nat>
    requires |slots| == MAX_FLIGHT
  {
    if slots[n % MAX_FLIGHT].Some? then slots[n % MAX_FLIGHT].value.Received() else {}
  }

  /** One slot takes a fragment's bytes in. */
  lemma SlotGrown(slots: Slots, readSeq: nat, f: Fragment, grown: HmFragment, orig: nat -> Message)
    requires SlotsOk(slots, readSeq) && Window(readSeq, f.seqNum)
    requires grown.Ok() && grown.seqNum == f.seqNum
      && grown.Received() == Before(slots, f.seqNum) + Range(f.off, f.off + |f.body|)
    requires FaithfulIn(slots, orig) && PartOf(f, orig(f.seqNum)) ==> Agrees(grown, orig(f.seqNum))
    ensures var slots' := slots[f.seqNum % MAX_FLIGHT := Some(grown)];
            && SlotsOk(slots', readSeq)
            && (forall n: nat ::
                 ReceivedIn(slots', readSeq, n) == ReceivedIn(slots, readSeq, n) + if n ==
                   f.seqNum then Range(f.off, f.off + |f.body|) else {})
            && (forall n: nat :: PresentIn(slots', readSeq, n) <==> PresentIn(slots, readSeq, n) || n == f.seqNum)
            && (grown.msgType == f.msgType && |grown.data| == f.msgLen ==>
                HeadersIn(slots', readSeq) == HeadersIn(slots, readSeq)[f.seqNum := Header(f.msgType, f.msgLen)])
            && (FaithfulIn(slots, orig) && PartOf(f, orig(f.seqNum)) ==> FaithfulIn(slots', orig))
  {
    hide HmFragment.Received, HmFragment.Ok, PartOf, Agrees;
    var slots' := slots[f.seqNum % MAX_FLIGHT := Some(grown)];
    forall n: nat
      ensures ReceivedIn(slots', readSeq, n) == ReceivedIn(slots, readSeq, n) + if n ==
        f.seqNum then Range(f.off, f.off + |f.body|) else {}
    {
      if Window(readSeq, n) && n % MAX_FLIGHT == f.seqNum % MAX_FLIGHT { SameSlot(readSeq, n, f.seqNum); }
    }
    HeadersGrown(slots, readSeq, f, grown);
    forall n: nat ensures PresentIn(slots', readSeq, n) <==> PresentIn(slots, readSeq, n) || n == f.seqNum {
      if Window(readSeq, n) && n % MAX_FLIGHT == f.seqNum % MAX_FLIGHT { SameSlot(readSeq, n, f.seqNum); }
    }
  }

  lemma HeadersGrown(slots: Slots, readSeq: nat, f: Fragment, grown: HmFragment)
    requires |slots| == MAX_FLIGHT && Window(readSeq, f.seqNum)
    ensures var slots' := slots[f.seqNum % MAX_FLIGHT := Some(grown)];
            grown.msgType == f.msgType && |grown.data| == f.msgLen ==>
              HeadersIn(slots', readSeq) == HeadersIn(slots, readSeq)[f.seqNum := Header(f.msgType, f.msgLen)]
  {
    var slots' := slots[f.seqNum % MAX_FLIGHT := Some(grown)];
    var h, h' := HeadersIn(slots, readSeq), HeadersIn(slots', readSeq);
    forall n: nat ensures n in h' <==> n in h || n == f.seqNum {
      if Window(readSeq, n) && n % MAX_FLIGHT == f.seqNum % MAX_FLIGHT { SameSlot(readSeq, n, f.seqNum); }
    }
    forall n: nat | n in h && n != f.seqNum ensures n in h' && h'[n] == h[n] {
      if n % MAX_FLIGHT == f.seqNum % MAX_FLIGHT { SameSlot(readSeq, n, f.seqNum); }
    }
  }

  class Receiver {
    const ring: array<Option<HmFragment>>
    const maxMessageLen: nat // ssl_max_handshake_message_len
    var readSeq: nat
    var readEpoch: nat

    constructor (maxMessageLen: nat, readEpoch: nat)
      ensures Valid() && fresh(ring) && readSeq == 0 && this.readEpoch == readEpoch
        && this.maxMessageLen == maxMessageLen
      ensures forall n :: Received(n) == {} && !Present(n)
    {
      ring := new Option<HmFragment>[MAX_FLIGHT](_ => None);
      this.maxMessageLen, this.readSeq, this.readEpoch := maxMessageLen, 0, readEpoch;
    }

    predicate InWindow(n: nat)
      reads `readSeq
    {
      Window(readSeq, n)
    }

    ghost predicate Valid()
      reads `readSeq, ring
      ensures Valid() ==> ring.Length == MAX_FLIGHT
    {
      SlotsOk(ring[..], readSeq)
    }

    /** The bytes of message n received so far. */
    ghost function Received(n: nat): set<nat>
      requires ring.Length == MAX_FLIGHT
      reads `readSeq, ring
    {
      ReceivedIn(ring[..], readSeq, n)
    }

    /** Some fragment of message n has arrived. */
    ghost predicate Present(n: nat)
      requires ring.Length == MAX_FLIGHT
      reads `readSeq, ring
    {
      PresentIn(ring[..], readSeq, n)
    }

    /** What is stored of each message agrees with the messages the peer sent. */
    ghost predicate Faithful(orig: nat -> Message)
      reads ring
    {
      FaithfulIn(ring[..], orig)
    }

    ghost function Stands(): Standing
      requires ring.Length == MAX_FLIGHT
      reads this, ring
    {
      Standing(readSeq, readEpoch, maxMessageLen, HeadersIn(ring[..], readSeq))
    }

    /** dtls1_get_incoming_message: the slot's message, created by its first fragment; None on failure. */
    method GetIncomingMessage(f: Fragment) returns (frag: Option<HmFragment>)
      requires Valid()
      modifies ring
      ensures frag.Some? <==> old(Compatible(Stands(), f))
      ensures frag.None? ==> ring[..] == old(ring[..])
      ensures frag.Some? ==>
                && ring[..] == old(ring[..])[f.seqNum % MAX_FLIGHT := frag] && frag.value.Ok()
                   && frag.value.seqNum == f.seqNum
                && frag.value.msgType == f.msgType && |frag.value.data| == f.msgLen
                && (
                     if old(ring[f.seqNum % MAX_FLIGHT]).Some? then frag == old(ring[f.seqNum % MAX_FLIGHT])
                     else frag.value.Received() == {})
    {
      hide HmFragment.Received, HmFragment.Ok;
      if f.seqNum < readSeq || f.seqNum - readSeq >= MAX_FLIGHT {
        return None;
      }
      var idx := f.seqNum % MAX_FLIGHT;
      frag := ring[idx];
      assert frag == ring[..][idx];
      if frag.Some? {
        SameSlot(readSeq, frag.value.seqNum, f.seqNum);
        if frag.value.msgType != f.msgType || |frag.value.data| != f.msgLen {
          return None;
        }
        return;
      }
      var created := NewFragment(f);
      frag := Some(created);
      ring[idx] := frag;
    }

    /** One turn of the loop of dtls1_open_handshake. */
    method ProcessFragment(f: Fragment, ghost orig: nat -> Message) returns (r: Outcome)
      requires Valid()
      modifies ring
      ensures Valid()
      ensures r == Absorbed <==> old(InBounds(Stands(), f) && Compatible(Stands(), f))
      ensures r == Ignored <==> old(InBounds(Stands(), f) && OutOfReach(Stands(), f))
      ensures f.seqNum == readSeq + MAX_FLIGHT ==> r == Alert // not ignored, unlike those further ahead
      ensures Stands() == if r == Absorbed then Taking(old(Stands()), f) else old(Stands())
      ensures forall n: nat ::
        Received(n) == old(Received(n)) + if r == Absorbed && n == f.seqNum then Range(f.off, f.off + |f.body|) else {}
      ensures old(Faithful(orig)) && (r == Absorbed ==> PartOf(f, orig(f.seqNum))) ==> Faithful(orig)
    {
      hide Valid, Received, Faithful, PartOf, HeadersIn;
      if f.off > f.msgLen || f.off + |f.body| > f.msgLen || f.msgLen > maxMessageLen {
        return Alert;
      }
      if readEpoch == 1 && f.seqNum != readSeq {
        return Alert;
      }
      if f.seqNum < readSeq || f.seqNum > readSeq + MAX_FLIGHT {
        return Ignored; // from the past, or too far in the future
      }
      var ok := StoreFragment(f, orig);
      r := if ok then Absorbed else Alert;
    }

    /** The part of the turn that follows the checks: the fragment's message takes its body in. */
    method StoreFragment(f: Fragment, ghost orig: nat -> Message) returns (ok: bool)
      requires Valid() && f.off + |f.body| <= f.msgLen
      modifies ring
      ensures Valid() && (ok <==> old(Compatible(Stands(), f)))
      ensures Stands() == if ok then Taking(old(Stands()), f) else old(Stands())
      ensures forall n: nat ::
        Received(n) == old(Received(n)) + if ok && n == f.seqNum then Range(f.off, f.off + |f.body|) else {}
      ensures old(Faithful(orig)) && (ok ==> PartOf(f, orig(f.seqNum))) ==> Faithful(orig)
    {
      hide HmFragment.Received, HmFragment.Ok, PartOf, Agrees, SlotsOk, ReceivedIn, PresentIn, FaithfulIn, HeadersIn;
      ghost var slots := ring[..];
      ghost var idx := f.seqNum % MAX_FLIGHT;
      assert ring[idx] == slots[idx];
      var frag := GetIncomingMessage(f);
      if frag.None? {
        return false;
      }
      ok := true;
      SlotAgrees(slots, f, frag.value, orig);
      if frag.value.reassembly.Some? {
        var grown := Absorb(frag.value, f.off, f.body);
        GrownAgrees(frag.value, grown, f, orig(f.seqNum));
        ring[f.seqNum % MAX_FLIGHT] := Some(grown);
        SlotGrown(slots, readSeq, f, grown, orig);
        assert ring[..] == slots[idx := Some(grown)];
      } else {
        NothingNew(frag.value, f);
        SlotGrown(slots, readSeq, f, frag.value, orig);
      }
    }

    /** dtls1_open_handshake on a handshake record: fragment by fragment, up to the first that is malformed or not
        acceptable. What is taken is the front of the record. */
    method OpenHandshake(record: seq<byte>, ghost orig: nat -> Message) returns (ok: bool)
      requires Valid()
      modifies ring
      ensures Valid() && (ok <==> ParseRecord(record).1 && old(Front(Stands(), ParseRecord(record).0)).1)
      ensures var taken := old(Front(Stands(), ParseRecord(record).0)).0;
              && (forall n: nat :: Received(n) == old(Received(n)) + Covered(taken, n))
              && (forall n: nat :: Present(n) <==> old(Present(n)) || Touched(taken, n))
              && (old(Faithful(orig)) && (forall f :: f in taken ==> PartOf(f, orig(f.seqNum))) ==> Faithful(orig))
    {
      hide Valid, Received, Faithful, PartOf, Covered, Touched;
      hide ParseFragment, HeadersIn, InBounds, OutOfReach, Compatible;
      var rest := record;
      ghost var st0, all := Stands(), ParseRecord(record).0;
      ghost var taken: seq<Fragment> := [];
      NothingTaken();
      while rest != []
        invariant Valid() && ParseRecord(record).1 == ParseRecord(rest).1
        invariant Front(st0, all).0 == taken + Front(Stands(), ParseRecord(rest).0).0
        invariant Front(st0, all).1 == Front(Stands(), ParseRecord(rest).0).1
        invariant forall n: nat :: Received(n) == old(Received(n)) + Covered(taken, n)
        invariant forall n: nat :: Present(n) <==> old(Present(n)) || Touched(taken, n)
        invariant old(Faithful(orig)) && (forall f :: f in taken ==> PartOf(f, orig(f.seqNum))) ==> Faithful(orig)
        decreases |rest|
      {
        var parsed := ParseFragment(rest);
        if parsed.None? {
          assert taken + [] == taken;
          return false;
        }
        var f := parsed.value.0;
        FrontStep(Stands(), f, ParseRecord(parsed.value.1).0);
        ghost var st := Stands();
        var r := ProcessFragment(f, orig);
        if r == Alert {
          assert taken + [] == taken;
          return false;
        }
        rest := parsed.value.1;
        if r == Absorbed {
          OneMoreTaken(taken, f);
          assert taken + ([f] + Front(Taking(st, f), ParseRecord(rest).0).0) ==
            taken + [f] + Front(Taking(st, f), ParseRecord(rest).0).0;
          taken := taken + [f];
        }
      }
      assert taken + [] == taken;
      ok := true;
    }

    /** dtls1_get_message: the current message, exactly when every byte of it has arrived; it is what the peer sent. */
    method GetMessage(ghost orig: nat -> Message) returns (m: Option<Message>)
      requires Valid()
      ensures m.Some? <==>
        ring[readSeq % MAX_FLIGHT].Some? && Received(readSeq) == Range(0, |ring[readSeq % MAX_FLIGHT].value.data|)
      ensures m.Some? ==> Present(readSeq) && Received(readSeq) == Range(0, |m.value.body|)
      ensures m.Some? && Faithful(orig) ==> m.value == orig(readSeq)
      ensures Faithful(orig) && Present(readSeq) && Received(readSeq) == Range(0, |orig(readSeq).body|) ==> m.Some?
    {
      var frag := ring[readSeq % MAX_FLIGHT];
      m := None;
      if frag.Some? {
        SameSlot(readSeq, frag.value.seqNum, readSeq);
        CompleteIs(frag.value);
        if frag.value.reassembly.None? {
          m := Some(Message(frag.value.msgType, frag.value.data));
        }
      }
    }

    /** dtls1_next_message: frees the current slot and slides the window. */
    method NextMessage()
      requires Valid()
      modifies this`readSeq, ring
      ensures Valid() && readSeq == old(readSeq) + 1
      ensures forall n: nat :: n > old(readSeq) ==> Received(n) == old(Received(n)) && (Present(n) <==> old(Present(n)))
      ensures readEpoch == old(readEpoch)
      ensures forall orig :: old(Faithful(orig)) ==> Faithful(orig)
    {
      ring[readSeq % MAX_FLIGHT] := None;
      readSeq := readSeq + 1;
      forall i | 0 <= i < MAX_FLIGHT && ring[i].Some? ensures InWindow(ring[i].value.seqNum) { }
    }
  }

  lemma CompleteIs(frag: HmFragment)
    requires frag.Ok()
    ensures frag.reassembly.None? <==> frag.Received() == Range(0, |frag.data|)
  {
    if frag.reassembly.Some? {
      var i: nat :| i < |frag.data| && !Marked(frag.reassembly.value, i);
      assert i in Range(0, |frag.data|) && i !in frag.Received();
    }
  }
}
