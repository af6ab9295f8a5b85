/** A receiver fed records, taking each message as soon as it is complete: what comes out is what the peer sent, in
    order, up to the first message of which a byte has not arrived. */
module DtlsDelivery {
  import opened Wrappers
  import opened Keys
  import opened DtlsWire
  import opened DtlsReceive
  import opened DtlsSend

  /** The records carry fragments of the peer's messages. */
  ghost predicate Genuine(record: seq<byte>, orig: nat -> Message) {
    forall f :: f in ParseRecord(record).0 ==> PartOf(f, orig(f.seqNum))
  }

  /** The record is whole, and its messages are within the limit and no further ahead than a flight from the first. */
  ghost predicate Orderly(record: seq<byte>, first: nat, maxMessageLen: nat) {
    ParseRecord(record).1
      && forall f :: f in ParseRecord(record).0 ==> f.msgLen <= maxMessageLen && f.seqNum < first + MAX_FLIGHT
  }

  /** The fragments of the records, in order. */
  function All(records: seq<seq<byte>>): seq<Fragment> {
    if records == [] then [] else All(records[..|records| - 1]) + ParseRecord(records[|records| - 1]).0
  }

  /** Every byte of message n, and some fragment of it, is among the fragments. */
  ghost predicate Arrived(fs: seq<Fragment>, n: nat, m: Message) {
    Touched(fs, n) && Covered(fs, n) == Range(0, |m.body|)
  }

  ghost predicate AllArrived(fs: seq<Fragment>, from: nat, to: nat, orig: nat -> Message) {
    forall n: nat :: from <= n < to ==> Arrived(fs, n, orig(n))
  }

  lemma {:induction false} CoveredJoin(a: seq<Fragment>, b: seq<Fragment>, n: nat)
    ensures Covered(a + b, n) == Covered(a, n) + Covered(b, n)
    ensures Touched(a + b, n) <==> Touched(a, n) || Touched(b, n)
    decreases |b|
  {
    if b == [] {
      assert a + b == a;
    } else {
      CoveredJoin(a, b[..|b| - 1], n);
      assert (a + b)[..|a + b| - 1] == a + b[..|b| - 1];
      TouchedJoin(a, b, n);
    }
  }

  lemma TouchedJoin(a: seq<Fragment>, b: seq<Fragment>, n: nat)
    ensures Touched(a + b, n) <==> Touched(a, n) || Touched(b, n)
  {
    assert forall f :: f in a + b <==> f in a || f in b;
  }

  lemma {:induction false} CoveredWithin(fs: seq<Fragment>, n: nat, m: Message)
    requires forall f :: f in fs && f.seqNum == n ==> PartOf(f, m)
    ensures Covered(fs, n) <= Range(0, |m.body|)
  {
    forall i | i in Covered(fs, n) ensures i in Range(0, |m.body|) { CoveredIs(fs, n, i); }
  }

  /** What has arrived stays arrived. */
  lemma ArrivedMore(a: seq<Fragment>, b: seq<Fragment>, n: nat, m: Message)
    requires Arrived(a, n, m) && forall f :: f in b && f.seqNum == n ==> PartOf(f, m)
    ensures Arrived(a + b, n, m)
  {
    CoveredJoin(a, b, n);
    CoveredWithin(b, n, m);
  }

  // ----- the front of a genuine record -----

  lemma {:induction false} FrontWithin(st: Standing, fs: seq<Fragment>)
    ensures forall f :: f in Front(st, fs).0 ==> f in fs
    decreases |fs|
  {
    hide InBounds, OutOfReach, Compatible, Taking;
    if fs == [] {
    } else {
      FrontWithin(st, fs[1..]);
      FrontWithin(Taking(st, fs[0]), fs[1..]);
    }
  }

  /** The headers held are those of the peer's messages. */
  ghost predicate HeadersTrue(st: Standing, orig: nat -> Message) {
    forall n :: n in st.headers ==> st.headers[n] == Header(orig(n).msgType, |orig(n).body|)
  }

  /** Of genuine fragments no further ahead than the window, all are taken but those of messages already delivered. */
  lemma {:induction false} FrontIsAll(st: Standing, fs: seq<Fragment>, orig: nat -> Message)
    requires st.readEpoch != 1 && HeadersTrue(st, orig)
    requires forall f :: f in fs ==>
      f.msgLen <= st.maxMessageLen && f.seqNum < st.readSeq + MAX_FLIGHT && PartOf(f, orig(f.seqNum))
    ensures Front(st, fs).1
    ensures forall n: nat :: n >= st.readSeq ==>
      Covered(Front(st, fs).0, n) == Covered(fs, n) && (Touched(Front(st, fs).0, n) <==> Touched(fs, n))
    decreases |fs|
  {
    hide Covered, Touched;
    if fs != [] {
      var f, rest := fs[0], fs[1..];
      assert fs == [f] + rest;
      assert PartOf(f, orig(f.seqNum));
      var next := if OutOfReach(st, f) then st else Taking(st, f);
      FrontIsAll(next, rest, orig);
      var front := Front(next, rest).0;
      forall n: nat | n >= st.readSeq
        ensures Covered(Front(st, fs).0, n) == Covered(fs, n) && (Touched(Front(st, fs).0, n) <==> Touched(fs, n))
      {
        CoveredJoin([f], rest, n);
        CoveredJoin([f], front, n);
        if OutOfReach(st, f) { NotOf(f, n); }
      }
    }
  }

  lemma NotOf(f: Fragment, n: nat)
    requires f.seqNum != n
    ensures Covered([f], n) == {} && !Touched([f], n)
  {
    assert [f][..0] == [];
  }

  lemma FaithfulHeaders(slots: Slots, st: Standing, orig: nat -> Message)
    requires SlotsOk(slots, st.readSeq) && FaithfulIn(slots, orig) && st.headers == HeadersIn(slots, st.readSeq)
    ensures HeadersTrue(st, orig)
  {
    forall n | n in st.headers ensures st.headers[n] == Header(orig(n).msgType, |orig(n).body|) {
      SameSlot(st.readSeq, n, slots[n % MAX_FLIGHT].value.seqNum);
    }
  }

  // ----- delivery -----

  /** What the receiver holds of the messages still to come is what the fragments cover. */
  ghost predicate Holds(r: Receiver, fs: seq<Fragment>)
    reads r, r.ring
    ensures Holds(r, fs) ==> r.Valid()
  {
    r.Valid()
      && forall n: nat :: n >= r.readSeq ==> r.Received(n) == Covered(fs, n) && (r.Present(n) <==> Touched(fs, n))
  }

  /** Opens the records one by one and takes every message that is complete: of orderly records none is refused, and the
      messages taken are those up to the first that has not arrived. */
  method Deliver(r: Receiver, records: seq<seq<byte>>, ghost orig: nat -> Message) returns (ok: bool, out: seq<Message>)
    requires Holds(r, []) && r.Faithful(orig)
    requires forall record :: record in records ==> Genuine(record, orig)
    modifies r`readSeq, r.ring
    ensures forall k :: 0 <= k < |out| ==> out[k] == orig(old(r.readSeq) + k)
    ensures
      r.readEpoch != 1 && (forall record :: record in records ==> Orderly(record, old(r.readSeq), r.maxMessageLen)) ==>
      && ok && AllArrived(All(records), old(r.readSeq), old(r.readSeq) + |out|, orig)
      && !Arrived(All(records), old(r.readSeq) + |out|, orig(old(r.readSeq) + |out|))
  {
    hide Holds, Genuine, Orderly, Arrived, AllArrived, FaithfulIn, All;
    ghost var first := r.readSeq;
    ghost var orderly :=
      r.readEpoch != 1 && forall record :: record in records ==> Orderly(record, first, r.maxMessageLen);
    NothingArrived(first, orig);
    ghost var seen: seq<Fragment> := [];
    out := TakeMessages(r, [], first, seen, orig, true);
    ok := true;
    for i := 0 to |records|
      invariant r.Valid() && r.Faithful(orig) && r.readSeq == first + |out| && seen == All(records[..i])
      invariant forall k :: 0 <= k < |out| ==> out[k] == orig(first + k)
      invariant orderly ==> Kept(r, seen, first, orig) && !Arrived(seen, r.readSeq, orig(r.readSeq))
    {
      OneMore(records, i);
      seen := seen + ParseRecord(records[i]).0;
      ok := TakeRecord(r, records[i], first, All(records[..i]), orig, orderly);
      if !ok {
        return;
      }
      out := TakeMessages(r, out, first, seen, orig, orderly);
    }
    assert records[..|records|] == records;
  }

  /** The receiver holds what has arrived of the messages to come; those before have arrived. */
  ghost predicate Kept(r: Receiver, seen: seq<Fragment>, first: nat, orig: nat -> Message)
    reads r, r.ring
  {
    Holds(r, seen) && AllArrived(seen, first, r.readSeq, orig) && forall f :: f in seen ==> PartOf(f, orig(f.seqNum))
  }

  lemma NothingArrived(first: nat, orig: nat -> Message)
    ensures AllArrived([], first, first, orig) && All([]) == []
  {
  }

  lemma OneMore(records: seq<seq<byte>>, i: nat)
    requires i < |records|
    ensures All(records[..i + 1]) == All(records[..i]) + ParseRecord(records[i]).0 && records[..0] == []
  {
    assert records[..i + 1][..i] == records[..i];
  }

  /** One record, of which an orderly one is taken whole. */
  method TakeRecord(r: Receiver, record: seq<byte>, ghost first: nat, ghost seen: seq<Fragment>,
                    ghost orig: nat -> Message, ghost orderly: bool)
    returns (ok: bool)
    requires r.Valid() && r.Faithful(orig) && Genuine(record, orig) && first <= r.readSeq
    requires orderly ==> r.readEpoch != 1 && Kept(r, seen, first, orig) && Orderly(record, first, r.maxMessageLen)
    modifies r.ring
    ensures r.Valid() && r.Faithful(orig)
    ensures orderly ==> ok && Kept(r, seen + ParseRecord(record).0, first, orig)
  {
    hide ParseRecord, PartOf, Agrees, SlotsOk, FaithfulIn, Front, Covered, Touched, ReceivedIn, PresentIn;
    ghost var st, fs := r.Stands(), ParseRecord(record).0;
    FrontWithin(st, fs);
    FaithfulHeaders(r.ring[..], st, orig);
    if orderly { FrontIsAll(st, fs, orig); }
    ok := r.OpenHandshake(record, orig);
    forall n: nat { CoveredJoin(seen, fs, n); }
    forall n: nat | orderly && first <= n < r.readSeq
      ensures Arrived(seen + fs, n, orig(n))
    {
      ArrivedMore(seen, fs, n, orig(n));
    }
  }

  /** Takes the messages that are complete. There are at most as many as the ring has slots. */
  method TakeMessages(r: Receiver, before: seq<Message>, ghost first: nat, ghost seen: seq<Fragment>,
                      ghost orig: nat -> Message, ghost orderly: bool)
    returns (out: seq<Message>)
    requires r.Valid() && r.Faithful(orig) && r.readSeq == first + |before|
    requires forall k :: 0 <= k < |before| ==> before[k] == orig(first + k)
    requires orderly ==> Kept(r, seen, first, orig)
    modifies r`readSeq, r.ring
    ensures r.Valid() && r.Faithful(orig) && r.readSeq == first + |out|
    ensures forall k :: 0 <= k < |out| ==> out[k] == orig(first + k)
    ensures orderly ==> Kept(r, seen, first, orig) && !Arrived(seen, r.readSeq, orig(r.readSeq))
  {
    hide PartOf, Agrees, SlotsOk, FaithfulIn, Covered, Touched;
    out := before;
    ghost var limit := r.readSeq + MAX_FLIGHT;
    var more := true;
    while more
      invariant r.Valid() && r.Faithful(orig) && r.readSeq == first + |out|
      invariant forall k :: 0 <= k < |out| ==> out[k] == orig(first + k)
      invariant forall n: nat :: n >= r.readSeq && r.Present(n) ==> n < limit
      invariant orderly ==> Kept(r, seen, first, orig) && (more || !Arrived(seen, r.readSeq, orig(r.readSeq)))
      decreases more, limit - r.readSeq
    {
      var m := r.GetMessage(orig);
      if m.Some? {
        out := out + [m.value];
        r.NextMessage();
      } else {
        more := false;
      }
    }
  }

  /** A message has arrived when the peer's own cut of it has, in whatever order and number. */
  lemma TilesArrive(sent: seq<Fragment>, fs: seq<Fragment>, n: nat, m: Message)
    requires TilesWhole(sent, Handshake(n, m)) && forall f :: f in sent ==> f in fs
    requires forall f :: f in fs && f.seqNum == n ==> PartOf(f, m)
    ensures Arrived(fs, n, m)
  {
    if m.body == [] {
      assert sent[0] in fs;
    } else {
      TilesCover(sent, Handshake(n, m), |m.body|);
      assert sent != [];
      assert sent[|sent| - 1] in sent;
    }
    CoveredWithin(fs, n, m);
    forall i: nat | i < |m.body| ensures i in Covered(fs, n) {
      CoveredIs(fs, n, i);
      CoveredIs(sent, n, i);
      assert i in Covered(sent, n);
    }
  }
}
