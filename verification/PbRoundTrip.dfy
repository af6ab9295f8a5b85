/** nanopb reads back what it wrote: decoding an encoded message gives the same message exactly when its strings end
    within their buffers and its lengths take 32 bits; otherwise it is refused. */
module PbRoundTrip {
  import opened Wrappers
  import opened Keys
  import opened Coding
  import opened KeyEncoding
  import opened BlockFormat
  import opened PbWire
  import opened PbMessages
  import opened PbDecoding

  const HUGE: nat := LIMIT64 / 2 // more bytes than memory has

  // ----- values -----

  lemma Reassociate(a: Bytes, b: Bytes, c: Bytes)
    ensures a + b + c == a + (b + c)
  {
  }

  lemma LengthReads(t: Bytes, rest: Bytes)
    requires |t| < HUGE
    ensures Varint32(EncodeVarint(|t|) + t + rest) == if |t| < LIMIT32 then Some((|t|, t + rest)) else None
  {
    hide EncodeVarint, Varint32;
    Reassociate(EncodeVarint(|t|), t, rest);
    Varint32ReadsLength(|t|, t + rest);
  }

  lemma Parts(t: Bytes, rest: Bytes)
    ensures (t + rest)[..|t|] == t && (t + rest)[|t|..] == rest
  {
  }

  lemma StringReads(t: Bytes, rest: Bytes)
    requires |t| < HUGE
    ensures SplitString(EncodeVarint(|t|) + t + rest) == if |t| < LIMIT32 then Some((t, rest)) else None
  {
    hide EncodeVarint, Varint32;
    LengthReads(t, rest);
    Parts(t, rest);
  }

  lemma NumberReads(c: Content, i: int, rest: Bytes)
    requires (c.Varint? || c.Uvarint? || c.Svarint?) && Holds(c, Number(i))
    ensures DecodeNumber(c, EncodeNumber(c, i) + rest) == Some((Number(i), rest))
  {
    hide EncodeVarint, Varint64, ZigZag, NarrowSigned, UnZigZag, AsSigned;
    match c
    case Varint(w) =>
      Varint64Inverts(i % LIMIT64, rest);
      SignedSurvives(w, i);
    case Uvarint(w) =>
      Varint64Inverts(i % LIMIT64, rest);
    case Svarint(w) =>
      Varint64Inverts(ZigZag(i), rest);
      Widen(w, i);
      ZigZagInverts(i);
      SameWord(w, i);
  }

  lemma Widen(w: Width, i: int)
    requires Signed(w, i)
    ensures Signed(W64, i)
  {
  }

  lemma FixedReads(c: Content, i: int, rest: Bytes)
    requires (c.Fixed32? || c.Fixed64?) && Holds(c, Number(i))
    ensures DecodePlain(c, Number(i), EncodeNumber(c, i) + rest) == Some((Number(i), rest))
  {
    hide EncodeFixed64, DecodeFixed64;
    if c.Fixed32? {
      Fixed32RoundTrip(i % LIMIT32, rest);
      Parts(EncodeFixed32(i % LIMIT32), rest);
    } else {
      EightBytes();
      FixedRoundTrip(i % LIMIT64, 8);
      Parts(EncodeFixed64(i % LIMIT64, 8), rest);
    }
  }

  /** A text, its terminating zero and anything more are that text. */
  lemma {:induction false} TextEnds(t: Bytes, more: Bytes)
    requires 0 !in t
    ensures TextOf(t + [0] + more) == t
  {
    var buffer := t + [0] + more;
    if t != [] {
      assert buffer[1..] == t[1..] + [0] + more;
      TextEnds(t[1..], more);
    }
  }

  /** pb_dec_string takes a text if there is room for it and its terminating zero. */
  lemma TextReads(size: nat, buffer: Bytes, t: Bytes, rest: Bytes)
    requires |buffer| == size && |t| < HUGE && 0 !in t
    ensures var r := DecodeText(size, buffer, EncodeVarint(|t|) + t + rest);
      if |t| < size && |t| < LIMIT32 then r.Some? && r.value.1 == rest && TextOf(r.value.0) == t else r.None?
  {
    hide EncodeVarint, Varint32, TextOf;
    LengthReads(t, rest);
    Parts(t, rest);
    if |t| < size { TextEnds(t, buffer[|t| + 1..]); }
  }

  lemma PlainReads(c: Content, v: Datum, dest: Datum, rest: Bytes)
    requires !c.Submessage? && Holds(c, v) && Holds(c, dest) && ValueEncodable(c, v) && |EncodeValue(c, v)| < HUGE
    ensures var r := DecodePlain(c, dest, EncodeValue(c, v) + rest);
      if ValueReadable(c, v) then r.Some? && r.value.1 == rest && ValueSame(c, v, r.value.0) else r.None?
  {
    hide EncodeVarint, Varint32, EncodeNumber, DecodeNumber, TextOf;
    hide DecodeText, DecodeFixed32, DecodeFixed64, SplitString;
    match c
    case Boolean => Varint32ReadsLength(if v.on then 1 else 0, rest);
    case ByteArray(_) => LengthReads(v.bytes, rest); Parts(v.bytes, rest);
    case FixedBytes(_) => LengthReads(v.bytes, rest); Parts(v.bytes, rest);
    case Text(size) => TextReads(size, dest.bytes, TextOf(v.bytes), rest);
    case Fixed32 => FixedReads(c, v.i, rest);
    case Fixed64 => FixedReads(c, v.i, rest);
    case Varint(_) => NumberReads(c, v.i, rest);
    case Uvarint(_) => NumberReads(c, v.i, rest);
    case Svarint(_) => NumberReads(c, v.i, rest);
    case Submessage(_) =>
  }

  // ----- structs as pb_message_set_to_defaults leaves them -----

  /** Nothing is present that says so itself, and proto3 fields are zero. */
  ghost predicate Fresh(d: Descriptor, m: Message)
    requires |m.slots| == |d.fields|
    decreases d, 2
  {
    forall i :: 0 <= i < |d.fields| ==> FreshField(d.fields[i], m.slots[i], m.which)
  }

  ghost predicate FreshField(f: Field, s: Slot, which: seq<nat>)
    decreases f, 1
  {
    match f.rule
    case Repeated(_, fixedCount) => s.Many? && (!fixedCount ==> s.count == 0)
    case Oneof(g) => s.One? && (g < |which| ==> which[g] != f.tag)
    case Optional(flag) => if flag then s.Maybe? && !s.has && FreshValue(f, s.v) else s.One? && FreshValue(f, s.v)
    case Required => s.One? && FreshValue(f, s.v)
  }

  ghost predicate FreshValue(f: Field, v: Datum)
    decreases f, 0
  {
    if f.content.Submessage? then v.Sub? && |v.msg.slots| == |f.content.d.fields|
      && Fresh(f.content.d, v.msg) else v == f.init
  }

  /** A submessage that is fresh, or any other value. */
  ghost predicate FreshSub(c: Content, v: Datum) {
    c.Submessage? ==> v.Sub? && |v.msg.slots| == |c.d.fields| && Fresh(c.d, v.msg)
  }

  lemma {:induction false} DefaultsFresh(d: Descriptor, m: Message, n: nat)
    requires WellFormed(d) && IsMessage(d, m) && n <= |d.fields|
    ensures var r := Defaults(d, m, n); forall i :: 0 <= i < n ==> FreshField(d.fields[i], r.slots[i], r.which)
    decreases d, 2, n
  {
    if n > 0 {
      var r := Defaults(d, m, n - 1);
      DefaultsFresh(d, m, n - 1);
      DefaultsHold(d, m, n - 1);
      DefaultFieldFresh(d, r, n - 1);
      DefaultElsewhere(d, r, n - 1);
    }
  }

  lemma {:induction false} DefaultFieldFresh(d: Descriptor, m: Message, i: nat)
    requires WellFormed(d) && IsMessage(d, m) && i < |d.fields|
    ensures var r := DefaultField(d, m, i); FreshField(d.fields[i], r.slots[i], r.which)
    decreases d, 1
  {
    var f := d.fields[i];
    assert FieldOk(f, d.groups) && SlotHolds(f, m.slots[i]);
    if f.content.Submessage? && !f.rule.Repeated? && !f.rule.Oneof? {
      ContentsOk(d, i);
      DefaultsFresh(f.content.d, m.slots[i].v.msg, |f.content.d.fields|);
    }
  }

  lemma DefaultElsewhere(d: Descriptor, m: Message, i: nat)
    requires WellFormed(d) && |m.slots| == |d.fields| && i < |d.fields|
    ensures var r := DefaultField(d, m, i);
      forall j :: 0 <= j < |d.fields| && j != i && FreshField(d.fields[j], m.slots[j], m.which) ==>
        FreshField(d.fields[j], r.slots[j], r.which)
  {
    hide FreshValue, DefaultValue;
    forall j | 0 <= j < |d.fields| ensures d.fields[j].tag > 0 { assert FieldOk(d.fields[j], d.groups); }
    hide WellFormed;
  }

  /** What is empty in a struct is empty in a fresh one. */
  lemma {:induction false} FreshIsEmpty(f: Field, v: Datum, w: Datum, groups: nat)
    requires FieldOk(f, groups) && f.rule == Optional(false) && Holds(f.content, v) && Holds(f.content, w)
    requires EmptyValue(f.content, v) && FreshValue(f, w)
    ensures EmptyValue(f.content, w)
    decreases f
  {
    if f.content.Submessage? { FreshDefaults(f.content.d, v.msg, w.msg); }
  }

  lemma {:induction false} FreshDefaults(d: Descriptor, a: Message, b: Message)
    requires WellFormed(d) && IsMessage(d, a) && IsMessage(d, b) && Fresh(d, b)
    requires forall i :: 0 <= i < |d.fields| ==> IsDefault(d, a, i)
    ensures forall i :: 0 <= i < |d.fields| ==> IsDefault(d, b, i)
    decreases d
  {
    forall i | 0 <= i < |d.fields| ensures IsDefault(d, b, i) {
      var f := d.fields[i];
      assert FieldOk(f, d.groups) && SlotHolds(f, a.slots[i]) && SlotHolds(f, b.slots[i]) && IsDefault(d, a, i);
      if f.rule == Optional(false) { FreshIsEmpty(f, a.slots[i].v, b.slots[i].v, d.groups); }
    }
  }

  // ----- the same messages have the same presence -----

  lemma {:induction false} SameEmpty(c: Content, v: Datum, w: Datum)
    requires ContentOk(c) && Holds(c, v) && Holds(c, w) && ValueSame(c, v, w)
    ensures EmptyValue(c, v) <==> EmptyValue(c, w)
    decreases c, 0
  {
    if c.Submessage? { SameDefaults(c.d, v.msg, w.msg); }
  }

  /** A oneof that holds a member of a holds the same member of b. */
  lemma SameChoice(d: Descriptor, a: Message, b: Message, g: nat)
    requires WellFormed(d) && IsMessage(d, a) && IsMessage(d, b) && Same(d, a, b) && g < d.groups && a.which[g] != 0
    ensures b.which[g] == a.which[g]
  {
    var i :| 0 <= i < |d.fields| && IsMember(d.fields[i], g, a.which[g]);
    assert SlotHolds(d.fields[i], a.slots[i]);
    assert AllSame(d.fields[i].content, Present(d, a, i), Present(d, b, i));
  }

  lemma {:induction false} SameIsSymmetric(d: Descriptor, a: Message, b: Message)
    requires |a.slots| == |d.fields| == |b.slots| && Same(d, a, b)
    ensures Same(d, b, a)
    decreases d, 1
  {
    forall i | 0 <= i < |d.fields| ensures AllSame(d.fields[i].content, Present(d, b, i), Present(d, a, i)) {
      assert AllSame(d.fields[i].content, Present(d, a, i), Present(d, b, i));
      forall k | 0 <= k < |Present(d, a, i)|
        ensures ValueSame(d.fields[i].content, Present(d, b, i)[k], Present(d, a, i)[k])
      {
        if d.fields[i].content.Submessage? {
          SameIsSymmetric(d.fields[i].content.d, Present(d, a, i)[k].msg, Present(d, b, i)[k].msg);
        }
      }
    }
  }

  lemma {:induction false} SameDefaults(d: Descriptor, a: Message, b: Message)
    requires WellFormed(d) && IsMessage(d, a) && IsMessage(d, b) && Same(d, a, b)
    ensures forall i :: 0 <= i < |d.fields| ==> (IsDefault(d, a, i) <==> IsDefault(d, b, i))
    decreases d, 1
  {
    forall i | 0 <= i < |d.fields| ensures IsDefault(d, a, i) <==> IsDefault(d, b, i) {
      var f := d.fields[i];
      assert FieldOk(f, d.groups) && SlotHolds(f, a.slots[i]) && SlotHolds(f, b.slots[i]);
      assert AllSame(f.content, Present(d, a, i), Present(d, b, i));
      if f.rule.Oneof? {
        if a.which[f.rule.group] != 0 { SameChoice(d, a, b, f.rule.group); }
        SameIsSymmetric(d, a, b);
        if b.which[f.rule.group] != 0 { SameChoice(d, b, a, f.rule.group); }
      }
    }
  }

  // ----- one field -----

  /** A tag of field i is followed by what decode_static_field makes of the rest. */
  lemma FieldArrives(d: Descriptor, st: State, i: nat, w: Wire, rest: Bytes)
    requires WellFormed(d) && Ready(d, st) && i < |d.fields|
    requires Arrive(d, st, i).Some? ==> Ready(d, Arrive(d, st, i).value)
    ensures DecodeFields(d, st, TagBytes(d.fields[i].tag, w) + rest) ==
      if Arrive(d, st, i).None? then None
      else
        var r := DecodeField(d, Arrive(d, st, i).value, i, WireCode(w), rest);
        if r.None? then None else DecodeFields(d, r.value.0, r.value.1)
  {
    hide TagBytes, Ready, DecodeField, ReadTag, Arrive;
    assert FieldOk(d.fields[i], d.groups);
    TagReads(d.fields[i].tag, w, rest);
    FieldFound(d, i);
    hide WellFormed, FieldOk, FindFrom;
  }

  lemma FieldFound(d: Descriptor, i: nat)
    requires WellFormed(d) && i < |d.fields|
    ensures FindFrom(d, d.fields[i].tag, 0) == Some(i)
  {
    hide FieldOk;
  }

  /** All but field i is as it was. */
  ghost predicate Elsewhere(d: Descriptor, st: State, st': State, i: nat)
    requires i < |d.fields|
  {
    && |st'.m.slots| == |st.m.slots| == |d.fields| && |st'.m.which| == |st.m.which|
    && (forall j :: 0 <= j < |d.fields| && j != i ==> st'.m.slots[j] == st.m.slots[j])
    && (forall g :: 0 <= g < |st.m.which| ==>
         st'.m.which[g] == st.m.which[g] || IsMember(d.fields[i], g, st'.m.which[g]))
    && (st'.fixedField == st.fixedField || st'.fixedField == Some(i))
    && (!IsFixed(d.fields[i]) ==> st'.fixedField == st.fixedField && st'.fixedSize == st.fixedSize)
    && |st'.seen| == |st.seen| && forall k :: 0 <= k < |st.seen| && st.seen[k] ==> st'.seen[k]
  }

  lemma ArriveElsewhere(d: Descriptor, st: State, i: nat)
    requires Ready(d, st) && i < |d.fields|
    ensures FixedFull(d, st) || st.fixedField == Some(i) || !IsFixed(d.fields[i]) ==> Arrive(d, st, i).Some?
    ensures Arrive(d, st, i).Some? ==> Elsewhere(d, st, Arrive(d, st, i).value, i)
  {
    hide FixedFull;
  }

  lemma StoredElsewhere(d: Descriptor, st: State, i: nat, v: Datum)
    requires Ready(d, st) && i < |d.fields| && SlotHolds(d.fields[i], st.m.slots[i]) && Target(d, st, i).Some?
    ensures Elsewhere(d, st, Stored(d, st, i, v), i)
  {
    hide Holds;
  }

  lemma ElsewhereChains(d: Descriptor, a: State, b: State, c: State, i: nat)
    requires i < |d.fields| && Elsewhere(d, a, b, i) && Elsewhere(d, b, c, i)
    ensures Elsewhere(d, a, c, i)
  {
  }

  /** The values of field i so far: an array of fixed count has those that have been filled. */
  function Items(d: Descriptor, st: State, i: nat): seq<Datum>
    requires |st.m.slots| == |d.fields| && i < |d.fields|
  {
    var s := st.m.slots[i];
    if !IsFixed(d.fields[i]) then Present(d, st.m, i)
    else if s.Many? && st.fixedSize <= |s.items| then s.items[..st.fixedSize]
    else []
  }

  /** Writing one value adds it. */
  lemma StoredAdds(d: Descriptor, st: State, i: nat, v: Datum)
    requires WellFormed(d) && Ready(d, st) && i < |d.fields| && SlotHolds(d.fields[i], st.m.slots[i])
      && Target(d, st, i).Some?
    requires d.fields[i].rule == Optional(false) ==> !EmptyValue(d.fields[i].content, v)
    ensures var items := Items(d, Stored(d, st, i, v), i);
      if d.fields[i].rule.Repeated? then items == Items(d, st, i) + [v] else items == [v]
  {
    assert FieldOk(d.fields[i], d.groups);
    hide Holds, IsZero, WellFormed, FieldOk;
  }

  /** Field i is an array that can take values: the one being filled, if it has no count of its own. */
  ghost predicate Receives(d: Descriptor, st: State, i: nat)
    requires |st.m.slots| == |d.fields| && i < |d.fields|
  {
    var f, s := d.fields[i], st.m.slots[i];
    && f.rule.Repeated? && s.Many? && |s.items| == f.rule.max
    && (if IsFixed(f) then st.fixedField == Some(i) && st.fixedSize <= |s.items| else s.count <= |s.items|)
  }

  /** Field i of the array kind has more values, the same as vs; all else is as it was. */
  ghost predicate Grew(d: Descriptor, st: State, st': State, i: nat, vs: seq<Datum>)
    requires |st.m.slots| == |d.fields| && i < |d.fields|
  {
    && Ready(d, st') && Elsewhere(d, st, st', i) && Receives(d, st', i)
    && Items(d, st, i) <= Items(d, st', i) && |Items(d, st', i)| == |Items(d, st, i)| + |vs|
    && AllSame(d.fields[i].content, vs, Items(d, st', i)[|Items(d, st, i)|..])
  }

  lemma GrewNone(d: Descriptor, st: State, i: nat)
    requires Ready(d, st) && i < |d.fields| && Receives(d, st, i)
    ensures Grew(d, st, st, i, [])
  {
  }

  lemma GrewMore(d: Descriptor, a: State, b: State, c: State, i: nat, v: Datum, vs: seq<Datum>)
    requires |a.m.slots| == |d.fields| && i < |d.fields| && Receives(d, a, i)
    requires Grew(d, a, b, i, [v]) && Grew(d, b, c, i, vs)
    ensures Grew(d, a, c, i, [v] + vs)
  {
    ElsewhereChains(d, a, b, c, i);
    hide Ready, Elsewhere, Receives, Items, ValueSame;
    var x, y, z := Items(d, a, i), Items(d, b, i), Items(d, c, i);
    forall k | 0 <= k < |[v] + vs| ensures ValueSame(d.fields[i].content, ([v] + vs)[k], z[|x|..][k]) {
      if k == 0 { assert z[|x|] == y[|x|] == y[|x|..][0]; } else { assert z[|x|..][k] == z[|y|..][k - 1]; }
    }
  }

  /** After the tag of a repeated field, more tags of it change nothing. */
  lemma ArriveAgain(d: Descriptor, st: State, i: nat)
    requires Ready(d, st) && i < |d.fields| && Receives(d, st, i)
    ensures Arrive(d, st, i) == Some(st)
  {
    hide Ready;
  }

  /** A value of the content is read back, if it can be. */
  lemma {:induction false} ValueReads(c: Content, v: Datum, dest: Datum, isNew: bool, rest: Bytes)
    requires ContentOk(c) && Holds(c, v) && Holds(c, dest) && ValueEncodable(c, v) && |EncodeValue(c, v)| < HUGE
    requires !isNew ==> FreshSub(c, dest)
    ensures var r := DecodeValue(c, dest, isNew, EncodeValue(c, v) + rest);
      if ValueReadable(c, v) then r.Some? && r.value.1 == rest && ValueSame(c, v, r.value.0) else r.None?
    decreases c, 0
  {
    hide WellFormed, IsMessage, Fresh, Same, Readable, Encodable, EncodeMessage, DecodeMessage, SplitString;
    hide SetToDefaults, Defaults, DecodePlain;
    if !c.Submessage? {
      PlainReads(c, v, dest, rest);
    } else {
      var d, e := c.d, EncodeMessage(c.d, v.msg);
      MessageSlots(d, v.msg);
      MessageSlots(d, dest.msg);
      StringReads(e, rest);
      SetFresh(d, dest.msg);
      var start := if isNew then SetToDefaults(d, dest.msg) else dest.msg;
      MessageReads(d, v.msg, start);
      if Readable(d, v.msg) { MessageSlots(d, DecodeMessage(d, start, e).value); }
    }
  }

  lemma HasRoom(d: Descriptor, st: State, i: nat)
    requires Ready(d, st) && i < |d.fields| && SlotHolds(d.fields[i], st.m.slots[i]) && Receives(d, st, i)
    requires |Items(d, st, i)| < d.fields[i].rule.max
    ensures Target(d, st, i).Some?
  {
    hide Ready;
  }

  lemma StoredReceives(d: Descriptor, st: State, i: nat, v: Datum)
    requires Ready(d, st) && i < |d.fields| && SlotHolds(d.fields[i], st.m.slots[i]) && Receives(d, st, i)
      && Target(d, st, i).Some?
    ensures Receives(d, Stored(d, st, i, v), i)
  {
    hide Holds;
  }

  /** A value of an array is read and added. */
  lemma {:induction false} ItemReads(d: Descriptor, st: State, i: nat, v: Datum, rest: Bytes)
    requires WellFormed(d) && Ready(d, st) && i < |d.fields| && Receives(d, st, i)
      && |Items(d, st, i)| < d.fields[i].rule.max
    requires var c := d.fields[i].content; Holds(c, v) && ValueEncodable(c, v) && |EncodeValue(c, v)| < HUGE
    ensures ContentOk(d.fields[i].content) && SlotHolds(d.fields[i], st.m.slots[i])
    ensures var t := Target(d, st, i); t.Some? && Holds(d.fields[i].content, t.value)
    ensures var c := d.fields[i].content;
      var r := DecodeValue(c, Target(d, st, i).value, true, EncodeValue(c, v) + rest);
      if ValueReadable(c, v) then r.Some? && r.value.1 == rest
        && Grew(d, st, Stored(d, st, i, r.value.0), i, [v]) else r.None?
    decreases d, 1
  {
    hide Ready, Elsewhere, WellFormed, ContentOk, Holds, DecodeValue, Items, Target, ValueEncodable, ValueReadable;
    ReadySlots(d, st);
    var c := d.fields[i].content;
    TargetHolds(d, st, i);
    HasRoom(d, st, i);
    var t := Target(d, st, i).value;
    ValueReads(c, v, t, true, rest);
    if ValueReadable(c, v) {
      var w := DecodeValue(c, t, true, EncodeValue(c, v) + rest).value.0;
      StoredReady(d, st, i, w);
      StoredElsewhere(d, st, i, w);
      StoredAdds(d, st, i, w);
      StoredReceives(d, st, i, w);
    }
  }

  /** A packed array is read back. */
  lemma {:induction false} PackedReads(d: Descriptor, st: State, i: nat, vs: seq<Datum>)
    requires WellFormed(d) && Ready(d, st) && i < |d.fields| && Receives(d, st, i) && Packed(d.fields[i])
    requires |Items(d, st, i)| + |vs| <= d.fields[i].rule.max && |EncodeItems(d.fields[i].content, vs)| < HUGE
    requires forall k :: 0 <= k < |vs| ==> Holds(d.fields[i].content, vs[k])
    ensures var r := DecodeItems(d, st, i, EncodeItems(d.fields[i].content, vs)); r.Some? && Grew(d, st, r.value, i, vs)
    decreases d, 2, |vs|
  {
    hide Ready, Elsewhere, WellFormed, ContentOk, Holds, Items, Target, Receives, Stored, DecodeValue;
    ReadySlots(d, st);
    if vs == [] {
      GrewNone(d, st, i);
    } else {
      var c := d.fields[i].content;
      var rest := EncodeItems(c, vs[1..]);
      ItemReads(d, st, i, vs[0], rest);
      var w := DecodeValue(c, Target(d, st, i).value, true, EncodeValue(c, vs[0]) + rest).value.0;
      var st' := Stored(d, st, i, w);
      PackedReads(d, st', i, vs[1..]);
      GrewMore(d, st, st', DecodeItems(d, st', i, rest).value, i, vs[0], vs[1..]);
      assert [vs[0]] + vs[1..] == vs;
    }
  }

  ghost predicate AllReadable(c: Content, vs: seq<Datum>) { forall k :: 0 <= k < |vs| ==> ValueReadable(c, vs[k]) }

  /** An array whose items have tags of their own is read back, up to an item that cannot be read. */
  lemma {:induction false} TaggedReads(d: Descriptor, st: State, i: nat, vs: seq<Datum>, rest: Bytes)
    returns (st': State)
    requires WellFormed(d) && Ready(d, st) && i < |d.fields| && d.fields[i].rule.Repeated? && !Packed(d.fields[i])
      && Arrive(d, st, i).Some?
    requires var a := Arrive(d, st, i).value;
      Ready(d, a) && Receives(d, a, i) && |Items(d, a, i)| + |vs| <= d.fields[i].rule.max
    requires |EncodeTagged(d.fields[i], vs)| < HUGE && (vs == [] ==> Arrive(d, st, i).value == st)
    requires forall k :: 0 <= k < |vs| ==>
      Holds(d.fields[i].content, vs[k]) && ValueEncodable(d.fields[i].content, vs[k])
    ensures AllReadable(d.fields[i].content, vs) ==>
      Grew(d, Arrive(d, st, i).value, st', i, vs)
        && DecodeFields(d, st, EncodeTagged(d.fields[i], vs) + rest) == DecodeFields(d, st', rest)
    ensures !AllReadable(d.fields[i].content, vs) ==> DecodeFields(d, st, EncodeTagged(d.fields[i], vs) + rest) == None
    decreases d, 2, |vs|
  {
    hide Ready, Elsewhere, WellFormed, ContentOk, Holds, Items, Target, Receives, Stored, DecodeValue, DecodeFields;
    hide ValueEncodable, ValueReadable, Arrive;
    ReadySlots(d, st);
    var f, c := d.fields[i], d.fields[i].content;
    st' := st;
    if vs == [] {
      GrewNone(d, st, i);
      assert EncodeTagged(f, vs) + rest == rest;
    } else {
      var a := Arrive(d, st, i).value;
      var more := EncodeTagged(f, vs[1..]) + rest;
      TaggedStarts(f, vs, rest);
      FieldArrives(d, st, i, WireOf(c), EncodeValue(c, vs[0]) + more);
      ItemReads(d, a, i, vs[0], more);
      if ValueReadable(c, vs[0]) {
        var b := Stored(d, a, i, DecodeValue(c, Target(d, a, i).value, true, EncodeValue(c, vs[0]) + more).value.0);
        ArriveAgain(d, b, i);
        st' := TaggedReads(d, b, i, vs[1..], rest);
        if AllReadable(c, vs[1..]) {
          GrewMore(d, a, b, st', i, vs[0], vs[1..]);
          assert [vs[0]] + vs[1..] == vs;
        }
      }
      AllReadableOf(c, vs);
    }
  }

  lemma AllReadableOf(c: Content, vs: seq<Datum>)
    requires vs != []
    ensures AllReadable(c, vs) <==> ValueReadable(c, vs[0]) && AllReadable(c, vs[1..])
  {
    hide ValueReadable;
    if ValueReadable(c, vs[0]) && AllReadable(c, vs[1..]) {
      forall k | 0 <= k < |vs| ensures ValueReadable(c, vs[k]) { if k > 0 { assert vs[k] == vs[1..][k - 1]; } }
    }
    if AllReadable(c, vs) {
      forall k | 0 <= k < |vs[1..]| ensures ValueReadable(c, vs[1..][k]) { assert vs[1..][k] == vs[k + 1]; }
    }
  }

  lemma TaggedStarts(f: Field, vs: seq<Datum>, rest: Bytes)
    requires vs != []
    ensures EncodeTagged(f, vs) + rest ==
      TagBytes(f.tag, WireOf(f.content)) + (EncodeValue(f.content, vs[0]) + (EncodeTagged(f, vs[1..]) + rest))
    ensures |EncodeTagged(f, vs)| >= |EncodeValue(f.content, vs[0])| + |EncodeTagged(f, vs[1..])|
  {
  }

  // ----- all fields -----

  /** The first i fields have been read back, and the others have nothing yet. */
  ghost predicate Progress(d: Descriptor, m: Message, st: State, i: nat)
    requires |m.slots| == |d.fields| && i <= |d.fields|
  {
    && Ready(d, st) && FixedFull(d, st)
    && (forall j :: 0 <= j < i ==> AllSame(d.fields[j].content, Present(d, m, j), Present(d, st.m, j)))
    && (forall j :: i <= j < |d.fields| ==> FreshField(d.fields[j], st.m.slots[j], st.m.which))
    && (forall k :: 0 <= k < RequiredBefore(d, i) && k < MAX_REQUIRED ==> st.seen[k])
    && (st.fixedField.Some? ==> st.fixedField.value < i)
  }

  /** Field i has been marked as seen if it has to be, and chosen in its oneof only if m chooses it. */
  predicate Noted(d: Descriptor, m: Message, st: State, st': State, i: nat)
    requires i < |d.fields| && |st'.seen| == MAX_REQUIRED
  {
    && (d.fields[i].rule.Required? && RequiredBefore(d, i) < MAX_REQUIRED ==> st'.seen[RequiredBefore(d, i)])
    && (forall g :: 0 <= g < |m.which| && g < |st.m.which| && g < |st'.m.which| && st'.m.which[g] != st.m.which[g] ==>
         m.which[g] == d.fields[i].tag)
  }

  lemma ProgressStep(d: Descriptor, m: Message, st: State, st': State, i: nat)
    requires WellFormed(d) && IsMessage(d, m) && i < |d.fields| && Progress(d, m, st, i)
    requires Ready(d, st') && FixedFull(d, st') && Elsewhere(d, st, st', i) && Noted(d, m, st, st', i)
    requires AllSame(d.fields[i].content, Present(d, m, i), Present(d, st'.m, i))
    ensures Progress(d, m, st', i + 1)
  {
    hide FixedFull, FieldOk, AllSame, FreshField;
    forall j | 0 <= j < i ensures AllSame(d.fields[j].content, Present(d, m, j), Present(d, st'.m, j)) {
      PresentKept(d, m, st, st', i, j);
    }
    forall j | i < j < |d.fields| ensures FreshField(d.fields[j], st'.m.slots[j], st'.m.which) {
      FreshKept(d, st, st', i, j);
    }
  }

  lemma PresentKept(d: Descriptor, m: Message, st: State, st': State, i: nat, j: nat)
    requires WellFormed(d) && IsMessage(d, m) && Ready(d, st) && i < |d.fields| && j < |d.fields| && i != j
    requires Elsewhere(d, st, st', i) && |st'.seen| == MAX_REQUIRED && Noted(d, m, st, st', i)
    requires AllSame(d.fields[j].content, Present(d, m, j), Present(d, st.m, j))
    ensures AllSame(d.fields[j].content, Present(d, m, j), Present(d, st'.m, j))
  {
    hide FieldOk, Holds, EmptyValue, ValueSame, SlotHolds;
  }

  lemma FreshKept(d: Descriptor, st: State, st': State, i: nat, j: nat)
    requires WellFormed(d) && Ready(d, st) && i < |d.fields| && j < |d.fields| && i != j && Elsewhere(d, st, st', i)
    requires FreshField(d.fields[j], st.m.slots[j], st.m.which)
    ensures FreshField(d.fields[j], st'.m.slots[j], st'.m.which)
  {
    hide FieldOk, Holds, FreshValue, SlotHolds;
  }

  /** A field that is not written was not needed, and the struct has nothing in it. */
  lemma FieldAbsent(d: Descriptor, m: Message, st: State, i: nat)
    requires WellFormed(d) && IsMessage(d, m) && i < |d.fields| && Progress(d, m, st, i) && Present(d, m, i) == []
    ensures Present(d, st.m, i) == [] && !d.fields[i].rule.Required?
    ensures Progress(d, m, st, i + 1)
  {
    var f := d.fields[i];
    assert FieldOk(f, d.groups) && SlotHolds(f, m.slots[i]) && SlotHolds(f, st.m.slots[i])
      && FreshField(f, st.m.slots[i], st.m.which);
    if f.rule == Optional(false) { FreshIsEmpty(f, m.slots[i].v, st.m.slots[i].v, d.groups); }
  }

  /** Where a field that is not an array goes: a submessage there is fresh. */
  lemma TargetFresh(d: Descriptor, m: Message, st: State, i: nat)
    requires WellFormed(d) && |m.slots| == |d.fields| && i < |d.fields| && Progress(d, m, st, i)
      && !d.fields[i].rule.Repeated?
    ensures Arrive(d, st, i).Some? && SlotHolds(d.fields[i], st.m.slots[i])
    ensures var a := Arrive(d, st, i).value; a.m == st.m && a.fixedField == st.fixedField && a.fixedSize == st.fixedSize
    ensures var t := Target(d, Arrive(d, st, i).value, i); t.Some? && FreshSub(d.fields[i].content, t.value)
  {
    var f := d.fields[i];
    ContentsOk(d, i);
    assert SlotHolds(f, st.m.slots[i]) && FreshField(f, st.m.slots[i], st.m.which);
    hide WellFormed, FixedFull;
    if f.content.Submessage? {
      ZeroMessageHolds(f.content.d);
      DefaultsFresh(f.content.d, ZeroMessage(f.content.d), |f.content.d.fields|);
    }
  }

  /** What is stored is noted as m would have it. */
  lemma StoredNoted(d: Descriptor, m: Message, st: State, i: nat, w: Datum)
    requires Ready(d, st) && i < |d.fields| && !d.fields[i].rule.Repeated? && Arrive(d, st, i).Some?
    requires |m.slots| == |d.fields| && Present(d, m, i) != []
    requires var a := Arrive(d, st, i).value; SlotHolds(d.fields[i], a.m.slots[i]) && Target(d, a, i).Some?
    ensures var a := Arrive(d, st, i).value; Noted(d, m, st, Stored(d, a, i, w), i)
    ensures var b := Stored(d, Arrive(d, st, i).value, i, w);
      b.fixedField == st.fixedField && b.fixedSize == st.fixedSize
  {
    hide IsMessage, SlotHolds, FixedFull, Target;
  }

  /** Reading field i brings the reader from st to st', or to a refusal if the field cannot be read. */
  ghost predicate FieldRead(d: Descriptor, m: Message, st: State, st': State, i: nat, rest: Bytes)
    requires WellFormed(d) && IsMessage(d, m) && i < |d.fields| && Progress(d, m, st, i)
  {
    var bytes := EncodeField(d.fields[i], Present(d, m, i)) + rest;
    if FieldReadable(d.fields[i], Present(d, m, i)) then Progress(d, m, st', i + 1)
      && DecodeFields(d, st, bytes) == DecodeFields(d, st', rest)
    else DecodeFields(d, st, bytes) == None
  }

  lemma SingleTarget(d: Descriptor, m: Message, st: State, i: nat)
    requires WellFormed(d) && IsMessage(d, m) && i < |d.fields| && Progress(d, m, st, i) && !d.fields[i].rule.Repeated?
    ensures Arrive(d, st, i).Some? && ContentOk(d.fields[i].content)
    ensures var a := Arrive(d, st, i).value; Ready(d, a) && SlotHolds(d.fields[i], a.m.slots[i])
    ensures var t := Target(d, Arrive(d, st, i).value, i);
      t.Some? && Holds(d.fields[i].content, t.value) && FreshSub(d.fields[i].content, t.value)
    ensures forall k :: 0 <= k < |Present(d, m, i)| ==> Holds(d.fields[i].content, Present(d, m, i)[k])
  {
    PresentHolds(d, m, i);
    ContentsOk(d, i);
    TargetFresh(d, m, st, i);
    hide WellFormed, IsMessage, Holds, SlotHolds, Target, Present;
    ArriveReady(d, st, i);
    TargetHolds(d, Arrive(d, st, i).value, i);
  }

  /** A field with one value is read back, if the value can be. */
  lemma {:induction false} SingleReads(d: Descriptor, m: Message, st: State, i: nat, rest: Bytes) returns (st': State)
    requires WellFormed(d) && IsMessage(d, m) && i < |d.fields| && Progress(d, m, st, i) && !d.fields[i].rule.Repeated?
    requires |Present(d, m, i)| == 1 && FieldEncodable(d.fields[i], m.slots[i], Present(d, m, i))
    requires |EncodeField(d.fields[i], Present(d, m, i))| < HUGE
    ensures FieldRead(d, m, st, st', i, rest)
    decreases d, 3
  {
    hide Ready, WellFormed, IsMessage, ContentOk, Holds, Target, Stored, DecodeValue, DecodeFields, ValueReadable;
    hide ValueEncodable, Arrive, Present, Progress, SlotHolds, FreshSub, EncodeValue, EncodeTagged;
    MessageSlots(d, m);
    ReadyAt(d, m, st, i);
    SingleTarget(d, m, st, i);
    var f, c, v := d.fields[i], d.fields[i].content, Present(d, m, i)[0];
    var a := Arrive(d, st, i).value;
    var t := Target(d, a, i).value;
    assert Present(d, m, i) == [v];
    OneTagged(f, v, rest);
    FieldArrives(d, st, i, WireOf(c), EncodeValue(c, v) + rest);
    ValueReads(c, v, t, false, rest);
    st' := st;
    if ValueReadable(c, v) {
      var w := DecodeValue(c, t, false, EncodeValue(c, v) + rest).value.0;
      st' := Stored(d, a, i, w);
      SingleStored(d, m, st, i, v, w);
    }
  }

  lemma ReadyAt(d: Descriptor, m: Message, st: State, i: nat)
    requires |m.slots| == |d.fields| && i <= |d.fields| && Progress(d, m, st, i)
    ensures Ready(d, st) && |st.m.slots| == |d.fields| && |st.seen| == MAX_REQUIRED
  {
  }

  lemma OneTagged(f: Field, v: Datum, rest: Bytes)
    ensures EncodeTagged(f, [v]) + rest == TagBytes(f.tag, WireOf(f.content)) + (EncodeValue(f.content, v) + rest)
    ensures |EncodeTagged(f, [v])| >= |EncodeValue(f.content, v)|
  {
    assert EncodeTagged(f, [v][1..]) == [];
  }

  lemma PresentHolds(d: Descriptor, m: Message, i: nat)
    requires WellFormed(d) && IsMessage(d, m) && i < |d.fields|
    ensures forall k :: 0 <= k < |Present(d, m, i)| ==> Holds(d.fields[i].content, Present(d, m, i)[k])
  {
    assert SlotHolds(d.fields[i], m.slots[i]);
    hide WellFormed, Holds;
  }

  lemma SingleStored(d: Descriptor, m: Message, st: State, i: nat, v: Datum, w: Datum)
    requires WellFormed(d) && IsMessage(d, m) && i < |d.fields| && Progress(d, m, st, i) && !d.fields[i].rule.Repeated?
    requires Arrive(d, st, i).Some? && Present(d, m, i) == [v] && Holds(d.fields[i].content, w)
      && ValueSame(d.fields[i].content, v, w)
    requires var a := Arrive(d, st, i).value;
      Ready(d, a) && SlotHolds(d.fields[i], a.m.slots[i]) && Target(d, a, i).Some?
    ensures Progress(d, m, Stored(d, Arrive(d, st, i).value, i, w), i + 1)
  {
    hide WellFormed, IsMessage, ContentOk, Holds, ValueSame, Elsewhere, Progress, SlotHolds, Arrive, Target, Stored;
    hide EmptyValue, Present, Noted;
    MessageSlots(d, m);
    ReadyAt(d, m, st, i);
    ProgressFull(d, m, st, i);
    var a := Arrive(d, st, i).value;
    var b := Stored(d, a, i, w);
    PresentHolds(d, m, i);
    ContentsOk(d, i);
    SameEmpty(d.fields[i].content, v, w);
    NotEmpty(d, m, i, v);
    ArriveElsewhere(d, st, i);
    StoredReady(d, a, i, w);
    StoredElsewhere(d, a, i, w);
    ElsewhereChains(d, st, a, b, i);
    StoredAdds(d, a, i, w);
    StoredNoted(d, m, st, i, w);
    ProgressStep(d, m, st, b, i);
  }

  lemma ProgressFull(d: Descriptor, m: Message, st: State, i: nat)
    requires |m.slots| == |d.fields| && i <= |d.fields| && Progress(d, m, st, i)
    ensures FixedFull(d, st)
  {
  }

  lemma NotEmpty(d: Descriptor, m: Message, i: nat, v: Datum)
    requires |m.slots| == |d.fields| && i < |d.fields| && Present(d, m, i) == [v]
    ensures d.fields[i].rule == Optional(false) ==> !EmptyValue(d.fields[i].content, v)
  {
  }

  /** The first tag of an array starts it, with nothing in it. */
  lemma ArrayStarts(d: Descriptor, m: Message, st: State, i: nat)
    requires WellFormed(d) && IsMessage(d, m) && i < |d.fields| && Progress(d, m, st, i) && d.fields[i].rule.Repeated?
    requires FieldEncodable(d.fields[i], m.slots[i], Present(d, m, i))
    ensures Arrive(d, st, i).Some?
    ensures var a := Arrive(d, st, i).value;
      Ready(d, a) && Elsewhere(d, st, a, i) && Receives(d, a, i) && Items(d, a, i) == []
    ensures |Present(d, m, i)| <= d.fields[i].rule.max
      && (IsFixed(d.fields[i]) ==> |Present(d, m, i)| == d.fields[i].rule.max)
  {
    var f := d.fields[i];
    ArriveReady(d, st, i);
    ArriveElsewhere(d, st, i);
    assert SlotHolds(f, m.slots[i]) && SlotHolds(f, st.m.slots[i]) && FreshField(f, st.m.slots[i], st.m.which);
    hide WellFormed, Holds, FixedFull, ValueEncodable, Elsewhere;
  }

  lemma ArrayStored(d: Descriptor, m: Message, st: State, a: State, st': State, i: nat)
    requires WellFormed(d) && IsMessage(d, m) && i < |d.fields| && Progress(d, m, st, i) && d.fields[i].rule.Repeated?
    requires Elsewhere(d, st, a, i) && Items(d, a, i) == [] && Grew(d, a, st', i, Present(d, m, i))
    requires IsFixed(d.fields[i]) ==> |Present(d, m, i)| == d.fields[i].rule.max
    ensures Progress(d, m, st', i + 1)
  {
    hide WellFormed, Holds, ValueSame, IsMessage, FreshField;
    MessageSlots(d, m);
    ElsewhereChains(d, st, a, st', i);
    ReadyAt(d, m, st, i);
    assert Items(d, st', i)[0..] == Items(d, st', i) == Present(d, st'.m, i);
    ArrayNoted(d, m, st, st', i);
    ProgressStep(d, m, st, st', i);
  }

  lemma ArrayNoted(d: Descriptor, m: Message, st: State, st': State, i: nat)
    requires i < |d.fields| && d.fields[i].rule.Repeated? && Elsewhere(d, st, st', i) && |st'.seen| == MAX_REQUIRED
    ensures Noted(d, m, st, st', i)
  {
  }

  /** An array is read back, up to an item that cannot be read. */
  lemma {:induction false} ArrayReads(d: Descriptor, m: Message, st: State, i: nat, rest: Bytes) returns (st': State)
    requires WellFormed(d) && IsMessage(d, m) && i < |d.fields| && Progress(d, m, st, i) && d.fields[i].rule.Repeated?
    requires Present(d, m, i) != [] && FieldEncodable(d.fields[i], m.slots[i], Present(d, m, i))
    requires |EncodeField(d.fields[i], Present(d, m, i))| < HUGE
    ensures FieldRead(d, m, st, st', i, rest)
    decreases d, 3
  {
    hide Ready, WellFormed, IsMessage, Holds, Target, Stored, DecodeValue, DecodeFields, DecodeItems, ValueReadable;
    hide ValueEncodable, Arrive, Present, Progress, SlotHolds, Receives, Items, Elsewhere, EncodeTagged;
    hide EncodeItems, Grew, SplitString;
    MessageSlots(d, m);
    ReadyAt(d, m, st, i);
    ArrayStarts(d, m, st, i);
    PresentHolds(d, m, i);
    var f, c, vs, a := d.fields[i], d.fields[i].content, Present(d, m, i), Arrive(d, st, i).value;
    st' := st;
    if Packed(f) {
      var items := EncodeItems(c, vs);
      Reassociate(TagBytes(f.tag, Strings), EncodeVarint(|items|) + items, rest);
      Reassociate(TagBytes(f.tag, Strings), EncodeVarint(|items|), items);
      FieldArrives(d, st, i, Strings, EncodeVarint(|items|) + items + rest);
      StringReads(items, rest);
      PackedReads(d, a, i, vs);
      if |items| < LIMIT32 {
        st' := DecodeItems(d, a, i, items).value;
        ArrayStored(d, m, st, a, st', i);
      }
    } else {
      st' := TaggedReads(d, st, i, vs, rest);
      if AllReadable(c, vs) { ArrayStored(d, m, st, a, st', i); }
    }
  }

  lemma {:induction false} FieldsRead(d: Descriptor, m: Message, st: State, i: nat)
    requires WellFormed(d) && IsMessage(d, m) && i <= |d.fields| && Progress(d, m, st, i)
    requires Encodable(d, m) && |EncodeFrom(d, m, i)| < HUGE
    ensures var r := DecodeFields(d, st, EncodeFrom(d, m, i));
      if ReadableFrom(d, m, i) then r.Some? && Progress(d, m, r.value, |d.fields|) else r.None?
    decreases d, 4, |d.fields| - i
  {
    hide WellFormed, IsMessage, Present, Progress, EncodeField, FieldReadable, FieldEncodable;
    MessageSlots(d, m);
    ReadyAt(d, m, st, i);
    hide Ready;
    if i < |d.fields| {
      var vs, rest := Present(d, m, i), EncodeFrom(d, m, i + 1);
      assert FieldEncodable(d.fields[i], m.slots[i], vs);
      hide Encodable;
      var st' := st;
      if vs == [] {
        AbsentReads(d, m, st, i, rest);
      } else if d.fields[i].rule.Repeated? {
        st' := ArrayReads(d, m, st, i, rest);
      } else {
        AtMostOne(d, m, i);
        st' := SingleReads(d, m, st, i, rest);
      }
      if FieldReadable(d.fields[i], vs) { FieldsRead(d, m, st', i + 1); }
    }
  }

  /** Every field from i on can be read back. */
  ghost predicate ReadableFrom(d: Descriptor, m: Message, i: nat)
    requires |m.slots| == |d.fields| && i <= |d.fields|
  {
    forall j :: i <= j < |d.fields| ==> FieldReadable(d.fields[j], Present(d, m, j))
  }

  lemma AtMostOne(d: Descriptor, m: Message, i: nat)
    requires |m.slots| == |d.fields| && i < |d.fields| && !d.fields[i].rule.Repeated?
    ensures |Present(d, m, i)| <= 1
  {
  }

  lemma AbsentReads(d: Descriptor, m: Message, st: State, i: nat, rest: Bytes)
    requires WellFormed(d) && IsMessage(d, m) && i < |d.fields| && Progress(d, m, st, i) && Present(d, m, i) == []
    ensures FieldRead(d, m, st, st, i, rest) && FieldReadable(d.fields[i], Present(d, m, i))
  {
    FieldAbsent(d, m, st, i);
    hide DecodeFields, Progress, WellFormed, IsMessage, Present;
    assert EncodeField(d.fields[i], []) + rest == rest;
  }

  lemma StartProgress(d: Descriptor, m: Message, start: Message)
    requires |m.slots| == |d.fields| && IsMessage(d, start) && Fresh(d, start)
    ensures Progress(d, m, Start(start), 0)
  {
    hide FreshField, Present;
  }

  lemma EndProgress(d: Descriptor, m: Message, st: State)
    requires |m.slots| == |d.fields| && Progress(d, m, st, |d.fields|)
    ensures FixedFull(d, st) && |st.seen| == MAX_REQUIRED && AllSeen(d, st) && |st.m.slots| == |d.fields|
      && Same(d, m, st.m)
  {
    hide IsMessage, Present, AllSame;
    ReadyAt(d, m, st, |d.fields|);
  }

  /** A submessage is read back into a fresh struct, if it can be. */
  lemma {:induction false} MessageReads(d: Descriptor, m: Message, start: Message)
    requires WellFormed(d) && IsMessage(d, m) && IsMessage(d, start) && Fresh(d, start)
    requires Encodable(d, m) && |EncodeMessage(d, m)| < HUGE
    ensures var r := DecodeMessage(d, start, EncodeMessage(d, m));
      if Readable(d, m) then r.Some? && Same(d, m, r.value) else r.None?
    decreases d, 5
  {
    hide WellFormed, IsMessage, Fresh, Encodable, Progress, Same, AllSeen, FixedFull, FieldReadable, DecodeFields;
    hide Present, Start, EncodeFrom;
    MessageSlots(d, m);
    MessageSlots(d, start);
    StartProgress(d, m, start);
    ReadyAt(d, m, Start(start), 0);
    FieldsRead(d, m, Start(start), 0);
    var r := DecodeFields(d, Start(start), EncodeFrom(d, m, 0));
    if ReadableFrom(d, m, 0) { EndProgress(d, m, r.value); }
  }

  /** pb_decode after pb_encode, into any struct: the same message, if every string in it ends within its buffer and
      every length takes 32 bits, and a refusal otherwise. */
  lemma DecodesWhatWasEncodedIff(d: Descriptor, m: Message, dest: Message)
    requires WellFormed(d) && IsMessage(d, m) && IsMessage(d, dest) && Encodable(d, m) && |EncodeMessage(d, m)| < HUGE
    ensures Decode(d, dest, EncodeMessage(d, m)).Some? <==> Readable(d, m)
    ensures Readable(d, m) ==>
      IsMessage(d, Decode(d, dest, EncodeMessage(d, m)).value) && Same(d, m, Decode(d, dest, EncodeMessage(d, m)).value)
  {
    hide WellFormed, IsMessage, Encodable, Readable, Same, DecodeMessage;
    MessageSlots(d, dest);
    SetFresh(d, dest);
    MessageReads(d, m, SetToDefaults(d, dest));
  }

  lemma SetFresh(d: Descriptor, dest: Message)
    requires WellFormed(d) && IsMessage(d, dest)
    ensures Fresh(d, SetToDefaults(d, dest)) && IsMessage(d, SetToDefaults(d, dest))
  {
    DefaultsHold(d, dest, |d.fields|);
    DefaultsFresh(d, dest, |d.fields|);
  }

  /** A message type with one string of two characters, and a message whose string has no terminating zero. */
  const ONE_STRING := Descriptor([Field(1, Text(2), Required, Raw([0, 0]))], 0)
  const FULL_STRING := Message([One(Raw([65, 66]))], [])

  lemma FullString()
    ensures IsMessage(ONE_STRING, FULL_STRING) && WellFormed(ONE_STRING) && Encodable(ONE_STRING, FULL_STRING)
    ensures Present(ONE_STRING, FULL_STRING, 0) == [Raw([65, 66])] && TextOf([65, 66]) == [65, 66]
  {
    assert TextOf([65, 66][1..]) == [66];
  }

  lemma FullStringBytes()
    ensures |FULL_STRING.slots| == |ONE_STRING.fields| && |EncodeMessage(ONE_STRING, FULL_STRING)| < HUGE
  {
    FullString();
    hide TextOf, Encodable, Readable;
    assert EncodeFrom(ONE_STRING, FULL_STRING, 1) == [];
    OneTagged(ONE_STRING.fields[0], Raw([65, 66]), []);
  }

  lemma FullStringUnreadable()
    ensures |FULL_STRING.slots| == |ONE_STRING.fields| && !Readable(ONE_STRING, FULL_STRING)
  {
    FullString();
    hide Encodable, IsMessage, WellFormed;
    assert !FieldReadable(ONE_STRING.fields[0], Present(ONE_STRING, FULL_STRING, 0)) by {
      assert !ValueReadable(ONE_STRING.fields[0].content, Present(ONE_STRING, FULL_STRING, 0)[0]);
    }
  }

  /** A string that fills its buffer is encoded, and what was encoded is refused. */
  lemma FullStringIsRefused(dest: Message)
    requires WellFormed(ONE_STRING) && IsMessage(ONE_STRING, dest)
    ensures IsMessage(ONE_STRING, FULL_STRING) && Encodable(ONE_STRING, FULL_STRING)
    ensures Decode(ONE_STRING, dest, EncodeMessage(ONE_STRING, FULL_STRING)) == None
  {
    hide *;
    FullString();
    FullStringBytes();
    FullStringUnreadable();
    DecodesWhatWasEncodedIff(ONE_STRING, FULL_STRING, dest);
  }
}
