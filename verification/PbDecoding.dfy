/** What nanopb's decoder makes of any bytes, written into a message struct. */
module PbDecoding {
  import opened Wrappers
  import opened Keys
  import opened Coding
  import opened KeyEncoding
  import opened BlockFormat
  import opened PbWire
  import opened PbMessages

  // ----- a cleared struct, and one set to its defaults -----

  function Zeros(n: nat): (bytes: Bytes)
    ensures |bytes| == n && forall k :: 0 <= k < n ==> bytes[k] == 0
  {
    seq(n, _ => 0)
  }

  function ZeroValue(c: Content): Datum
    decreases c, 0
  {
    match c
    case Boolean => Flag(false)
    case ByteArray(_) => Raw([])
    case Text(size) => Raw(Zeros(size))
    case FixedBytes(size) => Raw(Zeros(size))
    case Submessage(d) => Sub(ZeroMessage(d))
    case _ => Number(0)
  }

  function ZeroSlot(f: Field): Slot
    decreases f, 1
  {
    match f.rule
    case Repeated(max, _) => Many(0, seq(max, _ => ZeroValue(f.content)))
    case Optional(flag) => if flag then Maybe(false, ZeroValue(f.content)) else One(ZeroValue(f.content))
    case _ => One(ZeroValue(f.content))
  }

  function ZeroMessage(d: Descriptor): Message
    decreases d, 2
  {
    Message(seq(|d.fields|, i requires 0 <= i < |d.fields| => ZeroSlot(d.fields[i])), seq(d.groups, _ => 0))
  }

  /** pb_field_set_to_default on field i; the items of an array are left as they are. */
  function DefaultField(d: Descriptor, m: Message, i: nat): Message
    requires |m.slots| == |d.fields| && i < |d.fields|
    decreases d, 1
  {
    var f, s := d.fields[i], m.slots[i];
    match f.rule
    case Repeated(_, fixedCount) => if s.Many? && !fixedCount then m.(slots := m.slots[i := s.(count := 0)]) else m
    case Oneof(g) => if g < |m.which| then m.(which := m.which[g := 0]) else m
    case Optional(flag) =>
      if flag then (if s.Maybe? then m.(slots := m.slots[i := Maybe(false, DefaultValue(f, s.v))]) else m)
      else if s.One? then m.(slots := m.slots[i := One(DefaultValue(f, s.v))])
      else m
    case Required => if s.One? then m.(slots := m.slots[i := One(DefaultValue(f, s.v))]) else m
  }

  function DefaultValue(f: Field, v: Datum): Datum
    decreases f, 0
  {
    if !f.content.Submessage? then f.init
    else if v.Sub? && |v.msg.slots| == |f.content.d.fields| then Sub(Defaults(f.content.d, v.msg, |f.content.d.fields|))
    else v
  }

  /** pb_message_set_to_defaults after n fields. */
  function Defaults(d: Descriptor, m: Message, n: nat): (r: Message)
    requires |m.slots| == |d.fields| && n <= |d.fields|
    ensures |r.slots| == |d.fields|
    decreases d, 2, n
  {
    if n == 0 then m else DefaultField(d, Defaults(d, m, n - 1), n - 1)
  }

  function SetToDefaults(d: Descriptor, m: Message): (r: Message)
    requires |m.slots| == |d.fields|
    ensures |r.slots| == |d.fields|
  {
    Defaults(d, m, |d.fields|)
  }

  // ----- the state of the decoding loop -----

  const MAX_REQUIRED := 64 // PB_MAX_REQUIRED_FIELDS

  /** The struct, the fixed-count array being filled and how far it is, and which required fields have been seen. */
  datatype State = State(m: Message, fixedField: Option<nat>, fixedSize: nat, seen: seq<bool>)

  predicate IsFixed(f: Field) { f.rule.Repeated? && f.rule.fixedCount }

  ghost predicate Ready(d: Descriptor, st: State) {
    && IsMessage(d, st.m) && |st.seen| == MAX_REQUIRED
    && (st.fixedField.Some? ==> st.fixedField.value < |d.fields| && IsFixed(d.fields[st.fixedField.value]))
  }

  function Start(m: Message): State { State(m, None, 0, seq(MAX_REQUIRED, _ => false)) }

  /** The field with this tag, at or after i. */
  function FindFrom(d: Descriptor, tag: nat, i: nat): (r: Option<nat>)
    requires i <= |d.fields|
    ensures r.Some? ==> i <= r.value < |d.fields| && d.fields[r.value].tag == tag
    ensures r.None? ==> forall j :: i <= j < |d.fields| ==> d.fields[j].tag != tag
    decreases |d.fields| - i
  {
    if i == |d.fields| then None else if d.fields[i].tag == tag then Some(i) else FindFrom(d, tag, i + 1)
  }

  function RequiredBefore(d: Descriptor, i: nat): (n: nat)
    requires i <= |d.fields|
    ensures n <= i
  {
    if i == 0 then 0 else RequiredBefore(d, i - 1) + if d.fields[i - 1].rule.Required? then 1 else 0
  }

  /** The fixed-count array that was being filled is full. */
  predicate FixedFull(d: Descriptor, st: State) {
    st.fixedField.Some? && st.fixedField.value < |d.fields| && d.fields[st.fixedField.value].rule.Repeated? ==>
      st.fixedSize == d.fields[st.fixedField.value].rule.max
  }

  /** A tag of field i has been read: it is marked as seen, or it begins a fixed-count array, if the one before is full.
      */
  function Arrive(d: Descriptor, st: State, i: nat): (r: Option<State>)
    requires i < |d.fields| && |st.seen| == MAX_REQUIRED
    ensures r.Some? ==> r.value.m == st.m && |r.value.seen| == MAX_REQUIRED
  {
    var f := d.fields[i];
    if IsFixed(f) && st.fixedField != Some(i) then
      if FixedFull(d, st) then Some(st.(fixedField := Some(i), fixedSize := 0)) else None
    else if f.rule.Required?
      && RequiredBefore(d, i) < MAX_REQUIRED then Some(st.(seen := st.seen[RequiredBefore(d, i) := true]))
    else Some(st)
  }

  /** The storage the next value of field i goes to; none when its array is full. */
  function Target(d: Descriptor, st: State, i: nat): Option<Datum>
    requires |st.m.slots| == |d.fields| && i < |d.fields| && SlotHolds(d.fields[i], st.m.slots[i])
  {
    var f, s := d.fields[i], st.m.slots[i];
    match f.rule
    case Repeated(max, fixedCount) =>
      var count := if fixedCount then st.fixedSize else s.count;
      if count < max then Some(s.items[count]) else None
    case Oneof(g) =>
      if f.content.Submessage? && (g >= |st.m.which| || st.m.which[g] != f.tag) then
        Some(Sub(SetToDefaults(f.content.d, ZeroMessage(f.content.d))))
      else Some(s.v)
    case _ => Some(s.v)
  }

  /** v has been written there. */
  function Stored(d: Descriptor, st: State, i: nat, v: Datum): State
    requires |st.m.slots| == |d.fields| && i < |d.fields| && SlotHolds(d.fields[i], st.m.slots[i])
      && Target(d, st, i).Some?
  {
    var f, s, m := d.fields[i], st.m.slots[i], st.m;
    match f.rule
    case Repeated(_, fixedCount) =>
      if fixedCount then
        st.(m := m.(slots := m.slots[i := Many(s.count, s.items[st.fixedSize := v])]), fixedSize := st.fixedSize + 1)
      else st.(m := m.(slots := m.slots[i := Many(s.count + 1, s.items[s.count := v])]))
    case Optional(flag) => st.(m := m.(slots := m.slots[i := if flag then Maybe(true, v) else One(v)]))
    case Oneof(g) =>
      st.(m := Message(m.slots[i := One(v)], if g < |m.which| then m.which[g := f.tag] else m.which))
    case Required => st.(m := m.(slots := m.slots[i := One(v)]))
  }

  // ----- what it writes is of the right kind -----

  lemma {:induction false} ZeroHolds(c: Content)
    ensures Holds(c, ZeroValue(c))
    decreases c, 0
  {
    if c.Submessage? { ZeroMessageHolds(c.d); }
  }

  lemma {:induction false} ZeroMessageHolds(d: Descriptor)
    ensures IsMessage(d, ZeroMessage(d))
    decreases d, 2
  {
    forall i | 0 <= i < |d.fields|
      ensures SlotHolds(d.fields[i], ZeroSlot(d.fields[i]))
    {
      ZeroHolds(d.fields[i].content);
    }
  }

  lemma {:induction false} DefaultsHold(d: Descriptor, m: Message, n: nat)
    requires WellFormed(d) && IsMessage(d, m) && n <= |d.fields|
    ensures IsMessage(d, Defaults(d, m, n))
    decreases d, 2, n
  {
    if n > 0 {
      DefaultsHold(d, m, n - 1);
      DefaultFieldHolds(d, Defaults(d, m, n - 1), n - 1);
    }
  }

  lemma {:induction false} DefaultFieldHolds(d: Descriptor, m: Message, i: nat)
    requires WellFormed(d) && IsMessage(d, m) && i < |d.fields|
    ensures IsMessage(d, DefaultField(d, m, i))
    decreases d, 1
  {
    var f, s := d.fields[i], m.slots[i];
    assert FieldOk(f, d.groups) && SlotHolds(f, s);
    if !f.rule.Repeated? && !f.rule.Oneof? { DefaultHolds(f, s.v, d.groups); }
    SlotReplaced(d, m, DefaultField(d, m, i), i);
  }

  lemma {:induction false} DefaultHolds(f: Field, v: Datum, groups: nat)
    requires FieldOk(f, groups) && Holds(f.content, v)
    ensures Holds(f.content, DefaultValue(f, v))
    decreases f, 0
  {
    if f.content.Submessage? { DefaultsHold(f.content.d, v.msg, |f.content.d.fields|); }
  }

  /** A struct stays one when a slot of it gets other values of the same kind. */
  lemma SlotReplaced(d: Descriptor, m: Message, m': Message, i: nat)
    requires IsMessage(d, m) && i < |d.fields| && |m'.slots| == |d.fields| && SlotHolds(d.fields[i], m'.slots[i])
    requires forall j :: 0 <= j < |d.fields| && j != i ==> m'.slots[j] == m.slots[j]
    requires |m'.which| == |m.which| && forall g :: 0 <= g < |m.which| ==>
      m'.which[g] == m.which[g] || m'.which[g] == 0 || IsMember(d.fields[i], g, m'.which[g])
    ensures IsMessage(d, m')
  {
    hide SlotHolds;
  }

  lemma ReadySlots(d: Descriptor, st: State)
    requires Ready(d, st)
    ensures |st.m.slots| == |d.fields| && |st.seen| == MAX_REQUIRED
  {
  }

  lemma ArriveReady(d: Descriptor, st: State, i: nat)
    requires Ready(d, st) && i < |d.fields|
    ensures Arrive(d, st, i).Some? ==> Ready(d, Arrive(d, st, i).value)
    ensures Arrive(d, st, i).Some? && IsFixed(d.fields[i]) ==> Arrive(d, st, i).value.fixedField == Some(i)
  {
    hide IsMessage, FixedFull;
  }

  lemma ContentsOk(d: Descriptor, i: nat)
    requires WellFormed(d) && i < |d.fields|
    ensures ContentOk(d.fields[i].content) && (d.fields[i].content.Submessage? ==> WellFormed(d.fields[i].content.d))
  {
    assert FieldOk(d.fields[i], d.groups);
  }

  lemma TargetHolds(d: Descriptor, st: State, i: nat)
    requires WellFormed(d) && Ready(d, st) && i < |d.fields|
    ensures ContentOk(d.fields[i].content) && SlotHolds(d.fields[i], st.m.slots[i])
    ensures Target(d, st, i).Some? ==> Holds(d.fields[i].content, Target(d, st, i).value)
  {
    var f := d.fields[i];
    ContentsOk(d, i);
    hide WellFormed;
    assert SlotHolds(f, st.m.slots[i]);
    if f.content.Submessage? {
      ZeroMessageHolds(f.content.d);
      DefaultsHold(f.content.d, ZeroMessage(f.content.d), |f.content.d.fields|);
    }
  }

  lemma StoredReady(d: Descriptor, st: State, i: nat, v: Datum)
    requires WellFormed(d) && Ready(d, st) && i < |d.fields| && SlotHolds(d.fields[i], st.m.slots[i])
    requires Target(d, st, i).Some? && Holds(d.fields[i].content, v)
    ensures Ready(d, Stored(d, st, i, v))
  {
    hide Holds;
    SlotReplaced(d, st.m, Stored(d, st, i, v).m, i);
  }

  // ----- decoding -----

  /** A length and that many bytes. */
  function SplitString(bytes: Bytes): (r: Read<Bytes>)
    ensures r.Some? ==> |r.value.0| + |r.value.1| < |bytes| && r.value.1 == bytes[|bytes| - |r.value.1|..]
  {
    var n := Varint32(bytes);
    if n.None? || n.value.0 > |n.value.1| then None else Some((n.value.1[..n.value.0], n.value.1[n.value.0..]))
  }

  /** pb_skip_varint. */
  function SkipVarint(bytes: Bytes): (r: Option<Bytes>)
    ensures r.Some? ==> |r.value| < |bytes| && r.value == bytes[|bytes| - |r.value|..]
  {
    if bytes == [] then None else if bytes[0] >= 128 then SkipVarint(bytes[1..]) else Some(bytes[1..])
  }

  /** pb_skip_field. */
  function SkipField(wire: nat, bytes: Bytes): (r: Option<Bytes>)
    ensures r.Some? ==> |r.value| <= |bytes| && r.value == bytes[|bytes| - |r.value|..]
  {
    if wire == WireCode(Varints) then SkipVarint(bytes)
    else if wire == WireCode(Words64) then if |bytes| < 8 then None else Some(bytes[8..])
    else if wire == WireCode(Strings) then var r := SplitString(bytes); if r.None? then None else Some(r.value.1)
    else if wire == WireCode(Words32) then if |bytes| < 4 then None else Some(bytes[4..])
    else None
  }

  /** The number a varint of the content stands for, if the field can hold it. */
  function NumberOf(c: Content, n: nat): (r: Option<int>)
    ensures r.Some? && (c.Varint? || c.Uvarint? || c.Svarint?) ==> Holds(c, Number(r.value))
  {
    match c
    case Varint(w) => NarrowSigned(w, n)
    case Svarint(w) => NarrowZigZag(w, n)
    case Uvarint(w) => if n < Limit(w) then Some(n) else None
    case _ => None
  }

  /** pb_dec_varint, pb_dec_uvarint, pb_dec_svarint. */
  function DecodeNumber(c: Content, bytes: Bytes): (r: Read<Datum>)
    ensures r.Some? && (c.Varint? || c.Uvarint? || c.Svarint?) ==> Holds(c, r.value.0)
    ensures r.Some? ==> |r.value.1| < |bytes| && r.value.1 == bytes[|bytes| - |r.value.1|..]
  {
    var n := Varint64(bytes);
    if n.None? then None
    else
      var i := NumberOf(c, n.value.0);
      if i.None? then None else Some((Number(i.value), n.value.1))
  }

  /** pb_dec_string: the characters and a terminating zero, over the start of the buffer. */
  function DecodeText(size: nat, buffer: Bytes, bytes: Bytes): (r: Read<Bytes>)
    requires |buffer| == size
    ensures r.Some? ==> |r.value.0| == size && |r.value.1| < |bytes| && r.value.1 == bytes[|bytes| - |r.value.1|..]
  {
    var n := Varint32(bytes);
    if n.None? || n.value.0 + 1 > size || n.value.0 > |n.value.1| then None
    else Some((n.value.1[..n.value.0] + [0] + buffer[n.value.0 + 1..], n.value.1[n.value.0..]))
  }

  /** pb_dec_bool to pb_dec_string and pb_dec_fixed_length_bytes: a value that is not a submessage, written over dest.
      */
  function DecodePlain(c: Content, dest: Datum, bytes: Bytes): (r: Read<Datum>)
    requires Holds(c, dest)
    ensures r.Some? ==> Holds(c, r.value.0) && |r.value.1| < |bytes| && r.value.1 == bytes[|bytes| - |r.value.1|..]
  {
    match c
    case Boolean => var r := Varint32(bytes); if r.None? then None else Some((Flag(r.value.0 != 0), r.value.1))
    case Fixed32 => if |bytes| < 4 then None else Some((Number(DecodeFixed32(bytes)), bytes[4..]))
    case Fixed64 => EightBytes(); if |bytes| < 8 then None else Some((Number(DecodeFixed64(bytes[..8])), bytes[8..]))
    case ByteArray(room) =>
      var n := Varint32(bytes);
      if n.None? || n.value.0 > room || n.value.0 > |n.value.1| then None
      else Some((Raw(n.value.1[..n.value.0]), n.value.1[n.value.0..]))
    case Text(size) =>
      var r := DecodeText(size, dest.bytes, bytes);
      if r.None? then None else Some((Raw(r.value.0), r.value.1))
    case FixedBytes(size) =>
      var n := Varint32(bytes);
      if n.None? then None
      else if n.value.0 == 0 then Some((Raw(Zeros(size)), n.value.1))
      else if n.value.0 != size || size > |n.value.1| then None
      else Some((Raw(n.value.1[..size]), n.value.1[size..]))
    case Varint(_) => DecodeNumber(c, bytes)
    case Uvarint(_) => DecodeNumber(c, bytes)
    case Svarint(_) => DecodeNumber(c, bytes)
    case Submessage(_) => None
  }

  /** A value of the content, written over dest; a submessage is added to what is there unless it is a new array item.
      */
  function DecodeValue(c: Content, dest: Datum, isNew: bool, bytes: Bytes): (r: Read<Datum>)
    requires ContentOk(c) && Holds(c, dest)
    ensures r.Some? ==> Holds(c, r.value.0) && |r.value.1| < |bytes| && r.value.1 == bytes[|bytes| - |r.value.1|..]
    decreases |bytes|, 0
  {
    if !c.Submessage? then DecodePlain(c, dest, bytes)
    else
      var s := SplitString(bytes);
      if s.None? then None
      else
        DefaultsHold(c.d, dest.msg, |c.d.fields|);
        var r := DecodeMessage(c.d, if isNew then SetToDefaults(c.d, dest.msg) else dest.msg, s.value.0);
        if r.None? then None else Some((Sub(r.value), s.value.1))
  }

  /** The items of a packed array, from all of bytes. */
  function DecodeItems(d: Descriptor, st: State, i: nat, bytes: Bytes): (r: Option<State>)
    requires WellFormed(d) && Ready(d, st) && i < |d.fields| && Packed(d.fields[i])
    ensures r.Some? ==> Ready(d, r.value) && r.value.seen == st.seen
    decreases |bytes|, 1
  {
    if bytes == [] then Some(st)
    else
      TargetHolds(d, st, i);
      var t := Target(d, st, i);
      if t.None? then None
      else
        var r := DecodeValue(d.fields[i].content, t.value, true, bytes);
        if r.None? then None
        else
          StoredReady(d, st, i, r.value.0);
          DecodeItems(d, Stored(d, st, i, r.value.0), i, r.value.1)
  }

  /** decode_static_field. */
  function DecodeField(d: Descriptor, st: State, i: nat, wire: nat, bytes: Bytes): (r: Option<(State, Bytes)>)
    requires WellFormed(d) && Ready(d, st) && i < |d.fields|
    ensures r.Some? ==> Ready(d, r.value.0) && r.value.0.seen == st.seen
    ensures r.Some? ==> |r.value.1| < |bytes| && r.value.1 == bytes[|bytes| - |r.value.1|..]
    decreases |bytes|, 2
  {
    if wire == WireCode(Strings) && Packed(d.fields[i]) then
      var s := SplitString(bytes);
      if s.None? then None
      else
        var r := DecodeItems(d, st, i, s.value.0);
        if r.None? then None else Some((r.value, s.value.1))
    else
      TargetHolds(d, st, i);
      var t := Target(d, st, i);
      if t.None? then None
      else
        var r := DecodeValue(d.fields[i].content, t.value, d.fields[i].rule.Repeated?, bytes);
        if r.None? then None
        else
          StoredReady(d, st, i, r.value.0);
          Some((Stored(d, st, i, r.value.0), r.value.1))
  }

  /** The loop of pb_decode_noinit. Fields that have no descriptor are skipped; a zero tag ends the message. */
  function DecodeFields(d: Descriptor, st: State, bytes: Bytes): (r: Option<State>)
    requires WellFormed(d) && Ready(d, st)
    ensures r.Some? ==> Ready(d, r.value)
    decreases |bytes|, 3
  {
    match ReadTag(bytes)
    case EndOfMessage => Some(st)
    case Malformed => None
    case Tagged(tag, wire, rest) =>
      var i := FindFrom(d, tag, 0);
      if i.None? then
        var r := SkipUnknown(d, tag, wire, rest);
        if r.None? then None else DecodeFields(d, st, r.value)
      else
        ArriveReady(d, st, i.value);
        var a := Arrive(d, st, i.value);
        if a.None? then None
        else
          var r := DecodeField(d, a.value, i.value, wire, rest);
          if r.None? then None else DecodeFields(d, r.value.0, r.value.1)
  }

  /** A field with no descriptor; in a type without fields the end mark answers to tag 0, and is taken for a boolean. */
  function SkipUnknown(d: Descriptor, tag: nat, wire: nat, bytes: Bytes): (r: Option<Bytes>)
    ensures r.Some? ==> |r.value| <= |bytes| && r.value == bytes[|bytes| - |r.value|..]
  {
    if d.fields == [] && tag == 0 then var r := Varint32(bytes); if r.None? then None else Some(r.value.1)
    else SkipField(wire, bytes)
  }

  /** The required fields that are counted have all been seen. */
  predicate AllSeen(d: Descriptor, st: State)
    requires |st.seen| == MAX_REQUIRED
  {
    forall k :: 0 <= k < RequiredBefore(d, |d.fields|) && k < MAX_REQUIRED ==> st.seen[k]
  }

  /** pb_decode_noinit. */
  function DecodeMessage(d: Descriptor, m: Message, bytes: Bytes): (r: Option<Message>)
    requires WellFormed(d) && IsMessage(d, m)
    ensures r.Some? ==> IsMessage(d, r.value)
    decreases |bytes|, 4
  {
    var r := DecodeFields(d, Start(m), bytes);
    if r.None? || !FixedFull(d, r.value) || !AllSeen(d, r.value) then None else Some(r.value.m)
  }

  /** pb_decode. */
  function Decode(d: Descriptor, m: Message, bytes: Bytes): (r: Option<Message>)
    requires WellFormed(d) && IsMessage(d, m)
    ensures r.Some? ==> IsMessage(d, r.value)
  {
    DefaultsHold(d, m, |d.fields|);
    DecodeMessage(d, SetToDefaults(d, m), bytes)
  }
}
