/** nanopb's field descriptors and the message structs they describe: what is present, what is encoded, and what counts
    as the same message. */
module PbMessages {
  import opened Wrappers
  import opened Keys
  import opened Coding
  import opened KeyEncoding
  import opened BlockFormat
  import opened PbWire

  /** PB_LTYPE, with the width of a number or the room of a buffer; Submessage carries its descriptor. */
  datatype Content =
    | Boolean | Varint(width: Width) | Uvarint(width: Width) | Svarint(width: Width) | Fixed32 | Fixed64
    | ByteArray(room: nat) | Text(size: nat) | Submessage(d: Descriptor) | FixedBytes(size: nat)

  /** PB_HTYPE. A proto3 field is Optional with no has_ flag; a fixed-count array has no count of its own. */
  datatype Rule = Required | Optional(flag: bool) | Repeated(max: nat, fixedCount: bool) | Oneof(group: nat)

  /** pb_field_t of a static field; init is the value it starts with, zero unless the descriptor has another. */
  datatype Field = Field(tag: nat, content: Content, rule: Rule, init: Datum)

  /** The fields of a message type, and how many oneofs it has. */
  datatype Descriptor = Descriptor(fields: seq<Field>, groups: nat)

  datatype Datum = Flag(on: bool) | Number(i: int) | Raw(bytes: Bytes) | Sub(msg: Message)

  /** The storage of one field; an array has all its items, whatever its count. */
  datatype Slot = One(v: Datum) | Maybe(has: bool, v: Datum) | Many(count: nat, items: seq<Datum>)

  /** A message struct: the fields in order, and for every oneof the tag of the member it holds, or 0. */
  datatype Message = Message(slots: seq<Slot>, which: seq<nat>)

  predicate Packable(c: Content) { c.Boolean? || c.Varint? || c.Uvarint? || c.Svarint? || c.Fixed32? || c.Fixed64? }

  predicate Packed(f: Field) { f.rule.Repeated? && Packable(f.content) }

  function WireOf(c: Content): Wire {
    match c
    case Boolean => Varints
    case Varint(_) => Varints
    case Uvarint(_) => Varints
    case Svarint(_) => Varints
    case Fixed32 => Words32
    case Fixed64 => Words64
    case _ => Strings
  }

  // ----- well-formed descriptors and structs -----

  /** Generated descriptors: tags are distinct and of 29 bits, oneofs are numbered, arrays have room, and proto3 fields
      start as zero. */
  ghost predicate WellFormed(d: Descriptor)
    decreases d
  {
    && (forall i :: 0 <= i < |d.fields| ==> FieldOk(d.fields[i], d.groups))
    && (forall i, j :: 0 <= i < j < |d.fields| ==> d.fields[i].tag != d.fields[j].tag)
  }

  ghost predicate FieldOk(f: Field, groups: nat)
    decreases f
  {
    && 0 < f.tag < 0x2000_0000 && ContentOk(f.content) && Holds(f.content, f.init)
    && (f.rule.Oneof? ==> f.rule.group < groups) && (f.rule.Repeated? ==> f.rule.max > 0)
    && (f.rule == Optional(false) && !f.content.Submessage? ==> IsZero(f.content, f.init))
  }

  ghost predicate ContentOk(c: Content)
    decreases c
  {
    match c
    case Submessage(d) => WellFormed(d)
    case Text(size) => size > 0
    case _ => true
  }

  /** v is a value the storage of such a field can hold. */
  ghost predicate Holds(c: Content, v: Datum)
    decreases c, 0
  {
    match c
    case Boolean => v.Flag?
    case Varint(w) => v.Number? && Signed(w, v.i)
    case Uvarint(w) => v.Number? && 0 <= v.i < Limit(w)
    case Svarint(w) => v.Number? && Signed(w, v.i)
    case Fixed32 => v.Number? && 0 <= v.i < LIMIT32
    case Fixed64 => v.Number? && 0 <= v.i < LIMIT64
    case ByteArray(_) => v.Raw?
    case Text(size) => v.Raw? && |v.bytes| == size
    case Submessage(d) => v.Sub? && IsMessage(d, v.msg)
    case FixedBytes(size) => v.Raw? && |v.bytes| == size
  }

  ghost predicate IsMessage(d: Descriptor, m: Message)
    decreases d, 2
  {
    && |m.slots| == |d.fields| && |m.which| == d.groups
    && (forall i :: 0 <= i < |d.fields| ==> SlotHolds(d.fields[i], m.slots[i]))
    && (forall g :: 0 <= g < d.groups && m.which[g] != 0 ==>
         exists i :: 0 <= i < |d.fields| && IsMember(d.fields[i], g, m.which[g]))
  }

  predicate IsMember(f: Field, g: nat, tag: nat) { f.rule == Oneof(g) && f.tag == tag }

  ghost predicate SlotHolds(f: Field, s: Slot)
    decreases f, 1
  {
    match f.rule
    case Repeated(max, fixed) =>
      s.Many? && |s.items| == max && forall k :: 0 <= k < |s.items| ==> Holds(f.content, s.items[k])
    case Optional(flag) => (if flag then s.Maybe? else s.One?) && Holds(f.content, s.v)
    case _ => s.One? && Holds(f.content, s.v)
  }

  lemma MessageSlots(d: Descriptor, m: Message)
    requires IsMessage(d, m)
    ensures |m.slots| == |d.fields|
  {
  }

  /** The characters before the terminating zero, or all of them. */
  function TextOf(buffer: Bytes): (t: Bytes)
    ensures |t| <= |buffer| && t == buffer[..|t|] && 0 !in t && (|t| < |buffer| ==> buffer[|t|] == 0)
  {
    if buffer == [] || buffer[0] == 0 then [] else [buffer[0]] + TextOf(buffer[1..])
  }

  /** All bytes zero, for content that is a number or a buffer. */
  predicate IsZero(c: Content, v: Datum) {
    match v
    case Flag(on) => !on
    case Number(i) => i == 0
    case Raw(bytes) => if c.ByteArray? then bytes == [] else forall k :: 0 <= k < |bytes| ==> bytes[k] == 0
    case Sub(_) => false
  }

  // ----- presence -----

  /** pb_check_proto3_default_value. */
  predicate IsDefault(d: Descriptor, m: Message, i: nat)
    requires |m.slots| == |d.fields| && i < |d.fields|
    decreases d, 1
  {
    var f, s := d.fields[i], m.slots[i];
    match f.rule
    case Required => false
    case Repeated(_, fixedCount) => !fixedCount && s.Many? && s.count == 0
    case Oneof(g) => g < |m.which| && m.which[g] == 0
    case Optional(flag) => if flag then s.Maybe? && !s.has else s.One? && EmptyValue(f.content, s.v)
  }

  /** The same for a value that has nothing that says whether it is there. */
  predicate EmptyValue(c: Content, v: Datum)
    decreases c, 0
  {
    match c
    case ByteArray(_) => v.Raw? && v.bytes == []
    case Text(_) => v.Raw? && v.bytes != [] && v.bytes[0] == 0
    case FixedBytes(size) => size == 0
    case Submessage(d) =>
      v.Sub? && |v.msg.slots| == |d.fields| && forall i :: 0 <= i < |d.fields| ==> IsDefault(d, v.msg, i)
    case _ => IsZero(c, v)
  }

  /** How many items an array says it has. */
  function CountOf(f: Field, s: Slot): nat
    requires f.rule.Repeated? && s.Many?
  {
    if f.rule.fixedCount then f.rule.max else s.count
  }

  /** The values of field i that are there to be encoded, in order. */
  function Present(d: Descriptor, m: Message, i: nat): seq<Datum>
    requires |m.slots| == |d.fields| && i < |d.fields|
  {
    var f, s := d.fields[i], m.slots[i];
    match f.rule
    case Required => if s.One? then [s.v] else []
    case Optional(flag) =>
      if flag then (if s.Maybe? && s.has then [s.v] else []) else if s.One? && !IsDefault(d, m, i) then [s.v] else []
    case Repeated(max, _) =>
      if s.Many? then s.items[..if CountOf(f, s) <= |s.items| then CountOf(f, s) else |s.items|] else []
    case Oneof(g) => if g < |m.which| && m.which[g] == f.tag && s.One? then [s.v] else []
  }

  // ----- what the encoder writes -----

  function EncodeValue(c: Content, v: Datum): Bytes
    decreases c, 0, 0
  {
    match v
    case Flag(on) => EncodeVarint(if on then 1 else 0)
    case Number(i) => EncodeNumber(c, i)
    case Raw(bytes) => var t := if c.Text? then TextOf(bytes) else bytes; EncodeVarint(|t|) + t
    case Sub(m) =>
      if c.Submessage? && |m.slots| == |c.d.fields| then var e := EncodeMessage(c.d, m); EncodeVarint(|e|) + e else []
  }

  function EncodeNumber(c: Content, i: int): Bytes {
    match c
    case Svarint(_) => EncodeVarint(ZigZag(i))
    case Fixed32 => EncodeFixed32(i % LIMIT32)
    case Fixed64 => EncodeFixed64(i % LIMIT64, 8)
    case _ => EncodeVarint(i % LIMIT64)
  }

  /** The items of a packed array. */
  function EncodeItems(c: Content, vs: seq<Datum>): Bytes
    decreases c, 1, |vs|
  {
    if vs == [] then [] else EncodeValue(c, vs[0]) + EncodeItems(c, vs[1..])
  }

  /** Values each with the field's tag. */
  function EncodeTagged(f: Field, vs: seq<Datum>): Bytes
    decreases f, 0, |vs|
  {
    if vs == [] then []
    else TagBytes(f.tag, WireOf(f.content)) + EncodeValue(f.content, vs[0]) + EncodeTagged(f, vs[1..])
  }

  function EncodeField(f: Field, vs: seq<Datum>): Bytes
    decreases f, 1, 0
  {
    if !Packed(f) then EncodeTagged(f, vs)
    else if vs == [] then []
    else var items := EncodeItems(f.content, vs); TagBytes(f.tag, Strings) + EncodeVarint(|items|) + items
  }

  /** The fields from field i on. */
  function EncodeFrom(d: Descriptor, m: Message, i: nat): Bytes
    requires |m.slots| == |d.fields| && i <= |d.fields|
    decreases d, 0, |d.fields| - i
  {
    if i == |d.fields| then [] else EncodeField(d.fields[i], Present(d, m, i)) + EncodeFrom(d, m, i + 1)
  }

  function EncodeMessage(d: Descriptor, m: Message): Bytes
    requires |m.slots| == |d.fields|
    decreases d, 1, 0
  {
    EncodeFrom(d, m, 0)
  }

  // ----- when encoding succeeds, and when what it wrote can be read back -----

  /** No array count and no byte count of a present value exceeds its room. */
  ghost predicate Encodable(d: Descriptor, m: Message)
    requires |m.slots| == |d.fields|
    decreases d, 2
  {
    forall i :: 0 <= i < |d.fields| ==> FieldEncodable(d.fields[i], m.slots[i], Present(d, m, i))
  }

  ghost predicate FieldEncodable(f: Field, s: Slot, vs: seq<Datum>)
    decreases f, 1
  {
    && (f.rule.Repeated? && s.Many? ==> CountOf(f, s) <= f.rule.max)
    && forall k :: 0 <= k < |vs| ==> ValueEncodable(f.content, vs[k])
  }

  ghost predicate ValueEncodable(c: Content, v: Datum)
    decreases c, 0
  {
    match c
    case ByteArray(room) => v.Raw? && |v.bytes| <= room
    case Submessage(d) => v.Sub? && |v.msg.slots| == |d.fields| && Encodable(d, v.msg)
    case _ => true
  }

  /** Every string that is encoded ends within its buffer, and every length takes 32 bits. */
  ghost predicate Readable(d: Descriptor, m: Message)
    requires |m.slots| == |d.fields|
    decreases d, 2
  {
    forall i :: 0 <= i < |d.fields| ==> FieldReadable(d.fields[i], Present(d, m, i))
  }

  ghost predicate FieldReadable(f: Field, vs: seq<Datum>)
    decreases f, 1
  {
    if Packed(f) then |EncodeItems(f.content, vs)| < LIMIT32
    else forall k :: 0 <= k < |vs| ==> ValueReadable(f.content, vs[k])
  }

  ghost predicate ValueReadable(c: Content, v: Datum)
    decreases c, 0
  {
    match c
    case ByteArray(_) => v.Raw? && |v.bytes| < LIMIT32
    case FixedBytes(_) => v.Raw? && |v.bytes| < LIMIT32
    case Text(size) => v.Raw? && |TextOf(v.bytes)| < size && |TextOf(v.bytes)| < LIMIT32
    case Submessage(d) =>
      v.Sub? && |v.msg.slots| == |d.fields| && Readable(d, v.msg) && |EncodeMessage(d, v.msg)| < LIMIT32
    case _ => true
  }

  // ----- the same message -----

  /** The same fields are present in a and b, with the same values. */
  ghost predicate Same(d: Descriptor, a: Message, b: Message)
    requires |a.slots| == |d.fields| && |b.slots| == |d.fields|
    decreases d, 2
  {
    forall i :: 0 <= i < |d.fields| ==> AllSame(d.fields[i].content, Present(d, a, i), Present(d, b, i))
  }

  ghost predicate AllSame(c: Content, vs: seq<Datum>, ws: seq<Datum>)
    decreases c, 1
  {
    |vs| == |ws| && forall k :: 0 <= k < |vs| ==> ValueSame(c, vs[k], ws[k])
  }

  ghost predicate ValueSame(c: Content, v: Datum, w: Datum)
    decreases c, 0
  {
    match c
    case Text(_) => v.Raw? && w.Raw? && TextOf(v.bytes) == TextOf(w.bytes)
    case Submessage(d) => v.Sub? && w.Sub? && |v.msg.slots| == |d.fields| == |w.msg.slots| && Same(d, v.msg, w.msg)
    case _ => v == w
  }
}
