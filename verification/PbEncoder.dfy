/** nanopb's encoder: one pass counts the bytes of a submessage or packed array, a second writes exactly as many. */
module PbEncoder {
  import opened Wrappers
  import opened Keys
  import opened Coding
  import opened KeyEncoding
  import opened BlockFormat
  import opened PbWire
  import opened PbMessages

  datatype Error = StreamFull | ArrayTooLong | BytesTooLong | SizeChanged

  datatype Outcome = Done | Failed(error: Error)

  lemma {:induction false} FixedItems(c: Content, vs: seq<Datum>)
    requires c.Fixed32? || c.Fixed64?
    requires forall k :: 0 <= k < |vs| ==> Holds(c, vs[k])
    ensures |EncodeItems(c, vs)| == (if c.Fixed32? then 4 else 8) * |vs|
  {
    if vs != [] {
      FixedItems(c, vs[1..]);
      assert Holds(c, vs[0]);
    }
  }

  lemma PlainNumber(c: Content, v: Datum)
    requires Packable(c)
    ensures ContentOk(c) && ValueEncodable(c, v)
  {
  }

  lemma ItemsFrom(c: Content, vs: seq<Datum>, k: nat)
    requires k < |vs|
    ensures EncodeItems(c, vs[k..]) == EncodeValue(c, vs[k]) + EncodeItems(c, vs[k + 1..])
  {
    assert vs[k..][1..] == vs[k + 1..];
  }

  lemma TaggedFrom(f: Field, vs: seq<Datum>, k: nat)
    requires k < |vs| && !Packed(f)
    ensures EncodeTagged(f, vs[k..]) == EncodeField(f, [vs[k]]) + EncodeTagged(f, vs[k + 1..])
  {
    assert vs[k..][1..] == vs[k + 1..];
    assert EncodeTagged(f, [vs[k]][1..]) == [];
  }

  lemma FieldsFrom(d: Descriptor, m: Message, i: nat)
    requires |m.slots| == |d.fields| && i < |d.fields|
    ensures EncodeFrom(d, m, i) == EncodeField(d.fields[i], Present(d, m, i)) + EncodeFrom(d, m, i + 1)
  {
  }

  lemma ItemsEnd(c: Content, vs: seq<Datum>)
    ensures EncodeItems(c, vs[|vs|..]) == []
  {
  }

  /** The stream with the head of the bytes to write, and the tail still to come. */
  lemma Onward(out: Bytes, head: Bytes, tail: Bytes)
    ensures out + (head + tail) == out + head + tail
  {
  }

  ghost predicate AllEncodable(c: Content, vs: seq<Datum>) { forall k :: 0 <= k < |vs| ==> ValueEncodable(c, vs[k]) }

  // ----- what is left out -----

  /** Nothing of the value would be missed if the field were left out: a submessage writes nothing, and any other value
      is read as the initial one, but for an array of bytes of fixed length, which is always written. */
  ghost predicate NotMissed(f: Field, v: Datum)
    requires Holds(f.content, v)
  {
    match f.content
    case Submessage(sub) => |v.msg.slots| == |sub.fields| && EncodeMessage(sub, v.msg) == []
    case FixedBytes(size) => size == 0
    case _ => ValueSame(f.content, v, f.init)
  }

  lemma {:induction false} WritesNothing(d: Descriptor, m: Message, i: nat)
    requires |m.slots| == |d.fields| && i <= |d.fields|
    ensures EncodeFrom(d, m, i) == [] <==> forall j :: i <= j < |d.fields| ==> Present(d, m, j) == []
    decreases |d.fields| - i
  {
    if i < |d.fields| {
      WritesNothing(d, m, i + 1);
      WrittenValues(d.fields[i], Present(d, m, i));
    }
  }

  lemma WrittenValues(f: Field, vs: seq<Datum>)
    ensures EncodeField(f, vs) == [] <==> vs == []
  {
  }

  /** A field is default if it has no value to write, and its oneof has none either. */
  lemma DefaultPresent(d: Descriptor, m: Message, i: nat)
    requires WellFormed(d) && IsMessage(d, m) && i < |d.fields|
    ensures IsDefault(d, m, i) ==> Present(d, m, i) == []
    ensures !IsDefault(d, m, i) && !d.fields[i].rule.Oneof? ==> Present(d, m, i) != []
    ensures !IsDefault(d, m, i) && d.fields[i].rule.Oneof? ==> exists j :: 0 <= j < |d.fields| && Present(d, m, j) != []
  {
    var f, s := d.fields[i], m.slots[i];
    assert FieldOk(f, d.groups) && SlotHolds(f, s);
    if !IsDefault(d, m, i) && f.rule.Oneof? {
      var g := f.rule.group;
      var j :| 0 <= j < |d.fields| && IsMember(d.fields[j], g, m.which[g]);
      assert SlotHolds(d.fields[j], m.slots[j]);
      assert Present(d, m, j) != [];
    }
  }

  /** A submessage is default, every field of it that is, exactly when it is encoded as no bytes. */
  lemma DefaultsIff(d: Descriptor, m: Message)
    requires WellFormed(d) && IsMessage(d, m)
    ensures EmptyValue(Submessage(d), Sub(m)) <==> EncodeMessage(d, m) == []
  {
    hide WellFormed, IsMessage, EncodeField;
    MessageSlots(d, m);
    WritesNothing(d, m, 0);
    if EncodeMessage(d, m) == [] {
      forall i | 0 <= i < |d.fields| ensures IsDefault(d, m, i) { DefaultPresent(d, m, i); }
    } else {
      var i :| 0 <= i < |d.fields| && Present(d, m, i) != [];
      DefaultPresent(d, m, i);
      assert !IsDefault(d, m, i);
      assert !EmptyValue(Submessage(d), Sub(m));
    }
  }

  /** A proto3 field is default exactly when nothing of it would be missed. */
  lemma DefaultIff(d: Descriptor, m: Message, i: nat)
    requires WellFormed(d) && IsMessage(d, m) && i < |d.fields| && d.fields[i].rule == Optional(false)
    ensures SlotHolds(d.fields[i], m.slots[i]) && (IsDefault(d, m, i) <==> NotMissed(d.fields[i], m.slots[i].v))
  {
    var f, v := d.fields[i], m.slots[i].v;
    assert FieldOk(f, d.groups) && SlotHolds(f, m.slots[i]);
    EmptyIff(f, d.groups, v);
  }

  lemma EmptyIff(f: Field, groups: nat, v: Datum)
    requires FieldOk(f, groups) && Holds(f.content, v) && f.rule == Optional(false)
    ensures EmptyValue(f.content, v) <==> NotMissed(f, v)
  {
    hide WellFormed, IsMessage, EncodeMessage;
    match f.content
    case Submessage(sub) =>
      assert ContentOk(f.content) && v.Sub?;
      MessageSlots(sub, v.msg);
      DefaultsIff(sub, v.msg);
      assert v == Sub(v.msg);
    case Text(size) =>
      assert ContentOk(f.content) && IsZero(f.content, f.init);
      FirstZero(v.bytes);
      FirstZero(f.init.bytes);
    case _ =>
  }

  lemma FirstZero(buffer: Bytes)
    ensures TextOf(buffer) == [] <==> buffer == [] || buffer[0] == 0
  {
  }

  /** The next byte of a varint, with the bit that says more follow. */
  lemma MoreOfVarint(n: nat, buffer: Bytes, rest: nat)
    requires rest > 0 && buffer + EncodeVarint(rest) == EncodeVarint(n)
    ensures var more := buffer + [rest % 128 + 128];
      more[..|more| - 1] == buffer && more[|more| - 1] == rest % 128 + 128
    ensures rest >= 128 ==> buffer + [rest % 128 + 128] + EncodeVarint(rest / 128) == EncodeVarint(n)
    ensures rest < 128 ==> buffer + [rest % 128 + 128 - 128] == EncodeVarint(n)
  {
    if rest >= 128 { assert buffer + [rest % 128 + 128] + EncodeVarint(rest / 128) == buffer + EncodeVarint(rest); }
  }

  /** pb_ostream_t: a stream that writes at most max bytes, or one that only counts them. */
  class OStream {
    const sizing: bool
    const max: nat
    var out: Bytes   // what the callback has been given
    var written: nat

    constructor (sizing: bool, max: nat, out: Bytes)
      ensures this.sizing == sizing && this.max == max && this.out == out && written == 0 && Valid()
    {
      this.sizing, this.max, this.out, written := sizing, max, out, 0;
    }

    ghost predicate Valid()
      reads this
    {
      sizing || written <= max
    }

    ghost predicate Fits(n: nat)
      reads this
    {
      sizing || n == 0 || written + n <= max
    }

    /** The stream after n more bytes, or these when it writes. */
    twostate predicate Appended(bytes: Bytes)
      reads this
    {
      Valid() && written == old(written) + |bytes| && out == if sizing then old(out) else old(out) + bytes
    }

    /** pb_write. */
    method Write(bytes: Bytes) returns (e: Outcome)
      requires Valid()
      modifies this
      ensures e.Done? <==> old(Fits(|bytes|))
      ensures e.Done? ==> Appended(bytes)
      ensures e.Failed? ==> e.error != SizeChanged
    {
      if |bytes| > 0 && !sizing {
        if written + |bytes| > max { return Failed(StreamFull); }
        out := out + bytes;
      }
      written := written + |bytes|;
      e := Done;
    }

    /** pb_write of bytes that are only counted. */
    method Count(ghost bytes: Bytes, n: nat) returns (e: Outcome)
      requires Valid() && sizing && n == |bytes|
      modifies this
      ensures e.Done? && Appended(bytes)
    {
      written := written + n;
      e := Done;
    }

    /** The buffer that pb_encode_varint fills. */
    static method VarintBytes(n: nat) returns (buffer: Bytes)
      ensures buffer == EncodeVarint(n)
    {
      if n <= 0x7f { return [n]; }
      var rest: nat := n;
      buffer := [];
      hide EncodeVarint;
      while rest != 0
        invariant rest > 0 ==> buffer + EncodeVarint(rest) == EncodeVarint(n)
        invariant rest == 0 ==> buffer != [] && buffer[|buffer| - 1] >= 128
        invariant rest == 0 ==> buffer[..|buffer| - 1] + [buffer[|buffer| - 1] - 128] == EncodeVarint(n)
        decreases rest
      {
        MoreOfVarint(n, buffer, rest);
        buffer := buffer + [rest % 128 + 128];
        rest := rest / 128;
      }
      buffer := buffer[|buffer| - 1 := buffer[|buffer| - 1] - 128];
    }

    /** pb_encode_varint. */
    method WriteVarint(n: nat) returns (e: Outcome)
      requires Valid()
      modifies this
      ensures e.Done? <==> old(Fits(|EncodeVarint(n)|))
      ensures e.Done? ==> Appended(EncodeVarint(n))
      ensures e.Failed? ==> e.error != SizeChanged
    {
      var buffer := VarintBytes(n);
      e := Write(buffer);
    }

    /** pb_encode_tag. */
    method WriteTag(tag: nat, w: Wire) returns (e: Outcome)
      requires Valid()
      modifies this
      ensures e.Done? <==> old(Fits(|TagBytes(tag, w)|))
      ensures e.Done? ==> Appended(TagBytes(tag, w))
      ensures e.Failed? ==> e.error != SizeChanged
    {
      e := WriteVarint(tag * 8 + WireCode(w));
    }

    /** pb_encode_string. */
    method WriteString(bytes: Bytes) returns (e: Outcome)
      requires Valid()
      modifies this
      ensures e.Done? <==> old(Fits(|EncodeVarint(|bytes|) + bytes|))
      ensures e.Done? ==> Appended(EncodeVarint(|bytes|) + bytes)
      ensures e.Failed? ==> e.error != SizeChanged
    {
      e := WriteVarint(|bytes|);
      if e.Failed? { return; }
      e := Write(bytes);
    }

    /** How far a string goes in its buffer. */
    static method StringLength(buffer: Bytes) returns (n: nat)
      ensures n == |TextOf(buffer)|
    {
      n := 0;
      while n < |buffer| && buffer[n] != 0
        invariant n <= |buffer| && |TextOf(buffer)| == n + |TextOf(buffer[n..])|
      {
        assert buffer[n..][1..] == buffer[n + 1..];
        n := n + 1;
      }
    }

    /** pb_check_proto3_default_value. */
    static method CheckDefault(d: Descriptor, m: Message, i: nat) returns (r: bool)
      requires WellFormed(d) && IsMessage(d, m) && i < |d.fields|
      ensures r == IsDefault(d, m, i)
      ensures d.fields[i].rule == Optional(false) ==>
        SlotHolds(d.fields[i], m.slots[i]) && (r <==> NotMissed(d.fields[i], m.slots[i].v))
      decreases d, 0
    {
      var f, s := d.fields[i], m.slots[i];
      assert FieldOk(f, d.groups) && ContentOk(f.content) && SlotHolds(f, s);
      if f.rule == Optional(false) { DefaultIff(d, m, i); }
      match f.rule
      case Required => r := false;
      case Repeated(_, fixedCount) => r := !fixedCount && s.count == 0;
      case Oneof(g) => r := m.which[g] == 0;
      case Optional(true) => r := !s.has;
      case Optional(false) =>
        match f.content
        case ByteArray(_) => r := s.v.bytes == [];
        case Text(_) => r := s.v.bytes[0] == 0;
        case FixedBytes(size) => r := size == 0;
        case Submessage(sub) => r := CheckAllDefault(sub, s.v.msg);
        case Boolean => r := !s.v.on;
        case _ => r := s.v.i == 0;
    }

    /** Whether none of the fields of a proto3 submessage is set. */
    static method CheckAllDefault(d: Descriptor, m: Message) returns (r: bool)
      requires WellFormed(d) && IsMessage(d, m)
      ensures r == EmptyValue(Submessage(d), Sub(m))
      ensures |m.slots| == |d.fields| && (r <==> EncodeMessage(d, m) == [])
      decreases d, 1
    {
      hide WellFormed, IsMessage, IsDefault, Present;
      MessageSlots(d, m);
      DefaultsIff(d, m);
      WritesNothing(d, m, 0);
      assert EncodeMessage(d, m) == EncodeFrom(d, m, 0);
      hide EncodeMessage, EncodeFrom, EmptyValue;
      var k := 0;
      r := true;
      while r && k < |d.fields|
        invariant k <= |d.fields|
        invariant r ==> forall j :: 0 <= j < k ==> Present(d, m, j) == []
        invariant !r ==> EncodeMessage(d, m) != []
      {
        r := CheckDefault(d, m, k);
        DefaultPresent(d, m, k);
        k := k + 1;
      }
    }

    /** The sizing stream. */
    static method Sizing() returns (s: OStream)
      ensures fresh(s) && s.sizing && s.written == 0 && s.Valid()
    {
      s := new OStream(true, 0, []);
    }

    /** pb_encode_submessage: the first pass counts, the second writes into exactly that many bytes. */
    method EncodeSubmessage(d: Descriptor, m: Message) returns (e: Outcome)
      requires Valid() && WellFormed(d) && IsMessage(d, m)
      modifies this
      ensures |m.slots| == |d.fields|
      ensures var bytes := EncodeMessage(d, m);
        e.Done? <==> Encodable(d, m) && old(Fits(|EncodeVarint(|bytes|) + bytes|))
      ensures var bytes := EncodeMessage(d, m); e.Done? ==> Appended(EncodeVarint(|bytes|) + bytes)
      ensures e.Failed? ==> e.error != SizeChanged
      decreases d, 3, 0
    {
      hide WellFormed, IsMessage, Encodable, EncodeMessage, EncodeVarint;
      MessageSlots(d, m);
      ghost var bytes := EncodeMessage(d, m);
      var sub := Sizing();
      e := sub.Encode(d, m);
      if e.Failed? { return; }
      var size := sub.written;
      e := WriteVarint(size);
      if e.Failed? { return; }
      if sizing {
        e := Count(bytes, size);
        return;
      }
      if written + size > max { return Failed(StreamFull); }
      sub := new OStream(sizing, size, out);
      var status := sub.Encode(d, m);
      written := written + sub.written;
      out := sub.out;
      e := if sub.written != size then Failed(SizeChanged) else status;
    }

    /** The encoder of one value: pb_enc_*. */
    method EncodeDatum(c: Content, v: Datum) returns (e: Outcome)
      requires Valid() && ContentOk(c) && Holds(c, v)
      modifies this
      ensures e.Done? <==> ValueEncodable(c, v) && old(Fits(|EncodeValue(c, v)|))
      ensures e.Done? ==> Appended(EncodeValue(c, v))
      ensures e.Failed? ==> e.error != SizeChanged
      decreases c, 0, 0
    {
      match c
      case Boolean => e := WriteVarint(if v.on then 1 else 0);
      case Varint(_) => e := WriteVarint(v.i % LIMIT64);
      case Uvarint(_) => e := WriteVarint(v.i % LIMIT64);
      case Svarint(_) => e := WriteVarint(ZigZag(v.i));
      case Fixed32 => e := Write(EncodeFixed32(v.i % LIMIT32));
      case Fixed64 => e := Write(EncodeFixed64(v.i % LIMIT64, 8));
      case ByteArray(room) =>
        if |v.bytes| > room { return Failed(BytesTooLong); }
        e := WriteString(v.bytes);
      case Text(_) =>
        var n := StringLength(v.bytes);
        e := WriteString(v.bytes[..n]);
      case FixedBytes(_) => e := WriteString(v.bytes);
      case Submessage(d) => e := EncodeSubmessage(d, v.msg);
    }

    /** How many bytes the items of a packed array take. */
    method PackedSize(f: Field, items: seq<Datum>) returns (e: Outcome, size: nat)
      requires ContentOk(f.content) && Packable(f.content)
        && forall k :: 0 <= k < |items| ==> Holds(f.content, items[k])
      ensures e.Done? && size == |EncodeItems(f.content, items)|
      decreases f, 0, 0
    {
      var c := f.content;
      e := Done;
      if c.Fixed32? || c.Fixed64? {
        FixedItems(c, items);
        size := (if c.Fixed32? then 4 else 8) * |items|;
        return;
      }
      var sub := Sizing();
      var k := 0;
      while k < |items|
        invariant k <= |items| && fresh(sub) && sub.sizing && e.Done?
        invariant sub.written + |EncodeItems(c, items[k..])| == |EncodeItems(c, items)|
      {
        ItemsFrom(c, items, k);
        e := sub.EncodeDatum(c, items[k]);
        k := k + 1;
      }
      size := sub.written;
    }

    /** pb_encode. */
    method Encode(d: Descriptor, m: Message) returns (e: Outcome)
      requires Valid() && WellFormed(d) && IsMessage(d, m)
      modifies this
      ensures |m.slots| == |d.fields|
      ensures e.Done? <==> Encodable(d, m) && old(Fits(|EncodeMessage(d, m)|))
      ensures e.Done? ==> Appended(EncodeMessage(d, m))
      ensures e.Failed? ==> e.error != SizeChanged
      decreases d, 2, 0
    {
      hide WellFormed, IsMessage, Present, FieldEncodable, EncodeField;
      MessageSlots(d, m);
      assert EncodeFrom(d, m, |d.fields|) == [];
      hide EncodeFrom;
      var i := 0;
      while i < |d.fields|
        invariant i <= |d.fields| && Valid()
        invariant forall j :: 0 <= j < i ==> FieldEncodable(d.fields[j], m.slots[j], Present(d, m, j))
        invariant written + |EncodeFrom(d, m, i)| == old(written) + |EncodeMessage(d, m)|
        invariant Given(out, EncodeFrom(d, m, i)) == Given(old(out), EncodeMessage(d, m))
      {
        FieldsFrom(d, m, i);
        Onward(out, EncodeField(d.fields[i], Present(d, m, i)), EncodeFrom(d, m, i + 1));
        e := EncodeBasicField(d, m, i);
        if e.Failed? { return; }
        i := i + 1;
      }
      e := Done;
    }

    /** A tag and a value. */
    method EncodeOne(f: Field, v: Datum) returns (e: Outcome)
      requires Valid() && ContentOk(f.content) && Holds(f.content, v) && !Packed(f)
      modifies this
      ensures e.Done? <==> ValueEncodable(f.content, v) && old(Fits(|EncodeField(f, [v])|))
      ensures e.Done? ==> Appended(EncodeField(f, [v]))
      ensures e.Failed? ==> e.error != SizeChanged
      decreases f, 1, 0
    {
      hide EncodeValue, TagBytes, ValueEncodable;
      assert EncodeTagged(f, [v][1..]) == [];
      e := WriteTag(f.tag, WireOf(f.content));
      if e.Failed? { return; }
      e := EncodeDatum(f.content, v);
    }

    /** encode_array: packed if the content allows it, otherwise every item with a tag of its own. */
    method EncodeArray(f: Field, items: seq<Datum>, count: nat) returns (e: Outcome)
      requires Valid() && f.rule.Repeated? && |items| == f.rule.max && ContentOk(f.content)
      requires forall k :: 0 <= k < |items| ==> Holds(f.content, items[k])
      modifies this
      ensures count > |items| ==> e == Failed(ArrayTooLong)
      ensures count <= |items| ==>
        (e.Done? <==> AllEncodable(f.content, items[..count]) && old(Fits(|EncodeField(f, items[..count])|)))
      ensures e.Done? ==> count <= |items| && Appended(EncodeField(f, items[..count]))
      ensures e.Failed? ==> e.error != SizeChanged
      decreases f, 3, 0
    {
      hide EncodeValue, TagBytes, ValueEncodable;
      if count == 0 { return Done; }
      if count > f.rule.max { return Failed(ArrayTooLong); }
      var vs := items[..count];
      if Packable(f.content) { e := EncodePacked(f, vs); } else { e := EncodeUnpacked(f, vs); }
    }

    method EncodePacked(f: Field, vs: seq<Datum>) returns (e: Outcome)
      requires Valid() && Packed(f) && vs != [] && ContentOk(f.content)
        && forall k :: 0 <= k < |vs| ==> Holds(f.content, vs[k])
      modifies this
      ensures AllEncodable(f.content, vs) && (e.Done? <==> old(Fits(|EncodeField(f, vs)|)))
      ensures e.Done? ==> Appended(EncodeField(f, vs))
      ensures e.Failed? ==> e.error != SizeChanged
      decreases f, 1, 0
    {
      hide TagBytes, EncodeVarint, EncodeValue, EncodeItems;
      var c := f.content;
      ghost var bytes := EncodeItems(c, vs);
      e := WriteTag(f.tag, Strings);
      if e.Failed? { return; }
      var size;
      e, size := PackedSize(f, vs);
      e := WriteVarint(size);
      if e.Failed? { return; }
      if sizing {
        e := Count(bytes, size);
        return;
      }
      e := EncodeEach(c, vs);
    }

    /** The items of a packed array, one after the other. */
    method EncodeEach(c: Content, vs: seq<Datum>) returns (e: Outcome)
      requires Valid() && Packable(c) && forall k :: 0 <= k < |vs| ==> Holds(c, vs[k])
      modifies this
      ensures e.Done? <==> old(Fits(|EncodeItems(c, vs)|))
      ensures e.Done? ==> Appended(EncodeItems(c, vs))
      ensures e.Failed? ==> e.error != SizeChanged
      decreases c, 1, 0
    {
      hide EncodeValue, EncodeItems, ValueEncodable, ContentOk, Holds;
      ItemsEnd(c, vs);
      assert vs[0..] == vs;
      var k := 0;
      e := Done;
      while k < |vs|
        invariant k <= |vs| && Valid() && e.Done?
        invariant written + |EncodeItems(c, vs[k..])| == old(written) + |EncodeItems(c, vs)|
        invariant Given(out, EncodeItems(c, vs[k..])) == Given(old(out), EncodeItems(c, vs))
      {
        ItemsFrom(c, vs, k);
        Onward(out, EncodeValue(c, vs[k]), EncodeItems(c, vs[k + 1..]));
        PlainNumber(c, vs[k]);
        e := EncodeDatum(c, vs[k]);
        if e.Failed? { return; }
        k := k + 1;
      }
    }

    /** What has been given to the callback once bytes are written as well. */
    function Given(before: Bytes, bytes: Bytes): Bytes
      reads this
    {
      if sizing then before else before + bytes
    }

    method EncodeUnpacked(f: Field, vs: seq<Datum>) returns (e: Outcome)
      requires Valid() && f.rule.Repeated? && !Packed(f) && ContentOk(f.content)
        && forall k :: 0 <= k < |vs| ==> Holds(f.content, vs[k])
      modifies this
      ensures e.Done? <==> AllEncodable(f.content, vs) && old(Fits(|EncodeField(f, vs)|))
      ensures e.Done? ==> Appended(EncodeField(f, vs))
      ensures e.Failed? ==> e.error != SizeChanged
      decreases f, 2, 0
    {
      hide EncodeValue, TagBytes, ValueEncodable, ContentOk, Holds, Packed;
      assert vs[0..] == vs && EncodeTagged(f, vs[|vs|..]) == [];
      assert EncodeField(f, vs) == EncodeTagged(f, vs);
      hide EncodeTagged, EncodeField;
      var k := 0;
      e := Done;
      while k < |vs|
        invariant k <= |vs| && Valid() && e.Done? && (forall j :: 0 <= j < k ==> ValueEncodable(f.content, vs[j]))
        invariant written + |EncodeTagged(f, vs[k..])| == old(written) + |EncodeTagged(f, vs)|
        invariant Given(out, EncodeTagged(f, vs[k..])) == Given(old(out), EncodeTagged(f, vs))
      {
        TaggedFrom(f, vs, k);
        Onward(out, EncodeField(f, [vs[k]]), EncodeTagged(f, vs[k + 1..]));
        e := EncodeOne(f, vs[k]);
        if e.Failed? { return; }
        k := k + 1;
      }
    }

    /** encode_basic_field. */
    method EncodeBasicField(d: Descriptor, m: Message, i: nat) returns (e: Outcome)
      requires Valid() && WellFormed(d) && IsMessage(d, m) && i < |d.fields|
      modifies this
      ensures |m.slots| == |d.fields|
      ensures e.Done? <==>
        FieldEncodable(d.fields[i], m.slots[i], Present(d, m, i))
          && old(Fits(|EncodeField(d.fields[i], Present(d, m, i))|))
      ensures e.Done? ==> Appended(EncodeField(d.fields[i], Present(d, m, i)))
      ensures e.Failed? ==> e.error != SizeChanged
      decreases d, 1, 0
    {
      var f, s := d.fields[i], m.slots[i];
      match f.rule
      case Required =>
        e := EncodeOne(f, s.v);
      case Optional(flag) =>
        var has := flag && s.has;
        if !flag {
          var empty := CheckDefault(d, m, i);
          has := !empty;
        }
        if has { e := EncodeOne(f, s.v); } else { e := Done; }
      case Repeated(max, fixedCount) =>
        e := EncodeArray(f, s.items, if fixedCount then max else s.count);
      case Oneof(g) =>
        if m.which[g] == f.tag { e := EncodeOne(f, s.v); } else { e := Done; }
    }
  }
}
