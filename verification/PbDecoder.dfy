/** nanopb's decoder at work on a stream: the field iterator, the readers, and the loop over the fields of a message. */
module PbDecoder {
  import opened Wrappers
  import opened Keys
  import opened Coding
  import opened KeyEncoding
  import opened BlockFormat
  import opened PbWire
  import opened PbMessages
  import opened PbDecoding

  /** pb_field_iter_t: a field of a descriptor, and how many required ones are before it. */
  class FieldIter {
    const d: Descriptor
    var pos: nat
    var required: nat

    /** pb_field_iter_begin. */
    constructor (d: Descriptor)
      ensures this.d == d && Valid() && pos == 0
    {
      this.d, pos, required := d, 0, 0;
    }

    ghost predicate Valid()
      reads this
    {
      pos <= |d.fields| && (pos < |d.fields| || d.fields == []) && required == RequiredBefore(d, pos)
    }

    /** pb_field_iter_next: the next field, or the first one again after the last. */
    method Next() returns (more: bool)
      requires Valid()
      modifies this
      ensures Valid() && pos == (if old(pos) + 1 < |d.fields| then old(pos) + 1 else 0) && more == (pos != 0)
    {
      if d.fields == [] { return false; }
      if pos + 1 == |d.fields| {
        pos, required := 0, 0;
        return false;
      }
      if d.fields[pos].rule.Required? { required := required + 1; }
      pos := pos + 1;
      more := true;
    }

    /** The tag of the field it is at; the end mark of a type without fields has tag 0. */
    function Tag(): nat
      requires Valid()
      reads this
    {
      if d.fields == [] then 0 else d.fields[pos].tag
    }

    /** pb_field_iter_find: searches on from the field it is at, and round again. */
    method Find(tag: nat) returns (found: bool)
      requires Valid() && WellFormed(d)
      modifies this
      ensures Valid() && (d.fields != [] ==> (found <==> FindFrom(d, tag, 0) == Some(pos)))
      ensures d.fields != [] && !found ==> FindFrom(d, tag, 0) == None
      ensures d.fields == [] ==> (found <==> tag == 0)
    {
      hide RequiredBefore;
      ghost var n := |d.fields|;
      var start := pos;
      if Tag() == tag {
        if d.fields != [] { Only(d, tag, pos); }
        return true;
      }
      var _ := Next();
      while pos != start
        invariant Valid() && start <= n && (d.fields == [] ==> pos == start)
        invariant pos > start ==> forall j :: start <= j < pos ==> d.fields[j].tag != tag
        invariant pos <= start ==> forall j :: 0 <= j < n && (j < pos || j >= start) ==> d.fields[j].tag != tag
        decreases if pos > start then n - pos + start else start - pos
      {
        if Tag() == tag {
          Only(d, tag, pos);
          return true;
        }
        var _ := Next();
      }
      found := false;
    }

    /** The number of required fields of the type: the iterator is run to the end from where it is. */
    method CountRequired() returns (n: nat)
      requires Valid()
      modifies this
      ensures Valid() && n == RequiredBefore(d, |d.fields|)
    {
      var last := pos;
      n := required;
      var more := Next();
      while more
        invariant Valid() && last <= |d.fields| && n == RequiredBefore(d, last)
        invariant if more then pos == last + 1 else pos == 0 && (d.fields != [] ==> last + 1 == |d.fields|)
        invariant d.fields == [] ==> last == 0
        decreases |d.fields| - last
      {
        n := required;
        last := pos;
        more := Next();
      }
      if d.fields != [] && d.fields[last].rule.Required? { n := n + 1; }
    }
  }

  lemma Only(d: Descriptor, tag: nat, i: nat)
    requires WellFormed(d) && i < |d.fields| && d.fields[i].tag == tag
    ensures FindFrom(d, tag, 0) == Some(i)
  {
  }

  /** pb_istream_t over a buffer: left bytes may be read from data[at] on. */
  class IStream {
    const data: Bytes
    var at: nat
    var left: nat

    constructor (data: Bytes, at: nat, left: nat)
      requires at + left <= |data|
      ensures this.data == data && this.at == at && this.left == left
    {
      this.data, this.at, this.left := data, at, left;
    }

    ghost predicate Valid()
      reads this
    {
      at + left <= |data|
    }

    function Rest(): Bytes
      requires Valid()
      reads this
    {
      data[at..at + left]
    }

    /** The stream has been read as far as rest. */
    twostate predicate ReadTo(rest: Bytes)
      requires old(Valid())
      reads this
    {
      Valid() && at + left == old(at + left) && Rest() == rest
    }

    /** The stream does not get longer. */
    twostate predicate Kept()
      reads this
    {
      Valid() && at + left <= old(at + left)
    }

    lemma Suffix(n: nat)
      requires Valid() && n <= left
      ensures data[at + n..at + left] == Rest()[n..] && data[at..at + n] == Rest()[..n]
    {
    }

    /** pb_readbyte. */
    method ReadByte() returns (ok: bool, b: byte)
      requires Valid()
      modifies this
      ensures Kept()
      ensures ok <==> old(Rest()) != []
      ensures ok ==> b == old(Rest())[0] && ReadTo(old(Rest())[1..]) && left + 1 == old(left)
      ensures !ok ==> ReadTo(old(Rest()))
    {
      if left == 0 { return false, 0; }
      Suffix(1);
      b := data[at];
      at, left := at + 1, left - 1;
      ok := true;
    }

    /** pb_read. */
    method ReadBytes(n: nat) returns (ok: bool, bytes: Bytes)
      requires Valid()
      modifies this
      ensures Kept()
      ensures ok <==> n <= |old(Rest())|
      ensures ok ==> bytes == old(Rest())[..n] && ReadTo(old(Rest())[n..])
    {
      if n == 0 { return true, []; }
      if left < n { return false, []; }
      Suffix(n);
      bytes := data[at..at + n];
      at, left := at + n, left - n;
      ok := true;
    }

    /** pb_decode_varint32_eof. */
    method DecodeVarint32() returns (ok: bool, result: nat)
      requires Valid()
      modifies this
      ensures Kept()
      ensures ok <==> Varint32(old(Rest())).Some?
      ensures ok ==> result == Varint32(old(Rest())).value.0 && ReadTo(Varint32(old(Rest())).value.1)
    {
      var b;
      ok, b := ReadByte();
      if !ok { return false, 0; }
      if b < 128 { return true, b; }
      ok, result := MoreOfVarint32(b % 128);
    }

    method MoreOfVarint32(first: nat) returns (ok: bool, result: nat)
      requires Valid()
      modifies this
      ensures Kept()
      ensures ok <==> Varint32From(old(Rest()), 7, first).Some?
      ensures ok ==>
        result == Varint32From(old(Rest()), 7, first).value.0 && ReadTo(Varint32From(old(Rest()), 7, first).value.1)
    {
      hide Varint32From, IStream.Rest, NotSign, TooWide, Gathered;
      var bitpos: byte := 7;
      var b;
      result := first;
      while true
        invariant Valid() && at + left == old(at + left)
        invariant Varint32From(old(Rest()), 7, first) == Varint32From(Rest(), bitpos, result)
        decreases left
      {
        ghost var rest := Rest();
        NoByte(rest, bitpos, result);
        ok, b := ReadByte();
        if !ok { return; }
        Varint32Unfolds(rest, bitpos, result);
        if NotSign(b, bitpos, result) { return false, 0; }
        result := Gathered(b, bitpos, result);
        if b < 128 { return !TooWide(b, bitpos), result; }
        bitpos := (bitpos + 7) % 0x100;
      }
    }

    /** pb_decode_varint. */
    method DecodeVarint() returns (ok: bool, result: nat)
      requires Valid()
      modifies this
      ensures Kept()
      ensures ok <==> Varint64(old(Rest())).Some?
      ensures ok ==> result == Varint64(old(Rest())).value.0 && ReadTo(Varint64(old(Rest())).value.1)
    {
      var k: nat := 0;
      var b;
      result := 0;
      hide Power128;
      while true
        invariant Valid() && at + left == old(at + left) && Varint64(old(Rest())) == Varint64From(Rest(), k, result)
        decreases left
      {
        if k >= 10 { return false, 0; }
        ok, b := ReadByte();
        if !ok { return; }
        result := result + b % 128 * Power128(k) % LIMIT64;
        k := k + 1;
        if b < 128 { return; }
      }
    }

    /** pb_skip_varint. */
    method Skip128() returns (ok: bool)
      requires Valid()
      modifies this
      ensures Kept()
      ensures ok <==> SkipVarint(old(Rest())).Some?
      ensures ok ==> ReadTo(SkipVarint(old(Rest())).value)
    {
      var b;
      while true
        invariant Valid() && at + left == old(at + left) && SkipVarint(old(Rest())) == SkipVarint(Rest())
        decreases left
      {
        ok, b := ReadByte();
        if !ok || b < 128 { return; }
      }
    }

    /** pb_decode_tag. */
    method DecodeTag() returns (t: TagRead)
      requires Valid() && left > 0
      modifies this
      ensures Kept()
      ensures var r := ReadTag(old(Rest())); t == r && (r.Tagged? ==> ReadTo(r.rest))
      ensures t.EndOfMessage? ==> at + left == old(at + left)
    {
      var ok, temp := DecodeVarint32();
      if !ok { return Malformed; }
      if temp == 0 { return EndOfMessage; }
      t := Tagged(temp / 8, temp % 8, Rest());
    }

    /** pb_skip_field. */
    method SkipUnread(wire: nat) returns (ok: bool)
      requires Valid()
      modifies this
      ensures Kept()
      ensures ok <==> SkipField(wire, old(Rest())).Some?
      ensures ok ==> ReadTo(SkipField(wire, old(Rest())).value)
    {
      if wire == WireCode(Varints) {
        ok := Skip128();
      } else if wire == WireCode(Words64) {
        var bytes;
        ok, bytes := ReadBytes(8);
      } else if wire == WireCode(Strings) {
        var n;
        ok, n := DecodeVarint32();
        if !ok { return; }
        var bytes;
        ok, bytes := ReadBytes(n);
      } else if wire == WireCode(Words32) {
        var bytes;
        ok, bytes := ReadBytes(4);
      } else {
        ok := false;
      }
    }

    /** What pb_decode_noinit does with a field that is not found, or found to be the end mark. */
    method SkipUnknownField(d: Descriptor, tag: nat, wire: nat) returns (ok: bool)
      requires Valid()
      modifies this
      ensures Kept()
      ensures ok <==> SkipUnknown(d, tag, wire, old(Rest())).Some?
      ensures ok ==> ReadTo(SkipUnknown(d, tag, wire, old(Rest())).value)
    {
      if d.fields == [] && tag == 0 {
        var n;
        ok, n := DecodeVarint32();
      } else {
        ok := SkipUnread(wire);
      }
    }

    /** pb_make_string_substream: the parent gives up the bytes of the substream, and does not move past them yet. */
    method MakeSubstream() returns (ok: bool, sub: IStream)
      requires Valid()
      modifies this
      ensures Kept()
      ensures ok <==> SplitString(old(Rest())).Some?
      ensures ok ==>
        fresh(sub) && sub.Valid() && sub.data == data && sub.at == at && sub.Rest() == SplitString(old(Rest())).value.0
      ensures ok ==> at + sub.left + left == old(at + left) && sub.left < old(left)
      ensures ok ==> data[at + sub.left..at + sub.left + left] == SplitString(old(Rest())).value.1
    {
      var size;
      ok, size := DecodeVarint32();
      sub := this;
      if !ok { return; }
      if left < size { return false, this; }
      Suffix(size);
      sub := new IStream(data, at, size);
      left := left - size;
    }

    /** pb_close_string_substream: what is left of the substream is skipped. */
    method CloseSubstream(sub: IStream)
      requires sub != this && sub.Valid() && sub.at + sub.left + left <= |data|
      modifies this, sub
      ensures Valid() && left == old(left) && at == old(sub.at + sub.left)
    {
      if sub.left > 0 {
        var ok, _ := sub.ReadBytes(sub.left);
      }
      at := sub.at;
    }

    /** pb_field_set_to_default. */
    static method FieldSetToDefault(d: Descriptor, m: Message, i: nat) returns (r: Message)
      requires WellFormed(d) && IsMessage(d, m) && i < |d.fields|
      ensures |m.slots| == |d.fields| && r == DefaultField(d, m, i)
      decreases d, 0
    {
      var f, s := d.fields[i], m.slots[i];
      assert SlotHolds(f, s);
      ContentsOk(d, i);
      r := m;
      if f.rule.Oneof? {
        assert FieldOk(f, d.groups);
        r := m.(which := m.which[f.rule.group := 0]);
      } else if f.rule.Repeated? {
        if !f.rule.fixedCount { r := m.(slots := m.slots[i := s.(count := 0)]); }
      } else {
        var v := f.init;
        if f.content.Submessage? {
          var sub := MessageSetToDefaults(f.content.d, s.v.msg);
          v := Sub(sub);
        }
        r := m.(slots := m.slots[i := if s.Maybe? then Maybe(false, v) else One(v)]);
      }
    }

    /** pb_message_set_to_defaults. */
    static method MessageSetToDefaults(d: Descriptor, m: Message) returns (r: Message)
      requires WellFormed(d) && IsMessage(d, m)
      ensures |m.slots| == |d.fields| && r == SetToDefaults(d, m) && IsMessage(d, r)
      decreases d, 1
    {
      hide WellFormed, IsMessage, DefaultField;
      MessageSlots(d, m);
      var i := 0;
      r := m;
      while i < |d.fields|
        invariant i <= |d.fields| && r == Defaults(d, m, i) && IsMessage(d, r)
      {
        DefaultsHold(d, m, i + 1);
        r := FieldSetToDefault(d, r, i);
        i := i + 1;
      }
    }

    /** The decoder of one value: pb_dec_*. */
    method DecodeDatum(c: Content, dest: Datum, isNew: bool) returns (ok: bool, v: Datum)
      requires Valid() && ContentOk(c) && Holds(c, dest)
      modifies this
      ensures Kept()
      ensures var r := DecodeValue(c, dest, isNew, old(Rest()));
        (ok <==> r.Some?) && (ok ==> v == r.value.0 && ReadTo(r.value.1))
      decreases left, 1
    {
      v := dest;
      if c.Submessage? {
        ok, v := DecodeSubmessage(c.d, dest.msg, isNew);
      } else {
        ok, v := DecodeOne(c, dest);
      }
    }

    /** pb_dec_submessage. */
    method DecodeSubmessage(d: Descriptor, dest: Message, isNew: bool) returns (ok: bool, v: Datum)
      requires Valid() && WellFormed(d) && IsMessage(d, dest)
      modifies this
      ensures Kept()
      ensures var r := DecodeValue(Submessage(d), Sub(dest), isNew, old(Rest()));
        (ok <==> r.Some?) && (ok ==> v == r.value.0 && ReadTo(r.value.1))
      decreases left, 0
    {
      hide WellFormed, IsMessage, SplitString, DecodeMessage, SetToDefaults;
      SubmessageReads(d, dest, isNew, Rest());
      hide DecodeValue;
      v := Sub(dest);
      var sub;
      ok, sub := MakeSubstream();
      if !ok { return; }
      var start := dest;
      if isNew { start := MessageSetToDefaults(d, dest); }
      var m;
      ok, m := sub.DecodeNoinit(d, start);
      CloseSubstream(sub);
      v := Sub(m);
    }

    /** pb_dec_bool to pb_dec_string and pb_dec_fixed_length_bytes. */
    method DecodeOne(c: Content, dest: Datum) returns (ok: bool, v: Datum)
      requires Valid() && Holds(c, dest)
      modifies this
      ensures Kept()
      ensures var r := DecodePlain(c, dest, old(Rest()));
        (ok <==> r.Some?) && (ok ==> v == r.value.0 && ReadTo(r.value.1))
      decreases left, 0
    {
      hide Varint32, Varint64, DecodeText, DecodeNumber, DecodeFixed64;
      v := dest;
      var n, bytes;
      match c
      case Boolean =>
        ok, n := DecodeVarint32();
        v := Flag(n != 0);
      case Varint(_) => ok, v := DecodeInteger(c);
      case Uvarint(_) => ok, v := DecodeInteger(c);
      case Svarint(_) => ok, v := DecodeInteger(c);
      case Fixed32 =>
        ok, bytes := ReadBytes(4);
        if ok { v := Number(DecodeFixed32(bytes)); }
      case Fixed64 =>
        ok, bytes := ReadBytes(8);
        if ok { v := Number(DecodeFixed64(bytes)); }
      case ByteArray(room) =>
        ok, n := DecodeVarint32();
        if !ok || n > room { return false, dest; }
        ok, bytes := ReadBytes(n);
        v := Raw(bytes);
      case Text(size) =>
        ok, bytes := DecodeChars(size, dest.bytes);
        v := Raw(bytes);
      case FixedBytes(size) =>
        ok, n := DecodeVarint32();
        if !ok { return; }
        if n == 0 { return true, Raw(Zeros(size)); }
        if n != size { return false, dest; }
        ok, bytes := ReadBytes(size);
        v := Raw(bytes);
      case Submessage(_) => ok := false;
    }

    /** pb_dec_varint, pb_dec_uvarint, pb_dec_svarint. */
    method DecodeInteger(c: Content) returns (ok: bool, v: Datum)
      requires Valid()
      modifies this
      ensures Kept()
      ensures var r := DecodeNumber(c, old(Rest())); (ok <==> r.Some?) && (ok ==> v == r.value.0 && ReadTo(r.value.1))
    {
      var n;
      ok, n := DecodeVarint();
      if !ok { return false, Number(0); }
      var i := NumberOf(c, n);
      ok := i.Some?;
      v := if i.Some? then Number(i.value) else Number(0);
    }

    /** pb_dec_string. */
    method DecodeChars(size: nat, buffer: Bytes) returns (ok: bool, r: Bytes)
      requires Valid() && |buffer| == size
      modifies this
      ensures Kept()
      ensures var t := DecodeText(size, buffer, old(Rest()));
        (ok <==> t.Some?) && (ok ==> r == t.value.0 && ReadTo(t.value.1))
    {
      r := buffer;
      var n, bytes;
      ok, n := DecodeVarint32();
      if !ok || n + 1 > size { return false, buffer; }
      ok, bytes := ReadBytes(n);
      if ok { r := bytes + [0] + buffer[n + 1..]; }
    }

    /** The packed items in all of the stream. */
    method DecodePacked(d: Descriptor, st: State, i: nat) returns (ok: bool, st': State)
      requires Valid() && WellFormed(d) && Ready(d, st) && i < |d.fields| && Packed(d.fields[i])
      modifies this
      ensures Kept()
      ensures var r := DecodeItems(d, st, i, old(Rest())); (ok <==> r.Some?) && (ok ==> st' == r.value)
      ensures ok ==> at + left == old(at + left)
      decreases left, 2
    {
      hide WellFormed, Ready, Holds, Target, Stored, DecodeValue, ContentOk, SlotHolds;
      st' := st;
      while left > 0
        invariant Valid() && at + left == old(at + left) && left <= old(left) && Ready(d, st')
        invariant DecodeItems(d, st, i, old(Rest())) == DecodeItems(d, st', i, Rest())
        decreases left
      {
        TargetHolds(d, st', i);
        ReadySlots(d, st');
        var t := Target(d, st', i);
        if t.None? { return false, st; }
        var v;
        ok, v := DecodeDatum(d.fields[i].content, t.value, true);
        if !ok { return; }
        StoredReady(d, st', i, v);
        st' := Stored(d, st', i, v);
      }
      ok := true;
    }

    /** decode_static_field. */
    method DecodeStaticField(d: Descriptor, st: State, i: nat, wire: nat) returns (ok: bool, st': State)
      requires Valid() && WellFormed(d) && Ready(d, st) && i < |d.fields|
      modifies this
      ensures Kept()
      ensures var r := DecodeField(d, st, i, wire, old(Rest()));
        (ok <==> r.Some?) && (ok ==> st' == r.value.0 && ReadTo(r.value.1))
      decreases left, 3
    {
      hide WellFormed, Ready, Holds, Target, Stored, DecodeValue;
      hide DecodeItems, ContentOk, SlotHolds, SplitString, Packed;
      st' := st;
      if wire == WireCode(Strings) && Packed(d.fields[i]) {
        var sub;
        ok, sub := MakeSubstream();
        if !ok { return; }
        ok, st' := sub.DecodePacked(d, st, i);
        if !ok { return; }
        CloseSubstream(sub);
      } else {
        TargetHolds(d, st, i);
        ReadySlots(d, st);
        var t := Target(d, st, i);
        if t.None? { return false, st; }
        var v;
        ok, v := DecodeDatum(d.fields[i].content, t.value, d.fields[i].rule.Repeated?);
        if !ok { return; }
        st' := Stored(d, st, i, v);
      }
    }

    /** The words of fields_seen: whole ones are full, and the next has exactly the bits that remain. */
    static method RequiredSeen(seen: seq<bool>, count: nat) returns (ok: bool)
      requires |seen| == MAX_REQUIRED && forall k :: 0 <= k < |seen| && seen[k] ==> k < count
      ensures ok <==> forall k :: 0 <= k < count && k < MAX_REQUIRED ==> seen[k]
    {
      var n := if count > MAX_REQUIRED then MAX_REQUIRED else count;
      var w := 0;
      while w < n / 32
        invariant w <= n / 32 && forall k :: 0 <= k < 32 * w ==> seen[k]
      {
        if seen[32 * w..32 * w + 32] != seq(32, _ => true) {
          SomeUnset(seen[32 * w..32 * w + 32]);
          return false;
        }
        assert forall k :: 32 * w <= k < 32 * w + 32 ==> seen[k] == seen[32 * w..32 * w + 32][k - 32 * w];
        w := w + 1;
      }
      ok := true;
      if n % 32 != 0 {
        var word := seen[32 * w..32 * w + 32];
        ok := word == seq(32, b => b < n % 32);
        assert forall k :: 32 * w <= k < 32 * w + 32 ==> seen[k] == word[k - 32 * w];
      }
    }

    /** The loop of pb_decode_noinit: fields are found by their tags, in whatever order they come. */
    method ReadFields(d: Descriptor, m: Message, iter: FieldIter) returns (ok: bool, st: State)
      requires Valid() && WellFormed(d) && IsMessage(d, m) && iter.d == d && iter.Valid()
      modifies this, iter
      ensures Kept() && iter.Valid()
      ensures Ready(d, Start(m))
      ensures var x := DecodeFields(d, Start(m), old(Rest()));
        (ok <==> x.Some?) && (ok ==> st == x.value && SeenRequired(d, st))
      ensures ok ==> at + left == old(at + left)
      decreases left, 4
    {
      hide WellFormed, IsMessage, Ready, Arrive, DecodeField, SkipUnknown, ReadTag, SeenRequired;
      st := Start(m);
      StartReady(d, m);
      while left > 0
        invariant Valid() && at + left == old(at + left) && left <= old(left) && iter.Valid() && Ready(d, st)
          && SeenRequired(d, st)
        invariant DecodeFields(d, Start(m), old(Rest())) == DecodeFields(d, st, Rest())
        decreases left
      {
        var t := DecodeTag();
        if t.Malformed? { return false, st; }
        if t.EndOfMessage? { return true, st; }
        var found := iter.Find(t.tag);
        if !found || d.fields == [] {
          ok := SkipUnknownField(d, t.tag, t.wire);
          if !ok { return; }
        } else {
          ReadySlots(d, st);
          ArriveReady(d, st, iter.pos);
          ArriveSeen(d, st, iter.pos);
          var a := Arrive(d, st, iter.pos);
          if a.None? { return false, st; }
          ok, st := DecodeStaticField(d, a.value, iter.pos, t.wire);
          if !ok { return; }
          SameSeen(d, a.value, st);
        }
      }
      NoMoreFields(d, st);
      ok := true;
    }

    /** pb_decode_noinit. */
    method DecodeNoinit(d: Descriptor, m: Message) returns (ok: bool, r: Message)
      requires Valid() && WellFormed(d) && IsMessage(d, m)
      modifies this
      ensures Kept()
      ensures var x := DecodeMessage(d, m, old(Rest())); (ok <==> x.Some?) && (ok ==> r == x.value)
      ensures ok ==> at + left == old(at + left)
      decreases left, 5
    {
      hide WellFormed, IsMessage, Ready, DecodeFields, FixedFull;
      var iter := new FieldIter(d);
      var st;
      ok, st := ReadFields(d, m, iter);
      r := m;
      if !ok { return; }
      if !FixedFull(d, st) { return false, m; }
      var n := iter.CountRequired();
      ReadySlots(d, st);
      ok := RequiredSeen(st.seen, n);
      r := st.m;
    }

    /** pb_decode. */
    method DecodeAll(d: Descriptor, m: Message) returns (ok: bool, r: Message)
      requires Valid() && WellFormed(d) && IsMessage(d, m)
      modifies this
      ensures var x := Decode(d, m, old(Rest())); (ok <==> x.Some?) && (ok ==> r == x.value)
    {
      hide WellFormed, IsMessage, DecodeMessage;
      var start := MessageSetToDefaults(d, m);
      ok, r := DecodeNoinit(d, start);
    }
  }

  lemma NoByte(bytes: Bytes, bitpos: byte, result: nat)
    ensures bytes == [] ==> Varint32From(bytes, bitpos, result) == None
  {
  }

  lemma NoMoreFields(d: Descriptor, st: State)
    requires WellFormed(d) && Ready(d, st)
    ensures DecodeFields(d, st, []) == Some(st)
  {
  }

  lemma SameSeen(d: Descriptor, st: State, st': State)
    requires SeenRequired(d, st) && st'.seen == st.seen
    ensures SeenRequired(d, st')
  {
  }

  /** A submessage that is new starts from its defaults. */
  lemma SubmessageReads(d: Descriptor, dest: Message, isNew: bool, bytes: Bytes)
    requires WellFormed(d) && IsMessage(d, dest)
    ensures ContentOk(Submessage(d)) && Holds(Submessage(d), Sub(dest))
    ensures var s, r := SplitString(bytes), DecodeValue(Submessage(d), Sub(dest), isNew, bytes);
      if s.None? then r == None
      else
        IsMessage(d, SetToDefaults(d, dest)) &&
        var m := DecodeMessage(d, if isNew then SetToDefaults(d, dest) else dest, s.value.0);
        r == if m.None? then None else Some((Sub(m.value), s.value.1))
  {
    hide SplitString, DecodeMessage;
    DefaultsHold(d, dest, |d.fields|);
  }

  /** One byte of the loop of pb_decode_varint32_eof. */
  lemma Varint32Unfolds(bytes: Bytes, bitpos: byte, result: nat)
    requires bytes != []
    ensures Varint32From(bytes, bitpos, result) ==
      if NotSign(bytes[0], bitpos, result) then None
      else
        var result' := Gathered(bytes[0], bitpos, result);
        if bytes[0] >= 128 then Varint32From(bytes[1..], (bitpos + 7) % 0x100, result')
        else if TooWide(bytes[0], bitpos) then None
        else Some((result', bytes[1..]))
  {
    hide NotSign, TooWide, Gathered;
  }

  lemma SomeUnset(word: seq<bool>)
    requires |word| == 32 && word != seq(32, _ => true)
    ensures exists b :: 0 <= b < 32 && !word[b]
  {
  }

  /** Only required fields are marked as seen. */
  predicate SeenRequired(d: Descriptor, st: State) {
    forall k :: 0 <= k < |st.seen| && st.seen[k] ==> k < RequiredBefore(d, |d.fields|)
  }

  lemma {:induction false} RequiredGrow(d: Descriptor, i: nat, n: nat)
    requires i <= n <= |d.fields|
    ensures RequiredBefore(d, i) <= RequiredBefore(d, n)
  {
    if i < n { RequiredGrow(d, i, n - 1); }
  }

  lemma ArriveSeen(d: Descriptor, st: State, i: nat)
    requires i < |d.fields| && |st.seen| == MAX_REQUIRED && SeenRequired(d, st)
    ensures Arrive(d, st, i).Some? ==> SeenRequired(d, Arrive(d, st, i).value)
  {
    hide FixedFull;
    RequiredGrow(d, i + 1, |d.fields|);
  }

  lemma StartReady(d: Descriptor, m: Message)
    requires IsMessage(d, m)
    ensures Ready(d, Start(m)) && SeenRequired(d, Start(m))
  {
  }
}
