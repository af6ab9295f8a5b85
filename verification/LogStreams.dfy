/** log::Writer and log::Reader, refining the bytes and the scan of LogFormat. */
module LogStreams {
  import opened Wrappers
  import opened Keys
  import opened Coding
  import opened LogFormat

  class Writer {
    const extend: Checksum
    const typeCrc: seq<word>
    var dest: seq<byte> // the file
    var blockOffset: nat
    ghost var records: seq<seq<byte>> // written so far

    constructor (extend: Checksum)
      ensures Valid() && records == [] && dest == [] && this.extend == extend
    {
      this.extend := extend;
      typeCrc := seq(5, t requires 0 <= t < 5 => extend(0, [t]));
      dest, blockOffset, records := [], 0, [];
    }

    /** Appends to a file that already holds a log. */
    constructor Append(extend: Checksum, file: seq<byte>, ghost written: seq<seq<byte>>)
      requires file == Log(extend, written)
      ensures Valid() && records == written && dest == file && this.extend == extend
    {
      hide Log;
      this.extend := extend;
      typeCrc := seq(5, t requires 0 <= t < 5 => extend(0, [t]));
      dest, blockOffset, records := file, |file| % BLOCK_SIZE, written;
    }

    ghost predicate Wired()
      reads `dest, `blockOffset
    {
      && |typeCrc| == 5 && (forall t :: 0 <= t < 5 ==> typeCrc[t] == extend(0, [t]))
      && blockOffset <= BLOCK_SIZE && |dest| % BLOCK_SIZE == blockOffset % BLOCK_SIZE
    }

    ghost predicate Valid()
      reads this
    {
      Wired() && dest == Log(extend, records)
    }

    method AddRecord(data: seq<byte>)
      requires Valid() && Composes(extend)
      modifies this
      ensures Valid() && records == old(records) + [data]
    {
      hide Fragments, Padding, Room, Physical, Wired;
      ghost var whole := dest + Fragments(extend, |dest|, data, true);
      var ptr, begin, more := 0, true, true;
      assert data[0..] == data;
      while more
        invariant Wired() && ptr <= |data| && records == old(records)
        invariant if more then dest + Fragments(extend, |dest|, data[ptr..], begin) == whole else dest == whole
        decreases more, |data| - ptr, if more && Padding(|dest|) == 0 && Room(|dest|) == 0 then 1 else 0
      {
        ghost var p := |dest|;
        var length := WriteFragment(data, ptr, begin);
        if ptr + length < |data| { BlockTurns(p, length); }
        more := |data| - ptr > length;
        ptr, begin := ptr + length, false;
      }
      records := records + [data];
      assert records[..|records| - 1] == old(records);
    }

    /** One turn of the loop: as much of data[ptr..] as the block has room for. */
    method WriteFragment(data: seq<byte>, ptr: nat, begin: bool) returns (length: nat)
      requires Wired() && Composes(extend) && ptr <= |data|
      modifies `dest, `blockOffset
      ensures Wired() && ptr + length <= |data|
      ensures Padding(old(|dest|) + Padding(old(|dest|))) == 0
      ensures ptr + length < |data| ==> length == Room(old(|dest|) + Padding(old(|dest|)))
      ensures |dest| == old(|dest|) + Padding(old(|dest|)) + HEADER_SIZE + length
      ensures old(dest) + Fragments(extend, old(|dest|), data[ptr..], begin)
              == if ptr + length == |data| then dest else dest + Fragments(extend, |dest|, data[ptr + length..], false)
    {
      hide Fragments, Physical;
      ghost var before := dest;
      SwitchBlock();
      var avail := BLOCK_SIZE - blockOffset - HEADER_SIZE;
      var left := |data| - ptr;
      length := if left < avail then left else avail;
      var end := left == length;
      EmitPhysicalRecord(FragmentType(begin, end), data[ptr..ptr + length]);
      OneFragment(extend, before, data, ptr, begin, length);
    }

    /** Leaves a block that has no room for a header. */
    method SwitchBlock()
      requires Wired()
      modifies `dest, `blockOffset
      ensures Wired() && dest == old(dest) + Zeros(Padding(old(|dest|)))
      ensures Padding(|dest|) == 0 && BLOCK_SIZE - blockOffset - HEADER_SIZE == Room(|dest|)
    {
      PaddedHasRoom(|dest|);
      var leftover := BLOCK_SIZE - blockOffset;
      if leftover < HEADER_SIZE {
        if leftover > 0 {
          dest := dest + Zeros(leftover);
        }
        blockOffset := 0;
      }
    }

    method EmitPhysicalRecord(t: byte, payload: seq<byte>)
      requires Wired() && Composes(extend) && t <= LAST_TYPE
      requires |payload| <= 0xffff && blockOffset + HEADER_SIZE + |payload| <= BLOCK_SIZE
      modifies `dest, `blockOffset
      ensures Wired() && dest == old(dest) + Physical(extend, t, payload)
      ensures blockOffset == old(blockOffset) + HEADER_SIZE + |payload|
    {
      var header := [|payload| % 0x100, |payload| / 0x100, t];
      var crc := Mask(extend(typeCrc[t], payload));
      assert extend(typeCrc[t], payload) == extend(0, [t] + payload);
      var buf := EncodeFixed32(crc) + header;
      HeaderThenPayload(extend, dest, t, payload, buf);
      SameOffset(|dest|, blockOffset, HEADER_SIZE + |payload|);
      dest := dest + buf;
      dest := dest + payload;
      blockOffset := blockOffset + HEADER_SIZE + |payload|;
    }
  }

  lemma HeaderThenPayload(extend: Checksum, dest: seq<byte>, t: byte, payload: seq<byte>, buf: seq<byte>)
    requires |payload| <= 0xffff
    requires buf == EncodeFixed32(Mask(extend(0, [t] + payload))) + [|payload| % 0x100, |payload| / 0x100, t]
    ensures dest + buf + payload == dest + Physical(extend, t, payload)
  {
    hide Mask, EncodeFixed32;
    assert Physical(extend, t, payload) == buf + payload;
  }

  lemma SameOffset(a: nat, b: nat, k: nat)
    requires a % BLOCK_SIZE == b % BLOCK_SIZE
    ensures (a + k) % BLOCK_SIZE == (b + k) % BLOCK_SIZE
  {
  }

  /** A fragment that fills its block leaves the next position at the start of a block, with room. */
  lemma BlockTurns(p: nat, length: nat)
    requires Padding(p + Padding(p)) == 0 && length == Room(p + Padding(p))
    ensures var q := p + Padding(p) + HEADER_SIZE + length;
            Padding(q) == 0 && Room(q) > 0 && (length == 0 ==> Padding(p) == 0 && Room(p) == 0)
  {
  }

  /** The bytes of one loop iteration, and what remains. */
  lemma OneFragment(extend: Checksum, dest: seq<byte>, data: seq<byte>, ptr: nat, begin: bool, length: nat)
    requires ptr <= |data|
    requires var at := |dest| + Padding(|dest|);
      Padding(at) == 0 && length == if |data| - ptr < Room(at) then |data| - ptr else Room(at)
    ensures var now := dest + Zeros(Padding(|dest|))
                       + Physical(extend, FragmentType(begin, |data| - ptr == length), data[ptr..ptr + length]);
            dest + Fragments(extend, |dest|, data[ptr..], begin)
            == if |data| - ptr == length then now else now + Fragments(extend, |now|, data[ptr + length..], false)
  {
    hide Physical;
    var rest := data[ptr..];
    assert rest[..length] == data[ptr..ptr + length];
    if |data| - ptr > length {
      assert rest[length..] == data[ptr + length..];
      var now := dest + Zeros(Padding(|dest|)) + Physical(extend, FragmentType(begin, false), rest[..length]);
      assert |now| == |dest| + Padding(|dest|) + HEADER_SIZE + length;
    } else {
      assert rest[..length] == rest;
    }
  }

  class Reader {
    const extend: Checksum
    const file: seq<byte>
    var filePos: nat
    var buffer: seq<byte>
    var eof: bool
    var drops: seq<nat> // what was reported as corrupt

    constructor (extend: Checksum, file: seq<byte>)
      ensures Valid() && this.extend == extend && this.file == file && Position() == 0 && drops == []
    {
      this.extend, this.file := extend, file;
      filePos, buffer, eof, drops := 0, [], false, [];
      new;
      hide *;
      AtStart();
    }

    /** Where the next physical record is looked for. */
    ghost function Position(): (p: nat)
      requires |buffer| <= filePos
      reads `buffer, `filePos
      ensures p <= filePos
    {
      filePos - |buffer|
    }

    /** The buffer is what is left of the last block read; the last read was short exactly at the end of the file. */
    ghost predicate Valid()
      reads `buffer, `filePos, `eof
      ensures Valid() ==> |buffer| <= filePos <= |file|
    {
      && |buffer| <= filePos <= |file| && buffer == file[Position()..filePos]
      && (if buffer != [] then filePos == BlockEnd(file, Position()) && (eof <==> !WholeBlock(file, Position()))
          else eof || filePos % BLOCK_SIZE == 0)
      && (eof ==> filePos == |file|)
    }

    ghost predicate Returns(r: Parsed, t: byte, fragment: seq<byte>, before: seq<nat>)
      requires |buffer| <= filePos
      reads this
    {
      t == r.t && fragment == r.payload && Position() == r.next && drops == before + r.drops
    }

    lemma AtStart()
      requires filePos == 0 && buffer == [] && !eof
      ensures Valid() && Position() == 0
    {
    }

    /** Reads blocks until a header is in the buffer, or the file ends. */
    method FillBuffer() returns (ok: bool)
      requires Valid()
      modifies `buffer, `filePos, `eof
      ensures Valid() && old(Position()) <= |file|
      ensures ok ==> |buffer| >= HEADER_SIZE && Position() == SkipTrailer(file, old(Position()))
      ensures !ok ==> Position() == |file| && ParseAt(extend, file, old(Position())) == Parsed(EOF_TYPE, [], |file|, [])
    {
      ghost var p := Position();
      while |buffer| < HEADER_SIZE
        invariant Valid() && p <= |file|
        invariant Position() == p || (Position() == SkipTrailer(file, p) && (eof || |buffer| >= HEADER_SIZE))
        invariant |buffer| >= HEADER_SIZE ==> Position() == SkipTrailer(file, p)
        decreases if eof then 0 else 1 + |file| - filePos
      {
        if !eof {
          ReadBlock();
        } else {
          buffer := [];
          return false;
        }
      }
      ok := true;
    }

    method ReadBlock()
      requires Valid() && !eof && |buffer| < HEADER_SIZE
      modifies `buffer, `filePos, `eof
      ensures Valid() && Position() == old(filePos) && (eof || |buffer| == BLOCK_SIZE)
      ensures |buffer| >= HEADER_SIZE || eof
    {
      var end := if filePos + BLOCK_SIZE <= |file| then filePos + BLOCK_SIZE else |file|;
      buffer := file[filePos..end];
      filePos := end;
      if |buffer| < BLOCK_SIZE {
        eof := true;
      }
    }

    /** Drops the rest of the block. */
    method DropBuffer(reported: bool)
      requires Valid() && |buffer| >= HEADER_SIZE
      modifies `buffer, `drops
      ensures Valid() && Position() == old(Position()) + old(|buffer|)
      ensures drops == if reported then old(drops) + [old(|buffer|)] else old(drops)
    {
      var dropSize := |buffer|;
      buffer := [];
      if reported {
        drops := drops + [dropSize];
      }
    }

    method ReadPhysicalRecord() returns (t: byte, fragment: seq<byte>)
      requires Valid()
      modifies this
      ensures Valid() && old(Position()) <= |file|
      ensures Returns(ParseAt(extend, file, old(Position())), t, fragment, old(drops))
    {
      hide DecodeFixed32, Unmask;
      var ok := FillBuffer();
      if !ok {
        return EOF_TYPE, [];
      }
      t, fragment := ParseRecord();
    }

    method ParseRecord() returns (t: byte, fragment: seq<byte>)
      requires Valid() && |buffer| >= HEADER_SIZE
      modifies `buffer, `drops
      ensures Valid() && Returns(ParseBuffer(extend, old(buffer), old(eof), old(Position())), t, fragment, old(drops))
    {
      hide DecodeFixed32, Unmask, BlockEnd, WholeBlock;
      fragment := [];
      var length := buffer[4] as int + buffer[5] as int * 0x100;
      t := buffer[6];
      if HEADER_SIZE + length > |buffer| {
        var reported := !eof;
        DropBuffer(reported);
        return if reported then BAD_TYPE else EOF_TYPE, [];
      }
      if t == ZERO_TYPE && length == 0 {
        DropBuffer(false);
        return BAD_TYPE, [];
      }
      var expected := Unmask(DecodeFixed32(buffer));
      var actual := extend(0, buffer[6..HEADER_SIZE + length]);
      if actual != expected {
        DropBuffer(true);
        return BAD_TYPE, [];
      }
      fragment := buffer[HEADER_SIZE..HEADER_SIZE + length];
      Consume(HEADER_SIZE + length);
    }

    method Consume(n: nat)
      requires Valid() && n <= |buffer| && HEADER_SIZE <= |buffer|
      modifies `buffer
      ensures Valid() && Position() == old(Position()) + n
    {
      buffer := buffer[n..];
    }

    /** The next record, if there is one. */
    method ReadRecord() returns (record: Option<seq<byte>>)
      requires Valid()
      modifies this
      ensures Valid() && old(Position()) <= |file|
      ensures var s := ReadFrom(extend, file, old(Position()), false, []);
              record == s.record && Position() == s.next && drops == old(drops) + s.drops
    {
      hide ReadFrom, ParseAt, Take, Valid, Position;
      var inFragment, scratch: seq<byte> := false, [];
      ghost var whole := ReadFrom(extend, file, Position(), false, []);
      ghost var d: seq<nat> := [];
      assert d + whole.drops == whole.drops;
      while true
        invariant Valid() && Position() <= |file| && drops == old(drops) + d
        invariant whole == Dropping(d, ReadFrom(extend, file, Position(), inFragment, scratch))
        decreases |file| - Position()
      {
        ghost var at := Position();
        var t, fragment := ReadPhysicalRecord();
        var turn := TakeFragment(t, fragment, inFragment, scratch);
        OneTurn(d, at, inFragment, scratch);
        Joined(old(drops), d, ParseAt(extend, file, at).drops, turn.drops);
        if turn.Done? {
          return turn.record;
        }
        d := d + ParseAt(extend, file, at).drops + turn.drops;
        inFragment, scratch := turn.inFragment, turn.scratch;
      }
    }

    /** One turn of the scan, with the drops d reported before it. */
    lemma OneTurn(d: seq<nat>, at: nat, inFragment: bool, scratch: seq<byte>)
      requires at <= |file|
      ensures var r := ParseAt(extend, file, at);
              var turn := Take(r.t, r.payload, inFragment, scratch);
              var scan := Dropping(d, ReadFrom(extend, file, at, inFragment, scratch));
              if turn.Done? then scan == Scan(turn.record, r.next, d + r.drops + turn.drops)
              else at < r.next
                   && scan ==
                      Dropping(d + r.drops + turn.drops, ReadFrom(extend, file, r.next, turn.inFragment, turn.scratch))
    {
      hide ParseAt, Take;
      var r := ParseAt(extend, file, at);
      var turn := Take(r.t, r.payload, inFragment, scratch);
      EofEnds(r.t, r.payload, inFragment, scratch);
      if turn.Done? {
        assert d + (r.drops + turn.drops) == d + r.drops + turn.drops;
      } else {
        var later := ReadFrom(extend, file, r.next, turn.inFragment, turn.scratch).drops;
        assert d + ((r.drops + turn.drops) + later) == (d + r.drops + turn.drops) + later;
      }
    }

    lemma Joined(a: seq<nat>, b: seq<nat>, c: seq<nat>, d: seq<nat>)
      ensures a + b + c + d == a + (b + c + d)
    {
    }

    lemma EofEnds(t: byte, fragment: seq<byte>, inFragment: bool, scratch: seq<byte>)
      ensures Take(t, fragment, inFragment, scratch).GoOn? ==> t != EOF_TYPE
    {
    }

    /** The switch of ReadRecord. */
    method TakeFragment(t: byte, fragment: seq<byte>, inFragment: bool, scratch: seq<byte>) returns (turn: Turn)
      modifies `drops
      ensures turn == Take(t, fragment, inFragment, scratch) && drops == old(drops) + turn.drops
    {
      if t == FULL_TYPE || t == FIRST_TYPE {
        var reported: seq<nat> := [];
        if inFragment && scratch != [] {
          reported := ReportCorruption(|scratch|);
        }
        turn := if t == FULL_TYPE then Done(Some(fragment), reported) else GoOn(true, fragment, reported);
      } else if t == MIDDLE_TYPE && inFragment {
        turn := GoOn(true, scratch + fragment, []);
      } else if t == LAST_TYPE && inFragment {
        turn := Done(Some(scratch + fragment), []);
      } else if t == MIDDLE_TYPE || t == LAST_TYPE {
        var reported := ReportCorruption(|fragment|);
        turn := GoOn(false, scratch, reported);
      } else if t == EOF_TYPE {
        turn := Done(None, []);
      } else if t == BAD_TYPE {
        turn := GoOn(false, scratch, []);
        if inFragment {
          var reported := ReportCorruption(|scratch|);
          turn := GoOn(false, [], reported);
        }
      } else {
        var reported := ReportCorruption(|fragment| + if inFragment then |scratch| else 0);
        turn := GoOn(false, [], reported);
      }
    }

    method ReportCorruption(bytes: nat) returns (reported: seq<nat>)
      modifies `drops
      ensures reported == [bytes] && drops == old(drops) + reported
    {
      reported := [bytes];
      drops := drops + reported;
    }
  }

  /** A reader over the first n bytes of what a writer wrote, as recovery drives it after a crash. */
  method ReadBack(extend: Checksum, ghost rs: seq<seq<byte>>, n: nat, file: seq<byte>) returns (out: seq<seq<byte>>)
    requires n <= |Log(extend, rs)| && file == Log(extend, rs)[..n]
    ensures out == rs[..Complete(extend, rs, n)]
  {
    hide Log, ReadFrom;
    out := [];
    var reader := new Reader(extend, file);
    ghost var whole := ReadAll(extend, file, 0);
    while true
      invariant reader.Valid() && fresh(reader) && reader.extend == extend && reader.file == file
        && reader.Position() <= |file|
      invariant whole.0 == out + ReadAll(extend, file, reader.Position()).0
      decreases |file| - reader.Position()
    {
      var record := reader.ReadRecord();
      if record.None? {
        break;
      }
      out := out + [record.value];
    }
    PrefixRoundTrip(extend, rs, n);
  }
}
