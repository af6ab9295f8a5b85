/** The record log: what a writer's bytes are, what a reader makes of any bytes, and that reading any prefix of a
    written log yields exactly the records that end inside it, with nothing reported as corrupt. */
module LogFormat {
  import opened Wrappers
  import opened Keys
  import opened Coding

  const BLOCK_SIZE: nat := 32768
  const HEADER_SIZE: nat := 7

  const ZERO_TYPE: byte := 0
  const FULL_TYPE: byte := 1
  const FIRST_TYPE: byte := 2
  const MIDDLE_TYPE: byte := 3
  const LAST_TYPE: byte := 4

  // What ReadPhysicalRecord returns besides a stored type; a stored type with one of these values is taken for them.
  const EOF_TYPE: byte := 5
  const BAD_TYPE: byte := 6

  /** crc32c::Extend; only its composition law matters here. */
  type Checksum = (word, seq<byte>) -> word

  ghost predicate Composes(extend: Checksum) {
    forall c, a, b :: extend(extend(c, a), b) == extend(c, a + b)
  }

  // ----- what the writer writes -----

  /** One fragment: masked checksum of type and payload, length, type, payload. */
  function Physical(extend: Checksum, t: byte, payload: seq<byte>): (bytes: seq<byte>)
    requires |payload| <= 0xffff
    ensures |bytes| == HEADER_SIZE + |payload|
  {
    EncodeFixed32(Mask(extend(0, [t] + payload))) + [|payload| % 0x100, |payload| / 0x100, t] + payload
  }

  /** How many zero bytes end a block that has no room for a header. */
  function Padding(pos: nat): nat {
    var leftover := BLOCK_SIZE - pos % BLOCK_SIZE;
    if leftover < HEADER_SIZE then leftover else 0
  }

  /** Room for payload in the block that holds pos. */
  function Room(pos: nat): nat
    requires Padding(pos) == 0
  {
    BLOCK_SIZE - pos % BLOCK_SIZE - HEADER_SIZE
  }

  lemma PaddedHasRoom(pos: nat)
    ensures Padding(pos + Padding(pos)) == 0
  {
  }

  function FragmentType(begin: bool, end: bool): byte {
    if begin && end then FULL_TYPE else if begin then FIRST_TYPE else if end then LAST_TYPE else MIDDLE_TYPE
  }

  function Zeros(n: nat): (z: seq<byte>)
    ensures |z| == n
  {
    seq(n, _ => 0)
  }

  /** The bytes of a record, or of what is left of one, written at file position pos. */
  function Fragments(extend: Checksum, pos: nat, data: seq<byte>, begin: bool): (bytes: seq<byte>)
    ensures |bytes| >= HEADER_SIZE
    decreases |data|, if Padding(pos) == 0 && Room(pos) == 0 then 1 else 0
  {
    PaddedHasRoom(pos);
    var pad := Padding(pos);
    var at := pos + pad;
    var room := Room(at);
    if |data| <= room then
      Zeros(pad) + Physical(extend, FragmentType(begin, true), data)
    else
      Zeros(pad) + Physical(extend, FragmentType(begin, false), data[..room])
      + Fragments(extend, at + HEADER_SIZE + room, data[room..], false)
  }

  /** The log that holds the records rs. */
  function Log(extend: Checksum, rs: seq<seq<byte>>): seq<byte> {
    if rs == [] then []
    else
      var front := Log(extend, rs[..|rs| - 1]);
      front + Fragments(extend, |front|, rs[|rs| - 1], true)
  }

  // ----- what the reader makes of any file -----

  /** One ReadPhysicalRecord: type and payload, where it leaves off, and what it reports dropped. */
  datatype Parsed = Parsed(t: byte, payload: seq<byte>, next: nat, drops: seq<nat>)

  function BlockEnd(file: seq<byte>, p: nat): nat {
    var end := (p / BLOCK_SIZE + 1) * BLOCK_SIZE;
    if end <= |file| then end else |file|
  }

  predicate WholeBlock(file: seq<byte>, p: nat) { (p / BLOCK_SIZE + 1) * BLOCK_SIZE <= |file| }

  /** Past a block's trailer, if p is in one. */
  function SkipTrailer(file: seq<byte>, p: nat): nat {
    if WholeBlock(file, p) && BlockEnd(file, p) - p < HEADER_SIZE then BlockEnd(file, p) else p
  }

  /** The record at the start of the buffer, which holds a block from `at` to its end or the end of the file. */
  function ParseBuffer(extend: Checksum, buffer: seq<byte>, eof: bool, at: nat): (r: Parsed)
    requires |buffer| >= HEADER_SIZE
    ensures r.next <= at + |buffer| && (r.t != EOF_TYPE ==> at < r.next)
  {
    var length := buffer[4] as int + buffer[5] as int * 0x100;
    var t, end := buffer[6], at + |buffer|;
    if HEADER_SIZE + length > |buffer| then
      if eof then Parsed(EOF_TYPE, [], end, []) else Parsed(BAD_TYPE, [], end, [|buffer|])
    else if t == ZERO_TYPE && length == 0 then Parsed(BAD_TYPE, [], end, [])
    else if extend(0, buffer[6..HEADER_SIZE + length]) != Unmask(DecodeFixed32(buffer)) then
      Parsed(BAD_TYPE, [], end, [|buffer|])
    else Parsed(t, buffer[HEADER_SIZE..HEADER_SIZE + length], at + HEADER_SIZE + length, [])
  }

  function ParseAt(extend: Checksum, file: seq<byte>, p: nat): (r: Parsed)
    requires p <= |file|
    ensures r.next <= |file| && (r.t != EOF_TYPE ==> p < r.next)
  {
    var at := SkipTrailer(file, p);
    var end := BlockEnd(file, at);
    if end - at < HEADER_SIZE then Parsed(EOF_TYPE, [], |file|, [])
    else ParseBuffer(extend, file[at..end], !WholeBlock(file, at), at)
  }

  /** What one ReadRecord does: the record, or none; where it leaves off; and the drops it reports. */
  datatype Scan = Scan(record: Option<seq<byte>>, next: nat, drops: seq<nat>)

  function Partial(inFragment: bool, scratch: seq<byte>): seq<nat> {
    if inFragment && scratch != [] then [|scratch|] else []
  }

  function Dropping(drops: seq<nat>, s: Scan): Scan { s.(drops := drops + s.drops) }

  /** What the reader does with one physical record: end the scan, or go on with what it has collected. */
  datatype Turn =
    | Done(record: Option<seq<byte>>, drops: seq<nat>)
    | GoOn(inFragment: bool, scratch: seq<byte>, drops: seq<nat>)

  function Take(t: byte, payload: seq<byte>, inFragment: bool, scratch: seq<byte>): Turn {
    if t == FULL_TYPE then Done(Some(payload), Partial(inFragment, scratch))
    else if t == FIRST_TYPE then GoOn(true, payload, Partial(inFragment, scratch))
    else if t == MIDDLE_TYPE then
      if inFragment then GoOn(true, scratch + payload, []) else GoOn(false, scratch, [|payload|])
    else if t == LAST_TYPE then
      if inFragment then Done(Some(scratch + payload), []) else GoOn(false, scratch, [|payload|])
    else if t == EOF_TYPE then Done(None, [])
    else if t == BAD_TYPE then
      if inFragment then GoOn(false, [], [|scratch|]) else GoOn(false, scratch, [])
    else GoOn(false, [], [|payload| + if inFragment then |scratch| else 0])
  }

  function ReadFrom(extend: Checksum, file: seq<byte>, p: nat, inFragment: bool, scratch: seq<byte>): (s: Scan)
    requires p <= |file|
    ensures s.next <= |file| && (s.record.Some? ==> p < s.next)
    decreases |file| - p
  {
    var r := ParseAt(extend, file, p);
    match Take(r.t, r.payload, inFragment, scratch)
    case Done(record, drops) => Scan(record, r.next, r.drops + drops)
    case GoOn(inFragment', scratch', drops) =>
      Dropping(r.drops + drops, ReadFrom(extend, file, r.next, inFragment', scratch'))
  }

  /** Reading a file to its end. */
  function ReadAll(extend: Checksum, file: seq<byte>, p: nat): (r: (seq<seq<byte>>, seq<nat>))
    requires p <= |file|
    decreases |file| - p
  {
    var s := ReadFrom(extend, file, p, false, []);
    if s.record.None? then ([], s.drops)
    else
      var rest := ReadAll(extend, file, s.next);
      ([s.record.value] + rest.0, s.drops + rest.1)
  }

  // ----- one fragment -----

  /** file[at..] starts with bytes, or, where the file ends first, with as much of them as there is. */
  predicate Begins(file: seq<byte>, at: nat, bytes: seq<byte>) {
    forall i :: 0 <= i < |bytes| && at + i < |file| ==> file[at + i] == bytes[i]
  }

  /** A fragment that is wholly in the file is parsed back. */
  lemma FragmentIsParsed(extend: Checksum, file: seq<byte>, p: nat, t: byte, payload: seq<byte>)
    requires p + Padding(p) + HEADER_SIZE + |payload| <= |file| && |payload| <= Room(p + Padding(p)) && t != ZERO_TYPE
    requires Begins(file, p + Padding(p), Physical(extend, t, payload))
    ensures ParseAt(extend, file, p) == Parsed(t, payload, p + Padding(p) + HEADER_SIZE + |payload|, [])
  {
    var at := p + Padding(p);
    var bytes := Physical(extend, t, payload);
    SkipsPadding(file, p);
    HeaderOf(extend, t, payload);
    var buffer := file[at..BlockEnd(file, at)];
    assert forall i :: 0 <= i < |bytes| ==> buffer[i] == file[at + i] == bytes[i];
    assert buffer[HEADER_SIZE..HEADER_SIZE + |payload|] == payload;
    assert buffer[6..HEADER_SIZE + |payload|] == [t] + payload;
    UnmaskInvertsMask(extend(0, [t] + payload));
  }

  lemma SkipsPadding(file: seq<byte>, p: nat)
    requires p + Padding(p) + HEADER_SIZE <= |file|
    ensures SkipTrailer(file, p) == p + Padding(p)
    ensures BlockEnd(file, p + Padding(p)) >= p + Padding(p) + HEADER_SIZE
    ensures WholeBlock(file, p + Padding(p)) ==>
      BlockEnd(file, p + Padding(p)) == p + Padding(p) + Room(p + Padding(p)) + HEADER_SIZE
    ensures !WholeBlock(file, p + Padding(p)) ==> BlockEnd(file, p + Padding(p)) == |file|
    ensures BlockEnd(file, p + Padding(p)) <= |file|
  {
  }

  lemma HeaderOf(extend: Checksum, t: byte, payload: seq<byte>)
    requires |payload| <= 0xffff
    ensures var bytes := Physical(extend, t, payload);
            && bytes[4] as int + bytes[5] as int * 0x100 == |payload| && bytes[6] == t
               && bytes[HEADER_SIZE..] == payload
            && DecodeFixed32(bytes) == Mask(extend(0, [t] + payload))
  {
    var crc := Mask(extend(0, [t] + payload));
    var tail := [|payload| % 0x100, |payload| / 0x100, t] + payload;
    assert Physical(extend, t, payload) == EncodeFixed32(crc) + tail;
    Fixed32RoundTrip(crc, tail);
  }

  /** A fragment that the file cuts off is the end of the file, not a corruption. */
  lemma CutFragmentIsEof(extend: Checksum, file: seq<byte>, p: nat, t: byte, payload: seq<byte>)
    requires p <= |file| < p + Padding(p) + HEADER_SIZE + |payload| && |payload| <= Room(p + Padding(p))
    requires Begins(file, p + Padding(p), Physical(extend, t, payload))
    ensures ParseAt(extend, file, p) == Parsed(EOF_TYPE, [], |file|, [])
  {
    var at := p + Padding(p);
    var bytes := Physical(extend, t, payload);
    HeaderOf(extend, t, payload);
    if at + HEADER_SIZE <= |file| {
      SkipsPadding(file, p);
      var buffer := file[at..BlockEnd(file, at)];
      assert buffer[4] == file[at + 4] == bytes[4] && buffer[5] == file[at + 5] == bytes[5];
    }
  }

  lemma BeginsParts(file: seq<byte>, at: nat, a: seq<byte>, b: seq<byte>)
    requires Begins(file, at, a + b)
    ensures Begins(file, at, a) && Begins(file, at + |a|, b)
  {
    forall i | 0 <= i < |a| && at + i < |file| ensures file[at + i] == a[i] { assert (a + b)[i] == a[i]; }
    forall i | 0 <= i < |b| && at + |a| + i < |file|
      ensures file[at + |a| + i] == b[i]
    {
      assert (a + b)[|a| + i] == b[i];
    }
  }

  /** The first fragment of what is left of a record, and the rest. */
  lemma FragmentsSplit(extend: Checksum, file: seq<byte>, p: nat, data: seq<byte>, begin: bool)
    requires Begins(file, p, Fragments(extend, p, data, begin))
    ensures var at := p + Padding(p);
            && Padding(at) == 0
            && (|data| <= Room(at) ==>
                  |Fragments(extend, p, data, begin)| == Padding(p) + HEADER_SIZE + |data| &&
                  Begins(file, at, Physical(extend, FragmentType(begin, true), data)))
            && (|data| > Room(at) ==>
                  |Fragments(extend, p, data, begin)| == Padding(p) + HEADER_SIZE + Room(at)
                    + |Fragments(extend, at + HEADER_SIZE + Room(at), data[Room(at)..], false)| &&
                  Begins(file, at, Physical(extend, FragmentType(begin, false), data[..Room(at)])) &&
                  Begins(file, at + HEADER_SIZE + Room(at),
                         Fragments(extend, at + HEADER_SIZE + Room(at), data[Room(at)..], false)))
  {
    hide Physical, Begins;
    PaddedHasRoom(p);
    var at := p + Padding(p);
    var pad := Zeros(Padding(p));
    if |data| <= Room(at) {
      BeginsParts(file, p, pad, Physical(extend, FragmentType(begin, true), data));
    } else {
      var first := Physical(extend, FragmentType(begin, false), data[..Room(at)]);
      var rest := Fragments(extend, at + HEADER_SIZE + Room(at), data[Room(at)..], false);
      assert Fragments(extend, p, data, begin) == (pad + first) + rest;
      BeginsParts(file, p, pad + first, rest);
      BeginsParts(file, p, pad, first);
    }
  }

  /** ReadFrom on a first or middle fragment of a record. */
  lemma ReadMore(extend: Checksum, file: seq<byte>, p: nat, begin: bool, scratch: seq<byte>, payload: seq<byte>,
                 next: nat)
    requires p <= |file| && (begin ==> scratch == [])
    requires ParseAt(extend, file, p) == Parsed(FragmentType(begin, false), payload, next, [])
    ensures ReadFrom(extend, file, p, !begin, scratch) == ReadFrom(extend, file, next, true, scratch + payload)
  {
    hide ParseAt;
    assert [] + payload == payload;
    if begin {
      var s := ReadFrom(extend, file, next, true, payload);
      assert [] + s.drops == s.drops;
    }
  }

  lemma ReadLast(extend: Checksum, file: seq<byte>, p: nat, begin: bool, scratch: seq<byte>, payload: seq<byte>,
                 next: nat)
    requires p <= |file| && (begin ==> scratch == [])
    requires ParseAt(extend, file, p) == Parsed(FragmentType(begin, true), payload, next, [])
    ensures ReadFrom(extend, file, p, !begin, scratch) == Scan(Some(scratch + payload), next, [])
  {
    hide ParseAt;
    assert [] + payload == payload;
  }

  /** A record that is wholly in the file is read back, joined to what scratch holds of it. */
  lemma {:induction false} WholeRecordIsRead(extend: Checksum, file: seq<byte>, p: nat, data: seq<byte>, begin: bool,
                                             scratch: seq<byte>)
    requires p + |Fragments(extend, p, data, begin)| <= |file| && Begins(file, p, Fragments(extend, p, data, begin))
    requires begin ==> scratch == []
    ensures ReadFrom(extend, file, p, !begin, scratch)
            == Scan(Some(scratch + data), p + |Fragments(extend, p, data, begin)|, [])
    decreases |data|, if Padding(p) == 0 && Room(p) == 0 then 1 else 0
  {
    hide Fragments, ReadFrom, ParseAt, Physical, Begins;
    FragmentsSplit(extend, file, p, data, begin);
    var at := p + Padding(p);
    if |data| <= Room(at) {
      FragmentIsParsed(extend, file, p, FragmentType(begin, true), data);
      ReadLast(extend, file, p, begin, scratch, data, at + HEADER_SIZE + |data|);
    } else {
      var now, later, next := data[..Room(at)], data[Room(at)..], at + HEADER_SIZE + Room(at);
      FragmentIsParsed(extend, file, p, FragmentType(begin, false), now);
      ReadMore(extend, file, p, begin, scratch, now, next);
      WholeRecordIsRead(extend, file, next, later, false, scratch + now);
      assert scratch + now + later == scratch + data;
    }
  }

  /** A record the file cuts off is not read and nothing is reported. */
  lemma {:induction false} CutRecordIsDropped(extend: Checksum, file: seq<byte>, p: nat, data: seq<byte>, begin: bool,
                                              scratch: seq<byte>)
    requires p <= |file| < p + |Fragments(extend, p, data, begin)| && Begins(file, p, Fragments(extend, p, data, begin))
    requires begin ==> scratch == []
    ensures ReadFrom(extend, file, p, !begin, scratch) == Scan(None, |file|, [])
    decreases |data|, if Padding(p) == 0 && Room(p) == 0 then 1 else 0
  {
    hide Fragments, ReadFrom, ParseAt, Physical, Begins;
    FragmentsSplit(extend, file, p, data, begin);
    var at := p + Padding(p);
    if |data| <= Room(at) {
      CutFragmentIsEof(extend, file, p, FragmentType(begin, true), data);
      ReadNone(extend, file, p, !begin, scratch);
    } else {
      var now, later, next := data[..Room(at)], data[Room(at)..], at + HEADER_SIZE + Room(at);
      if next <= |file| {
        FragmentIsParsed(extend, file, p, FragmentType(begin, false), now);
        ReadMore(extend, file, p, begin, scratch, now, next);
        CutRecordIsDropped(extend, file, next, later, false, scratch + now);
      } else {
        CutFragmentIsEof(extend, file, p, FragmentType(begin, false), now);
        ReadNone(extend, file, p, !begin, scratch);
      }
    }
  }

  lemma ReadNone(extend: Checksum, file: seq<byte>, p: nat, inFragment: bool, scratch: seq<byte>)
    requires p <= |file| && ParseAt(extend, file, p) == Parsed(EOF_TYPE, [], |file|, [])
    ensures ReadFrom(extend, file, p, inFragment, scratch) == Scan(None, |file|, [])
  {
  }

  // ----- whole logs -----

  /** Where record i of a log ends. */
  function End(extend: Checksum, rs: seq<seq<byte>>, i: nat): nat
    requires i <= |rs|
  {
    |Log(extend, rs[..i])|
  }

  /** The last record of a log follows what the others take. */
  lemma LogLast(extend: Checksum, rs: seq<seq<byte>>)
    requires rs != []
    ensures var front := Log(extend, rs[..|rs| - 1]);
            var last := Fragments(extend, |front|, rs[|rs| - 1], true);
            Log(extend, rs) == front + last && Begins(Log(extend, rs), |front|, last)
  {
    hide Fragments;
  }

  lemma {:induction false} LogPrefix(extend: Checksum, rs: seq<seq<byte>>, i: nat)
    requires i < |rs|
    ensures End(extend, rs, i) + |Fragments(extend, End(extend, rs, i), rs[i], true)| ==
      End(extend, rs, i + 1) <= |Log(extend, rs)|
    ensures Begins(Log(extend, rs), End(extend, rs, i), Fragments(extend, End(extend, rs, i), rs[i], true))
    decreases |rs|
  {
    hide Log, Fragments;
    var front := rs[..|rs| - 1];
    LogLast(extend, rs);
    if i == |rs| - 1 {
      assert rs[..i + 1] == rs && rs[..i] == front;
    } else {
      assert front[..i] == rs[..i] && front[..i + 1] == rs[..i + 1];
      LogPrefix(extend, front, i);
      var at := End(extend, rs, i);
      BeginsInLonger(Log(extend, front), Log(extend, rs), at, Fragments(extend, at, rs[i], true));
    }
  }

  lemma BeginsInLonger(file: seq<byte>, longer: seq<byte>, at: nat, bytes: seq<byte>)
    requires file <= longer && at + |bytes| <= |file| && Begins(file, at, bytes)
    ensures Begins(longer, at, bytes)
  {
  }

  lemma BeginsInPrefix(file: seq<byte>, n: nat, at: nat, bytes: seq<byte>)
    requires n <= |file| && Begins(file, at, bytes)
    ensures Begins(file[..n], at, bytes)
  {
  }

  /** Reading the first n bytes of a log from the start of record i yields the records that end within them. */
  lemma {:induction false} PrefixFrom(extend: Checksum, rs: seq<seq<byte>>, n: nat, i: nat, k: nat)
    requires n <= |Log(extend, rs)| && i <= k <= |rs| && End(extend, rs, k) <= n && End(extend, rs, i) <= n
    requires k < |rs| ==> n < End(extend, rs, k + 1)
    ensures ReadAll(extend, Log(extend, rs)[..n], End(extend, rs, i)) == (rs[i..k], [])
    decreases k - i
  {
    hide Log, Fragments, ReadFrom, Begins;
    var file, p := Log(extend, rs)[..n], End(extend, rs, i);
    if i < |rs| {
      LogPrefix(extend, rs, i);
      BeginsInPrefix(Log(extend, rs), n, p, Fragments(extend, p, rs[i], true));
    }
    if i < k {
      EndsGrow(extend, rs, i + 1, k);
      WholeRecordIsRead(extend, file, p, rs[i], true, []);
      PrefixFrom(extend, rs, n, i + 1, k);
      assert rs[i..k] == [rs[i]] + rs[i + 1..k];
      assert [] + rs[i] == rs[i];
      var none: seq<nat> := [];
      assert ReadFrom(extend, file, p, false, []) == Scan(Some(rs[i]), End(extend, rs, i + 1), none)
        && none + none == none;
    } else if k < |rs| {
      CutRecordIsDropped(extend, file, p, rs[i], true, []);
    } else {
      assert rs[..k] == rs && p == |file|;
      NothingLeft(extend, file);
      assert rs[i..k] == [];
    }
  }

  lemma NothingLeft(extend: Checksum, file: seq<byte>)
    ensures ReadFrom(extend, file, |file|, false, []) == Scan(None, |file|, [])
  {
    assert ParseAt(extend, file, |file|).t == EOF_TYPE;
  }

  lemma {:induction false} EndsGrow(extend: Checksum, rs: seq<seq<byte>>, i: nat, k: nat)
    requires i <= k <= |rs|
    ensures End(extend, rs, i) <= End(extend, rs, k)
    decreases k
  {
    hide Log, Fragments, Begins;
    if i < k {
      EndsGrow(extend, rs, i, k - 1);
      LogPrefix(extend, rs, k - 1);
    }
  }

  /** How many records of the log end within its first n bytes. */
  function Complete(extend: Checksum, rs: seq<seq<byte>>, n: nat): (k: nat)
    ensures k <= |rs|
  {
    if rs == [] then 0
    else if |Log(extend, rs)| <= n then |rs|
    else Complete(extend, rs[..|rs| - 1], n)
  }

  lemma {:induction false} CompleteIs(extend: Checksum, rs: seq<seq<byte>>, n: nat)
    ensures var k := Complete(extend, rs, n);
            End(extend, rs, k) <= n && (k < |rs| ==> n < End(extend, rs, k + 1))
  {
    hide Fragments;
    if rs != [] && |Log(extend, rs)| > n {
      var front := rs[..|rs| - 1];
      CompleteIs(extend, front, n);
      var k := Complete(extend, front, n);
      assert front[..k] == rs[..k];
      if k < |front| { assert front[..k + 1] == rs[..k + 1]; } else { assert rs[..k + 1] == rs; }
    } else {
      assert rs[..|rs|] == rs;
    }
  }

  /** Reading the first n bytes of a log gives exactly the records that end within them, and reports no drop. */
  lemma PrefixRoundTrip(extend: Checksum, rs: seq<seq<byte>>, n: nat)
    requires n <= |Log(extend, rs)|
    ensures ReadAll(extend, Log(extend, rs)[..n], 0) == (rs[..Complete(extend, rs, n)], [])
  {
    CompleteIs(extend, rs, n);
    assert rs[..0] == [];
    PrefixFrom(extend, rs, n, 0, Complete(extend, rs, n));
    assert rs[0..Complete(extend, rs, n)] == rs[..Complete(extend, rs, n)];
  }

  lemma RoundTrip(extend: Checksum, rs: seq<seq<byte>>)
    ensures ReadAll(extend, Log(extend, rs), 0) == (rs, [])
  {
    PrefixRoundTrip(extend, rs, |Log(extend, rs)|);
    CompleteIs(extend, rs, |Log(extend, rs)|);
    assert Log(extend, rs)[..|Log(extend, rs)|] == Log(extend, rs);
    assert rs[..|rs|] == rs;
  }
}
