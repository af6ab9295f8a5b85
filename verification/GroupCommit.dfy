/** Group commit as concurrent steps: writers queue up, the front one leads a group through the log and the
    memtable with the mutex released, and everyone in the group is acknowledged together. */
module GroupCommit {
  import opened Wrappers
  import opened Keys
  import opened LsmModel
  import opened StoreFacts

  datatype WriteBatch = WriteBatch(updates: seq<Update>, bytes: nat)

  /** A queued Write call; a batch of None only forces a memtable switch. */
  datatype Writer = Writer(batch: Option<WriteBatch>, sync: bool)

  function UpdatesOf(w: Writer): seq<Update> { if w.batch.Some? then w.batch.value.updates else [] }

  /** The batches of the writers, one after the other. */
  function Updates(ws: seq<Writer>): seq<Update> {
    if ws == [] then [] else Updates(ws[..|ws| - 1]) + UpdatesOf(ws[|ws| - 1])
  }

  lemma {:induction false} UpdatesJoin(a: seq<Writer>, b: seq<Writer>)
    ensures Updates(a + b) == Updates(a) + Updates(b)
    decreases |b|
  {
    if b == [] {
      assert a + b == a;
    } else {
      assert (a + b)[..|a + b| - 1] == a + b[..|b| - 1];
      UpdatesJoin(a, b[..|b| - 1]);
      assert Updates(a) + (Updates(b[..|b| - 1]) + UpdatesOf(b[|b| - 1])) ==
        Updates(a) + Updates(b[..|b| - 1]) + UpdatesOf(b[|b| - 1]);
    }
  }

  // ----- BuildBatchGroup -----

  function MaxGroupBytes(first: nat): nat { if first <= 0x2_0000 then first + 0x2_0000 else 0x10_0000 }

  function Bytes(ws: seq<Writer>): nat {
    if ws == [] then 0
    else Bytes(ws[..|ws| - 1]) + if ws[|ws| - 1].batch.Some? then ws[|ws| - 1].batch.value.bytes else 0
  }

  /** Writer i may join the group that the writers before it form. */
  predicate Joins(queue: seq<Writer>, i: nat)
    requires 0 < i < |queue| && queue[0].batch.Some?
  {
    && !(queue[i].sync && !queue[0].sync)
    && (queue[i].batch.Some? ==> Bytes(queue[..i + 1]) <= MaxGroupBytes(queue[0].batch.value.bytes))
  }

  /** The group is the longest run of writers from the front that may join. */
  ghost predicate IsGroup(queue: seq<Writer>, n: nat) {
    && 0 < n <= |queue| && queue[0].batch.Some?
    && (forall i :: 1 <= i < n ==> Joins(queue, i))
    && (n < |queue| ==> !Joins(queue, n))
  }

  method BuildBatchGroup(queue: seq<Writer>) returns (n: nat, group: seq<Update>)
    requires queue != [] && queue[0].batch.Some?
    ensures IsGroup(queue, n) && group == Updates(queue[..n])
  {
    var first := queue[0];
    group := first.batch.value.updates;
    var size := first.batch.value.bytes;
    var maxSize := 0x10_0000;
    if size <= 0x2_0000 {
      maxSize := size + 0x2_0000;
    }
    n := 1;
    assert queue[..1] == [first] && [first][..0] == [];
    while n < |queue|
      invariant 1 <= n <= |queue| && group == Updates(queue[..n]) && size == Bytes(queue[..n])
      invariant forall i :: 1 <= i < n ==> Joins(queue, i)
    {
      var w := queue[n];
      assert queue[..n + 1][..n] == queue[..n];
      if w.sync && !first.sync {
        return;
      }
      if w.batch.Some? {
        size := size + w.batch.value.bytes;
        if size > maxSize {
          return;
        }
        group := group + w.batch.value.updates;
      }
      n := n + 1;
    }
  }

  // ----- the steps -----

  datatype Phase =
    | Free                                             // the front writer, if any, has not chosen its group
    | Chosen(count: nat, group: seq<Update>)
    | Logged(count: nat, group: seq<Update>)           // the group is in the log
    | Applying(count: nat, group: seq<Update>, k: nat) // synced if asked; k entries are in the memtable

  datatype State = State(
    arrived: seq<Writer>,    // every Write call so far, in queue order
    front: nat,              // calls before this one have been acknowledged
    phase: Phase,
    last: nat,               // versions_->LastSequence()
    log: seq<seq<Entry>>,
    fileStart: nat,          // the record the current log file begins with
    durable: set<nat>,       // the records that syncs have covered, each sync those of its own file
    inserted: seq<Entry>)    // memtable insertions, in order

  datatype Step =
    | Arrive(w: Writer) | LeadNothing | Lead(count: nat) | SwitchLog | AddRecord | SyncFile | NoSync | InsertOne
    | Finish

  ghost predicate Enabled(s: State, step: Step) {
    match step
    case Arrive(w) => true
    case LeadNothing => s.phase.Free? && s.front < |s.arrived| && s.arrived[s.front].batch.None?
    case Lead(n) =>
      && s.phase.Free? && s.front < |s.arrived| && IsGroup(s.arrived[s.front..], n)
      && s.last + |Updates(s.arrived[s.front..s.front + n])| < MAX_SEQUENCE
    case SwitchLog => s.phase.Free? && s.front < |s.arrived| // MakeRoomForWrite; the closed file is not synced
    case AddRecord => s.phase.Chosen? && s.last + |s.phase.group| < MAX_SEQUENCE
    case SyncFile => s.phase.Logged? && s.front < |s.arrived| && s.arrived[s.front].sync
    case NoSync => s.phase.Logged? && s.front < |s.arrived| && !s.arrived[s.front].sync
    case InsertOne => s.phase.Applying? && s.phase.k < |s.phase.group| && s.last + |s.phase.group| < MAX_SEQUENCE
    case Finish => s.phase.Applying? && s.phase.k == |s.phase.group|
  }

  function Range(from: nat, upto: nat): (rs: set<nat>)
    ensures forall r :: r in rs <==> from <= r < upto
    decreases upto - from
  {
    if from >= upto then {} else {from} + Range(from + 1, upto)
  }

  /** The entries a group becomes: its sequence numbers follow the last one. */
  function Record(s: State): seq<Entry>
    requires !s.phase.Free? && s.last + |s.phase.group| < MAX_SEQUENCE
  {
    Number(s.phase.group, s.last + 1)
  }

  function Apply(s: State, step: Step): State
    requires Enabled(s, step)
  {
    match step
    case Arrive(w) => s.(arrived := s.arrived + [w])
    case LeadNothing => s.(front := s.front + 1)
    case Lead(n) => s.(phase := Chosen(n, Updates(s.arrived[s.front..s.front + n])))
    case SwitchLog => s.(fileStart := |s.log|)
    case AddRecord => s.(phase := Logged(s.phase.count, s.phase.group), log := s.log + [Record(s)])
    case SyncFile =>
      s.(phase := Applying(s.phase.count, s.phase.group, 0), durable := s.durable + Range(s.fileStart, |s.log|))
    case NoSync => s.(phase := Applying(s.phase.count, s.phase.group, 0))
    case InsertOne => s.(phase := s.phase.(k := s.phase.k + 1), inserted := s.inserted + [Record(s)[s.phase.k]])
    case Finish => s.(phase := Free, front := s.front + s.phase.count, last := s.last + |s.phase.group|)
  }

  // ----- what holds at every step -----

  /** All entries of the first n calls, in queue order, numbered from 1 without gaps. */
  ghost function EntriesOf(arrived: seq<Writer>, n: nat): seq<Entry>
    requires n <= |arrived| && |Updates(arrived[..n])| < MAX_SEQUENCE
  {
    Number(Updates(arrived[..n]), 1)
  }

  /** How many calls' batches are in the log. */
  ghost function InLog(s: State): nat { if s.phase.Free? || s.phase.Chosen? then s.front else s.front + s.phase.count }

  ghost predicate Inv(s: State) {
    && s.front <= |s.arrived| && s.fileStart <= |s.log| && (forall r :: r in s.durable ==> r < |s.log|)
    && s.last == |Updates(s.arrived[..s.front])| < MAX_SEQUENCE
    && (!s.phase.Free? ==> GroupOk(s))
    && InLog(s) <= |s.arrived| && |Updates(s.arrived[..InLog(s)])| < MAX_SEQUENCE
    && Flatten(s.log) == EntriesOf(s.arrived, InLog(s))
    && InsertedOk(s)
    && SyncOk(s)
  }

  ghost predicate GroupOk(s: State)
    requires s.front <= |s.arrived| && !s.phase.Free?
  {
    && 0 < s.phase.count <= |s.arrived| - s.front
    && s.phase.group == Updates(s.arrived[s.front..s.front + s.phase.count])
    && s.last + |s.phase.group| < MAX_SEQUENCE
    && forall i :: s.front <= i < s.front + s.phase.count && s.arrived[i].sync ==> s.arrived[s.front].sync
  }

  /** The memtable holds the log's entries in the log's order, up to where the leader has got. */
  ghost predicate InsertedOk(s: State) {
    && s.last + (if s.phase.Applying? then s.phase.k else 0) <= |Flatten(s.log)|
    && (s.phase.Applying? ==> s.phase.k <= |s.phase.group|)
    && s.inserted == Flatten(s.log)[..s.last + if s.phase.Applying? then s.phase.k else 0]
  }

  /** Call w's updates are all in record r. */
  ghost predicate InRecord(s: State, r: nat, w: nat)
    requires w < |s.arrived|
  {
    && r < |s.log| && |Flatten(s.log[..r])| <= |Updates(s.arrived[..w])|
    && |Updates(s.arrived[..w + 1])| <= |Flatten(s.log[..r + 1])|
  }

  /** The record of an acknowledged sync write has been synced, and a sync leader has synced before it inserts. */
  ghost predicate SyncOk(s: State)
    requires s.front <= |s.arrived|
  {
    && (forall i :: 0 <= i < s.front && s.arrived[i].sync && s.arrived[i].batch.Some? ==>
         exists r :: r in s.durable && InRecord(s, r, i))
    && (s.phase.Logged? || s.phase.Applying? ==>
          0 < |s.log| && s.fileStart < |s.log| && |Flatten(s.log[..|s.log| - 1])| == s.last)
    && (s.phase.Applying? && s.front < |s.arrived| && s.arrived[s.front].sync ==> |s.log| - 1 in s.durable)
  }

  lemma NumberJoin(a: seq<Update>, b: seq<Update>, first: SeqNo)
    requires first + |a| + |b| <= MAX_SEQUENCE
    ensures Number(a + b, first) == Number(a, first) + Number(b, first + |a|)
  {
  }

  /** The calls up to the end of a group are the calls before it and the group. */
  lemma GroupExtends(arrived: seq<Writer>, front: nat, n: nat)
    requires front + n <= |arrived|
    ensures Updates(arrived[..front + n]) == Updates(arrived[..front]) + Updates(arrived[front..front + n])
  {
    assert arrived[..front + n] == arrived[..front] + arrived[front..front + n];
    UpdatesJoin(arrived[..front], arrived[front..front + n]);
  }

  lemma SamePrefix(a: seq<Writer>, b: seq<Writer>, n: nat)
    requires n <= |a| && a <= b
    ensures a[..n] == b[..n]
  {
  }

  lemma StepInv(s: State, step: Step)
    requires Inv(s) && Enabled(s, step)
    ensures Inv(Apply(s, step))
  {
    hide Inv;
    match step
    case Arrive(w) => ArriveInv(s, w);
    case LeadNothing => LeadNothingInv(s);
    case Lead(n) => LeadInv(s, n);
    case SwitchLog => SwitchLogInv(s);
    case AddRecord => AddRecordInv(s);
    case SyncFile => SyncInv(s);
    case NoSync => NoSyncInv(s);
    case InsertOne => InsertInv(s);
    case Finish => FinishInv(s);
  }

  lemma NoSyncInv(s: State)
    requires Inv(s) && Enabled(s, NoSync)
    ensures Inv(Apply(s, NoSync))
  {
    hide Updates, Flatten, Number;
  }

  lemma ArriveInv(s: State, w: Writer)
    requires Inv(s)
    ensures Inv(Apply(s, Arrive(w)))
  {
    hide Updates, Flatten, Number;
    var t := Apply(s, Arrive(w));
    forall n: nat | n <= |s.arrived| ensures t.arrived[..n] == s.arrived[..n] { SamePrefix(s.arrived, t.arrived, n); }
    if !s.phase.Free? {
      assert t.arrived[s.front..s.front + s.phase.count] == s.arrived[s.front..s.front + s.phase.count];
    }
    SyncStays(s, t);
  }

  /** Covered records stay covered while calls and records are added. */
  lemma SyncStays(s: State, t: State)
    requires s.front == t.front <= |s.arrived| && s.arrived <= t.arrived && s.log <= t.log && s.durable <= t.durable
    requires forall i :: 0 <= i < s.front && s.arrived[i].sync && s.arrived[i].batch.Some? ==>
      exists r :: r in s.durable && InRecord(s, r, i)
    ensures forall i :: 0 <= i < t.front && t.arrived[i].sync && t.arrived[i].batch.Some? ==>
      exists r :: r in t.durable && InRecord(t, r, i)
  {
    hide Updates, Flatten;
    forall i | 0 <= i < t.front && t.arrived[i].sync && t.arrived[i].batch.Some?
      ensures exists r :: r in t.durable && InRecord(t, r, i)
    {
      var r :| r in s.durable && InRecord(s, r, i);
      SamePrefix(s.arrived, t.arrived, i);
      SamePrefix(s.arrived, t.arrived, i + 1);
      assert t.log[..r] == s.log[..r] && t.log[..r + 1] == s.log[..r + 1];
      assert InRecord(t, r, i);
    }
  }

  lemma SwitchLogInv(s: State)
    requires Inv(s) && Enabled(s, SwitchLog)
    ensures Inv(Apply(s, SwitchLog))
  {
    hide Updates, Flatten, Number;
    SyncStays(s, Apply(s, SwitchLog));
  }

  lemma LeadNothingInv(s: State)
    requires Inv(s) && Enabled(s, LeadNothing)
    ensures Inv(Apply(s, LeadNothing))
  {
    hide Flatten, Number;
    assert s.arrived[..s.front + 1][..s.front] == s.arrived[..s.front];
    assert Updates(s.arrived[..s.front + 1]) == Updates(s.arrived[..s.front]);
  }

  lemma LeadInv(s: State, n: nat)
    requires Inv(s) && Enabled(s, Lead(n))
    ensures Inv(Apply(s, Lead(n)))
  {
    hide Updates, Flatten, Number, Bytes;
    var queue := s.arrived[s.front..];
    assert queue[..n] == s.arrived[s.front..s.front + n];
    forall i | s.front <= i < s.front + n && s.arrived[i].sync ensures s.arrived[s.front].sync {
      if i > s.front { assert Joins(queue, i - s.front) && queue[i - s.front] == s.arrived[i]; }
    }
  }

  lemma AddRecordInv(s: State)
    requires Inv(s) && Enabled(s, AddRecord)
    ensures Inv(Apply(s, AddRecord))
  {
    hide Updates, Number;
    var t := Apply(s, AddRecord);
    GroupExtends(s.arrived, s.front, s.phase.count);
    NumberJoin(Updates(s.arrived[..s.front]), s.phase.group, 1);
    assert t.log[..|s.log|] == s.log;
    SyncStays(s, t);
  }

  lemma SyncInv(s: State)
    requires Inv(s) && Enabled(s, SyncFile)
    ensures Inv(Apply(s, SyncFile))
  {
    hide Updates, Flatten, Number;
    var t := Apply(s, SyncFile);
    SyncStays(s, t);
  }

  lemma {:induction false} UpdatesGrow(arrived: seq<Writer>, i: nat, k: nat)
    requires i <= k <= |arrived|
    ensures Updates(arrived[..i]) <= Updates(arrived[..k])
  {
    GroupExtends(arrived, i, k - i);
  }

  lemma InsertInv(s: State)
    requires Inv(s) && Enabled(s, InsertOne)
    ensures Inv(Apply(s, InsertOne))
  {
    hide Updates, Flatten, Number;
    var t := Apply(s, InsertOne);
    var flat, k := Flatten(s.log), s.last + s.phase.k;
    GroupExtends(s.arrived, s.front, s.phase.count);
    NumberJoin(Updates(s.arrived[..s.front]), s.phase.group, 1);
    assert flat[k] == Record(s)[s.phase.k];
    assert flat[..k + 1] == flat[..k] + [flat[k]];
  }

  lemma FinishInv(s: State)
    requires Inv(s) && Enabled(s, Finish)
    ensures Inv(Apply(s, Finish))
  {
    hide Updates, Flatten, Number;
    var t := Apply(s, Finish);
    GroupExtends(s.arrived, s.front, s.phase.count);
    assert t.log[..|t.log|] == t.log;
    forall i | 0 <= i < t.front && t.arrived[i].sync && t.arrived[i].batch.Some?
      ensures exists r :: r in t.durable && InRecord(t, r, i)
    {
      if i < s.front {
        var r :| r in s.durable && InRecord(s, r, i);
        assert InRecord(t, r, i);
      } else {
        UpdatesGrow(t.arrived, s.front, i);
        UpdatesGrow(t.arrived, i + 1, t.front);
        assert InRecord(t, |t.log| - 1, i);
      }
    }
  }

  // ----- every run -----

  function Start(): State { State([], 0, Free, 0, [], 0, {}, []) }

  ghost predicate Run(states: seq<State>, steps: seq<Step>) {
    && |states| == |steps| + 1 && states[0] == Start()
    && forall i :: 0 <= i < |steps| ==> Enabled(states[i], steps[i]) && states[i + 1] == Apply(states[i], steps[i])
  }

  lemma {:induction false} EveryRunInv(states: seq<State>, steps: seq<Step>, i: nat)
    requires Run(states, steps) && i < |states|
    ensures Inv(states[i])
  {
    if i > 0 {
      EveryRunInv(states, steps, i - 1);
      StepInv(states[i - 1], steps[i - 1]);
    }
  }

  /** An acknowledged batch is in the log exactly once: at the position its place in the queue gives it, with the
      consecutive sequence numbers that follow all earlier batches. Memtable order is log order. */
  lemma AcknowledgedIsLoggedOnce(states: seq<State>, steps: seq<Step>, i: nat, w: nat)
    requires Run(states, steps) && i < |states| && w < states[i].front
    ensures var s := states[i];
            && w < |s.arrived| && s.inserted <= Flatten(s.log)
            && (var a, b := |Updates(s.arrived[..w])|, |Updates(s.arrived[..w + 1])|;
                && a <= b <= |Flatten(s.log)| && a < MAX_SEQUENCE && a + 1 + |UpdatesOf(s.arrived[w])| <= MAX_SEQUENCE
                && Flatten(s.log)[a..b] == Number(UpdatesOf(s.arrived[w]), a + 1)
                && b <= |s.inserted|)
  {
    hide Inv;
    EveryRunInv(states, steps, i);
    LoggedOnce(states[i], w);
  }

  lemma LoggedOnce(s: State, w: nat)
    requires Inv(s) && w < s.front
    ensures w < |s.arrived| && s.inserted <= Flatten(s.log)
    ensures var a, b := |Updates(s.arrived[..w])|, |Updates(s.arrived[..w + 1])|;
            && a <= b <= |Flatten(s.log)| && a < MAX_SEQUENCE && a + 1 + |UpdatesOf(s.arrived[w])| <= MAX_SEQUENCE
            && Flatten(s.log)[a..b] == Number(UpdatesOf(s.arrived[w]), a + 1)
            && b <= |s.inserted|
  {
    hide Flatten, Number, SyncOk, GroupOk;
    var before, own := Updates(s.arrived[..w]), UpdatesOf(s.arrived[w]);
    assert s.arrived[..w + 1][..w] == s.arrived[..w];
    UpdatesGrow(s.arrived, w + 1, InLog(s));
    UpdatesGrow(s.arrived, w + 1, s.front);
    var all := Updates(s.arrived[..InLog(s)]);
    var rest := all[|before| + |own|..];
    assert all == (before + own) + rest;
    NumberJoin(before + own, rest, 1);
    NumberJoin(before, own, 1);
  }

  lemma {:induction false} Later(states: seq<State>, steps: seq<Step>, i: nat, k: nat)
    requires Run(states, steps) && i <= k < |states|
    ensures states[i].arrived <= states[k].arrived && states[i].front <= states[k].front
      && states[i].last <= states[k].last
    decreases k
  {
    if i < k { Later(states, steps, i, k - 1); }
  }

  /** What a reader that took its snapshot at step i sees of the memtable at any later step k: the batches of the
      calls acknowledged by i, whole, and nothing of any other. */
  lemma SnapshotSeesWholeBatches(states: seq<State>, steps: seq<Step>, i: nat, k: nat)
    requires Run(states, steps) && i <= k < |states|
    ensures Inv(states[i])
    ensures var snapshot, seen := states[i].last, states[k].inserted;
            && |EntriesOf(states[i].arrived, states[i].front)| <= |seen|
            && seen[..|EntriesOf(states[i].arrived, states[i].front)|] == EntriesOf(states[i].arrived, states[i].front)
            && forall m :: 0 <= m < |seen| ==>
               (seen[m].key.num <= snapshot <==> m < |EntriesOf(states[i].arrived, states[i].front)|)
  {
    hide Updates, Flatten, Number, SyncOk, Enabled, Apply;
    EveryRunInv(states, steps, i);
    EveryRunInv(states, steps, k);
    Later(states, steps, i, k);
    var s, t := states[i], states[k];
    SamePrefix(s.arrived, t.arrived, s.front);
    UpdatesGrow(t.arrived, s.front, InLog(t));
    var mine, all := Updates(s.arrived[..s.front]), Updates(t.arrived[..InLog(t)]);
    assert all == mine + all[|mine|..];
    NumberJoin(mine, all[|mine|..], 1);
  }

  /** No sync write is acknowledged before its record is synced: whatever records a crash spares besides the synced
      ones, its entries are all in one of them. Records of an earlier log file need not be. */
  lemma SyncWritesAreDurable(states: seq<State>, steps: seq<Step>, i: nat, w: nat, spared: set<nat>)
    requires Run(states, steps) && i < |states| && w < states[i].front && states[i].durable <= spared
    requires w < |states[i].arrived| && states[i].arrived[w].sync && states[i].arrived[w].batch.Some?
    ensures exists r, at :: r in spared && HeldAt(states[i], r, at, w)
  {
    hide Inv, HeldAt;
    EveryRunInv(states, steps, i);
    var s := states[i];
    LoggedOnce(s, w);
    var r := SyncedRecord(s, w);
    var at := PartOfRecord(s, r, w);
    assert r in spared && HeldAt(s, r, at, w);
  }

  /** From position at, record r holds the entries of call w, under the numbers that follow all earlier calls. */
  ghost predicate HeldAt(s: State, r: nat, at: nat, w: nat)
    requires w < |s.arrived|
  {
    var own, first := UpdatesOf(s.arrived[w]), |Updates(s.arrived[..w])| + 1;
    r < |s.log| && at + |own| <= |s.log[r]| && first + |own| <= MAX_SEQUENCE
      && s.log[r][at..at + |own|] == Number(own, first)
  }

  lemma SyncedRecord(s: State, w: nat) returns (r: nat)
    requires Inv(s) && w < s.front && w < |s.arrived| && s.arrived[w].sync && s.arrived[w].batch.Some?
    ensures r in s.durable && InRecord(s, r, w)
  {
    hide Flatten, Updates, Number;
    r :| r in s.durable && InRecord(s, r, w);
  }

  lemma PartOfRecord(s: State, r: nat, w: nat) returns (at: nat)
    requires w < |s.arrived| && InRecord(s, r, w)
    requires var a, b := |Updates(s.arrived[..w])|, |Updates(s.arrived[..w + 1])|;
             && b == a + |UpdatesOf(s.arrived[w])| <= |Flatten(s.log)|
                && a + 1 + |UpdatesOf(s.arrived[w])| <= MAX_SEQUENCE
             && Flatten(s.log)[a..b] == Number(UpdatesOf(s.arrived[w]), a + 1)
    ensures HeldAt(s, r, at, w)
  {
    hide Number, Updates;
    var a, n := |Updates(s.arrived[..w])|, |UpdatesOf(s.arrived[w])|;
    var before, flat := Flatten(s.log[..r]), Flatten(s.log);
    assert s.log[..r + 1][..r] == s.log[..r];
    FlattenStarts(s.log, r + 1);
    at := a - |before|;
    SliceIn(before, s.log[r], flat, a, n);
  }

  lemma SliceIn<T>(before: seq<T>, part: seq<T>, flat: seq<T>, a: nat, n: nat)
    requires before + part <= flat && |before| <= a && a + n <= |before| + |part|
    ensures part[a - |before|..a - |before| + n] == flat[a..a + n]
  {
    assert flat[a..a + n] == (before + part)[a..a + n];
  }

  lemma {:induction false} FlattenStarts(log: seq<seq<Entry>>, n: nat)
    requires n <= |log|
    ensures Flatten(log[..n]) <= Flatten(log)
  {
    if n == |log| {
      assert log[..n] == log;
    } else {
      FlattenStarts(log[..|log| - 1], n);
      assert log[..|log| - 1][..n] == log[..n];
    }
  }
}
