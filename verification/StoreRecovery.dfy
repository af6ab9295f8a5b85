/** Opening a store after a crash: replay the manifest in one builder, replay the logs in order into level-0
    tables, start a fresh log and manifest. The result is the state Reopen leads to. */
module StoreRecovery {
  import opened Wrappers
  import opened Keys
  import opened LsmModel
  import opened LsmShape
  import opened LsmRecovery
  import opened LsmReads
  import opened LsmRuns
  import opened LsmReplay
  import opened InputSelection
  import opened CompactionPick
  import opened VersionBuilder
  import opened StoreFacts
  import opened Store

  // ----- the manifest -----

  lemma {:induction false} AddedIsIn(manifest: seq<Edit>, l: nat, f: FileMeta)
    requires f in AddedAfter(manifest, l)
    ensures InManifest(manifest, (l, f))
  {
    var front, e := manifest[..|manifest| - 1], manifest[|manifest| - 1];
    assert manifest == front + [e];
    InLonger(front, e, (l, f));
    if f in AddedAfter(front, l) {
      AddedIsIn(front, l, f);
    } else {
      var p :| p in e.added && p.0 == l && p.1 == f;
      assert p == (l, f);
    }
  }

  /** Two files of the manifest that one set order cannot tell apart are one file. */
  lemma AddedHaveNoTies(manifest: seq<Edit>, l: nat)
    requires ManifestNames(manifest)
    ensures NoTies(AddedAfter(manifest, l)) && NumbersName({}, manifest, l)
  {
    forall f, g | f in AddedAfter(manifest, l) && g in AddedAfter(manifest, l) && f.number == g.number ensures f == g {
      AddedIsIn(manifest, l, f);
      AddedIsIn(manifest, l, g);
      assert InManifest(manifest, (l, f)) && InManifest(manifest, (l, g)) && (l, f).1.number == (l, g).1.number;
    }
  }

  lemma PrefixNames(manifest: seq<Edit>, i: nat)
    requires ManifestNames(manifest) && i <= |manifest|
    ensures ManifestNames(manifest[..i])
  {
    forall p | InManifest(manifest[..i], p) ensures InManifest(manifest, p) {
      var k :| 0 <= k < i && p in manifest[..i][k].added;
      assert p in manifest[k].added;
    }
  }

  /** VersionSet::Recover: every edit applied to one builder, saved once, is the live version. */
  method ReplayManifest(manifest: seq<Edit>) returns (lists: seq<seq<FileMeta>>)
    requires ManifestNames(manifest)
    ensures Listed(lists) && LevelsOf(lists) == Replay(manifest)
  {
    var empty: seq<seq<FileMeta>> := seq(NUM_LEVELS, _ => []);
    var b := new Builder(empty);
    for i := 0 to |manifest|
      invariant b.Valid() && b.base == empty && b.edits == manifest[..i]
    {
      PrefixNames(manifest, i + 1);
      assert manifest[..i + 1][..i] == manifest[..i];
      forall l: nat | l < NUM_LEVELS ensures NoTies(AddedAfter(b.edits, l) + AddedAt(manifest[i].added, l)) {
        AddedHaveNoTies(manifest[..i + 1], l);
      }
      b.Apply(manifest[i]);
    }
    assert manifest[..|manifest|] == manifest;
    lists := b.SaveTo();
    forall l: nat | l < NUM_LEVELS ensures StrictlyInOrder(lists[l]) && LevelsOf(lists)[l] == Replay(manifest)[l] {
      ReplayedLevel(manifest, l, b.added[l], b.deleted[l], lists[l]);
      LevelIs(lists, l);
    }
  }

  lemma ReplayedLevel(manifest: seq<Edit>, l: nat, added: seq<FileMeta>, deleted: set<nat>, files: seq<FileMeta>)
    requires ManifestNames(manifest) && l < NUM_LEVELS
    requires StrictlyInOrder(added) && FileSet(added) == AddedAfter(manifest, l) && deleted == DeletedAfter(manifest, l)
    requires InOrder(files) && multiset(files) == multiset(Live([], deleted)) + multiset(Live(added, deleted))
    ensures StrictlyInOrder(files) && FileSet(files) == Replay(manifest)[l]
  {
    AddedHaveNoTies(manifest, l);
    forall f ensures multiset(files)[f] <= 1 { LiveOnce(added, deleted, f); }
    forall f ensures f in files <==> f in Alive({} + AddedAfter(manifest, l), DeletedAfter(manifest, l)) {
      SavedAre([], added, deleted, files, f);
      assert f in added <==> f in FileSet(added);
    }
    assert forall f :: f in FileSet(files) ==> f in FileSet(added);
    StrictFromCounts(files);
    BatchedFiles({}, manifest, l);
    forall i | 0 <= i < |manifest| ensures DeletedAt(manifest[i].deleted, l) !! NumbersAt(manifest[i].added, l) {
      NotDeletedAndAdded(manifest[i], l);
    }
    OneByOneIsReplay(manifest, l);
  }

  lemma NotDeletedAndAdded(e: Edit, l: nat)
    requires forall p :: p in e.added ==> (p.0, p.1.number) !in e.deleted
    ensures DeletedAt(e.deleted, l) !! NumbersAt(e.added, l)
  {
    forall n | n in DeletedAt(e.deleted, l) ensures n !in NumbersAt(e.added, l) {
      var d :| d in e.deleted && d.0 == l && d.1 == n;
      assert d == (l, n);
    }
  }

  // ----- the logs -----

  /** Tables numbered from `first` up to `next`, larger numbers holding newer entries. */
  ghost predicate TablesInOrder(tables: seq<FileMeta>, first: nat, next: nat) {
    && (forall t :: t in tables ==> t.Ok() && first <= t.number < next)
    && (forall i, k :: 0 <= i < k < |tables| ==>
         tables[i].number < tables[k].number && AllOlder(tables[i].entries, tables[k].entries))
  }

  ghost predicate OlderSets(es: set<Entry>, fs: set<Entry>) {
    forall e, x :: e in es && x in fs ==> e.key.num < x.key.num
  }

  /** m is at least every number of es, and attained or zero. */
  ghost predicate MaxOf(es: set<Entry>, m: nat) {
    (forall e :: e in es ==> e.key.num <= m) && (m == 0 || exists e :: e in es && e.key.num == m)
  }

  /** The variables of log replay. */
  datatype Recovering = Recovering(tables: seq<FileMeta>, next: nat, mem: seq<Entry>, maxSequence: SeqNo) {
    ghost function Flushed(): set<Entry> { UnionEntries(set t | t in tables) }

    /** The tables written so far and the memtable hold exactly es, the memtable the newest part. */
    ghost predicate Holds(es: set<Entry>, first: nat) {
      && first <= next && TablesInOrder(tables, first, next) && Sorted(mem)
      && Flushed() + SeqSet(mem) == es && OlderSets(Flushed(), SeqSet(mem)) && MaxOf(es, maxSequence)
    }
  }

  /** A full memtable becomes the next table. */
  method FlushRun(r: Recovering, ghost es: set<Entry>, ghost first: nat) returns (r': Recovering)
    requires r.Holds(es, first)
    ensures r'.Holds(es, first) && r'.mem == [] && r'.next >= r.next
  {
    r' := r;
    if r.mem != [] {
      r' := r.(tables := r.tables + [TableFrom(r.mem, r.next)], next := r.next + 1, mem := []);
      FlushedMore(r.tables, TableFrom(r.mem, r.next));
      TablesAppend(r.tables, first, r.next, r.mem);
      assert SeqSet([]) == {};
    }
  }

  lemma FlushedMore(tables: seq<FileMeta>, t: FileMeta)
    ensures UnionEntries(set x | x in tables + [t]) == UnionEntries(set x | x in tables) + SeqSet(t.entries)
  {
    var before := set x | x in tables;
    assert (set x | x in tables + [t]) == before + {t};
  }

  lemma TablesAppend(tables: seq<FileMeta>, first: nat, next: nat, run: seq<Entry>)
    requires TablesInOrder(tables, first, next) && first <= next && run != [] && Sorted(run)
    requires OlderSets(UnionEntries(set t | t in tables), SeqSet(run))
    ensures TablesInOrder(tables + [TableFrom(run, next)], first, next + 1)
  {
    var t := TableFrom(run, next);
    TableOk(run, next);
    forall i | 0 <= i < |tables| ensures AllOlder(tables[i].entries, run) {
      OneTableOlder(tables, i, run);
    }
  }

  lemma OneTableOlder(tables: seq<FileMeta>, i: nat, run: seq<Entry>)
    requires i < |tables| && OlderSets(UnionEntries(set t | t in tables), SeqSet(run))
    ensures AllOlder(tables[i].entries, run)
  {
    forall e, x | e in tables[i].entries && x in run ensures e.key.num < x.key.num {
      assert tables[i] in (set t | t in tables);
      assert e in UnionEntries(set t | t in tables) && x in SeqSet(run);
    }
  }

  /** One record of the log, inserted into the memtable. */
  method ReplayBatch(r: Recovering, batch: Batch, ghost es: set<Entry>, ghost first: nat) returns (r': Recovering)
    requires r.Holds(es, first) && OlderSets(es, SeqSet(batch)) && Ascending(batch)
    ensures r'.Holds(es + SeqSet(batch), first) && r'.next == r.next
  {
    hide Sorted, TablesInOrder;
    forall x, e | x in r.mem && e in batch
      ensures x.key.num < e.key.num
    {
      assert x in SeqSet(r.mem) && e in SeqSet(batch);
    }
    var mem := AddBatch(r.mem, batch);
    var maxSequence := r.maxSequence;
    if batch != [] {
      var lastSeq := batch[|batch| - 1].key.num;
      if lastSeq > maxSequence {
        maxSequence := lastSeq;
      }
      LastIsMax(es, batch, r.maxSequence);
    }
    r' := r.(mem := mem, maxSequence := maxSequence);
    assert batch == [] ==> SeqSet(batch) == {};
  }

  lemma LastIsMax(es: set<Entry>, batch: Batch, m: nat)
    requires batch != [] && MaxOf(es, m) && OlderSets(es, SeqSet(batch)) && Ascending(batch)
    ensures var lastSeq := batch[|batch| - 1].key.num; MaxOf(es + SeqSet(batch), if lastSeq > m then lastSeq else m)
  {
    var last := batch[|batch| - 1];
    assert last in SeqSet(batch);
    if e :| e in es && e.key.num == m { assert e in es + SeqSet(batch); }
  }

  /** RecoverLogFile: batches go to a memtable, which becomes a level-0 table when it is full and at the end. */
  method RecoverLogFile(r: Recovering, records: seq<Batch>, full: set<nat>, ghost es: set<Entry>, ghost first: nat)
    returns (r': Recovering)
    requires r.Holds(es, first) && r.mem == []
    requires Ascending(Flatten(records)) && OlderSets(es, SeqSet(Flatten(records)))
    ensures r'.Holds(es + SeqSet(Flatten(records)), first) && r'.mem == [] && r'.next >= r.next
  {
    r' := r;
    assert SeqSet([]) == {} && es + {} == es;
    for i := 0 to |records|
      invariant r'.Holds(es + SeqSet(Flatten(records[..i])), first) && r'.next >= r.next
    {
      BatchFollows(records, i, es);
      r' := ReplayBatch(r', records[i], es + SeqSet(Flatten(records[..i])), first);
      assert es + SeqSet(Flatten(records[..i])) + SeqSet(records[i]) == es + SeqSet(Flatten(records[..i + 1]));
      if i in full {
        r' := FlushRun(r', es + SeqSet(Flatten(records[..i + 1])), first);
      }
    }
    assert records[..|records|] == records;
    r' := FlushRun(r', es + SeqSet(Flatten(records)), first);
  }

  lemma BatchFollows(records: seq<Batch>, i: nat, es: set<Entry>)
    requires i < |records| && Ascending(Flatten(records)) && OlderSets(es, SeqSet(Flatten(records)))
    ensures SeqSet(Flatten(records[..i + 1])) == SeqSet(Flatten(records[..i])) + SeqSet(records[i])
    ensures OlderSets(es + SeqSet(Flatten(records[..i])), SeqSet(records[i])) && Ascending(records[i])
  {
    assert records[..i + 1][..i] == records[..i];
    FlattenPrefix(records, i + 1);
    PartsAscend(Flatten(records), Flatten(records[..i]), records[i], es);
  }

  lemma PartsAscend(flat: seq<Entry>, a: seq<Entry>, b: seq<Entry>, es: set<Entry>)
    requires |a + b| <= |flat| && a + b == flat[..|a + b|] && Ascending(flat) && OlderSets(es, SeqSet(flat))
    ensures SeqSet(a + b) == SeqSet(a) + SeqSet(b) && OlderSets(es + SeqSet(a), SeqSet(b)) && Ascending(b)
  {
    forall k | 0 <= k < |b| ensures flat[|a| + k] == b[k] { assert (a + b)[|a| + k] == b[k]; }
    forall e, x | e in es + SeqSet(a) && x in SeqSet(b) ensures e.key.num < x.key.num {
      var m :| 0 <= m < |b| && b[m] == x;
      assert flat[|a| + m] in SeqSet(flat);
      if e in a {
        var k :| 0 <= k < |a| && a[k] == e;
        assert (a + b)[k] == flat[k];
      }
    }
  }

  // ----- all the logs -----

  ghost function EntriesOfLogs(logs: map<nat, seq<Batch>>, ns: seq<nat>): set<Entry> {
    set n, e | n in ns && n in logs && e in Flatten(logs[n]) :: e
  }

  ghost predicate Increasing(ns: seq<nat>) { forall i, k :: 0 <= i < k < |ns| ==> ns[i] < ns[k] }

  method InsertNumber(ns: seq<nat>, n: nat) returns (out: seq<nat>)
    requires Increasing(ns) && n !in ns
    ensures Increasing(out) && forall k :: k in out <==> k in ns || k == n
  {
    var i := 0;
    while i < |ns| && ns[i] < n
      invariant i <= |ns| && forall k :: 0 <= k < i ==> ns[k] < n
    {
      i := i + 1;
    }
    out := ns[..i] + [n] + ns[i..];
    InsertedAt(ns, n, i);
  }

  lemma InsertedAt(ns: seq<nat>, n: nat, i: nat)
    requires Increasing(ns) && n !in ns && i <= |ns|
    requires (forall k :: 0 <= k < i ==> ns[k] < n) && (i < |ns| ==> ns[i] >= n)
    ensures var out := ns[..i] + [n] + ns[i..]; Increasing(out) && forall k :: k in out <==> k in ns || k == n
  {
    var out := ns[..i] + [n] + ns[i..];
    assert out[i] == n && ns == ns[..i] + ns[i..];
    forall k | i <= k < |ns| ensures n < ns[k] { assert ns[i] in ns; }
    forall a, b | 0 <= a < b < |out| ensures out[a] < out[b] {
      assert b > i ==> out[b] == ns[b - 1];
    }
  }

  /** The numbers of the logs to replay, smallest first. */
  method LogsToReplay(logs: map<nat, seq<Batch>>, minLog: nat) returns (ns: seq<nat>)
    ensures Increasing(ns) && forall n :: n in ns <==> n in logs && n >= minLog
  {
    ns := [];
    var names := logs.Keys;
    while names != {}
      invariant names <= logs.Keys && Increasing(ns)
      invariant forall n :: n in ns <==> n in logs && n !in names && n >= minLog
      decreases names
    {
      var n :| n in names;
      names := names - {n};
      if n >= minLog {
        ns := InsertNumber(ns, n);
      }
    }
  }

  /** Replays every log from minLog on, oldest first. */
  method RecoverLogs(logs: map<nat, seq<Batch>>, minLog: nat, next: nat, full: set<nat>) returns (r: Recovering)
    requires LogsAscend(logs, minLog)
    ensures r.Holds(LogEntries(logs, minLog), next) && r.mem == [] && r.next >= next
    ensures forall n :: n in logs && n >= minLog ==> n < r.next
  {
    var ns := LogsToReplay(logs, minLog);
    r := Recovering([], next, [], 0);
    assert (set t: FileMeta | t in []) == {};
    assert EntriesOfLogs(logs, ns[..0]) == {};
    for i := 0 to |ns|
      invariant r.Holds(EntriesOfLogs(logs, ns[..i]), next) && r.mem == [] && r.next >= next
      invariant forall n :: n in ns[..i] ==> n < r.next
    {
      LogFollows(logs, minLog, ns, i);
      assert ns[i] in ns;
      var r' := RecoverLogFile(r, logs[ns[i]], full, EntriesOfLogs(logs, ns[..i]), next);
      r := r';
      if r.next <= ns[i] {
        r := Marked(r, ns[i] + 1, EntriesOfLogs(logs, ns[..i + 1]), next);
      }
    }
    assert ns[..|ns|] == ns;
    AllLogs(logs, minLog, ns);
  }

  /** MarkFileNumberUsed. */
  method Marked(r: Recovering, used: nat, ghost es: set<Entry>, ghost first: nat) returns (r': Recovering)
    requires r.Holds(es, first) && r.next <= used
    ensures r' == r.(next := used) && r'.Holds(es, first)
  {
    r' := r.(next := used);
  }

  lemma AllLogs(logs: map<nat, seq<Batch>>, minLog: nat, ns: seq<nat>)
    requires forall n :: n in ns <==> n in logs && n >= minLog
    ensures EntriesOfLogs(logs, ns) == LogEntries(logs, minLog)
  {
    forall e | e in LogEntries(logs, minLog) ensures e in EntriesOfLogs(logs, ns) {
      var n :| n in logs && n >= minLog && e in Flatten(logs[n]);
      assert n in ns;
    }
  }

  lemma LogFollows(logs: map<nat, seq<Batch>>, minLog: nat, ns: seq<nat>, i: nat)
    requires LogsAscend(logs, minLog) && Increasing(ns) && i < |ns|
    requires forall n :: n in ns <==> n in logs && n >= minLog
    ensures ns[i] in logs && Ascending(Flatten(logs[ns[i]]))
    ensures OlderSets(EntriesOfLogs(logs, ns[..i]), SeqSet(Flatten(logs[ns[i]])))
    ensures EntriesOfLogs(logs, ns[..i + 1]) == EntriesOfLogs(logs, ns[..i]) + SeqSet(Flatten(logs[ns[i]]))
    ensures forall n :: n in ns[..i + 1] <==> n in ns[..i] || n == ns[i]
  {
    assert ns[i] in ns;
    assert ns[..i + 1] == ns[..i] + [ns[i]];
    forall e, x | e in EntriesOfLogs(logs, ns[..i]) && x in SeqSet(Flatten(logs[ns[i]])) ensures e.key.num < x.key.num {
      var n :| n in ns[..i] && n in logs && e in Flatten(logs[n]);
      var k :| 0 <= k < i && ns[k] == n;
      assert n in ns && AllOlder(Flatten(logs[n]), Flatten(logs[ns[i]]));
    }
  }

  // ----- opening -----

  lemma SurvivingAscend(logs: map<nat, seq<Batch>>, survivors: map<nat, seq<Batch>>, from: nat)
    requires LogsAscend(logs, from) && Crashed(logs, survivors)
    ensures LogsAscend(survivors, from)
  {
    forall n | n in survivors { FlattenCut(logs[n], survivors[n]); }
    forall n, m | n in survivors && m in survivors && from <= n < m
      ensures AllOlder(Flatten(survivors[n]), Flatten(survivors[m]))
    {
      assert AllOlder(Flatten(logs[n]), Flatten(logs[m]));
    }
  }

  lemma TablesAreRecovered(r: Recovering, es: set<Entry>, first: nat, from: nat)
    requires r.Holds(es, first) && r.mem == [] && from <= first
    ensures RecoveredTables((set t | t in r.tables), es, from)
  {
    hide Sorted, AllOlder;
    var ts := set t | t in r.tables;
    assert SeqSet(r.mem) == {};
    assert forall f :: f in ts ==> f.Ok() && f.number >= from;
    TablesDistinct(r.tables, first, r.next);
    forall f, g | f in r.tables && g in r.tables && f.number < g.number ensures AllOlder(f.entries, g.entries) {
      TablesOlder(r.tables, first, r.next, f, g);
    }
    OrderedRecovered(ts, es, from);
  }

  lemma TablesDistinct(tables: seq<FileMeta>, first: nat, next: nat)
    requires TablesInOrder(tables, first, next)
    ensures forall f, g :: f in tables && g in tables && f.number == g.number ==> f == g
  {
    hide AllOlder;
    forall f, g | f in tables && g in tables && f.number == g.number ensures f == g {
      var i :| 0 <= i < |tables| && tables[i] == f;
      var k :| 0 <= k < |tables| && tables[k] == g;
      NumbersFollow(tables, first, next, i, k);
    }
  }

  lemma NumbersFollow(tables: seq<FileMeta>, first: nat, next: nat, i: nat, k: nat)
    requires TablesInOrder(tables, first, next) && i < |tables| && k < |tables|
    ensures tables[i].number < tables[k].number <==> i < k
  {
    hide AllOlder;
    if k < i { assert tables[k].number < tables[i].number; }
  }

  lemma TablesOlder(tables: seq<FileMeta>, first: nat, next: nat, f: FileMeta, g: FileMeta)
    requires TablesInOrder(tables, first, next) && f in tables && g in tables && f.number < g.number
    ensures AllOlder(f.entries, g.entries)
  {
    hide AllOlder;
    var i :| 0 <= i < |tables| && tables[i] == f;
    var k :| 0 <= k < |tables| && tables[k] == g;
    NumbersFollow(tables, first, next, i, k);
  }

  lemma OrderedRecovered(ts: set<FileMeta>, es: set<Entry>, from: nat)
    requires forall f :: f in ts ==> f.Ok() && f.number >= from
    requires forall f, g :: f in ts && g in ts && f.number == g.number ==> f == g
    requires forall f, g :: f in ts && g in ts && f.number < g.number ==> AllOlder(f.entries, g.entries)
    requires UnionEntries(ts) == es
    ensures RecoveredTables(ts, es, from)
  {
  }

  lemma MaxAgrees(es: set<Entry>, m: SeqNo, floor: SeqNo)
    requires MaxOf(es, m)
    ensures (if floor < m then m else floor) == MaxNumber(es, floor)
  {
  }

  lemma ReopenFits(db: Db, lists: seq<seq<FileMeta>>, tables: set<FileMeta>, newLog: nat, last: SeqNo, first: nat)
    requires db.levels == LevelsOf(lists) && LevelsOk(db.levels) && |lists| == NUM_LEVELS
    requires forall l, f :: 0 <= l < NUM_LEVELS && f in db.levels[l] ==> f.number < first
    requires forall f :: f in tables ==> f.number >= first
    requires forall f, g :: f in tables && g in tables && f.number == g.number ==> f == g
    ensures EditFits(lists, ReopenEdit(tables, newLog, last))
  {
    hide EditFits, LevelsOk;
    forall l: nat | l < NUM_LEVELS { LevelIs(lists, l); }
    NumberedApart(db, lists, ReopenEdit(tables, newLog, last));
  }

  lemma OpenParts(db: Db)
    requires Shape(db) && Replayable(db)
    ensures db.manifest != [] && db.logNumber in db.logs && ManifestNames(db.manifest) && LevelsOk(db.levels)
    ensures LogsAscend(db.logs, LastEdit(db.manifest).logNumber) && Replay(db.manifest) == db.levels
    ensures LastEdit(db.manifest).logNumber <= db.logNumber && (forall n :: n in db.logs ==> n <= db.logNumber)
    ensures forall l, f :: 0 <= l < NUM_LEVELS && f in db.levels[l] ==> f.number < LastEdit(db.manifest).nextFile
  {
  }

  lemma CanOpen(db: Db, logs: map<nat, seq<Batch>>, tables: set<FileMeta>, newLog: nat)
    requires db.manifest != [] && Crashed(db.logs, logs)
    requires RecoveredTables(tables, Replayed(db, logs), LastEdit(db.manifest).nextFile)
    requires (forall f :: f in tables ==> f.number < newLog) && LastEdit(db.manifest).nextFile <= newLog
    ensures CanReopen(db, logs, tables, newLog)
  {
    hide RecoveredTables, LogEntries;
  }

  lemma Opened(db: Db, logs: map<nat, seq<Batch>>, tables: set<FileMeta>, newLog: nat, db': Db)
    requires CanReopen(db, logs, tables, newLog) && Replay(db.manifest) == db.levels
    requires forall f, g :: f in tables && g in tables && f.number == g.number ==> f == g
    requires var e := ReopenEdit(tables, newLog, RecoveredLast(db, logs));
             && db'.levels == ApplyEdit(db.levels, e) && db'.manifest == [SnapshotEdit(db.levels, e), e]
                && db'.last == e.lastSequence
    requires db'.disk == RecoveredDisk(db.disk, db'.levels, tables)
    requires db'.history == SurvivingHistory(db, logs) && db'.mem == {} && db'.imm == None && db'.nextFile == newLog + 1
    requires db'.snapshots == [] && db'.job == None && db'.logNumber == newLog && db'.logs == map[newLog := []]
      && db'.pinned == []
    ensures db' == ReopenTo(db, logs, tables, newLog)
  {
    hide Replay, ApplyEdit, LogEntries, MaxNumber, RecoveredDisk, SurvivingHistory, SnapshotEdit, RecoveredTables;
  }

  /** What is on disk after recovery wrote its tables and deleted the rest. */
  method RestoreDisk(disk: map<nat, seq<Entry>>, levels: Levels, tables: set<FileMeta>)
    returns (live: map<nat, seq<Entry>>)
    requires forall f, g :: f in tables && g in tables && f.number == g.number ==> f == g
    ensures live == RecoveredDisk(disk, levels, tables)
  {
    hide LiveNumbers;
    var written := disk + map f | f in tables :: f.number := f.entries;
    live := KeepFiles(written, LiveNumbers(levels));
  }

  /** The log half of DBImpl::Recover: tables that hold what the logs hold. */
  method RecoverTables(logs: map<nat, seq<Batch>>, last: Edit, full: set<nat>)
    returns (tables: set<FileMeta>, newLog: nat, lastSequence: SeqNo)
    requires LogsAscend(logs, last.logNumber)
    ensures RecoveredTables(tables, LogEntries(logs, last.logNumber), last.nextFile)
    ensures forall f :: f in tables ==> f.number < newLog
    ensures last.nextFile < newLog && forall n :: n in logs && n >= last.logNumber ==> n < newLog
    ensures lastSequence == MaxNumber(LogEntries(logs, last.logNumber), last.lastSequence)
  {
    hide LogsAscend, RecoveredTables, LogEntries, Recovering.Holds;
    var r := RecoverLogs(logs, last.logNumber, last.nextFile + 1, full);
    ghost var es := LogEntries(logs, last.logNumber);
    TablesAreRecovered(r, es, last.nextFile + 1, last.nextFile);
    HoldsMax(r, es, last.nextFile + 1);
    MaxAgrees(es, r.maxSequence, last.lastSequence);
    tables := set t | t in r.tables;
    newLog := r.next;
    lastSequence := if last.lastSequence < r.maxSequence then r.maxSequence else last.lastSequence;
  }

  /** DBImpl::Recover: the live version, and the recovered tables. */
  method Recover(manifest: seq<Edit>, logs: map<nat, seq<Batch>>, full: set<nat>, ghost db: Db)
    returns (lists: seq<seq<FileMeta>>, tables: set<FileMeta>, newLog: nat, lastSequence: SeqNo)
    requires Shape(db) && Replayable(db) && manifest == db.manifest && Crashed(db.logs, logs)
    ensures Listed(lists) && LevelsOf(lists) == db.levels == Replay(db.manifest)
    ensures CanReopen(db, logs, tables, newLog) && lastSequence == RecoveredLast(db, logs)
    ensures forall f :: f in tables ==> f.number >= LastEdit(db.manifest).nextFile
    ensures forall f, g :: f in tables && g in tables && f.number == g.number ==> f == g
  {
    hide Shape, LevelsOk, Listed, LevelsOf, ManifestNames, LogsAscend;
    hide RecoveredTables, MaxNumber, LogEntries, Replay, CanReopen;
    OpenParts(db);
    lists := ReplayManifest(manifest);
    SurvivingAscend(db.logs, logs, LastEdit(manifest).logNumber);
    tables, newLog, lastSequence := RecoverTables(logs, LastEdit(manifest), full);
    TablesFresh(tables, LogEntries(logs, LastEdit(manifest).logNumber), LastEdit(manifest).nextFile);
    CanOpen(db, logs, tables, newLog);
  }

  lemma HoldsMax(r: Recovering, es: set<Entry>, first: nat)
    requires r.Holds(es, first)
    ensures MaxOf(es, r.maxSequence) && forall f :: f in r.tables ==> f.number < r.next
  {
  }

  /** DB::Open on the files a crash left behind. */
  method Open(manifest: seq<Edit>, logs: map<nat, seq<Batch>>, disk: map<nat, seq<Entry>>, full: set<nat>,
              ghost db: Db)
    returns (store: DBImpl, ghost tables: set<FileMeta>, ghost newLog: nat)
    requires Shape(db) && Replayable(db) && manifest == db.manifest && Crashed(db.logs, logs) && disk == db.disk
    ensures fresh(store) && CanReopen(db, logs, tables, newLog)
    ensures store.Valid() && store.Abs() == ReopenTo(db, logs, tables, newLog)
    ensures ReadsOk(db) ==> ReadsOk(store.Abs())
  {
    hide Shape, LevelsOk, Listed, LevelsOf, SeqSet, EditFits, ApplyEdit, Replay, RecoveredDisk, ReadsOk, CanReopen;
    hide SnapshotEdit, ReopenTo, SurvivingHistory, RecoveredLast;
    OpenParts(db);
    var lists, ts, logNumber, lastSequence := Recover(manifest, logs, full, db);
    tables, newLog := ts, logNumber;
    ReopenShape(db, logs, tables, newLog);
    if ReadsOk(db) { ReopenReads(db, logs, tables, newLog); }
    var edit := ReopenEdit(ts, logNumber, lastSequence);
    ListedLength(lists);
    ReopenFits(db, lists, ts, logNumber, lastSequence, LastEdit(manifest).nextFile);
    var base := SnapshotEdit(LevelsOf(lists), edit);
    lists := SaveEdit(lists, edit);
    var live := RestoreDisk(disk, LevelsOf(lists), ts);
    store := new DBImpl();
    store.Restore(SurvivingHistory(db, logs), lastSequence, lists, logNumber, live, [base, edit]);
    Opened(db, logs, tables, newLog, store.Abs());
    EmptyRun();
  }

  lemma EmptyRun()
    ensures Sorted([])
  {
  }

  lemma ListedLength(lists: seq<seq<FileMeta>>)
    requires Listed(lists)
    ensures |lists| == NUM_LEVELS
  {
  }
}
