/** What replaying the disk relies on, in every run: the manifest names each file number once, so one builder
    replays it, and the logs recovery reads hold ascending sequence numbers, older logs the smaller ones. */
module LsmReplay {
  import opened Wrappers
  import opened Keys
  import opened LsmModel
  import opened LsmShape
  import opened LsmRecovery
  import opened LsmRuns
  import opened VersionBuilder

  // ----- the manifest -----

  ghost predicate InManifest(manifest: seq<Edit>, p: (nat, FileMeta)) {
    exists i :: 0 <= i < |manifest| && p in manifest[i].added
  }

  /** A file number names one file in the whole manifest, and no edit adds what it deletes. */
  ghost predicate ManifestNames(manifest: seq<Edit>) {
    && (forall i :: 0 <= i < |manifest| ==> EditWithin(manifest[i]))
    && (forall i, p :: 0 <= i < |manifest| && p in manifest[i].added ==> (p.0, p.1.number) !in manifest[i].deleted)
    && (forall p, q | InManifest(manifest, p) && InManifest(manifest, q) :: p.1.number == q.1.number ==> p.1 == q.1)
  }

  /** Numbers in the manifest are spent, and a running compaction's outputs are not among them. */
  ghost predicate NumbersSpent(db: Db) {
    forall p :: InManifest(db.manifest, p) ==>
      p.1.number < db.nextFile && (db.job.Some? ==> forall f :: f in db.job.value.outputs ==> f.number != p.1.number)
  }

  ghost predicate Named(db: Db) { ManifestNames(db.manifest) && NumbersSpent(db) }

  lemma InLonger(manifest: seq<Edit>, e: Edit, p: (nat, FileMeta))
    ensures InManifest(manifest + [e], p) <==> InManifest(manifest, p) || p in e.added
  {
    var longer := manifest + [e];
    if i :| 0 <= i < |manifest| && p in manifest[i].added { assert p in longer[i].added; }
    if p in e.added { assert p in longer[|manifest|].added; }
    if i :| 0 <= i < |longer| && p in longer[i].added { assert i < |manifest| ==> p in manifest[i].added; }
  }

  /** Every live file was added by the manifest. */
  lemma {:induction false} LiveIsAdded(manifest: seq<Edit>, l: nat, f: FileMeta)
    requires l < NUM_LEVELS && f in Replay(manifest)[l]
    ensures InManifest(manifest, (l, f))
  {
    if manifest != [] {
      var front, e := manifest[..|manifest| - 1], manifest[|manifest| - 1];
      assert manifest == front + [e];
      InLonger(front, e, (l, f));
      EditLevel(Replay(front), e, l);
      if (l, f) !in e.added { LiveIsAdded(front, l, f); }
    }
  }

  /** One more edit: its files are new, or already named alike. */
  lemma NamesGrow(manifest: seq<Edit>, e: Edit)
    requires ManifestNames(manifest) && EditWithin(e)
    requires forall p :: p in e.added ==> (p.0, p.1.number) !in e.deleted
    requires forall p, q | p in e.added && (q in e.added || InManifest(manifest, q)) :: p.1.number == q.1.number ==>
      p.1 == q.1
    ensures ManifestNames(manifest + [e])
  {
    forall p { InLonger(manifest, e, p); }
  }

  lemma FlushNamed(db: Db, level: nat, table: Option<FileMeta>)
    requires Named(db) && CanFlush(db, level, table) && (db.job.Some? ==> OutputsOk(db, db.job.value))
    ensures Named(FlushTo(db, level, table))
  {
    var e := FlushEdit(db, level, table);
    NamesGrow(db.manifest, e);
    forall p { InLonger(db.manifest, e, p); }
  }

  lemma InstallNamed(db: Db)
    requires Named(db) && LevelsOk(db.levels) && CanInstall(db) && InputsOk(db.levels, db.job.value)
      && OutputsOk(db, db.job.value)
    ensures Named(InstallTo(db))
  {
    hide LevelsOk, ManifestNames, Kept;
    var j, e := db.job.value, InstallEdit(db, db.job.value);
    OutputsAreNew(db, j, e);
    NamesGrow(db.manifest, e);
    forall p { InLonger(db.manifest, e, p); }
  }

  lemma OutputsAreNew(db: Db, j: Job, e: Edit)
    requires InputsOk(db.levels, j) && OutputsOk(db, j) && e == JobEdit(j, e.logNumber, e.nextFile, e.lastSequence)
    ensures EditWithin(e)
    ensures forall p :: p in e.added ==> p.0 == j.level + 1 && p.1 in j.outputs && (p.0, p.1.number) !in e.deleted
    ensures forall f, g :: f in j.outputs && g in j.outputs && f.number == g.number ==> f == g
  {
    hide Kept, Covered;
    forall p | p in e.added ensures p.0 == j.level + 1 && p.1 in j.outputs && (p.0, p.1.number) !in e.deleted {
      assert forall f :: f in j.in0 ==> f.number in LiveNumbers(db.levels);
      assert forall f :: f in j.in1 ==> f.number in LiveNumbers(db.levels);
    }
    forall f, g | f in j.outputs && g in j.outputs && f.number == g.number ensures f == g {
      var i :| 0 <= i < |j.outputs| && j.outputs[i] == f;
      var k :| 0 <= k < |j.outputs| && j.outputs[k] == g;
      NumbersTell(j.outputs, i, k);
    }
  }

  lemma NumbersTell(outputs: seq<FileMeta>, i: nat, k: nat)
    requires i < |outputs| && k < |outputs|
      && forall a, b :: 0 <= a < b < |outputs| ==> outputs[a].number < outputs[b].number
    ensures outputs[i].number == outputs[k].number ==> i == k
  {
  }

  lemma MoveNamed(db: Db, level: nat, f: FileMeta)
    requires Named(db) && ManifestOk(db) && db.job.None? && level + 1 < NUM_LEVELS && f in db.levels[level]
    ensures Named(MoveTo(db, level, f))
  {
    var e := MoveEdit(db, level, f);
    LiveIsAdded(db.manifest, level, f);
    NamesGrow(db.manifest, e);
    forall p { InLonger(db.manifest, e, p); }
  }

  lemma ReopenNamed(db: Db, logs: map<nat, seq<Batch>>, tables: set<FileMeta>, newLog: nat)
    requires LevelsOk(db.levels) && ManifestOk(db) && CanReopen(db, logs, tables, newLog)
    ensures Named(ReopenTo(db, logs, tables, newLog))
  {
    hide Replay, RecoveredTables, MaxNumber, LogEntries, LevelsOk, Named;
    var e := ReopenEdit(tables, newLog, RecoveredLast(db, logs));
    TablesFresh(tables, Replayed(db, logs), LastEdit(db.manifest).nextFile);
    FreshNames(db.levels, tables, SnapshotEdit(db.levels, e), e, LastEdit(db.manifest).nextFile);
    SpentAfterReopen(ReopenTo(db, logs, tables, newLog), newLog);
  }

  lemma TablesFresh(tables: set<FileMeta>, es: set<Entry>, first: nat)
    requires RecoveredTables(tables, es, first)
    ensures forall f :: f in tables ==> f.number >= first
    ensures forall f, g :: f in tables && g in tables && f.number == g.number ==> f == g
  {
  }

  lemma SpentAfterReopen(db: Db, newLog: nat)
    requires ManifestNames(db.manifest) && db.nextFile == newLog + 1 && db.job.None?
    requires forall p :: InManifest(db.manifest, p) ==> p.1.number <= newLog
    ensures Named(db)
  {
  }

  /** A fresh manifest: the live files at their levels, then the recovered tables at level 0. */
  lemma FreshNames(levels: Levels, tables: set<FileMeta>, base: Edit, e: Edit, first: nat)
    requires LevelsOk(levels) && base == SnapshotEdit(levels, e)
    requires e.deleted == {} && e.added == set f | f in tables :: (0, f)
    requires forall l, f :: 0 <= l < |levels| && f in levels[l] ==> f.number < first
    requires forall f :: f in tables ==> f.number >= first
    requires forall f, g :: f in tables && g in tables && f.number == g.number ==> f == g
    ensures ManifestNames([base, e])
    ensures forall p: (nat, FileMeta) :: InManifest([base, e], p) ==>
      (p.0 < NUM_LEVELS && p.1 in levels[p.0]) || p.1 in tables
  {
    assert [base, e] == [base] + [e] && [base] == [] + [base];
    forall p: (nat, FileMeta) ensures InManifest([base, e], p) <==> p in base.added || p in e.added {
      InLonger([], base, p);
      InLonger([base], e, p);
    }
    forall p | p in base.added ensures p.0 < NUM_LEVELS && p.1 in levels[p.0] { }
    forall p | p in e.added ensures p.0 == 0 && p.1 in tables { }
  }

  // ----- the logs -----

  ghost predicate Ascending(es: seq<Entry>) { forall i, k :: 0 <= i < k < |es| ==> es[i].key.num < es[k].key.num }

  ghost predicate LogsAscend(logs: map<nat, seq<Batch>>, from: nat) {
    && (forall n :: n in logs && n >= from ==> Ascending(Flatten(logs[n])))
    && (forall n, m | n in logs && m in logs && from <= n < m :: AllOlder(Flatten(logs[n]), Flatten(logs[m])))
  }

  ghost predicate AllOlder(es: seq<Entry>, fs: seq<Entry>) {
    forall e, x :: e in es && x in fs ==> e.key.num < x.key.num
  }

  /** Everything logged was committed. */
  lemma LoggedInHistory(db: Db, n: nat, e: Entry)
    requires LogsOk(db) && HistoryOk(db) && NumbersOk(db) && n in db.logs && n >= LastEdit(db.manifest).logNumber
    requires e in Flatten(db.logs[n])
    ensures e.key.num <= db.last
  {
    if n < db.logNumber {
      assert e in LogRange(db.logs, LastEdit(db.manifest).logNumber, db.logNumber);
      assert e in Contents(db);
    } else {
      assert e in SeqSet(Flatten(db.logs[n]));
      assert e in Contents(db);
    }
  }

  lemma CommitAscends(db: Db, batch: Batch)
    requires Shape(db) && LogsAscend(db.logs, LastEdit(db.manifest).logNumber) && CanCommit(db, batch)
    ensures LogsAscend(CommitTo(db, batch).logs, LastEdit(db.manifest).logNumber)
  {
    var from, logs, logs' := LastEdit(db.manifest).logNumber, db.logs, CommitTo(db, batch).logs;
    var cur := db.logs[db.logNumber];
    assert (cur + [batch])[..|cur|] == cur;
    assert Flatten(logs'[db.logNumber]) == Flatten(cur) + batch;
    forall n, e | n in logs && n >= from && e in Flatten(logs[n])
      ensures e.key.num <= db.last
    {
      LoggedInHistory(db, n, e);
    }
    CommitAscendsCore(logs, logs', from, db.logNumber, batch, db.last);
  }

  lemma CommitAscendsCore(logs: map<nat, seq<Batch>>, logs': map<nat, seq<Batch>>, from: nat, cur: nat, batch: Batch,
                          last: nat)
    requires LogsAscend(logs, from) && cur in logs && from <= cur && Numbered(batch, last)
    requires forall n :: n in logs ==> n <= cur
    requires logs'.Keys == logs.Keys && (forall n :: n in logs && n != cur ==> logs'[n] == logs[n])
    requires Flatten(logs'[cur]) == Flatten(logs[cur]) + batch
    requires forall n, e | n in logs && e in Flatten(logs[n]) :: n >= from ==> e.key.num <= last
    ensures LogsAscend(logs', from)
  {
    forall n, m | n in logs' && m in logs' && from <= n < m ensures AllOlder(Flatten(logs'[n]), Flatten(logs'[m])) {
      assert n in logs && n != cur && AllOlder(Flatten(logs[n]), Flatten(logs[m]));
    }
    AppendAscends(Flatten(logs[cur]), batch, last);
  }

  lemma AppendAscends(es: seq<Entry>, batch: Batch, last: nat)
    requires Ascending(es) && Numbered(batch, last) && forall e :: e in es ==> e.key.num <= last
    ensures Ascending(es + batch)
  {
    assert forall i :: 0 <= i < |es| ==> es[i] in es;
  }

  // ----- what a crash leaves of the history -----

  /** What the crash left of log n. */
  function Left(logs: map<nat, seq<Batch>>, n: nat): seq<Entry> { if n in logs then Flatten(logs[n]) else [] }

  /** A log that recovery reads lost entries, and a later one kept some. */
  ghost predicate Torn(db: Db, logs: map<nat, seq<Batch>>)
    requires db.manifest != []
  {
    exists n, k :: LastEdit(db.manifest).logNumber <= n < k && LostSome(db, logs, n) && KeptSome(logs, k)
  }

  ghost predicate LostSome(db: Db, logs: map<nat, seq<Batch>>, n: nat) {
    n in db.logs && |Left(logs, n)| < |Flatten(db.logs[n])|
  }

  predicate KeptSome(logs: map<nat, seq<Batch>>, k: nat) { Left(logs, k) != [] }

  /** Recovery returns to a point of the history exactly when the crash tore no log before one it spared. A memtable
      switch does not sync the log it closes, so both cases happen. */
  lemma PrefixIff(db: Db, logs: map<nat, seq<Batch>>)
    requires Shape(db) && Replayable(db) && Crashed(db.logs, logs)
    ensures SurvivingHistory(db, logs) <= db.history <==> !Torn(db, logs)
  {
    hide Shape, Replayable, SurvivingHistory, Lost, Torn;
    LogParts(db);
    if Torn(db, logs) { TornIsNoPrefix(db, logs); } else { UntornIsPrefix(db, logs); }
  }

  lemma LogParts(db: Db)
    requires Shape(db) && Replayable(db)
    ensures db.manifest != [] && LogsAscend(db.logs, LastEdit(db.manifest).logNumber) && NumbersOk(db)
    ensures HistoryOk(db) && LogsOk(db) && FlushedFirst(db)
  {
  }

  lemma LeftIsPrefix(logs: map<nat, seq<Batch>>, survivors: map<nat, seq<Batch>>, n: nat)
    requires Crashed(logs, survivors) && n in logs
    ensures Left(survivors, n) <= Flatten(logs[n])
  {
    if n in survivors { FlattenCut(logs[n], survivors[n]); }
  }

  lemma TornIsNoPrefix(db: Db, logs: map<nat, seq<Batch>>)
    requires db.manifest != [] && LogsAscend(db.logs, LastEdit(db.manifest).logNumber) && HistoryOk(db) && LogsOk(db)
      && NumbersOk(db)
    requires Crashed(db.logs, logs) && Torn(db, logs)
    ensures !(SurvivingHistory(db, logs) <= db.history)
  {
    hide Flatten, LogsOk, HistoryOk, LogsAscend, Replayed, NumbersOk;
    var from := LastEdit(db.manifest).logNumber;
    var n, k :| from <= n < k && LostSome(db, logs, n) && KeptSome(logs, k);
    LeftIsPrefix(db.logs, logs, n);
    var e, x := Flatten(db.logs[n])[|Left(logs, n)|], Left(logs, k)[0];
    assert x in Left(logs, k);
    LeftIsPrefix(db.logs, logs, k);
    OlderLog(db.logs, from, n, k, e, x);
    InMemory(db, n, e);
    InMemory(db, k, x);
    AscendingLog(db.logs, from, n);
    PrefixIsLess(Flatten(db.logs[n]), Left(logs, n), |Left(logs, n)|);
    ReplayedIsLeft(db, logs, n, e);
    assert x in Replayed(db, logs) by { ReplayedFrom(db, logs, k, x); }
    GapIsNoPrefix(db.history, Lost(db, logs), e, x);
  }

  lemma ReplayedFrom(db: Db, logs: map<nat, seq<Batch>>, k: nat, x: Entry)
    requires db.manifest != [] && k >= LastEdit(db.manifest).logNumber && x in Left(logs, k)
    ensures x in Replayed(db, logs)
  {
  }

  lemma OlderLog(logs: map<nat, seq<Batch>>, from: nat, n: nat, k: nat, e: Entry, x: Entry)
    requires LogsAscend(logs, from) && n in logs && k in logs && from <= n < k && e in Flatten(logs[n])
      && x in Flatten(logs[k])
    ensures e.key.num < x.key.num
  {
    assert AllOlder(Flatten(logs[n]), Flatten(logs[k]));
  }

  lemma AscendingLog(logs: map<nat, seq<Batch>>, from: nat, n: nat)
    requires LogsAscend(logs, from) && n in logs && n >= from
    ensures Ascending(Flatten(logs[n]))
  {
  }

  /** What the logs from LogNumber on hold is in the memtables, and committed. */
  lemma InMemory(db: Db, n: nat, e: Entry)
    requires LogsOk(db) && NumbersOk(db) && HistoryOk(db) && n in db.logs && n >= LastEdit(db.manifest).logNumber
      && e in Flatten(db.logs[n])
    ensures e in db.mem + ImmSet(db.imm) && e in db.history && NumbersGrow(db.history)
  {
    if n < db.logNumber { assert e in LogRange(db.logs, LastEdit(db.manifest).logNumber, db.logNumber); }
    assert e in Contents(db);
  }

  lemma InOneLog(logs: map<nat, seq<Batch>>, from: nat, n: nat, m: nat, e: Entry)
    requires LogsAscend(logs, from) && n in logs && m in logs && n >= from && m >= from
    requires e in Flatten(logs[n]) && e in Flatten(logs[m])
    ensures n == m
  {
    hide Flatten;
    if m < n { OlderLog(logs, from, m, n, e, e); }
    if n < m { OlderLog(logs, from, n, m, e, e); }
  }

  /** An entry of log n is replayed only from log n. */
  lemma ReplayedIsLeft(db: Db, logs: map<nat, seq<Batch>>, n: nat, e: Entry)
    requires db.manifest != [] && LogsAscend(db.logs, LastEdit(db.manifest).logNumber) && Crashed(db.logs, logs)
    requires n in db.logs && n >= LastEdit(db.manifest).logNumber && e in Flatten(db.logs[n])
    ensures e in Replayed(db, logs) ==> e in Left(logs, n)
  {
    hide Flatten;
    var from := LastEdit(db.manifest).logNumber;
    if e in Replayed(db, logs) {
      var m :| m in logs && m >= from && e in Flatten(logs[m]);
      LeftIsPrefix(db.logs, logs, m);
      InOneLog(db.logs, from, n, m, e);
    }
  }

  /** In an ascending list nothing after a prefix occurs in it. */
  lemma PrefixIsLess(flat: seq<Entry>, front: seq<Entry>, i: nat)
    requires Ascending(flat) && front <= flat && i < |flat|
    ensures flat[i] in front <==> i < |front|
  {
    forall j | 0 <= j < |front| ensures front[j] == flat[j] { }
    if i < |front| { assert front[i] == flat[i]; }
  }

  /** A prefix that holds x holds everything older. */
  lemma PrefixClosed(h: seq<Entry>, w: seq<Entry>, e: Entry, x: Entry)
    requires NumbersGrow(h) && w <= h && e in h && x in w && e.key.num < x.key.num
    ensures e in w
  {
    var i :| 0 <= i < |w| && w[i] == x;
    var j :| 0 <= j < |h| && h[j] == e;
    assert h[i] == x && j < i;
    assert w[j] == e;
  }

  lemma GapIsNoPrefix(h: seq<Entry>, lost: set<Entry>, e: Entry, x: Entry)
    requires NumbersGrow(h) && e in h && x in h && e in lost && x !in lost && e.key.num < x.key.num
    ensures !(Without(h, lost) <= h)
  {
    WithoutAre(h, lost);
    if Without(h, lost) <= h { PrefixClosed(h, Without(h, lost), e, x); }
  }

  lemma UntornIsPrefix(db: Db, logs: map<nat, seq<Batch>>)
    requires db.manifest != [] && LogsAscend(db.logs, LastEdit(db.manifest).logNumber) && HistoryOk(db) && LogsOk(db)
    requires NumbersOk(db) && FlushedFirst(db) && Crashed(db.logs, logs) && !Torn(db, logs)
    ensures SurvivingHistory(db, logs) <= db.history
  {
    hide Flatten, LogsOk, HistoryOk, LogsAscend, Replayed, NumbersOk, FlushedFirst, Torn;
    Grows(db);
    forall e, x | e in db.history && e in Lost(db, logs) && x in db.history && x !in Lost(db, logs)
      ensures x.key.num < e.key.num
    {
      if x in db.mem + ImmSet(db.imm) {
        KeptIsOlder(db, logs, e, x);
      } else {
        FlushedIsOlder(db, x, e);
      }
    }
    LostSuffix(db.history, Lost(db, logs));
  }

  lemma Grows(db: Db)
    requires HistoryOk(db)
    ensures NumbersGrow(db.history)
  {
  }

  lemma FlushedIsOlder(db: Db, x: Entry, e: Entry)
    requires FlushedFirst(db) && x in db.history && x !in db.mem + ImmSet(db.imm) && e in db.mem + ImmSet(db.imm)
    ensures x.key.num < e.key.num
  {
  }

  lemma LoggedIn(db: Db, e: Entry) returns (n: nat)
    requires LogsOk(db) && e in db.mem + ImmSet(db.imm)
    ensures n in db.logs && n >= LastEdit(db.manifest).logNumber && e in Flatten(db.logs[n])
  {
    n := db.logNumber;
    if e !in db.mem {
      assert e in LogRange(db.logs, LastEdit(db.manifest).logNumber, db.logNumber);
      n :| n in db.logs && n >= LastEdit(db.manifest).logNumber && e in Flatten(db.logs[n]);
    }
  }

  lemma ShowsTorn(db: Db, logs: map<nat, seq<Batch>>, n: nat, k: nat)
    requires db.manifest != [] && LastEdit(db.manifest).logNumber <= n < k && LostSome(db, logs, n) && KeptSome(logs, k)
    ensures Torn(db, logs)
  {
  }

  lemma KeptIsOlder(db: Db, logs: map<nat, seq<Batch>>, e: Entry, x: Entry)
    requires db.manifest != [] && LogsAscend(db.logs, LastEdit(db.manifest).logNumber) && LogsOk(db)
    requires Crashed(db.logs, logs) && !Torn(db, logs)
    requires e in Lost(db, logs) && x in Replayed(db, logs)
    ensures x.key.num < e.key.num
  {
    hide Flatten, LogsOk, LogsAscend, Torn;
    var from := LastEdit(db.manifest).logNumber;
    var n := LoggedIn(db, e);
    var k :| k in logs && k >= from && x in Flatten(logs[k]);
    LeftIsPrefix(db.logs, logs, k);
    LeftIsPrefix(db.logs, logs, n);
    assert x in Flatten(db.logs[k]);
    assert e !in Left(logs, n);
    if k < n {
      OlderLog(db.logs, from, k, n, x, e);
    } else if n < k {
      ShowsTorn(db, logs, n, k);
    } else {
      PrefixIsOlder(db.logs, from, n, Left(logs, n), x, e);
    }
  }

  lemma PrefixIsOlder(logs: map<nat, seq<Batch>>, from: nat, n: nat, front: seq<Entry>, x: Entry, e: Entry)
    requires LogsAscend(logs, from) && n in logs && n >= from && front <= Flatten(logs[n])
    requires x in front && e in Flatten(logs[n]) && e !in front
    ensures x.key.num < e.key.num
  {
    hide Flatten;
    AscendingLog(logs, from, n);
    var flat := Flatten(logs[n]);
    var i :| 0 <= i < |front| && front[i] == x;
    var j :| 0 <= j < |flat| && flat[j] == e;
    PrefixIsLess(flat, front, j);
    assert flat[i] == x;
  }

  lemma {:induction false} LostSuffix(h: seq<Entry>, lost: set<Entry>)
    requires NumbersGrow(h) && LostAreNewer(h, lost)
    ensures Without(h, lost) <= h
  {
    if h != [] {
      var front, last := h[..|h| - 1], h[|h| - 1];
      FrontGrows(h, lost);
      LostSuffix(front, lost);
      if last !in lost { WithoutNone(front, lost); }
    }
  }

  ghost predicate LostAreNewer(h: seq<Entry>, lost: set<Entry>) {
    forall e, x :: e in h && e in lost && x in h && x !in lost ==> x.key.num < e.key.num
  }

  lemma FrontGrows(h: seq<Entry>, lost: set<Entry>)
    requires h != [] && NumbersGrow(h) && LostAreNewer(h, lost)
    ensures var front := h[..|h| - 1]; NumbersGrow(front) && LostAreNewer(front, lost)
    ensures h[|h| - 1] !in lost ==> forall e :: e in h[..|h| - 1] ==> e !in lost
  {
    var front, last := h[..|h| - 1], h[|h| - 1];
    assert forall i :: 0 <= i < |front| ==> front[i] == h[i];
    assert last in h && forall e :: e in front ==> e in h;
  }

  lemma {:induction false} WithoutNone(h: seq<Entry>, lost: set<Entry>)
    requires forall e :: e in h ==> e !in lost
    ensures Without(h, lost) == h
  {
    if h != [] {
      WithoutNone(h[..|h| - 1], lost);
      assert h[|h| - 1] in h;
    }
  }

  // ----- every run -----

  ghost predicate Replayable(db: Db)
  {
    Named(db) && db.manifest != [] && LogsAscend(db.logs, LastEdit(db.manifest).logNumber)
  }

  lemma StepReplayable(db: Db, op: Op)
    requires Shape(db) && Replayable(db) && Enabled(db, op)
    ensures Replayable(Apply(db, op))
  {
    hide Shape, Replayable, Named, LogsAscend;
    ReplayableParts(db);
    match op
    case Commit(batch) => CommitReplayable(db, batch);
    case Switch => SwitchReplayable(db);
    case Flush(level, table) => FlushReplayable(db, level, table);
    case Emit(f) => EmitReplayable(db, f);
    case Install => InstallReplayable(db);
    case Move(level, f) => MoveParts(db, level, f);
    case Collect => CollectReplayable(db);
    case Reopen(logs, tables, newLog) => ReopenReplayable(db, logs, tables, newLog);
    case Start(level, in0, in1) => QuietReplayable(db, Apply(db, op));
    case _ => QuietReplayable(db, Apply(db, op));
  }

  lemma ReplayableParts(db: Db)
    requires Replayable(db)
    ensures db.manifest != []
  {
  }

  /** Steps that leave manifest and logs alone. */
  lemma QuietReplayable(db: Db, db': Db)
    requires Replayable(db) && db'.manifest == db.manifest && db'.logs == db.logs && db'.nextFile >= db.nextFile
    requires db'.job == db.job || (db'.job.Some? && db'.job.value.outputs == [])
    ensures Replayable(db')
  {
  }

  lemma CommitReplayable(db: Db, batch: Batch)
    requires Shape(db) && Replayable(db) && CanCommit(db, batch)
    ensures Replayable(CommitTo(db, batch))
  {
    hide Shape;
    CommitAscends(db, batch);
  }

  lemma SwitchReplayable(db: Db)
    requires Shape(db) && Replayable(db) && db.imm.None?
    ensures Replayable(SwitchTo(db))
  {
    hide Layered, JobShape, HistoryOk, LevelsOk, ManifestOk, DiskOk, ManifestNames;
    assert Flatten([]) == [];
  }

  lemma FlushReplayable(db: Db, level: nat, table: Option<FileMeta>)
    requires Shape(db) && Replayable(db) && CanFlush(db, level, table)
    ensures Replayable(FlushTo(db, level, table))
  {
    hide Layered, HistoryOk, LevelsOk, DiskOk, ManifestNames, CanFlush, OutputsOk;
    FlushNamed(db, level, table);
  }

  lemma EmitReplayable(db: Db, f: FileMeta)
    requires Shape(db) && Replayable(db) && CanEmit(db, f)
    ensures Replayable(EmitTo(db, f))
  {
    hide Shape, ManifestNames;
  }

  lemma InstallReplayable(db: Db)
    requires Shape(db) && Replayable(db) && CanInstall(db)
    ensures Replayable(InstallTo(db))
  {
    hide Layered, HistoryOk, LevelsOk, DiskOk, ManifestNames, OutputsOk;
    InstallNamed(db);
  }

  lemma CollectReplayable(db: Db)
    requires Shape(db) && Replayable(db)
    ensures Replayable(CollectTo(db))
  {
    hide Shape, ManifestNames;
  }

  lemma MoveParts(db: Db, level: nat, f: FileMeta)
    requires Shape(db) && Replayable(db) && CanMove(db, level, f)
    ensures Replayable(MoveTo(db, level, f))
  {
    assert f in {f};
    MoveNamed(db, level, f);
  }

  lemma ReopenReplayable(db: Db, logs: map<nat, seq<Batch>>, tables: set<FileMeta>, newLog: nat)
    requires Shape(db) && CanReopen(db, logs, tables, newLog)
    ensures Replayable(ReopenTo(db, logs, tables, newLog))
  {
    ReopenNamed(db, logs, tables, newLog);
    assert Flatten([]) == [];
  }

  /** In every run, at every step. */
  lemma {:induction false} EveryRunIsReplayable(dbs: seq<Db>, ops: seq<Op>, i: nat)
    requires Run(dbs, ops) && i < |dbs|
    ensures Replayable(dbs[i])
  {
    if i == 0 {
      InitReplayable();
    } else {
      EveryRunIsReplayable(dbs, ops, i - 1);
      EveryRunKeepsShape(dbs, ops, i - 1);
      StepReplayable(dbs[i - 1], ops[i - 1]);
    }
  }

  lemma InitReplayable()
    ensures Replayable(InitDb())
  {
    assert Flatten([]) == [];
    forall p ensures !InManifest(InitDb().manifest, p) { }
  }

  // ----- a run whose recovered history is no prefix -----

  /** Two writes with a memtable switch between them, then a crash that keeps only the second log: the store reopens
      with the second write and without the first. */
  lemma CrashCanTearHistory(a: Entry, b: Entry) returns (dbs: seq<Db>, ops: seq<Op>)
    requires a.key.num == 1 && b.key.num == 2
    ensures Run(dbs, ops) && |ops| == 4 && dbs[3].history == [a, b] && dbs[4].history == [b]
  {
    hide CanReopen, SurvivingHistory;
    var t := FileMeta(5, b.key, b.key, [b]);
    var logs: map<nat, seq<Batch>> := map[3 := [], 4 := [[b]]];
    var db1 := FirstWrite(a);
    var db2 := SecondLog(a, db1);
    var db3 := SecondWrite(a, b, db2);
    TornReplay(a, b, db3, logs, t);
    var db4 := Torn4(b, db3, logs, {t});
    dbs, ops := [InitDb(), db1, db2, db3, db4], [Commit([a]), Switch, Commit([b]), Reopen(logs, {t}, 6)];
    RunOf(dbs, ops);
  }

  lemma RunOf(dbs: seq<Db>, ops: seq<Op>)
    requires |ops| == 4 && |dbs| == 5 && dbs[0] == InitDb()
    requires Enabled(dbs[0], ops[0]) && dbs[1] == Apply(dbs[0], ops[0]) && Enabled(dbs[1], ops[1])
      && dbs[2] == Apply(dbs[1], ops[1])
    requires Enabled(dbs[2], ops[2]) && dbs[3] == Apply(dbs[2], ops[2]) && Enabled(dbs[3], ops[3])
      && dbs[4] == Apply(dbs[3], ops[3])
    ensures Run(dbs, ops)
  {
    hide Enabled, Apply;
  }

  lemma FirstWrite(a: Entry) returns (db: Db)
    requires a.key.num == 1
    ensures Enabled(InitDb(), Commit([a])) && db == Apply(InitDb(), Commit([a]))
    ensures db.history == [a] && db.last == 1 && db.mem == {a} && db.imm == None && db.nextFile == 4
      && db.logNumber == 3
    ensures db.logs == map[3 := [[a]]] && db.manifest == InitDb().manifest
  {
    db := Apply(InitDb(), Commit([a]));
    assert SeqSet([a]) == {a} && [] + [a] == [a];
    assert db.mem == {} + {a};
    var none: seq<Batch> := [];
    assert none + [[a]] == [[a]];
  }

  lemma SecondLog(a: Entry, db1: Db) returns (db: Db)
    requires db1.history == [a] && db1.last == 1 && db1.mem == {a} && db1.imm == None && db1.nextFile == 4
      && db1.logNumber == 3
    requires db1.logs == map[3 := [[a]]]
    ensures Enabled(db1, Switch) && db == Apply(db1, Switch)
    ensures db.history == [a] && db.last == 1 && db.mem == {} && db.imm == Some({a}) && db.logNumber == 4
    ensures db.logs == map[3 := [[a]], 4 := []] && db.manifest == db1.manifest
  {
    db := Apply(db1, Switch);
  }

  lemma SecondWrite(a: Entry, b: Entry, db2: Db) returns (db: Db)
    requires b.key.num == 2 && db2.history == [a] && db2.last == 1 && db2.mem == {} && db2.imm == Some({a})
      && db2.logNumber == 4
    requires db2.logs == map[3 := [[a]], 4 := []]
    ensures Enabled(db2, Commit([b])) && db == Apply(db2, Commit([b]))
    ensures db.history == [a, b] && db.mem == {b} && db.imm == Some({a}) && db.manifest == db2.manifest
    ensures db.logs == map[3 := [[a]], 4 := [[b]]]
  {
    db := Apply(db2, Commit([b]));
    assert SeqSet([b]) == {b} && [a] + [b] == [a, b];
    assert db.mem == {} + {b};
    var none: seq<Batch> := [];
    assert none + [[b]] == [[b]];
  }

  lemma Torn4(b: Entry, db: Db, logs: map<nat, seq<Batch>>, tables: set<FileMeta>) returns (db': Db)
    requires CanReopen(db, logs, tables, 6) && SurvivingHistory(db, logs) == [b]
    ensures Enabled(db, Reopen(logs, tables, 6)) && db' == Apply(db, Reopen(logs, tables, 6)) && db'.history == [b]
  {
    hide CanReopen, SurvivingHistory, RecoveredDisk, RecoveredLast, Replay, ApplyEdit;
    db' := Apply(db, Reopen(logs, tables, 6));
  }

  lemma TornReplay(a: Entry, b: Entry, db: Db, logs: map<nat, seq<Batch>>, t: FileMeta)
    requires a.key.num == 1 && b.key.num == 2 && db.history == [a, b] && db.mem == {b} && db.imm == Some({a})
    requires db.manifest == InitDb().manifest && db.logs == map[3 := [[a]], 4 := [[b]]]
      && logs == map[3 := [], 4 := [[b]]]
    requires t == FileMeta(5, b.key, b.key, [b])
    ensures CanReopen(db, logs, {t}, 6) && SurvivingHistory(db, logs) == [b]
  {
    hide LogEntries, Flatten, RecoveredTables, Without, InitDb, UnionEntries;
    FirstManifest();
    TornEntries(b, logs);
    TornTables(b, t);
    assert Lost(db, logs) == {a};
    TornHistory(a, b);
  }

  lemma FirstManifest()
    ensures InitDb().manifest != [] && LastEdit(InitDb().manifest).logNumber == 3
      && LastEdit(InitDb().manifest).nextFile == 4
  {
  }

  lemma TornTables(b: Entry, t: FileMeta)
    requires t == FileMeta(5, b.key, b.key, [b])
    ensures RecoveredTables({t}, {b}, 4)
  {
    forall e ensures e in UnionEntries({t}) <==> e == b {
      if e == b { assert t in {t} && e in t.entries; }
    }
    assert UnionEntries({t}) == {b};
  }

  lemma TornEntries(b: Entry, logs: map<nat, seq<Batch>>)
    requires logs == map[3 := [], 4 := [[b]]]
    ensures LogEntries(logs, 3) == {b}
  {
    assert [[b]][..0] == [];
    assert Flatten(logs[3]) == [];
    assert Flatten(logs[4]) == Flatten([]) + [b];
    forall e ensures e in LogEntries(logs, 3) <==> e == b {
      if e == b { assert 4 in logs && e in Flatten(logs[4]); }
    }
  }

  lemma TornHistory(a: Entry, b: Entry)
    requires a != b
    ensures Without([a, b], {a}) == [b]
  {
    assert [a][..0] == [] && [a, b][..1] == [a];
    assert Without([], {a}) == [] && Without([a], {a}) == [];
  }
}
