/** A run of the store in which a compaction brings a deleted key back.

    The level-2 files A and B are cut between a deletion marker and the older value of one key (the cut is
    made while a snapshot needs both). A later compaction takes A but not B, sees no deeper level holding the
    key, and drops the marker; the value in B is then what every reader finds.

    Where an output file is cut is a parameter of the merge loop, as in the rest of the model. The loop cuts after the
    entry that completes a data block and brings the file to its maximal size; E2 stands for the entries before the
    marker that fill the last block of A up to it. */
module Resurrection {
  import opened Wrappers
  import opened Keys
  import opened Reads
  import opened DropRules
  import opened LsmModel
  import opened LsmShape
  import opened LsmReads
  import opened LsmRuns
  import opened InputSelection
  import opened StoreFacts

  const E1 := Entry(InternalKey(2.0, 1, Put), [7])
  const E2 := Entry(InternalKey(1.0, 2, Put), [8])
  const E3 := Entry(InternalKey(2.0, 3, Deletion), [])
  const E4 := Entry(InternalKey(1.0, 4, Put), [9])

  const F1 := TableFrom([E1], 5)
  const F2 := TableFrom([E2, E3], 7)
  const A := TableFrom([E2, E3], 8)
  const B := TableFrom([E1], 9)
  const F3 := TableFrom([E4], 11)
  const C := TableFrom([E4], 12)

  const M0 := Edit({}, {}, 3, 4, 0)
  const M1 := Edit({}, {(2, F1)}, 4, 6, 1)
  const M2 := Edit({}, {(1, F2)}, 6, 8, 3)
  const M3 := Edit({(1, 7), (2, 5)}, {(2, A), (2, B)}, 6, 10, 3)
  const M4 := Edit({}, {(1, F3)}, 10, 12, 4)
  const M5 := Edit({(1, 11), (2, 8)}, {(2, C)}, 10, 13, 4)

  /** Levels 1 and 2; the rest is empty. */
  function Tables(l1: set<FileMeta>, l2: set<FileMeta>): Levels { [{}, l1, l2, {}, {}, {}, {}] }

  function FirstJob(outputs: seq<FileMeta>): Job { Job(1, {F2}, {F1}, 1, Tables({F2}, {F1}), outputs) }

  function SecondJob(outputs: seq<FileMeta>): Job { Job(1, {F3}, {A}, 4, Tables({F3}, {A, B}), outputs) }

  function OpAt(i: nat): Op
    requires i < 18
  {
    match i
    case 0 => Commit([E1])
    case 1 => TakeSnapshot
    case 2 => Switch
    case 3 => Flush(2, Some(F1))
    case 4 => Commit([E2, E3])
    case 5 => Switch
    case 6 => Flush(1, Some(F2))
    case 7 => Start(1, {F2}, {F1})
    case 8 => Emit(A)
    case 9 => Emit(B)
    case 10 => Install
    case 11 => ReleaseSnapshot(0)
    case 12 => Commit([E4])
    case 13 => Switch
    case 14 => Flush(1, Some(F3))
    case 15 => Start(1, {F3}, {A})
    case 16 => Emit(C)
    case _ => Install
  }

  function StateAt(i: nat): Db
    requires i <= 18
  {
    match i
    case 0 =>
      Db([], 0, {}, None, Tables({}, {}), 4, [], None, 3,
         map[3 := []], map[],
         [M0], [])
    case 1 =>
      Db([E1], 1, {E1}, None, Tables({}, {}), 4, [], None, 3,
         map[3 := [[E1]]], map[],
         [M0], [])
    case 2 =>
      Db([E1], 1, {E1}, None, Tables({}, {}), 4, [1], None, 3,
         map[3 := [[E1]]], map[],
         [M0], [])
    case 3 =>
      Db([E1], 1, {}, Some({E1}), Tables({}, {}), 5, [1], None, 4,
         map[3 := [[E1]], 4 := []], map[],
         [M0], [])
    case 4 =>
      Db([E1], 1, {}, None, Tables({}, {F1}), 6, [1], None, 4,
         map[3 := [[E1]], 4 := []], map[5 := [E1]],
         [M0, M1], [])
    case 5 =>
      Db([E1, E2, E3], 3, {E2, E3}, None, Tables({}, {F1}), 6, [1], None, 4,
         map[3 := [[E1]], 4 := [[E2, E3]]], map[5 := [E1]],
         [M0, M1], [])
    case 6 =>
      Db([E1, E2, E3], 3, {}, Some({E2, E3}), Tables({}, {F1}), 7, [1], None, 6,
         map[3 := [[E1]], 4 := [[E2, E3]], 6 := []], map[5 := [E1]],
         [M0, M1], [])
    case 7 =>
      Db([E1, E2, E3], 3, {}, None, Tables({F2}, {F1}), 8, [1], None, 6,
         map[3 := [[E1]], 4 := [[E2, E3]], 6 := []], map[5 := [E1], 7 := [E2, E3]],
         [M0, M1, M2], [])
    case 8 =>
      Db([E1, E2, E3], 3, {}, None, Tables({F2}, {F1}), 8, [1], Some(FirstJob([])), 6,
         map[3 := [[E1]], 4 := [[E2, E3]], 6 := []], map[5 := [E1], 7 := [E2, E3]],
         [M0, M1, M2], [])
    case 9 =>
      Db([E1, E2, E3], 3, {}, None, Tables({F2}, {F1}), 9, [1], Some(FirstJob([A])), 6,
         map[3 := [[E1]], 4 := [[E2, E3]], 6 := []], map[5 := [E1], 7 := [E2, E3], 8 := [E2, E3]],
         [M0, M1, M2], [])
    case 10 =>
      Db([E1, E2, E3], 3, {}, None, Tables({F2}, {F1}), 10, [1], Some(FirstJob([A, B])), 6,
         map[3 := [[E1]], 4 := [[E2, E3]], 6 := []], map[5 := [E1], 7 := [E2, E3], 8 := [E2, E3], 9 := [E1]],
         [M0, M1, M2], [])
    case 11 =>
      Db([E1, E2, E3], 3, {}, None, Tables({}, {A, B}), 10, [1], None, 6,
         map[3 := [[E1]], 4 := [[E2, E3]], 6 := []], map[5 := [E1], 7 := [E2, E3], 8 := [E2, E3], 9 := [E1]],
         [M0, M1, M2, M3], [])
    case 12 =>
      Db([E1, E2, E3], 3, {}, None, Tables({}, {A, B}), 10, [], None, 6,
         map[3 := [[E1]], 4 := [[E2, E3]], 6 := []], map[5 := [E1], 7 := [E2, E3], 8 := [E2, E3], 9 := [E1]],
         [M0, M1, M2, M3], [])
    case 13 =>
      Db([E1, E2, E3, E4], 4, {E4}, None, Tables({}, {A, B}), 10, [], None, 6,
         map[3 := [[E1]], 4 := [[E2, E3]], 6 := [[E4]]], map[5 := [E1], 7 := [E2, E3], 8 := [E2, E3], 9 := [E1]],
         [M0, M1, M2, M3], [])
    case 14 =>
      Db([E1, E2, E3, E4], 4, {}, Some({E4}), Tables({}, {A, B}), 11, [], None, 10,
         map[3 := [[E1]], 4 := [[E2, E3]], 6 := [[E4]], 10 := []],
         map[5 := [E1], 7 := [E2, E3], 8 := [E2, E3], 9 := [E1]],
         [M0, M1, M2, M3], [])
    case 15 =>
      Db([E1, E2, E3, E4], 4, {}, None, Tables({F3}, {A, B}), 12, [], None, 10,
         map[3 := [[E1]], 4 := [[E2, E3]], 6 := [[E4]], 10 := []],
         map[5 := [E1], 7 := [E2, E3], 8 := [E2, E3], 9 := [E1], 11 := [E4]],
         [M0, M1, M2, M3, M4], [])
    case 16 =>
      Db([E1, E2, E3, E4], 4, {}, None, Tables({F3}, {A, B}), 12, [], Some(SecondJob([])), 10,
         map[3 := [[E1]], 4 := [[E2, E3]], 6 := [[E4]], 10 := []],
         map[5 := [E1], 7 := [E2, E3], 8 := [E2, E3], 9 := [E1], 11 := [E4]],
         [M0, M1, M2, M3, M4], [])
    case 17 =>
      Db([E1, E2, E3, E4], 4, {}, None, Tables({F3}, {A, B}), 13, [], Some(SecondJob([C])), 10,
         map[3 := [[E1]], 4 := [[E2, E3]], 6 := [[E4]], 10 := []],
         map[5 := [E1], 7 := [E2, E3], 8 := [E2, E3], 9 := [E1], 11 := [E4], 12 := [E4]],
         [M0, M1, M2, M3, M4], [])
    case _ =>
      Db([E1, E2, E3, E4], 4, {}, None, Tables({}, {B, C}), 13, [], None, 10,
         map[3 := [[E1]], 4 := [[E2, E3]], 6 := [[E4]], 10 := []],
         map[5 := [E1], 7 := [E2, E3], 8 := [E2, E3], 9 := [E1], 11 := [E4], 12 := [E4]],
         [M0, M1, M2, M3, M4, M5], [])
  }

  ghost predicate StepOk(i: nat)
    requires i < 18
  {
    Enabled(StateAt(i), OpAt(i)) && Apply(StateAt(i), OpAt(i)) == StateAt(i + 1)
  }

  lemma EditTables(l1: set<FileMeta>, l2: set<FileMeta>, e: Edit, m1: set<FileMeta>, m2: set<FileMeta>)
    requires forall p :: p in e.added ==> p.0 == 1 || p.0 == 2
    requires m1 == (set f | f in l1 && (1, f.number) !in e.deleted) + AddedAt(e.added, 1)
    requires m2 == (set f | f in l2 && (2, f.number) !in e.deleted) + AddedAt(e.added, 2)
    ensures ApplyEdit(Tables(l1, l2), e) == Tables(m1, m2)
  {
    var a, b := ApplyEdit(Tables(l1, l2), e), Tables(m1, m2);
    forall l: nat | l < 7 ensures a[l] == b[l] {
      EditLevel(Tables(l1, l2), e, l);
    }
  }

  lemma LogsGrow(batch: Batch)
    ensures [] + [batch] == [batch]
  {
  }

  lemma FirstCommit()
    ensures StepOk(0)
  {
    LogsGrow([E1]);
    assert CommitTo(StateAt(0), [E1]).logs == StateAt(1).logs;
  }

  lemma SecondCommit()
    ensures StepOk(4)
  {
    LogsGrow([E2, E3]);
    assert CommitTo(StateAt(4), [E2, E3]).logs == StateAt(5).logs;
    assert SeqSet([E2, E3]) == {E2, E3};
  }

  lemma ThirdCommit()
    ensures StepOk(12)
  {
    LogsGrow([E4]);
    assert CommitTo(StateAt(12), [E4]).logs == StateAt(13).logs;
  }

  lemma Switches()
    ensures StepOk(2) && StepOk(5) && StepOk(13)
  {
    assert SwitchTo(StateAt(2)).logs == StateAt(3).logs;
    assert SwitchTo(StateAt(5)).logs == StateAt(6).logs;
    assert SwitchTo(StateAt(13)).logs == StateAt(14).logs;
  }

  lemma Snapshots()
    ensures StepOk(1) && StepOk(11)
  {
  }

  lemma FirstFlush()
    ensures StepOk(3)
  {
    TablesOk();
    assert AddedAt({(2, F1)}, 1) == {} && AddedAt({(2, F1)}, 2) == {F1};
    EditTables({}, {}, M1, {}, {F1});
  }

  lemma SecondFlush()
    ensures StepOk(6)
  {
    TablesOk();
    assert AddedAt({(1, F2)}, 1) == {F2} && AddedAt({(1, F2)}, 2) == {};
    EditTables({}, {F1}, M2, {F2}, {F1});
  }

  lemma ThirdFlush()
    ensures StepOk(14)
  {
    TablesOk();
    assert AddedAt({(1, F3)}, 1) == {F3} && AddedAt({(1, F3)}, 2) == {};
    EditTables({}, {A, B}, M4, {F3}, {A, B});
  }

  lemma TablesOk()
    ensures F1.Ok() && F2.Ok() && A.Ok() && B.Ok() && F3.Ok() && C.Ok()
    ensures SeqSet([E1]) == {E1} && SeqSet([E2, E3]) == {E2, E3} && SeqSet([E4]) == {E4}
  {
  }

  lemma FirstStart()
    ensures StepOk(7)
  {
  }

  lemma SecondStart()
    ensures StepOk(15)
  {
  }

  lemma UnionOfTwo(f: FileMeta, g: FileMeta)
    ensures UnionEntries({f} + {g}) == SeqSet(f.entries) + SeqSet(g.entries)
    ensures UnionEntries({f}) == SeqSet(f.entries)
  {
  }

  /** At the first compaction a snapshot still needs E1, so neither it nor the marker is dropped. */
  lemma KeptByFirst(outputs: seq<FileMeta>)
    ensures Kept(FirstJob(outputs)) == {E1, E2, E3}
  {
    var j := FirstJob(outputs);
    TablesOk();
    UnionOfTwo(F2, F1);
    assert UnionEntries(j.Inputs()) == {E1, E2, E3};
  }

  /** At the second the marker is dropped: it is old enough, and no level below the output holds its key. */
  lemma KeptBySecond(outputs: seq<FileMeta>)
    ensures Kept(SecondJob(outputs)) == {E4}
  {
    var j := SecondJob(outputs);
    TablesOk();
    UnionOfTwo(F3, A);
    assert UnionEntries(j.Inputs()) == {E2, E3, E4};
    assert Hidden(UnionEntries(j.Inputs()), j.snap, E2);
    assert BaseLevel(j.base, 1, 2.0);
    assert Droppable(j, E3);
  }

  lemma FirstEmits()
    ensures StepOk(8) && StepOk(9)
  {
    TablesOk();
    KeptByFirst([]);
    KeptByFirst([A]);
    var none: seq<FileMeta> := [];
    assert none + [A] == [A] && [A] + [B] == [A, B];
    assert EmitTo(StateAt(8), A).disk == StateAt(9).disk && EmitTo(StateAt(9), B).disk == StateAt(10).disk;
  }

  lemma SecondEmit()
    ensures StepOk(16)
  {
    TablesOk();
    KeptBySecond([]);
    var none: seq<FileMeta> := [];
    assert none + [C] == [C];
    assert EmitTo(StateAt(16), C).disk == StateAt(17).disk;
  }

  lemma InstallEdits()
    ensures JobEdit(FirstJob([A, B]), 6, 10, 3) == M3 && JobEdit(SecondJob([C]), 10, 13, 4) == M5
  {
    var j, k := FirstJob([A, B]), SecondJob([C]);
    assert A in j.outputs && B in j.outputs && C in k.outputs;
    assert JobEdit(j, 6, 10, 3).deleted == M3.deleted && JobEdit(k, 10, 13, 4).deleted == M5.deleted;
    assert JobEdit(j, 6, 10, 3).added == M3.added;
    assert JobEdit(k, 10, 13, 4).added == M5.added;
  }

  lemma FirstTables()
    ensures UnionEntries(set f | f in [A, B]) == Kept(FirstJob([A, B]))
      && ApplyEdit(Tables({F2}, {F1}), M3) == Tables({}, {A, B})
  {
    hide Kept, UnionEntries, ApplyEdit;
    TablesOk();
    KeptByFirst([A, B]);
    UnionOfTwo(A, B);
    assert (set f | f in [A, B]) == {A} + {B};
    assert AddedAt(M3.added, 1) == {} && AddedAt(M3.added, 2) == {A, B};
    EditTables({F2}, {F1}, M3, {}, {A, B});
  }

  lemma FirstInstall()
    ensures StepOk(10)
  {
    hide Kept, UnionEntries, ApplyEdit, JobEdit, Tables;
    FirstTables();
    InstallEdits();
  }

  lemma SecondTables()
    ensures UnionEntries(set f | f in [C]) == Kept(SecondJob([C]))
      && ApplyEdit(Tables({F3}, {A, B}), M5) == Tables({}, {B, C})
  {
    hide Kept, UnionEntries, ApplyEdit;
    TablesOk();
    KeptBySecond([C]);
    UnionOfTwo(C, C);
    assert (set f | f in [C]) == {C};
    assert AddedAt(M5.added, 1) == {} && AddedAt(M5.added, 2) == {C};
    EditTables({F3}, {A, B}, M5, {}, {B, C});
  }

  lemma SecondInstall()
    ensures StepOk(17)
  {
    hide Kept, UnionEntries, ApplyEdit, JobEdit, Tables;
    SecondTables();
    InstallEdits();
  }

  /** The level-2 inputs are what GetOverlappingInputs selects: the files whose user-key range meets that of F3. */
  lemma PickedBySetupOtherInputs()
    ensures Selected([A, B], Some(F3.smallest.user), Some(F3.largest.user)) == [A]
    ensures !Continues(F3, F3.largest) && IsLargest([F3], F3.largest)
  {
    var b, e := Some(F3.smallest.user), Some(F3.largest.user);
    assert [A, B][..1] == [A] && [A][..0] == [];
    assert Selected([A], b, e) == Selected([], b, e) + [A] == [A];
  }

  lemma EveryStepOk(i: nat)
    requires i < 18
    ensures StepOk(i)
  {
    hide StepOk;
    match i
    case 0 => FirstCommit();
    case 1 => Snapshots();
    case 2 => Switches();
    case 3 => FirstFlush();
    case 4 => SecondCommit();
    case 5 => Switches();
    case 6 => SecondFlush();
    case 7 => FirstStart();
    case 8 => FirstEmits();
    case 9 => FirstEmits();
    case 10 => FirstInstall();
    case 11 => Snapshots();
    case 12 => ThirdCommit();
    case 13 => Switches();
    case 14 => ThirdFlush();
    case 15 => SecondStart();
    case 16 => SecondEmit();
    case _ => SecondInstall();
  }

  lemma InitIsFirst()
    ensures StateAt(0) == InitDb()
  {
    assert Tables({}, {}) == EmptyLevels();
  }

  /** A reachable store in which key 2 reads as deleted, and after one compaction step reads as a value. */
  lemma CompactionCanResurrect() returns (dbs: seq<Db>, ops: seq<Op>)
    ensures Run(dbs, ops) && |ops| == 18 && ops[17] == Install
    ensures dbs[18].history == dbs[17].history && ReadAt(dbs[18].history, 2.0, 4) == None
    ensures Readable(dbs[17], 4) && Answers(Contents(dbs[17]), 2.0, 4, None)
    ensures Readable(dbs[18], 4) && Answers(Contents(dbs[18]), 2.0, 4, Some([7])) && !ReadsOk(dbs[18])
  {
    hide StateAt, OpAt, Enabled, Apply, InitDb, Contents, Readable, ReadsOk, ReadAt;
    dbs, ops := seq(19, i requires 0 <= i < 19 => StateAt(i)), seq(18, i requires 0 <= i < 18 => OpAt(i));
    forall i | 0 <= i < 18 ensures Enabled(dbs[i], ops[i]) && dbs[i + 1] == Apply(dbs[i], ops[i]) { EveryStepOk(i); }
    InitIsFirst();
    LastIsInstall();
    ReadBefore();
    ReadAfter();
  }

  lemma LastIsInstall()
    ensures OpAt(17) == Install && StateAt(18).history == StateAt(17).history
  {
  }

  lemma ReadBefore()
    ensures Readable(StateAt(17), 4) && Answers(Contents(StateAt(17)), 2.0, 4, None)
  {
    var db := StateAt(17);
    assert At(db, InTable(2, A), E3);
    assert E3 in Contents(db);
    forall e | IsNewest(Contents(db), 2.0, 4, e) ensures e.key.kind == Deletion {
      assert e.key.num >= 3;
    }
  }

  lemma ReadAfter()
    ensures Readable(StateAt(18), 4) && ReadAt(StateAt(18).history, 2.0, 4) == None
    ensures Answers(Contents(StateAt(18)), 2.0, 4, Some([7])) && !ReadsOk(StateAt(18))
  {
    var db := StateAt(18);
    var h := db.history;
    ContentsAfter();
    assert IsNewest(Contents(db), 2.0, 4, E1);
    assert h[..3] == [E1, E2, E3];
    assert ReadAt([E1, E2, E3], 2.0, 4) == None;
    assert E3 in SeqSet(h) && IsNewest(SeqSet(h), 2.0, 4, E3);
    assert !SameRead(SeqSet(h), Contents(db), 2.0, 4) by {
      assert !Answers(SeqSet(h), 2.0, 4, Some([7]));
    }
  }

  lemma ContentsAfter()
    ensures Contents(StateAt(18)) == {E1, E4}
  {
    var db := StateAt(18);
    TablesOk();
    forall e ensures e in FileEntries(db.levels) <==> e in {E1, E4} {
      if e == E1 { assert B in db.levels[2] && e in B.entries; }
      if e == E4 { assert C in db.levels[2] && e in C.entries; }
    }
  }
}
