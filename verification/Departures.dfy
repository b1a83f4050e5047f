/** Runs, written out, on which the container or its journal does not do what it is there for.  The
    lemmas elsewhere say exactly which calls have these effects. */
module Departures {
  import opened Objects
  import opened Snapshots
  import opened UndoSessions
  import opened UndoSquash
  import opened UndoCompress
  import opened UndoStamps
  import opened UndoTrust
  import opened UndoFailure
  import opened UndoReplay
  import opened Container
  import opened UndoContainer
  import opened Archive
  import opened ArchiveFiles
  import opened JournalLog
  import opened JournalFrames
  import opened JournalFile
  import opened JournalFailure
  import opened JournaledContainer

  // ---------------------------------------------------------------------------------------------
  // A reverted modify

  /** Object 0 with value 7 and object 1 with value 8, which is unique. */
  const TWO: Contents := map[0 := Object(0, [7]), 1 := Object(1, [8])]

  function TwoObjects(p: Handle, q: Handle): State {
    State(map[p := Node(Object(0, [7]), 0, false), q := Node(Object(1, [8]), 0, false)], {p, q}, 2, [])
  }

  lemma TwoFit()
    ensures Fits(2, map[], Object(0, [7])) && Fits(2, map[0 := Object(0, [7])], Object(1, [8]))
    ensures !Fits(2, TWO, Object(0, [8])) && Fits(2, TWO, Object(0, [9])) && Fits(2, TWO, Object(1, [10]))
    ensures Fits(2, TWO[1 := Object(1, [10])], Object(0, [8]))
    ensures map[][0 := Object(0, [7])][1 := Object(1, [8])] == TWO
  {
    assert 1 in TWO && Key(1, TWO[1]) == Key(1, Object(0, [8]));
  }

  /** A container with the two objects and an open session. */
  method TwoObjectsStarted() returns (c: UndoMultiIndex, p: Handle, q: Handle)
    ensures fresh(c) && fresh(c.table) && c.Valid() && |c.table.indices| == 2 && p != q
    ensures c.St() == StartedState(TwoObjects(p, q), 1) && c.mono == 1
    ensures c.Model() == View(TWO, 2, 1, [Snapshot(TWO, 2)])
    ensures c.shadow == c.St()
  {
    hide UndoMultiIndex.Valid, UndoMultiIndex.Usable, UndoMultiIndex.Tidy, Table, SnapshotsOf, Fits;
    TwoFit();
    c := new UndoMultiIndex(2);
    var first := c.Emplace(0, [7]);
    var second := c.Emplace(1, [8]);
    p, q := first.value, second.value;
    assert c.St() == TwoObjects(p, q);
    var _ := c.StartUndo();
  }

  lemma {:induction false} RevertedUndone(n: nat, p: Handle, q: Handle, addr: nat)
    requires p != q
    ensures var st := StartedState(TwoObjects(p, q), 1);
      var st' := ModifiedState(FailedState(st, 1, p), 1, addr, p, Object(0, [9]));
      && Reverts(st, p) && st'.sessions != [] && Reinsertable(n, st')
      && p in UndoTop(st').main && p in UndoTop(st').nodes && UndoTop(st').nodes[p].item == Object(0, [9])
  {
  }

  /** In a session object 0 is given the value of object 1, which is refused, and then a value of its
      own, which is not.  Undo leaves the new value where the session found the old one. */
  method RevertedModifyDefeatsUndo() returns (c: UndoMultiIndex, refused: bool, accepted: bool)
    ensures fresh(c) && c.table.indices != [] && refused && accepted
    ensures 0 in c.Model().contents && c.Model().contents[0] == Object(0, [9]) != TWO[0]
  {
    hide UndoMultiIndex.Valid, UndoMultiIndex.Usable, UndoMultiIndex.Tidy, UndoMultiIndex.CanTrust, Table, SnapshotsOf, Fits, UndoTop, FailedState, ModifiedState, Reinsertable;
    hide TableOk, MultiIndex.Valid, HarmlessFailure, Reverts, StartedState, TwoObjects, Undoable;
    var p, q;
    c, p, q := TwoObjectsStarted();
    TwoFit();
    TwoNodes(p, q);
    var ok := c.Modify(p, [8]);
    refused := !ok;
    RevertedUndone(2, p, q, 0);
    RevertedObject(p, q, 0);
    accepted := c.Modify(p, [9]);
    RevertedUndone(2, p, q, c.NewestAddress());
    UsableCanUndo(c);
    ghost var st := c.St();
    UsableUndoable(c);
    UndoneObject(2, st, p);
    c.Undo();
  }

  lemma TwoNodes(p: Handle, q: Handle)
    requires p != q
    ensures var st := StartedState(TwoObjects(p, q), 1);
      && st.main == {p, q} && p in st.nodes && q in st.nodes && st.nodes[p].item == Object(0, [7]) && st.nodes[q].item == Object(1, [8])
      && st.sessions != []
  {
  }

  lemma RevertedObject(p: Handle, q: Handle, addr: nat)
    requires p != q
    ensures var st := FailedState(StartedState(TwoObjects(p, q), 1), 1, p);
      && st.main == {p, q} && p in st.nodes && q in st.nodes && st.nodes[p].item == Object(0, [7]) && st.nodes[q].item == Object(1, [8])
  {
  }

  lemma UsableUndoable(c: UndoMultiIndex)
    requires c.Usable()
    ensures Undoable(|c.table.indices|, c.St())
  {
  }

  lemma UsableCanUndo(c: UndoMultiIndex)
    requires c.Usable() && c.sessions != [] && Reinsertable(|c.table.indices|, c.St())
    ensures c.CanUndo()
  {
  }

  /** What the two modifies of object 0 leave around one of object 1. */
  lemma {:induction false} SharedUndone(p: Handle, q: Handle, a: nat, b: nat)
    requires p != q
    ensures var st := FailedState(StartedState(TwoObjects(p, q), 1), 1, p);
      var st1 := ModifiedState(st, 1, a, q, Object(1, [10]));
      && p in st1.nodes && st1.main == {p, q} && st1.nodes[p].item == Object(0, [7])
      && var st' := ModifiedState(st1, 1, b, p, Object(0, [8]));
      && st'.sessions != [] && Reinsertable(2, st')
      && var u := UndoTop(st');
      && u.main == {p, q} && p in u.nodes && q in u.nodes
      && u.nodes[p].item == Object(0, [8]) && u.nodes[q].item == Object(1, [8])
      && !TableOk(2, u)
  {
    var st := FailedState(StartedState(TwoObjects(p, q), 1), 1, p);
    var st1 := ModifiedState(st, 1, a, q, Object(1, [10]));
    var st' := ModifiedState(st1, 1, b, p, Object(0, [8]));
    assert Top(st1).olds == [Old(a, Object(1, [8]), 0, q)];
    assert st'.sessions == st1.sessions;
    assert Oldest([Old(a, Object(1, [8]), 0, q)], 1, q) == Some(Old(a, Object(1, [8]), 0, q));
    assert Oldest([Old(a, Object(1, [8]), 0, q)][..0], 1, p) == None && Oldest([Old(a, Object(1, [8]), 0, q)], 1, p) == None;
    assert Reach(st') == {p, q};
    var u := UndoTop(st');
    assert Key(1, u.nodes[p].item) == Key(1, u.nodes[q].item);
  }

  /** If object 1 makes room for the refused value meanwhile, undo leaves two objects with the same
      value in a unique index. */
  method UndoLeavesDuplicates() returns (c: UndoMultiIndex, refused: bool, moved: bool, accepted: bool)
    ensures fresh(c) && |c.table.indices| == 2 && refused && moved && accepted
    ensures 0 in c.Model().contents && c.Model().contents[0] == Object(0, [8])
    ensures 1 in c.Model().contents && c.Model().contents[1] == Object(1, [8])
    ensures !c.table.Valid()
  {
    hide UndoMultiIndex.Valid, UndoMultiIndex.Usable, UndoMultiIndex.Tidy, UndoMultiIndex.CanTrust, Table, SnapshotsOf, Fits, UndoTop, FailedState, ModifiedState, Reinsertable;
    hide TableOk, MultiIndex.Valid, HarmlessFailure, Reverts, StartedState, TwoObjects, Undoable;
    var p, q;
    c, p, q := TwoObjectsStarted();
    TwoFit();
    TwoNodes(p, q);
    RevertedUndone(2, p, q, 0);
    RevertedObject(p, q, 0);
    var ok := c.Modify(p, [8]);
    refused := !ok;
    OtherTrusted(c, p, q);
    moved := c.Modify(q, [10]);
    ghost var a := c.NewestAddress();
    SharedUndone(p, q, a, 0);
    accepted := c.Modify(p, [8]);
    SharedUndone(p, q, a, c.NewestAddress());
    UsableCanUndo(c);
    ghost var st := c.St();
    UsableUndoable(c);
    UndoneObject(2, st, p);
    UndoneObject(2, st, q);
    c.Undo();
  }

  lemma OtherTrusted(c: UndoMultiIndex, p: Handle, q: Handle)
    requires p != q && c.table.indices != [] && c.shadow == StartedState(TwoObjects(p, q), 1) && c.St() == FailedState(c.shadow, 1, p)
    ensures c.CanTrust(q)
  {
  }

  // ---------------------------------------------------------------------------------------------
  // A reverted modify in an inner session

  /** In a second inner session object 0 has just been given the value 9; a modify of it was refused in
      the first, so that its backup carries the stamp of that session. */
  function Nested(p: Handle, q: Handle, addr: nat): State {
    State(map[p := Node(Object(0, [9]), 3, false), q := Node(Object(1, [8]), 0, false)], {p, q}, 2,
          [Session([], [], 2, 1), Session([Old(addr, Object(0, [7]), 2, p)], [], 2, 3)])
  }

  /** The same after the inner session has been squashed, with or without its backup. */
  function InnerSquashed(p: Handle, q: Handle, olds: seq<Old>): State {
    State(map[p := Node(Object(0, [9]), 3, false), q := Node(Object(1, [8]), 0, false)], {p, q}, 2, [Session(olds, [], 2, 1)])
  }

  /** The two objects in a session, once a modify of object 0 was refused in an inner one that is undone. */
  function Restored(p: Handle, q: Handle): State {
    State(map[p := Node(Object(0, [7]), 2, false), q := Node(Object(1, [8]), 0, false)], {p, q}, 2, [Session([], [], 2, 1)])
  }

  lemma InnerRefused(p: Handle, q: Handle)
    requires p != q
    ensures var st := StartedState(StartedState(TwoObjects(p, q), 1), 2);
      && st.main == {p, q} && p in st.nodes && st.nodes[p].item == Object(0, [7]) && st.sessions != [] && Reverts(st, p)
      && FailedState(st, 2, p).sessions == st.sessions
      && UndoTop(FailedState(st, 2, p)) == Restored(p, q)
  {
    var failed := FailedState(StartedState(StartedState(TwoObjects(p, q), 1), 2), 2, p);
    assert Top(failed) == Session([], [], 2, 2);
    assert Lower(failed) == [Session([], [], 2, 1)];
    assert Reach(failed) == {p, q};
    assert UndoTop(failed).nodes == Restored(p, q).nodes;
  }

  lemma InnerAccepted(p: Handle, q: Handle, addr: nat)
    requires p != q
    ensures var st := StartedState(Restored(p, q), 3);
      && st.main == {p, q} && p in st.nodes && st.nodes[p].item == Object(0, [7])
      && ModifiedState(st, 3, addr, p, Object(0, [9])) == Nested(p, q, addr)
  {
    var st := StartedState(Restored(p, q), 3);
    assert Lower(st) == [Session([], [], 2, 1)];
    assert [Old(addr, Object(0, [7]), 2, p)] + [] == [Old(addr, Object(0, [7]), 2, p)];
  }

  method InnerSessions() returns (c: UndoMultiIndex, p: Handle, q: Handle, refused: bool, accepted: bool)
    ensures fresh(c) && fresh(c.table) && c.Usable() && |c.table.indices| == 2 && p != q && refused && accepted
    ensures c.St() == Nested(p, q, c.NewestAddress()) && c.mono == 3
  {
    hide UndoMultiIndex.Valid, UndoMultiIndex.Usable, UndoMultiIndex.Tidy, UndoMultiIndex.CanTrust, Table, SnapshotsOf, Fits, UndoTop, FailedState, ModifiedState, TableOk;
    hide MultiIndex.Valid, HarmlessFailure, Reverts, StartedState, TwoObjects, Nested, Restored, Idle;
    c, p, q := TwoObjectsStarted();
    TwoFit();
    var _ := c.StartUndo();
    InnerRefused(p, q);
    var ok := c.Modify(p, [8]);
    refused := !ok;
    c.Undo();
    var _ := c.StartUndo();
    InnerAccepted(p, q, 0);
    accepted := c.Modify(p, [9]);
    InnerAccepted(p, q, c.NewestAddress());
  }

  lemma SquashedUsable(p: Handle, q: Handle, olds: seq<Old>)
    requires p != q && forall o :: o in olds ==> o.mtime == 2
    ensures var st := InnerSquashed(p, q, olds);
      && Undoable(2, st) && Stamped(3, st) && Reinsertable(2, st)
      && p in UndoTop(st).main && p in UndoTop(st).nodes && UndoTop(st).nodes[p].item == Object(0, [9])
  {
    var st := InnerSquashed(p, q, olds);
    OldestIs(olds, 1, p);
    hide Oldest;
    assert Reach(st) == {p, q};
    forall h, g, k | h in st.main && g in st.main && h != g && 0 <= k < 2
      ensures Key(k, st.nodes[h].item) != Key(k, st.nodes[g].item)
    {
      assert k == 0 || k == 1;
    }
  }

  lemma NestedSquashed(p: Handle, q: Handle, addr: nat)
    requires p != q
    ensures var st, o := Nested(p, q, addr), Old(addr, Object(0, [7]), 2, p);
      && |st.sessions| == 2 && |Last(st.sessions).olds| == 1 && Last(st.sessions).removed == []
      && MergedState(st) == InnerSquashed(p, q, [o])
      && CanCompress(InnerSquashed(p, q, [o]), 1, 0) && CompressedState(InnerSquashed(p, q, [o]), 1, 0) == InnerSquashed(p, q, [])
  {
    var st, o := Nested(p, q, addr), Old(addr, Object(0, [7]), 2, p);
    assert Last(st.sessions).olds + [] == [o];
    assert st.sessions[..0] == [];
    var q1 := InnerSquashed(p, q, [o]);
    assert Top(q1).olds[..1] == [o] && Top(q1).olds[1..] == [] && Top(q1).removed[..0] == [];
    assert KeptOlds(q1.nodes, [o], 1) == [] by { assert [o][..0] == []; }
    assert Oldest([o], 1, p) == None by { assert [o][..0] == []; }
    assert Lower(q1) == [];
    assert CompressedState(q1, 1, 0).nodes == q1.nodes;
  }

  /** A refused modify in an inner session that is undone, an accepted one in the next, which is then
      squashed: undoing the outer session leaves the new value where it found the old one.  With
      compression the backup is dropped, without it undo skips it. */
  method SquashLosesBackup(fast: bool) returns (c: UndoMultiIndex, refused: bool, accepted: bool)
    ensures fresh(c) && c.table.indices != [] && refused && accepted && c.sessions == []
    ensures 0 in c.Model().contents && c.Model().contents[0] == Object(0, [9]) != TWO[0]
  {
    hide UndoMultiIndex.Valid, UndoMultiIndex.Usable, UndoMultiIndex.Tidy, UndoMultiIndex.CanUndo, UndoMultiIndex.CanCompressSquash, Table, SnapshotsOf, UndoTop, TableOk, Undoable, Stamped, Reinsertable;
    hide MultiIndex.Valid, Nested, InnerSquashed, MergedState, CompressedState, Shadow, PartOf, CanCompress;
    var p, q;
    c, p, q, refused, accepted := InnerSessions();
    ghost var o := Old(c.NewestAddress(), Object(0, [7]), 2, p);
    NestedSquashed(p, q, c.NewestAddress());
    SquashedUsable(p, q, [o]);
    SquashedUsable(p, q, []);
    SquashedSessions(p, q, [o]);
    SquashedSessions(p, q, []);
    UsableCanSquash(c);
    if fast {
      c.SquashFast();
    } else {
      c.Squash();
    }
    TidyCanUndo(c);
    UndoneObject(2, c.St(), p);
    UndoLower(c.St());
    c.Undo();
  }

  lemma UsableCanSquash(c: UndoMultiIndex)
    requires c.Usable() && |c.sessions| >= 2 && Undoable(|c.table.indices|, MergedState(c.St()))
    ensures c.CanCompressSquash()
  {
    hide UndoMultiIndex.Usable, Undoable, MergedState;
  }

  lemma TidyCanUndo(c: UndoMultiIndex)
    requires c.Tidy() && Undoable(|c.table.indices|, c.St()) && Stamped(c.mono, c.St())
    requires c.sessions != [] && Reinsertable(|c.table.indices|, c.St())
    ensures c.CanUndo()
  {
    hide UndoMultiIndex.Tidy, Undoable, Stamped, Reinsertable;
  }

  lemma SquashedSessions(p: Handle, q: Handle, olds: seq<Old>)
    ensures |InnerSquashed(p, q, olds).sessions| == 1
  {
  }

  // ---------------------------------------------------------------------------------------------
  // Failed modifies and the journal

  lemma SmallRecordOk(id: nat, x: nat)
    requires id < 2 && x < 100
    ensures RecordOk(1, Insert([x])) && RecordOk(1, Record.Modify(id, [x]))
  {
    assert Pow256(8) == 256 * Pow256(7) && Pow256(7) == 256 * Pow256(6) && Pow256(4) == 256 * Pow256(3) && Pow256(3) == 256 * Pow256(2);
    var item := FieldsItem([x]);
    assert FieldItems([x]) == [Signed(8, x)];
    assert EncodeAll(FieldItems([x])) == Encode(Signed(8, x)) + EncodeAll([]);
    assert |Encode(item)| == 8;
    hide Encode, EncodeAll;
  }

  method NewJournaled() returns (j: Journaled)
    ensures fresh(j) && fresh(j.container) && fresh(j.container.table) && fresh(j.journal) && fresh(j.journal.file) && fresh(j.journal.output)
    ensures j.Valid() && j.Clean() && j.N() == 2 && j.journal.arity == 1 && j.container.mono == 0
    ensures j.container.St() == State(map[], {}, 0, []) && j.Model() == EMPTY && j.True(EMPTY) && j.journal.Contents() == NEW
  {
    hide UndoMultiIndex.Valid, UndoMultiIndex.Usable, UndoMultiIndex.Tidy, Table, SnapshotsOf, RecordOk, Journal.Valid, Frames, Faithful;
    FramesOfNothing();
    NothingReplays(2);
    var file := new File();
    var journal := new Journal(file, 1, 0, []);
    var container := new UndoMultiIndex(2);
    j := new Journaled(container, journal);
    assert j.journal.Contents() == Log([], false);
  }

  /** A journaled container with the two objects, and no session. */
  method TwoJournaled() returns (j: Journaled, p: Handle, q: Handle)
    ensures fresh(j) && fresh(j.container) && fresh(j.container.table) && fresh(j.journal) && fresh(j.journal.file) && fresh(j.journal.output)
    ensures j.Valid() && j.Clean() && j.N() == 2 && j.journal.arity == 1 && p != q && j.container.mono == 0
    ensures j.container.St() == TwoObjects(p, q) && j.Model() == View(TWO, 2, 0, [])
    ensures j.True(EMPTY)
  {
    hide UndoMultiIndex.Valid, UndoMultiIndex.Usable, UndoMultiIndex.Tidy, Table, SnapshotsOf, Fits, RecordOk, Appended, Journal.Valid, Faithful;
    TwoFit();
    SmallRecordOk(0, 7);
    SmallRecordOk(1, 8);
    j := NewJournaled();
    ghost var log := j.journal.Contents();
    var first := j.Emplace(0, [7]);
    StepIsFaithful(2, EMPTY, EMPTY, log, DoEmplace([7]));
    log := j.journal.Contents();
    ghost var v := View(map[0 := Object(0, [7])], 1, 0, []);
    assert j.Model() == v;
    var second := j.Emplace(1, [8]);
    StepIsFaithful(2, EMPTY, v, log, DoEmplace([8]));
    p, q := first.value, second.value;
    assert j.container.St() == TwoObjects(p, q);
  }

  lemma FramesOfNothing()
    ensures Frames(0, []) == []
  {
  }

  lemma NothingReplays(n: nat)
    ensures Faithful(n, EMPTY, EMPTY, Log([], false))
  {
  }

  /** With no session open object 0 is given the value of object 1.  The object is destroyed, nothing
      is logged, and the container the journal rebuilds still has it. */
  method DestroyedObjectComesBack() returns (j: Journaled, rebuilt: UndoMultiIndex, refused: bool)
    ensures fresh(j) && j.Valid() && fresh(rebuilt) && rebuilt.Valid() && refused
    ensures 0 !in j.Model().contents
    ensures 0 in rebuilt.Model().contents && rebuilt.Model().contents[0] == Object(0, [7])
  {
    hide UndoMultiIndex.Valid, UndoMultiIndex.Usable, UndoMultiIndex.Tidy, UndoMultiIndex.CanTrust, Table, SnapshotsOf, Fits, RecordOk, Appended, Journal.Valid, ReplayAll;
    hide FailedState, ModifiedState, Reverts;
    var p, q;
    j, p, q := TwoJournaled();
    TwoFit();
    SmallRecordOk(0, 8);
    ghost var v := j.Model();
    assert HarmlessFailure(j.container.St(), p);
    var ok := j.Modify(p, [8]);
    refused := !ok;
    rebuilt := Reread(j, v);
  }

  /** The same with a session open. */
  method TwoJournaledStarted() returns (j: Journaled, p: Handle, q: Handle)
    ensures fresh(j) && fresh(j.container) && fresh(j.container.table) && fresh(j.journal) && fresh(j.journal.file) && fresh(j.journal.output)
    ensures j.Valid() && j.Clean() && j.N() == 2 && j.journal.arity == 1 && p != q && j.container.mono == 1
    ensures j.container.St() == StartedState(TwoObjects(p, q), 1) && j.Model() == View(TWO, 2, 1, [Snapshot(TWO, 2)])
    ensures j.True(EMPTY)
  {
    hide UndoMultiIndex.Valid, UndoMultiIndex.Usable, UndoMultiIndex.Tidy, Table, SnapshotsOf, RecordOk, Appended, Journal.Valid, Faithful, TwoObjects, StartedState;
    j, p, q := TwoJournaled();
    ghost var log := j.journal.Contents();
    SmallRevisions(j.Model());
    var _ := j.StartUndo();
    StepIsFaithful(2, EMPTY, View(TWO, 2, 0, []), log, DoStartUndo);
  }

  /** In a session object 0 is given the value of object 1, which is refused, then a value of its own,
      which is logged. */
  method RefusedThenLogged() returns (j: Journaled, p: Handle, q: Handle, refused: bool, accepted: bool, ghost v: View, ghost log: Log)
    ensures fresh(j) && fresh(j.container) && fresh(j.container.table) && fresh(j.journal) && fresh(j.journal.file) && fresh(j.journal.output)
    ensures j.Usable() && j.N() == 2 && p != q && refused && accepted && j.container.mono == 1
    ensures v == View(TWO, 2, 1, [Snapshot(TWO, 2)]) && j.container.revision == 1 && Faithful(2, EMPTY, v, log)
    ensures j.journal.Contents() == Appended(log, Record.Modify(0, [9]))
    ensures p in FailedState(StartedState(TwoObjects(p, q), 1), 1, p).nodes
    ensures j.container.St() == ModifiedState(FailedState(StartedState(TwoObjects(p, q), 1), 1, p), 1, j.container.NewestAddress(), p, Object(0, [9]))
  {
    hide UndoMultiIndex.Valid, UndoMultiIndex.Usable, UndoMultiIndex.Tidy, UndoMultiIndex.CanTrust, Table, SnapshotsOf, Fits, RecordOk, Appended, Journal.Valid, Faithful;
    hide FailedState, ModifiedState, Reverts, HarmlessFailure, UndoTop, TableOk, MultiIndex.Valid, StartedState, TwoObjects;
    j, p, q := TwoJournaledStarted();
    TwoFit();
    TwoNodes(p, q);
    SmallRecordOk(0, 8);
    SmallRecordOk(0, 9);
    v, log := j.Model(), j.journal.Contents();
    RevertedUndone(2, p, q, 0);
    RevertedObject(p, q, 0);
    var ok := j.Modify(p, [8]);
    refused := !ok;
    accepted := j.Modify(p, [9]);
  }

  /** When the session is undone, which is logged too, the container keeps the new value, and the one
      rebuilt from the journal has the old one. */
  method UndoneModifyIsKept() returns (j: Journaled, rebuilt: UndoMultiIndex, refused: bool, accepted: bool)
    ensures fresh(j) && j.container.table.indices != [] && fresh(rebuilt) && rebuilt.Valid() && refused && accepted
    ensures 0 in j.Model().contents && j.Model().contents[0] == Object(0, [9])
    ensures 0 in rebuilt.Model().contents && rebuilt.Model().contents[0] == Object(0, [7])
  {
    hide UndoMultiIndex.Valid, UndoMultiIndex.Usable, UndoMultiIndex.Tidy, UndoMultiIndex.CanUndo, Table, SnapshotsOf, Fits, Appended, Journal.Valid, ReplayAll, Faithful;
    hide FailedState, ModifiedState, UndoTop, Undoable, TableOk, MultiIndex.Valid, Reinsertable, StartedState, TwoObjects;
    var p, q;
    ghost var v, log;
    j, p, q, refused, accepted, v, log := RefusedThenLogged();
    TwoFit();
    SmallRevisions(EMPTY);
    RevertedUndone(2, p, q, j.container.NewestAddress());
    UsableCanUndo(j.container);
    UsableUndoable(j.container);
    UndoneObject(2, j.container.St(), p);
    ViewUndone(j.container.St(), j.container.revision);
    j.Undo();
    LaterLog(2, EMPTY, v, log, 0, [9]);
    FaithfulReplays(2, Undone(v), j.journal.Contents());
    rebuilt := Reread(j, Undone(v));
  }

  lemma SmallRevisions(v: View)
    requires v.revision == 0
    ensures InSigned(8, v.revision + 1) && InSigned(8, 0)
  {
    assert Pow256(8) == 256 * Pow256(7);
  }

  lemma FaithfulReplays(n: nat, v: View, log: Log)
    requires Faithful(n, EMPTY, v, log)
    ensures ReplayAll(n, EMPTY, log.records) == Some(v)
  {
  }

  lemma ViewUndone(st: State, revision: int)
    requires st.sessions != []
    ensures Undone(ViewOf(st, revision)).revision == revision - 1
  {
  }

  // ---------------------------------------------------------------------------------------------
  // Commits

  lemma {:induction false} RanMore(n: nat, v: View, log: Log, calls: seq<Call>, c: Call)
    ensures Ran(n, v, calls + [c]) == Called(n, Ran(n, v, calls), c)
    ensures RanLog(n, v, log, calls + [c]) == Logged(n, Ran(n, v, calls), RanLog(n, v, log, calls), c)
  {
  }

  const NEW: Log := Log([], false)

  /** Two sessions, one inside the other. */
  lemma {:induction false} TwoSessions()
    ensures var calls := [DoStartUndo, DoStartUndo];
      && Ran(1, EMPTY, calls) == View(map[], 0, 2, [Snapshot(map[], 0), Snapshot(map[], 0)])
      && RanLog(1, EMPTY, NEW, calls) == Log([Record.StartUndo(1), Record.StartUndo(2)], true)
      && ReplayAll(1, EMPTY, [Record.StartUndo(1)]) == Some(Started(EMPTY))
      && ReplayAll(1, EMPTY, [Record.StartUndo(1), Record.StartUndo(2)]) == Some(Ran(1, EMPTY, calls))
  {
  }

  /** A commit of the older of two sessions is logged as one of both: the run keeps a session that
      the replay of its journal does not. */
  lemma {:induction false} PartialCommitReplaysAsFull()
    ensures var calls := [DoStartUndo, DoStartUndo, DoEmplace([]), DoCommit(1)];
      var w, log := Ran(1, EMPTY, calls), RanLog(1, EMPTY, NEW, calls);
      && log.records == [Record.StartUndo(1), Record.StartUndo(2), Insert([]), Record.Commit(2)]
      && |w.snapshots| == 1
      && ReplayAll(1, EMPTY, log.records) == Some(w.(snapshots := []))
  {
    var calls, records := [DoStartUndo, DoStartUndo], [Record.StartUndo(1), Record.StartUndo(2)];
    TwoSessions();
    hide Ran, RanLog, ReplayAll;
    RanMore(1, EMPTY, NEW, calls, DoEmplace([]));
    RanMore(1, EMPTY, NEW, calls + [DoEmplace([])], DoCommit(1));
    assert calls + [DoEmplace([])] + [DoCommit(1)] == [DoStartUndo, DoStartUndo, DoEmplace([]), DoCommit(1)];
    ReplayLast(1, EMPTY, records, Insert([]));
    ReplayLast(1, EMPTY, records + [Insert([])], Record.Commit(2));
    assert records + [Insert([])] + [Record.Commit(2)] == [Record.StartUndo(1), Record.StartUndo(2), Insert([]), Record.Commit(2)];
  }

  /** A session opened inside another and committed at once is logged as a change of revision, which
      replay refuses while the outer session is open. */
  lemma {:induction false} NestedCommitIsNotReplayed()
    ensures var log := RanLog(1, EMPTY, NEW, [DoStartUndo, DoStartUndo, DoCommit(2)]);
      && log.records == [Record.StartUndo(1), Revision(2)]
      && ReplayAll(1, EMPTY, log.records) == None
  {
    var calls := [DoStartUndo, DoStartUndo];
    TwoSessions();
    hide Ran, RanLog, ReplayAll;
    RanMore(1, EMPTY, NEW, calls, DoCommit(2));
    assert calls + [DoCommit(2)] == [DoStartUndo, DoStartUndo, DoCommit(2)];
    assert [Record.StartUndo(1), Record.StartUndo(2)][..1] == [Record.StartUndo(1)];
    ReplayLast(1, EMPTY, [Record.StartUndo(1)], Revision(2));
    assert [Record.StartUndo(1)] + [Revision(2)] == [Record.StartUndo(1), Revision(2)];
  }

  // ---------------------------------------------------------------------------------------------
  // A session object

  lemma {:induction false} ReplayNested(n: nat)
    ensures ReplayAll(n, EMPTY, [Record.StartUndo(1), Record.StartUndo(2)]) == Some(Started(Started(EMPTY)))
  {
    hide ReplayAll;
    NothingReplays(n);
    ReplayLast(n, EMPTY, [], Record.StartUndo(1));
    ReplayLast(n, EMPTY, [Record.StartUndo(1)], Record.StartUndo(2));
    assert [] + [Record.StartUndo(1)] == [Record.StartUndo(1)];
    assert [Record.StartUndo(1)] + [Record.StartUndo(2)] == [Record.StartUndo(1), Record.StartUndo(2)];
  }

  /** Replay undoes one session and is then one above the revision in the last entry. */
  lemma {:induction false} UnloggedRefused(n: nat)
    ensures ReplayAll(n, EMPTY, [Record.StartUndo(1), Record.StartUndo(2), Record.Undo(0)]) == None
  {
    hide ReplayAll, Replay;
    var two := [Record.StartUndo(1), Record.StartUndo(2)];
    ReplayNested(n);
    ReplayLast(n, EMPTY, two, Record.Undo(0));
    RevisionChecked(n, Started(Started(EMPTY)), Record.Undo(0));
    assert two + [Record.Undo(0)] == [Record.StartUndo(1), Record.StartUndo(2), Record.Undo(0)];
  }

  lemma UndoLog()
    ensures Appended(Appended(Appended(NEW, Record.StartUndo(1)), Record.StartUndo(2)), Record.Undo(0)) ==
      Log([Record.StartUndo(1), Record.StartUndo(2), Record.Undo(0)], true)
  {
  }

  /** A journaled container with two sessions, one inside the other. */
  method NestedJournaled() returns (j: Journaled)
    ensures fresh(j) && fresh(j.container) && fresh(j.container.table) && fresh(j.journal) && fresh(j.journal.file) && fresh(j.journal.output)
    ensures j.Valid() && j.N() == 2 && j.Model() == Started(Started(EMPTY))
    ensures j.journal.Contents() == Appended(Appended(NEW, Record.StartUndo(1)), Record.StartUndo(2))
  {
    hide UndoMultiIndex.Valid, UndoMultiIndex.Usable, UndoMultiIndex.Tidy, Table, SnapshotsOf, RecordOk, Appended, Journal.Valid, Faithful, StartedState;
    j := NewJournaled();
    TwoRevisions();
    assert j.journal.Contents() == NEW;
    var _ := j.StartUndo();
    var _ := j.StartUndo();
  }

  /** The inner one is undone on the container alone. */
  method UnloggedUndo() returns (j: Journaled)
    ensures fresh(j) && fresh(j.container) && fresh(j.container.table) && fresh(j.journal) && fresh(j.journal.file) && fresh(j.journal.output)
    ensures j.Valid() && j.N() == 2 && j.Model() == Started(EMPTY)
    ensures j.journal.Contents() == Appended(Appended(NEW, Record.StartUndo(1)), Record.StartUndo(2))
  {
    hide UndoMultiIndex.Valid, UndoMultiIndex.Usable, UndoMultiIndex.Tidy, UndoMultiIndex.CanUndo, UndoMultiIndex.Clean, Appended, Journal.Valid, UndoTop, TableOk, MultiIndex.Valid;
    j := NestedJournaled();
    j.container.Undo();
  }

  /** A session object undoes the inner of two sessions when it goes out of scope, which it does on the
      container and without an entry; undo is then called for the outer one.  The file cannot be opened
      again. */
  method UnloggedUndoIsRefused() returns (j: Journaled, reopened: Option<Journaled>)
    ensures fresh(j) && j.Valid() && j.N() == 2 && j.Model() == EMPTY
    ensures j.journal.records == [Record.StartUndo(1), Record.StartUndo(2), Record.Undo(0)]
    ensures reopened.None?
  {
    hide UndoMultiIndex.Valid, UndoMultiIndex.Usable, UndoMultiIndex.Tidy, UndoMultiIndex.CanUndo, Table, SnapshotsOf, RecordOk, Appended, Journal.Valid, ReplayAll, StartedState, UndoTop, TableOk;
    UndoLog();
    UnloggedRefused(2);
    j := UnloggedUndo();
    TwoRevisions();
    j.Undo();
    reopened := OpenCopy(j);
  }

  lemma TwoRevisions()
    ensures InSigned(8, 0) && InSigned(8, 1) && InSigned(8, 2)
  {
    assert Pow256(8) == 256 * Pow256(7);
  }

  /** A copy of the file of a journal, opened. */
  method OpenCopy(j: Journaled) returns (reopened: Option<Journaled>)
    requires j.journal.Valid() && j.container.table.indices != []
    ensures reopened.Some? <==> ReplayAll(j.N(), EMPTY, j.journal.records).Some?
  {
    hide RecordOk, Frames, ReplayAll, TightSince;
    var file := new File();
    file.Write(j.journal.file.data);
    reopened := Open(|j.container.table.indices|, file, j.journal.arity, j.journal.version, j.journal.records);
  }
}
