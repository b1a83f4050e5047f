/** What a failed modify, which is not logged, does to the truth of the journal. */
module JournalFailure {
  import opened Objects
  import opened Snapshots
  import opened UndoSessions
  import opened UndoStamps
  import opened UndoFailure
  import opened UndoReplay
  import opened JournalLog

  /** The journal stays true through a failed modify exactly when the value was put back. */
  lemma {:induction false} FailureFaith(n: nat, mono: nat, v0: View, st0: State, st: State, h: Handle, revision: int, log: Log)
    requires Shadow(n, mono, st0, st) && h in st.main && h in st.nodes
    requires Faithful(n, v0, ViewOf(st, revision), log)
    ensures Faithful(n, v0, ViewOf(FailedState(st, mono, h), revision), log) <==> Reverts(st, h)
  {
    hide Shadow, Undoable, TableOk, Stamped, Table, SnapshotsOf, FailedState, Reverts, HarmlessFailure, RemovedState;
    ShadowView(n, mono, st0, st);
    FailOutcome(n, mono, st0, st, h, revision);
    ListsObject(n, st, h);
  }

  lemma {:induction false} ListsObject(n: nat, st: State, h: Handle)
    requires Undoable(n, st) && h in st.main && h in st.nodes
    ensures st.nodes[h].item.id in Table(st) && Table(st)[st.nodes[h].item.id] == st.nodes[h].item
  {
    ContentsAt(st.nodes, st.main);
    hide ContentsOf;
  }

  /** Whatever undo gives back, it gives back under different keys. */
  lemma {:induction false} UndoneObject(n: nat, st: State, h: Handle)
    requires Undoable(n, st) && st.sessions != [] && h in UndoTop(st).main && h in UndoTop(st).nodes
    ensures var u := UndoTop(st); u.nodes[h].item.id in Table(u) && Table(u)[u.nodes[h].item.id] == u.nodes[h].item
  {
    assert TableOk(n, st) && OldsOk(st) && RemovedOk(st);
    UndoneIds(n, st);
    ContentsAt(UndoTop(st).nodes, UndoTop(st).main);
    hide ContentsOf, UndoTop, Undoable;
  }

  /** After a reverted modify an accepted modify of the same object and an undo are logged as what they
      should do.  The container does it if and only if the modify wrote back the value it found. */
  lemma {:induction false} LaterDivergence(n: nat, mono: nat, v0: View, st: State, revision: int, log: Log, addr: nat, h: Handle, item: Object)
    requires Shadow(n, mono, st, st) && h in st.main && h in st.nodes && Reverts(st, h) && st.nodes[h].item.id < Top(st).nextId
    requires item.id == st.nodes[h].item.id && Fits(n, Table(st), item)
    requires Faithful(n, v0, ViewOf(st, revision), log)
    ensures var st' := ModifiedState(FailedState(st, mono, h), mono, addr, h, item);
      var log' := Appended(Appended(log, Record.Modify(item.id, item.fields)), Record.Undo(revision - 1));
      && st'.sessions != []
      && Faithful(n, v0, Undone(ViewOf(st, revision)), log')
      && (Faithful(n, v0, ViewOf(UndoTop(st'), revision - 1), log') <==> item == st.nodes[h].item)
  {
    hide Shadow, Undoable, Table, SnapshotsOf, UndoTop, Fits, Appended, Undone, Stamped, TableOk;
    var st' := ModifiedState(FailedState(st, mono, h), mono, addr, h, item);
    ShadowView(n, mono, st, st);
    ListsObject(n, st, h);
    LaterLog(n, v0, ViewOf(st, revision), log, item.id, item.fields);
    LaterStates(n, mono, st, addr, h, item);
    UndoneViews(n, mono, st, revision);
    hide FailedState, ModifiedState, Reverts;
  }

  lemma {:induction false} UndoneViews(n: nat, mono: nat, st: State, revision: int)
    requires Shadow(n, mono, st, st) && st.sessions != []
    ensures ViewOf(UndoTop(st), revision - 1) == Undone(ViewOf(st, revision))
  {
    hide Shadow, Table, SnapshotsOf, UndoTop;
    ShadowUndo(n, mono, st, st, revision);
  }

  lemma {:induction false} LaterLog(n: nat, v0: View, v: View, log: Log, id: nat, fields: seq<int>)
    requires Faithful(n, v0, v, log) && id in v.contents && Fits(n, v.contents, Object(id, fields)) && v.snapshots != []
    ensures var log' := Appended(Appended(log, Record.Modify(id, fields)), Record.Undo(v.revision - 1));
      Faithful(n, v0, Undone(v), log')
  {
    hide Fits;
    ReplayLast(n, v0, log.records, Record.Modify(id, fields));
    ReplayLast(n, v0, log.records + [Record.Modify(id, fields)], Record.Undo(v.revision - 1));
  }

  /** What undo gives back of the object, and that this is all that can be wrong. */
  lemma {:induction false} LaterStates(n: nat, mono: nat, st: State, addr: nat, h: Handle, item: Object)
    requires Shadow(n, mono, st, st) && h in st.main && h in st.nodes && Reverts(st, h) && st.nodes[h].item.id < Top(st).nextId
    requires item.id == st.nodes[h].item.id && Fits(n, Table(st), item)
    ensures var st' := ModifiedState(FailedState(st, mono, h), mono, addr, h, item);
      && st'.sessions != []
      && (item == st.nodes[h].item ==>
            Table(UndoTop(st')) == Table(UndoTop(st)) && SnapshotsOf(UndoTop(st')) == SnapshotsOf(UndoTop(st)) && UndoTop(st').nextId == UndoTop(st).nextId)
      && item.id in Table(UndoTop(st')) && Table(UndoTop(st'))[item.id] == item
      && item.id in Table(UndoTop(st)) && Table(UndoTop(st))[item.id] == st.nodes[h].item
  {
    hide Inv, Aged, Stamped, Table, SnapshotsOf, Fits, Undoable, UndoTop, TableOk, ModifiedState;
    var failed := FailedState(st, mono, h);
    ShadowView(n, mono, st, st);
    ShadowRevert(n, mono, st, st, h);
    FailedUsable(n, mono, st, h);
    ModifyFits(n, mono, failed, addr, h, item);
    RevertedThenModified(n, mono, st, addr, h, item);
    FailedStamp(mono, st, h);
    ModifyAgain(failed, mono, addr, h, item);
    var st' := ModifiedState(failed, mono, addr, h, item);
    hide FailedState, Shadow;
    UndoneKeys(n, st, h);
    UndoneKeys(n, st', h);
    UndoneObject(n, st, h);
    UndoneObject(n, st', h);
    if item == st.nodes[h].item {
      ShadowUndo(n, mono, st, failed, 0);
      ShadowUndo(n, mono, st, st, 0);
      ShadowView(n, mono, UndoTop(st), UndoTop(failed));
    }
  }

  lemma {:induction false} FailedStamp(mono: nat, st: State, h: Handle)
    requires Stamped(mono, st) && h in st.nodes && Reverts(st, h)
    ensures var failed := FailedState(st, mono, h);
      h in failed.nodes && failed.sessions == st.sessions && failed.nodes[h].mtime >= Top(st).ctime && failed.nodes[h].item == st.nodes[h].item
  {
  }

  lemma {:induction false} ModifyAgain(st: State, mono: nat, addr: nat, h: Handle, item: Object)
    requires h in st.nodes && st.sessions != [] && st.nodes[h].mtime >= Top(st).ctime
    ensures ModifiedState(st, mono, addr, h, item).sessions != []
    ensures item == st.nodes[h].item ==> ModifiedState(st, mono, addr, h, item) == st
  {
  }

  lemma {:induction false} UndoneKeys(n: nat, st: State, h: Handle)
    requires Undoable(n, st) && st.sessions != [] && h in UndoTop(st).main
    ensures h in UndoTop(st).nodes && h in st.nodes && UndoTop(st).nodes[h].item.id == st.nodes[h].item.id
  {
    UndoTopNode(n, st, h);
  }

  // ---------------------------------------------------------------------------------------------
  // An undo without an entry

  /** What the next entry does when the session that was undone is still open in the replay. */
  lemma {:induction false} UnloggedRecord(n: nat, v: View, c: Call)
    requires v.snapshots != [] && Written(n, Undone(v), c).Some? && IsUndoEntry(Written(n, Undone(v), c).value)
    ensures Replay(n, v, Written(n, Undone(v), c).value) ==
      if c.DoUndoAll? || (c.DoUndo? && |v.snapshots| == 1) then Some(Called(n, Undone(v), c)) else None
  {
    RevisionChecked(n, v, Written(n, Undone(v), c).value);
    UndoneAllLowers(v);
    UndoneAllLowers(Undone(v));
  }

  /** The start of a session from `b` that is committed after it has been undone. */
  lemma {:induction false} UnloggedCommit(n: nat, b: View, v: View, started: int, revision: int)
    requires Replay(n, b, Record.StartUndo(started)) == Some(v) && InRange(Undone(v))
    ensures v.snapshots != [] && started == v.revision
    ensures Replay(n, b, Revision(v.revision - 1)) == if |v.snapshots| == 1 then Some(Undone(v)) else None
    ensures |v.snapshots| == 1 ==> Called(n, Undone(v), DoCommit(revision)) == Undone(v)
  {
  }

  /** Only a commit can take the place of the last entry, which then is the start of the session. */
  lemma {:induction false} UnloggedMerged(n: nat, v0: View, v: View, log: Log, c: Call)
    requires Faithful(n, v0, v, log) && v.snapshots != [] && InRange(Undone(v))
    requires Written(n, Undone(v), c).Some? && Merges(log, Written(n, Undone(v), c).value)
    ensures c.DoCommit?
    ensures var u, log' := Called(n, Undone(v), c), Logged(n, Undone(v), log, c);
      if |v.snapshots| == 1 then Faithful(n, v0, u, log') else ReplayAll(n, v0, log'.records) == None
  {
    var r := Written(n, Undone(v), c).value;
    var rest, last := log.records[..|log.records| - 1], log.records[|log.records| - 1];
    MergedLast(n, v0, v, log, c);
    hide ReplayAll, Replay, Called, InRange;
    ReplayLast(n, v0, rest, Merge(r));
    UnloggedCommit(n, ReplayAll(n, v0, rest).value, v, last.revision, c.revision);
  }

  lemma {:induction false} MergedLast(n: nat, v0: View, v: View, log: Log, c: Call)
    requires Faithful(n, v0, v, log) && v.snapshots != []
    requires Written(n, Undone(v), c).Some? && Merges(log, Written(n, Undone(v), c).value)
    ensures c.DoCommit? && Written(n, Undone(v), c).value == Record.Commit(v.revision - 1)
    ensures var rest, last := log.records[..|log.records| - 1], log.records[|log.records| - 1];
      && last.StartUndo? && ReplayAll(n, v0, rest).Some? && Replay(n, ReplayAll(n, v0, rest).value, last) == Some(v)
  {
    hide UndoneAll, Committed, Fits;
  }

  /** A session object undoes on the container alone.  The next entry of the undo protocol makes the
      journal true again if all sessions are undone, or if none was left and undo is called once more, or
      a commit that takes the place of the start of the session; otherwise it is refused, and the journal
      cannot be read any further. */
  lemma {:induction false} UnloggedUndo(n: nat, v0: View, v: View, log: Log, c: Call)
    requires Faithful(n, v0, v, log) && v.snapshots != [] && InRange(Undone(v))
    requires Written(n, Undone(v), c).Some? && IsUndoEntry(Written(n, Undone(v), c).value)
    ensures !Faithful(n, v0, Undone(v), log)
    ensures var u, log', merges := Called(n, Undone(v), c), Logged(n, Undone(v), log, c), Merges(log, Written(n, Undone(v), c).value);
      if c.DoUndoAll? || (|v.snapshots| == 1 && (c.DoUndo? || (c.DoCommit? && merges))) then Faithful(n, v0, u, log')
      else ReplayAll(n, v0, log'.records) == None
  {
    hide ReplayAll, Replay, Called, Written, Merges, InRange, IsUndoEntry;
    var r := Written(n, Undone(v), c).value;
    if Merges(log, r) {
      UnloggedMerged(n, v0, v, log, c);
    } else {
      ReplayLast(n, v0, log.records, r);
      UnloggedRecord(n, v, c);
    }
  }
}
