/** Whole runs on the container and its journal, and what the journal's file then rebuilds. */
module JournaledRuns {
  import opened Snapshots
  import opened Archive
  import opened JournalLog
  import opened JournalFrames
  import opened JournalFile
  import opened JournaledContainer
  import opened UndoContainer
  import opened UndoSessions
  import opened UndoFailure

  /** The numbers the call would log are numbers of the program's types. */
  predicate Writable(arity: nat, v: View, c: Call) {
    match c
    case DoEmplace(fields) => RecordOk(arity, Record.Insert(fields))
    case DoModify(id, fields) => RecordOk(arity, Record.Modify(id, fields))
    case DoRemove(id) => RecordOk(arity, Record.Remove(id))
    case DoStartUndo => InSigned(8, v.revision + 1)
    case DoSetRevision(revision) => InSigned(8, revision)
    case DoCommit(_) => InSigned(8, v.revision)
    case DoUndo => InSigned(8, Undone(v).revision)
    case DoUndoAll => InSigned(8, UndoneAll(v).revision)
  }

  ghost predicate WritableRun(n: nat, arity: nat, v: View, calls: seq<Call>) {
    forall k :: 0 <= k < |calls| ==> Writable(arity, Ran(n, v, calls[..k]), calls[k])
  }

  method Make(j: Journaled, c: Call)
    requires j.Valid() && j.Clean() && Allowed(j.N(), j.Model(), c) && Writable(j.journal.arity, j.Model(), c)
    modifies j.container, j.container.table, j.journal, j.journal.file, j.journal.output
    ensures j.Valid() && j.Clean() && j.Did(c)
  {
    hide UndoMultiIndex.Valid, UndoMultiIndex.Usable, UndoMultiIndex.Tidy, UndoMultiIndex.CanTrust, UndoMultiIndex.Clean, Journal.Valid, Table, SnapshotsOf, RecordOk, Fits, UndoneAll, Called, Logged, ModifiedState, FailedState, Reverts, HarmlessFailure;
    match c {
      case DoEmplace(fields) =>
        var _ := j.Emplace(j.container.table.nextId, fields);
      case DoModify(id, fields) =>
        var h := j.container.Find(id);
        j.container.CleanTrusts(h.value);
        var ok := j.Modify(h.value, fields);
        assert ok;
      case DoRemove(id) =>
        var h := j.container.Find(id);
        j.Remove(h.value);
      case DoStartUndo =>
        var _ := j.StartUndo();
      case DoSetRevision(revision) =>
        var _ := j.SetRevision(revision);
      case DoCommit(revision) =>
        var _ := j.Commit(revision);
      case DoUndo =>
        j.Undo();
      case DoUndoAll =>
        j.UndoAll();
    }
  }

  lemma {:induction false} OneMore(n: nat, v: View, log: Log, calls: seq<Call>, k: nat)
    requires k < |calls|
    ensures Ran(n, v, calls[..k + 1]) == Called(n, Ran(n, v, calls[..k]), calls[k])
    ensures RanLog(n, v, log, calls[..k + 1]) == Logged(n, Ran(n, v, calls[..k]), RanLog(n, v, log, calls[..k]), calls[k])
  {
    assert calls[..k + 1][..k] == calls[..k];
  }

  lemma {:induction false} GoodCall(n: nat, v: View, log: Log, calls: seq<Call>, k: nat)
    requires GoodRun(n, v, log, calls) && k < |calls|
    ensures Allowed(n, Ran(n, v, calls[..k]), calls[k])
  {
    var before := calls[..|calls| - 1];
    if k == |calls| - 1 {
      assert calls[..k] == before;
    } else {
      GoodCall(n, v, log, before, k);
      assert before[..k] == calls[..k];
    }
  }

  /** Any run that keeps faith, and then recovery into a new container: it has the objects, the next
      key, the revision and all the snapshots of the one that made the run. */
  method RunAndRebuild(j: Journaled, calls: seq<Call>) returns (c: UndoMultiIndex)
    requires j.Valid() && j.Clean() && j.True(EMPTY)
    requires GoodRun(j.N(), j.Model(), j.journal.Contents(), calls) && WritableRun(j.N(), j.journal.arity, j.Model(), calls)
    modifies j.container, j.container.table, j.journal, j.journal.file, j.journal.output
    ensures j.Valid() && j.Clean() && j.N() == old(j.N())
    ensures j.Model() == Ran(j.N(), old(j.Model()), calls) && j.journal.Contents() == RanLog(j.N(), old(j.Model()), old(j.journal.Contents()), calls)
    ensures c.Valid() && fresh(c) && c.Model() == j.Model()
  {
    hide UndoMultiIndex.Valid, UndoMultiIndex.Usable, UndoMultiIndex.Tidy, UndoMultiIndex.Clean, Journal.Valid, Table, SnapshotsOf, GoodRun, Allowed, Writable, Called, Logged, Faithful, ReplayAll;
    ghost var n, v, log := j.N(), j.Model(), j.journal.Contents();
    for k := 0 to |calls|
      invariant j.Valid() && j.Clean() && j.N() == n
      invariant j.Model() == Ran(n, v, calls[..k]) && j.journal.Contents() == RanLog(n, v, log, calls[..k])
    {
      GoodCall(n, v, log, calls, k);
      OneMore(n, v, log, calls, k);
      Make(j, calls[k]);
    }
    assert calls[..|calls|] == calls;
    ReplayEqualsRun(n, EMPTY, v, log, calls);
    c := Rebuild(j);
  }
}
