/** The container paired with its journal: every call changes the one and writes to the other. */
module JournaledContainer {
  import opened Objects
  import opened Snapshots
  import opened Archive
  import opened ArchiveFiles
  import opened JournalLog
  import opened JournalFrames
  import opened JournalFile
  import opened JournalRecovery
  import opened JournalFailure
  import opened Container
  import opened UndoContainer
  import opened UndoSessions
  import opened UndoCommit
  import opened UndoStamps
  import opened UndoFailure

  class Journaled {
    const container: UndoMultiIndex
    const journal: Journal

    ghost predicate Valid()
      reads this, container, container.table, journal, journal.file, journal.output
      ensures Valid() ==> Usable()
    {
      container.Valid() && journal.Valid()
    }

    /** Stamps may be too high. */
    ghost predicate Usable()
      reads this, container, container.table, journal, journal.file, journal.output
      ensures Usable() ==> container.table.indices != []
    {
      container.Usable() && journal.Valid()
    }

    ghost predicate Clean()
      requires container.table.indices != []
      reads this, container, container.table
    {
      container.Clean()
    }

    ghost function Model(): View
      requires container.table.indices != []
      reads this, container, container.table
    {
      container.Model()
    }

    ghost function N(): nat
      reads this, container, container.table
    {
      |container.table.indices|
    }

    /** The journal replays to what the container shows. */
    ghost predicate True(v0: View)
      requires container.table.indices != []
      reads this, container, container.table, journal
    {
      Faithful(N(), v0, Model(), journal.Contents())
    }

    /** The call has had its effect on the container and left its record, if any, in the journal. */
    twostate predicate Did(c: Call)
      requires old(container.table.indices) != [] && container.table.indices != []
      reads this, container, container.table, journal
    {
      && N() == old(N())
      && Model() == Called(N(), old(Model()), c)
      && journal.Contents() == Logged(N(), old(Model()), old(journal.Contents()), c)
    }

    constructor (container: UndoMultiIndex, journal: Journal)
      requires container.Valid() && journal.Valid()
      ensures Valid() && this.container == container && this.journal == journal
    {
      this.container, this.journal := container, journal;
    }

    /** The constructor may raise the key, which the logged members do not hold: the journal is still
        true exactly if it does not. */
    method Emplace(id: nat, fields: seq<int>) returns (h: Option<Handle>)
      requires Valid() && id >= container.table.nextId && RecordOk(journal.arity, Record.Insert(fields))
      modifies container`shadow, container.table, journal, journal.file, journal.output
      ensures Valid() && N() == old(N()) && (old(Clean()) ==> Clean())
      ensures h.Some? <==> Fits(N(), old(Model()).contents, Object(id, fields))
      ensures h.Some? ==>
                && h.value !in old(container.table.nodes) && h.value in container.table.Main() && h.value in container.table.nodes
                && container.table.nodes[h.value] == Node(Object(id, fields), if container.sessions == [] then 0 else container.mono, false)
                && container.St() == EmplacedState(old(container.St()), h.value, container.table.nodes[h.value])
                && Model() == Emplaced(old(Model()), id, fields)
                && journal.Contents() == Appended(old(journal.Contents()), Record.Insert(fields))
      ensures h.None? ==> Model() == old(Model()) && journal.Contents() == old(journal.Contents())
      ensures id == old(Model()).nextId ==> Did(DoEmplace(fields))
      ensures h.Some? ==> forall v0 :: old(True(v0)) ==> (True(v0) <==> id == old(Model()).nextId)
    {
      hide UndoMultiIndex.Valid, UndoMultiIndex.Usable, UndoMultiIndex.Tidy, Journal.Valid, Table, SnapshotsOf, Fits, Appended, RecordOk, EmplacedState, Faithful;
      ghost var n, v, log := N(), Model(), journal.Contents();
      h := container.Emplace(id, fields);
      if h.Some? {
        journal.Insert(fields);
        forall v0 | Faithful(n, v0, v, log)
          ensures Faithful(n, v0, Emplaced(v, id, fields), Appended(log, Record.Insert(fields))) <==> id == v.nextId
        {
          RaisedKeyFaith(n, v0, v, log, id, fields);
        }
      }
    }

    /** A modify that collides throws past the journal: nothing is written.  The journal is still true
        exactly if the value was put back. */
    method Modify(h: Handle, fields: seq<int>) returns (ok: bool)
      requires Usable() && h in container.table.Main() && h in container.table.nodes
      requires RecordOk(journal.arity, Record.Modify(container.table.nodes[h].item.id, fields))
      modifies container`oldValues, container`sessions, container`shadow, container.table`nodes, container.table`indices, journal, journal.file, journal.output
      ensures N() == old(N()) && journal.Valid()
      ensures ok <==> Fits(N(), old(Model()).contents, Object(old(container.table.nodes)[h].item.id, fields))
      ensures ok ==>
                && Usable() && h in container.table.Main() && h in container.table.nodes
                && container.table.nodes[h].item == Object(old(container.table.nodes)[h].item.id, fields)
                && container.St() == ModifiedState(old(container.St()), container.mono, container.NewestAddress(), h, container.table.nodes[h].item)
                && journal.Contents() == Appended(old(journal.Contents()), Record.Modify(old(container.table.nodes)[h].item.id, fields))
      ensures ok && old(Valid()) && old(container.CanTrust(h)) ==>
                Valid() && Did(DoModify(old(container.table.nodes)[h].item.id, fields)) && (old(Clean()) ==> Clean())
      ensures !ok ==>
                && journal.Contents() == old(journal.Contents())
                && container.St() == FailedState(old(container.St()), container.mono, h)
      ensures !ok && old(Valid()) ==>
                forall v0 :: old(True(v0)) ==> (True(v0) <==> old(Reverts(container.St(), h)))
      ensures !ok && old(Valid()) && old(Reverts(container.St(), h)) ==> Valid() && Model() == old(Model())
      ensures !ok && old(Valid()) && old(HarmlessFailure(container.St(), h)) ==>
                Valid() && Model() == Removed(old(Model()), old(container.table.nodes)[h].item.id)
    {
      hide UndoMultiIndex.Valid, UndoMultiIndex.Usable, UndoMultiIndex.Tidy, UndoMultiIndex.CanTrust, Journal.Valid, Table, SnapshotsOf, Fits, Appended, RecordOk;
      hide ModifiedState, FailedState, HarmlessFailure, Reverts, Shadow, Faithful;
      ghost var n, mono, st, revision, log := N(), container.mono, container.St(), container.revision, journal.Contents();
      ghost var st0, valid := container.shadow, Valid();
      if valid {
        container.ShadowIs();
      }
      ok := container.Modify(h, fields);
      if ok {
        journal.Modify(container.table.nodes[h].item.id, fields);
      } else if valid {
        forall v0 | Faithful(n, v0, ViewOf(st, revision), log)
          ensures Faithful(n, v0, ViewOf(FailedState(st, mono, h), revision), log) <==> Reverts(st, h)
        {
          FailureFaith(n, mono, v0, st0, st, h, revision, log);
        }
      }
    }

    method Remove(h: Handle)
      requires Valid() && h in container.table.Main() && h in container.table.nodes
      requires RecordOk(journal.arity, Record.Remove(container.table.nodes[h].item.id))
      modifies container, container.table, journal, journal.file, journal.output
      ensures Valid() && Did(DoRemove(old(container.table.nodes)[h].item.id)) && (old(Clean()) ==> Clean())
      ensures journal.Contents() == Appended(old(journal.Contents()), Record.Remove(old(container.table.nodes)[h].item.id))
    {
      hide UndoMultiIndex.Valid, UndoMultiIndex.Usable, UndoMultiIndex.Tidy, Journal.Valid, Table, SnapshotsOf, Fits, Appended, RecordOk, RemovedState;
      journal.Remove(container.table.nodes[h].item.id);
      container.Remove(h);
    }

    method StartUndo() returns (revision: int)
      requires Valid() && InSigned(8, container.revision + 1)
      modifies container, journal, journal.file, journal.output
      ensures Valid() && Did(DoStartUndo) && revision == container.revision && (old(Clean()) ==> Clean())
      ensures journal.Contents() == Appended(old(journal.Contents()), Record.StartUndo(revision))
      ensures container.St() == StartedState(old(container.St()), container.mono) && container.mono == old(container.mono) + 1
    {
      hide UndoMultiIndex.Valid, UndoMultiIndex.Usable, UndoMultiIndex.Tidy, Journal.Valid, Table, SnapshotsOf, Fits, Appended, RecordOk, StartedState;
      revision := container.StartUndo();
      journal.UndoEntry(revision, START_UNDO);
    }

    method SetRevision(revision: int) returns (ok: bool)
      requires Valid() && InSigned(8, revision)
      modifies container, journal, journal.file, journal.output
      ensures Valid() && Did(DoSetRevision(revision)) && (old(Clean()) ==> Clean())
      ensures ok <==> CanSetRevision(old(Model()), revision)
      ensures journal.Contents() == if ok then Appended(old(journal.Contents()), Revision(revision)) else old(journal.Contents())
    {
      hide UndoMultiIndex.Valid, UndoMultiIndex.Usable, UndoMultiIndex.Tidy, Journal.Valid, Table, SnapshotsOf, Fits, Appended, RecordOk;
      ok := container.SetRevision(revision);
      if ok {
        journal.UndoEntry(revision, REVISION);
      }
    }

    /** Logs the revision the container returns. */
    method Commit(revision: int) returns (result: int)
      requires Valid() && InSigned(8, container.revision)
      modifies container, container.table, journal, journal.file, journal.output
      ensures Valid() && Did(DoCommit(revision)) && result == container.revision && (old(Clean()) ==> Clean())
      ensures journal.Contents() == Appended(old(journal.Contents()), Record.Commit(container.revision))
    {
      hide UndoMultiIndex.Valid, UndoMultiIndex.Usable, UndoMultiIndex.Tidy, Journal.Valid, Table, SnapshotsOf, Fits, Appended, RecordOk, CommittedState, Forgettable;
      ghost var gone;
      result, gone := container.Commit(revision);
      journal.UndoEntry(result, COMMIT);
    }

    method UndoAll()
      requires Valid() && InSigned(8, UndoneAll(Model()).revision)
      modifies container, container.table, journal, journal.file, journal.output
      ensures Valid() && Did(DoUndoAll) && (old(Clean()) ==> Clean())
      ensures journal.Contents() ==
        if old(container.undoStack) == [] then old(journal.Contents()) else Appended(old(journal.Contents()), Record.UndoAll(container.revision))
    {
      hide UndoMultiIndex.Valid, UndoMultiIndex.Usable, UndoMultiIndex.Tidy, Journal.Valid, Table, Fits, Appended, RecordOk, AllUndone;
      UndoneAllEmpty(Model());
      if container.HasUndoSession() {
        container.UndoAll();
        journal.UndoEntry(container.revision, UNDO_ALL);
      }
    }

    method Undo()
      requires Valid() || (container.CanUndo() && journal.Valid())
      requires InSigned(8, Undone(Model()).revision)
      modifies container, container.table, journal, journal.file, journal.output
      ensures N() == old(N()) && journal.Valid()
      ensures old(container.sessions) != [] ==>
                && container.St() == UndoTop(old(container.St())) && container.revision == old(container.revision) - 1
                && (container.table.Valid() <==> TableOk(N(), UndoTop(old(container.St()))))
      ensures old(Valid()) ==> Valid() && Did(DoUndo) && (old(Clean()) ==> Clean())
      ensures journal.Contents() == Appended(old(journal.Contents()), Record.Undo(container.revision))
    {
      hide UndoMultiIndex.Valid, UndoMultiIndex.Usable, UndoMultiIndex.Tidy, UndoMultiIndex.CanUndo, Journal.Valid, Table, SnapshotsOf, Fits, Appended, RecordOk, UndoTop, TableOk;
      hide MultiIndex.Valid;
      container.Undo();
      journal.UndoEntry(container.revision, UNDO);
    }
  }

  /** A call leaves the journal true to the container exactly when it keeps faith. */
  twostate lemma FaithAfter(j: Journaled, v0: View, c: Call)
    requires old(j.Valid()) && j.Valid() && j.Did(c)
    requires Allowed(old(j.N()), old(j.Model()), c) && InRange(old(j.Model()))
    requires Faithful(old(j.N()), v0, old(j.Model()), old(j.journal.Contents()))
    ensures Faithful(j.N(), v0, j.Model(), j.journal.Contents()) <==> KeepsFaith(old(j.Model()), old(j.journal.Contents()), c)
  {
    hide Faithful, Called, Logged, Allowed, KeepsFaith, UndoMultiIndex.Valid, UndoMultiIndex.Usable, UndoMultiIndex.Tidy, Journal.Valid;
    StepIsFaithful(old(j.N()), v0, old(j.Model()), old(j.journal.Contents()), c);
  }

  /** While the journal is true to the container, its file rebuilds an equal container from nothing:
      same objects, next key, revision and snapshots, and no record is refused. */
  method Rebuild(j: Journaled) returns (c: UndoMultiIndex)
    requires j.Valid() && j.True(EMPTY)
    modifies j.journal.file`pos
    ensures j.Valid() && c.Valid() && c.Clean() && fresh(c) && c.Model() == j.Model()
  {
    hide UndoMultiIndex.Valid, UndoMultiIndex.Usable, UndoMultiIndex.Tidy, UndoMultiIndex.Model, UndoMultiIndex.Clean, Journal.Valid;
    c := Reread(j, j.Model());
  }

  /** Whatever the container shows, the file rebuilds what the log replays to. */
  method Reread(j: Journaled, ghost v: View) returns (c: UndoMultiIndex)
    requires j.journal.Valid() && j.container.table.indices != [] && ReplayAll(j.N(), EMPTY, j.journal.records) == Some(v)
    modifies j.journal.file`pos
    ensures j.journal.Valid() && c.Valid() && c.Clean() && fresh(c) && fresh(c.table) && c.Model() == v
  {
    hide UndoMultiIndex.Valid, UndoMultiIndex.Usable, UndoMultiIndex.Tidy, UndoMultiIndex.Clean, Table, SnapshotsOf, RecordOk, Frames, ReplayAll;
    var n := |j.container.table.indices|;
    c := new UndoMultiIndex(n);
    var ok := Recover(j.journal.file, c, j.journal.arity, j.journal.version, j.journal.records);
    assert ok;
  }

  /** Opening a container on the file of a journal: what the file holds is replayed, and the journal
      goes on where the file ends. */
  method Open(n: nat, file: File, arity: nat, version: nat, ghost records: seq<Record>) returns (j: Option<Journaled>)
    requires n >= 1 && file.Valid() && version < Pow256(4)
    requires file.data == Frames(version, records) && forall r :: r in records ==> RecordOk(arity, r)
    modifies file`pos
    ensures j.Some? <==> ReplayAll(n, EMPTY, records).Some?
    ensures j.Some? ==>
              && fresh(j.value) && fresh(j.value.container) && fresh(j.value.journal) && j.value.journal.file == file
              && j.value.Valid() && j.value.Clean() && j.value.N() == n && j.value.journal.Contents() == Log(records, false)
              && j.value.True(EMPTY) && ReplayAll(n, EMPTY, records) == Some(j.value.Model())
  {
    hide UndoMultiIndex.Valid, UndoMultiIndex.Usable, UndoMultiIndex.Tidy, UndoMultiIndex.Clean, UndoMultiIndex.Model, Table, SnapshotsOf, RecordOk, Frames, ReplayAll;
    var c := new UndoMultiIndex(n);
    var ok := Recover(file, c, arity, version, records);
    if !ok {
      return None;
    }
    var journal := new Journal(file, arity, version, records);
    var journaled := new Journaled(c, journal);
    j := Some(journaled);
  }
}
