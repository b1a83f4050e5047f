/** What `last_undo_session` reports, told from the calls: an object is reported as modified if and only
    if it was there when the newest session started, is still there, and has been modified since. */
module Reports {
  import opened Objects
  import opened Snapshots
  import opened UndoSessions
  import opened UndoCompress
  import opened UndoDelta
  import opened UndoStamps
  import opened UndoMarks
  import opened UndoContainer
  import opened Runs
  import opened Histories

  // ---------------------------------------------------------------------------------------------
  // Backups and marks

  /** The newest session holds a backup of the object from before the session. */
  ghost predicate BackedUp(st: State, id: nat)
    requires st.sessions != []
  {
    exists o :: o in Top(st).olds && o.mtime < Top(st).ctime && o.cur in st.main && o.item.id == id
  }

  /** Undo gives every node an older stamp, so a node that has been stamped since has a backup. */
  lemma {:induction false} StampedHasBackup(n: nat, st: State, h: Handle)
    requires Inv(n, st) && st.sessions != [] && h in st.main && h in st.nodes
    requires st.nodes[h].item.id < Top(st).nextId && st.nodes[h].mtime >= Top(st).ctime
    ensures BackedUp(st, st.nodes[h].item.id)
  {
    assert SessionOk(st);
    assert h in UndoTop(st).main && UndoTop(st).nodes[h] == Restore(Top(st), h, st.nodes[h]);
    OldestIs(Top(st).olds, Top(st).ctime, h);
    var o := Oldest(Top(st).olds, Top(st).ctime, h);
    assert o.Some?;
    assert o.value in Top(st).olds && o.value.item.id == st.nodes[h].item.id;
  }

  lemma {:induction false} BackupIsStamped(n: nat, st: State, id: nat)
    requires Inv(n, st) && st.sessions != [] && BackedUp(st, id)
    ensures id < Top(st).nextId
    ensures exists h :: h in st.main && h in st.nodes && st.nodes[h].item.id == id && st.nodes[h].mtime >= Top(st).ctime
  {
    assert SessionOk(st);
    hide UndoTop;
    var o :| o in Top(st).olds && o.mtime < Top(st).ctime && o.cur in st.main && o.item.id == id;
    assert o.cur in st.nodes;
  }

  /** The first mark tells whether the newest session has touched the object. */
  lemma {:induction false} BackupMark(n: nat, mono: nat, st0: State, st: State, t: Trace, id: nat)
    requires Shadow(n, mono, st0, st) && Marked(st0, st, t) && st.sessions != []
    ensures BackedUp(st, id) <==> id in Table(st) && id < Top(st).nextId && MarkOf(t, id).right == |st.sessions|
  {
    hide Inv, Marked, Stamped;
    ShadowTable(n, mono, st0, st);
    MarkedParts(st0, st, t);
    TableIs(n, st);
    hide Marked, ContentsOf, TableOk;
    if BackedUp(st, id) {
      assert BackedUp(st0, id);
      BackupIsStamped(n, st0, id);
      var h :| h in st0.main && h in st0.nodes && st0.nodes[h].item.id == id && st0.nodes[h].mtime >= Top(st0).ctime;
      assert h in st.main && st.nodes[h].item.id == id;
      assert Counts(st.sessions, MarkOf(t, id).right, st0.nodes[h].mtime);
    }
    if id in Table(st) && id < Top(st).nextId && MarkOf(t, id).right == |st.sessions| {
      var h :| h in st.main && h in st.nodes && st.nodes[h].item.id == id;
      assert Counts(st.sessions, MarkOf(t, id).right, st0.nodes[h].mtime);
      assert st.sessions[|st.sessions| - 1].ctime <= st0.nodes[h].mtime;
      StampedHasBackup(n, st0, h);
      assert BackedUp(st, id);
    }
  }

  lemma {:induction false} TableIs(n: nat, st: State)
    requires TableOk(n, st)
    ensures forall id :: id in Table(st) <==> exists h :: h in st.main && h in st.nodes && st.nodes[h].item.id == id
  {
  }

  // ---------------------------------------------------------------------------------------------
  // Objects a session does not modify

  /** The call is a modify of the object that succeeds. */
  ghost predicate Modifies(n: nat, v: View, op: Op, id: nat) {
    op.Modify? && op.id == id && id in v.contents && Fits(n, v.contents, Object(id, op.fields))
  }

  /** Since a session that is `depth` sessions down started, with the object in the table, the object has
      not been modified: in the table and in the snapshots taken since, no session from that one on has
      touched it, and its key has not been given out again. */
  ghost predicate Untouched(w: View, t: Trace, depth: nat, id: nat) {
    && 1 <= depth <= |w.snapshots| && |t| == |w.snapshots| + 1
    && id < w.nextId && (forall j :: |w.snapshots| - depth <= j < |w.snapshots| ==> id < w.snapshots[j].nextId)
    && (forall j :: |t| - depth <= j < |t| ==> MarkBelow(t[j], id, |w.snapshots| - depth))
  }

  ghost predicate MarkBelow(marks: Marks, id: nat, height: nat) {
    id in marks ==> marks[id].right <= height
  }

  lemma {:induction false} RaisedRights(t: Trace, other: nat, id: nat, height: nat, j: nat)
    requires j < |t| && MarkBelow(t[j], id, height)
    ensures |Raised(t, other)| == |t| && MarkBelow(Raised(t, other)[j], id, height)
  {
    if t != [] && other in t[|t| - 1] {
      var top, marks := |t| - 1, t[|t| - 1];
      if top > 0 && marks[other].right < top {
        if j < top {
          RaisedRights(t[..top], other, id, height, j);
        } else {
          RaisedLength(t[..top], other);
        }
      }
    }
  }

  lemma {:induction false} RaisedLength(t: Trace, other: nat)
    ensures |Raised(t, other)| == |t|
  {
    if t != [] && other in t[|t| - 1] {
      RaisedLength(t[..|t| - 1], other);
    }
  }

  lemma {:induction false} ForgottenAt(t: Trace, dropped: nat, j: nat)
    requires dropped <= j < |t|
    ensures |Forgotten(t, dropped)| == |t| - dropped && Forgotten(t, dropped)[j - dropped] == UndoMarks.Shifted(t[j], dropped)
  {
    ForgottenLength(t, dropped);
    if j < |t| - 1 {
      ForgottenAt(t[..|t| - 1], dropped, j);
    }
  }

  lemma {:induction false} RaisedUntouched(w: View, t: Trace, depth: nat, other: nat, id: nat)
    requires Untouched(w, t, depth, id)
    ensures Untouched(w, Raised(t, other), depth, id)
  {
    RaisedLength(t, other);
    forall j | |t| - depth <= j < |t|
      ensures MarkBelow(Raised(t, other)[j], id, |w.snapshots| - depth)
    {
      RaisedRights(t, other, id, |w.snapshots| - depth, j);
    }
  }

  lemma {:induction false} CommitUntouched(w: View, t: Trace, depth: nat, revision: int, id: nat)
    requires Untouched(w, t, depth, id) && depth <= Keeps(w, revision)
    ensures var dropped := |w.snapshots| - |Committed(w, revision).snapshots|;
      dropped >= 0 && Untouched(Committed(w, revision), Forgotten(t, dropped), depth, id)
  {
    var w' := Committed(w, revision);
    var dropped := |w.snapshots| - |w'.snapshots|;
    CommitKeepsSuffix(w, revision);
    hide Committed, Keeps;
    ForgottenLength(t, dropped);
    forall j | |t| - dropped - depth <= j < |t| - dropped
      ensures MarkBelow(Forgotten(t, dropped)[j], id, |w'.snapshots| - depth)
    {
      ForgottenAt(t, dropped, j + dropped);
      assert MarkBelow(t[j + dropped], id, |w.snapshots| - depth);
    }
  }

  lemma {:induction false} StackUntouched(n: nat, w: View, t: Trace, depth: nat, op: Op, id: nat)
    requires Untouched(w, t, depth, id) && DepthAfter(w, depth, op) > 0 && (op.StartUndo? || op.Undo? || op.Squash? || op.SquashFast?)
    ensures Untouched(Step(n, w, op), TraceStep(n, w, t, op), DepthAfter(w, depth, op), id)
  {
    assert MarkBelow(t[|t| - 1], id, |w.snapshots| - depth);
  }

  /** One call keeps that, unless it modifies the object or closes the session. */
  lemma {:induction false} StepUntouched(n: nat, w: View, t: Trace, depth: nat, op: Op, id: nat)
    requires Untouched(w, t, depth, id) && DepthAfter(w, depth, op) > 0 && !Modifies(n, w, op, id)
    ensures Untouched(Step(n, w, op), TraceStep(n, w, t, op), DepthAfter(w, depth, op), id)
  {
    match op
    case Commit(revision) => CommitUntouched(w, t, depth, revision, id);
    case Modify(other, fields) =>
      hide Fits, Raised;
      RaisedUntouched(w, t, depth, other, id);
    case Emplace(gap, fields) =>
      hide Fits;
    case _ =>
      if op.StartUndo? || op.Undo? || op.Squash? || op.SquashFast? {
        StackUntouched(n, w, t, depth, op, id);
      }
  }

  lemma {:induction false} StartUntouched(v: View, t: Trace, id: nat)
    requires id < v.nextId && |t| == |v.snapshots| + 1 && MarkBelow(Current(t), id, |v.snapshots|)
    ensures Untouched(Started(v), t + [Current(t)], 1, id)
  {
  }

  lemma {:induction false} RunUntouched(n: nat, v: View, t: Trace, ops: seq<Op>, id: nat)
    requires id < v.nextId && |t| == |v.snapshots| + 1 && MarkBelow(Current(t), id, |v.snapshots|)
    requires StaysOpen(n, Started(v), ops)
    requires forall k :: 0 <= k < |ops| ==> !Modifies(n, RunOf(n, Started(v), ops[..k]), ops[k], id)
    ensures Untouched(RunOf(n, Started(v), ops), TraceOf(n, Started(v), t + [Current(t)], ops), Depth(n, Started(v), ops), id)
  {
    if ops == [] {
      StartUntouched(v, t, id);
    } else {
      var before := ops[..|ops| - 1];
      hide Modifies, Untouched, Step, TraceStep, DepthAfter;
      assert forall k :: 0 <= k < |before| ==> before[..k] == ops[..k] && before[k] == ops[k];
      RunUntouched(n, v, t, before, id);
      assert before == ops[..|ops| - 1];
      StepUntouched(n, RunOf(n, Started(v), before), TraceOf(n, Started(v), t + [Current(t)], before), Depth(n, Started(v), before), ops[|ops| - 1], id);
    }
  }

  // ---------------------------------------------------------------------------------------------
  // The report

  /** What the report says, and which objects it lists as modified: those of the table that were there
      when the session started and that it has touched. */
  method Report(c: UndoMultiIndex, ghost t: Trace) returns (delta: Delta)
    requires InStep(c, t)
    modifies c, c.table
    ensures |c.table.indices| == old(|c.table.indices|) && InStep(c, t) && c.Model() == old(c.Model())
    ensures c.Model().snapshots == [] ==> delta == Delta([], [], [])
    ensures c.Model().snapshots != [] ==>
      && var s := c.Model().snapshots[|c.Model().snapshots| - 1];
      && IsDelta(delta, s.contents, c.Model().contents)
      && forall id :: id in IdsOf(delta.oldValues) <==>
           id in c.Model().contents && id < s.nextId && MarkOf(t, id).right == |c.Model().snapshots|
  {
    hide UndoMultiIndex.Usable, UndoMultiIndex.Tidy, Table, SnapshotsOf, Marked, Shadow, UndoTop, CompressedState, IsDelta, MarkOf, IdsOf, BackedUp;
    ghost var n, mono, st0, st := |c.table.indices|, c.mono, c.shadow, c.St();
    ShadowView(n, mono, st0, st);
    delta := c.LastUndoSession();
    if st.sessions != [] {
      MarkedCompress(n, mono, st0, st, t, |Last(st.sessions).olds|, |Last(st.sessions).removed|);
      TopSnapshot(st);
      UndoLower(st);
      forall id: nat
        ensures id in IdsOf(delta.oldValues) <==> id in Table(st) && id < Top(st).nextId && MarkOf(t, id).right == |st.sessions|
      {
        BackupMark(n, mono, st0, st, t, id);
        ReportedIds(st, delta.oldValues, id);
      }
    }
  }

  lemma {:induction false} ReportedIds(st: State, oldValues: seq<Object>, id: nat)
    requires st.sessions != []
    requires forall x :: x in oldValues <==> exists o :: o in Top(st).olds && o.mtime < Top(st).ctime && o.cur in st.main && o.item == x
    ensures id in IdsOf(oldValues) <==> BackedUp(st, id)
  {
    if BackedUp(st, id) {
      var o :| o in Top(st).olds && o.mtime < Top(st).ctime && o.cur in st.main && o.item.id == id;
      assert o.item in oldValues;
    }
  }

  lemma {:induction false} NothingToReport(d: Delta, c: Contents)
    requires IsDelta(d, c, c) && d.oldValues == []
    ensures d == Delta([], [], [])
  {
    hide DistinctObjects, IdsOf, ToTable;
    HasElement(d.newValues);
    HasElement(d.removedValues);
  }

  lemma HasElement<T>(s: seq<T>)
    ensures s != [] ==> exists x :: x in s
  {
    if s != [] {
      assert s[0] in s;
    }
  }

  lemma {:induction false} MarksBounded(c: UndoMultiIndex, t: Trace)
    requires InStep(c, t)
    ensures |t| == |c.Model().snapshots| + 1
    ensures forall id :: id in c.Model().contents ==> id < c.Model().nextId && MarkBelow(Current(t), id, |c.Model().snapshots|)
  {
    hide UndoMultiIndex.Usable, UndoMultiIndex.Tidy, SnapshotsOf, Marked, Inv, Stamped, UndoTop;
    var n, st0, st := |c.table.indices|, c.shadow, c.St();
    assert Shadow(n, c.mono, st0, st);
    ShadowTable(n, c.mono, st0, st);
    MarkedParts(st0, st, t);
    TableIs(n, st);
    hide ContentsOf;
    forall id | id in Table(st)
      ensures id < st.nextId && MarkBelow(Current(t), id, |st.sessions|)
    {
      var h :| h in st.main && h in st.nodes && st.nodes[h].item.id == id;
      assert Counts(st.sessions, Current(t)[id].right, st0.nodes[h].mtime);
    }
  }

  lemma StartStep(n: nat, v: View, t: Trace)
    ensures Step(n, v, StartUndo) == Started(v) && TraceStep(n, v, t, StartUndo) == t + [Current(t)] && Safe(n, v, t, StartUndo)
  {
  }

  lemma {:induction false} WasThere(d: Delta, before: Contents, now: Contents, x: Object)
    requires IsDelta(d, before, now) && x in d.oldValues
    ensures x.id in before && x.id in IdsOf(d.oldValues)
  {
    hide DistinctObjects, ToTable;
  }

  /** An object that the newest session has touched since it started has been modified in it. */
  lemma {:induction false} TouchedWasModified(n: nat, v: View, t: Trace, ops: seq<Op>, id: nat)
    requires id < v.nextId && |t| == |v.snapshots| + 1 && MarkBelow(Current(t), id, |v.snapshots|)
    requires StaysOpen(n, Started(v), ops) && Depth(n, Started(v), ops) == 1
    requires MarkOf(TraceOf(n, Started(v), t + [Current(t)], ops), id).right == |RunOf(n, Started(v), ops).snapshots|
    ensures exists k :: 0 <= k < |ops| && Modifies(n, RunOf(n, Started(v), ops[..k]), ops[k], id)
  {
    hide Modifies, StaysOpen, Depth, RunOf, TraceOf;
    if forall k :: 0 <= k < |ops| ==> !Modifies(n, RunOf(n, Started(v), ops[..k]), ops[k], id) {
      RunUntouched(n, v, t, ops, id);
    }
  }

  /** A session is started, a run is made in it, and the report is read: no object is listed as modified
      but those that a modify in that run has changed, and with nothing done all three ranges are empty. */
  method ReportOfRun(c: UndoMultiIndex, ops: seq<Op>, ghost t: Trace) returns (delta: Delta)
    requires InStep(c, t)
    requires StaysOpen(|c.table.indices|, Started(c.Model()), ops) && Depth(|c.table.indices|, Started(c.Model()), ops) == 1
    requires SafeRun(|c.table.indices|, Started(c.Model()), t + [Current(t)], ops)
    modifies c, c.table
    ensures c.Valid() && |c.table.indices| == old(|c.table.indices|)
    ensures c.Model() == RunOf(|c.table.indices|, Started(old(c.Model())), ops)
    ensures IsDelta(delta, old(c.Model()).contents, c.Model().contents)
    ensures forall x :: x in delta.oldValues ==>
      exists k :: 0 <= k < |ops| && Modifies(|c.table.indices|, RunOf(|c.table.indices|, Started(old(c.Model())), ops[..k]), ops[k], x.id)
    ensures ops == [] ==> delta == Delta([], [], [])
  {
    hide UndoMultiIndex.Usable, UndoMultiIndex.Tidy, UndoMultiIndex.Model, Marked, Shadow, Step, TraceStep, Safe, SafeRun, IsDelta, Modifies, Untouched, MarkOf, MarkBelow, DepthAfter, StaysOpen, Depth, TraceOf;
    ghost var n, v := |c.table.indices|, c.Model();
    MarksBounded(c, t);
    StartStep(n, v, t);
    Perform(c, StartUndo, t);
    Execute(c, ops, t + [Current(t)]);
    ghost var w, t' := c.Model(), TraceOf(n, Started(v), t + [Current(t)], ops);
    RunHolds(n, v, ops);
    delta := Report(c, t');
    forall x | x in delta.oldValues
      ensures exists k :: 0 <= k < |ops| && Modifies(n, RunOf(n, Started(v), ops[..k]), ops[k], x.id)
    {
      WasThere(delta, v.contents, w.contents, x);
      TouchedWasModified(n, v, t, ops, x.id);
    }
    if ops == [] {
      HasElement(delta.oldValues);
      NothingToReport(delta, v.contents);
    }
  }
}
