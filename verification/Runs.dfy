/** Whole runs: any sequence of calls, the view it leaves, and what undo then gives back. */
module Runs {
  import opened Objects
  import opened Snapshots
  import opened UndoSessions
  import opened UndoSquash
  import opened UndoCompress
  import opened UndoCommit
  import opened UndoStamps
  import opened UndoFailure
  import opened UndoTrust
  import opened UndoMarks
  import opened UndoContainer

  /** The constructor of a new object may skip `gap` keys. */
  datatype Op =
    | Emplace(gap: nat, fields: seq<int>)
    | Modify(id: nat, fields: seq<int>)
    | Remove(id: nat)
    | StartUndo
    | Undo
    | UndoAll
    | Squash
    | SquashFast
    | Commit(revision: int)
    | SetRevision(revision: int)
    | LastUndoSession

  /** No session is open, or the object was created in the newest one. */
  predicate Expendable(v: View, id: nat) {
    v.snapshots == [] || id >= v.snapshots[|v.snapshots| - 1].nextId
  }

  /** The specification of each call; one about an object that is not there is not made.  A modify
      that collides destroys an expendable object and leaves any other as it was. */
  ghost function Step(n: nat, v: View, op: Op): View {
    match op
    case Emplace(gap, fields) =>
      if Fits(n, v.contents, Object(v.nextId + gap, fields)) then Emplaced(v, v.nextId + gap, fields) else v
    case Modify(id, fields) =>
      if id !in v.contents then v
      else if Fits(n, v.contents, Object(id, fields)) then Modified(v, id, fields)
      else if Expendable(v, id) then Removed(v, id)
      else v
    case Remove(id) => if id in v.contents then Removed(v, id) else v
    case StartUndo => Started(v)
    case Undo => Undone(v)
    case UndoAll => UndoneAll(v)
    case Squash => Squashed(v)
    case SquashFast => Squashed(v)
    case Commit(revision) => Committed(v, revision)
    case SetRevision(revision) => if CanSetRevision(v, revision) then v.(revision := revision) else v
    case LastUndoSession => v
  }

  /** What else of a run decides whether a modify is safe: the marks of the objects in the table, after
      those in each snapshot, oldest first. */
  type Trace = seq<Marks>

  const UNTRACED: Trace := [map[]]

  ghost function TraceStep(n: nat, v: View, t: Trace, op: Op): Trace {
    var height := |v.snapshots|;
    match op
    case Emplace(gap, fields) =>
      if Fits(n, v.contents, Object(v.nextId + gap, fields)) then WithMark(t, v.nextId + gap, height) else t
    case Modify(id, fields) =>
      if id !in v.contents then t
      else if Fits(n, v.contents, Object(id, fields)) then
        if MarkOf(t, id).right == MarkOf(t, id).has then WithMark(t, id, height) else t
      else if Expendable(v, id) then t
      else Raised(t, id)
    case Remove(_) => t
    case StartUndo => t + [Current(t)]
    case Undo => if height == 0 then t else Front(t)
    case UndoAll => if t == [] then t else t[..1]
    case Squash => TraceSquashed(v, t)
    case SquashFast => TraceSquashed(v, t)
    case Commit(revision) =>
      var dropped := height - |Committed(v, revision).snapshots|;
      if dropped < 0 then t else Forgotten(t, dropped)
    case SetRevision(_) => t
    case LastUndoSession => t
  }

  /** The object has just been stamped, as it should be. */
  function WithMark(t: Trace, id: nat, height: nat): Trace {
    Front(t) + [Current(t)[id := Mark(height, height)]]
  }

  function TraceSquashed(v: View, t: Trace): Trace {
    if |v.snapshots| < 2 || |t| < 2 then [Capped(Current(t), 0)]
    else t[..|t| - 2] + [Capped(Current(t), |v.snapshots| - 1)]
  }

  /** A modify that succeeds is safe if the stamp of its object lies past the start of no more sessions
      than it should, or if it changes nothing and the newest session is among them.  One that collides
      is safe for an expendable object, and for one whose stamp is older than the newest session. */
  ghost predicate Safe(n: nat, v: View, t: Trace, op: Op) {
    op.Modify? && op.id in v.contents ==>
      var m := MarkOf(t, op.id);
      if Fits(n, v.contents, Object(op.id, op.fields)) then
        m.right == m.has || (v.contents[op.id] == Object(op.id, op.fields) && m.has == |v.snapshots|)
      else
        Expendable(v, op.id) || m.has < |v.snapshots|
  }

  ghost function RunOf(n: nat, v: View, ops: seq<Op>): View {
    if ops == [] then v else Step(n, RunOf(n, v, ops[..|ops| - 1]), ops[|ops| - 1])
  }

  ghost function TraceOf(n: nat, v: View, t: Trace, ops: seq<Op>): Trace {
    if ops == [] then t
    else
      var before := ops[..|ops| - 1];
      TraceStep(n, RunOf(n, v, before), TraceOf(n, v, t, before), ops[|ops| - 1])
  }

  ghost predicate SafeRun(n: nat, v: View, t: Trace, ops: seq<Op>) {
    forall k :: 0 <= k < |ops| ==> Safe(n, RunOf(n, v, ops[..k]), TraceOf(n, v, t, ops[..k]), ops[k])
  }

  // ---------------------------------------------------------------------------------------------
  // The trace and the stamps

  lemma {:induction false} ExpendableIsHarmless(st: State, h: Handle, revision: int)
    requires h in st.nodes
    ensures Expendable(ViewOf(st, revision), st.nodes[h].item.id) <==> HarmlessFailure(st, h)
  {
    hide ContentsOf;
    if st.sessions != [] {
      TopSnapshot(st);
    }
  }

  lemma {:induction false} TraceTells(n: nat, mono: nat, st0: State, st: State, t: Trace, h: Handle, item: Object, revision: int)
    requires Shadow(n, mono, st0, st) && Marked(st0, st, t) && h in st.main && h in st.nodes && item.id == st.nodes[h].item.id
    ensures h in st0.nodes && item.id in ViewOf(st, revision).contents && |ViewOf(st, revision).snapshots| == |st.sessions|
    ensures var m := MarkOf(t, item.id);
      && (Trusted(st0, st, h) <==> m.right == m.has)
      && (Idle(st, h, item) <==> ViewOf(st, revision).contents[item.id] == item && m.has == |st.sessions|)
      && (Reverts(st, h) <==> m.has < |st.sessions|)
      && (HarmlessFailure(st, h) <==> Expendable(ViewOf(st, revision), item.id))
  {
    hide Shadow, Marked, Undoable, Stamped, Table, SnapshotsOf, Trusted, HarmlessFailure, Current;
    MarkTells(n, mono, st0, st, t, h);
    ShadowView(n, mono, st0, st);
    ObjectInTable(n, st, h);
    ExpendableIsHarmless(st, h, revision);
  }

  lemma {:induction false} ObjectInTable(n: nat, st: State, h: Handle)
    requires Undoable(n, st) && h in st.main && h in st.nodes
    ensures st.nodes[h].item.id in Table(st) && Table(st)[st.nodes[h].item.id] == st.nodes[h].item
  {
    ContentsAt(st.nodes, st.main);
    hide ContentsOf;
  }

  /** What a modify makes of the state. */
  ghost function AfterModify(n: nat, mono: nat, st: State, addr: nat, h: Handle, item: Object): State
    requires h in st.nodes
  {
    if Fits(n, Table(st), item) then ModifiedState(st, mono, addr, h, item) else FailedState(st, mono, h)
  }

  /** A modify is safe exactly if after it the container shows what the specification says, and could
      have come there without a reverted modify. */
  lemma {:induction false} SafeIsExact(n: nat, mono: nat, st0: State, st: State, t: Trace, addr: nat, h: Handle, item: Object, revision: int)
    requires Shadow(n, mono, st0, st) && Marked(st0, st, t) && h in st.main && h in st.nodes && item.id == st.nodes[h].item.id
    ensures var v, op, st' := ViewOf(st, revision), Modify(item.id, item.fields), AfterModify(n, mono, st, addr, h, item);
      Safe(n, v, t, op) <==> ViewOf(st', revision) == Step(n, v, op) && HasShadow(n, mono, st')
  {
    hide Shadow, Marked, Undoable, Stamped, Table, SnapshotsOf, Trusted, Idle, Reverts, HarmlessFailure, ModifiedState, FailedState, HasShadow, MarkOf, Fits, Expendable;
    TraceTells(n, mono, st0, st, t, h, item, revision);
    ShadowView(n, mono, st0, st);
    if Fits(n, Table(st), item) {
      AcceptExactly(n, mono, st0, st, addr, h, item, revision);
    } else {
      FailureIsRight(n, mono, st0, st, h);
      FailureShows(n, mono, st0, st, h, revision);
    }
  }

  lemma {:induction false} FailureShows(n: nat, mono: nat, st0: State, st: State, h: Handle, revision: int)
    requires Shadow(n, mono, st0, st) && h in st.main && h in st.nodes
    ensures var id, v, st' := st.nodes[h].item.id, ViewOf(st, revision), FailedState(st, mono, h);
      && (Reverts(st, h) ==> ViewOf(st', revision) == v)
      && (HarmlessFailure(st, h) ==> !Reverts(st, h) && ViewOf(st', revision) == Removed(v, id))
      && (!Reverts(st, h) && !HarmlessFailure(st, h) ==> ViewOf(st', revision) != v)
  {
    hide Shadow, Undoable, Stamped, SnapshotsOf, Table, FailedState, Reverts, HarmlessFailure;
    ShadowView(n, mono, st0, st);
    ObjectInTable(n, st, h);
    FailOutcome(n, mono, st0, st, h, revision);
  }

  // ---------------------------------------------------------------------------------------------
  // Runs on the container

  ghost predicate InStep(c: UndoMultiIndex, t: Trace)
    reads c, c.table
    ensures InStep(c, t) ==> c.table.indices != []
  {
    c.Valid() && Marked(c.shadow, c.St(), t)
  }

  lemma {:induction false} SameHeight(st: State, revision: int)
    ensures |ViewOf(st, revision).snapshots| == |st.sessions|
  {
  }

  method PerformModify(c: UndoMultiIndex, id: nat, fields: seq<int>, ghost t: Trace)
    requires InStep(c, t) && Safe(|c.table.indices|, c.Model(), t, Modify(id, fields))
    modifies c, c.table
    ensures |c.table.indices| == old(|c.table.indices|)
    ensures InStep(c, TraceStep(|c.table.indices|, old(c.Model()), t, Modify(id, fields)))
    ensures c.Model() == Step(|c.table.indices|, old(c.Model()), Modify(id, fields))
  {
    hide UndoMultiIndex.Usable, UndoMultiIndex.Tidy, Table, SnapshotsOf, Fits, Marked, Trusted, Idle, Shadow, Restamped, HarmlessFailure, Reverts, FailedState, ModifiedState, RemovedState, MarkOf, Expendable, Current;
    ghost var n, mono, st0, st, rev := |c.table.indices|, c.mono, c.shadow, c.St(), c.revision;
    var h := c.Find(id);
    if h.Some? {
      var p := h.value;
      TraceTells(n, mono, st0, st, t, p, Object(id, fields), rev);
      var ok := c.Modify(p, fields);
      if ok {
        if Trusted(st0, st, p) {
          TracedModify(n, mono, st0, st, t, c.NewestAddress(), p, Object(id, fields));
        }
      } else if Expendable(ViewOf(st, rev), id) {
        MarkedRemove(n, mono, st0, st, t, p);
      } else {
        TracedRevert(n, mono, st0, st, t, p);
      }
    }
  }

  lemma {:induction false} TracedModify(n: nat, mono: nat, st0: State, st: State, t: Trace, addr: nat, h: Handle, item: Object)
    requires Shadow(n, mono, st0, st) && Marked(st0, st, t) && h in st.main && h in st.nodes && h in st0.nodes && Trusted(st0, st, h)
    requires item.id == st.nodes[h].item.id
    ensures h in Restamped(st0, h, st.nodes[h].mtime).nodes
    ensures Marked(ModifiedState(Restamped(st0, h, st.nodes[h].mtime), mono, addr, h, item), ModifiedState(st, mono, addr, h, item),
                   WithMark(t, item.id, |st.sessions|))
  {
    var st1 := Restamped(st0, h, st.nodes[h].mtime);
    ShadowView(n, mono, st0, st);
    hide Inv, Marked, Table, SnapshotsOf, Undoable, ModifiedState, Stamped;
    MakeRight(n, mono, st0, st, h);
    MarkedRestamp(n, st0, st, t, h, st.nodes[h].mtime);
    hide Aged, Current;
    MarkedModify(n, mono, st1, st, t, addr, h, item);
  }

  lemma {:induction false} TracedRevert(n: nat, mono: nat, st0: State, st: State, t: Trace, h: Handle)
    requires Shadow(n, mono, st0, st) && Marked(st0, st, t) && h in st.main && h in st.nodes && h in st0.nodes && Reverts(st, h)
    ensures Marked(st0, FailedState(st, mono, h), Raised(t, st.nodes[h].item.id))
  {
    hide Inv, Marked, Raised;
    MarkedRaise(n, st0, st, t, h, mono);
  }

  method PerformSquash(c: UndoMultiIndex, fast: bool, ghost t: Trace)
    requires InStep(c, t)
    modifies c, c.table
    ensures |c.table.indices| == old(|c.table.indices|)
    ensures InStep(c, TraceSquashed(old(c.Model()), t)) && c.Model() == Squashed(old(c.Model()))
  {
    hide UndoMultiIndex.Usable, UndoMultiIndex.Tidy, Table, SnapshotsOf, Marked, Shadow, MergedState, CompressedState, PartOf;
    ghost var n, mono, st0, st, rev := |c.table.indices|, c.mono, c.shadow, c.St(), c.revision;
    ShadowView(n, mono, st0, st);
    SameHeight(st, rev);
    MarkedParts(st0, st, t);
    if |st.sessions| >= 2 {
      MarkedMerge(n, mono, st0, st, t);
      ShadowMerge(n, mono, st0, st, rev);
    }
    if fast {
      c.SquashFast();
    } else {
      c.Squash();
      if |st.sessions| >= 2 {
        ghost var i, r := |Last(st.sessions).olds|, |Last(st.sessions).removed|;
        MarkedCompress(n, mono, MergedState(st0), MergedState(st), TraceSquashed(ViewOf(st, rev), t), i, r);
      }
    }
    if |st.sessions| < 2 {
      ShadowView(n, c.mono, c.shadow, c.St());
      MarkedPart(st0, st, t, c.shadow, c.St());
    }
  }

  method PerformOther(c: UndoMultiIndex, op: Op, ghost t: Trace)
    requires InStep(c, t) && (op.Emplace? || op.Remove? || op.StartUndo? || op.SetRevision?)
    modifies c, c.table
    ensures |c.table.indices| == old(|c.table.indices|)
    ensures InStep(c, TraceStep(|c.table.indices|, old(c.Model()), t, op))
    ensures c.Model() == Step(|c.table.indices|, old(c.Model()), op)
  {
    hide UndoMultiIndex.Usable, UndoMultiIndex.Tidy, Table, SnapshotsOf, Fits, Marked, Shadow, RemovedState, EmplacedState, StartedState;
    ghost var n, st0, st := |c.table.indices|, c.shadow, c.St();
    match op {
      case Emplace(gap, fields) =>
        var h := c.Emplace(c.table.nextId + gap, fields);
        if h.Some? {
          MarkedEmplace(n, c.mono, st0, st, t, h.value, c.table.nodes[h.value]);
        }
      case Remove(id) =>
        var h := c.Find(id);
        if h.Some? {
          MarkedRemove(n, c.mono, st0, st, t, h.value);
          c.Remove(h.value);
        }
      case StartUndo =>
        MarkedStart(n, c.mono, st0, st, t);
        var _ := c.StartUndo();
      case SetRevision(revision) =>
        var _ := c.SetRevision(revision);
    }
  }

  lemma {:induction false} MarkedForget(n: nat, mono: nat, st0: State, st: State, t: Trace, j: nat, gone: set<Handle>)
    requires Shadow(n, mono, st0, st) && Marked(st0, st, t) && Forgettable(st, j, gone) && j <= |st.sessions| && j <= |st0.sessions|
    ensures Marked(CommittedState(st0, j, gone), CommittedState(st, j, gone), Forgotten(t, j))
  {
    hide Inv, Marked, Stamped, Aged, Forgettable;
    SameForgettable(st0, st, j, gone);
    MarkedCommit(st0, st, t, j, gone);
  }

  /** One call on the container does what the specification says. */
  method Perform(c: UndoMultiIndex, op: Op, ghost t: Trace)
    requires InStep(c, t) && Safe(|c.table.indices|, c.Model(), t, op)
    modifies c, c.table
    ensures |c.table.indices| == old(|c.table.indices|)
    ensures InStep(c, TraceStep(|c.table.indices|, old(c.Model()), t, op))
    ensures c.Model() == Step(|c.table.indices|, old(c.Model()), op)
  {
    hide UndoMultiIndex.Usable, UndoMultiIndex.Tidy, Table, SnapshotsOf, Fits, Marked, Shadow, UndoTop, CompressedState, CommittedState, Forgettable;
    ghost var n, mono, st0, st, rev := |c.table.indices|, c.mono, c.shadow, c.St(), c.revision;
    ShadowView(n, mono, st0, st);
    SameHeight(st, rev);
    match op {
      case Modify(id, fields) =>
        PerformModify(c, id, fields, t);
      case Undo =>
        MarkedParts(st0, st, t);
        c.Undo();
      case UndoAll =>
        MarkedParts(st0, st, t);
        MarkedUndoAll(st0, st, t);
        c.UndoAll();
      case Squash =>
        PerformSquash(c, false, t);
      case SquashFast =>
        PerformSquash(c, true, t);
      case Commit(revision) =>
        var _, gone := c.Commit(revision);
        SameHeight(c.St(), rev);
        MarkedForget(n, mono, st0, st, t, |st.sessions| - |c.sessions|, gone);
      case LastUndoSession =>
        var _ := c.LastUndoSession();
        if st.sessions != [] {
          MarkedCompress(n, mono, st0, st, t, |Last(st.sessions).olds|, |Last(st.sessions).removed|);
        }
      case _ =>
        PerformOther(c, op, t);
    }
  }

  /** Every run on the container is a run of the stack of snapshots. */
  method Execute(c: UndoMultiIndex, ops: seq<Op>, ghost t: Trace)
    requires InStep(c, t) && SafeRun(|c.table.indices|, c.Model(), t, ops)
    modifies c, c.table
    ensures |c.table.indices| == old(|c.table.indices|)
    ensures InStep(c, TraceOf(|c.table.indices|, old(c.Model()), t, ops))
    ensures c.Model() == RunOf(|c.table.indices|, old(c.Model()), ops)
  {
    hide InStep, UndoMultiIndex.Model, Safe, Step, TraceStep;
    ghost var n, v := |c.table.indices|, c.Model();
    for k := 0 to |ops|
      invariant InStep(c, TraceOf(n, v, t, ops[..k])) && c.table.indices != []
      invariant |c.table.indices| == n && c.Model() == RunOf(n, v, ops[..k])
    {
      assert ops[..k + 1][..k] == ops[..k];
      Perform(c, ops[k], TraceOf(n, v, t, ops[..k]));
    }
    assert ops[..|ops|] == ops;
  }

  /** The same from nothing: only the calls decide what can be relied on. */
  method ExecuteFromNothing(n: nat, ops: seq<Op>) returns (c: UndoMultiIndex)
    requires n >= 1 && SafeRun(n, EMPTY, UNTRACED, ops)
    ensures fresh(c) && |c.table.indices| == n
    ensures InStep(c, TraceOf(n, EMPTY, UNTRACED, ops)) && c.Model() == RunOf(n, EMPTY, ops)
  {
    hide UndoMultiIndex.Usable, UndoMultiIndex.Tidy, UndoMultiIndex.Model, Shadow, Safe, Step, TraceStep;
    c := new UndoMultiIndex(n);
    assert InStep(c, UNTRACED) by { NothingTraced(c); }
    Execute(c, ops, UNTRACED);
  }

  lemma NothingTraced(c: UndoMultiIndex)
    requires c.Valid() && c.Clean() && c.St() == State(map[], {}, 0, [])
    ensures InStep(c, UNTRACED)
  {
    hide Shadow, UndoMultiIndex.Usable, UndoMultiIndex.Tidy;
  }
}
