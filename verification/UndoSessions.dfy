/** The delta form of the session stack, as values: each open session owns a segment of backups and
    a segment of removed nodes.  The theory here is one idea: `UndoTop` is the state that undo
    reconstructs, and each operation inside a session leaves `UndoTop` exactly as it was. */
module UndoSessions {
  import opened Objects
  import opened Snapshots

  /** A backup: the object and stamp of node `cur` before it was modified. */
  datatype Old = Old(addr: nat, item: Object, mtime: nat, cur: Handle)

  /** One open session; both segments hold the most recent entry first. */
  datatype Session = Session(olds: seq<Old>, removed: seq<Handle>, nextId: nat, ctime: nat)

  /** `main` holds the nodes of the table; `sessions` holds the oldest session first. */
  datatype State = State(nodes: map<Handle, Node>, main: set<Handle>, nextId: nat, sessions: seq<Session>)

  function Last(sessions: seq<Session>): Session
    requires sessions != []
  {
    sessions[|sessions| - 1]
  }

  function Lowered(sessions: seq<Session>): seq<Session>
    requires sessions != []
  {
    sessions[..|sessions| - 1]
  }

  function Top(st: State): Session
    requires st.sessions != []
  {
    Last(st.sessions)
  }

  function Lower(st: State): seq<Session>
    requires st.sessions != []
  {
    Lowered(st.sessions)
  }

  /** The last backup of `h` that undo does not skip. */
  function Oldest(olds: seq<Old>, ctime: nat, h: Handle): Option<Old> {
    if olds == [] then None
    else
      var last := olds[|olds| - 1];
      if last.cur == h && last.mtime < ctime then Some(last) else Oldest(olds[..|olds| - 1], ctime, h)
  }

  lemma {:induction false} OldestIs(olds: seq<Old>, ctime: nat, h: Handle)
    ensures var r := Oldest(olds, ctime, h);
      && (r.Some? ==> r.value in olds && r.value.cur == h && r.value.mtime < ctime)
      && (r.None? ==> forall o :: o in olds && o.cur == h ==> o.mtime >= ctime)
  {
    if olds != [] {
      OldestIs(olds[..|olds| - 1], ctime, h);
    }
  }

  lemma {:induction false} OldestAppend(a: seq<Old>, b: seq<Old>, ctime: nat, h: Handle)
    ensures Oldest(a + b, ctime, h) ==
      if Oldest(b, ctime, h).Some? then Oldest(b, ctime, h) else Oldest(a, ctime, h)
  {
    if b == [] {
      assert a + b == a;
    } else {
      assert (a + b)[..|a + b| - 1] == a + b[..|b| - 1];
      OldestAppend(a, b[..|b| - 1], ctime, h);
    }
  }

  /** The node `h` after undo has replayed the backups and put removed nodes back. */
  function Restore(s: Session, h: Handle, node: Node): Node {
    var o := Oldest(s.olds, s.ctime, h);
    var node' := if o.Some? then node.(item := o.value.item, mtime := o.value.mtime) else node;
    if h in s.removed then node'.(erased := false) else node'
  }

  /** The nodes of the table or of the top session's removed list. */
  function Reach(st: State): set<Handle>
    requires st.sessions != []
  {
    set h | h in st.nodes && (h in st.main || h in Top(st).removed)
  }

  /** Undo keeps every node but those created since the session began. */
  predicate Survives(st: State, h: Handle)
    requires st.sessions != []
  {
    h in st.nodes && (h in Reach(st) ==> st.nodes[h].item.id < Top(st).nextId)
  }

  /** The state at the start of the top session, as undo rebuilds it. */
  function UndoTop(st: State): State
    requires st.sessions != []
  {
    var s := Top(st);
    State((map h | h in st.nodes && Survives(st, h) :: Restore(s, h, st.nodes[h])),
          (set h | h in Reach(st) && Survives(st, h)),
          s.nextId,
          Lower(st))
  }

  lemma {:induction false} UndoLower(st: State)
    requires st.sessions != []
    ensures UndoTop(st).sessions == Lower(st) && UndoTop(st).nextId == Top(st).nextId
  {
  }

  /** Two states undo to the same state when undo drops, rebuilds and reinserts the same nodes. */
  lemma {:induction false} SameUndo(st: State, st': State)
    requires st.sessions != [] && st'.sessions != []
    requires Lower(st') == Lower(st) && Top(st').nextId == Top(st).nextId
    requires forall h :: Survives(st', h) <==> Survives(st, h)
    requires forall h :: Survives(st', h) && Survives(st, h) ==> Restore(Top(st'), h, st'.nodes[h]) == Restore(Top(st), h, st.nodes[h])
    requires forall h :: Survives(st, h) ==> (h in Reach(st') <==> h in Reach(st))
    ensures UndoTop(st') == UndoTop(st)
  {
    hide Restore;
    assert UndoTop(st').main == UndoTop(st).main;
    assert UndoTop(st').nodes == UndoTop(st).nodes;
  }

  /** The table is well formed: live nodes, not marked, with keys below the next one, and no two
      nodes sharing a key in any of the `n` indices. */
  ghost predicate TableOk(n: nat, st: State) {
    && DistinctIds(st.nodes, st.main)
    && (forall h :: h in st.main ==> !st.nodes[h].erased && st.nodes[h].item.id < st.nextId)
    && (forall h, g, k :: h in st.main && g in st.main && h != g && 0 <= k < n ==>
          Key(k, st.nodes[h].item) != Key(k, st.nodes[g].item))
  }

  ghost predicate RemovedOk(st: State)
    requires st.sessions != []
  {
    var s := Top(st);
    && DistinctHandles(s.removed)
    && (forall h :: h in s.removed ==> h in st.nodes && h !in st.main && st.nodes[h].erased && st.nodes[h].item.id < st.nextId)
    && (forall h, g :: h in Reach(st) && g in Reach(st) && h != g ==> st.nodes[h].item.id != st.nodes[g].item.id)
  }

  /** A backup that undo does not skip belongs to a live node of the session that was there when the
      session started and has been stamped since; there is at most one for each node. */
  ghost predicate OldsOk(st: State)
    requires st.sessions != []
  {
    var s := Top(st);
    && (forall o :: o in s.olds && o.mtime < s.ctime ==>
          && o.cur in Reach(st)
          && st.nodes[o.cur].item.id == o.item.id < s.nextId
          && st.nodes[o.cur].mtime >= s.ctime)
    && (forall i, j :: 0 <= i < j < |s.olds| && s.olds[i].mtime < s.ctime && s.olds[j].mtime < s.ctime ==>
          s.olds[i].cur != s.olds[j].cur)
  }

  /** A node created in the session carries a stamp of the session. */
  ghost predicate NewStamped(st: State)
    requires st.sessions != []
  {
    var s := Top(st);
    && s.nextId <= st.nextId
    && (forall h :: h in st.main && h in st.nodes && st.nodes[h].item.id >= s.nextId ==> st.nodes[h].mtime >= s.ctime)
  }

  /** The stamps tell what undo needs to know: besides, every node undo gives back carries an older one. */
  ghost predicate StampsOk(st: State)
    requires st.sessions != []
  {
    var s := Top(st);
    && NewStamped(st)
    && (forall h :: h in UndoTop(st).main ==> UndoTop(st).nodes[h].mtime < s.ctime)
    && (|st.sessions| >= 2 ==> st.sessions[|st.sessions| - 2].ctime < s.ctime)
  }

  ghost predicate SessionOk(st: State)
    requires st.sessions != []
  {
    RemovedOk(st) && OldsOk(st) && StampsOk(st)
  }

  /** The invariant: the table and the top session are well formed, and so is what undo rebuilds. */
  ghost predicate Inv(n: nat, st: State)
    decreases |st.sessions|
  {
    && n >= 1
    && TableOk(n, st)
    && (st.sessions != [] ==> SessionOk(st) && Inv(n, UndoTop(st)))
  }

  /** No stamp exceeds the running counter. */
  ghost predicate Stamped(mono: nat, st: State) {
    && (forall h :: h in st.nodes ==> st.nodes[h].mtime <= mono)
    && (st.sessions != [] ==> Top(st).ctime <= mono)
  }

  ghost function Table(st: State): Contents {
    ContentsOf(st.nodes, st.main)
  }

  /** The full copies the deltas stand for, oldest first: the contents after each further undo. */
  ghost function SnapshotsOf(st: State): (r: seq<Snapshot>)
    ensures |r| == |st.sessions|
    decreases |st.sessions|
  {
    if st.sessions == [] then []
    else
      var u := UndoTop(st);
      SnapshotsOf(u) + [Snapshot(Table(u), u.nextId)]
  }

  ghost function ViewOf(st: State, revision: int): View {
    View(Table(st), st.nextId, revision, SnapshotsOf(st))
  }

  lemma {:induction false} TopSnapshot(st: State)
    requires st.sessions != []
    ensures SnapshotsOf(st) != []
    ensures SnapshotsOf(st)[|st.sessions| - 1] == Snapshot(Table(UndoTop(st)), UndoTop(st).nextId)
    ensures SnapshotsOf(st)[..|st.sessions| - 1] == SnapshotsOf(UndoTop(st))
  {
  }

  /** States that undo to the same state stand for the same snapshots. */
  lemma {:induction false} SameSnapshots(st: State, st': State)
    requires |st.sessions| == |st'.sessions|
    requires st.sessions != [] ==> UndoTop(st') == UndoTop(st)
    ensures SnapshotsOf(st') == SnapshotsOf(st)
  {
  }

  // ---------------------------------------------------------------------------------------------
  // start_undo

  function StartedState(st: State, ctime: nat): State {
    st.(sessions := st.sessions + [Session([], [], st.nextId, ctime)])
  }

  lemma {:induction false} StartKeepsUndo(n: nat, st: State, ctime: nat)
    requires TableOk(n, st)
    ensures UndoTop(StartedState(st, ctime)) == st
  {
  }

  lemma {:induction false} StartSessionOk(n: nat, mono: nat, st: State)
    requires TableOk(n, st) && Stamped(mono, st) && UndoTop(StartedState(st, mono + 1)) == st
    ensures TableOk(n, StartedState(st, mono + 1)) && SessionOk(StartedState(st, mono + 1))
  {
  }

  lemma {:induction false} StartSession(n: nat, mono: nat, st: State)
    requires Inv(n, st) && Stamped(mono, st)
    ensures var st' := StartedState(st, mono + 1);
      && UndoTop(st') == st
      && Inv(n, st') && Stamped(mono + 1, st')
      && SnapshotsOf(st') == SnapshotsOf(st) + [Snapshot(Table(st), st.nextId)]
  {
    hide ContentsOf, TableOk, SessionOk, UndoTop;
    var st' := StartedState(st, mono + 1);
    StartKeepsUndo(n, st, mono + 1);
    StartSessionOk(n, mono, st);
  }

  // ---------------------------------------------------------------------------------------------
  // undo

  lemma {:induction false} UndoneStamps(mono: nat, st: State)
    requires st.sessions != [] && Stamped(mono, st)
    requires |st.sessions| >= 2 ==> st.sessions[|st.sessions| - 2].ctime <= mono
    ensures Stamped(mono, UndoTop(st))
  {
    forall h | h in UndoTop(st).nodes
      ensures UndoTop(st).nodes[h].mtime <= mono
    {
      OldestIs(Top(st).olds, Top(st).ctime, h);
      hide Oldest;
    }
    hide Restore;
  }

  lemma {:induction false} UndoSession(n: nat, mono: nat, st: State, revision: int)
    requires Inv(n, st) && Stamped(mono, st) && st.sessions != []
    ensures Inv(n, UndoTop(st)) && Stamped(mono, UndoTop(st))
    ensures ViewOf(UndoTop(st), revision - 1) == Undone(ViewOf(st, revision))
  {
    assert |st.sessions| >= 2 ==> st.sessions[|st.sessions| - 2].ctime <= mono;
    hide ContentsOf, TableOk, SessionOk, UndoTop;
    UndoneStamps(mono, st);
    TopSnapshot(st);
  }

  // ---------------------------------------------------------------------------------------------
  // emplace

  function EmplacedState(st: State, h: Handle, node: Node): State {
    st.(nodes := st.nodes[h := node], main := st.main + {h}, nextId := node.item.id + 1)
  }

  /** An object that fits the table shares no key with any of its nodes but its own. */
  ghost predicate FitsNodes(n: nat, st: State, o: Object) {
    forall g, k :: g in st.main && g in st.nodes && st.nodes[g].item.id != o.id && 0 <= k < n ==>
      Key(k, st.nodes[g].item) != Key(k, o)
  }

  lemma {:induction false} FitsTable(n: nat, st: State, o: Object)
    requires DistinctIds(st.nodes, st.main)
    ensures FitsNodes(n, st, o) <==> Fits(n, Table(st), o)
  {
    ContentsAt(st.nodes, st.main);
    hide ContentsOf;
  }

  lemma {:induction false} EmplaceTableOk(n: nat, st: State, h: Handle, node: Node)
    requires TableOk(n, st) && h !in st.nodes && node.item.id >= st.nextId && !node.erased && FitsNodes(n, st, node.item)
    ensures TableOk(n, EmplacedState(st, h, node))
  {
  }

  lemma {:induction false} EmplaceKeepsUndo(st: State, h: Handle, node: Node)
    requires st.sessions != [] && h !in st.nodes && node.item.id >= st.nextId
    requires RemovedOk(st) && Top(st).nextId <= st.nextId
    ensures UndoTop(EmplacedState(st, h, node)) == UndoTop(st)
  {
    var st' := EmplacedState(st, h, node);
    hide Oldest;
    assert Reach(st') == Reach(st) + {h};
    SameUndo(st, st');
  }

  lemma {:induction false} EmplaceRemovedOk(n: nat, st: State, h: Handle, node: Node)
    requires TableOk(n, st) && st.sessions != [] && RemovedOk(st)
    requires h !in st.nodes && node.item.id >= st.nextId
    ensures RemovedOk(EmplacedState(st, h, node))
  {
    assert Reach(EmplacedState(st, h, node)) == Reach(st) + {h};
  }

  lemma {:induction false} EmplaceSessionOk(n: nat, mono: nat, st: State, h: Handle, node: Node)
    requires TableOk(n, st) && st.sessions != [] && SessionOk(st) && Stamped(mono, st)
    requires h !in st.nodes && node.item.id >= st.nextId && node.mtime == mono
    requires UndoTop(EmplacedState(st, h, node)) == UndoTop(st)
    ensures SessionOk(EmplacedState(st, h, node))
  {
    var st' := EmplacedState(st, h, node);
    EmplaceRemovedOk(n, st, h, node);
    hide UndoTop, RemovedOk, TableOk;
    assert Reach(st') == Reach(st) + {h};
    assert StampsOk(st') by { hide OldsOk, Reach; }
    assert OldsOk(st') by { hide StampsOk; }
  }

  lemma {:induction false} EmplaceNode(n: nat, mono: nat, st: State, h: Handle, node: Node)
    requires Inv(n, st) && Stamped(mono, st)
    requires h !in st.nodes && node.item.id >= st.nextId && !node.erased
    requires if st.sessions == [] then node.mtime <= mono else node.mtime == mono
    requires Fits(n, Table(st), node.item)
    ensures var st' := EmplacedState(st, h, node);
      && Inv(n, st') && Stamped(mono, st')
      && Table(st') == Table(st)[node.item.id := node.item]
      && SnapshotsOf(st') == SnapshotsOf(st)
  {
    var st' := EmplacedState(st, h, node);
    hide ContentsOf, UndoTop, RemovedOk, OldsOk, Fits, FitsNodes;
    assert DistinctIds(st.nodes, st.main);
    FitsTable(n, st, node.item);
    EmplaceTableOk(n, st, h, node);
    ContentsInsert(st.nodes, st'.nodes, st.main, h);
    if st.sessions != [] {
      assert Top(st).nextId <= st.nextId;
      hide TableOk, StampsOk;
      EmplaceKeepsUndo(st, h, node);
      EmplaceSessionOk(n, mono, st, h, node);
    }
    SameSnapshots(st, st');
  }

  // ---------------------------------------------------------------------------------------------
  // remove

  /** Outside a session, and for a node created in the top session, the node is destroyed;
      otherwise it moves to the removed list. */
  function RemovedState(st: State, h: Handle): State
    requires h in st.nodes
  {
    if st.sessions == [] || st.nodes[h].item.id >= Top(st).nextId then
      st.(nodes := st.nodes - {h}, main := st.main - {h})
    else
      st.(nodes := st.nodes[h := st.nodes[h].(erased := true)], main := st.main - {h},
          sessions := Lower(st) + [Top(st).(removed := [h] + Top(st).removed)])
  }

  lemma {:induction false} RemoveKeepsUndo(st: State, h: Handle)
    requires st.sessions != [] && h in st.main && h in st.nodes && !st.nodes[h].erased
    requires RemovedOk(st)
    ensures UndoTop(RemovedState(st, h)) == UndoTop(st)
  {
    var st' := RemovedState(st, h);
    hide Oldest;
    assert Lower(st') == Lower(st);
    assert Reach(st') == if st.nodes[h].item.id >= Top(st).nextId then Reach(st) - {h} else Reach(st);
    SameUndo(st, st');
  }

  lemma {:induction false} RemoveTableOk(n: nat, st: State, h: Handle)
    requires TableOk(n, st) && h in st.main
    ensures TableOk(n, RemovedState(st, h))
  {
  }

  lemma {:induction false} RemoveRemovedOk(n: nat, st: State, h: Handle)
    requires TableOk(n, st) && st.sessions != [] && RemovedOk(st) && h in st.main
    ensures RemovedOk(RemovedState(st, h))
  {
    var s := Top(st);
    assert Reach(RemovedState(st, h)) == if st.nodes[h].item.id >= s.nextId then Reach(st) - {h} else Reach(st);
    assert h in Reach(st);
  }

  lemma {:induction false} RemoveOldsOk(n: nat, st: State, h: Handle)
    requires TableOk(n, st) && st.sessions != [] && OldsOk(st) && h in st.main
    ensures OldsOk(RemovedState(st, h))
  {
    var s := Top(st);
    assert Reach(RemovedState(st, h)) == if st.nodes[h].item.id >= s.nextId then Reach(st) - {h} else Reach(st);
  }

  lemma {:induction false} RemoveKeepsInv(n: nat, mono: nat, st: State, h: Handle)
    requires Inv(n, st) && Stamped(mono, st) && h in st.main
    ensures var st' := RemovedState(st, h);
      && Inv(n, st') && Stamped(mono, st') && (st.sessions != [] ==> UndoTop(st') == UndoTop(st))
  {
    assert TableOk(n, st) && h in st.nodes && !st.nodes[h].erased;
    assert st.sessions != [] ==> SessionOk(st) && Inv(n, UndoTop(st));
    hide UndoTop, RemovedOk, OldsOk, StampsOk, TableOk, Stamped;
    RemoveTableOk(n, st, h);
    RemoveStamped(mono, st, h);
    if st.sessions != [] {
      RemoveKeepsUndo(st, h);
      RemoveRemovedOk(n, st, h);
      RemoveOldsOk(n, st, h);
      RemoveStampsOk(n, st, h);
    }
  }

  lemma {:induction false} RemoveStamped(mono: nat, st: State, h: Handle)
    requires Stamped(mono, st) && h in st.nodes
    ensures Stamped(mono, RemovedState(st, h))
  {
  }

  lemma {:induction false} RemoveStampsOk(n: nat, st: State, h: Handle)
    requires st.sessions != [] && StampsOk(st) && h in st.main && h in st.nodes && UndoTop(RemovedState(st, h)) == UndoTop(st)
    ensures StampsOk(RemovedState(st, h))
  {
    hide UndoTop;
  }

  lemma {:induction false} RemoveNode(n: nat, mono: nat, st: State, h: Handle)
    requires Inv(n, st) && Stamped(mono, st) && h in st.main
    ensures var st' := RemovedState(st, h);
      && Inv(n, st') && Stamped(mono, st')
      && Table(st') == Table(st) - {st.nodes[h].item.id}
      && SnapshotsOf(st') == SnapshotsOf(st)
  {
    var st' := RemovedState(st, h);
    assert DistinctIds(st.nodes, st.main);
    hide ContentsOf, SessionOk, UndoTop, Inv, Stamped, TableOk, DistinctIds, SnapshotsOf, Table;
    RemoveKeepsInv(n, mono, st, h);
    SameSnapshots(st, st');
    RemoveTable(st, h);
  }

  lemma {:induction false} RemoveTable(st: State, h: Handle)
    requires DistinctIds(st.nodes, st.main) && h in st.main && h in st.nodes
    ensures Table(RemovedState(st, h)) == Table(st) - {st.nodes[h].item.id}
  {
    var st' := RemovedState(st, h);
    assert st'.main == st.main - {h} && forall g :: g in st'.main ==> g in st'.nodes && st'.nodes[g] == st.nodes[g];
    hide ContentsOf, DistinctIds, RemovedState;
    ContentsRemove(st.nodes, st'.nodes, st.main, h);
  }

  // ---------------------------------------------------------------------------------------------
  // modify

  /** Inside a session a node not stamped since the session began is backed up first. */
  function ModifiedState(st: State, mono: nat, addr: nat, h: Handle, item: Object): State
    requires h in st.nodes
  {
    if st.sessions == [] || st.nodes[h].mtime >= Top(st).ctime then
      st.(nodes := st.nodes[h := st.nodes[h].(item := item)])
    else
      st.(nodes := st.nodes[h := st.nodes[h].(item := item, mtime := mono)],
          sessions := Lower(st) + [Top(st).(olds := [Old(addr, st.nodes[h].item, st.nodes[h].mtime, h)] + Top(st).olds)])
  }

  lemma {:induction false} ModifyKeepsUndo(st: State, mono: nat, addr: nat, h: Handle, item: Object)
    requires st.sessions != [] && h in st.main && h in st.nodes && item.id == st.nodes[h].item.id
    requires StampsOk(st)
    ensures UndoTop(ModifiedState(st, mono, addr, h, item)) == UndoTop(st)
  {
    if st.nodes[h].mtime >= Top(st).ctime && Survives(st, h) {
      assert h in UndoTop(st).main;
    }
    hide Oldest, UndoTop, StampsOk;
    ModifyOfBackedUp(st, mono, addr, h, item);
  }

  /** What matters is that a node stamped in the session, and older than it, has a backup in it. */
  lemma {:induction false} ModifyOfBackedUp(st: State, mono: nat, addr: nat, h: Handle, item: Object)
    requires st.sessions != [] && h in st.main && h in st.nodes && item.id == st.nodes[h].item.id
    requires st.nodes[h].mtime >= Top(st).ctime && Survives(st, h) ==> Oldest(Top(st).olds, Top(st).ctime, h).Some?
    ensures UndoTop(ModifiedState(st, mono, addr, h, item)) == UndoTop(st)
  {
    var st' := ModifiedState(st, mono, addr, h, item);
    hide Oldest, UndoTop;
    ModifySurvives(st, mono, addr, h, item);
    hide Survives, Reach, Restore, ModifiedState;
    forall g | Survives(st, g) && g in st.nodes
      ensures Restore(Top(st'), g, st'.nodes[g]) == Restore(Top(st), g, st.nodes[g])
    {
      ModifyKeepsNode(st, mono, addr, h, item, g);
    }
    SameUndo(st, st');
  }

  lemma {:induction false} ModifySurvives(st: State, mono: nat, addr: nat, h: Handle, item: Object)
    requires st.sessions != [] && h in st.main && h in st.nodes && item.id == st.nodes[h].item.id
    ensures var st' := ModifiedState(st, mono, addr, h, item);
      && st'.nodes.Keys == st.nodes.Keys && st'.sessions != []
      && Lower(st') == Lower(st) && Top(st').nextId == Top(st).nextId
      && Reach(st') == Reach(st)
      && (forall g :: Survives(st', g) <==> Survives(st, g))
      && (forall g :: Survives(st, g) ==> g in st.nodes)
  {
  }

  lemma {:induction false} ModifyKeepsNode(st: State, mono: nat, addr: nat, h: Handle, item: Object, g: Handle)
    requires st.sessions != [] && h in st.nodes && g in st.nodes
    requires st.nodes[h].mtime >= Top(st).ctime && g == h ==> Oldest(Top(st).olds, Top(st).ctime, h).Some?
    ensures var st' := ModifiedState(st, mono, addr, h, item);
      Restore(Top(st'), g, st'.nodes[g]) == Restore(Top(st), g, st.nodes[g])
  {
    var s, s' := Top(st), Top(ModifiedState(st, mono, addr, h, item));
    if st.nodes[h].mtime < s.ctime {
      OldestAppend([s'.olds[0]], s.olds, s.ctime, g);
    }
  }

  lemma {:induction false} ModifyTableOk(n: nat, st: State, mono: nat, addr: nat, h: Handle, item: Object)
    requires TableOk(n, st) && h in st.main && item.id == st.nodes[h].item.id && FitsNodes(n, st, item)
    ensures TableOk(n, ModifiedState(st, mono, addr, h, item))
  {
  }

  lemma {:induction false} ModifyRemovedOk(st: State, mono: nat, addr: nat, h: Handle, item: Object)
    requires st.sessions != [] && RemovedOk(st)
    requires h in st.main && h in st.nodes && item.id == st.nodes[h].item.id
    ensures RemovedOk(ModifiedState(st, mono, addr, h, item))
  {
    assert Reach(ModifiedState(st, mono, addr, h, item)) == Reach(st);
  }

  lemma {:induction false} ModifyOldsOk(st: State, mono: nat, addr: nat, h: Handle, item: Object)
    requires st.sessions != [] && OldsOk(st) && NewStamped(st) && Stamped(mono, st)
    requires h in st.main && h in st.nodes && item.id == st.nodes[h].item.id
    ensures OldsOk(ModifiedState(st, mono, addr, h, item))
  {
    hide UndoTop;
    assert Reach(ModifiedState(st, mono, addr, h, item)) == Reach(st);
  }

  lemma {:induction false} ModifyStampsOk(st: State, mono: nat, addr: nat, h: Handle, item: Object)
    requires st.sessions != [] && StampsOk(st) && Stamped(mono, st)
    requires h in st.main && h in st.nodes && item.id == st.nodes[h].item.id
    requires UndoTop(ModifiedState(st, mono, addr, h, item)) == UndoTop(st)
    ensures StampsOk(ModifiedState(st, mono, addr, h, item))
  {
    hide UndoTop;
  }

  lemma {:induction false} ModifyStamped(st: State, mono: nat, addr: nat, h: Handle, item: Object)
    requires Stamped(mono, st) && h in st.nodes
    ensures Stamped(mono, ModifiedState(st, mono, addr, h, item))
  {
  }

  lemma {:induction false} ModifyKeepsInv(n: nat, mono: nat, st: State, addr: nat, h: Handle, item: Object)
    requires Inv(n, st) && Stamped(mono, st) && h in st.main
    requires item.id == st.nodes[h].item.id && FitsNodes(n, st, item)
    ensures var st' := ModifiedState(st, mono, addr, h, item);
      && Inv(n, st') && Stamped(mono, st') && (st.sessions != [] ==> UndoTop(st') == UndoTop(st))
  {
    assert h in st.nodes;
    assert TableOk(n, st) && (st.sessions != [] ==> SessionOk(st) && Inv(n, UndoTop(st)));
    var st' := ModifiedState(st, mono, addr, h, item);
    hide UndoTop, RemovedOk, OldsOk, StampsOk, FitsNodes, TableOk, Stamped;
    ModifyStamped(st, mono, addr, h, item);
    ModifyTableOk(n, st, mono, addr, h, item);
    if st.sessions != [] {
      ModifyKeepsUndo(st, mono, addr, h, item);
      ModifyRemovedOk(st, mono, addr, h, item);
      ModifyOldsOk(st, mono, addr, h, item);
      ModifyStampsOk(st, mono, addr, h, item);
    }
  }

  lemma {:induction false} ModifyNode(n: nat, mono: nat, st: State, addr: nat, h: Handle, item: Object)
    requires Inv(n, st) && Stamped(mono, st) && h in st.main
    requires item.id == st.nodes[h].item.id && Fits(n, Table(st), item)
    ensures var st' := ModifiedState(st, mono, addr, h, item);
      && Inv(n, st') && Stamped(mono, st')
      && Table(st') == Table(st)[item.id := item]
      && SnapshotsOf(st') == SnapshotsOf(st)
  {
    assert DistinctIds(st.nodes, st.main) && h in st.nodes;
    hide ContentsOf, SessionOk, UndoTop, Inv, Stamped, TableOk, DistinctIds, SnapshotsOf, Fits, FitsNodes;
    var st' := ModifiedState(st, mono, addr, h, item);
    FitsTable(n, st, item);
    ModifyKeepsInv(n, mono, st, addr, h, item);
    SameSnapshots(st, st');
    ModifyTable(st, mono, addr, h, item);
  }

  lemma {:induction false} ModifyTable(st: State, mono: nat, addr: nat, h: Handle, item: Object)
    requires DistinctIds(st.nodes, st.main) && h in st.main && h in st.nodes && item.id == st.nodes[h].item.id
    ensures Table(ModifiedState(st, mono, addr, h, item)) == Table(st)[item.id := item]
  {
    hide ContentsOf;
    var st' := ModifiedState(st, mono, addr, h, item);
    assert st'.nodes.Keys == st.nodes.Keys && st'.nodes[h].item == item;
    ContentsUpdate(st.nodes, st'.nodes, st.main, h);
  }
}
