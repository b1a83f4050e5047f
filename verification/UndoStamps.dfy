/** States that differ in their stamps alone.  A reverted modify leaves a stamp too high; that shows
    in nothing but in what the next modify of the same object does. */
module UndoStamps {
  import opened Objects
  import opened Snapshots
  import opened UndoSessions
  import opened UndoSquash
  import opened UndoCompress
  import opened UndoCommit

  /** `st` is `st0` with some stamps raised. */
  ghost predicate Aged(st0: State, st: State) {
    && st.main == st0.main && st.nextId == st0.nextId && st.sessions == st0.sessions
    && st.nodes.Keys == st0.nodes.Keys
    && forall h :: h in st0.nodes ==> SameButStamp(st0.nodes[h], st.nodes[h])
  }

  predicate SameButStamp(a: Node, b: Node) {
    a.item == b.item && a.erased == b.erased && a.mtime <= b.mtime
  }

  /** What undo needs of the state it starts from, and what even a wrong stamp leaves intact. */
  ghost predicate Undoable(n: nat, st: State) {
    && n >= 1
    && TableOk(n, st)
    && (st.sessions != [] ==> RemovedOk(st) && OldsOk(st) && NewStamped(st))
  }

  lemma {:induction false} AgedUndo(st0: State, st: State)
    requires Aged(st0, st) && st0.sessions != []
    ensures Aged(UndoTop(st0), UndoTop(st))
  {
    hide Oldest;
    assert UndoTop(st).main == UndoTop(st0).main;
  }

  lemma {:induction false} AgedTable(n: nat, st0: State, st: State)
    requires Aged(st0, st) && TableOk(n, st0)
    ensures TableOk(n, st)
  {
  }

  lemma {:induction false} AgedUndoable(n: nat, st0: State, st: State)
    requires Aged(st0, st) && Inv(n, st0)
    ensures Undoable(n, st)
    ensures st.sessions != [] ==> TableOk(n, UndoTop(st))
  {
    AgedTable(n, st0, st);
    if st.sessions != [] {
      assert TableOk(n, UndoTop(st0));
      AgedUndo(st0, st);
      AgedTable(n, UndoTop(st0), UndoTop(st));
      hide UndoTop, TableOk, Inv;
      assert Reach(st) == Reach(st0);
      assert RemovedOk(st) by { hide OldsOk; }
      assert OldsOk(st) by { hide RemovedOk; }
    }
  }

  /** Stamps show neither in the table nor in any snapshot. */
  lemma {:induction false} AgedView(n: nat, st0: State, st: State)
    requires Aged(st0, st) && Inv(n, st0)
    ensures Table(st) == Table(st0) && SnapshotsOf(st) == SnapshotsOf(st0)
    decreases |st0.sessions|
  {
    assert TableOk(n, st0);
    ContentsFrame(st0.nodes, st.nodes, st0.main);
    hide ContentsOf, TableOk, SessionOk;
    if st0.sessions != [] {
      AgedUndo(st0, st);
      hide UndoTop;
      assert |UndoTop(st0).sessions| < |st0.sessions| by { UndoLower(st0); }
      AgedView(n, UndoTop(st0), UndoTop(st));
    }
  }

  // ---------------------------------------------------------------------------------------------
  // The same call on both

  lemma {:induction false} AgedStart(st0: State, st: State, ctime: nat)
    requires Aged(st0, st)
    ensures Aged(StartedState(st0, ctime), StartedState(st, ctime))
  {
  }

  lemma {:induction false} AgedEmplace(st0: State, st: State, h: Handle, node: Node)
    requires Aged(st0, st)
    ensures Aged(EmplacedState(st0, h, node), EmplacedState(st, h, node))
  {
  }

  lemma {:induction false} AgedRemove(st0: State, st: State, h: Handle)
    requires Aged(st0, st) && h in st0.nodes
    ensures Aged(RemovedState(st0, h), RemovedState(st, h))
  {
  }

  lemma {:induction false} AgedModify(st0: State, st: State, mono: nat, addr: nat, h: Handle, item: Object)
    requires Aged(st0, st) && h in st0.nodes && st0.nodes[h].mtime == st.nodes[h].mtime
    ensures Aged(ModifiedState(st0, mono, addr, h, item), ModifiedState(st, mono, addr, h, item))
  {
  }

  lemma {:induction false} AgedMerge(st0: State, st: State)
    requires Aged(st0, st) && |st0.sessions| >= 2
    ensures Aged(MergedState(st0), MergedState(st))
  {
  }

  lemma {:induction false} AgedErased(st0: State, st: State, h: Handle)
    requires Aged(st0, st)
    ensures IsErased(st0.nodes, h) == IsErased(st.nodes, h)
  {
  }

  lemma {:induction false} AgedKept(st0: State, st: State, olds: seq<Old>, removed: seq<Handle>, ctime: nat, nextId: nat)
    requires Aged(st0, st)
    ensures KeptOlds(st.nodes, olds, ctime) == KeptOlds(st0.nodes, olds, ctime)
    ensures KeptRemoved(st.nodes, removed, nextId) == KeptRemoved(st0.nodes, removed, nextId)
    decreases |olds| + |removed|
  {
    if olds != [] {
      AgedErased(st0, st, olds[|olds| - 1].cur);
      AgedKept(st0, st, olds[..|olds| - 1], [], ctime, nextId);
    }
    if removed != [] {
      AgedKept(st0, st, [], removed[..|removed| - 1], ctime, nextId);
    }
  }

  lemma {:induction false} AgedCompress(st0: State, st: State, i: nat, r: nat)
    requires Aged(st0, st) && CanCompress(st0, i, r) && CanCompress(st, i, r)
    ensures Aged(CompressedState(st0, i, r), CompressedState(st, i, r))
  {
    var s := Top(st0);
    AgedKept(st0, st, s.olds[..i], s.removed[..r], s.ctime, s.nextId);
    hide KeptOlds, KeptRemoved, Oldest;
  }

  lemma {:induction false} AgedCommit(st0: State, st: State, j: nat, gone: set<Handle>)
    requires Aged(st0, st) && j <= |st0.sessions|
    ensures Aged(CommittedState(st0, j, gone), CommittedState(st, j, gone))
  {
  }

  /** Compression leaves the nodes of the table alone. */
  lemma {:induction false} CompressedMain(n: nat, st: State, i: nat, r: nat)
    requires CanCompress(st, i, r) && Undoable(n, st)
    ensures forall h :: h in st.main ==> h in CompressedState(st, i, r).nodes && h in st.nodes && CompressedState(st, i, r).nodes[h] == st.nodes[h]
  {
    assert RemovedOk(st) && TableOk(n, st);
    hide OldsOk, NewStamped, KeptOlds, KeptRemoved, Oldest;
    forall h | h in st.main
      ensures h in CompressedState(st, i, r).nodes && h in st.nodes && CompressedState(st, i, r).nodes[h] == st.nodes[h]
    {
      assert h !in Top(st).removed && h !in Top(st).removed[..r];
    }
  }

  // ---------------------------------------------------------------------------------------------
  // Trust

  function Restamped(st: State, h: Handle, mtime: nat): State
    requires h in st.nodes
  {
    st.(nodes := st.nodes[h := st.nodes[h].(mtime := mtime)])
  }

  /** No session was started between the two stamps. */
  predicate SameSide(sessions: seq<Session>, low: nat, high: nat) {
    forall k :: 0 <= k < |sessions| && sessions[k].ctime <= high ==> sessions[k].ctime <= low
  }

  /** A node whose stamp is older than the session has no backup in it. */
  lemma {:induction false} NoBackup(st: State, h: Handle)
    requires st.sessions != [] && OldsOk(st) && h in st.nodes && st.nodes[h].mtime < Top(st).ctime
    ensures Oldest(Top(st).olds, Top(st).ctime, h) == None
  {
    OldestIs(Top(st).olds, Top(st).ctime, h);
    hide Oldest;
  }

  /** Undo passes the stamp of such a node on, whatever it is. */
  lemma {:induction false} RestampUndo(st: State, h: Handle, mtime: nat)
    requires st.sessions != [] && h in st.nodes && Oldest(Top(st).olds, Top(st).ctime, h) == None
    ensures UndoTop(Restamped(st, h, mtime)).main == UndoTop(st).main
    ensures h in UndoTop(st).nodes ==>
      && UndoTop(st).nodes[h].mtime == st.nodes[h].mtime
      && UndoTop(Restamped(st, h, mtime)) == Restamped(UndoTop(st), h, mtime)
    ensures h !in UndoTop(st).nodes ==> UndoTop(Restamped(st, h, mtime)) == UndoTop(st)
  {
    var st' := Restamped(st, h, mtime);
    assert Restore(Top(st), h, st.nodes[h].(mtime := mtime)) == Restore(Top(st), h, st.nodes[h]).(mtime := mtime);
    assert Restore(Top(st), h, st.nodes[h]).mtime == st.nodes[h].mtime;
    RestampSurvives(st, h, mtime);
    hide Restore, Survives, Reach;
    assert UndoTop(st').main == UndoTop(st).main;
    if h in UndoTop(st).nodes {
      assert UndoTop(st').nodes == UndoTop(st).nodes[h := UndoTop(st).nodes[h].(mtime := mtime)];
    } else {
      assert UndoTop(st').nodes == UndoTop(st).nodes;
    }
  }

  /** A node of the table that the session has stamped is created in it or has a backup in it. */
  lemma {:induction false} StampedReplaced(st: State, h: Handle)
    requires st.sessions != [] && StampsOk(st) && h in st.main && h in st.nodes && st.nodes[h].mtime >= Top(st).ctime
    ensures Survives(st, h) ==> Oldest(Top(st).olds, Top(st).ctime, h).Some?
  {
    if Survives(st, h) {
      assert h in UndoTop(st).main;
    }
  }

  /** Undo does not see the stamp of such a node. */
  lemma {:induction false} RestampLost(st: State, h: Handle, mtime: nat)
    requires st.sessions != [] && h in st.nodes && (Survives(st, h) ==> Oldest(Top(st).olds, Top(st).ctime, h).Some?)
    ensures UndoTop(Restamped(st, h, mtime)) == UndoTop(st)
  {
    var st' := Restamped(st, h, mtime);
    RestampSurvives(st, h, mtime);
    assert Survives(st, h) ==> Restore(Top(st), h, st.nodes[h].(mtime := mtime)) == Restore(Top(st), h, st.nodes[h]);
    hide Restore, Survives, Reach;
    SameUndo(st, st');
  }

  lemma {:induction false} RestampSurvives(st: State, h: Handle, mtime: nat)
    requires st.sessions != [] && h in st.nodes
    ensures var st' := Restamped(st, h, mtime);
      && Reach(st') == Reach(st) && (forall g :: Survives(st', g) <==> Survives(st, g))
      && (forall g :: Survives(st, g) ==> g in st.nodes)
  {
    assert Reach(Restamped(st, h, mtime)) == Reach(st);
  }

  /** A stamp that is too high spoils neither list. */
  lemma {:induction false} RestampLists(st: State, h: Handle, mtime: nat)
    requires st.sessions != [] && OldsOk(st) && RemovedOk(st) && h in st.nodes && st.nodes[h].mtime <= mtime
    ensures OldsOk(Restamped(st, h, mtime)) && RemovedOk(Restamped(st, h, mtime))
  {
    var st' := Restamped(st, h, mtime);
    assert Reach(st') == Reach(st);
    assert RemovedOk(st') by { hide OldsOk; }
    assert OldsOk(st') by { hide RemovedOk; }
  }

  lemma {:induction false} RestampStampsOk(st: State, h: Handle, mtime: nat)
    requires st.sessions != [] && OldsOk(st) && StampsOk(st) && h in st.main && h in st.nodes && st.nodes[h].mtime <= mtime
    requires mtime < Top(st).ctime || Top(st).ctime <= st.nodes[h].mtime
    ensures StampsOk(Restamped(st, h, mtime))
  {
    if mtime < Top(st).ctime {
      NoBackup(st, h);
      RestampUndo(st, h, mtime);
    } else {
      StampedReplaced(st, h);
      RestampLost(st, h, mtime);
    }
    hide UndoTop, OldsOk, Oldest;
  }

  lemma {:induction false} RestampTableOk(n: nat, st: State, h: Handle, mtime: nat)
    requires TableOk(n, st) && h in st.nodes
    ensures TableOk(n, Restamped(st, h, mtime))
  {
  }

  /** A node of the table that is older than the session stays in it. */
  lemma {:induction false} UndoKeeps(st: State, h: Handle)
    requires st.sessions != [] && NewStamped(st) && h in st.main && h in st.nodes && st.nodes[h].mtime < Top(st).ctime
    ensures h in UndoTop(st).main && h in UndoTop(st).nodes
  {
  }

  /** A stamp may be any other that no session was started between. */
  lemma {:induction false} RestampKeepsInv(n: nat, st: State, h: Handle, mtime: nat)
    requires Inv(n, st) && h in st.main && h in st.nodes && st.nodes[h].mtime <= mtime && SameSide(st.sessions, st.nodes[h].mtime, mtime)
    ensures Inv(n, Restamped(st, h, mtime))
    decreases |st.sessions|
  {
    assert TableOk(n, st) && (st.sessions != [] ==> SessionOk(st) && Inv(n, UndoTop(st)));
    assert st.sessions != [] ==> NewStamped(st);
    hide UndoTop, TableOk, RemovedOk, OldsOk, StampsOk, NewStamped, Restamped;
    RestampTableOk(n, st, h, mtime);
    RestampKeepsLists(st, h, mtime);
    if st.sessions != [] {
      RestampLists(st, h, mtime);
      RestampStampsOk(st, h, mtime);
      if mtime < Top(st).ctime {
        NoBackup(st, h);
        RestampUndo(st, h, mtime);
        UndoKeeps(st, h);
        UndoLower(st);
        RestampKeepsInv(n, UndoTop(st), h, mtime);
      } else {
        StampedReplaced(st, h);
        RestampLost(st, h, mtime);
      }
    }
  }

  lemma {:induction false} RestampKeepsLists(st: State, h: Handle, mtime: nat)
    requires h in st.nodes
    ensures Restamped(st, h, mtime).sessions == st.sessions
  {
  }

  /** The stamp of `h` is right, or too high but not beyond the start of an open session. */
  ghost predicate Trusted(st0: State, st: State, h: Handle)
    requires h in st0.nodes && h in st.nodes
  {
    SameSide(st.sessions, st0.nodes[h].mtime, st.nodes[h].mtime)
  }

  /** A trusted stamp can be made right without anything else changing. */
  lemma {:induction false} MakeRight(n: nat, mono: nat, st0: State, st: State, h: Handle)
    requires Inv(n, st0) && Stamped(mono, st0) && Stamped(mono, st) && Aged(st0, st) && h in st0.main && h in st0.nodes
    requires Trusted(st0, st, h)
    ensures var st1 := Restamped(st0, h, st.nodes[h].mtime);
      Inv(n, st1) && Stamped(mono, st1) && Aged(st1, st)
  {
    hide Inv;
    RestampKeepsInv(n, st0, h, st.nodes[h].mtime);
  }

  // ---------------------------------------------------------------------------------------------
  // Modify where stamps cannot be trusted

  lemma {:induction false} ModifyUndoable(n: nat, mono: nat, st: State, addr: nat, h: Handle, item: Object)
    requires Undoable(n, st) && Stamped(mono, st) && h in st.main && h in st.nodes
    requires item.id == st.nodes[h].item.id && FitsNodes(n, st, item)
    ensures Undoable(n, ModifiedState(st, mono, addr, h, item)) && Stamped(mono, ModifiedState(st, mono, addr, h, item))
  {
    var st' := ModifiedState(st, mono, addr, h, item);
    ModifyStamped(st, mono, addr, h, item);
    ModifyTableOk(n, st, mono, addr, h, item);
    if st.sessions != [] {
      ModifyRemovedOk(st, mono, addr, h, item);
      ModifyOldsOk(st, mono, addr, h, item);
      hide RemovedOk, OldsOk, TableOk, FitsNodes;
    }
  }

  lemma {:induction false} RaisedUndoable(n: nat, mono: nat, st: State, h: Handle)
    requires Undoable(n, st) && Stamped(mono, st) && h in st.main && h in st.nodes
    ensures Undoable(n, Restamped(st, h, mono)) && Stamped(mono, Restamped(st, h, mono))
  {
    var st' := Restamped(st, h, mono);
    if st.sessions != [] {
      RestampLists(st, h, mono);
    }
    hide RemovedOk, OldsOk;
    assert TableOk(n, st') by { hide Stamped, NewStamped; }
    hide TableOk;
  }

  /** The state after every session is undone. */
  ghost function AllUndone(st: State): State
    decreases |st.sessions|
  {
    if st.sessions == [] then st
    else
      UndoLower(st);
      AllUndone(UndoTop(st))
  }

  /** Some nodes are gone and the others as they were. */
  ghost predicate PartOf(part: State, st: State) {
    part.main <= st.main && part.nodes.Keys <= st.nodes.Keys && forall h :: h in part.nodes ==> part.nodes[h] == st.nodes[h]
  }

  // ---------------------------------------------------------------------------------------------
  // The shadow

  /** `st0` is the state the container would be in had no modify ever been reverted. */
  ghost predicate Shadow(n: nat, mono: nat, st0: State, st: State) {
    Inv(n, st0) && Stamped(mono, st0) && Aged(st0, st) && Stamped(mono, st)
  }

  /** What a client sees of a container is what it would see of its shadow. */
  lemma {:induction false} ShadowView(n: nat, mono: nat, st0: State, st: State)
    requires Shadow(n, mono, st0, st)
    ensures Undoable(n, st) && Stamped(mono, st)
    ensures st.sessions != [] ==> TableOk(n, UndoTop(st))
    ensures Table(st) == Table(st0) && SnapshotsOf(st) == SnapshotsOf(st0)
    ensures st.main == st0.main && st.nextId == st0.nextId && st.sessions == st0.sessions && st.nodes.Keys == st0.nodes.Keys
  {
    assert Inv(n, st0) && Aged(st0, st);
    hide Inv, Undoable, SnapshotsOf, Table;
    AgedUndoable(n, st0, st);
    AgedView(n, st0, st);
  }

  lemma {:induction false} StartKeeps(mono: nat, st: State, ctime: nat)
    requires Stamped(mono, st) && mono <= ctime
    ensures Stamped(ctime, StartedState(st, ctime)) && Table(StartedState(st, ctime)) == Table(st)
  {
    hide ContentsOf;
  }

  lemma {:induction false} ShadowStart(n: nat, mono: nat, st0: State, st: State)
    requires Shadow(n, mono, st0, st)
    ensures var st1, st' := StartedState(st0, mono + 1), StartedState(st, mono + 1);
      && Shadow(n, mono + 1, st1, st')
      && Table(st') == Table(st) && SnapshotsOf(st') == SnapshotsOf(st) + [Snapshot(Table(st), st.nextId)]
  {
    var st1, st' := StartedState(st0, mono + 1), StartedState(st, mono + 1);
    hide Inv, SnapshotsOf, Table, UndoTop, Aged, Stamped, StartedState;
    StartKeeps(mono, st0, mono + 1);
    StartKeeps(mono, st, mono + 1);
    StartSession(n, mono, st0);
    AgedStart(st0, st, mono + 1);
    ShadowView(n, mono, st0, st);
    ShadowView(n, mono + 1, st1, st');
  }

  lemma {:induction false} SecondStamp(n: nat, mono: nat, st: State)
    requires Inv(n, st) && Stamped(mono, st) && |st.sessions| >= 2
    ensures st.sessions[|st.sessions| - 2].ctime <= mono
  {
    hide TableOk, UndoTop, RemovedOk, OldsOk;
  }

  lemma {:induction false} ShadowUndo(n: nat, mono: nat, st0: State, st: State, revision: int)
    requires Shadow(n, mono, st0, st) && st0.sessions != []
    ensures Shadow(n, mono, UndoTop(st0), UndoTop(st))
    ensures ViewOf(UndoTop(st), revision - 1) == Undone(ViewOf(st, revision))
  {
    hide Inv, SnapshotsOf, Table, UndoTop, Stamped, Aged;
    if |st0.sessions| >= 2 {
      SecondStamp(n, mono, st0);
    }
    UndoSession(n, mono, st0, revision);
    ShadowView(n, mono, st0, st);
    AgedUndo(st0, st);
    UndoneStamps(mono, st);
    ShadowView(n, mono, UndoTop(st0), UndoTop(st));
  }

  lemma {:induction false} ShadowEmplace(n: nat, mono: nat, st0: State, st: State, h: Handle, node: Node)
    requires Shadow(n, mono, st0, st) && h !in st.nodes && node.item.id >= st.nextId && !node.erased
    requires if st.sessions == [] then node.mtime <= mono else node.mtime == mono
    requires Fits(n, Table(st), node.item)
    ensures var st1, st' := EmplacedState(st0, h, node), EmplacedState(st, h, node);
      && Shadow(n, mono, st1, st')
      && Table(st') == Table(st)[node.item.id := node.item] && SnapshotsOf(st') == SnapshotsOf(st)
  {
    hide Inv, SnapshotsOf, Table, Fits;
    ShadowView(n, mono, st0, st);
    EmplaceNode(n, mono, st0, h, node);
    AgedEmplace(st0, st, h, node);
    ShadowView(n, mono, EmplacedState(st0, h, node), EmplacedState(st, h, node));
  }

  lemma {:induction false} ShadowRemove(n: nat, mono: nat, st0: State, st: State, h: Handle)
    requires Shadow(n, mono, st0, st) && h in st.main && h in st.nodes && h in st0.nodes
    ensures var st1, st' := RemovedState(st0, h), RemovedState(st, h);
      && Shadow(n, mono, st1, st')
      && Table(st') == Table(st) - {st.nodes[h].item.id} && SnapshotsOf(st') == SnapshotsOf(st)
  {
    hide Inv, SnapshotsOf, Table;
    ShadowView(n, mono, st0, st);
    RemoveNode(n, mono, st0, h);
    AgedRemove(st0, st, h);
    ShadowView(n, mono, RemovedState(st0, h), RemovedState(st, h));
  }

  lemma {:induction false} ShadowModify(n: nat, mono: nat, st0: State, st: State, addr: nat, h: Handle, item: Object)
    requires Shadow(n, mono, st0, st) && h in st.main && h in st.nodes && h in st0.nodes && Trusted(st0, st, h)
    requires item.id == st.nodes[h].item.id && Fits(n, Table(st), item)
    ensures var st1, st' := ModifiedState(Restamped(st0, h, st.nodes[h].mtime), mono, addr, h, item), ModifiedState(st, mono, addr, h, item);
      && Shadow(n, mono, st1, st')
      && Table(st') == Table(st)[item.id := item] && SnapshotsOf(st') == SnapshotsOf(st)
  {
    hide Inv, SnapshotsOf, Table, Fits, Trusted;
    var st1 := Restamped(st0, h, st.nodes[h].mtime);
    ShadowView(n, mono, st0, st);
    MakeRight(n, mono, st0, st, h);
    hide Stamped, Aged;
    ShadowView(n, mono, st1, st);
    ModifyNode(n, mono, st1, addr, h, item);
    AgedModify(st1, st, mono, addr, h, item);
    ModifyStamped(st, mono, addr, h, item);
    ShadowView(n, mono, ModifiedState(st1, mono, addr, h, item), ModifiedState(st, mono, addr, h, item));
  }

  /** All that undo does for a client. */
  lemma {:induction false} UndoOutcome(n: nat, mono: nat, st0: State, st: State, revision: int)
    requires Shadow(n, mono, st0, st) && st.sessions != []
    ensures st0.sessions != [] && Shadow(n, mono, UndoTop(st0), UndoTop(st))
    ensures Undoable(n, UndoTop(st)) && Stamped(mono, UndoTop(st))
    ensures ViewOf(UndoTop(st), revision - 1) == Undone(ViewOf(st, revision))
  {
    hide Shadow, UndoTop, Undoable, Stamped, ViewOf;
    ShadowView(n, mono, st0, st);
    ShadowUndo(n, mono, st0, st, revision);
    ShadowView(n, mono, UndoTop(st0), UndoTop(st));
  }

  lemma {:induction false} ShadowMerge(n: nat, mono: nat, st0: State, st: State, revision: int)
    requires Shadow(n, mono, st0, st) && |st0.sessions| >= 2
    ensures Shadow(n, mono, MergedState(st0), MergedState(st))
    ensures ViewOf(MergedState(st), revision - 1) == Squashed(ViewOf(st, revision))
  {
    hide Inv, SnapshotsOf, Table;
    SquashTwo(n, mono, st0, revision);
    AgedMerge(st0, st);
    ShadowView(n, mono, st0, st);
    ShadowView(n, mono, MergedState(st0), MergedState(st));
  }

  lemma {:induction false} ShadowCompress(n: nat, mono: nat, st0: State, st: State, i: nat, r: nat, revision: int)
    requires Shadow(n, mono, st0, st) && CanCompress(st0, i, r) && CanCompress(st, i, r)
    ensures Shadow(n, mono, CompressedState(st0, i, r), CompressedState(st, i, r))
    ensures ViewOf(CompressedState(st, i, r), revision) == ViewOf(st, revision)
  {
    hide Inv, SnapshotsOf, Table, CompressedState;
    CompressSession(n, mono, st0, i, r, revision);
    AgedCompress(st0, st, i, r);
    CompressStamped(mono, st, i, r);
    ShadowView(n, mono, st0, st);
    ShadowView(n, mono, CompressedState(st0, i, r), CompressedState(st, i, r));
  }

  lemma {:induction false} SameForgettable(st0: State, st: State, j: nat, gone: set<Handle>)
    requires Aged(st0, st) && Forgettable(st, j, gone)
    ensures Forgettable(st0, j, gone)
  {
  }

  lemma {:induction false} CommittedStamped(mono: nat, st: State, j: nat, gone: set<Handle>)
    requires Stamped(mono, st) && j <= |st.sessions|
    ensures Stamped(mono, CommittedState(st, j, gone))
  {
  }

  lemma {:induction false} ShadowCommit(n: nat, mono: nat, st0: State, st: State, j: nat, gone: set<Handle>)
    requires Shadow(n, mono, st0, st) && Forgettable(st, j, gone) && j <= |st0.sessions| && j <= |st.sessions|
    ensures var st1, st' := CommittedState(st0, j, gone), CommittedState(st, j, gone);
      && Shadow(n, mono, st1, st') && Undoable(n, st') && Stamped(mono, st')
      && Table(st') == Table(st) && SnapshotsOf(st') == SnapshotsOf(st)[j..]
  {
    SameForgettable(st0, st, j, gone);
    hide Inv, SnapshotsOf, Table, Forgettable, Aged, Stamped, CommittedState, Undoable;
    CommittedStamped(mono, st, j, gone);
    CommitSessions(n, mono, st0, j, gone);
    AgedCommit(st0, st, j, gone);
    ShadowView(n, mono, st0, st);
    ShadowView(n, mono, CommittedState(st0, j, gone), CommittedState(st, j, gone));
  }
}
