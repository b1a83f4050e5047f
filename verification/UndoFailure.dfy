/** A modify that collides with another object.  With a backup in hand it puts the value back, but
    not the stamp; without one it destroys the object.  Inside a session either can spoil undo. */
module UndoFailure {
  import opened Objects
  import opened UndoSessions
  import opened UndoStamps
  import opened Snapshots

  /** A modify of `h` takes a backup, and so puts the value back if it collides. */
  predicate Reverts(st: State, h: Handle)
    requires h in st.nodes
  {
    st.sessions != [] && st.nodes[h].mtime < Top(st).ctime
  }

  /** The state after a modify of `h` has collided. */
  function FailedState(st: State, mono: nat, h: Handle): State
    requires h in st.nodes
  {
    if Reverts(st, h) then
      st.(nodes := st.nodes[h := st.nodes[h].(mtime := mono)])
    else
      st.(nodes := st.nodes - {h}, main := st.main - {h})
  }

  /** The object is merely gone: nothing that undo relies on was touched. */
  ghost predicate HarmlessFailure(st: State, h: Handle)
    requires h in st.nodes
  {
    st.sessions == [] || st.nodes[h].item.id >= Top(st).nextId
  }

  lemma {:induction false} BackedUp(st: State, h: Handle)
    requires st.sessions != [] && StampsOk(st) && h in st.main && h in st.nodes
    requires st.nodes[h].item.id < Top(st).nextId && st.nodes[h].mtime >= Top(st).ctime
    ensures exists o :: o in Top(st).olds && o.cur == h && o.mtime < Top(st).ctime
  {
    OldestIs(Top(st).olds, Top(st).ctime, h);
    hide Oldest;
    assert h in UndoTop(st).main;
  }

  /** Outside a session, or for an object created in the session, a failed modify is a remove. */
  lemma {:induction false} HarmlessIsRemove(n: nat, mono: nat, st: State, h: Handle)
    requires Inv(n, st) && Stamped(mono, st) && h in st.main && HarmlessFailure(st, h)
    ensures var st' := FailedState(st, mono, h);
      && st' == RemovedState(st, h)
      && Inv(n, st') && Stamped(mono, st')
      && Table(st') == Table(st) - {st.nodes[h].item.id}
      && SnapshotsOf(st') == SnapshotsOf(st)
  {
    assert FailedState(st, mono, h) == RemovedState(st, h) by {
      hide UndoTop, RemovedOk, OldsOk;
    }
    hide *;
    RemoveNode(n, mono, st, h);
  }

  /** A reverted modify leaves a stamp of the session on a node the session has no backup of. */
  lemma {:induction false} RevertedHasNoBackup(n: nat, mono: nat, st: State, h: Handle)
    requires Inv(n, st) && Stamped(mono, st) && st.sessions != [] && h in st.main
    requires st.nodes[h].item.id < Top(st).nextId && st.nodes[h].mtime < Top(st).ctime
    ensures !StampsOk(FailedState(st, mono, h))
  {
    var st' := FailedState(st, mono, h);
    OldestIs(Top(st).olds, Top(st).ctime, h);
    hide Oldest;
    assert h in UndoTop(st').main;
    assert UndoTop(st').nodes[h].mtime == mono;
  }

  /** A reverted modify shows neither in the table nor in any snapshot. */
  lemma {:induction false} RevertedKeepsView(n: nat, mono: nat, st: State, h: Handle)
    requires Inv(n, st) && Stamped(mono, st) && h in st.main && h in st.nodes && st.sessions != [] && st.nodes[h].mtime < Top(st).ctime
    ensures Table(FailedState(st, mono, h)) == Table(st) && SnapshotsOf(FailedState(st, mono, h)) == SnapshotsOf(st)
  {
    assert Aged(st, FailedState(st, mono, h));
    hide *;
    AgedView(n, st, FailedState(st, mono, h));
  }

  /** But the next modify takes no backup, and undo keeps its value, whatever it is. */
  lemma {:induction false} RevertedThenModified(n: nat, mono: nat, st: State, addr: nat, h: Handle, item: Object)
    requires Inv(n, st) && Stamped(mono, st) && st.sessions != [] && h in st.main
    requires st.nodes[h].item.id < Top(st).nextId && st.nodes[h].mtime < Top(st).ctime
    requires item.id == st.nodes[h].item.id
    ensures var st' := ModifiedState(FailedState(st, mono, h), mono, addr, h, item);
      && h in UndoTop(st').main && h in UndoTop(st').nodes && UndoTop(st').nodes[h].item == item
      && h in UndoTop(st).main && h in UndoTop(st).nodes && UndoTop(st).nodes[h].item == st.nodes[h].item
  {
    OldestIs(Top(st).olds, Top(st).ctime, h);
    hide Oldest;
  }

  /** Destroying a node that the session has a backup of leaves undo with a backup of nothing. */
  lemma {:induction false} DestroyedHasBackup(n: nat, mono: nat, st: State, h: Handle)
    requires Inv(n, st) && st.sessions != [] && h in st.main
    requires st.nodes[h].item.id < Top(st).nextId && st.nodes[h].mtime >= Top(st).ctime
    ensures var st' := FailedState(st, mono, h);
      && h !in st'.nodes
      && (exists o :: o in Top(st').olds && o.cur == h && o.mtime < Top(st').ctime)
      && !OldsOk(st')
  {
    BackedUp(st, h);
    hide UndoTop;
  }

  /** A failed modify keeps the invariant exactly when it is harmless. */
  lemma {:induction false} FailedModify(n: nat, mono: nat, st: State, h: Handle)
    requires Inv(n, st) && Stamped(mono, st) && h in st.main && h in st.nodes
    ensures Inv(n, FailedState(st, mono, h)) <==> HarmlessFailure(st, h)
  {
    if HarmlessFailure(st, h) {
      HarmlessIsRemove(n, mono, st, h);
    } else if st.nodes[h].mtime < Top(st).ctime {
      RevertedHasNoBackup(n, mono, st, h);
    } else {
      DestroyedHasBackup(n, mono, st, h);
    }
    hide UndoTop, TableOk, RemovedOk, OldsOk, StampsOk;
  }

  // ---------------------------------------------------------------------------------------------
  // The same where stamps cannot be trusted

  lemma {:induction false} ModifyFits(n: nat, mono: nat, st: State, addr: nat, h: Handle, item: Object)
    requires Undoable(n, st) && Stamped(mono, st) && h in st.main && h in st.nodes
    requires item.id == st.nodes[h].item.id && Fits(n, Table(st), item)
    ensures Undoable(n, ModifiedState(st, mono, addr, h, item)) && Stamped(mono, ModifiedState(st, mono, addr, h, item))
  {
    assert DistinctIds(st.nodes, st.main);
    hide Undoable, FitsNodes, Fits, Table;
    FitsTable(n, st, item);
    ModifyUndoable(n, mono, st, addr, h, item);
  }

  /** All that a modify does. */
  lemma {:induction false} ModifyOutcome(n: nat, mono: nat, st0: State, st: State, addr: nat, h: Handle, item: Object, revision: int)
    requires Undoable(n, st) && Stamped(mono, st) && h in st.main && h in st.nodes
    requires item.id == st.nodes[h].item.id && Fits(n, Table(st), item)
    ensures var st' := ModifiedState(st, mono, addr, h, item);
      && Undoable(n, st') && Stamped(mono, st') && st'.nodes.Keys == st.nodes.Keys && h in st'.nodes && st'.nodes[h].item == item
      && (Shadow(n, mono, st0, st) && h in st0.nodes && Trusted(st0, st, h) ==>
            && Shadow(n, mono, ModifiedState(Restamped(st0, h, st.nodes[h].mtime), mono, addr, h, item), st')
            && ViewOf(st', revision) == Modified(ViewOf(st, revision), item.id, item.fields))
      && (st0 == st ==> Restamped(st, h, st.nodes[h].mtime) == st)
  {
    hide Undoable, Stamped, Shadow, Table, SnapshotsOf, Fits, Trusted;
    ModifyFits(n, mono, st, addr, h, item);
    if Shadow(n, mono, st0, st) && h in st0.nodes && Trusted(st0, st, h) {
      ShadowModify(n, mono, st0, st, addr, h, item);
    }
  }

  /** A reverted modify spoils nothing that undo needs to run. */
  lemma {:induction false} FailedUsable(n: nat, mono: nat, st: State, h: Handle)
    requires Undoable(n, st) && Stamped(mono, st) && h in st.main && h in st.nodes && Reverts(st, h)
    ensures Undoable(n, FailedState(st, mono, h)) && Stamped(mono, FailedState(st, mono, h))
  {
    hide Undoable, Stamped;
    RaisedUndoable(n, mono, st, h);
  }

  /** It leaves the shadow as it was, and shows in nothing. */
  lemma {:induction false} ShadowRevert(n: nat, mono: nat, st0: State, st: State, h: Handle)
    requires Shadow(n, mono, st0, st) && h in st.main && h in st.nodes && Reverts(st, h)
    ensures var st' := FailedState(st, mono, h);
      Shadow(n, mono, st0, st') && Table(st') == Table(st) && SnapshotsOf(st') == SnapshotsOf(st)
  {
    hide Inv, Table, SnapshotsOf;
    ShadowView(n, mono, st0, st);
    ShadowView(n, mono, st0, FailedState(st, mono, h));
  }

  /** If nothing was put back, the object is gone. */
  lemma {:induction false} FailedGone(n: nat, mono: nat, st: State, h: Handle)
    requires TableOk(n, st) && h in st.main && h in st.nodes && !Reverts(st, h)
    ensures st.nodes[h].item.id !in Table(FailedState(st, mono, h))
    ensures st.nodes[h].item.id in Table(st)
  {
    ContentsAt(st.nodes, st.main);
    hide ContentsOf;
    ContentsRemove(st.nodes, FailedState(st, mono, h).nodes, st.main, h);
  }

  lemma {:induction false} FailedIsRemove(n: nat, mono: nat, st: State, h: Handle)
    requires Undoable(n, st) && h in st.main && h in st.nodes && HarmlessFailure(st, h)
    ensures !Reverts(st, h) && FailedState(st, mono, h) == RemovedState(st, h)
  {
    hide TableOk, RemovedOk, OldsOk;
  }

  /** All that a collision does. */
  lemma {:induction false} FailOutcome(n: nat, mono: nat, st0: State, st: State, h: Handle, revision: int)
    requires Undoable(n, st) && Stamped(mono, st) && h in st.main && h in st.nodes
    ensures var st' := FailedState(st, mono, h);
      && (Reverts(st, h) ==> Undoable(n, st') && Stamped(mono, st') && st'.nodes.Keys == st.nodes.Keys)
      && (Reverts(st, h) && Shadow(n, mono, st0, st) ==> Shadow(n, mono, st0, st') && ViewOf(st', revision) == ViewOf(st, revision))
      && (!Reverts(st, h) ==> st.nodes[h].item.id !in Table(st') && st' == st.(nodes := st.nodes - {h}, main := st.main - {h}))
      && (HarmlessFailure(st, h) ==> !Reverts(st, h))
      && (HarmlessFailure(st, h) && Shadow(n, mono, st0, st) ==>
            && h in st0.nodes && st' == RemovedState(st, h) && Shadow(n, mono, RemovedState(st0, h), st')
            && Undoable(n, st') && Stamped(mono, st')
            && ViewOf(st', revision) == Removed(ViewOf(st, revision), st.nodes[h].item.id))
  {
    assert TableOk(n, st);
    hide Undoable, Stamped, TableOk, Shadow, Table, SnapshotsOf, RemovedState;
    if Reverts(st, h) {
      FailedUsable(n, mono, st, h);
      if Shadow(n, mono, st0, st) {
        ShadowRevert(n, mono, st0, st, h);
      }
    } else {
      FailedGone(n, mono, st, h);
    }
    if HarmlessFailure(st, h) {
      FailedIsRemove(n, mono, st, h);
      if Shadow(n, mono, st0, st) {
        ShadowView(n, mono, st0, st);
        ShadowRemove(n, mono, st0, st, h);
        ShadowView(n, mono, RemovedState(st0, h), RemovedState(st, h));
      }
    }
  }
}
