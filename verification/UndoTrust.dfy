/** When a modify keeps the container right after an earlier one was reverted, exactly. */
module UndoTrust {
  import opened Objects
  import opened Snapshots
  import opened UndoSessions
  import opened UndoSquash
  import opened UndoStamps
  import opened UndoFailure
  import opened UndoReplay

  /** The container has a shadow. */
  ghost predicate HasShadow(n: nat, mono: nat, st: State) {
    exists st0 :: Shadow(n, mono, st0, st)
  }

  lemma {:induction false} InvTop(n: nat, st: State)
    requires Inv(n, st)
    ensures TableOk(n, st)
    ensures st.sessions != [] ==> SessionOk(st) && Inv(n, UndoTop(st))
  {
  }

  lemma {:induction false} CtimesRise(n: nat, st: State, i: nat, j: nat)
    requires Inv(n, st) && i < j < |st.sessions|
    ensures st.sessions[i].ctime < st.sessions[j].ctime
    decreases |st.sessions|
  {
    hide Inv, SessionOk, UndoTop;
    InvTop(n, st);
    TopTwo(st);
    UndoLower(st);
    if j < |st.sessions| - 1 {
      CtimesRise(n, UndoTop(st), i, j);
    } else if i < |st.sessions| - 2 {
      CtimesRise(n, UndoTop(st), i, |st.sessions| - 2);
    }
  }

  lemma {:induction false} TopTwo(st: State)
    requires st.sessions != [] && SessionOk(st)
    ensures |st.sessions| >= 2 ==> st.sessions[|st.sessions| - 2].ctime < Top(st).ctime
  {
    hide UndoTop;
  }

  lemma {:induction false} TopIsLast(n: nat, st: State, k: nat)
    requires Inv(n, st) && k < |st.sessions|
    ensures st.sessions[k].ctime <= Top(st).ctime
  {
    hide Inv;
    if k < |st.sessions| - 1 {
      CtimesRise(n, st, k, |st.sessions| - 1);
    }
  }

  /** The segments of the sessions tell on which side of each start the stamp of a node of the table lies. */
  lemma {:induction false} SidesAgree(n: nat, a: State, b: State, h: Handle, k: nat)
    requires Inv(n, a) && Inv(n, b) && a.sessions == b.sessions && k < |a.sessions|
    requires h in a.main && h in b.main && h in a.nodes && h in b.nodes && a.nodes[h].item.id == b.nodes[h].item.id
    ensures a.sessions[k].ctime <= a.nodes[h].mtime <==> a.sessions[k].ctime <= b.nodes[h].mtime
    decreases |a.sessions|
  {
    hide Inv, UndoTop, SessionOk;
    InvTop(n, a);
    InvTop(n, b);
    TopIsLast(n, a, k);
    if a.nodes[h].mtime >= Top(a).ctime {
      TopSide(a, b, h);
    } else if b.nodes[h].mtime >= Top(a).ctime {
      TopSide(b, a, h);
    } else {
      Older(a, h);
      Older(b, h);
      UndoLower(a);
      UndoLower(b);
      if k < |a.sessions| - 1 {
        SidesAgree(n, UndoTop(a), UndoTop(b), h, k);
      }
    }
  }

  /** A node stamped in the newest session is new or has a backup there, and each forces the stamp. */
  lemma {:induction false} TopSide(a: State, b: State, h: Handle)
    requires a.sessions != [] && a.sessions == b.sessions && SessionOk(a) && SessionOk(b)
    requires h in a.main && h in b.main && h in a.nodes && h in b.nodes && a.nodes[h].item.id == b.nodes[h].item.id
    requires a.nodes[h].mtime >= Top(a).ctime
    ensures b.nodes[h].mtime >= Top(a).ctime
  {
    if a.nodes[h].item.id < Top(a).nextId {
      BackedUp(a, h);
      hide UndoTop, StampsOk, RemovedOk;
    } else {
      hide UndoTop, OldsOk, RemovedOk;
    }
  }

  /** A node not stamped in the newest session keeps its stamp through undo. */
  lemma {:induction false} Older(st: State, h: Handle)
    requires st.sessions != [] && SessionOk(st) && h in st.main && h in st.nodes && st.nodes[h].mtime < Top(st).ctime
    ensures h in UndoTop(st).main && h in UndoTop(st).nodes
    ensures UndoTop(st).nodes[h].mtime == st.nodes[h].mtime && UndoTop(st).nodes[h].item == st.nodes[h].item
    ensures st.nodes[h].item.id < Top(st).nextId
  {
    OldestIs(Top(st).olds, Top(st).ctime, h);
    hide Oldest;
  }

  // ---------------------------------------------------------------------------------------------
  // A stamp beyond the start of the newest session

  /** The modify takes no backup, and the session has none to start with. */
  lemma {:induction false} CrossedTop(n: nat, mono: nat, st0: State, st: State, addr: nat, h: Handle, item: Object)
    requires Shadow(n, mono, st0, st) && h in st.main && h in st.nodes && h in st0.nodes && st.sessions != []
    requires st0.nodes[h].mtime < Top(st).ctime <= st.nodes[h].mtime && item.id == st.nodes[h].item.id
    ensures var st' := ModifiedState(st, mono, addr, h, item);
      && st' == st.(nodes := st.nodes[h := st.nodes[h].(item := item)])
      && h in UndoTop(st).main && h in UndoTop(st).nodes && UndoTop(st).nodes[h].item == st.nodes[h].item
      && UndoTop(st') == UndoTop(st).(nodes := UndoTop(st).nodes[h := UndoTop(st).nodes[h].(item := item)])
      && item.id < Top(st).nextId
  {
    hide Inv, SessionOk, UndoTop, Aged;
    ShadowTops(n, mono, st0, st);
    Older(st0, h);
    OldsOfSession(st0);
    NoBackup(st0, h);
    OverwrittenUndo(st, h, item);
  }

  lemma {:induction false} OldsOfSession(st: State)
    requires st.sessions != [] && SessionOk(st)
    ensures OldsOk(st)
  {
  }

  /** Undo gives back what a node without a backup holds. */
  lemma {:induction false} OverwrittenUndo(st: State, h: Handle, item: Object)
    requires st.sessions != [] && h in st.main && h in st.nodes && item.id == st.nodes[h].item.id < Top(st).nextId
    requires Oldest(Top(st).olds, Top(st).ctime, h) == None
    ensures var st' := st.(nodes := st.nodes[h := st.nodes[h].(item := item)]);
      && h in UndoTop(st).main && h in UndoTop(st).nodes && UndoTop(st).nodes[h].item == st.nodes[h].item
      && UndoTop(st') == UndoTop(st).(nodes := UndoTop(st).nodes[h := UndoTop(st).nodes[h].(item := item)])
  {
    var st' := st.(nodes := st.nodes[h := st.nodes[h].(item := item)]);
    hide Oldest;
    assert Reach(st') == Reach(st) && Lower(st') == Lower(st);
    assert forall g :: Survives(st', g) <==> Survives(st, g);
    hide Reach, Survives;
    assert h in UndoTop(st).nodes;
    assert UndoTop(st').main == UndoTop(st).main;
    assert UndoTop(st').nodes == UndoTop(st).nodes[h := UndoTop(st).nodes[h].(item := item)];
  }

  lemma {:induction false} SnapshotOfObject(n: nat, st: State, h: Handle)
    requires Undoable(n, st) && st.sessions != [] && h in UndoTop(st).main && h in UndoTop(st).nodes
    ensures var (u, s) := (UndoTop(st), SnapshotsOf(st)[|st.sessions| - 1]);
      u.nodes[h].item.id in s.contents && s.contents[u.nodes[h].item.id] == u.nodes[h].item
  {
    UndoneIds(n, st);
    hide Undoable, UndoTop;
    ContentsAt(UndoTop(st).nodes, UndoTop(st).main);
    hide ContentsOf;
    TopSnapshot(st);
  }

  /** So the newest snapshot has the new value instead of the old one. */
  lemma {:induction false} CrossedTopShows(n: nat, mono: nat, st0: State, st: State, addr: nat, h: Handle, item: Object)
    requires Shadow(n, mono, st0, st) && h in st.main && h in st.nodes && h in st0.nodes && st.sessions != []
    requires st0.nodes[h].mtime < Top(st).ctime <= st.nodes[h].mtime && item.id == st.nodes[h].item.id
    requires Fits(n, Table(st), item) && item != st.nodes[h].item
    ensures SnapshotsOf(ModifiedState(st, mono, addr, h, item)) != SnapshotsOf(st)
  {
    hide Shadow, Undoable, Stamped, UndoTop, Table, SnapshotsOf, Fits, ModifiedState;
    ShadowView(n, mono, st0, st);
    ModifyFits(n, mono, st, addr, h, item);
    CrossedTop(n, mono, st0, st, addr, h, item);
    SnapshotOfObject(n, st, h);
    SnapshotOfObject(n, ModifiedState(st, mono, addr, h, item), h);
  }

  // ---------------------------------------------------------------------------------------------
  // A stamp beyond the start of an older session

  lemma {:induction false} CrossedBackup(n: nat, mono: nat, st0: State, st: State, addr: nat, h: Handle, item: Object, st1: State)
    requires Shadow(n, mono, st0, st) && h in st.main && h in st.nodes && h in st0.nodes && Reverts(st, h)
    requires item.id == st.nodes[h].item.id && Shadow(n, mono, st1, ModifiedState(st, mono, addr, h, item))
    ensures st1.sessions != [] && h in UndoTop(st1).main && h in UndoTop(st1).nodes
    ensures UndoTop(st1).nodes[h].mtime == st.nodes[h].mtime && UndoTop(st1).nodes[h].item == st.nodes[h].item
  {
    var st', o := ModifiedState(st, mono, addr, h, item), Old(addr, st.nodes[h].item, st.nodes[h].mtime, h);
    InvTop(n, st0);
    Older(st0, h);
    NoBackup(st0, h);
    hide Inv, SessionOk;
    OldestAppend([o], Top(st).olds, Top(st).ctime, h);
    OnlyBackup(o, Top(st).ctime);
    hide Oldest;
    assert Top(st1).olds == [o] + Top(st).olds;
    assert h in Reach(st1);
  }

  lemma {:induction false} OnlyBackup(o: Old, ctime: nat)
    requires o.mtime < ctime
    ensures Oldest([o], ctime, o.cur) == Some(o)
  {
  }

  /** The backup carries the wrong stamp, which no state without a reverted modify has there. */
  lemma {:induction false} CrossedBelow(n: nat, mono: nat, st0: State, st: State, addr: nat, h: Handle, item: Object, k: nat)
    requires Shadow(n, mono, st0, st) && h in st.main && h in st.nodes && h in st0.nodes && Reverts(st, h)
    requires item.id == st.nodes[h].item.id && k < |st.sessions| && st0.nodes[h].mtime < st.sessions[k].ctime <= st.nodes[h].mtime
    ensures !HasShadow(n, mono, ModifiedState(st, mono, addr, h, item))
  {
    hide Inv, Shadow, SessionOk, UndoTop, ModifiedState;
    if HasShadow(n, mono, ModifiedState(st, mono, addr, h, item)) {
      var st1 :| Shadow(n, mono, st1, ModifiedState(st, mono, addr, h, item));
      CrossedBackup(n, mono, st0, st, addr, h, item, st1);
      ModifiedLower(st, mono, addr, h, item);
      ShadowTops(n, mono, st0, st);
      ShadowTops(n, mono, st1, ModifiedState(st, mono, addr, h, item));
      Older(st0, h);
      UndoLower(st0);
      UndoLower(st1);
      SidesAgree(n, UndoTop(st0), UndoTop(st1), h, k);
    }
  }

  lemma {:induction false} ShadowTops(n: nat, mono: nat, st0: State, st: State)
    requires Shadow(n, mono, st0, st) && st.sessions != []
    ensures st0.sessions == st.sessions && SessionOk(st0) && Inv(n, UndoTop(st0)) && st0.main == st.main
    ensures forall h :: h in st.nodes ==> h in st0.nodes && st0.nodes[h].item == st.nodes[h].item && st0.nodes[h].mtime <= st.nodes[h].mtime
  {
    InvTop(n, st0);
    hide Inv, SessionOk, UndoTop;
  }

  lemma {:induction false} ModifiedLower(st: State, mono: nat, addr: nat, h: Handle, item: Object)
    requires st.sessions != [] && h in st.nodes
    ensures ModifiedState(st, mono, addr, h, item).sessions != [] && Lower(ModifiedState(st, mono, addr, h, item)) == Lower(st)
  {
  }

  // ---------------------------------------------------------------------------------------------
  // The exact conditions

  /** A modify that writes what is there, and takes no backup, does nothing. */
  ghost predicate Idle(st: State, h: Handle, item: Object)
    requires h in st.nodes
  {
    item == st.nodes[h].item && !Reverts(st, h)
  }

  lemma {:induction false} IdleDoesNothing(st: State, mono: nat, addr: nat, h: Handle, item: Object)
    requires h in st.nodes && Idle(st, h, item)
    ensures ModifiedState(st, mono, addr, h, item) == st
  {
  }

  lemma {:induction false} IdleView(n: nat, st: State, h: Handle, item: Object, revision: int)
    requires Undoable(n, st) && h in st.main && h in st.nodes && item == st.nodes[h].item
    ensures ViewOf(st, revision) == Modified(ViewOf(st, revision), item.id, item.fields)
  {
    ContentsAt(st.nodes, st.main);
    hide ContentsOf;
    assert Table(st)[item.id := item] == Table(st);
  }

  /** After a modify every snapshot is what it was, and there is a shadow still, if and only if no
      session was started between the right stamp of the node and the one it has, or the modify is idle. */
  lemma {:induction false} ModifyIsRight(n: nat, mono: nat, st0: State, st: State, addr: nat, h: Handle, item: Object)
    requires Shadow(n, mono, st0, st) && h in st.main && h in st.nodes && h in st0.nodes
    requires item.id == st.nodes[h].item.id && Fits(n, Table(st), item)
    ensures var st' := ModifiedState(st, mono, addr, h, item);
      (SnapshotsOf(st') == SnapshotsOf(st) && HasShadow(n, mono, st')) <==> Trusted(st0, st, h) || Idle(st, h, item)
  {
    hide Shadow, Table, SnapshotsOf, Fits, ModifiedState;
    if Trusted(st0, st, h) {
      ShadowModify(n, mono, st0, st, addr, h, item);
    } else if Idle(st, h, item) {
      IdleDoesNothing(st, mono, addr, h, item);
    } else {
      ShadowView(n, mono, st0, st);
      var k :| 0 <= k < |st.sessions| && st.sessions[k].ctime <= st.nodes[h].mtime && st0.nodes[h].mtime < st.sessions[k].ctime;
      if Reverts(st, h) {
        CrossedBelow(n, mono, st0, st, addr, h, item, k);
      } else {
        ShadowInv(n, mono, st0, st);
        TopIsLast(n, st0, k);
        CrossedTopShows(n, mono, st0, st, addr, h, item);
      }
    }
  }

  lemma {:induction false} ShadowInv(n: nat, mono: nat, st0: State, st: State)
    requires Shadow(n, mono, st0, st)
    ensures Inv(n, st0)
  {
  }

  /** After a modify that collides the snapshots are what they were, and there is a shadow still, if and
      only if the value was put back or the object was not needed. */
  lemma {:induction false} FailureIsRight(n: nat, mono: nat, st0: State, st: State, h: Handle)
    requires Shadow(n, mono, st0, st) && h in st.main && h in st.nodes && h in st0.nodes
    ensures var st' := FailedState(st, mono, h);
      (SnapshotsOf(st') == SnapshotsOf(st) && HasShadow(n, mono, st')) <==> Reverts(st, h) || HarmlessFailure(st, h)
  {
    hide Shadow, Table, SnapshotsOf, Undoable, Stamped, FailedState;
    ShadowView(n, mono, st0, st);
    FailOutcome(n, mono, st0, st, h, 0);
    if !Reverts(st, h) && !HarmlessFailure(st, h) {
      if HasShadow(n, mono, FailedState(st, mono, h)) {
        var st1 :| Shadow(n, mono, st1, FailedState(st, mono, h));
        ShadowView(n, mono, st1, FailedState(st, mono, h));
        DestroyedShows(n, mono, st0, st, h);
      }
    }
  }

  /** A destroyed object of an older session leaves a backup of nothing, or is missing from the snapshot. */
  lemma {:induction false} DestroyedShows(n: nat, mono: nat, st0: State, st: State, h: Handle)
    requires Shadow(n, mono, st0, st) && h in st.main && h in st.nodes && h in st0.nodes && !Reverts(st, h) && !HarmlessFailure(st, h)
    requires Undoable(n, FailedState(st, mono, h))
    ensures SnapshotsOf(FailedState(st, mono, h)) != SnapshotsOf(st)
  {
    var st' := FailedState(st, mono, h);
    hide Inv, Undoable, SnapshotsOf, UndoTop, Stamped, SessionOk;
    ShadowView(n, mono, st0, st);
    ShadowTops(n, mono, st0, st);
    if st0.nodes[h].mtime >= Top(st).ctime {
      OldsOfSession(st0);
      BackedUpIn(st0, h);
      NothingDangles(n, st', h);
      assert false;
    } else {
      Older(st0, h);
      AgedUndo(st0, st);
      SnapshotOfObject(n, st, h);
      GoneFromSnapshot(n, st, mono, h);
    }
  }

  lemma {:induction false} BackedUpIn(st: State, h: Handle)
    requires st.sessions != [] && SessionOk(st) && h in st.main && h in st.nodes
    requires st.nodes[h].item.id < Top(st).nextId && st.nodes[h].mtime >= Top(st).ctime
    ensures exists o :: o in Top(st).olds && o.cur == h && o.mtime < Top(st).ctime
  {
    BackedUp(st, h);
  }

  lemma {:induction false} NothingDangles(n: nat, st: State, h: Handle)
    requires Undoable(n, st) && st.sessions != [] && h !in st.nodes
    ensures forall o :: o in Top(st).olds && o.cur == h ==> o.mtime >= Top(st).ctime
  {
    hide UndoTop;
  }

  lemma {:induction false} GoneFromSnapshot(n: nat, st: State, mono: nat, h: Handle)
    requires Undoable(n, st) && h in st.main && h in st.nodes && !Reverts(st, h) && st.sessions != []
    requires Undoable(n, FailedState(st, mono, h))
    ensures FailedState(st, mono, h).sessions == st.sessions
    ensures st.nodes[h].item.id !in SnapshotsOf(FailedState(st, mono, h))[|FailedState(st, mono, h).sessions| - 1].contents
  {
    var st' := FailedState(st, mono, h);
    hide SnapshotsOf, ContentsOf;
    TopSnapshot(st');
    UndoneIds(n, st');
    ContentsAt(UndoTop(st').nodes, UndoTop(st').main);
    forall g | g in UndoTop(st').main
      ensures g in UndoTop(st').nodes && UndoTop(st').nodes[g].item.id != st.nodes[h].item.id
    {
      UndoTopNode(n, st', g);
      assert g in Reach(st) && h in Reach(st) && g != h;
    }
  }

  /** All that an accepted modify does. */
  lemma {:induction false} AcceptOutcome(n: nat, mono: nat, st0: State, st: State, addr: nat, h: Handle, item: Object, revision: int)
    requires Undoable(n, st) && Stamped(mono, st) && h in st.main && h in st.nodes
    requires item.id == st.nodes[h].item.id && Fits(n, Table(st), item)
    ensures var st' := ModifiedState(st, mono, addr, h, item);
      && Undoable(n, st') && Stamped(mono, st') && st'.main == st.main && h in st'.nodes && st'.nodes[h].item == item
      && (Shadow(n, mono, st0, st) && h in st0.nodes && Trusted(st0, st, h) ==>
            && Shadow(n, mono, ModifiedState(Restamped(st0, h, st.nodes[h].mtime), mono, addr, h, item), st')
            && ViewOf(st', revision) == Modified(ViewOf(st, revision), item.id, item.fields))
      && (st0 == st ==> Restamped(st, h, st.nodes[h].mtime) == st)
      && (Idle(st, h, item) ==> st' == st && ViewOf(st', revision) == Modified(ViewOf(st, revision), item.id, item.fields))
  {
    hide Undoable, Stamped, Shadow, Fits, ViewOf, Trusted, Restamped;
    ModifyOutcome(n, mono, st0, st, addr, h, item, revision);
    if Idle(st, h, item) {
      IdleDoesNothing(st, mono, addr, h, item);
      IdleView(n, st, h, item, revision);
    }
  }

  /** The same for what a client sees. */
  lemma {:induction false} AcceptExactly(n: nat, mono: nat, st0: State, st: State, addr: nat, h: Handle, item: Object, revision: int)
    requires Shadow(n, mono, st0, st) && h in st.main && h in st.nodes
    requires item.id == st.nodes[h].item.id && Fits(n, Table(st), item)
    ensures h in st0.nodes
    ensures var v, st' := ViewOf(st, revision), ModifiedState(st, mono, addr, h, item);
      ViewOf(st', revision) == Modified(v, item.id, item.fields) && HasShadow(n, mono, st') <==> Trusted(st0, st, h) || Idle(st, h, item)
  {
    hide Shadow, Undoable, Stamped, SnapshotsOf, Table, Fits, HasShadow, Trusted, Idle, ModifiedState;
    ShadowView(n, mono, st0, st);
    ModifyIsRight(n, mono, st0, st, addr, h, item);
    ModifyShows(n, mono, st, addr, h, item, revision);
  }

  /** The table and the next key are always right after an accepted modify. */
  lemma {:induction false} ModifyShows(n: nat, mono: nat, st: State, addr: nat, h: Handle, item: Object, revision: int)
    requires Undoable(n, st) && h in st.main && h in st.nodes && item.id == st.nodes[h].item.id
    ensures var v, st' := ViewOf(st, revision), ModifiedState(st, mono, addr, h, item);
      ViewOf(st', revision) == Modified(v, item.id, item.fields) <==> SnapshotsOf(st') == SnapshotsOf(st)
  {
    assert DistinctIds(st.nodes, st.main);
    hide Undoable, SnapshotsOf, Table, DistinctIds;
    ModifyTable(st, mono, addr, h, item);
  }

  // ---------------------------------------------------------------------------------------------
  // What goes wrong otherwise

  /** The state after the newest `m + 1` sessions are squashed into one. */
  function MergedTimes(st: State, m: nat): (q: State)
    requires m < |st.sessions|
    ensures |q.sessions| == |st.sessions| - m && q.nodes == st.nodes && q.main == st.main
  {
    if m == 0 then st else MergedState(MergedTimes(st, m - 1))
  }

  lemma {:induction false} MergedTimesTop(st: State, m: nat)
    requires m < |st.sessions|
    ensures var q := MergedTimes(st, m);
      && Top(q).ctime == st.sessions[|st.sessions| - 1 - m].ctime && Top(q).nextId == st.sessions[|st.sessions| - 1 - m].nextId
      && Lower(q) == st.sessions[..|st.sessions| - 1 - m]
      && (forall o :: o in Top(q).olds ==> exists j :: |st.sessions| - 1 - m <= j < |st.sessions| && o in st.sessions[j].olds)
  {
    if m == 0 {
      assert st.sessions[|st.sessions| - 1] == Top(st);
    } else {
      MergedTimesTop(st, m - 1);
    }
  }

  /** A node whose stamp is older than a session has no backup from that session on that it would use. */
  lemma {:induction false} NoBackupSince(n: nat, st: State, h: Handle, k: nat, j: nat, o: Old)
    requires Inv(n, st) && h in st.main && h in st.nodes && k <= j < |st.sessions|
    requires st.nodes[h].mtime < st.sessions[k].ctime && o in st.sessions[j].olds && o.cur == h
    ensures o.mtime >= st.sessions[k].ctime && st.nodes[h].item.id < st.sessions[k].nextId
    decreases |st.sessions|
  {
    hide Inv, SessionOk, UndoTop;
    InvTop(n, st);
    TopIsLast(n, st, k);
    Older(st, h);
    UndoLower(st);
    if j == |st.sessions| - 1 {
      OldsOfSession(st);
      NoBackup(st, h);
      OldestIs(Top(st).olds, Top(st).ctime, h);
      NewSince(n, st, h, k);
    } else {
      NoBackupSince(n, UndoTop(st), h, k, j, o);
    }
  }

  /** No session from `k` on has a backup of the node that undo of them all as one would use. */
  ghost predicate Unused(sessions: seq<Session>, k: nat, h: Handle)
    requires k < |sessions|
  {
    forall j, o :: k <= j < |sessions| && o in sessions[j].olds && o.cur == h ==> o.mtime >= sessions[k].ctime
  }

  lemma {:induction false} UnusedSince(n: nat, st: State, h: Handle, k: nat)
    requires Inv(n, st) && h in st.main && h in st.nodes && k < |st.sessions| && st.nodes[h].mtime < st.sessions[k].ctime
    ensures Unused(st.sessions, k, h)
  {
    hide Inv;
    forall j, o | k <= j < |st.sessions| && o in st.sessions[j].olds && o.cur == h
      ensures o.mtime >= st.sessions[k].ctime
    {
      NoBackupSince(n, st, h, k, j, o);
    }
  }

  lemma {:induction false} NewSince(n: nat, st: State, h: Handle, k: nat)
    requires Inv(n, st) && h in st.main && h in st.nodes && k < |st.sessions| && st.nodes[h].mtime < st.sessions[k].ctime
    ensures st.nodes[h].item.id < st.sessions[k].nextId
    decreases |st.sessions|
  {
    hide Inv, SessionOk, UndoTop;
    InvTop(n, st);
    TopIsLast(n, st, k);
    Older(st, h);
    UndoLower(st);
    if k < |st.sessions| - 1 {
      NewSince(n, UndoTop(st), h, k);
    }
  }

  /** Undo, after the newest `m + 1` sessions are squashed into one, leaves node `h` in the table holding `item`. */
  ghost predicate GivesBack(st: State, m: nat, h: Handle, item: Object)
    requires m < |st.sessions|
  {
    var u := UndoTop(MergedTimes(st, m));
    h in u.main && h in u.nodes && u.nodes[h].item == item
  }

  /** Undo of a squashed session gives back what the node holds, if no session in it has a backup to use. */
  lemma {:induction false} MergedUndoKeeps(st: State, m: nat, h: Handle)
    requires m < |st.sessions| && h in st.main && h in st.nodes
    requires Unused(st.sessions, |st.sessions| - 1 - m, h)
    requires st.nodes[h].item.id < st.sessions[|st.sessions| - 1 - m].nextId
    ensures GivesBack(st, m, h, st.nodes[h].item)
  {
    MergedTimesTop(st, m);
    MergedUnused(st, m, h);
    hide Oldest, MergedTimes;
  }

  /** If session `k` was started between the two stamps, then after a modify that changes the object,
      squashing the sessions from `k` on into one, and undoing that, the container has the new value
      where the old one belongs. */
  lemma {:induction false} CrossedShows(n: nat, mono: nat, st0: State, st: State, addr: nat, h: Handle, item: Object, k: nat)
    requires Shadow(n, mono, st0, st) && h in st.main && h in st.nodes && h in st0.nodes
    requires item.id == st.nodes[h].item.id && k < |st.sessions| && st0.nodes[h].mtime < st.sessions[k].ctime <= st.nodes[h].mtime
    ensures var st', m := ModifiedState(st, mono, addr, h, item), |st.sessions| - 1 - k;
      |st'.sessions| == |st.sessions| && GivesBack(st, m, h, st.nodes[h].item) && GivesBack(st', m, h, item)
  {
    hide Inv, UndoTop, MergedTimes, GivesBack, Shadow, ModifiedState, Unused;
    ShadowNode(n, mono, st0, st, h);
    UnusedSince(n, st0, h, k);
    NewSince(n, st0, h, k);
    MergedUndoKeeps(st, |st.sessions| - 1 - k, h);
    ModifiedOlds(st, mono, addr, h, item, k);
    MergedUndoKeeps(ModifiedState(st, mono, addr, h, item), |st.sessions| - 1 - k, h);
  }

  lemma {:induction false} ShadowNode(n: nat, mono: nat, st0: State, st: State, h: Handle)
    requires Shadow(n, mono, st0, st) && h in st.main && h in st.nodes && h in st0.nodes
    ensures Inv(n, st0) && st0.sessions == st.sessions && h in st0.main && st0.nodes[h].item == st.nodes[h].item
  {
    hide Inv;
  }

  /** Whatever the modify wrote, the squashed session takes the object for one it has backed up: the next
      modify takes no backup, and undo leaves what that one wrote. */
  lemma {:induction false} CrossedLater(n: nat, mono: nat, st0: State, st: State, addr: nat, h: Handle, item: Object, k: nat, later: Object)
    requires Shadow(n, mono, st0, st) && h in st.main && h in st.nodes && h in st0.nodes && item.id == st.nodes[h].item.id == later.id
    requires k < |st.sessions| && st0.nodes[h].mtime < st.sessions[k].ctime <= st.nodes[h].mtime
    ensures |ModifiedState(st, mono, addr, h, item).sessions| == |st.sessions|
    ensures var q := MergedTimes(ModifiedState(st, mono, addr, h, item), |st.sessions| - 1 - k);
      var q' := ModifiedState(q, mono, addr, h, later);
      q'.sessions == q.sessions && GivesBack(q', 0, h, later)
  {
    hide Inv, UndoTop, MergedTimes, GivesBack, Shadow, ModifiedState, Unused, Oldest;
    ShadowNode(n, mono, st0, st, h);
    UnusedSince(n, st0, h, k);
    NewSince(n, st0, h, k);
    ModifiedOlds(st, mono, addr, h, item, k);
    StampCrosses(n, mono, st0, st, addr, h, item, k);
    var st', m := ModifiedState(st, mono, addr, h, item), |st.sessions| - 1 - k;
    MergedUnused(st', m, h);
    MergedTimesTop(st', m);
    var q := MergedTimes(st', m);
    StampedModify(q, mono, addr, h, later);
    OverwrittenUndo(q, h, later);
    GivesBackNow(ModifiedState(q, mono, addr, h, later), h, later);
  }

  lemma {:induction false} GivesBackNow(st: State, h: Handle, item: Object)
    requires st.sessions != [] && h in UndoTop(st).main && h in UndoTop(st).nodes && UndoTop(st).nodes[h].item == item
    ensures GivesBack(st, 0, h, item)
  {
    hide UndoTop;
  }

  lemma {:induction false} StampedModify(st: State, mono: nat, addr: nat, h: Handle, item: Object)
    requires st.sessions != [] && h in st.nodes && st.nodes[h].mtime >= Top(st).ctime
    ensures ModifiedState(st, mono, addr, h, item) == st.(nodes := st.nodes[h := st.nodes[h].(item := item)])
  {
  }

  lemma {:induction false} StampCrosses(n: nat, mono: nat, st0: State, st: State, addr: nat, h: Handle, item: Object, k: nat)
    requires Shadow(n, mono, st0, st) && h in st.nodes && k < |st.sessions| && st.sessions[k].ctime <= st.nodes[h].mtime
    ensures h in ModifiedState(st, mono, addr, h, item).nodes
    ensures ModifiedState(st, mono, addr, h, item).nodes[h].mtime >= st.sessions[k].ctime
  {
    hide Inv;
    TopIsLast(n, st0, k);
  }

  lemma {:induction false} MergedUnused(st: State, m: nat, h: Handle)
    requires m < |st.sessions| && Unused(st.sessions, |st.sessions| - 1 - m, h)
    ensures var q := MergedTimes(st, m); Oldest(Top(q).olds, Top(q).ctime, h) == None
  {
    var q := MergedTimes(st, m);
    MergedTimesTop(st, m);
    OldestIs(Top(q).olds, Top(q).ctime, h);
    hide Oldest, MergedTimes;
  }

  /** The modify itself adds no backup that undo of the squashed session would use. */
  lemma {:induction false} ModifiedOlds(st: State, mono: nat, addr: nat, h: Handle, item: Object, k: nat)
    requires h in st.nodes && k < |st.sessions| && st.sessions[k].ctime <= st.nodes[h].mtime
    requires Unused(st.sessions, k, h)
    ensures var st' := ModifiedState(st, mono, addr, h, item);
      && |st'.sessions| == |st.sessions| && st'.main == st.main && h in st'.nodes && st'.nodes[h].item == item
      && st'.sessions[k].ctime == st.sessions[k].ctime && st'.sessions[k].nextId == st.sessions[k].nextId
      && Unused(st'.sessions, k, h)
  {
    var st' := ModifiedState(st, mono, addr, h, item);
    forall j, o | k <= j < |st'.sessions| && o in st'.sessions[j].olds && o.cur == h
      ensures o.mtime >= st.sessions[k].ctime
    {
      if j < |st.sessions| - 1 {
        assert st'.sessions[j] == st.sessions[j];
      }
    }
  }

  // ---------------------------------------------------------------------------------------------
  // When undo leaves two objects under one key

  /** `u0` is the table at the start of the newest session; undo gives back all of it but the objects in
      `wrong`, which it leaves as they are now. */
  ghost predicate LeavesWrong(u0: State, st: State, wrong: set<Handle>)
    requires st.sessions != []
  {
    var u := UndoTop(st);
    && u.main == u0.main && wrong <= u0.main
    && (forall h :: h in u.main ==>
          && h in u.nodes && h in u0.nodes && h in st.nodes && u.nodes[h].item.id == u0.nodes[h].item.id
          && u.nodes[h].item == (if h in wrong then st.nodes[h].item else u0.nodes[h].item))
  }

  /** The key that undo leaves `g` with. */
  ghost function LeftKey(k: nat, u0: State, st: State, wrong: set<Handle>, g: Handle): int
    requires g in u0.nodes && g in st.nodes
  {
    Key(k, if g in wrong then st.nodes[g].item else u0.nodes[g].item)
  }

  /** Undo leaves every index in order if and only if no object it leaves as it is now has a key that
      another object had at the session's start, or has now if it is left as well. */
  lemma {:induction false} UndoLeavesOrder(n: nat, u0: State, st: State, wrong: set<Handle>)
    requires Undoable(n, st) && st.sessions != [] && TableOk(n, u0) && LeavesWrong(u0, st, wrong)
    ensures TableOk(n, UndoTop(st)) <==>
      forall h, g, k :: h in wrong && g in u0.main && g != h && h in u0.nodes && g in u0.nodes && h in st.nodes && g in st.nodes && 0 <= k < n ==>
        LeftKey(k, u0, st, wrong, g) != LeftKey(k, u0, st, wrong, h)
  {
    var u := UndoTop(st);
    UndoneIds(n, st);
    hide Undoable, UndoTop;
    assert forall h, k :: h in u.main ==> Key(k, u.nodes[h].item) == LeftKey(k, u0, st, wrong, h);
    hide LeftKey;
  }

  /** Of a single such object: it must fit the table the session started with. */
  lemma {:induction false} WrongFits(n: nat, mono: nat, st0: State, st: State, addr: nat, h: Handle, item: Object)
    requires Shadow(n, mono, st0, st) && h in st.main && h in st.nodes && h in st0.nodes && st.sessions != []
    requires st0.nodes[h].mtime < Top(st).ctime <= st.nodes[h].mtime && item.id == st.nodes[h].item.id
    ensures ModifiedState(st, mono, addr, h, item).sessions != []
    ensures TableOk(n, UndoTop(ModifiedState(st, mono, addr, h, item))) <==>
      Fits(n, SnapshotsOf(st)[|st.sessions| - 1].contents, item)
  {
    hide Shadow, Undoable, Stamped, UndoTop, Table, SnapshotsOf, Fits, ModifiedState, TableOk;
    ShadowView(n, mono, st0, st);
    CrossedTop(n, mono, st0, st, addr, h, item);
    TopSnapshot(st);
    OverwrittenTable(n, UndoTop(st), h, item);
  }

  lemma {:induction false} OverwrittenTable(n: nat, u: State, h: Handle, item: Object)
    requires TableOk(n, u) && h in u.main && h in u.nodes && item.id == u.nodes[h].item.id
    ensures TableOk(n, u.(nodes := u.nodes[h := u.nodes[h].(item := item)])) <==> Fits(n, Table(u), item)
  {
    FitsTable(n, u, item);
    hide Fits, Table;
    var u' := u.(nodes := u.nodes[h := u.nodes[h].(item := item)]);
    if TableOk(n, u') {
      forall g, k | g in u.main && g in u.nodes && u.nodes[g].item.id != item.id && 0 <= k < n
        ensures Key(k, u.nodes[g].item) != Key(k, item)
      {
        assert Key(k, u'.nodes[g].item) != Key(k, u'.nodes[h].item);
      }
    }
  }
}
