/** Squashing the top two sessions: undoing the merged session is undoing both. */
module UndoSquash {
  import opened Objects
  import opened Snapshots
  import opened UndoSessions

  /** Drops the record of the top session; its segments now belong to the session below. */
  function MergedState(st: State): State
    requires |st.sessions| >= 2
  {
    var a, b := Top(st), st.sessions[|st.sessions| - 2];
    st.(sessions := st.sessions[..|st.sessions| - 2] +
                    [Session(a.olds + b.olds, a.removed + b.removed, b.nextId, b.ctime)])
  }

  lemma {:induction false} MergedParts(st: State)
    requires |st.sessions| >= 2
    ensures var u, q, a := UndoTop(st), MergedState(st), Top(st);
      && u.sessions != [] && Lower(q) == Lower(u) && Top(u) == st.sessions[|st.sessions| - 2]
      && Top(q) == Session(a.olds + Top(u).olds, a.removed + Top(u).removed, Top(u).nextId, Top(u).ctime)
  {
  }

  lemma {:induction false} UndoneId(st: State, h: Handle)
    requires st.sessions != [] && OldsOk(st) && h in UndoTop(st).nodes
    ensures h in st.nodes && UndoTop(st).nodes[h].item.id == st.nodes[h].item.id
  {
    OldestIs(Top(st).olds, Top(st).ctime, h);
    hide Oldest;
  }

  lemma {:induction false} MergeSurvives(n: nat, st: State, h: Handle)
    requires |st.sessions| >= 2 && OldsOk(st) && RemovedOk(UndoTop(st)) && NewStamped(UndoTop(st))
    ensures var u, q := UndoTop(st), MergedState(st);
      && (Survives(q, h) <==> h in u.nodes && Survives(u, h))
      && (Survives(q, h) ==> (h in Reach(q) <==> h in Reach(u)))
  {
    hide Oldest, Restore, OldsOk;
    MergedParts(st);
    if h in UndoTop(st).nodes {
      UndoneId(st, h);
    }
  }

  lemma {:induction false} RestoredBelow(st: State, h: Handle)
    requires |st.sessions| >= 2 && OldsOk(st) && StampsOk(st) && StampsOk(UndoTop(st))
    requires h in UndoTop(st).nodes && Survives(UndoTop(st), h) && h in st.nodes
    ensures var u := UndoTop(st); var a, b := Top(st), Top(u);
      && b.ctime < a.ctime && u.nodes[h] == Restore(a, h, st.nodes[h])
      && (Oldest(a.olds, a.ctime, h).Some? ==> Restore(b, h, u.nodes[h]).mtime < b.ctime)
  {
    var u := UndoTop(st);
    OldestIs(Top(st).olds, Top(st).ctime, h);
    hide Oldest;
    MergedParts(st);
    if Oldest(Top(st).olds, Top(st).ctime, h).Some? {
      assert h in Reach(st);
      assert h in u.main;
      assert UndoTop(u).nodes[h].mtime < Top(u).ctime;
    }
  }

  /** Undoing the older session does not keep a stamp that the newer one restored. */
  ghost predicate Replaces(st: State, h: Handle)
    requires |st.sessions| >= 2 && h in st.nodes
  {
    var a, b := Top(st), st.sessions[|st.sessions| - 2];
    && b.ctime < a.ctime
    && (Oldest(a.olds, a.ctime, h).Some? ==> Restore(b, h, Restore(a, h, st.nodes[h])).mtime < b.ctime)
  }

  /** A node that both undos keep gets the same object, stamp and mark from the merged one. */
  lemma {:induction false} MergeRestores(st: State, h: Handle)
    requires |st.sessions| >= 2 && h in UndoTop(st).nodes && h in st.nodes && Replaces(st, h)
    ensures var u, q := UndoTop(st), MergedState(st);
      Restore(Top(q), h, st.nodes[h]) == Restore(Top(u), h, u.nodes[h])
  {
    var u, q := UndoTop(st), MergedState(st);
    var a, b := Top(st), Top(u);
    MergedParts(st);
    assert u.nodes[h] == Restore(a, h, st.nodes[h]);
    hide UndoTop, MergedState, Oldest;
    OldestAppend(a.olds, b.olds, b.ctime, h);
    SameOldest(a.olds, b.ctime, a.ctime, h);
  }

  /** Lowering the stamp that undo asks for only matters to a backup at or above it. */
  lemma {:induction false} SameOldest(olds: seq<Old>, low: nat, high: nat, h: Handle)
    requires low <= high
    ensures var o := Oldest(olds, high, h); (o.Some? ==> o.value.mtime < low) ==> Oldest(olds, low, h) == o
  {
    if olds != [] {
      SameOldest(olds[..|olds| - 1], low, high, h);
    }
  }

  lemma {:induction false} MergeUndo(n: nat, st: State)
    requires |st.sessions| >= 2 && SessionOk(st) && SessionOk(UndoTop(st))
    ensures UndoTop(MergedState(st)) == UndoTop(UndoTop(st))
  {
    MergedParts(st);
    forall h | h in UndoTop(st).nodes && Survives(UndoTop(st), h) && h in st.nodes
      ensures Replaces(st, h)
    {
      RestoredBelow(st, h);
      hide UndoTop, RemovedOk, OldsOk, StampsOk, Restore;
    }
    hide UndoTop, RemovedOk, OldsOk, StampsOk, Restore, Replaces;
    MergeOfReplaced(n, st);
  }

  lemma {:induction false} MergeOfReplaced(n: nat, st: State)
    requires |st.sessions| >= 2 && UndoTop(st).sessions != [] && OldsOk(st) && RemovedOk(UndoTop(st)) && NewStamped(UndoTop(st))
    requires forall h :: h in UndoTop(st).nodes && Survives(UndoTop(st), h) && h in st.nodes ==> Replaces(st, h)
    ensures UndoTop(MergedState(st)) == UndoTop(UndoTop(st))
  {
    var u, q := UndoTop(st), MergedState(st);
    MergedParts(st);
    hide RemovedOk, OldsOk, NewStamped, Reach, Restore, Replaces;
    forall h
      ensures Survives(q, h) <==> h in u.nodes && Survives(u, h)
      ensures Survives(q, h) ==> (h in Reach(q) <==> h in Reach(u))
      ensures Survives(q, h) && Survives(u, h) ==> Restore(Top(q), h, q.nodes[h]) == Restore(Top(u), h, u.nodes[h])
    {
      hide UndoTop, MergedState;
      MergeSurvives(n, st, h);
      if Survives(u, h) && h in u.nodes && h in st.nodes {
        MergeRestores(st, h);
      }
    }
    hide UndoTop;
    SameUndo(u, q);
  }

  /** The removed lists of the two sessions hold different nodes with different keys. */
  lemma {:induction false} LowerRemoved(n: nat, st: State, h: Handle)
    requires |st.sessions| >= 2 && TableOk(n, UndoTop(st)) && OldsOk(st) && RemovedOk(UndoTop(st))
    requires h in st.sessions[|st.sessions| - 2].removed
    ensures h in st.nodes && h !in Reach(st) && h in UndoTop(st).nodes
    ensures st.nodes[h].erased && st.nodes[h].item.id == UndoTop(st).nodes[h].item.id < Top(st).nextId
  {
    hide Oldest;
    MergedParts(st);
    UndoneId(st, h);
  }

  lemma {:induction false} MergeRemovedOk(n: nat, st: State)
    requires |st.sessions| >= 2 && TableOk(n, UndoTop(st)) && OldsOk(st) && RemovedOk(st) && StampsOk(st) && RemovedOk(UndoTop(st))
    ensures RemovedOk(MergedState(st))
  {
    var u, q := UndoTop(st), MergedState(st);
    var a, b := Top(st), Top(u);
    MergedParts(st);
    forall h | h in b.removed
      ensures h in st.nodes && h !in Reach(st) && st.nodes[h].erased && st.nodes[h].item.id < st.nextId
    {
      LowerRemoved(n, st, h);
    }
    var removed := a.removed + b.removed;
    forall i, j | 0 <= i < j < |removed|
      ensures removed[i] != removed[j]
    {
      if i < |a.removed| <= j {
        assert removed[i] in a.removed && removed[j] in b.removed;
        assert removed[i] in Reach(st);
      }
    }
    hide UndoTop;
    forall h, g | h in Reach(q) && g in Reach(q) && h != g
      ensures st.nodes[h].item.id != st.nodes[g].item.id
    {
      if h in b.removed && g in b.removed {
        LowerRemoved(n, st, h);
        LowerRemoved(n, st, g);
      } else if h in b.removed {
        MergeIdsDiffer(n, st, h, g);
      } else if g in b.removed {
        MergeIdsDiffer(n, st, g, h);
      }
    }
  }

  lemma {:induction false} MergeIdsDiffer(n: nat, st: State, h: Handle, g: Handle)
    requires |st.sessions| >= 2 && TableOk(n, UndoTop(st)) && OldsOk(st) && RemovedOk(UndoTop(st))
    requires h in st.sessions[|st.sessions| - 2].removed && g in Reach(st)
    ensures h in st.nodes && st.nodes[h].item.id != st.nodes[g].item.id
  {
    LowerRemoved(n, st, h);
    MergedParts(st);
    hide Oldest, Restore;
    if st.nodes[g].item.id < Top(st).nextId {
      assert g in UndoTop(st).main;
      UndoneId(st, g);
    }
  }

  lemma {:induction false} OldestUnique(st: State, o: Old)
    requires st.sessions != [] && OldsOk(st) && o in Top(st).olds && o.mtime < Top(st).ctime
    ensures Oldest(Top(st).olds, Top(st).ctime, o.cur) == Some(o)
  {
    OldestIs(Top(st).olds, Top(st).ctime, o.cur);
    hide Oldest;
  }

  lemma {:induction false} MergeTopOld(st: State, o: Old)
    requires |st.sessions| >= 2 && OldsOk(st) && StampsOk(st) && StampsOk(UndoTop(st))
    requires o in Top(st).olds && o.mtime < st.sessions[|st.sessions| - 2].ctime
    ensures var b := st.sessions[|st.sessions| - 2];
      && o.cur in Reach(st) && st.nodes[o.cur].item.id == o.item.id < b.nextId && st.nodes[o.cur].mtime >= b.ctime
      && o.cur in UndoTop(st).nodes && UndoTop(st).nodes[o.cur].mtime < b.ctime
  {
    MergedParts(st);
    OldestUnique(st, o);
    hide Oldest;
    assert o.cur in UndoTop(st).main;
  }

  lemma {:induction false} MergeLowerOld(st: State, o: Old)
    requires |st.sessions| >= 2 && OldsOk(st) && StampsOk(st) && OldsOk(UndoTop(st))
    requires o in st.sessions[|st.sessions| - 2].olds && o.mtime < st.sessions[|st.sessions| - 2].ctime
    ensures var b := st.sessions[|st.sessions| - 2];
      && o.cur in Reach(MergedState(st)) && st.nodes[o.cur].item.id == o.item.id < b.nextId && st.nodes[o.cur].mtime >= b.ctime
      && o.cur in UndoTop(st).nodes && UndoTop(st).nodes[o.cur].mtime >= b.ctime
  {
    MergedParts(st);
    UndoneId(st, o.cur);
    OldestIs(Top(st).olds, Top(st).ctime, o.cur);
    hide Oldest;
  }

  /** The two sessions hold no two backups of a node that the merged session's undo would both use. */
  lemma {:induction false} MergeOldsDiffer(st: State, i: nat, j: nat)
    requires |st.sessions| >= 2 && OldsOk(st) && StampsOk(st) && OldsOk(UndoTop(st)) && StampsOk(UndoTop(st))
    requires var a, b := Top(st), st.sessions[|st.sessions| - 2];
      var olds := a.olds + b.olds;
      i < j < |olds| && olds[i].mtime < b.ctime && olds[j].mtime < b.ctime
    ensures var olds := Top(st).olds + st.sessions[|st.sessions| - 2].olds; olds[i].cur != olds[j].cur
  {
    var a, b := Top(st), st.sessions[|st.sessions| - 2];
    MergedParts(st);
    hide UndoTop;
    if i < |a.olds| <= j {
      MergeTopOld(st, a.olds[i]);
      MergeLowerOld(st, b.olds[j - |a.olds|]);
    }
  }

  lemma {:induction false} MergeOldsOk(st: State)
    requires |st.sessions| >= 2 && OldsOk(st) && StampsOk(st) && OldsOk(UndoTop(st)) && StampsOk(UndoTop(st))
    ensures OldsOk(MergedState(st))
  {
    var q, a, b := MergedState(st), Top(st), st.sessions[|st.sessions| - 2];
    MergedParts(st);
    hide UndoTop, StampsOk;
    forall o | o in a.olds + b.olds && o.mtime < b.ctime
      ensures o.cur in Reach(q) && q.nodes[o.cur].item.id == o.item.id < b.nextId && q.nodes[o.cur].mtime >= b.ctime
    {
      if o in a.olds {
        MergeTopOld(st, o);
      } else {
        MergeLowerOld(st, o);
      }
    }
    var olds := a.olds + b.olds;
    forall i, j | 0 <= i < j < |olds| && olds[i].mtime < b.ctime && olds[j].mtime < b.ctime
      ensures olds[i].cur != olds[j].cur
    {
      MergeOldsDiffer(st, i, j);
    }
  }

  lemma {:induction false} MergeStampsOk(n: nat, st: State)
    requires |st.sessions| >= 2 && TableOk(n, st) && SessionOk(st) && SessionOk(UndoTop(st))
    requires UndoTop(MergedState(st)) == UndoTop(UndoTop(st))
    ensures StampsOk(MergedState(st))
  {
    var u, q := UndoTop(st), MergedState(st);
    var a, b := Top(st), Top(u);
    MergedParts(st);
    forall h | h in st.main && st.nodes[h].item.id >= b.nextId
      ensures st.nodes[h].mtime >= b.ctime
    {
      if st.nodes[h].item.id < a.nextId {
        UndoneId(st, h);
        OldestIs(a.olds, a.ctime, h);
        assert h in u.main;
      }
    }
    hide UndoTop;
    assert q.sessions == Lower(u) + [Top(q)];
  }

  lemma {:induction false} MergeTableOk(n: nat, mono: nat, st: State)
    requires |st.sessions| >= 2 && TableOk(n, st) && Stamped(mono, st) && SessionOk(st)
    ensures TableOk(n, MergedState(st)) && Stamped(mono, MergedState(st))
  {
  }

  lemma {:induction false} MergeSessionOk(n: nat, st: State)
    requires |st.sessions| >= 2 && TableOk(n, st) && TableOk(n, UndoTop(st)) && SessionOk(st) && SessionOk(UndoTop(st))
    ensures SessionOk(MergedState(st)) && UndoTop(MergedState(st)) == UndoTop(UndoTop(st))
  {
    hide TableOk, RemovedOk, OldsOk, StampsOk, UndoTop;
    MergeUndo(n, st);
    MergeRemovedOk(n, st);
    MergeOldsOk(st);
    MergeStampsOk(n, st);
  }

  lemma {:induction false} SquashKeepsInv(n: nat, mono: nat, st: State)
    requires Inv(n, st) && Stamped(mono, st) && |st.sessions| >= 2
    ensures var st' := MergedState(st);
      Inv(n, st') && Stamped(mono, st') && UndoTop(st') == UndoTop(UndoTop(st))
  {
    hide TableOk, SessionOk, Stamped;
    MergedParts(st);
    hide UndoTop;
    MergeSessionOk(n, st);
    MergeTableOk(n, mono, st);
  }

  lemma {:induction false} SquashView(st: State, revision: int)
    requires |st.sessions| >= 2 && UndoTop(MergedState(st)) == UndoTop(UndoTop(st))
    ensures ViewOf(MergedState(st), revision - 1) == Squashed(ViewOf(st, revision))
  {
    hide ContentsOf;
    MergedParts(st);
    SameSnapshots(UndoTop(st), MergedState(st));
    TopSnapshot(st);
  }

  /** Squash drops the newest snapshot and changes nothing else; undoing then reaches the very
      state that undoing twice would have reached. */
  lemma {:induction false} SquashTwo(n: nat, mono: nat, st: State, revision: int)
    requires Inv(n, st) && Stamped(mono, st) && |st.sessions| >= 2
    ensures var st' := MergedState(st);
      && Inv(n, st') && Stamped(mono, st')
      && UndoTop(st') == UndoTop(UndoTop(st))
      && ViewOf(st', revision - 1) == Squashed(ViewOf(st, revision))
  {
    hide *;
    SquashKeepsInv(n, mono, st);
    SquashView(st, revision);
  }
}
