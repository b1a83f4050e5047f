/** Compressing the newest part of a session: redundant backups and removed nodes are dropped, and a
    backup of a removed node is moved into the node, without changing what undo rebuilds. */
module UndoCompress {
  import opened Objects
  import opened UndoSessions

  predicate IsErased(nodes: map<Handle, Node>, h: Handle) {
    h in nodes && nodes[h].erased
  }

  /** The backups that stay: taken from a node as it was before the session, and still in the table. */
  function KeptOlds(nodes: map<Handle, Node>, olds: seq<Old>, ctime: nat): seq<Old> {
    if olds == [] then []
    else
      var last := olds[|olds| - 1];
      KeptOlds(nodes, olds[..|olds| - 1], ctime) +
      (if last.mtime < ctime && !IsErased(nodes, last.cur) then [last] else [])
  }

  /** The removed nodes that stay: those that were there when the session started. */
  function KeptRemoved(nodes: map<Handle, Node>, removed: seq<Handle>, nextId: nat): seq<Handle> {
    if removed == [] then []
    else
      var last := removed[|removed| - 1];
      KeptRemoved(nodes, removed[..|removed| - 1], nextId) +
      (if last in nodes && nodes[last].item.id < nextId then [last] else [])
  }

  /** A removed node takes over the value and stamp of its last backup in `olds`. */
  function Absorb(olds: seq<Old>, ctime: nat, h: Handle, node: Node): Node {
    var o := Oldest(olds, ctime, h);
    if node.erased && o.Some? then node.(item := o.value.item, mtime := o.value.mtime) else node
  }

  /** The top session after compressing its newest `i` backups and `r` removed nodes. */
  function CompressedState(st: State, i: nat, r: nat): State
    requires st.sessions != [] && i <= |Top(st).olds| && r <= |Top(st).removed|
  {
    var s := Top(st);
    st.(nodes := map h | h in st.nodes && !(h in s.removed[..r] && st.nodes[h].item.id >= s.nextId) ::
                   Absorb(s.olds[..i], s.ctime, h, st.nodes[h]),
        sessions := Lower(st) + [s.(olds := KeptOlds(st.nodes, s.olds[..i], s.ctime) + s.olds[i..],
                                    removed := KeptRemoved(st.nodes, s.removed[..r], s.nextId) + s.removed[r..])])
  }

  lemma {:induction false} KeptOldsIn(nodes: map<Handle, Node>, olds: seq<Old>, ctime: nat, o: Old)
    ensures o in KeptOlds(nodes, olds, ctime) <==> o in olds && o.mtime < ctime && !IsErased(nodes, o.cur)
  {
    if olds != [] {
      KeptOldsIn(nodes, olds[..|olds| - 1], ctime, o);
      assert olds == olds[..|olds| - 1] + [olds[|olds| - 1]];
    }
  }

  lemma {:induction false} KeptRemovedIn(nodes: map<Handle, Node>, removed: seq<Handle>, nextId: nat, h: Handle)
    ensures h in KeptRemoved(nodes, removed, nextId) <==> h in removed && h in nodes && nodes[h].item.id < nextId
  {
    if removed != [] {
      KeptRemovedIn(nodes, removed[..|removed| - 1], nextId, h);
      assert removed == removed[..|removed| - 1] + [removed[|removed| - 1]];
    }
  }

  lemma {:induction false} KeptOldest(nodes: map<Handle, Node>, olds: seq<Old>, ctime: nat, h: Handle)
    ensures Oldest(KeptOlds(nodes, olds, ctime), ctime, h) == if IsErased(nodes, h) then None else Oldest(olds, ctime, h)
  {
    if olds != [] {
      var rest, last := olds[..|olds| - 1], olds[|olds| - 1];
      var kept := KeptOlds(nodes, rest, ctime);
      KeptOldest(nodes, rest, ctime, h);
      assert kept + [] == kept && (kept + [last])[..|kept|] == kept;
    }
  }

  ghost predicate DistinctCurs(olds: seq<Old>, ctime: nat) {
    forall i, j :: 0 <= i < j < |olds| && olds[i].mtime < ctime && olds[j].mtime < ctime ==> olds[i].cur != olds[j].cur
  }

  lemma {:induction false} KeptOldsDistinct(nodes: map<Handle, Node>, olds: seq<Old>, ctime: nat)
    requires DistinctCurs(olds, ctime)
    ensures DistinctCurs(KeptOlds(nodes, olds, ctime), ctime)
  {
    if olds != [] {
      var rest := olds[..|olds| - 1];
      KeptOldsDistinct(nodes, rest, ctime);
      var kept := KeptOlds(nodes, rest, ctime);
      forall i | 0 <= i < |kept|
        ensures kept[i] in rest
      {
        KeptOldsIn(nodes, rest, ctime, kept[i]);
      }
    }
  }

  lemma {:induction false} KeptRemovedDistinct(nodes: map<Handle, Node>, removed: seq<Handle>, nextId: nat)
    requires DistinctHandles(removed)
    ensures DistinctHandles(KeptRemoved(nodes, removed, nextId))
  {
    if removed != [] {
      var rest := removed[..|removed| - 1];
      KeptRemovedDistinct(nodes, rest, nextId);
      var kept := KeptRemoved(nodes, rest, nextId);
      forall i | 0 <= i < |kept|
        ensures kept[i] in rest
      {
        KeptRemovedIn(nodes, rest, nextId, kept[i]);
      }
    }
  }

  ghost predicate CanCompress(st: State, i: nat, r: nat) {
    st.sessions != [] && i <= |Top(st).olds| && r <= |Top(st).removed|
  }

  /** Which list entries compression keeps. */
  lemma {:induction false} CompressedLists(st: State, i: nat, r: nat)
    requires CanCompress(st, i, r)
    ensures var st', s := CompressedState(st, i, r), Top(st);
      && st'.sessions != [] && Lower(st') == Lower(st)
      && Top(st') == s.(olds := Top(st').olds, removed := Top(st').removed)
      && (forall o :: o in Top(st').olds ==> o in s.olds)
      && (forall h :: h in Top(st').removed ==> h in s.removed)
      && (forall h :: h in s.removed && h in st.nodes && st.nodes[h].item.id < s.nextId ==> h in Top(st').removed)
  {
    var s := Top(st);
    assert s.olds == s.olds[..i] + s.olds[i..];
    assert s.removed == s.removed[..r] + s.removed[r..];
    forall o: Old | o in KeptOlds(st.nodes, s.olds[..i], s.ctime)
      ensures o in s.olds
    {
      KeptOldsIn(st.nodes, s.olds[..i], s.ctime, o);
    }
    forall h
      ensures h in KeptRemoved(st.nodes, s.removed[..r], s.nextId) <==> h in s.removed[..r] && h in st.nodes && st.nodes[h].item.id < s.nextId
    {
      KeptRemovedIn(st.nodes, s.removed[..r], s.nextId, h);
    }
  }

  /** Compression changes no identity and no mark, and no node of the table. */
  lemma {:induction false} CompressedNode(st: State, i: nat, r: nat, h: Handle)
    requires CanCompress(st, i, r) && OldsOk(st) && h in st.nodes
    ensures var st', s := CompressedState(st, i, r), Top(st);
      && (h in st'.nodes <==> !(h in s.removed[..r] && st.nodes[h].item.id >= s.nextId))
      && (h in st'.nodes ==> st'.nodes[h].item.id == st.nodes[h].item.id && st'.nodes[h].erased == st.nodes[h].erased)
      && (h in st'.nodes && !st.nodes[h].erased ==> st'.nodes[h] == st.nodes[h])
  {
    OldestIs(Top(st).olds[..i], Top(st).ctime, h);
  }

  lemma {:induction false} CompressedReach(st: State, i: nat, r: nat, h: Handle)
    requires CanCompress(st, i, r) && OldsOk(st) && RemovedOk(st)
    ensures var st' := CompressedState(st, i, r);
      && (h in Reach(st') ==> h in Reach(st))
      && (h in Reach(st) && st.nodes[h].item.id < Top(st).nextId ==> h in Reach(st'))
      && (Survives(st', h) <==> Survives(st, h))
  {
    CompressedLists(st, i, r);
    if h in st.nodes {
      CompressedNode(st, i, r, h);
    }
    hide CompressedState, OldsOk;
  }

  lemma {:induction false} CompressRestores(st: State, i: nat, r: nat, h: Handle)
    requires CanCompress(st, i, r) && h in st.nodes && h in CompressedState(st, i, r).nodes
    requires h in Top(CompressedState(st, i, r)).removed <==> h in Top(st).removed
    ensures Restore(Top(CompressedState(st, i, r)), h, CompressedState(st, i, r).nodes[h]) == Restore(Top(st), h, st.nodes[h])
  {
    hide Oldest, KeptOlds, KeptRemoved, CompressedState;
    var st', s := CompressedState(st, i, r), Top(st);
    var kept := KeptOlds(st.nodes, s.olds[..i], s.ctime);
    OldestAppend(s.olds[..i], s.olds[i..], s.ctime, h);
    OldestAppend(kept, s.olds[i..], s.ctime, h);
    assert s.olds[..i] + s.olds[i..] == s.olds;
    KeptOldest(st.nodes, s.olds[..i], s.ctime, h);
    CompressedRecord(st, i, r, h);
  }

  lemma {:induction false} CompressedRecord(st: State, i: nat, r: nat, h: Handle)
    requires CanCompress(st, i, r) && h in st.nodes && h in CompressedState(st, i, r).nodes
    ensures var st', s := CompressedState(st, i, r), Top(st);
      && st'.nodes[h] == Absorb(s.olds[..i], s.ctime, h, st.nodes[h])
      && Top(st').olds == KeptOlds(st.nodes, s.olds[..i], s.ctime) + s.olds[i..] && Top(st').ctime == s.ctime
  {
    hide KeptOlds, KeptRemoved, Absorb;
  }

  lemma {:induction false} CompressKeepsUndo(st: State, i: nat, r: nat)
    requires CanCompress(st, i, r) && OldsOk(st) && RemovedOk(st)
    ensures UndoTop(CompressedState(st, i, r)) == UndoTop(st)
  {
    var st' := CompressedState(st, i, r);
    CompressedLists(st, i, r);
    forall h
      ensures Survives(st', h) <==> Survives(st, h)
      ensures Survives(st, h) ==> (h in Reach(st') <==> h in Reach(st))
      ensures Survives(st', h) && Survives(st, h) ==> Restore(Top(st'), h, st'.nodes[h]) == Restore(Top(st), h, st.nodes[h])
    {
      CompressedReach(st, i, r, h);
      hide CompressedState, OldsOk, Restore;
      if Survives(st, h) {
        assert h in Top(st').removed <==> h in Top(st).removed;
        CompressRestores(st, i, r, h);
      }
    }
    hide CompressedState, OldsOk, RemovedOk, Restore, Survives, Reach;
    SameUndo(st, st');
  }

  lemma {:induction false} CompressedDistinct(st: State, i: nat, r: nat)
    requires CanCompress(st, i, r) && DistinctHandles(Top(st).removed) && DistinctCurs(Top(st).olds, Top(st).ctime)
    ensures DistinctHandles(Top(CompressedState(st, i, r)).removed)
    ensures DistinctCurs(Top(CompressedState(st, i, r)).olds, Top(st).ctime)
  {
    var s := Top(st);
    KeptRemovedDistinct(st.nodes, s.removed[..r], s.nextId);
    KeptOldsDistinct(st.nodes, s.olds[..i], s.ctime);
    forall h
      ensures h in KeptRemoved(st.nodes, s.removed[..r], s.nextId) ==> h in s.removed[..r]
    {
      KeptRemovedIn(st.nodes, s.removed[..r], s.nextId, h);
    }
    forall o: Old
      ensures o in KeptOlds(st.nodes, s.olds[..i], s.ctime) ==> o in s.olds[..i]
    {
      KeptOldsIn(st.nodes, s.olds[..i], s.ctime, o);
    }
    hide KeptRemoved, KeptOlds;
    var removed, olds := Top(CompressedState(st, i, r)).removed, Top(CompressedState(st, i, r)).olds;
    var k, m := |removed| - |s.removed[r..]|, |olds| - |s.olds[i..]|;
    forall a, b | 0 <= a < b < |removed|
      ensures removed[a] != removed[b]
    {
      if a < k <= b {
        assert removed[a] in s.removed[..r];
      }
    }
    forall a, b | 0 <= a < b < |olds| && olds[a].mtime < s.ctime && olds[b].mtime < s.ctime
      ensures olds[a].cur != olds[b].cur
    {
      if a < m <= b {
        assert olds[a] in s.olds[..i];
      }
    }
  }

  lemma {:induction false} CompressRemovedOk(st: State, i: nat, r: nat)
    requires CanCompress(st, i, r) && OldsOk(st) && RemovedOk(st)
    ensures RemovedOk(CompressedState(st, i, r))
  {
    var st', s := CompressedState(st, i, r), Top(st);
    CompressedLists(st, i, r);
    CompressedDistinct(st, i, r);
    assert st'.main == st.main && st'.nextId == st.nextId;
    forall h
      ensures h in Top(st').removed ==> h in st'.nodes
      ensures h in Reach(st') ==> h in Reach(st)
      ensures h in st'.nodes && h in st.nodes ==> st'.nodes[h].item.id == st.nodes[h].item.id && st'.nodes[h].erased == st.nodes[h].erased
    {
      CompressedReach(st, i, r, h);
      if h in st.nodes {
        CompressedNode(st, i, r, h);
      }
      if h in Top(st').removed {
        CompressedRemovedLive(st, i, r, h);
      }
    }
    hide CompressedState, OldsOk;
  }

  lemma {:induction false} CompressedRemovedLive(st: State, i: nat, r: nat, h: Handle)
    requires CanCompress(st, i, r) && RemovedOk(st) && h in Top(CompressedState(st, i, r)).removed
    ensures h in CompressedState(st, i, r).nodes
  {
    var s := Top(st);
    KeptRemovedIn(st.nodes, s.removed[..r], s.nextId, h);
    hide KeptRemoved, KeptOlds, Absorb;
    if h in s.removed[r..] {
      assert h !in s.removed[..r];
      assert h in s.removed;
    }
  }

  lemma {:induction false} CompressedOld(st: State, i: nat, r: nat, o: Old)
    requires CanCompress(st, i, r) && OldsOk(st) && RemovedOk(st)
    requires o in Top(CompressedState(st, i, r)).olds && o.mtime < Top(st).ctime
    ensures var st' := CompressedState(st, i, r);
      && o.cur in Reach(st') && st'.nodes[o.cur].item.id == o.item.id < Top(st).nextId && st'.nodes[o.cur].mtime >= Top(st).ctime
  {
    var s := Top(st);
    CompressedLists(st, i, r);
    CompressedReach(st, i, r, o.cur);
    CompressedNode(st, i, r, o.cur);
    KeptOldsIn(st.nodes, s.olds[..i], s.ctime, o);
    OldestIs(s.olds[..i], s.ctime, o.cur);
    hide Oldest, KeptOlds, KeptRemoved, RemovedOk, Reach;
    if o in s.olds[i..] {
      assert Oldest(s.olds[..i], s.ctime, o.cur).None?;
    }
  }

  lemma {:induction false} CompressOldsOk(st: State, i: nat, r: nat)
    requires CanCompress(st, i, r) && OldsOk(st) && RemovedOk(st)
    ensures OldsOk(CompressedState(st, i, r))
  {
    var st', s := CompressedState(st, i, r), Top(st);
    CompressedLists(st, i, r);
    CompressedDistinct(st, i, r);
    hide CompressedState, RemovedOk, Reach;
    forall o: Old | o in Top(st').olds && o.mtime < s.ctime
      ensures o.cur in Reach(st') && st'.nodes[o.cur].item.id == o.item.id < s.nextId && st'.nodes[o.cur].mtime >= s.ctime
    {
      CompressedOld(st, i, r, o);
    }
  }

  lemma {:induction false} CompressStamped(mono: nat, st: State, i: nat, r: nat)
    requires CanCompress(st, i, r) && Stamped(mono, st)
    ensures Stamped(mono, CompressedState(st, i, r))
  {
    var st' := CompressedState(st, i, r);
    forall h | h in st'.nodes
      ensures st'.nodes[h].mtime <= mono
    {
      OldestIs(Top(st).olds[..i], Top(st).ctime, h);
      hide Oldest;
    }
    hide Absorb;
  }

  lemma {:induction false} CompressTableOk(n: nat, mono: nat, st: State, i: nat, r: nat)
    requires CanCompress(st, i, r) && TableOk(n, st) && SessionOk(st) && Stamped(mono, st)
    ensures var st' := CompressedState(st, i, r);
      && TableOk(n, st') && Stamped(mono, st')
      && (forall h :: h in st.main ==> h in st'.nodes && st'.nodes[h] == st.nodes[h])
  {
    var st' := CompressedState(st, i, r);
    CompressStamped(mono, st, i, r);
    CompressedLists(st, i, r);
    hide Stamped;
    forall h | h in st.main
      ensures h in st'.nodes && st'.nodes[h] == st.nodes[h]
    {
      CompressedNode(st, i, r, h);
    }
    hide UndoTop, OldsOk, StampsOk, RemovedOk, CompressedState;
  }

  lemma {:induction false} CompressStampsOk(n: nat, st: State, i: nat, r: nat)
    requires CanCompress(st, i, r) && TableOk(n, st) && SessionOk(st)
    requires UndoTop(CompressedState(st, i, r)) == UndoTop(st)
    requires forall h :: h in st.main ==> h in CompressedState(st, i, r).nodes && CompressedState(st, i, r).nodes[h] == st.nodes[h]
    ensures StampsOk(CompressedState(st, i, r))
  {
  }

  lemma {:induction false} CompressKeepsInv(n: nat, mono: nat, st: State, i: nat, r: nat)
    requires CanCompress(st, i, r) && Inv(n, st) && Stamped(mono, st)
    ensures var st' := CompressedState(st, i, r);
      && Inv(n, st') && Stamped(mono, st') && UndoTop(st') == UndoTop(st)
      && DistinctIds(st.nodes, st.main) && st'.main == st.main && st'.nextId == st.nextId && |st'.sessions| == |st.sessions|
      && (forall h :: h in st.main ==> h in st'.nodes && st'.nodes[h] == st.nodes[h])
  {
    var st' := CompressedState(st, i, r);
    assert DistinctIds(st.nodes, st.main);
    hide TableOk, RemovedOk, OldsOk, StampsOk, Stamped, UndoTop;
    CompressedLists(st, i, r);
    CompressKeepsUndo(st, i, r);
    CompressRemovedOk(st, i, r);
    CompressOldsOk(st, i, r);
    CompressTableOk(n, mono, st, i, r);
    CompressStampsOk(n, st, i, r);
  }

  /** Compression changes neither the table nor any snapshot. */
  lemma {:induction false} CompressSession(n: nat, mono: nat, st: State, i: nat, r: nat, revision: int)
    requires CanCompress(st, i, r) && Inv(n, st) && Stamped(mono, st)
    ensures var st' := CompressedState(st, i, r);
      && Inv(n, st') && Stamped(mono, st') && UndoTop(st') == UndoTop(st)
      && ViewOf(st', revision) == ViewOf(st, revision)
  {
    hide Inv, Stamped, UndoTop, CompressedState, ContentsOf;
    CompressKeepsInv(n, mono, st, i, r);
    SameSnapshots(st, CompressedState(st, i, r));
    ContentsFrame(st.nodes, CompressedState(st, i, r).nodes, st.main);
  }

  // ---------------------------------------------------------------------------------------------
  // The steps of the two list walks

  /** The nodes after the walk has passed the backups in `olds`. */
  function Absorbed(nodes: map<Handle, Node>, olds: seq<Old>, ctime: nat): map<Handle, Node> {
    map h | h in nodes :: Absorb(olds, ctime, h, nodes[h])
  }

  /** The nodes after the walk has passed those in `removed`. */
  function Swept(nodes: map<Handle, Node>, removed: seq<Handle>, nextId: nat): map<Handle, Node> {
    map h | h in nodes && !(h in removed && nodes[h].item.id >= nextId) :: nodes[h]
  }

  lemma {:induction false} AbsorbStep(nodes: map<Handle, Node>, olds: seq<Old>, ctime: nat, i: nat)
    requires i < |olds|
    ensures var o, before := olds[i], Absorbed(nodes, olds[..i], ctime);
      && (o.mtime >= ctime ==>
            && Absorbed(nodes, olds[..i + 1], ctime) == before
            && KeptOlds(nodes, olds[..i + 1], ctime) == KeptOlds(nodes, olds[..i], ctime))
      && (o.mtime < ctime && IsErased(nodes, o.cur) ==>
            && Absorbed(nodes, olds[..i + 1], ctime) == before[o.cur := before[o.cur].(item := o.item, mtime := o.mtime)]
            && KeptOlds(nodes, olds[..i + 1], ctime) == KeptOlds(nodes, olds[..i], ctime))
      && (o.mtime < ctime && !IsErased(nodes, o.cur) ==>
            && Absorbed(nodes, olds[..i + 1], ctime) == before
            && KeptOlds(nodes, olds[..i + 1], ctime) == KeptOlds(nodes, olds[..i], ctime) + [o])
      && (forall h :: h in before <==> h in nodes)
      && (forall h :: h in before ==> before[h].erased == nodes[h].erased)
  {
    assert olds[..i + 1][..i] == olds[..i];
  }

  lemma {:induction false} SweepStep(nodes: map<Handle, Node>, removed: seq<Handle>, nextId: nat, j: nat)
    requires j < |removed| && removed[j] in nodes && removed[j] !in removed[..j]
    ensures var h, before := removed[j], Swept(nodes, removed[..j], nextId);
      && h in before && before[h] == nodes[h]
      && Swept(nodes, removed[..j + 1], nextId) == (if nodes[h].item.id >= nextId then before - {h} else before)
      && KeptRemoved(nodes, removed[..j + 1], nextId) ==
           if nodes[h].item.id < nextId then KeptRemoved(nodes, removed[..j], nextId) + [h] else KeptRemoved(nodes, removed[..j], nextId)
  {
    assert removed[..j + 1][..j] == removed[..j];
    assert removed[..j + 1] == removed[..j] + [removed[j]];
  }

  /** Both walks together build the nodes of the compressed state. */
  lemma {:induction false} WalksCompose(st: State, i: nat, r: nat)
    requires CanCompress(st, i, r) && OldsOk(st)
    ensures var s := Top(st);
      var nodes := Absorbed(st.nodes, s.olds[..i], s.ctime);
      && Swept(nodes, s.removed[..r], s.nextId) == CompressedState(st, i, r).nodes
      && KeptRemoved(nodes, s.removed[..r], s.nextId) == KeptRemoved(st.nodes, s.removed[..r], s.nextId)
  {
    var s := Top(st);
    var nodes := Absorbed(st.nodes, s.olds[..i], s.ctime);
    forall h | h in st.nodes
      ensures nodes[h].item.id == st.nodes[h].item.id
    {
      OldestIs(s.olds[..i], s.ctime, h);
    }
    hide Absorb, OldsOk;
    KeptRemovedSame(nodes, st.nodes, s.removed[..r], s.nextId);
  }

  lemma {:induction false} KeptRemovedSame(nodes: map<Handle, Node>, nodes': map<Handle, Node>, removed: seq<Handle>, nextId: nat)
    requires nodes.Keys == nodes'.Keys && forall h :: h in nodes ==> nodes[h].item.id == nodes'[h].item.id
    ensures KeptRemoved(nodes, removed, nextId) == KeptRemoved(nodes', removed, nextId)
  {
    if removed != [] {
      KeptRemovedSame(nodes, nodes', removed[..|removed| - 1], nextId);
    }
  }
}
