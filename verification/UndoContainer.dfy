/** The container with undo sessions, as it runs: one table, two lists and a stack of records. */
module UndoContainer {
  import opened Objects
  import opened OrderedIndex
  import opened Container
  import opened Snapshots
  import opened UndoSessions
  import opened UndoSquash
  import opened UndoStamps
  import opened UndoCompress
  import opened UndoCommit
  import opened UndoDelta
  import opened UndoFailure
  import opened UndoTrust
  import opened UndoReplay
  import opened SessionLists

  /** Every allocated node is in the table or in the removed list, and never in both. */
  ghost predicate Owned(nodes: Nodes, main: set<Handle>, removedValues: seq<Handle>) {
    && (forall h :: h in removedValues ==> h in nodes && h !in main)
    && (forall h :: h in nodes ==> h in main || h in removedValues)
  }

  lemma {:induction false} OwnedNew(nodes: Nodes, nodes': Nodes, main: set<Handle>, removedValues: seq<Handle>, h: Handle)
    requires Owned(nodes, main, removedValues) && h !in nodes && nodes'.Keys == nodes.Keys + {h}
    ensures Owned(nodes', main + {h}, removedValues)
  {
  }

  lemma {:induction false} OwnedSame(nodes: Nodes, nodes': Nodes, main: set<Handle>, removedValues: seq<Handle>)
    requires Owned(nodes, main, removedValues) && nodes'.Keys == nodes.Keys
    ensures Owned(nodes', main, removedValues)
  {
  }

  lemma {:induction false} OwnedRemoved(nodes: Nodes, nodes': Nodes, main: set<Handle>, removedValues: seq<Handle>, h: Handle)
    requires Owned(nodes, main, removedValues) && h in main && h in nodes && nodes'.Keys == nodes.Keys
    ensures h !in removedValues && Owned(nodes', main - {h}, [h] + removedValues)
  {
  }

  lemma {:induction false} OwnedDrop(nodes: Nodes, main: set<Handle>, removedValues: seq<Handle>, h: Handle)
    requires Owned(nodes, main, removedValues) && h in main
    ensures Owned(nodes - {h}, main - {h}, removedValues)
  {
  }

  lemma {:induction false} MainLive(n: nat, st: State)
    requires TableOk(n, st)
    ensures st.main <= st.nodes.Keys
  {
  }

  lemma {:induction false} NothingReplayed(nodes: Nodes, olds: seq<Old>, ctime: nat)
    ensures Replayed(nodes, olds[..0], ctime) == nodes
  {
  }

  lemma {:induction false} WalkOlds(olds: seq<Old>, rest: seq<Old>, i: nat)
    requires i <= |olds| && DistinctAddresses(olds + rest)
    ensures OldsEnd(olds[i..] + rest, 0, OldHead(rest)) <==> i == |olds|
    ensures i < |olds| ==> (olds[i..] + rest)[0] == olds[i] && (olds[i..] + rest)[1..] == olds[i + 1..] + rest
  {
    assert olds[i..] + rest == (olds + rest)[i..];
    assert [] + olds[i..] + rest == olds[i..] + rest;
    OldsEndAt([], olds[i..], rest);
  }

  lemma {:induction false} WalkRemoved(removed: seq<Handle>, rest: seq<Handle>, j: nat)
    requires j <= |removed| && DistinctHandles(removed + rest)
    ensures RemovedEnd(removed[j..] + rest, 0, RemovedHead(rest)) <==> j == |removed|
    ensures j < |removed| ==> (removed[j..] + rest)[0] == removed[j] && (removed[j..] + rest)[1..] == removed[j + 1..] + rest
  {
    assert removed[j..] + rest == (removed + rest)[j..];
    assert [] + removed[j..] + rest == removed[j..] + rest;
    RemovedEndAt([], removed[j..], rest);
  }

  /** What the phases of undo need of the state they start from. */
  lemma {:induction false} UndoReady(n: nat, st: State)
    requires Undoable(n, st) && st.sessions != []
    ensures TableOk(n, st) && OldsOk(st) && RemovedOk(st) && st.main <= st.nodes.Keys
    ensures TableOk(n, UndoTop(st)) ==>
      Reinsertable(n, st) && DistinctKeys(n, Replayed(OldNodes(st), Top(st).olds, Top(st).ctime), OldMain(st))
  {
    hide OldsOk, RemovedOk, UndoTop;
    if TableOk(n, UndoTop(st)) {
      TableReinsertable(n, st);
      Phase3Start(st);
      Phase3Within(st, 0);
      ReplayedDistinct(n, st, OldMain(st));
    }
  }

  /** What undo leaves is in order in every index exactly if no two objects share a key. */
  lemma {:induction false} UndoneOrder(n: nat, st: State, indices: seq<seq<Handle>>)
    requires st.sessions != [] && n == |indices| && TableOk(n, st) && OldsOk(st) && RemovedOk(st)
    requires Indexed(TableOk(n, UndoTop(st)), UndoTop(st).nodes, indices, UndoTop(st).main)
    ensures Indexed(true, UndoTop(st).nodes, indices, UndoTop(st).main) <==> TableOk(n, UndoTop(st))
    ensures forall h :: h in UndoTop(st).main && h in UndoTop(st).nodes ==> UndoTop(st).nodes[h].item.id < Top(st).nextId
  {
    forall h | h in UndoTop(st).main
      ensures h in UndoTop(st).nodes && UndoTop(st).nodes[h].item.id < UndoTop(st).nextId
    {
      hide UndoTop, TableOk;
      UndoTopNode(n, st, h);
    }
    UndoLower(st);
    UndoTable(n, st);
    hide UndoTop, TableOk, OldsOk, RemovedOk, Indexed, DistinctKeys;
    if Indexed(true, UndoTop(st).nodes, indices, UndoTop(st).main) {
      IndexedDistinct(UndoTop(st).nodes, indices, UndoTop(st).main);
    }
  }

  lemma {:induction false} OwnedUndo(st: State, removedValues: seq<Handle>, rest: seq<Handle>)
    requires st.sessions != [] && Owned(st.nodes, st.main, removedValues) && removedValues == Top(st).removed + rest
    requires DistinctHandles(removedValues)
    ensures Owned(UndoTop(st).nodes, UndoTop(st).main, rest)
  {
    hide Restore;
    var removed := Top(st).removed;
    forall h | h in rest
      ensures h in removedValues && h !in removed
    {
      var j :| 0 <= j < |rest| && rest[j] == h;
      assert removedValues[|removed| + j] == h;
      assert forall i :: 0 <= i < |removed| ==> removed[i] == removedValues[i];
    }
  }

  lemma {:induction false} NothingAbsorbed(nodes: Nodes, olds: seq<Old>, ctime: nat)
    ensures Absorbed(nodes, olds[..0], ctime) == nodes && KeptOlds(nodes, olds[..0], ctime) == []
  {
  }

  lemma {:induction false} NothingSwept(nodes: Nodes, removed: seq<Handle>, nextId: nat)
    ensures Swept(nodes, removed[..0], nextId) == nodes && KeptRemoved(nodes, removed[..0], nextId) == []
  {
  }

  lemma {:induction false} HandlesDistinct(removed: seq<Handle>, rest: seq<Handle>)
    requires DistinctHandles(removed + rest)
    ensures forall k :: 0 <= k < |removed| ==> removed[k] !in removed[..k]
  {
    assert forall k :: 0 <= k < |removed| ==> removed[k] == (removed + rest)[k];
  }

  /** A backup that compression looks into belongs to a live node. */
  lemma {:induction false} BackupLive(n: nat, q: State, k: nat)
    requires q.sessions != [] && TableOk(n, q) && OldsOk(q) && k < |Top(q).olds| && Top(q).olds[k].mtime < Top(q).ctime
    ensures var o := Top(q).olds[k]; o.cur in q.nodes && (q.nodes[o.cur].erased ==> o.cur !in q.main)
  {
  }

  lemma {:induction false} RemovedAreOut(q: State, r: nat)
    requires CanCompress(q, 0, r) && OldsOk(q) && RemovedOk(q)
    ensures forall h :: h in Top(q).removed[..r] ==> h in q.nodes && h !in q.main
  {
  }

  lemma {:induction false} OwnedCompress(q: State, i: nat, r: nat, removedValues: seq<Handle>, rest: seq<Handle>, removedValues': seq<Handle>)
    requires CanCompress(q, i, r) && Owned(q.nodes, q.main, removedValues) && DistinctHandles(removedValues)
    requires removedValues == Top(q).removed[..r] + rest
    requires removedValues' == KeptRemoved(q.nodes, Top(q).removed[..r], Top(q).nextId) + rest
    ensures Owned(CompressedState(q, i, r).nodes, q.main, removedValues')
  {
    var removed := Top(q).removed[..r];
    hide KeptOlds, Absorb;
    forall h
      ensures h in KeptRemoved(q.nodes, removed, Top(q).nextId) <==> h in removed && h in q.nodes && q.nodes[h].item.id < Top(q).nextId
    {
      KeptRemovedIn(q.nodes, removed, Top(q).nextId, h);
    }
    forall h | h in rest
      ensures h !in removed
    {
      var j :| 0 <= j < |rest| && rest[j] == h;
      assert removedValues[|removed| + j] == h;
      assert forall k :: 0 <= k < |removed| ==> removed[k] == removedValues[k];
    }
    hide KeptRemoved;
  }

  lemma {:induction false} NothingGone(nodes: Nodes, all: seq<Handle>, at: nat)
    requires at <= |all|
    ensures nodes - Elements(all[at..at]) == nodes && all[..at] + all[at..] == all
  {
  }

  lemma {:induction false} DisposeParts(all: seq<Handle>, at: nat, k: nat)
    requires at <= k < |all| && DistinctHandles(all)
    ensures (all[..at] + all[k..])[at] == all[k] && all[k] !in all[..at] + all[k + 1..]
    ensures all[..at] + all[k..] == all[..at] + [all[k]] + all[k + 1..]
    ensures Elements(all[at..k + 1]) == Elements(all[at..k]) + {all[k]}
  {
    assert all[at..k + 1] == all[at..k] + [all[k]];
  }

  lemma {:induction false} DisposeStep(nodes: Nodes, main: set<Handle>, all: seq<Handle>, at: nat, k: nat)
    requires at <= k < |all| && DistinctHandles(all) && Owned(nodes, main, all[..at] + all[k..])
    ensures (all[..at] + all[k..])[at] == all[k] && all[k] in nodes && all[k] !in main
    ensures Owned(nodes - {all[k]}, main, all[..at] + all[k + 1..])
    ensures Elements(all[at..k + 1]) == Elements(all[at..k]) + {all[k]}
  {
    DisposeParts(all, at, k);
    hide DistinctHandles, Elements;
    var front, h, rest := all[..at], all[k], all[k + 1..];
    assert h in front + [h] + rest;
    assert forall g :: g in front + [h] + rest <==> g in front + rest || g == h;
  }

  /** With every session forgotten, all removed nodes can go. */
  lemma {:induction false} AllForgettable(st: State, removedValues: seq<Handle>)
    requires Owned(st.nodes, st.main, removedValues)
    ensures Forgettable(st, |st.sessions|, Elements(removedValues))
  {
  }

  /** The top session's segments as compressed for the session below. */
  function CompressedTop(st: State): Session
    requires |st.sessions| >= 2
  {
    var a, b := Top(st), st.sessions[|st.sessions| - 2];
    a.(olds := KeptOlds(st.nodes, a.olds, b.ctime), removed := KeptRemoved(st.nodes, a.removed, b.nextId))
  }

  /** The newest session's segments come first in the joined session, and are compressed for the one below. */
  lemma {:induction false} MergedHeads(n: nat, st: State)
    requires |st.sessions| >= 2 && Undoable(n, MergedState(st))
    ensures var q, a, b := MergedState(st), Top(st), st.sessions[|st.sessions| - 2];
      var i, r := |a.olds|, |a.removed|;
      && q.nodes == st.nodes && q.main == st.main && q.nextId == st.nextId && q.sessions != []
      && Top(q).olds[..i] == a.olds && Top(q).removed[..r] == a.removed && Top(q).ctime == b.ctime && Top(q).nextId == b.nextId
      && CanCompress(q, i, r) && TableOk(n, q) && OldsOk(q) && RemovedOk(q)
      && CompressedState(q, i, r).main == st.main && CompressedState(q, i, r).nextId == st.nextId
      && CompressedState(q, i, r).sessions == st.sessions[..|st.sessions| - 2] +
           [Session(CompressedTop(st).olds + b.olds, CompressedTop(st).removed + b.removed, b.nextId, b.ctime)]
  {
    hide KeptOlds, KeptRemoved, Absorb, TableOk, OldsOk, RemovedOk, NewStamped;
    var q, a, b := MergedState(st), Top(st), st.sessions[|st.sessions| - 2];
    assert Top(q).olds[..|a.olds|] == a.olds && Top(q).olds[|a.olds|..] == b.olds;
    assert Top(q).removed[..|a.removed|] == a.removed && Top(q).removed[|a.removed|..] == b.removed;
  }

  /** Compressing before the merge is compressing the newer part of the merged session. */
  lemma {:induction false} CompressMerged(n: nat, mono: nat, st0: State, st: State, revision: int)
    requires |st0.sessions| >= 2 && |st.sessions| >= 2 && Shadow(n, mono, MergedState(st0), MergedState(st)) && Top(st0) == Top(st)
    ensures var q0, q, i, r := MergedState(st0), MergedState(st), |Top(st).olds|, |Top(st).removed|;
      && q.sessions != [] && q0.sessions != [] && CanCompress(q, i, r) && CanCompress(q0, i, r)
      && Shadow(n, mono, CompressedState(q0, i, r), CompressedState(q, i, r))
      && ViewOf(CompressedState(q, i, r), revision) == ViewOf(q, revision)
  {
    hide Shadow, ViewOf, CompressedState;
    ShadowCompress(n, mono, MergedState(st0), MergedState(st), |Top(st).olds|, |Top(st).removed|, revision);
  }

  /** A session that has just been compressed is ready to be reported. */
  lemma {:induction false} ReadyForDelta(n: nat, before: State, st: State, byId: seq<Handle>, pos: nat)
    requires Undoable(n, before) && Undoable(n, st) && before.sessions != []
    requires st == CompressedState(before, |Top(before).olds|, |Top(before).removed|)
    requires Ordered(true, st.nodes, 0, byId) && Elements(byId) == st.main && pos <= |byId|
    requires forall h :: h in byId ==> (h in byId[pos..] <==> st.nodes[h].item.id >= Top(before).nextId)
    ensures st.sessions != [] && Compressed(st) && TableOk(n, st) && OldsOk(st) && RemovedOk(st) && ListsNew(st, byId[pos..])
    ensures forall h :: h in byId[pos..] ==> h in st.nodes
    ensures forall h :: h in Top(st).removed ==> h in st.nodes
  {
    hide TableOk, OldsOk, NewStamped, UndoTop;
    CompressedLists(before, |Top(before).olds|, |Top(before).removed|);
    FullyCompressed(before);
    hide Undoable, Compressed, CompressedState;
    assert forall h :: h in byId[pos..] ==> h in byId;
    assert forall h :: h in byId <==> h in Elements(byId);
  }

  lemma {:induction false} NewsAscend(nodes: Nodes, byId: seq<Handle>, pos: nat)
    requires Ordered(true, nodes, 0, byId) && pos <= |byId| && forall h :: h in byId[pos..] ==> h in nodes
    ensures var s := Items(nodes, byId[pos..]); forall i, j :: 0 <= i < j < |s| ==> s[i].id < s[j].id
  {
    forall i, j | 0 <= i < j < |byId| - pos
      ensures Items(nodes, byId[pos..])[i].id < Items(nodes, byId[pos..])[j].id
    {
      assert Below(true, KeyOf(nodes, 0, byId[pos + i]), KeyOf(nodes, 0, byId[pos + j]));
    }
  }

  lemma {:induction false} BackupsReported(n: nat, st: State)
    requires Undoable(n, st) && st.sessions != []
    ensures var s := Top(st); var st' := CompressedState(st, |s.olds|, |s.removed|);
      && st'.sessions != []
      && forall x :: x in OldItems(Top(st').olds) <==> exists o :: o in s.olds && o.mtime < s.ctime && o.cur in st.main && o.item == x
  {
    hide CompressedState, OldItems, TableOk, OldsOk, RemovedOk, NewStamped;
    CompressedLists(st, |Top(st).olds|, |Top(st).removed|);
    forall x
      ensures x in OldItems(Top(CompressedState(st, |Top(st).olds|, |Top(st).removed|)).olds)
        <==> exists o :: o in Top(st).olds && o.mtime < Top(st).ctime && o.cur in st.main && o.item == x
    {
      ReportedOlds(n, st, x);
    }
  }

  lemma {:induction false} CommitForgets(st: State, j: nat, removedValues: seq<Handle>, at: nat)
    requires Owned(st.nodes, st.main, removedValues) && DistinctHandles(removedValues)
    requires j <= |st.sessions| && |RemovedFlat(st.sessions[j..])| <= at <= |removedValues| && RemovedFlat(st.sessions[j..]) <= removedValues
    ensures Forgettable(st, j, Elements(removedValues[at..]))
  {
    BeyondKept(st.sessions, j, removedValues, at);
    assert forall h :: h in removedValues[at..] ==> h in removedValues;
  }

  lemma {:induction false} CutAfter(kept: seq<Old>, rest: seq<Old>, list: seq<Old>)
    requires list == kept + rest
    ensures kept + OneOld(rest) == if |kept| < |list| then list[..|kept| + 1] else list
  {
  }

  lemma {:induction false} CutRemovedAfter(kept: seq<Handle>, rest: seq<Handle>, list: seq<Handle>)
    requires list == kept + rest
    ensures kept + OneRemoved(rest) == if |kept| < |list| then list[..|kept| + 1] else list
    ensures kept <= list
  {
  }

  /** Cutting both lists after the elements that record `j` points at leaves what the kept sessions use. */
  lemma {:induction false} CommitCuts(oldValues: seq<Old>, removedValues: seq<Handle>, stack: seq<UndoState>,
                                      sessions: seq<Session>, staleOld: seq<Old>, staleRemoved: seq<Handle>, j: nat)
    requires Linked(oldValues, removedValues, stack, sessions, staleOld, staleRemoved) && j < |sessions|
    ensures |stack| == |sessions|
    ensures var olds, removed := OldsBefore(sessions, j, staleOld), RemovedBefore(sessions, j, staleRemoved);
      var at, from := OldPosition(oldValues, stack[j].oldValuesEnd), RemovedPosition(removedValues, stack[j].removedValuesEnd);
      var oldValues' := if at < |oldValues| then oldValues[..at + 1] else oldValues;
      var removedValues' := if from < |removedValues| then removedValues[..from + 1] else removedValues;
      && Linked(oldValues', removedValues', stack[j..], sessions[j..], OneOld(olds), OneRemoved(removed))
      && |RemovedFlat(sessions[j..])| <= |removedValues'| <= |removedValues|
      && RemovedFlat(sessions[j..]) <= removedValues
  {
    ListsDistinct(oldValues, removedValues, stack, sessions, staleOld, staleRemoved);
    LinkedCommit(oldValues, removedValues, stack, sessions, staleOld, staleRemoved, j);
    hide Linked, DistinctAddresses, DistinctHandles, OldPosition, RemovedPosition, OldFlat, RemovedFlat;
    var olds, removed := OldsBefore(sessions, j, staleOld), RemovedBefore(sessions, j, staleRemoved);
    OldPositionIs(OldFlat(sessions[j..]), olds);
    RemovedPositionIs(RemovedFlat(sessions[j..]), removed);
    CutAfter(OldFlat(sessions[j..]), olds, oldValues);
    CutRemovedAfter(RemovedFlat(sessions[j..]), removed, removedValues);
  }

  lemma {:induction false} TableContents(n: nat, st: State)
    requires TableOk(n, st)
    ensures st.main <= st.nodes.Keys
    ensures forall id :: id in Table(st) <==> exists h :: h in st.main && st.nodes[h].item.id == id
  {
  }

  /** The container's own test for a collision is the one the specification asks for. */
  lemma {:induction false} RoomFits(n: nat, st: State, h: Handle, o: Object)
    requires TableOk(n, st) && h in st.main && h in st.nodes && o.id == st.nodes[h].item.id
    ensures HasRoom(n, st.nodes, st.main, h, o) <==> Fits(n, Table(st), o)
  {
    hide Fits;
    FitsTable(n, st, o);
  }

  lemma {:induction false} RoomForNewFits(n: nat, st: State, o: Object)
    requires TableOk(n, st) && o.id >= st.nextId
    ensures HasRoomForNew(n, st.nodes, st.main, o) <==> Fits(n, Table(st), o)
  {
    FitsTable(n, st, o);
    hide Fits;
  }

  lemma {:induction false} NothingCommitted(st: State)
    ensures CommittedState(st, 0, {}) == st && Forgettable(st, 0, {})
  {
  }

  lemma {:induction false} UndoableBelow(n: nat, st: State)
    requires Undoable(n, st)
    ensures forall h :: h in st.main && h in st.nodes ==> st.nodes[h].item.id < st.nextId
  {
  }

  lemma {:induction false} ShadowOfNothing(n: nat)
    requires n >= 1
    ensures var st := State(map[], {}, 0, []);
      Shadow(n, 0, st, st) && Undoable(n, st) && Stamped(0, st) && ViewOf(st, 0) == EMPTY
  {
    assert Table(State(map[], {}, 0, [])) == map[];
  }

  lemma {:induction false} NothingOwned()
    ensures Owned(map[], {}, [])
  {
  }

  lemma {:induction false} TableIsOk(n: nat, st: State)
    requires Undoable(n, st)
    ensures TableOk(n, st)
  {
  }

  class UndoMultiIndex {
    const table: MultiIndex
    var undoStack: seq<UndoState>
    var oldValues: seq<Old>
    var removedValues: seq<Handle>
    var revision: int
    var mono: nat
    ghost var sessions: seq<Session>
    ghost var shadow: State
    ghost var staleOld: seq<Old>
    ghost var staleRemoved: seq<Handle>

    ghost function St(): State
      requires table.indices != []
      reads this, table
    {
      State(table.nodes, table.Main(), table.nextId, sessions)
    }

    /** The indices are in order, the lists are those of the sessions, and every node is in one place. */
    ghost predicate Tidy()
      reads this`undoStack, this`oldValues, this`removedValues, this`sessions, this`staleOld, this`staleRemoved, table
      ensures Tidy() ==> table.indices != []
    {
      && table.indices != [] && table.Valid()
      && Linked(oldValues, removedValues, undoStack, sessions, staleOld, staleRemoved)
      && Owned(table.nodes, table.Main(), removedValues)
    }

    /** What the calls need, even where a reverted modify has left a stamp that is too high. */
    ghost predicate Usable()
      reads this, table
      ensures Usable() ==> Tidy()
    {
      Tidy() && Undoable(|table.indices|, St()) && Stamped(mono, St())
    }

    /** But for stamps, the state is one that was reached without a reverted modify. */
    ghost predicate Valid()
      reads this, table
      ensures Valid() ==> Usable()
    {
      Usable() && Shadow(|table.indices|, mono, shadow, St())
    }

    /** The next modify of the node backs it up exactly if undo needs it to. */
    ghost predicate CanTrust(h: Handle)
      requires table.indices != []
      reads this, table
    {
      h in shadow.nodes && h in table.nodes && Trusted(shadow, St(), h)
    }

    /** No stamp is wrong. */
    ghost predicate Clean()
      requires table.indices != []
      reads this, table
    {
      shadow == St()
    }

    lemma {:induction false} CleanTrusts(h: Handle)
      requires Valid() && Clean() && h in table.nodes
      ensures CanTrust(h)
    {
    }

    lemma ShadowIs()
      requires Valid()
      ensures Shadow(|table.indices|, mono, shadow, St())
    {
    }

    /** The address of the newest backup. */
    function NewestAddress(): nat
      reads this
    {
      if oldValues == [] then 0 else oldValues[0].addr
    }

    /** What a client may rely on: the table and the stack of snapshots. */
    ghost function Model(): View
      requires table.indices != []
      reads this, table
    {
      ViewOf(St(), revision)
    }

    constructor (n: nat)
      requires n >= 1
      ensures Valid() && Clean() && fresh(table) && |table.indices| == n && Model() == EMPTY
      ensures St() == State(map[], {}, 0, []) && mono == 0
    {
      hide Shadow, Undoable, Stamped, ViewOf, Linked, MultiIndex.Valid, Owned, Trusted, Elements;
      table := new MultiIndex(n);
      undoStack, oldValues, removedValues := [], [], [];
      revision, mono := 0, 0;
      sessions, staleOld, staleRemoved := [], [], [];
      shadow := State(map[], {}, 0, []);
      new;
      NothingOwned();
      ShadowOfNothing(n);
      LinkedEmpty();
      assert St() == State(map[], {}, 0, []);
    }

    method StartUndo() returns (r: int)
      requires Valid()
      modifies this
      ensures Valid() && Model() == Started(old(Model())) && r == revision
      ensures table.indices == old(table.indices)
      ensures old(Clean()) ==> Clean()
      ensures St() == StartedState(old(St()), mono) && shadow == StartedState(old(shadow), mono) && mono == old(mono) + 1
    {
      hide Shadow, Undoable, Stamped, Linked, Owned, Table, SnapshotsOf, UndoTop, MultiIndex.Valid, OldHead, RemovedHead, DistinctAddresses, DistinctHandles, Elements, Trusted;
      ghost var n, st0, st := |table.indices|, shadow, St();
      var s := Session([], [], table.nextId, mono + 1);
      ListsDistinct(oldValues, removedValues, undoStack, sessions, staleOld, staleRemoved);
      LinkedPush(oldValues, removedValues, undoStack, sessions, staleOld, staleRemoved, s);
      assert [] + oldValues == oldValues && [] + removedValues == removedValues;
      ShadowView(n, mono, st0, st);
      ShadowStart(n, mono, st0, st);
      undoStack := undoStack + [UndoState(OldHead(oldValues), RemovedHead(removedValues), table.nextId, mono + 1)];
      sessions := sessions + [s];
      mono := mono + 1;
      shadow := StartedState(st0, mono);
      revision := revision + 1;
      r := revision;
      assert St() == StartedState(st, mono);
      ShadowView(n, mono, shadow, St());
    }

    /** The argument is unsigned; a negative number stands for one above the limit. */
    method SetRevision(r: int) returns (ok: bool)
      requires Valid()
      modifies this`revision
      ensures ok <==> CanSetRevision(old(Model()), r)
      ensures ok <==> old(undoStack) == [] && 0 <= r <= MAX_REVISION && old(revision) <= r
      ensures Valid() && St() == old(St()) && (old(Clean()) ==> Clean())
      ensures Model() == if ok then old(Model()).(revision := r) else old(Model())
    {
      hide Shadow, Undoable, Stamped, Linked, Owned, ContentsOf, SnapshotsOf, UndoTop;
      ListsDistinct(oldValues, removedValues, undoStack, sessions, staleOld, staleRemoved);
      if undoStack != [] || r < 0 || r > MAX_REVISION || r < revision {
        return false;
      }
      revision := r;
      ok := true;
    }

    /** A new object is stamped, so that modifying it needs no backup. */
    method OnCreate(h: Handle)
      requires table.Valid() && h in table.nodes
      modifies table`nodes
      ensures table.Valid()
      ensures table.nodes == if undoStack != [] then old(table.nodes)[h := old(table.nodes)[h].(mtime := mono)] else old(table.nodes)
    {
      if undoStack != [] {
        table.SetStamp(h, mono);
      }
    }

    /** The constructor is given the next key and may raise it. */
    method Emplace(id: nat, fields: seq<int>) returns (r: Option<Handle>)
      requires Valid() && id >= table.nextId
      modifies table, this`shadow
      ensures Valid() && |table.indices| == old(|table.indices|)
      ensures r.Some? <==> Fits(|table.indices|, old(Model()).contents, Object(id, fields))
      ensures old(HasMembers(|table.indices|, Model().contents)) && |fields| >= |table.indices| - 1 ==>
                (r.Some? <==> MembersFree(|table.indices|, old(Model()).contents, Object(id, fields)))
      ensures r.Some? ==> Model() == Emplaced(old(Model()), id, fields)
      ensures r.Some? ==> Model().contents == old(Model()).contents[id := Object(id, fields)] && table.nextId == id + 1
      ensures old(Clean()) ==> Clean()
      ensures r.Some? ==>
                && r.value !in old(table.nodes) && r.value in table.Main() && r.value in table.nodes
                && table.nodes[r.value] == Node(Object(id, fields), if sessions == [] then 0 else mono, false)
                && St() == EmplacedState(old(St()), r.value, table.nodes[r.value])
                && shadow == EmplacedState(old(shadow), r.value, table.nodes[r.value])
      ensures r.None? ==> St() == old(St()) && table.indices == old(table.indices) && shadow == old(shadow)
    {
      hide Shadow, Undoable, Stamped, Linked, Table, SnapshotsOf, UndoTop, Fits, HasMembers, MembersFree, HasRoomForNew, NodesHaveMembers, Elements, Owned, MultiIndex.Valid;
      ghost var n, st0, st, o := |table.indices|, shadow, St(), Object(id, fields);
      if HasMembers(n, Table(st)) && |fields| >= n - 1 {
        FitsMembers(n, Table(st), o);
      }
      TableIsOk(n, st);
      RoomForNewFits(n, st, o);
      ListsDistinct(oldValues, removedValues, undoStack, sessions, staleOld, staleRemoved);
      r := table.Emplace(id, fields);
      if r.Some? {
        OnCreate(r.value);
        OwnedNew(st.nodes, table.nodes, st.main, removedValues, r.value);
        ghost var node := table.nodes[r.value];
        assert table.nodes == st.nodes[r.value := node];
        assert St() == EmplacedState(st, r.value, node);
        ShadowEmplace(n, mono, st0, st, r.value, node);
        shadow := EmplacedState(st0, r.value, node);
        ShadowView(n, mono, shadow, St());
      } else {
        assert St() == st;
      }
    }

    /** Before the first change of a node in the top session: keeps a copy and stamps the node. */
    method OnModify(h: Handle) returns (backup: Option<Object>)
      requires table.Valid() && h in table.nodes
      requires Linked(oldValues, removedValues, undoStack, sessions, staleOld, staleRemoved)
      modifies this`oldValues, this`sessions, table`nodes
      ensures table.Valid() && table.indices == old(table.indices)
      ensures Linked(oldValues, removedValues, undoStack, sessions, staleOld, staleRemoved)
      ensures backup.Some? <==> old(sessions) != [] && old(table.nodes)[h].mtime < Last(old(sessions)).ctime
      ensures backup.None? ==> oldValues == old(oldValues) && sessions == old(sessions) && table.nodes == old(table.nodes)
      ensures backup.Some? ==>
                && backup.value == old(table.nodes)[h].item
                && oldValues != [] && oldValues[0] == Old(oldValues[0].addr, backup.value, old(table.nodes)[h].mtime, h)
                && oldValues[1..] == old(oldValues)
                && sessions == Lowered(old(sessions)) + [Last(old(sessions)).(olds := [oldValues[0]] + Last(old(sessions)).olds)]
                && table.nodes == old(table.nodes)[h := old(table.nodes)[h].(mtime := mono)]
    {
      hide Linked, MultiIndex.Valid;
      LinkedRecord(oldValues, removedValues, undoStack, sessions, staleOld, staleRemoved);
      if undoStack != [] {
        var info := undoStack[|undoStack| - 1];
        if table.nodes[h].mtime < info.ctime {
          var addr := Allocate(set o | o in oldValues :: o.addr);
          var p := Old(addr, table.nodes[h].item, table.nodes[h].mtime, h);
          assert forall i :: 0 <= i < |oldValues| ==> oldValues[i].addr != addr by {
            assert forall i :: 0 <= i < |oldValues| ==> oldValues[i] in oldValues;
          }
          LinkedPushOld(oldValues, removedValues, undoStack, sessions, staleOld, staleRemoved, p);
          oldValues := [p] + oldValues;
          sessions := Lowered(sessions) + [Last(sessions).(olds := [p] + Last(sessions).olds)];
          table.SetStamp(h, mono);
          return Some(p.item);
        }
      }
      backup := None;
    }

    /** The object of node `h` becomes one with `fields`.  A collision is reported after the value is
        put back, if a backup was taken, and after the object is destroyed, if not. */
    method Modify(h: Handle, fields: seq<int>) returns (ok: bool)
      requires Usable() && h in table.Main() && h in table.nodes
      modifies this`oldValues, this`sessions, this`shadow, table`nodes, table`indices
      ensures |table.indices| == old(|table.indices|)
      ensures ok <==> Fits(|table.indices|, old(Model()).contents, Object(old(table.nodes)[h].item.id, fields))
      ensures old(HasMembers(|table.indices|, Model().contents)) && |fields| >= |table.indices| - 1 ==>
                (ok <==> MembersFree(|table.indices|, old(Model()).contents, Object(old(table.nodes)[h].item.id, fields)))
      ensures ok ==>
                && Usable() && h in table.Main() && h in table.nodes
                && table.nodes[h].item == Object(old(table.nodes)[h].item.id, fields)
                && St() == ModifiedState(old(St()), mono, NewestAddress(), h, table.nodes[h].item)
      ensures ok && old(Valid()) && old(CanTrust(h)) ==>
                && Valid() && Model() == Modified(old(Model()), old(table.nodes)[h].item.id, fields) && (old(Clean()) ==> Clean())
                && shadow == ModifiedState(Restamped(old(shadow), h, old(table.nodes)[h].mtime), mono, NewestAddress(), h, table.nodes[h].item)
      ensures ok && old(Valid()) && !old(CanTrust(h)) && old(Idle(St(), h, Object(table.nodes[h].item.id, fields))) ==>
                && Valid() && Model() == Modified(old(Model()), old(table.nodes)[h].item.id, fields)
                && St() == old(St()) && shadow == old(shadow)
      ensures !ok ==> St() == FailedState(old(St()), mono, h) && oldValues == old(oldValues)
      ensures !ok && old(Reverts(St(), h)) ==> Usable()
      ensures !ok && old(Reverts(St(), h)) && old(Valid()) ==> Valid() && Model() == old(Model()) && shadow == old(shadow)
      ensures !ok && !old(Reverts(St(), h)) ==> old(table.nodes)[h].item.id !in Model().contents
      ensures !ok && old(HarmlessFailure(St(), h)) && old(Valid()) ==>
                && Valid() && Model() == Removed(old(Model()), old(table.nodes)[h].item.id)
                && St() == RemovedState(old(St()), h) && shadow == RemovedState(old(shadow), h)
      ensures ok && old(Valid()) ==>
                (Model() == Modified(old(Model()), old(table.nodes)[h].item.id, fields) && HasShadow(|table.indices|, mono, St())
                 <==> old(CanTrust(h)) || old(Idle(St(), h, Object(table.nodes[h].item.id, fields))))
    {
      hide Shadow, Undoable, Stamped, Table, SnapshotsOf, Fits, HasMembers, MembersFree, Tidy, Trusted, Idle, HasShadow, Reverts, HarmlessFailure, ModifiedState, FailedState, RemovedState;
      ghost var n, st0, st, item := |table.indices|, shadow, St(), Object(table.nodes[h].item.id, fields);
      if HasMembers(n, Table(st)) && |fields| >= n - 1 {
        FitsMembers(n, Table(st), item);
      }
      ghost var valid, trusted := Valid(), CanTrust(h);
      ok := ModifyOrRevert(h, fields);
      if ok {
        AcceptOutcome(n, mono, st0, st, NewestAddress(), h, item, revision);
        if valid {
          AcceptExactly(n, mono, st0, st, NewestAddress(), h, item, revision);
        }
        if valid && trusted {
          shadow := ModifiedState(Restamped(st0, h, st.nodes[h].mtime), mono, NewestAddress(), h, item);
        }
      } else {
        FailOutcome(n, mono, st0, st, h, revision);
        if valid && HarmlessFailure(st, h) {
          shadow := RemovedState(st0, h);
        }
      }
    }

    /** What a modify does to the nodes, the indices and the lists. */
    method ModifyOrRevert(h: Handle, fields: seq<int>) returns (ok: bool)
      requires Usable() && h in table.Main() && h in table.nodes
      modifies this`oldValues, this`sessions, table`nodes, table`indices
      ensures Tidy() && |table.indices| == old(|table.indices|)
      ensures ok <==> Fits(|table.indices|, old(Model()).contents, Object(old(table.nodes)[h].item.id, fields))
      ensures ok ==> St() == ModifiedState(old(St()), mono, NewestAddress(), h, Object(old(table.nodes)[h].item.id, fields))
      ensures !ok ==> St() == FailedState(old(St()), mono, h) && oldValues == old(oldValues)
    {
      hide Undoable, Stamped, Linked, Table, SnapshotsOf, Fits, HasRoom, Elements, Owned, MultiIndex.Valid;
      ghost var n, st, item := |table.indices|, St(), Object(table.nodes[h].item.id, fields);
      TableIsOk(n, st);
      RoomFits(n, st, h, item);
      var backup := OnModify(h);
      MainLive(n, st);
      RoomFrame(n, st.nodes, table.nodes, st.main, h, item);
      ok := table.ModifyWithRevert(h, Object(table.nodes[h].item.id, fields), backup);
      if !ok && backup.Some? {
        oldValues := oldValues[1..];
        sessions := st.sessions;
      }
      if ok || backup.Some? {
        OwnedSame(st.nodes, table.nodes, st.main, removedValues);
      } else {
        OwnedDrop(st.nodes, st.main, removedValues, h);
      }
    }

    /** Tells whether the node just taken out of the table is to be destroyed; if not, keeps it. */
    method OnRemove(h: Handle) returns (destroy: bool)
      requires table.indices != [] && Indexed(true, table.nodes, table.indices, table.Main()) && h in table.nodes && h !in removedValues
      requires Linked(oldValues, removedValues, undoStack, sessions, staleOld, staleRemoved)
      modifies this`removedValues, this`sessions, table`nodes
      ensures Indexed(true, table.nodes, table.indices, table.Main())
      ensures Linked(oldValues, removedValues, undoStack, sessions, staleOld, staleRemoved)
      ensures destroy <==> old(sessions) == [] || old(table.nodes)[h].item.id >= Last(old(sessions)).nextId
      ensures destroy ==> removedValues == old(removedValues) && sessions == old(sessions) && table.nodes == old(table.nodes)
      ensures !destroy ==>
                && removedValues == [h] + old(removedValues)
                && sessions == Lowered(old(sessions)) + [Last(old(sessions)).(removed := [h] + Last(old(sessions)).removed)]
                && table.nodes == old(table.nodes)[h := old(table.nodes)[h].(erased := true)]
    {
      hide Linked, Indexed;
      LinkedRecord(oldValues, removedValues, undoStack, sessions, staleOld, staleRemoved);
      if undoStack != [] {
        var info := undoStack[|undoStack| - 1];
        if table.nodes[h].item.id >= info.oldNextId {
          return true;
        }
        table.SetErased(true, h, true);
        LinkedPushRemoved(oldValues, removedValues, undoStack, sessions, staleOld, staleRemoved, h);
        removedValues := [h] + removedValues;
        sessions := Lowered(sessions) + [Last(sessions).(removed := [h] + Last(sessions).removed)];
        return false;
      }
      destroy := true;
    }

    method Remove(h: Handle)
      requires Valid() && h in table.Main() && h in table.nodes
      modifies this`removedValues, this`sessions, this`shadow, table`nodes, table`indices
      ensures Valid() && |table.indices| == old(|table.indices|)
      ensures Model() == Removed(old(Model()), old(table.nodes)[h].item.id)
      ensures Model() == old(Model()).(contents := old(Model()).contents - {old(table.nodes)[h].item.id})
      ensures old(Clean()) ==> Clean()
      ensures h in old(shadow).nodes && St() == RemovedState(old(St()), h) && shadow == RemovedState(old(shadow), h)
    {
      hide Shadow, Undoable, Stamped, Linked, Table, SnapshotsOf, UndoTop, Elements, Owned, Indexed, IndexedBut;
      ghost var n, st0, st := |table.indices|, shadow, St();
      ShadowView(n, mono, st0, st);
      ShadowRemove(n, mono, st0, st, h);
      OwnedDrop(st.nodes, st.main, removedValues, h);
      OwnedRemoved(st.nodes, st.nodes, st.main, removedValues, h);
      IndexedChange(true, table.nodes, table.nodes, table.indices, table.Main(), h);
      table.Erase(h);
      var destroy := OnRemove(h);
      if destroy {
        table.DisposeNode(true, h);
      } else {
        OwnedSame(st.nodes, table.nodes, table.Main(), removedValues);
      }
      shadow := RemovedState(st0, h);
      assert St() == RemovedState(st, h);
      ShadowView(n, mono, shadow, St());
    }

    /** Takes the backups of the top session off the list and writes them back. */
    method RestoreOldValues(info: UndoState, ghost n: nat, ghost st: State, ghost rest: seq<Old>)
      requires st.sessions != [] && TableOk(n, st) && OldsOk(st) && RemovedOk(st)
      requires oldValues == Top(st).olds + rest && DistinctAddresses(oldValues)
      requires info.oldValuesEnd == OldHead(rest) && info.ctime == Top(st).ctime
      requires table.indices != [] && table.nodes == OldNodes(st) && table.Main() == OldMain(st)
      requires Indexed(false, table.nodes, table.indices, table.Main())
      modifies this`oldValues, table`nodes, table`indices
      ensures oldValues == rest
      ensures table.nodes == Replayed(OldNodes(st), Top(st).olds, Top(st).ctime)
      ensures |table.indices| == old(|table.indices|) && table.Main() == old(table.Main())
      ensures Indexed(false, table.nodes, table.indices, table.Main())
    {
      hide TableOk, OldsOk, RemovedOk, Indexed, Replayed, OldNodes, OldMain, Elements, OldsEnd;
      ghost var olds, i, all := Top(st).olds, 0, oldValues;
      NothingReplayed(OldNodes(st), olds, info.ctime);
      WalkOlds(olds, rest, 0);
      while !OldsEnd(oldValues, 0, info.oldValuesEnd)
        invariant i <= |olds| && oldValues == olds[i..] + rest
        invariant OldsEnd(oldValues, 0, info.oldValuesEnd) <==> i == |olds|
        invariant table.nodes == Replayed(OldNodes(st), olds[..i], info.ctime)
        invariant |table.indices| == old(|table.indices|) && table.Main() == OldMain(st)
        invariant Indexed(false, table.nodes, table.indices, table.Main())
        decreases |oldValues|
      {
        var o := oldValues[0];
        oldValues := oldValues[1..];
        ReplayStep(OldNodes(st), olds, info.ctime, i);
        WalkOlds(olds, rest, i + 1);
        if o.mtime < info.ctime {
          ReplayReady(n, st, i);
          table.RestoreNode(o.cur, o.item, o.mtime);
        }
        i := i + 1;
      }
      assert olds[..i] == olds;
    }

    /** Takes the removed nodes of the top session off the list and puts them back into the table,
        or destroys them if the session had created them. */
    method ReinsertRemoved(info: UndoState, ghost unique: bool, ghost n: nat, ghost st: State, ghost rest: seq<Handle>)
      requires st.sessions != [] && Reinsertable(n, st) && OldsOk(st) && RemovedOk(st)
      requires removedValues == Top(st).removed + rest && DistinctHandles(removedValues)
      requires info.removedValuesEnd == RemovedHead(rest) && info.oldNextId == Top(st).nextId
      requires table.indices != [] && n == |table.indices| && table.nodes == Phase3Nodes(st, 0) && table.Main() == Phase3Main(st, 0)
      requires Indexed(unique, table.nodes, table.indices, table.Main())
      modifies this`removedValues, table`nodes, table`indices
      ensures removedValues == rest
      ensures |table.indices| == n && table.nodes == UndoTop(st).nodes && table.Main() == UndoTop(st).main
      ensures Indexed(unique, table.nodes, table.indices, table.Main())
    {
      hide TableOk, OldsOk, RemovedOk, Indexed, Phase3Nodes, Phase3Main, UndoTop, Elements, RemovedEnd, AllFree, Reinsertable;
      ghost var removed, j := Top(st).removed, 0;
      WalkRemoved(removed, rest, 0);
      while !RemovedEnd(removedValues, 0, info.removedValuesEnd)
        invariant j <= |removed| && removedValues == removed[j..] + rest
        invariant RemovedEnd(removedValues, 0, info.removedValuesEnd) <==> j == |removed|
        invariant |table.indices| == n && table.nodes == Phase3Nodes(st, j) && table.Main() == Phase3Main(st, j)
        invariant Indexed(unique, table.nodes, table.indices, table.Main())
        decreases |removedValues|
      {
        var h := removedValues[0];
        removedValues := removedValues[1..];
        WalkRemoved(removed, rest, j + 1);
        WalkRemoved(removed, rest, j);
        Phase3Step(n, st, j);
        if table.nodes[h].item.id < info.oldNextId {
          table.SetErased(unique, h, false);
          table.Insert(unique, h);
        } else {
          table.DisposeNode(unique, h);
        }
        j := j + 1;
      }
      Phase3End(st);
    }

    /** The program's assertion in undo holds: what comes back finds its keys free. */
    ghost predicate CanUndo()
      reads this, table
    {
      Usable() && (sessions != [] ==> Reinsertable(|table.indices|, St()))
    }

    lemma ValidCanUndo()
      requires Valid()
      ensures CanUndo()
      ensures sessions != [] ==> TableOk(|table.indices|, UndoTop(St()))
    {
      hide Shadow, Undoable, TableOk, Linked, Owned, UndoTop, Reinsertable, Stamped;
      ShadowView(|table.indices|, mono, shadow, St());
      if sessions != [] {
        TableReinsertable(|table.indices|, St());
      }
    }

    /** Back to the table as it was when the top session started, as far as the stamps allow. */
    method Undo()
      requires Valid() || CanUndo()
      modifies this, table
      ensures |table.indices| == old(|table.indices|) && mono == old(mono)
      ensures old(sessions) == [] ==> Usable() && St() == old(St()) && shadow == old(shadow) && revision == old(revision)
      ensures old(sessions) != [] ==>
                && St() == UndoTop(old(St())) && revision == old(revision) - 1
                && (table.Valid() <==> TableOk(|table.indices|, UndoTop(old(St()))))
      ensures old(Valid()) ==> Valid() && Model() == Undone(old(Model())) && (old(Clean()) ==> Clean())
      ensures old(Valid()) && old(sessions) != [] ==>
                old(Model()).snapshots == Model().snapshots + [Snapshot(Model().contents, Model().nextId)]
      ensures old(Valid()) && old(sessions) != [] ==> old(shadow).sessions != [] && shadow == UndoTop(old(shadow))
    {
      hide Shadow, Undoable, Stamped, Linked, Table, SnapshotsOf, UndoTop, Owned, TableOk, MultiIndex.Valid, Reinsertable;
      ghost var n, st0, st, valid := |table.indices|, shadow, St(), Valid();
      if valid {
        ValidCanUndo();
      }
      StackHeight();
      if undoStack == [] {
        return;
      }
      UndoNewest();
      if valid {
        UndoOutcome(n, mono, st0, st, revision + 1);
        shadow := UndoTop(st0);
      }
    }

    /** The three phases of undo, and the end of the newest session. */
    method UndoNewest()
      requires CanUndo() && sessions != []
      modifies this`undoStack, this`oldValues, this`removedValues, this`sessions, this`revision, table
      ensures |table.indices| == old(|table.indices|)
      ensures St() == UndoTop(old(St())) && revision == old(revision) - 1
      ensures table.Valid() <==> TableOk(|table.indices|, UndoTop(old(St())))
      ensures Linked(oldValues, removedValues, undoStack, sessions, staleOld, staleRemoved)
      ensures Owned(table.nodes, table.Main(), removedValues)
    {
      hide Undoable, Stamped, Linked, UndoTop, Owned, Indexed, Elements, Phase3Nodes, Phase3Main, TableOk, OldsOk, RemovedOk;
      hide DistinctKeys, Replayed, Reinsertable;
      ghost var n, st := |table.indices|, St();
      LinkedRecord(oldValues, removedValues, undoStack, sessions, staleOld, staleRemoved);
      var info := undoStack[|undoStack| - 1];
      table.EraseNewIds(info.oldNextId);
      UndoReady(n, st);
      LinkedTop(oldValues, removedValues, undoStack, sessions, staleOld, staleRemoved);
      ListsDistinct(oldValues, removedValues, undoStack, sessions, staleOld, staleRemoved);
      ghost var olds, removed := OldFlat(Lower(st)) + staleOld, RemovedFlat(Lower(st)) + staleRemoved;
      WeakenIndexed(table.nodes, table.indices, table.Main());
      RestoreOldValues(info, n, st, olds);
      ghost var unique := TableOk(n, UndoTop(st));
      if unique {
        StrictOnceDistinct(table.nodes, table.indices, table.Main());
      }
      Phase3Start(st);
      ReinsertRemoved(info, unique, n, st, removed);
      OwnedUndo(st, old(removedValues), removed);
      UndoneOrder(n, st, table.indices);
      UndoLower(st);
      table.nextId := info.oldNextId;
      undoStack := undoStack[..|undoStack| - 1];
      sessions := Lower(st);
      revision := revision - 1;
    }

    method UndoAll()
      requires Valid()
      modifies this, table
      ensures Valid() && |table.indices| == old(|table.indices|)
      ensures Model() == UndoneAll(old(Model()))
      ensures sessions == [] && (old(Clean()) ==> Clean())
      ensures St() == AllUndone(old(St())) && shadow == AllUndone(old(shadow))
    {
      hide Usable, Table, UndoTop, MultiIndex.Valid, Undoable, Stamped, Inv;
      StackHeight();
      while undoStack != []
        invariant Valid() && |table.indices| == old(|table.indices|) && |undoStack| == |sessions|
        invariant UndoneAll(Model()) == UndoneAll(old(Model()))
        invariant old(Clean()) ==> Clean()
        invariant AllUndone(St()) == AllUndone(old(St())) && AllUndone(shadow) == AllUndone(old(shadow))
        decreases |undoStack|
      {
        ghost var height := |undoStack|;
        Undo();
        StackHeight();
        assert |Model().snapshots| == height - 1;
      }
    }

    lemma StackHeight()
      requires Usable()
      ensures |undoStack| == |sessions|
    {
    }

    /** Walks the first `i` backups of `q`'s top session, dropping what undo would skip and moving
        the backups of removed nodes into the nodes. */
    method CompressOlds(end: Option<nat>, ctime: nat, ghost n: nat, ghost q: State, ghost i: nat, ghost rest: seq<Old>)
      requires CanCompress(q, i, 0) && TableOk(n, q) && OldsOk(q) && ctime == Top(q).ctime
      requires oldValues == Top(q).olds[..i] + rest && DistinctAddresses(oldValues) && end == OldHead(rest)
      requires table.indices != [] && table.nodes == q.nodes && table.Main() == q.main
      requires Indexed(true, table.nodes, table.indices, table.Main())
      modifies this`oldValues, table`nodes
      ensures oldValues == KeptOlds(q.nodes, Top(q).olds[..i], ctime) + rest && DistinctAddresses(oldValues)
      ensures table.nodes == Absorbed(q.nodes, Top(q).olds[..i], ctime)
      ensures Indexed(true, table.nodes, table.indices, table.Main())
    {
      hide TableOk, OldsOk, Indexed, Elements, OldsEnd, DistinctAddresses, KeptOlds, Absorbed, Midway;
      ghost var olds, k := Top(q).olds[..i], 0;
      NothingAbsorbed(q.nodes, olds, ctime);
      var it := 0;
      MidwayEnds(KeptOlds(q.nodes, olds, ctime), olds, rest);
      FilterOldsStart(olds, rest);
      while !OldsEnd(oldValues, it, end)
        invariant k <= |olds| && it == |KeptOlds(q.nodes, olds[..k], ctime)| <= |oldValues|
        invariant oldValues == Midway(KeptOlds(q.nodes, olds[..k], ctime), olds, k, rest) && DistinctAddresses(oldValues)
        invariant OldsEnd(oldValues, it, end) <==> k == |olds|
        invariant table.nodes == Absorbed(q.nodes, olds[..k], ctime) && table.Main() == q.main
        invariant Indexed(true, table.nodes, table.indices, table.Main())
        decreases |oldValues| - it
      {
        ghost var kept := KeptOlds(q.nodes, olds[..k], ctime);
        FilterOldsStep(kept, olds, k, rest);
        var v := oldValues[it];
        AbsorbStep(q.nodes, olds, ctime, k);
        if v.mtime >= ctime {
          oldValues := oldValues[..it] + oldValues[it + 1..];
        } else {
          BackupLive(n, q, k);
          if table.nodes[v.cur].erased {
            table.Overwrite(v.cur, v.item, v.mtime);
            oldValues := oldValues[..it] + oldValues[it + 1..];
          } else {
            it := it + 1;
          }
        }
        k := k + 1;
      }
      assert olds[..k] == olds;
    }

    /** Walks the first `r` removed nodes of `q`'s top session, destroying those the session created. */
    method CompressRemoved(end: Option<Handle>, nextId: nat, ghost nodes: Nodes, ghost removed: seq<Handle>, ghost rest: seq<Handle>)
      requires removedValues == removed + rest && DistinctHandles(removedValues) && end == RemovedHead(rest)
      requires table.indices != [] && table.nodes == nodes && Indexed(true, table.nodes, table.indices, table.Main())
      requires forall h :: h in removed ==> h in nodes && h !in table.Main()
      modifies this`removedValues, table`nodes
      ensures removedValues == KeptRemoved(nodes, removed, nextId) + rest && DistinctHandles(removedValues)
      ensures table.nodes == Swept(nodes, removed, nextId)
      ensures Indexed(true, table.nodes, table.indices, table.Main())
    {
      hide Indexed, Elements, RemovedEnd, DistinctHandles, KeptRemoved, Swept, Midway;
      ghost var k := 0;
      NothingSwept(nodes, removed, nextId);
      var it := 0;
      MidwayEnds(KeptRemoved(nodes, removed, nextId), removed, rest);
      FilterRemovedStart(removed, rest);
      HandlesDistinct(removed, rest);
      while !RemovedEnd(removedValues, it, end)
        invariant k <= |removed| && it == |KeptRemoved(nodes, removed[..k], nextId)| <= |removedValues|
        invariant removedValues == Midway(KeptRemoved(nodes, removed[..k], nextId), removed, k, rest) && DistinctHandles(removedValues)
        invariant RemovedEnd(removedValues, it, end) <==> k == |removed|
        invariant table.nodes == Swept(nodes, removed[..k], nextId)
        invariant Indexed(true, table.nodes, table.indices, table.Main())
        decreases |removedValues| - it
      {
        ghost var kept := KeptRemoved(nodes, removed[..k], nextId);
        FilterRemovedStep(kept, removed, k, rest);
        var h := removedValues[it];
        assert h in removed;
        SweepStep(nodes, removed, nextId, k);
        if table.nodes[h].item.id >= nextId {
          removedValues := removedValues[..it] + removedValues[it + 1..];
          table.DisposeNode(true, h);
        } else {
          it := it + 1;
        }
        k := k + 1;
      }
      assert removed[..k] == removed;
    }

    /** Compresses the newest session's part of the lists for the sake of `session`, which is the
        newest session itself or the one it is about to be merged into. */
    method CompressImpl(session: UndoState, ghost n: nat, ghost q: State, ghost i: nat, ghost r: nat, ghost olds: seq<Old>, ghost removed: seq<Handle>)
      requires CanCompress(q, i, r) && TableOk(n, q) && OldsOk(q) && RemovedOk(q)
      requires session.ctime == Top(q).ctime && session.oldNextId == Top(q).nextId
      requires oldValues == Top(q).olds[..i] + olds && DistinctAddresses(oldValues)
      requires removedValues == Top(q).removed[..r] + removed && DistinctHandles(removedValues)
      requires undoStack != []
      requires undoStack[|undoStack| - 1].oldValuesEnd == OldHead(olds) && undoStack[|undoStack| - 1].removedValuesEnd == RemovedHead(removed)
      requires table.indices != [] && table.nodes == q.nodes && table.Main() == q.main
      requires Indexed(true, table.nodes, table.indices, table.Main())
      modifies this`oldValues, this`removedValues, table`nodes
      ensures oldValues == KeptOlds(q.nodes, Top(q).olds[..i], Top(q).ctime) + olds && DistinctAddresses(oldValues)
      ensures removedValues == KeptRemoved(q.nodes, Top(q).removed[..r], Top(q).nextId) + removed && DistinctHandles(removedValues)
      ensures table.nodes == CompressedState(q, i, r).nodes
      ensures Indexed(true, table.nodes, table.indices, table.Main())
    {
      hide TableOk, OldsOk, RemovedOk, Indexed, Elements, DistinctAddresses, DistinctHandles, Absorb, CompressedState;
      CompressOlds(undoStack[|undoStack| - 1].oldValuesEnd, session.ctime, n, q, i, olds);
      WalksCompose(q, i, r);
      RemovedAreOut(q, r);
      CompressRemoved(undoStack[|undoStack| - 1].removedValuesEnd, session.oldNextId, table.nodes, Top(q).removed[..r], removed);
    }

    method CompressLastUndoSession()
      requires Valid() && undoStack != []
      modifies this`oldValues, this`removedValues, this`sessions, this`shadow, table`nodes
      ensures Valid() && Model() == old(Model()) && |sessions| == old(|sessions|)
      ensures old(sessions) != [] && old(shadow).sessions == old(sessions)
      ensures var s := Last(old(sessions));
        && St() == CompressedState(old(St()), |s.olds|, |s.removed|)
        && shadow == CompressedState(old(shadow), |s.olds|, |s.removed|)
    {
      hide Shadow, Undoable, Stamped, Linked, Table, SnapshotsOf, UndoTop, Owned, TableOk, OldsOk, RemovedOk, DistinctAddresses, DistinctHandles;
      hide KeptOlds, KeptRemoved, Indexed, Elements, Absorb;
      ghost var n, st0, st := |table.indices|, shadow, St();
      LinkedRecord(oldValues, removedValues, undoStack, sessions, staleOld, staleRemoved);
      LinkedTop(oldValues, removedValues, undoStack, sessions, staleOld, staleRemoved);
      ListsDistinct(oldValues, removedValues, undoStack, sessions, staleOld, staleRemoved);
      UndoReady(n, st);
      ShadowView(n, mono, st0, st);
      ghost var s, i, r := Top(st), |Top(st).olds|, |Top(st).removed|;
      ghost var olds, removed := OldFlat(Lower(st)) + staleOld, RemovedFlat(Lower(st)) + staleRemoved;
      assert s.olds[..i] == s.olds && s.olds[i..] == [] && s.removed[..r] == s.removed && s.removed[r..] == [];
      ghost var before := removedValues;
      CompressImpl(undoStack[|undoStack| - 1], n, st, i, r, olds, removed);
      ghost var s' := Top(CompressedState(st, i, r));
      assert oldValues == s'.olds + olds && removedValues == s'.removed + removed;
      LinkedReplace(old(oldValues), before, undoStack, st.sessions, staleOld, staleRemoved, s');
      sessions := Lower(st) + [s'];
      shadow := CompressedState(st0, i, r);
      OwnedCompress(st, i, r, before, removed, removedValues);
      ShadowCompress(n, mono, st0, st, i, r, revision);
      assert St() == CompressedState(st, i, r);
      ShadowView(n, mono, shadow, St());
      UndoableBelow(n, St());
    }

    /** Destroys every backup and every removed node. */
    method DisposeUndo()
      requires table.indices != []
      requires table.Valid() && Owned(table.nodes, table.Main(), removedValues) && DistinctHandles(removedValues)
      modifies this`oldValues, this`removedValues, table`nodes
      ensures table.Valid() && oldValues == [] && removedValues == []
      ensures table.nodes == old(table.nodes) - Elements(old(removedValues)) && Owned(table.nodes, table.Main(), [])
    {
      oldValues := [];
      DisposeRemoved(0);
    }

    /** Destroys the removed nodes from position `at` on. */
    method DisposeRemoved(at: nat)
      requires at <= |removedValues| && table.indices != []
      requires table.Valid() && Owned(table.nodes, table.Main(), removedValues) && DistinctHandles(removedValues)
      modifies this`removedValues, table`nodes
      ensures table.Valid() && removedValues == old(removedValues)[..at]
      ensures table.nodes == old(table.nodes) - Elements(old(removedValues)[at..])
      ensures Owned(table.nodes, table.Main(), removedValues)
    {
      hide MultiIndex.Valid, Owned, Elements, DistinctHandles;
      ghost var all, nodes, k := removedValues, table.nodes, at;
      NothingGone(nodes, all, at);
      while |removedValues| > at
        invariant at <= k <= |all| && removedValues == all[..at] + all[k..]
        invariant table.Valid() && Owned(table.nodes, table.Main(), removedValues)
        invariant table.nodes == nodes - Elements(all[at..k])
        decreases |removedValues|
      {
        var h := removedValues[at];
        DisposeStep(table.nodes, table.Main(), all, at, k);
        assert removedValues[..at] == all[..at] && removedValues[at + 1..] == all[k + 1..];
        removedValues := removedValues[..at] + removedValues[at + 1..];
        table.DisposeNode(true, h);
        k := k + 1;
      }
      assert all[at..k] == all[at..];
    }

    /** Forgets every session. */
    method ForgetAll() returns (ghost gone: set<Handle>)
      requires Valid()
      modifies this`undoStack, this`oldValues, this`removedValues, this`sessions, this`shadow, this`staleOld, this`staleRemoved, table`nodes
      ensures Valid() && |table.indices| == old(|table.indices|)
      ensures Model() == old(Model()).(snapshots := []) && sessions == []
      ensures Forgettable(old(St()), |old(sessions)|, gone) && |old(sessions)| == |old(shadow).sessions|
      ensures St() == CommittedState(old(St()), |old(sessions)|, gone) && shadow == CommittedState(old(shadow), |old(sessions)|, gone)
    {
      hide Shadow, Undoable, Stamped, Linked, Table, SnapshotsOf, UndoTop, Owned, DistinctHandles, DistinctAddresses, MultiIndex.Valid, Elements, Forgettable;
      ghost var n, st0, st := |table.indices|, shadow, St();
      ListsDistinct(oldValues, removedValues, undoStack, sessions, staleOld, staleRemoved);
      ShadowView(n, mono, st0, st);
      AllForgettable(st, removedValues);
      gone := Elements(removedValues);
      ShadowCommit(n, mono, st0, st, |sessions|, gone);
      DisposeUndo();
      undoStack := [];
      sessions, staleOld, staleRemoved := [], [], [];
      shadow := CommittedState(st0, |st0.sessions|, gone);
      assert St() == CommittedState(st, |st.sessions|, gone);
      LinkedEmpty();
    }

    /** Joins the top two sessions; a single session is simply forgotten. */
    method SquashFast()
      requires Valid() || (Usable() && |sessions| >= 2)
      modifies this, table
      ensures |table.indices| == old(|table.indices|) && Tidy() && mono == old(mono)
      ensures old(Valid()) ==> Valid() && Model() == Squashed(old(Model())) && (old(Clean()) ==> Clean())
      ensures old(Valid()) ==> Model().contents == old(Model()).contents && Model().nextId == old(Model()).nextId
      ensures |old(sessions)| >= 2 ==>
          && St() == MergedState(old(St())) && revision == old(revision) - 1
          && (old(Valid()) ==> |old(shadow).sessions| >= 2 && shadow == MergedState(old(shadow)))
      ensures |old(sessions)| < 2 ==> sessions == [] && PartOf(St(), old(St())) && PartOf(shadow, old(shadow))
    {
      hide Shadow, Undoable, Stamped, Table, SnapshotsOf, MultiIndex.Valid, Linked, Owned, Forgettable;
      ghost var n, st0, st, valid := |table.indices|, shadow, St(), Valid();
      StackHeight();
      if undoStack == [] {
        ShadowView(n, mono, st0, st);
        return;
      } else if |undoStack| == 1 {
        ShadowView(n, mono, st0, st);
        var _ := ForgetAll();
        revision := revision - 1;
        return;
      }
      MergeNewest();
      if valid {
        ShadowView(n, mono, st0, st);
        ShadowMerge(n, mono, st0, st, revision + 1);
        shadow := MergedState(st0);
        ShadowView(n, mono, shadow, St());
      }
    }

    /** Drops the newest record; its lists now belong to the session below. */
    method MergeNewest()
      requires Tidy() && |sessions| >= 2
      modifies this`undoStack, this`sessions, this`revision
      ensures Tidy() && St() == MergedState(old(St())) && revision == old(revision) - 1
    {
      hide Linked, Owned, DistinctHandles, DistinctAddresses, MultiIndex.Valid;
      ghost var st := St();
      LinkedRecord(oldValues, removedValues, undoStack, sessions, staleOld, staleRemoved);
      LinkedMerge(oldValues, removedValues, undoStack, sessions, staleOld, staleRemoved);
      sessions := MergedState(st).sessions;
      undoStack := undoStack[..|undoStack| - 1];
      revision := revision - 1;
      assert St() == MergedState(st);
    }

    /** Joins the top two sessions and drops what the joined session does not need. */
    method SquashAndCompress()
      requires Valid() || CanCompressSquash()
      modifies this, table
      ensures |table.indices| == old(|table.indices|) && Tidy() && mono == old(mono)
      ensures old(Valid()) ==> Valid() && Model() == Squashed(old(Model())) && (old(Clean()) ==> Clean())
      ensures old(Valid()) ==> Model().contents == old(Model()).contents && Model().nextId == old(Model()).nextId
      ensures |old(sessions)| >= 2 ==>
          && var i, r := |Last(old(sessions)).olds|, |Last(old(sessions)).removed|;
          && CanCompress(MergedState(old(St())), i, r)
          && St() == CompressedState(MergedState(old(St())), i, r) && revision == old(revision) - 1
          && (old(Valid()) ==>
                && |old(shadow).sessions| >= 2 && CanCompress(MergedState(old(shadow)), i, r)
                && shadow == CompressedState(MergedState(old(shadow)), i, r))
      ensures |old(sessions)| < 2 ==> sessions == [] && PartOf(St(), old(St())) && PartOf(shadow, old(shadow))
    {
      hide Shadow, Undoable, Stamped, Table, SnapshotsOf, MultiIndex.Valid, Linked, Owned, CompressedState, UndoTop, PartOf;
      ghost var n, st0, st, valid := |table.indices|, shadow, St(), Valid();
      StackHeight();
      if |undoStack| < 2 {
        SquashFast();
        return;
      }
      ghost var i, r := |Top(st).olds|, |Top(st).removed|;
      if valid {
        ShadowView(n, mono, st0, st);
        ShadowMerge(n, mono, st0, st, revision);
        CompressMerged(n, mono, st0, st, revision - 1);
        ShadowView(n, mono, MergedState(st0), MergedState(st));
      }
      CompressAndMerge();
      if valid {
        shadow := CompressedState(MergedState(st0), i, r);
        ShadowView(n, mono, shadow, St());
      }
    }

    /** Compression of the two newest sessions as one has what it needs, even where a stamp is too high. */
    ghost predicate CanCompressSquash()
      reads this, table
    {
      Usable() && |sessions| >= 2 && Undoable(|table.indices|, MergedState(St()))
    }

    /** Compresses the newest session for the one below and joins the two. */
    method CompressAndMerge()
      requires Tidy() && |sessions| >= 2 && Undoable(|table.indices|, MergedState(St()))
      modifies this`undoStack, this`oldValues, this`removedValues, this`sessions, this`revision, table`nodes
      ensures Tidy() && revision == old(revision) - 1
      ensures var i, r := |Last(old(sessions)).olds|, |Last(old(sessions)).removed|;
        && CanCompress(MergedState(old(St())), i, r)
        && St() == CompressedState(MergedState(old(St())), i, r)
    {
      hide Undoable, Linked, UndoTop, Owned, DistinctHandles, DistinctAddresses, Indexed, Elements;
      hide TableOk, OldsOk, RemovedOk, KeptOlds, KeptRemoved, Absorb, CompressedState;
      LinkedRecord(oldValues, removedValues, undoStack, sessions, staleOld, staleRemoved);
      ghost var n, st := |table.indices|, St();
      ghost var q, a := MergedState(st), Top(st);
      ghost var i, r := |a.olds|, |a.removed|;
      MergedHeads(n, st);
      CompressedMain(n, q, i, r);
      LinkedTop(oldValues, removedValues, undoStack, sessions, staleOld, staleRemoved);
      LinkedSecond(oldValues, removedValues, undoStack, sessions, staleOld, staleRemoved);
      ListsDistinct(oldValues, removedValues, undoStack, sessions, staleOld, staleRemoved);
      ghost var olds, removed := OldFlat(Lower(st)) + staleOld, RemovedFlat(Lower(st)) + staleRemoved;
      CompressImpl(undoStack[|undoStack| - 2], n, q, i, r, olds, removed);
      OwnedCompress(q, i, r, old(removedValues), removed, removedValues);
      LinkedReplace(old(oldValues), old(removedValues), undoStack, st.sessions, staleOld, staleRemoved, CompressedTop(st));
      ghost var replaced := Lower(st) + [CompressedTop(st)];
      LinkedMerge(oldValues, removedValues, undoStack, replaced, staleOld, staleRemoved);
      assert replaced[..|replaced| - 2] == st.sessions[..|st.sessions| - 2];
      sessions := CompressedState(q, i, r).sessions;
      undoStack := undoStack[..|undoStack| - 1];
      revision := revision - 1;
      assert St() == CompressedState(q, i, r);
    }

    method Squash()
      requires Valid() || CanCompressSquash()
      modifies this, table
      ensures |table.indices| == old(|table.indices|) && Tidy() && mono == old(mono)
      ensures old(Valid()) ==> Valid() && Model() == Squashed(old(Model())) && (old(Clean()) ==> Clean())
      ensures old(Valid()) ==> Model().contents == old(Model()).contents && Model().nextId == old(Model()).nextId
      ensures |old(sessions)| >= 2 ==>
          && var i, r := |Last(old(sessions)).olds|, |Last(old(sessions)).removed|;
          && CanCompress(MergedState(old(St())), i, r)
          && St() == CompressedState(MergedState(old(St())), i, r) && revision == old(revision) - 1
          && (old(Valid()) ==>
                && |old(shadow).sessions| >= 2 && CanCompress(MergedState(old(shadow)), i, r)
                && shadow == CompressedState(MergedState(old(shadow)), i, r))
      ensures |old(sessions)| < 2 ==> sessions == [] && PartOf(St(), old(St())) && PartOf(shadow, old(shadow))
    {
      SquashAndCompress();
    }

    /** Reports what the newest session has done, after compressing it, which no client can see. */
    method LastUndoSession() returns (delta: Delta)
      requires Valid()
      modifies this`oldValues, this`removedValues, this`sessions, this`shadow, table`nodes
      ensures Valid() && Model() == old(Model()) && |sessions| == old(|sessions|)
      ensures Model().snapshots == [] ==> delta == Delta([], [], [])
      ensures Model().snapshots != [] ==>
                IsDelta(delta, Model().snapshots[|Model().snapshots| - 1].contents, Model().contents)
      ensures forall i, j :: 0 <= i < j < |delta.newValues| ==> delta.newValues[i].id < delta.newValues[j].id
      ensures old(sessions) != [] ==> forall x ::
                x in delta.oldValues <==>
                exists o :: o in Last(old(sessions)).olds && o.mtime < Last(old(sessions)).ctime && o.cur in old(table.Main()) && o.item == x
      ensures old(sessions) == [] ==> St() == old(St()) && shadow == old(shadow)
      ensures old(sessions) != [] ==>
        && old(shadow).sessions == old(sessions)
        && var s := Last(old(sessions));
        && St() == CompressedState(old(St()), |s.olds|, |s.removed|)
        && shadow == CompressedState(old(shadow), |s.olds|, |s.removed|)
    {
      hide Shadow, Undoable, Stamped, Linked, Table, SnapshotsOf, UndoTop, Owned, DistinctHandles, DistinctAddresses, Indexed, Ordered, Elements, IsDelta, RemovedOk, OldsOk, TableOk;
      hide Compressed, ListsNew, CompressedState;
      LinkedRecord(oldValues, removedValues, undoStack, sessions, staleOld, staleRemoved);
      if undoStack == [] {
        return Delta([], [], []);
      }
      ghost var before := St();
      BackupsReported(|table.indices|, before);
      CompressLastUndoSession();
      ghost var n, st := |table.indices|, St();
      LinkedTop(oldValues, removedValues, undoStack, sessions, staleOld, staleRemoved);
      LinkedRecord(oldValues, removedValues, undoStack, sessions, staleOld, staleRemoved);
      ListsDistinct(oldValues, removedValues, undoStack, sessions, staleOld, staleRemoved);
      var info := undoStack[|undoStack| - 1];
      var pos := table.FirstNew(info.oldNextId);
      ghost var olds, removed := OldFlat(Lower(st)) + staleOld, RemovedFlat(Lower(st)) + staleRemoved;
      OldPositionIs(Top(st).olds, olds);
      RemovedPositionIs(Top(st).removed, removed);
      var news := table.indices[0][pos..];
      var oldEnd, removedEnd := OldPosition(oldValues, info.oldValuesEnd), RemovedPosition(removedValues, info.removedValuesEnd);
      assert oldValues[..oldEnd] == Top(st).olds && removedValues[..removedEnd] == Top(st).removed;
      ReadyForDelta(n, before, st, table.indices[0], pos);
      NewsAscend(table.nodes, table.indices[0], pos);
      delta := Delta(Items(table.nodes, news), OldItems(oldValues[..oldEnd]), Items(table.nodes, removedValues[..removedEnd]));
      ValidCanUndo();
      SessionDelta(n, st, news);
      TopSnapshot(st);
    }

    /** Cuts both lists just after the elements the record points at. */
    method Dispose(info: UndoState)
      requires table.indices != []
      requires table.Valid() && Owned(table.nodes, table.Main(), removedValues) && DistinctHandles(removedValues)
      modifies this`oldValues, this`removedValues, table`nodes
      ensures var at := OldPosition(old(oldValues), info.oldValuesEnd);
        oldValues == if at < |old(oldValues)| then old(oldValues)[..at + 1] else old(oldValues)
      ensures var at := RemovedPosition(old(removedValues), info.removedValuesEnd);
        && removedValues == (if at < |old(removedValues)| then old(removedValues)[..at + 1] else old(removedValues))
        && table.nodes == old(table.nodes) - Elements(old(removedValues)[|removedValues|..])
      ensures table.Valid() && Owned(table.nodes, table.Main(), removedValues)
    {
      hide MultiIndex.Valid, Owned, DistinctHandles, OldPosition, RemovedPosition;
      var oldStart, removedStart := OldPosition(oldValues, info.oldValuesEnd), RemovedPosition(removedValues, info.removedValuesEnd);
      if oldStart < |oldValues| {
        oldValues := oldValues[..oldStart + 1];
      }
      if removedStart < |removedValues| {
        DisposeRemoved(removedStart + 1);
      }
    }

    /** Forgets the oldest `j` sessions, but not all. */
    method ForgetOldest(j: nat) returns (ghost gone: set<Handle>)
      requires Valid() && j < |undoStack|
      modifies this`undoStack, this`oldValues, this`removedValues, this`sessions, this`shadow, this`staleOld, this`staleRemoved, table`nodes
      ensures Valid() && |table.indices| == old(|table.indices|)
      ensures |old(sessions)| == |old(shadow).sessions| == |old(undoStack)| && |sessions| == |old(sessions)| - j
      ensures Model() == old(Model()).(snapshots := old(Model()).snapshots[j..])
      ensures Forgettable(old(St()), j, gone)
      ensures St() == CommittedState(old(St()), j, gone) && shadow == CommittedState(old(shadow), j, gone)
    {
      hide Shadow, Undoable, Stamped, Linked, Table, SnapshotsOf, UndoTop, Owned, DistinctHandles, DistinctAddresses, MultiIndex.Valid, Elements;
      hide OldPosition, RemovedPosition, OldFlat, RemovedFlat, OneOld, OneRemoved, Forgettable, Inv;
      ghost var n, st0, st := |table.indices|, shadow, St();
      LinkedRecord(oldValues, removedValues, undoStack, sessions, staleOld, staleRemoved);
      ListsDistinct(oldValues, removedValues, undoStack, sessions, staleOld, staleRemoved);
      ShadowView(n, mono, st0, st);
      CommitCuts(oldValues, removedValues, undoStack, sessions, staleOld, staleRemoved, j);
      Dispose(undoStack[j]);
      ghost var olds, removed := OldsBefore(sessions, j, staleOld), RemovedBefore(sessions, j, staleRemoved);
      gone := Elements(old(removedValues)[|removedValues|..]);
      CommitForgets(st, j, old(removedValues), |removedValues|);
      ShadowCommit(n, mono, st0, st, j, gone);
      undoStack := undoStack[j..];
      sessions, staleOld, staleRemoved := sessions[j..], OneOld(olds), OneRemoved(removed);
      shadow := CommittedState(st0, j, gone);
      assert St() == CommittedState(st, j, gone);
    }

    /** Forgets every session up to revision `r`.  What comes back is the container's revision. */
    method Commit(r: int) returns (result: int, ghost gone: set<Handle>)
      requires Valid()
      modifies this, table
      ensures Valid() && |table.indices| == old(|table.indices|)
      ensures Model() == Committed(old(Model()), r) && result == revision
      ensures |sessions| <= |old(sessions)| == |old(shadow).sessions|
      ensures var j := |old(sessions)| - |sessions|;
        && Forgettable(old(St()), j, gone)
        && St() == CommittedState(old(St()), j, gone) && shadow == CommittedState(old(shadow), j, gone)
    {
      hide Usable, Shadow, Table, SnapshotsOf, MultiIndex.Valid, Elements, Forgettable;
      ShadowView(|table.indices|, mono, shadow, St());
      StackHeight();
      var target := if r < revision then r else revision;
      if target == revision {
        gone := ForgetAll();
      } else if revision - target < |undoStack| {
        gone := ForgetOldest(|undoStack| - (revision - target));
      } else {
        gone := {};
        NothingCommitted(shadow);
        NothingCommitted(St());
      }
      result := revision;
    }

    /** Looks an object up by its primary key. */
    method Find(id: nat) returns (h: Option<Handle>)
      requires Usable()
      ensures h.Some? <==> id in Model().contents
      ensures h.Some? ==> h.value in table.Main() && h.value in table.nodes && table.nodes[h.value].item.id == id
    {
      hide Undoable, Stamped, Linked, ContentsOf, SnapshotsOf, Owned;
      TableIsOk(|table.indices|, St());
      TableContents(|table.indices|, St());
      h := table.Find(id);
    }

    predicate HasUndoSession()
      requires Usable()
      reads this, table
      ensures HasUndoSession() <==> Model().snapshots != []
    {
      undoStack != []
    }
  }
}
