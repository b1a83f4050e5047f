/** The three phases of undo on the nodes: destroy the new ones, replay the backups, put the removed
    ones back.  Together they build exactly `UndoTop`. */
module UndoReplay {
  import opened Objects
  import opened OrderedIndex
  import opened UndoSessions

  /** The table after its new objects have been destroyed. */
  function OldMain(st: State): set<Handle>
    requires st.sessions != []
  {
    set h | h in st.main && h in st.nodes && st.nodes[h].item.id < Top(st).nextId
  }

  function OldNodes(st: State): Nodes
    requires st.sessions != []
  {
    map h | h in st.nodes && (h in st.main ==> st.nodes[h].item.id < Top(st).nextId) :: st.nodes[h]
  }

  function ReplayNode(olds: seq<Old>, ctime: nat, h: Handle, node: Node): Node {
    var o := Oldest(olds, ctime, h);
    if o.Some? then node.(item := o.value.item, mtime := o.value.mtime) else node
  }

  /** The nodes after the backups in `olds` have been replayed in turn. */
  function Replayed(nodes: Nodes, olds: seq<Old>, ctime: nat): Nodes {
    map h | h in nodes :: ReplayNode(olds, ctime, h, nodes[h])
  }

  /** The nodes after those in `removed` have been unmarked, or destroyed if they are new. */
  function Reinserted(nodes: Nodes, removed: seq<Handle>, nextId: nat): Nodes {
    map h | h in nodes && !(h in removed && nodes[h].item.id >= nextId) ::
      if h in removed then nodes[h].(erased := false) else nodes[h]
  }

  function Back(nodes: Nodes, removed: seq<Handle>, nextId: nat): set<Handle> {
    set h | h in removed && h in nodes && nodes[h].item.id < nextId
  }

  lemma {:induction false} ReplayStep(nodes: Nodes, olds: seq<Old>, ctime: nat, i: nat)
    requires i < |olds|
    ensures var before, o := Replayed(nodes, olds[..i], ctime), olds[i];
      Replayed(nodes, olds[..i + 1], ctime) ==
        if o.mtime < ctime && o.cur in nodes then before[o.cur := before[o.cur].(item := o.item, mtime := o.mtime)] else before
  {
    assert olds[..i + 1][..i] == olds[..i];
  }

  lemma {:induction false} ReinsertStep(nodes: Nodes, removed: seq<Handle>, nextId: nat, j: nat)
    requires j < |removed| && removed[j] in nodes && removed[j] !in removed[..j]
    ensures var before, h := Reinserted(nodes, removed[..j], nextId), removed[j];
      && h in before && before[h] == nodes[h]
      && Reinserted(nodes, removed[..j + 1], nextId) ==
           (if nodes[h].item.id < nextId then before[h := before[h].(erased := false)] else before - {h})
      && Back(nodes, removed[..j + 1], nextId) == Back(nodes, removed[..j], nextId) + (if nodes[h].item.id < nextId then {h} else {})
  {
  }

  /** Replaying keeps the key and the mark of every node. */
  lemma {:induction false} ReplayKeeps(st: State, i: nat, h: Handle)
    requires st.sessions != [] && OldsOk(st) && i <= |Top(st).olds| && h in OldNodes(st)
    ensures var node := Replayed(OldNodes(st), Top(st).olds[..i], Top(st).ctime)[h];
      node.item.id == st.nodes[h].item.id && node.erased == st.nodes[h].erased
  {
    OldestIs(Top(st).olds[..i], Top(st).ctime, h);
    hide Oldest;
  }

  lemma {:induction false} PhasesNode(st: State, h: Handle)
    requires st.sessions != [] && OldsOk(st) && RemovedOk(st)
    ensures var s := Top(st);
      var nodes := Replayed(OldNodes(st), s.olds, s.ctime);
      && (h in Reinserted(nodes, s.removed, s.nextId) <==> h in UndoTop(st).nodes)
      && (h in UndoTop(st).nodes ==> Reinserted(nodes, s.removed, s.nextId)[h] == UndoTop(st).nodes[h])
      && (h in OldMain(st) + Back(nodes, s.removed, s.nextId) <==> h in UndoTop(st).main)
  {
    var s := Top(st);
    assert s.olds[..|s.olds|] == s.olds;
    if h in OldNodes(st) {
      ReplayKeeps(st, |s.olds|, h);
    }
    hide Oldest, OldsOk;
  }

  /** The three phases end where undo should. */
  lemma {:induction false} PhasesCompose(st: State)
    requires st.sessions != [] && OldsOk(st) && RemovedOk(st)
    ensures var s := Top(st);
      var nodes := Replayed(OldNodes(st), s.olds, s.ctime);
      && Reinserted(nodes, s.removed, s.nextId) == UndoTop(st).nodes
      && OldMain(st) + Back(nodes, s.removed, s.nextId) == UndoTop(st).main
  {
    hide *;
    forall h {
      PhasesNode(st, h);
    }
  }

  /** A backup that undo does not skip finds its node, marked exactly if it is not in the table. */
  lemma {:induction false} ReplayReady(n: nat, st: State, i: nat)
    requires st.sessions != [] && TableOk(n, st) && OldsOk(st) && RemovedOk(st) && i < |Top(st).olds|
    requires Top(st).olds[i].mtime < Top(st).ctime
    ensures var o := Top(st).olds[i];
      var nodes := Replayed(OldNodes(st), Top(st).olds[..i], Top(st).ctime);
      && o.cur in OldNodes(st) && o.cur in nodes && nodes[o.cur].item.id == o.item.id
      && (o.cur in OldMain(st) <==> !nodes[o.cur].erased)
  {
    var o := Top(st).olds[i];
    assert o in Top(st).olds;
    ReplayKeeps(st, i, o.cur);
    hide ReplayNode;
  }

  /** Once all backups are replayed, nodes that undo gives back have their final objects. */
  lemma {:induction false} ReplayedItems(st: State, j: nat, main: set<Handle>)
    requires st.sessions != [] && OldsOk(st) && RemovedOk(st) && main <= UndoTop(st).main && j <= |Top(st).removed|
    ensures var nodes := Phase3Nodes(st, j);
      forall h :: h in main && h in nodes ==> h in UndoTop(st).nodes && nodes[h].item == UndoTop(st).nodes[h].item
  {
    var nodes := Replayed(OldNodes(st), Top(st).olds, Top(st).ctime);
    forall h | h in main && h in nodes
      ensures h in UndoTop(st).nodes && nodes[h].item == UndoTop(st).nodes[h].item
    {
      hide OldsOk, RemovedOk;
      PhasesNode(st, h);
    }
    hide OldsOk, RemovedOk, UndoTop, Replayed;
  }

  /** So if undo gives back different keys, the nodes have them now. */
  lemma {:induction false} ReplayedDistinct(n: nat, st: State, main: set<Handle>)
    requires st.sessions != [] && TableOk(n, UndoTop(st)) && OldsOk(st) && RemovedOk(st) && main <= UndoTop(st).main
    ensures DistinctKeys(n, Replayed(OldNodes(st), Top(st).olds, Top(st).ctime), main)
  {
    Phase3Start(st);
    ReplayedItems(st, 0, main);
    hide OldsOk, RemovedOk, UndoTop, Replayed, Phase3Nodes;
    assert forall h, k :: h in main && h in Phase3Nodes(st, 0) ==> KeyOf(Phase3Nodes(st, 0), k, h) == Key(k, UndoTop(st).nodes[h].item);
  }

  /** No removed node that undo brings back takes a key of another object it gives back. */
  ghost predicate Reinsertable(n: nat, st: State)
    requires st.sessions != []
  {
    var u := UndoTop(st);
    forall h, g, k :: h in Top(st).removed && h in u.main && g in u.main && h in u.nodes && g in u.nodes && h != g && 0 <= k < n ==>
      KeyOf(u.nodes, k, h) != KeyOf(u.nodes, k, g)
  }

  lemma {:induction false} TableReinsertable(n: nat, st: State)
    requires st.sessions != [] && TableOk(n, UndoTop(st))
    ensures Reinsertable(n, st)
  {
    hide UndoTop;
  }

  lemma {:induction false} UndoneIds(n: nat, st: State)
    requires st.sessions != [] && TableOk(n, st) && OldsOk(st) && RemovedOk(st)
    ensures var u := UndoTop(st);
      DistinctIds(u.nodes, u.main) && forall h :: h in u.main ==> !u.nodes[h].erased && u.nodes[h].item.id < u.nextId
  {
    var u := UndoTop(st);
    forall h | h in u.main
      ensures h in st.nodes && h in Reach(st) && h in u.nodes && !u.nodes[h].erased && u.nodes[h].item.id == st.nodes[h].item.id < u.nextId
    {
      UndoTopNode(n, st, h);
    }
    hide UndoTop, OldsOk, Reach;
  }

  /** All that can be wrong with the table undo gives back is that two objects share a key. */
  lemma {:induction false} UndoTable(n: nat, st: State)
    requires st.sessions != [] && TableOk(n, st) && OldsOk(st) && RemovedOk(st)
    ensures TableOk(n, UndoTop(st)) <==> DistinctKeys(n, UndoTop(st).nodes, UndoTop(st).main)
  {
    UndoneIds(n, st);
    hide UndoTop, OldsOk, RemovedOk;
    var u := UndoTop(st);
    if DistinctKeys(n, u.nodes, u.main) {
      forall h, g, k | h in u.main && g in u.main && h != g && 0 <= k < n
        ensures Key(k, u.nodes[h].item) != Key(k, u.nodes[g].item)
      {
        assert KeyOf(u.nodes, k, h) != KeyOf(u.nodes, k, g);
      }
    }
  }

  lemma {:induction false} UndoTopNode(n: nat, st: State, h: Handle)
    requires st.sessions != [] && TableOk(n, st) && OldsOk(st) && RemovedOk(st) && h in UndoTop(st).main
    ensures h in st.nodes && h in Reach(st) && h in UndoTop(st).nodes
    ensures !UndoTop(st).nodes[h].erased && UndoTop(st).nodes[h].item.id == st.nodes[h].item.id < UndoTop(st).nextId
  {
    OldestIs(Top(st).olds, Top(st).ctime, h);
    hide Oldest;
  }

  lemma ReplayedKeys(nodes: Nodes, olds: seq<Old>, ctime: nat)
    ensures Replayed(nodes, olds, ctime).Keys == nodes.Keys
  {
  }

  /** The nodes and the table midway through the third phase. */
  function Phase3Nodes(st: State, j: nat): Nodes
    requires st.sessions != [] && j <= |Top(st).removed|
  {
    Reinserted(Replayed(OldNodes(st), Top(st).olds, Top(st).ctime), Top(st).removed[..j], Top(st).nextId)
  }

  function Phase3Main(st: State, j: nat): set<Handle>
    requires st.sessions != [] && j <= |Top(st).removed|
  {
    OldMain(st) + Back(Replayed(OldNodes(st), Top(st).olds, Top(st).ctime), Top(st).removed[..j], Top(st).nextId)
  }

  lemma {:induction false} Phase3Start(st: State)
    requires st.sessions != []
    ensures Phase3Nodes(st, 0) == Replayed(OldNodes(st), Top(st).olds, Top(st).ctime)
    ensures Phase3Main(st, 0) == OldMain(st)
  {
  }

  /** The next removed node is live, outside the table, and its keys are free if it is to go back in. */
  lemma {:induction false} Phase3Step(n: nat, st: State, j: nat)
    requires st.sessions != [] && Reinsertable(n, st) && OldsOk(st) && RemovedOk(st) && j < |Top(st).removed|
    ensures var h, nodes := Top(st).removed[j], Phase3Nodes(st, j);
      && h in nodes && h !in Phase3Main(st, j)
      && (if nodes[h].item.id < Top(st).nextId then
            && Phase3Nodes(st, j + 1) == nodes[h := nodes[h].(erased := false)]
            && Phase3Main(st, j + 1) == Phase3Main(st, j) + {h}
            && AllFree(n, Phase3Nodes(st, j + 1), Phase3Main(st, j), h)
          else
            Phase3Nodes(st, j + 1) == nodes - {h} && Phase3Main(st, j + 1) == Phase3Main(st, j))
  {
    hide Replayed, Reinserted, UndoTop, AllFree, Reinsertable;
    var s, h := Top(st), Top(st).removed[j];
    var nodes := Replayed(OldNodes(st), s.olds, s.ctime);
    ReplayedKeys(OldNodes(st), s.olds, s.ctime);
    assert h in s.removed && h in OldNodes(st);
    ReinsertStep(nodes, s.removed, s.nextId, j);
    Phase3Within(st, j + 1);
    hide OldNodes;
    if nodes[h].item.id < s.nextId {
      hide OldsOk, RemovedOk;
      ReplayedItems(st, j + 1, Phase3Main(st, j + 1));
      Phase3Free(n, st, j, h);
    }
  }

  lemma {:induction false} Phase3Free(n: nat, st: State, j: nat, h: Handle)
    requires st.sessions != [] && Reinsertable(n, st) && j < |Top(st).removed| && h in Top(st).removed
    requires Phase3Main(st, j + 1) == Phase3Main(st, j) + {h} && Phase3Main(st, j + 1) <= UndoTop(st).main && h in Phase3Nodes(st, j + 1)
    requires h !in Phase3Main(st, j)
    requires var nodes := Phase3Nodes(st, j + 1);
      forall g :: g in Phase3Main(st, j + 1) && g in nodes ==> g in UndoTop(st).nodes && nodes[g].item == UndoTop(st).nodes[g].item
    ensures AllFree(n, Phase3Nodes(st, j + 1), Phase3Main(st, j), h)
  {
    var u, nodes := UndoTop(st), Phase3Nodes(st, j + 1);
    hide UndoTop, Phase3Nodes, Phase3Main;
    forall k, g | 0 <= k < n && g in Phase3Main(st, j) && g in nodes && g != h
      ensures KeyOf(nodes, k, g) != KeyOf(nodes, k, h)
    {
      assert g in Phase3Main(st, j + 1) && h in Phase3Main(st, j + 1);
      assert KeyOf(u.nodes, k, h) != KeyOf(u.nodes, k, g);
    }
  }

  lemma {:induction false} Phase3Within(st: State, j: nat)
    requires st.sessions != [] && OldsOk(st) && RemovedOk(st) && j <= |Top(st).removed|
    ensures Phase3Main(st, j) <= UndoTop(st).main
  {
    PhasesCompose(st);
    hide Replayed, OldNodes, UndoTop, Reinserted, OldMain, RemovedOk, OldsOk;
  }

  lemma {:induction false} Phase3End(st: State)
    requires st.sessions != [] && OldsOk(st) && RemovedOk(st)
    ensures Phase3Nodes(st, |Top(st).removed|) == UndoTop(st).nodes
    ensures Phase3Main(st, |Top(st).removed|) == UndoTop(st).main
  {
    assert Top(st).removed[..|Top(st).removed|] == Top(st).removed;
    PhasesCompose(st);
    hide Replayed, OldNodes, UndoTop, Reinserted, OldMain, Back, RemovedOk, OldsOk;
  }
}
