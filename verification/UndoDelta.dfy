/** What `last_undo_session` reports: the exact difference between the table and the newest snapshot. */
module UndoDelta {
  import opened Objects
  import opened UndoSessions
  import opened UndoCompress

  /** The objects created, modified (as they were) and removed since the top session started. */
  datatype Delta = Delta(newValues: seq<Object>, oldValues: seq<Object>, removedValues: seq<Object>)

  ghost predicate DistinctObjects(s: seq<Object>) {
    forall i, j :: 0 <= i < j < |s| ==> s[i].id != s[j].id
  }

  ghost function IdsOf(s: seq<Object>): set<nat> {
    set o | o in s :: o.id
  }

  ghost function ToTable(s: seq<Object>): (c: Contents)
    ensures c.Keys == IdsOf(s)
  {
    if s == [] then map[]
    else
      assert s == s[..|s| - 1] + [s[|s| - 1]];
      ToTable(s[..|s| - 1])[s[|s| - 1].id := s[|s| - 1]]
  }

  lemma {:induction false} ToTableAt(s: seq<Object>, i: nat)
    requires DistinctObjects(s) && i < |s|
    ensures s[i].id in ToTable(s) && ToTable(s)[s[i].id] == s[i]
  {
    if i < |s| - 1 {
      ToTableAt(s[..|s| - 1], i);
    }
  }

  ghost predicate DeltaEntries(d: Delta, before: Contents, now: Contents) {
    && DistinctObjects(d.newValues + d.oldValues + d.removedValues)
    && (forall o :: o in d.newValues ==> o.id !in before && o.id in now && now[o.id] == o)
    && (forall o :: o in d.oldValues ==> o.id in before && o.id in now && before[o.id] == o)
    && (forall o :: o in d.removedValues ==> o.id in before && o.id !in now && before[o.id] == o)
  }

  /** `d` lists, without repetition and without overlap, exactly what turned `before` into `now`:
      dropping the new objects, overriding with the old values and putting the removed ones back
      gives `before`. */
  ghost predicate IsDelta(d: Delta, before: Contents, now: Contents) {
    && DeltaEntries(d, before, now)
    && before == (now - IdsOf(d.newValues)) + ToTable(d.oldValues) + ToTable(d.removedValues)
  }

  function Items(nodes: map<Handle, Node>, hs: seq<Handle>): seq<Object>
    requires forall h :: h in hs ==> h in nodes
  {
    seq(|hs|, i requires 0 <= i < |hs| => nodes[hs[i]].item)
  }

  function OldItems(olds: seq<Old>): seq<Object> {
    seq(|olds|, i requires 0 <= i < |olds| => olds[i].item)
  }

  /** A session that holds nothing undo would skip or overwrite. */
  ghost predicate Compressed(st: State)
    requires st.sessions != []
  {
    && (forall o :: o in Top(st).olds ==> o.mtime < Top(st).ctime && o.cur in st.main)
    && (forall h :: h in Top(st).removed ==> h in st.nodes && st.nodes[h].item.id < Top(st).nextId)
  }

  lemma {:induction false} FullyCompressed(st: State)
    requires st.sessions != [] && OldsOk(st) && RemovedOk(st)
    ensures var s := Top(st); Compressed(CompressedState(st, |s.olds|, |s.removed|))
  {
    var s := Top(st);
    var i, r := |s.olds|, |s.removed|;
    var st' := CompressedState(st, i, r);
    assert s.olds[..i] == s.olds && s.removed[..r] == s.removed;
    forall o: Old | o in Top(st').olds
      ensures o.mtime < s.ctime && o.cur in st'.main
    {
      KeptOldsIn(st.nodes, s.olds, s.ctime, o);
    }
    CompressRemovedOk(st, i, r);
    forall h | h in Top(st').removed
      ensures h in st'.nodes && st'.nodes[h].item.id < s.nextId
    {
      KeptRemovedIn(st.nodes, s.removed, s.nextId, h);
      CompressedNode(st, i, r, h);
    }
  }

  /** The object a node of a compressed session had when the session started. */
  lemma {:induction false} CompressedUndo(n: nat, st: State, h: Handle)
    requires st.sessions != [] && OldsOk(st) && RemovedOk(st) && Compressed(st) && h in UndoTop(st).main
    ensures h in st.nodes && h in Reach(st) && st.nodes[h].item.id < Top(st).nextId
    ensures h in UndoTop(st).nodes && UndoTop(st).nodes[h].item.id == st.nodes[h].item.id
    ensures (exists o :: o in Top(st).olds && o.cur == h && UndoTop(st).nodes[h].item == o.item)
         || (UndoTop(st).nodes[h].item == st.nodes[h].item && forall o :: o in Top(st).olds ==> o.cur != h)
  {
    OldestIs(Top(st).olds, Top(st).ctime, h);
    hide Oldest;
  }

  /** The old values are the backups taken from objects of the table as they were before the session. */
  lemma {:induction false} ReportedOlds(n: nat, st: State, x: Object)
    requires st.sessions != [] && TableOk(n, st) && OldsOk(st) && RemovedOk(st)
    ensures var s := Top(st); var st' := CompressedState(st, |s.olds|, |s.removed|);
      && st'.sessions != []
      && (x in OldItems(Top(st').olds) <==> exists o :: o in s.olds && o.mtime < s.ctime && o.cur in st.main && o.item == x)
  {
    var s := Top(st);
    CompressedLists(st, |s.olds|, |s.removed|);
    var st' := CompressedState(st, |s.olds|, |s.removed|);
    assert s.olds[..|s.olds|] == s.olds && s.olds[|s.olds|..] == [];
    var kept := KeptOlds(st.nodes, s.olds, s.ctime);
    assert Top(st').olds == kept;
    forall o
      ensures o in kept <==> o in s.olds && o.mtime < s.ctime && o.cur in st.main
    {
      KeptOldsIn(st.nodes, s.olds, s.ctime, o);
    }
    hide CompressedState, KeptOlds, OldsOk, RemovedOk, TableOk;
    OldItemsIn(kept, x);
  }

  lemma {:induction false} OldItemsIn(olds: seq<Old>, x: Object)
    ensures x in OldItems(olds) <==> exists o :: o in olds && o.item == x
  {
    if x in OldItems(olds) {
      var i :| 0 <= i < |olds| && OldItems(olds)[i] == x;
      assert olds[i] in olds && olds[i].item == x;
    }
    if o :| o in olds && o.item == x {
      var i :| 0 <= i < |olds| && olds[i] == o;
      assert OldItems(olds)[i] == x;
    }
  }

  /** `news` lists the nodes created since the top session started. */
  ghost predicate ListsNew(st: State, news: seq<Handle>)
    requires st.sessions != []
  {
    && DistinctHandles(news)
    && (forall h :: h in news <==> h in st.main && h in st.nodes && st.nodes[h].item.id >= Top(st).nextId)
  }

  ghost function DeltaOf(st: State, news: seq<Handle>): Delta
    requires st.sessions != [] && ListsNew(st, news) && RemovedOk(st)
  {
    Delta(Items(st.nodes, news), OldItems(Top(st).olds), Items(st.nodes, Top(st).removed))
  }

  lemma {:induction false} DeltaDistinct(st: State, news: seq<Handle>)
    requires st.sessions != [] && OldsOk(st) && RemovedOk(st) && Compressed(st) && ListsNew(st, news)
    ensures var d := DeltaOf(st, news); DistinctObjects(d.newValues + d.oldValues + d.removedValues)
  {
  }

  /** A new object is in the table and not in the snapshot. */
  lemma {:induction false} NewPlace(n: nat, st: State, news: seq<Handle>, i: nat)
    requires st.sessions != [] && TableOk(n, st) && TableOk(n, UndoTop(st)) && OldsOk(st) && RemovedOk(st) && ListsNew(st, news) && i < |news|
    ensures var o := st.nodes[news[i]].item; o.id !in Table(UndoTop(st)) && o.id in Table(st) && Table(st)[o.id] == o
  {
    var u := UndoTop(st);
    assert news[i] in news;
    UndoneBelow(n, st);
    hide UndoTop, OldsOk, RemovedOk;
    ContentsAt(st.nodes, st.main);
    ContentsAt(u.nodes, u.main);
    hide ContentsOf;
  }

  lemma {:induction false} UndoneBelow(n: nat, st: State)
    requires st.sessions != [] && TableOk(n, UndoTop(st))
    ensures forall h :: h in UndoTop(st).main ==> h in UndoTop(st).nodes && UndoTop(st).nodes[h].item.id < Top(st).nextId
  {
    UndoLower(st);
    hide UndoTop;
  }

  /** A modified object is in both, and the backup holds it as it was. */
  lemma {:induction false} ModifiedPlace(n: nat, st: State, o: Old)
    requires st.sessions != [] && TableOk(n, st) && TableOk(n, UndoTop(st)) && OldsOk(st) && Compressed(st) && o in Top(st).olds
    ensures o.item.id in Table(UndoTop(st)) && o.item.id in Table(st) && Table(UndoTop(st))[o.item.id] == o.item
  {
    OldPlace(st, o);
    hide UndoTop, OldsOk, Compressed;
    ContentsAt(st.nodes, st.main);
    ContentsAt(UndoTop(st).nodes, UndoTop(st).main);
    hide ContentsOf;
  }

  /** A removed object is in the snapshot and not in the table. */
  lemma {:induction false} RemovedPlace(n: nat, st: State, h: Handle)
    requires st.sessions != [] && TableOk(n, st) && TableOk(n, UndoTop(st)) && OldsOk(st) && RemovedOk(st) && Compressed(st) && h in Top(st).removed
    ensures h in st.nodes
    ensures var o := st.nodes[h].item; o.id in Table(UndoTop(st)) && o.id !in Table(st) && Table(UndoTop(st))[o.id] == o
  {
    RemovedReturns(st, h);
    CompressedUndo(n, st, h);
    hide UndoTop, OldsOk, Compressed;
    ContentsAt(st.nodes, st.main);
    ContentsAt(UndoTop(st).nodes, UndoTop(st).main);
    hide ContentsOf;
  }

  lemma {:induction false} RemovedReturns(st: State, h: Handle)
    requires st.sessions != [] && RemovedOk(st) && Compressed(st) && h in Top(st).removed
    ensures h in st.nodes && h in Reach(st) && h in UndoTop(st).main
  {
  }

  /** Where the objects of the delta are found before and after. */
  lemma {:induction false} DeltaPlaces(n: nat, st: State, news: seq<Handle>)
    requires st.sessions != [] && TableOk(n, st) && TableOk(n, UndoTop(st)) && OldsOk(st) && RemovedOk(st) && Compressed(st) && ListsNew(st, news)
    ensures var d, before, now := DeltaOf(st, news), Table(UndoTop(st)), Table(st);
      && (forall o :: o in d.newValues ==> o.id !in before && o.id in now && now[o.id] == o)
      && (forall o :: o in d.oldValues ==> o.id in before && o.id in now && before[o.id] == o)
      && (forall o :: o in d.removedValues ==> o.id in before && o.id !in now && before[o.id] == o)
  {
    hide TableOk, OldsOk, Compressed, UndoTop, Table;
    forall i | 0 <= i < |news|
      ensures var o := st.nodes[news[i]].item; o.id !in Table(UndoTop(st)) && o.id in Table(st) && Table(st)[o.id] == o
    {
      NewPlace(n, st, news, i);
    }
    forall i | 0 <= i < |Top(st).olds|
      ensures var o := Top(st).olds[i].item; o.id in Table(UndoTop(st)) && o.id in Table(st) && Table(UndoTop(st))[o.id] == o
    {
      ModifiedPlace(n, st, Top(st).olds[i]);
    }
    forall i | 0 <= i < |Top(st).removed|
      ensures var o := st.nodes[Top(st).removed[i]].item; o.id in Table(UndoTop(st)) && o.id !in Table(st) && Table(UndoTop(st))[o.id] == o
    {
      RemovedPlace(n, st, Top(st).removed[i]);
    }
  }

  lemma {:induction false} OldPlace(st: State, o: Old)
    requires st.sessions != [] && OldsOk(st) && Compressed(st) && o in Top(st).olds
    ensures o.cur in st.main && o.cur in st.nodes && st.nodes[o.cur].item.id == o.item.id
    ensures o.cur in UndoTop(st).main && o.cur in UndoTop(st).nodes && UndoTop(st).nodes[o.cur].item == o.item
  {
    OldestIs(Top(st).olds, Top(st).ctime, o.cur);
    hide Oldest;
  }

  lemma {:induction false} ItemsIn(nodes: map<Handle, Node>, hs: seq<Handle>, h: Handle)
    requires h in hs && forall g :: g in hs ==> g in nodes
    ensures nodes[h].item in Items(nodes, hs)
  {
    var i :| 0 <= i < |hs| && hs[i] == h;
    assert Items(nodes, hs)[i] == nodes[h].item;
  }

  /** The table before, object by object: removed, modified, or the same as now. */
  lemma {:induction false} FindNode(n: nat, st: State, id: nat)
    requires TableOk(n, st) && id in Table(st)
    ensures exists h :: h in st.main && h in st.nodes && st.nodes[h].item.id == id && Table(st)[id] == st.nodes[h].item
  {
    ContentsAt(st.nodes, st.main);
    hide ContentsOf;
  }

  lemma {:induction false} NodeInTable(n: nat, st: State, h: Handle)
    requires TableOk(n, st) && h in st.main && h in st.nodes
    ensures st.nodes[h].item.id in Table(st) && Table(st)[st.nodes[h].item.id] == st.nodes[h].item
  {
    ContentsAt(st.nodes, st.main);
    hide ContentsOf;
  }

  lemma {:induction false} DeltaCovers(n: nat, st: State, news: seq<Handle>, id: nat)
    requires st.sessions != [] && TableOk(n, st) && TableOk(n, UndoTop(st)) && OldsOk(st) && RemovedOk(st) && Compressed(st) && ListsNew(st, news)
    requires id in Table(UndoTop(st))
    ensures var d, before, now := DeltaOf(st, news), Table(UndoTop(st)), Table(st);
      id in IdsOf(d.removedValues) || id in IdsOf(d.oldValues) || (id in now && now[id] == before[id])
  {
    hide Table, TableOk, UndoTop, OldsOk, Compressed, ListsNew;
    var u, d := UndoTop(st), DeltaOf(st, news);
    FindNode(n, u, id);
    var h :| h in u.main && h in u.nodes && u.nodes[h].item.id == id && Table(u)[id] == u.nodes[h].item;
    CompressedUndo(n, st, h);
    if h in st.main && h in st.nodes {
      NodeInTable(n, st, h);
    }
    if h in Top(st).removed {
      ItemsIn(st.nodes, Top(st).removed, h);
    } else if o :| o in Top(st).olds && o.cur == h && u.nodes[h].item == o.item {
      var i :| 0 <= i < |Top(st).olds| && Top(st).olds[i] == o;
      assert d.oldValues[i] in d.oldValues;
    }
  }

  /** An object of the table now that is not new was there before. */
  lemma {:induction false} DeltaKeeps(n: nat, st: State, news: seq<Handle>, id: nat)
    requires st.sessions != [] && TableOk(n, st) && TableOk(n, UndoTop(st)) && RemovedOk(st) && OldsOk(st) && ListsNew(st, news)
    requires id in Table(st) && id !in IdsOf(DeltaOf(st, news).newValues)
    ensures id in Table(UndoTop(st))
  {
    var u, d := UndoTop(st), DeltaOf(st, news);
    ContentsAt(st.nodes, st.main);
    ContentsAt(u.nodes, u.main);
    hide ContentsOf;
    var h :| h in st.main && st.nodes[h].item.id == id;
    if h in news {
      ItemsIn(st.nodes, news, h);
    } else {
      OldestIs(Top(st).olds, Top(st).ctime, h);
      hide Oldest;
      assert h in u.main;
    }
  }

  lemma {:induction false} ToTableAgrees(s: seq<Object>, before: Contents)
    requires DistinctObjects(s) && forall o :: o in s ==> o.id in before && before[o.id] == o
    ensures forall id :: id in ToTable(s) ==> id in before && before[id] == ToTable(s)[id]
  {
    forall id | id in IdsOf(s)
      ensures id in before && before[id] == ToTable(s)[id]
    {
      var o :| o in s && o.id == id;
      var i :| 0 <= i < |s| && s[i] == o;
      ToTableAt(s, i);
    }
  }

  lemma {:induction false} DistinctParts(a: seq<Object>, b: seq<Object>, c: seq<Object>)
    requires DistinctObjects(a + b + c)
    ensures DistinctObjects(b) && DistinctObjects(c)
  {
    assert b == (a + b + c)[|a|..|a| + |b|];
    assert c == (a + b + c)[|a| + |b|..];
  }

  lemma {:induction false} NewIds(s: seq<Object>, before: Contents)
    requires forall o :: o in s ==> o.id !in before
    ensures forall id :: id in IdsOf(s) ==> id !in before
  {
  }

  lemma {:induction false} DeltaEquation(d: Delta, before: Contents, now: Contents)
    requires DeltaEntries(d, before, now)
    requires forall id :: id in before ==> id in IdsOf(d.removedValues) || id in IdsOf(d.oldValues) || (id in now && now[id] == before[id])
    requires forall id :: id in now && id !in IdsOf(d.newValues) ==> id in before
    ensures IsDelta(d, before, now)
  {
    DistinctParts(d.newValues, d.oldValues, d.removedValues);
    hide DistinctObjects, IdsOf, ToTable;
    ToTableAgrees(d.oldValues, before);
    ToTableAgrees(d.removedValues, before);
    NewIds(d.newValues, before);
    hide DeltaEntries;
    MapEquation(IdsOf(d.newValues), ToTable(d.oldValues), ToTable(d.removedValues), before, now);
  }

  lemma {:induction false} MapEquation(created: set<nat>, modified: Contents, removed: Contents, before: Contents, now: Contents)
    requires forall id :: id in created ==> id !in before
    requires forall id :: id in modified ==> id in before && before[id] == modified[id]
    requires forall id :: id in removed ==> id in before && before[id] == removed[id]
    requires forall id :: id in before ==> id in removed || id in modified || (id in now && now[id] == before[id])
    requires forall id :: id in now && id !in created ==> id in before
    ensures before == (now - created) + modified + removed
  {
  }

  lemma {:induction false} DeltaEntriesOk(n: nat, st: State, news: seq<Handle>)
    requires st.sessions != [] && TableOk(n, st) && TableOk(n, UndoTop(st)) && OldsOk(st) && RemovedOk(st) && Compressed(st) && ListsNew(st, news)
    ensures DeltaEntries(DeltaOf(st, news), Table(UndoTop(st)), Table(st))
  {
    hide TableOk, OldsOk, RemovedOk, Compressed, ListsNew, UndoTop, ContentsOf, DistinctObjects;
    DeltaDistinct(st, news);
    DeltaPlaces(n, st, news);
  }

  /** The report of a compressed session is exact. */
  lemma {:induction false} SessionDelta(n: nat, st: State, news: seq<Handle>)
    requires st.sessions != [] && TableOk(n, st) && TableOk(n, UndoTop(st)) && OldsOk(st) && RemovedOk(st) && Compressed(st) && ListsNew(st, news)
    ensures IsDelta(DeltaOf(st, news), Table(UndoTop(st)), Table(st))
  {
    var d, before, now := DeltaOf(st, news), Table(UndoTop(st)), Table(st);
    hide TableOk, OldsOk, RemovedOk, Compressed, ListsNew, UndoTop, ContentsOf, IsDelta, DeltaEntries;
    DeltaEntriesOk(n, st, news);
    forall id | id in before
      ensures id in IdsOf(d.removedValues) || id in IdsOf(d.oldValues) || (id in now && now[id] == before[id])
    {
      DeltaCovers(n, st, news, id);
    }
    forall id | id in now && id !in IdsOf(d.newValues)
      ensures id in before
    {
      DeltaKeeps(n, st, news, id);
    }
    DeltaEquation(d, before, now);
  }
}
