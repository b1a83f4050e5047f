/** How far the stamp of each object reaches: past the start of how many open sessions it lies, and past
    how many it should.  These two counts follow from the calls alone, with one pair of them for the
    table and one for each snapshot. */
module UndoMarks {
  import opened Objects
  import opened UndoSessions
  import opened UndoSquash
  import opened UndoCompress
  import opened UndoCommit
  import opened UndoStamps
  import opened UndoTrust

  /** The object's stamp should lie past the start of the oldest `right` sessions, and lies past that of
      the oldest `has`. */
  datatype Mark = Mark(right: nat, has: nat)

  type Marks = map<nat, Mark>

  predicate Counts(sessions: seq<Session>, k: nat, mtime: nat) {
    k <= |sessions| && forall i :: 0 <= i < |sessions| ==> (sessions[i].ctime <= mtime <==> i < k)
  }

  ghost predicate CountsAll(st0: State, st: State, marks: Marks) {
    forall h :: h in st.main && h in st.nodes && h in st0.nodes ==>
      && st.nodes[h].item.id in marks
      && Counts(st.sessions, marks[st.nodes[h].item.id].right, st0.nodes[h].mtime)
      && Counts(st.sessions, marks[st.nodes[h].item.id].has, st.nodes[h].mtime)
  }

  /** The last marks are those of the table, the ones before those of what undo gives back. */
  ghost predicate Marked(st0: State, st: State, t: seq<Marks>)
    decreases |st.sessions|
  {
    && st0.sessions == st.sessions && |t| == |st.sessions| + 1
    && CountsAll(st0, st, t[|t| - 1])
    && (st.sessions != [] ==> (UndoLower(st); Marked(UndoTop(st0), UndoTop(st), t[..|t| - 1])))
  }

  function Front<T>(s: seq<T>): seq<T> {
    if s == [] then [] else s[..|s| - 1]
  }

  function Current(t: seq<Marks>): Marks {
    if t == [] then map[] else t[|t| - 1]
  }

  function MarkOf(t: seq<Marks>, id: nat): Mark {
    if id in Current(t) then Current(t)[id] else Mark(0, 0)
  }

  lemma {:induction false} SameCounts(a: seq<Session>, b: seq<Session>)
    ensures (|a| == |b| && forall i :: 0 <= i < |a| ==> a[i].ctime == b[i].ctime) ==>
      forall k: nat, mtime: nat :: Counts(a, k, mtime) <==> Counts(b, k, mtime)
  {
  }

  /** A call inside the newest session changes the marks of the table alone. */
  lemma {:induction false} MarkedInside(st0: State, st: State, t: seq<Marks>, st0': State, st': State, marks: Marks)
    requires Marked(st0, st, t) && st0'.sessions == st'.sessions && |st'.sessions| == |st.sessions|
    requires st.sessions != [] ==> UndoTop(st0') == UndoTop(st0) && UndoTop(st') == UndoTop(st)
    requires CountsAll(st0', st', marks)
    ensures Marked(st0', st', Front(t) + [marks])
  {
    hide CountsAll, UndoTop;
    assert (Front(t) + [marks])[..|t| - 1] == t[..|t| - 1];
  }

  lemma {:induction false} MarkedParts(st0: State, st: State, t: seq<Marks>)
    requires Marked(st0, st, t)
    ensures st0.sessions == st.sessions && |t| == |st.sessions| + 1 && CountsAll(st0, st, Current(t))
    ensures st.sessions != [] ==> Marked(UndoTop(st0), UndoTop(st), Front(t))
  {
    hide CountsAll, UndoTop;
  }

  lemma {:induction false} MarkedAgain(st0: State, st: State, t: seq<Marks>)
    requires st0.sessions == st.sessions && |t| == |st.sessions| + 1 && CountsAll(st0, st, Current(t))
    requires st.sessions != [] ==> Marked(UndoTop(st0), UndoTop(st), Front(t))
    ensures Marked(st0, st, t)
  {
    hide CountsAll, UndoTop;
  }

  // ---------------------------------------------------------------------------------------------
  // What the marks tell

  /** A node is trusted exactly if its two marks are equal, and a modify of it takes a backup exactly
      if its stamp lies before the start of the newest session. */
  lemma {:induction false} MarkTells(n: nat, mono: nat, st0: State, st: State, t: seq<Marks>, h: Handle)
    requires Shadow(n, mono, st0, st) && Marked(st0, st, t) && h in st.main && h in st.nodes
    ensures h in st0.nodes
    ensures var m := MarkOf(t, st.nodes[h].item.id);
      && m.right <= m.has <= |st.sessions|
      && (Trusted(st0, st, h) <==> m.right == m.has)
      && (st.sessions != [] && st.nodes[h].mtime < Top(st).ctime <==> m.has < |st.sessions|)
  {
    hide Inv, Marked, Stamped;
    MarkedParts(st0, st, t);
    hide Marked;
    var m := MarkOf(t, st.nodes[h].item.id);
    assert Counts(st.sessions, m.right, st0.nodes[h].mtime) && Counts(st.sessions, m.has, st.nodes[h].mtime);
    hide CountsAll;
    CountsCompare(st.sessions, m.right, st0.nodes[h].mtime, m.has, st.nodes[h].mtime);
  }

  lemma {:induction false} CountsCompare(sessions: seq<Session>, right: nat, low: nat, has: nat, high: nat)
    requires Counts(sessions, right, low) && Counts(sessions, has, high) && low <= high
    ensures right <= has && (SameSide(sessions, low, high) <==> right == has)
  {
    if has < |sessions| {
      var start := sessions[has].ctime;
      assert start <= low ==> start <= high;
    }
    if right < has {
      assert sessions[right].ctime <= high && !(sessions[right].ctime <= low);
    }
  }

  // ---------------------------------------------------------------------------------------------
  // start_undo, undo, undo_all

  lemma {:induction false} CountsStarted(st0: State, st: State, marks: Marks, mono: nat)
    requires CountsAll(st0, st, marks) && Stamped(mono, st0) && Stamped(mono, st)
    ensures CountsAll(StartedState(st0, mono + 1), StartedState(st, mono + 1), marks)
  {
  }

  lemma {:induction false} MarkedStart(n: nat, mono: nat, st0: State, st: State, t: seq<Marks>)
    requires Shadow(n, mono, st0, st) && Marked(st0, st, t)
    ensures Marked(StartedState(st0, mono + 1), StartedState(st, mono + 1), t + [Current(t)])
  {
    var st1, st' := StartedState(st0, mono + 1), StartedState(st, mono + 1);
    hide Inv, Stamped, UndoTop, Marked, CountsAll, TableOk, Undoable, StartedState, Table, SnapshotsOf, Aged;
    ShadowTable(n, mono, st0, st);
    MarkedParts(st0, st, t);
    CountsStarted(st0, st, Current(t), mono);
    StartKeepsUndo(n, st0, mono + 1);
    StartKeepsUndo(n, st, mono + 1);
    StartedSessions(st0, st, mono + 1);
    assert Front(t + [Current(t)]) == t;
    MarkedAgain(st1, st', t + [Current(t)]);
  }

  lemma {:induction false} StartedSessions(st0: State, st: State, ctime: nat)
    requires st0.sessions == st.sessions && st0.nextId == st.nextId
    ensures StartedState(st0, ctime).sessions == StartedState(st, ctime).sessions && |StartedState(st, ctime).sessions| == |st.sessions| + 1
  {
  }

  lemma {:induction false} ShadowTable(n: nat, mono: nat, st0: State, st: State)
    requires Shadow(n, mono, st0, st)
    ensures TableOk(n, st0) && TableOk(n, st) && st0.sessions == st.sessions && st0.nextId == st.nextId
  {
    InvTop(n, st0);
    hide Inv, TableOk;
    AgedTable(n, st0, st);
  }

  lemma {:induction false} MarkedUndoAll(st0: State, st: State, t: seq<Marks>)
    requires Marked(st0, st, t)
    ensures Marked(AllUndone(st0), AllUndone(st), t[..1])
    decreases |st.sessions|
  {
    hide UndoTop, Marked, CountsAll;
    MarkedParts(st0, st, t);
    if st.sessions == [] {
      assert t[..1] == t;
    } else {
      UndoLower(st);
      UndoLower(st0);
      MarkedUndoAll(UndoTop(st0), UndoTop(st), Front(t));
      assert Front(t)[..1] == t[..1];
    }
  }

  // ---------------------------------------------------------------------------------------------
  // emplace, remove, modify

  /** The newest stamp lies past the start of every session. */
  lemma {:induction false} NewestCounts(n: nat, mono: nat, st: State, mtime: nat)
    requires Inv(n, st) && (st.sessions != [] ==> Top(st).ctime <= mtime)
    ensures Counts(st.sessions, |st.sessions|, mtime)
  {
    hide Inv;
    forall k | 0 <= k < |st.sessions|
      ensures st.sessions[k].ctime <= mtime
    {
      TopIsLast(n, st, k);
    }
  }

  lemma {:induction false} CountsEmplaced(n: nat, st0: State, st: State, marks: Marks, h: Handle, node: Node)
    requires CountsAll(st0, st, marks) && TableOk(n, st) && h !in st.nodes && node.item.id >= st.nextId
    requires Counts(st.sessions, |st.sessions|, node.mtime)
    ensures CountsAll(EmplacedState(st0, h, node), EmplacedState(st, h, node), marks[node.item.id := Mark(|st.sessions|, |st.sessions|)])
  {
    hide Counts;
  }

  lemma {:induction false} MarkedEmplace(n: nat, mono: nat, st0: State, st: State, t: seq<Marks>, h: Handle, node: Node)
    requires Shadow(n, mono, st0, st) && Marked(st0, st, t) && h !in st.nodes && node.item.id >= st.nextId
    requires st.sessions != [] ==> node.mtime == mono
    ensures Marked(EmplacedState(st0, h, node), EmplacedState(st, h, node),
                   Front(t) + [Current(t)[node.item.id := Mark(|st.sessions|, |st.sessions|)]])
  {
    var marks := Current(t)[node.item.id := Mark(|st.sessions|, |st.sessions|)];
    hide Inv, UndoTop, Marked, CountsAll, TableOk, Counts, RemovedOk, OldsOk, StampsOk;
    ShadowTable(n, mono, st0, st);
    ShadowView(n, mono, st0, st);
    MarkedParts(st0, st, t);
    InvTop(n, st0);
    NewestCounts(n, mono, st0, node.mtime);
    CountsEmplaced(n, st0, st, Current(t), h, node);
    if st.sessions != [] {
      SessionNext(st0);
      EmplaceKeepsUndo(st0, h, node);
      EmplaceKeepsUndo(st, h, node);
    }
    MarkedInside(st0, st, t, EmplacedState(st0, h, node), EmplacedState(st, h, node), marks);
  }

  lemma {:induction false} SessionNext(st: State)
    requires st.sessions != [] && StampsOk(st)
    ensures Top(st).nextId <= st.nextId
  {
    hide UndoTop;
  }

  lemma {:induction false} CountsRemoved(st0: State, st: State, marks: Marks, h: Handle)
    requires CountsAll(st0, st, marks) && h in st.nodes && h in st0.nodes
    ensures CountsAll(RemovedState(st0, h), RemovedState(st, h), marks)
  {
    hide Counts;
    SameCounts(st.sessions, RemovedState(st, h).sessions);
  }

  lemma {:induction false} MarkedRemove(n: nat, mono: nat, st0: State, st: State, t: seq<Marks>, h: Handle)
    requires Shadow(n, mono, st0, st) && Marked(st0, st, t) && h in st.main && h in st.nodes
    ensures h in st0.nodes && Marked(RemovedState(st0, h), RemovedState(st, h), t)
  {
    hide Inv, UndoTop, Marked, CountsAll, RemovedOk, OldsOk, StampsOk, Counts;
    ShadowTable(n, mono, st0, st);
    ShadowView(n, mono, st0, st);
    MarkedParts(st0, st, t);
    InvTop(n, st0);
    CountsRemoved(st0, st, Current(t), h);
    if st.sessions != [] {
      RemoveKeepsUndo(st0, h);
      RemoveKeepsUndo(st, h);
    }
    SessionsRemoved(st0, st, h);
    hide TableOk, Undoable;
    MarkedInside(st0, st, t, RemovedState(st0, h), RemovedState(st, h), Current(t));
    assert Front(t) + [Current(t)] == t;
  }

  lemma {:induction false} SessionsRemoved(st0: State, st: State, h: Handle)
    requires Aged(st0, st) && h in st.nodes && h in st0.nodes
    ensures RemovedState(st0, h).sessions == RemovedState(st, h).sessions && |RemovedState(st, h).sessions| == |st.sessions|
  {
  }

  /** Making a trusted stamp right moves it past no session's start. */
  lemma {:induction false} MarkedRestamp(n: nat, st0: State, st: State, t: seq<Marks>, h: Handle, mtime: nat)
    requires Inv(n, st0) && Marked(st0, st, t) && Aged(st0, st) && h in st0.main && h in st0.nodes
    requires st0.nodes[h].mtime <= mtime && SameSide(st0.sessions, st0.nodes[h].mtime, mtime)
    ensures Marked(Restamped(st0, h, mtime), st, t)
    decreases |st0.sessions|
  {
    hide Inv, UndoTop, Marked, CountsAll, TableOk, SessionOk, Aged, Restamped, SameSide;
    MarkedParts(st0, st, t);
    CountsRestamped(st0, st, Current(t), h, mtime);
    RestampKeepsLists(st0, h, mtime);
    if st0.sessions != [] {
      RestampBelow(n, st0, h, mtime);
      if st0.nodes[h].mtime < Top(st0).ctime {
        UndoLower(st0);
        AgedUndo(st0, st);
        MarkedRestamp(n, UndoTop(st0), UndoTop(st), Front(t), h, mtime);
      }
    }
    MarkedAgain(Restamped(st0, h, mtime), st, t);
  }

  /** What undo gives back has the new stamp, or had not the old one. */
  lemma {:induction false} RestampBelow(n: nat, st: State, h: Handle, mtime: nat)
    requires Inv(n, st) && st.sessions != [] && h in st.main && h in st.nodes
    requires st.nodes[h].mtime <= mtime && SameSide(st.sessions, st.nodes[h].mtime, mtime)
    ensures if st.nodes[h].mtime < Top(st).ctime then
        && Inv(n, UndoTop(st)) && h in UndoTop(st).main && h in UndoTop(st).nodes
        && UndoTop(st).nodes[h].mtime == st.nodes[h].mtime && SameSide(UndoTop(st).sessions, st.nodes[h].mtime, mtime)
        && UndoTop(Restamped(st, h, mtime)) == Restamped(UndoTop(st), h, mtime)
      else UndoTop(Restamped(st, h, mtime)) == UndoTop(st)
  {
    hide Inv, UndoTop, TableOk, RemovedOk, OldsOk, StampsOk, NewStamped, Restamped, Oldest, Survives;
    InvTop(n, st);
    UndoLower(st);
    if st.nodes[h].mtime < Top(st).ctime {
      SessionNew(st);
      NoBackup(st, h);
      RestampUndo(st, h, mtime);
      UndoKeeps(st, h);
    } else {
      StampedReplaced(st, h);
      RestampLost(st, h, mtime);
    }
  }

  lemma {:induction false} SessionNew(st: State)
    requires st.sessions != [] && StampsOk(st)
    ensures NewStamped(st)
  {
    hide UndoTop;
  }

  lemma {:induction false} CountsRestamped(st0: State, st: State, marks: Marks, h: Handle, mtime: nat)
    requires CountsAll(st0, st, marks) && h in st0.nodes && st0.sessions == st.sessions
    requires st0.nodes[h].mtime <= mtime && SameSide(st0.sessions, st0.nodes[h].mtime, mtime)
    ensures CountsAll(Restamped(st0, h, mtime), st, marks)
  {
    assert forall k: nat :: Counts(st.sessions, k, st0.nodes[h].mtime) ==> Counts(st.sessions, k, mtime);
    hide Counts;
  }

  lemma {:induction false} CountsModified(n: nat, st0: State, st: State, marks: Marks, mono: nat, addr: nat, h: Handle, item: Object)
    requires CountsAll(st0, st, marks) && TableOk(n, st) && h in st.main && h in st.nodes && h in st0.nodes && item.id == st.nodes[h].item.id
    requires st0.sessions == st.sessions && st0.nodes[h].mtime == st.nodes[h].mtime
    requires Counts(st.sessions, |st.sessions|, ModifiedState(st, mono, addr, h, item).nodes[h].mtime)
    ensures CountsAll(ModifiedState(st0, mono, addr, h, item), ModifiedState(st, mono, addr, h, item),
                      marks[item.id := Mark(|st.sessions|, |st.sessions|)])
  {
    hide Counts;
    SameCounts(st.sessions, ModifiedState(st, mono, addr, h, item).sessions);
  }

  /** A modify of a node with the right stamp. */
  lemma {:induction false} MarkedModify(n: nat, mono: nat, st0: State, st: State, t: seq<Marks>, addr: nat, h: Handle, item: Object)
    requires Shadow(n, mono, st0, st) && Marked(st0, st, t) && h in st.main && h in st.nodes && h in st0.nodes
    requires item.id == st.nodes[h].item.id && st0.nodes[h].mtime == st.nodes[h].mtime
    ensures Marked(ModifiedState(st0, mono, addr, h, item), ModifiedState(st, mono, addr, h, item),
                   Front(t) + [Current(t)[item.id := Mark(|st.sessions|, |st.sessions|)]])
  {
    hide Inv, UndoTop, Marked, CountsAll, RemovedOk, OldsOk, StampsOk, Counts, TableOk, Undoable, ModifiedState, Oldest, Survives;
    ShadowTable(n, mono, st0, st);
    ShadowView(n, mono, st0, st);
    MarkedParts(st0, st, t);
    InvTop(n, st0);
    ModifyStamps(mono, st0, st, addr, h, item);
    NewestCounts(n, mono, st0, ModifiedState(st, mono, addr, h, item).nodes[h].mtime);
    CountsModified(n, st0, st, Current(t), mono, addr, h, item);
    if st.sessions != [] {
      if st0.nodes[h].mtime >= Top(st0).ctime {
        StampedReplaced(st0, h);
        AgedSurvives(st0, st, h);
      }
      ModifyOfBackedUp(st0, mono, addr, h, item);
      ModifyOfBackedUp(st, mono, addr, h, item);
    }
    MarkedInside(st0, st, t, ModifiedState(st0, mono, addr, h, item), ModifiedState(st, mono, addr, h, item),
                 Current(t)[item.id := Mark(|st.sessions|, |st.sessions|)]);
  }

  lemma {:induction false} AgedSurvives(st0: State, st: State, h: Handle)
    requires Aged(st0, st) && st.sessions != []
    ensures Survives(st0, h) <==> Survives(st, h)
  {
  }

  lemma {:induction false} ModifyStamps(mono: nat, st0: State, st: State, addr: nat, h: Handle, item: Object)
    requires Aged(st0, st) && Stamped(mono, st) && h in st.nodes && h in st0.nodes && st0.nodes[h].mtime == st.nodes[h].mtime
    ensures var st1, st' := ModifiedState(st0, mono, addr, h, item), ModifiedState(st, mono, addr, h, item);
      && st1.sessions == st'.sessions && |st'.sessions| == |st.sessions|
      && h in st'.nodes && (st.sessions != [] ==> Top(st).ctime <= st'.nodes[h].mtime)
  {
  }

  // ---------------------------------------------------------------------------------------------
  // A reverted modify

  /** The stamp of `id` goes past the start of every session, wherever undo would find it again. */
  function Raised(t: seq<Marks>, id: nat): seq<Marks> {
    if t == [] || id !in t[|t| - 1] then t
    else
      var height, marks := |t| - 1, t[|t| - 1];
      (if height > 0 && marks[id].right < height then Raised(t[..height], id) else t[..height])
      + [marks[id := Mark(marks[id].right, height)]]
  }

  lemma {:induction false} CountsRaised(n: nat, st0: State, st: State, marks: Marks, h: Handle, mtime: nat)
    requires CountsAll(st0, st, marks) && TableOk(n, st) && h in st.main && h in st.nodes && h in st0.nodes
    requires Counts(st.sessions, |st.sessions|, mtime)
    ensures st.nodes[h].item.id in marks
    ensures CountsAll(st0, Restamped(st, h, mtime), marks[st.nodes[h].item.id := Mark(marks[st.nodes[h].item.id].right, |st.sessions|)])
  {
    hide Counts;
  }

  lemma {:induction false} MarkedRaise(n: nat, st0: State, st: State, t: seq<Marks>, h: Handle, mtime: nat)
    requires Inv(n, st0) && Aged(st0, st) && Marked(st0, st, t) && h in st.main && h in st.nodes && h in st0.nodes
    requires st.sessions != [] ==> Top(st).ctime <= mtime
    ensures Marked(st0, Restamped(st, h, mtime), Raised(t, st.nodes[h].item.id))
    decreases |st.sessions|
  {
    var st', id := Restamped(st, h, mtime), st.nodes[h].item.id;
    hide Inv, UndoTop, Marked, CountsAll, TableOk, RemovedOk, OldsOk, StampsOk, NewStamped, Counts, Oldest, Survives;
    MarkedParts(st0, st, t);
    InvTop(n, st0);
    AgedTable(n, st0, st);
    NewestCounts(n, 0, st0, mtime);
    CountsRaised(n, st0, st, Current(t), h, mtime);
    RestampKeepsLists(st, h, mtime);
    var t' := Raised(t, id);
    MarkOfNode(st0, st, Current(t), h);
    if st.sessions != [] {
      AgedUndo(st0, st);
      AgedSurvives(st0, st, h);
      if st0.nodes[h].mtime < Top(st0).ctime {
        NoBackup(st0, h);
        SessionNew(st0);
        RestampUndo(st, h, mtime);
        UndoKeeps(st0, h);
        UndoneKeeps(st0, st, h);
        UndoLower(st);
        BelowTop(n, st0, mtime);
        MarkedRaise(n, UndoTop(st0), UndoTop(st), Front(t), h, mtime);
        assert Front(t') == Raised(Front(t), id);
      } else {
        StampedReplaced(st0, h);
        RestampLost(st, h, mtime);
        assert Front(t') == Front(t);
      }
    }
    MarkedAgain(st0, st', t');
  }

  lemma {:induction false} UndoneKeeps(st0: State, st: State, h: Handle)
    requires Aged(st0, st) && st0.sessions != [] && h in UndoTop(st0).main && h in UndoTop(st0).nodes && h in st.nodes
    requires Oldest(Top(st0).olds, Top(st0).ctime, h) == None
    ensures h in UndoTop(st).main && h in UndoTop(st).nodes && UndoTop(st).nodes[h].item == st.nodes[h].item
  {
    AgedUndo(st0, st);
    hide Oldest;
  }

  lemma {:induction false} BelowTop(n: nat, st: State, mtime: nat)
    requires Inv(n, st) && st.sessions != [] && Top(st).ctime <= mtime
    ensures UndoTop(st).sessions != [] ==> Top(UndoTop(st)).ctime <= mtime
  {
    hide Inv, UndoTop;
    UndoLower(st);
    if |st.sessions| >= 2 {
      CtimesRise(n, st, |st.sessions| - 2, |st.sessions| - 1);
    }
  }

  lemma {:induction false} MarkOfNode(st0: State, st: State, marks: Marks, h: Handle)
    requires CountsAll(st0, st, marks) && st0.sessions == st.sessions && h in st.main && h in st.nodes && h in st0.nodes
    ensures st.nodes[h].item.id in marks
    ensures st.sessions != [] ==> (marks[st.nodes[h].item.id].right < |st.sessions| <==> st0.nodes[h].mtime < Top(st).ctime)
  {
  }

  // ---------------------------------------------------------------------------------------------
  // squash, compress, commit

  function CappedMark(m: Mark, height: nat): Mark {
    Mark(if m.right <= height then m.right else height, if m.has <= height then m.has else height)
  }

  function Capped(marks: Marks, height: nat): Marks {
    map id | id in marks :: CappedMark(marks[id], height)
  }

  /** A stamp that a session restored is the same in the shadow. */
  lemma {:induction false} AgedReplaces(st0: State, st: State, h: Handle)
    requires Aged(st0, st) && |st0.sessions| >= 2 && h in st0.nodes && h in st.nodes && Replaces(st0, h)
    ensures Replaces(st, h)
  {
    hide Oldest;
  }

  lemma {:induction false} AgedMergeUndo(n: nat, st0: State, st: State)
    requires Inv(n, st0) && Aged(st0, st) && |st0.sessions| >= 2
    ensures UndoTop(MergedState(st)) == UndoTop(UndoTop(st)) && UndoTop(MergedState(st0)) == UndoTop(UndoTop(st0))
  {
    hide Inv, UndoTop, RemovedOk, OldsOk, StampsOk, NewStamped, Replaces, Survives, Undoable, TableOk;
    InvTop(n, st0);
    UndoLower(st0);
    UndoLower(st);
    InvTop(n, UndoTop(st0));
    AgedUndo(st0, st);
    AgedUndoable(n, st0, st);
    AgedUndoable(n, UndoTop(st0), UndoTop(st));
    UndoableParts(n, st);
    UndoableParts(n, UndoTop(st));
    forall h | h in UndoTop(st).nodes && Survives(UndoTop(st), h) && h in st.nodes
      ensures Replaces(st, h)
    {
      AgedSurvives(UndoTop(st0), UndoTop(st), h);
      RestoredBelow(st0, h);
      RestoredReplaces(st0, h);
      AgedReplaces(st0, st, h);
    }
    MergeUndo(n, st0);
    MergeOfReplaced(n, st);
  }

  lemma {:induction false} UndoableParts(n: nat, st: State)
    requires Undoable(n, st) && st.sessions != []
    ensures TableOk(n, st) && RemovedOk(st) && OldsOk(st) && NewStamped(st)
  {
  }

  lemma {:induction false} RestoredReplaces(st: State, h: Handle)
    requires |st.sessions| >= 2 && h in UndoTop(st).nodes && h in st.nodes && UndoTop(st).sessions != []
    requires var u := UndoTop(st); var a, b := Top(st), Top(u);
      && b.ctime < a.ctime && u.nodes[h] == Restore(a, h, st.nodes[h])
      && (Oldest(a.olds, a.ctime, h).Some? ==> Restore(b, h, u.nodes[h]).mtime < b.ctime)
    ensures Replaces(st, h)
  {
    MergedParts(st);
    hide Oldest, Restore;
  }

  lemma {:induction false} CountsMerged(st0: State, st: State, marks: Marks)
    requires CountsAll(st0, st, marks) && |st.sessions| >= 2 && |st0.sessions| >= 2
    ensures CountsAll(MergedState(st0), MergedState(st), Capped(marks, |st.sessions| - 1))
  {
    var sessions, sessions' := st.sessions, MergedState(st).sessions;
    forall k: nat, mtime: nat | Counts(sessions, k, mtime)
      ensures Counts(sessions', if k <= |sessions| - 1 then k else |sessions| - 1, mtime)
    {
    }
    hide Counts;
  }

  lemma {:induction false} MarkedMerge(n: nat, mono: nat, st0: State, st: State, t: seq<Marks>)
    requires Shadow(n, mono, st0, st) && Marked(st0, st, t) && |st.sessions| >= 2
    ensures |st0.sessions| >= 2
    ensures Marked(MergedState(st0), MergedState(st), t[..|t| - 2] + [Capped(Current(t), |st.sessions| - 1)])
  {
    var marks := Capped(Current(t), |st.sessions| - 1);
    hide Inv, UndoTop, Marked, CountsAll, TableOk, Undoable, MergedState, Capped;
    MarkedParts(st0, st, t);
    UndoLower(st0);
    UndoLower(st);
    MarkedParts(UndoTop(st0), UndoTop(st), Front(t));
    AgedMergeUndo(n, st0, st);
    CountsMerged(st0, st, Current(t));
    MergedSessions(st0, st);
    var t' := t[..|t| - 2] + [marks];
    assert Front(t') == Front(Front(t));
    MarkedAgain(MergedState(st0), MergedState(st), t');
  }

  lemma {:induction false} MergedSessions(st0: State, st: State)
    requires st0.sessions == st.sessions && |st.sessions| >= 2
    ensures MergedState(st0).sessions == MergedState(st).sessions && |MergedState(st).sessions| == |st.sessions| - 1
  {
  }

  lemma {:induction false} MarkedPart(st0: State, st: State, t: seq<Marks>, part0: State, part: State)
    requires Marked(st0, st, t) && PartOf(part0, st0) && PartOf(part, st) && part.sessions == [] && part0.sessions == []
    ensures Marked(part0, part, [Capped(Current(t), 0)])
  {
    hide UndoTop, Marked;
    MarkedParts(st0, st, t);
    assert forall m: Mark :: CappedMark(m, 0) == Mark(0, 0);
    assert CountsAll(part0, part, Capped(Current(t), 0));
    MarkedAgain(part0, part, [Capped(Current(t), 0)]);
  }

  lemma {:induction false} CountsCompressed(n: nat, st0: State, st: State, marks: Marks, i: nat, r: nat)
    requires CountsAll(st0, st, marks) && CanCompress(st0, i, r) && CanCompress(st, i, r) && Aged(st0, st)
    requires forall h :: h in st.main ==> h in CompressedState(st, i, r).nodes && h in st.nodes && CompressedState(st, i, r).nodes[h] == st.nodes[h]
    requires forall h :: h in st0.main ==> h in CompressedState(st0, i, r).nodes && h in st0.nodes && CompressedState(st0, i, r).nodes[h] == st0.nodes[h]
    ensures CountsAll(CompressedState(st0, i, r), CompressedState(st, i, r), marks)
  {
    CompressedLists(st, i, r);
    SameCounts(st.sessions, CompressedState(st, i, r).sessions);
    assert CompressedState(st, i, r).main == st.main && CompressedState(st0, i, r).main == st0.main;
    hide CompressedState, Counts;
  }

  lemma {:induction false} MarkedCompress(n: nat, mono: nat, st0: State, st: State, t: seq<Marks>, i: nat, r: nat)
    requires Shadow(n, mono, st0, st) && Marked(st0, st, t) && CanCompress(st, i, r) && CanCompress(st0, i, r)
    ensures Marked(CompressedState(st0, i, r), CompressedState(st, i, r), t)
  {
    hide Inv, UndoTop, Marked, CountsAll, TableOk, Undoable, RemovedOk, OldsOk, NewStamped, StampsOk, CompressedState;
    hide Aged, Stamped, Table, SnapshotsOf, KeptOlds, KeptRemoved;
    MarkedParts(st0, st, t);
    ShadowView(n, mono, st0, st);
    AgedSelf(st0);
    AgedUndoable(n, st0, st0);
    UndoableParts(n, st);
    UndoableParts(n, st0);
    CompressedMain(n, st, i, r);
    CompressedMain(n, st0, i, r);
    CountsCompressed(n, st0, st, Current(t), i, r);
    CompressKeepsUndo(st, i, r);
    CompressKeepsUndo(st0, i, r);
    AgedCompress(st0, st, i, r);
    AgedSessions(CompressedState(st0, i, r), CompressedState(st, i, r));
    CompressedHeight(st, i, r);
    MarkedInside(st0, st, t, CompressedState(st0, i, r), CompressedState(st, i, r), Current(t));
    assert Front(t) + [Current(t)] == t;
  }

  lemma {:induction false} AgedSessions(st0: State, st: State)
    requires Aged(st0, st)
    ensures st0.sessions == st.sessions
  {
  }

  lemma {:induction false} CompressedHeight(st: State, i: nat, r: nat)
    requires CanCompress(st, i, r)
    ensures |CompressedState(st, i, r).sessions| == |st.sessions|
  {
  }

  lemma {:induction false} AgedSelf(st: State)
    ensures Aged(st, st)
  {
  }

  function ShiftedMark(m: Mark, dropped: nat): Mark {
    Mark(if m.right >= dropped then m.right - dropped else 0, if m.has >= dropped then m.has - dropped else 0)
  }

  function Shifted(marks: Marks, dropped: nat): Marks {
    map id | id in marks :: ShiftedMark(marks[id], dropped)
  }

  /** The marks of what is left when the oldest sessions are forgotten. */
  function Forgotten(t: seq<Marks>, dropped: nat): seq<Marks> {
    if |t| <= dropped then [] else Forgotten(t[..|t| - 1], dropped) + [Shifted(t[|t| - 1], dropped)]
  }

  lemma {:induction false} ForgottenLength(t: seq<Marks>, dropped: nat)
    requires dropped < |t|
    ensures |Forgotten(t, dropped)| == |t| - dropped
  {
    if |t| - 1 > dropped {
      ForgottenLength(t[..|t| - 1], dropped);
    }
  }

  lemma {:induction false} CountsCommitted(st0: State, st: State, marks: Marks, j: nat, gone: set<Handle>)
    requires CountsAll(st0, st, marks) && j <= |st.sessions| && j <= |st0.sessions|
    ensures CountsAll(CommittedState(st0, j, gone), CommittedState(st, j, gone), Shifted(marks, j))
  {
    var sessions := st.sessions;
    forall k: nat, mtime: nat | Counts(sessions, k, mtime)
      ensures Counts(sessions[j..], if k >= j then k - j else 0, mtime)
    {
    }
    hide Counts;
  }

  lemma {:induction false} MarkedCommit(st0: State, st: State, t: seq<Marks>, j: nat, gone: set<Handle>)
    requires Marked(st0, st, t) && j <= |st.sessions| && j <= |st0.sessions| && Forgettable(st0, j, gone) && Forgettable(st, j, gone)
    ensures Marked(CommittedState(st0, j, gone), CommittedState(st, j, gone), Forgotten(t, j))
    decreases |st.sessions|
  {
    hide UndoTop, Marked, CountsAll, Forgettable, Shifted;
    MarkedParts(st0, st, t);
    CountsCommitted(st0, st, Current(t), j, gone);
    ForgottenLength(t, j);
    if j < |st.sessions| {
      CommitUndo(st0, j, gone);
      CommitUndo(st, j, gone);
      UndoLower(st0);
      UndoLower(st);
      MarkedCommit(UndoTop(st0), UndoTop(st), Front(t), j, gone);
    }
    MarkedAgain(CommittedState(st0, j, gone), CommittedState(st, j, gone), Forgotten(t, j));
  }
}
