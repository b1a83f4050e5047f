/** Committing: the oldest sessions are forgotten and the nodes only they could bring back destroyed. */
module UndoCommit {
  import opened Objects
  import opened UndoSessions

  function CommittedState(st: State, j: nat, gone: set<Handle>): State
    requires j <= |st.sessions|
  {
    st.(nodes := st.nodes - gone, sessions := st.sessions[j..])
  }

  /** `gone` holds no node of the table and none that sessions `j` and later can bring back. */
  ghost predicate Forgettable(st: State, j: nat, gone: set<Handle>) {
    && (forall h :: h in gone ==> h !in st.main)
    && (forall k, h :: j <= k < |st.sessions| && h in st.sessions[k].removed ==> h !in gone)
  }

  lemma {:induction false} CommitUndo(st: State, j: nat, gone: set<Handle>)
    requires j < |st.sessions| && Forgettable(st, j, gone)
    ensures UndoTop(CommittedState(st, j, gone)) == CommittedState(UndoTop(st), j, gone)
    ensures Forgettable(UndoTop(st), j, gone)
  {
  }

  lemma {:induction false} CommitTableOk(n: nat, mono: nat, st: State, j: nat, gone: set<Handle>)
    requires j <= |st.sessions| && Forgettable(st, j, gone) && TableOk(n, st)
    ensures TableOk(n, CommittedState(st, j, gone))
    ensures Stamped(mono, st) ==> Stamped(mono, CommittedState(st, j, gone))
  {
  }

  lemma {:induction false} CommitSessionOk(st: State, j: nat, gone: set<Handle>)
    requires j < |st.sessions| && Forgettable(st, j, gone) && SessionOk(st) && st.main <= st.nodes.Keys
    ensures SessionOk(CommittedState(st, j, gone))
  {
    var st' := CommittedState(st, j, gone);
    CommitUndo(st, j, gone);
    assert Top(st').removed == st.sessions[|st.sessions| - 1].removed;
    assert forall h :: h in Reach(st') <==> h in Reach(st);
    hide UndoTop;
    assert RemovedOk(st') by { hide OldsOk, StampsOk; }
    assert OldsOk(st') by { hide RemovedOk, StampsOk; }
    CommitStampsOk(st, j, gone);
  }

  lemma {:induction false} CommitStampsOk(st: State, j: nat, gone: set<Handle>)
    requires j < |st.sessions| && Forgettable(st, j, gone) && StampsOk(st)
    ensures StampsOk(CommittedState(st, j, gone))
  {
    CommitUndo(st, j, gone);
    assert UndoTop(st).main <= UndoTop(st).nodes.Keys;
    hide Restore;
  }

  lemma {:induction false} CommitKeepsInv(n: nat, st: State, j: nat, gone: set<Handle>)
    requires Inv(n, st) && Forgettable(st, j, gone) && j <= |st.sessions|
    ensures Inv(n, CommittedState(st, j, gone))
    decreases |st.sessions|
  {
    assert st.main <= st.nodes.Keys;
    hide SessionOk, TableOk, UndoTop;
    CommitTableOk(n, 0, st, j, gone);
    if j < |st.sessions| {
      CommitUndo(st, j, gone);
      CommitSessionOk(st, j, gone);
      assert |UndoTop(st).sessions| == |st.sessions| - 1 by { UndoLower(st); }
      CommitKeepsInv(n, UndoTop(st), j, gone);
    }
  }

  lemma {:induction false} CommitKeepsTable(n: nat, st: State, j: nat, gone: set<Handle>)
    requires TableOk(n, st) && Forgettable(st, j, gone) && j <= |st.sessions|
    ensures Table(CommittedState(st, j, gone)) == Table(st)
  {
  }

  lemma {:induction false} LastAndRest<T>(a: seq<T>, b: seq<T>, j: nat)
    requires j < |a| && |b| == |a| - j
    requires b[..|b| - 1] == a[..|a| - 1][j..] && b[|b| - 1] == a[|a| - 1]
    ensures b == a[j..]
  {
  }

  lemma {:induction false} CommitSnapshots(n: nat, st: State, j: nat, gone: set<Handle>)
    requires Inv(n, st) && Forgettable(st, j, gone) && j <= |st.sessions|
    ensures SnapshotsOf(CommittedState(st, j, gone)) == SnapshotsOf(st)[j..]
    decreases |st.sessions|
  {
    if j < |st.sessions| {
      var u := UndoTop(st);
      assert TableOk(n, u) && Inv(n, u);
      hide ContentsOf, Inv, TableOk, UndoTop, Forgettable, SnapshotsOf, Table;
      CommitUndo(st, j, gone);
      UndoLower(st);
      CommitSnapshots(n, u, j, gone);
      CommitKeepsTable(n, u, j, gone);
      TopSnapshot(st);
      TopSnapshot(CommittedState(st, j, gone));
      LastAndRest(SnapshotsOf(st), SnapshotsOf(CommittedState(st, j, gone)), j);
    }
  }

  /** The kept sessions keep their snapshots, and the table its contents. */
  lemma {:induction false} CommitSessions(n: nat, mono: nat, st: State, j: nat, gone: set<Handle>)
    requires Inv(n, st) && Stamped(mono, st) && Forgettable(st, j, gone) && j <= |st.sessions|
    ensures var st' := CommittedState(st, j, gone);
      && Inv(n, st') && Stamped(mono, st')
      && Table(st') == Table(st)
      && SnapshotsOf(st') == SnapshotsOf(st)[j..]
  {
    assert TableOk(n, st);
    hide *;
    CommitKeepsInv(n, st, j, gone);
    CommitTableOk(n, mono, st, j, gone);
    CommitKeepsTable(n, st, j, gone);
    CommitSnapshots(n, st, j, gone);
  }
}
