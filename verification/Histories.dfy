/** What the stack of snapshots promises over whole runs: a session that stays open can always be
    taken back, however much happens inside it. */
module Histories {
  import opened Objects
  import opened Snapshots
  import opened Runs

  function UndoneTimes(v: View, k: nat): View {
    if k == 0 then v else Undone(UndoneTimes(v, k - 1))
  }

  /** `a` is what is left of `b` once some of its first elements are dropped. */
  predicate IsSuffix<T(==)>(a: seq<T>, b: seq<T>) {
    |a| <= |b| && a == b[|b| - |a|..]
  }

  // ---------------------------------------------------------------------------------------------
  // Squash, undo_all, commit

  lemma {:induction false} UndoneTimesIs(v: View, k: nat)
    requires 1 <= k <= |v.snapshots|
    ensures var at := |v.snapshots| - k;
      UndoneTimes(v, k) == View(v.snapshots[at].contents, v.snapshots[at].nextId, v.revision - k, v.snapshots[..at])
  {
    if k > 1 {
      UndoneTimesIs(v, k - 1);
    }
  }

  /** A squash keeps the table; revision and sessions are what undo would leave. */
  lemma SquashKeepsTable(v: View)
    ensures Squashed(v) == Undone(v).(contents := v.contents, nextId := v.nextId)
  {
  }

  /** Squashing two sessions and undoing the result is undoing both. */
  lemma {:induction false} SquashThenUndo(v: View)
    requires |v.snapshots| >= 2
    ensures Undone(Squashed(v)) == UndoneTimes(v, 2)
  {
    UndoneTimesIs(v, 2);
  }

  /** `undo_all` goes back to the start of the oldest session. */
  lemma {:induction false} UndoneAllIs(v: View)
    ensures UndoneAll(v) == UndoneTimes(v, |v.snapshots|)
    ensures v.snapshots != [] ==>
      UndoneAll(v) == View(v.snapshots[0].contents, v.snapshots[0].nextId, v.revision - |v.snapshots|, [])
    decreases |v.snapshots|
  {
    if v.snapshots != [] {
      UndoneAllIs(Undone(v));
      UndoneTimesIs(v, |v.snapshots|);
    }
  }

  /** How many sessions a commit keeps. */
  function Keeps(v: View, revision: int): nat {
    if v.revision <= revision then 0
    else if v.revision - revision < |v.snapshots| then v.revision - revision
    else |v.snapshots|
  }

  /** A commit keeps the newest sessions as they are; taking one of them back before the commit or
      after it comes to the same. */
  lemma {:induction false} CommitKeepsSuffix(v: View, revision: int)
    ensures var w := Committed(v, revision);
      && w == v.(snapshots := w.snapshots) && |w.snapshots| == Keeps(v, revision) && IsSuffix(w.snapshots, v.snapshots)
      && (revision < v.revision ==> Undone(w) == Committed(Undone(v), revision))
  {
    var w := Committed(v, revision);
    if revision < v.revision && v.snapshots != [] {
      assert w.snapshots[..|w.snapshots| - 1] == Committed(Undone(v), revision).snapshots;
    }
  }

  // ---------------------------------------------------------------------------------------------
  // Brackets

  /** How deep a session that is `depth` sessions down lies after one more call; zero when it is closed. */
  ghost function DepthAfter(v: View, depth: nat, op: Op): nat {
    match op
    case StartUndo => depth + 1
    case Undo => if depth == 0 then 0 else depth - 1
    case Squash => if depth == 0 then 0 else depth - 1
    case SquashFast => if depth == 0 then 0 else depth - 1
    case UndoAll => 0
    case Commit(revision) => if Keeps(v, revision) < depth then 0 else depth
    case _ => depth
  }

  /** The session that is on top at `v` stays open throughout the run. */
  ghost predicate StaysOpen(n: nat, v: View, ops: seq<Op>) {
    ops == [] || (StaysOpen(n, v, ops[..|ops| - 1]) && Depth(n, v, ops) > 0)
  }

  ghost function Depth(n: nat, v: View, ops: seq<Op>): nat {
    if ops == [] then 1
    else DepthAfter(RunOf(n, v, ops[..|ops| - 1]), Depth(n, v, ops[..|ops| - 1]), ops[|ops| - 1])
  }

  /** The sessions below and the start of the bracket are still what they were, up to committed ones. */
  ghost predicate Holds(v: View, w: View, depth: nat) {
    && 1 <= depth <= |w.snapshots|
    && w.snapshots[|w.snapshots| - depth] == Snapshot(v.contents, v.nextId)
    && w.revision - depth == v.revision
    && IsSuffix(w.snapshots[..|w.snapshots| - depth], v.snapshots)
  }

  lemma {:induction false} StepHolds(n: nat, v: View, w: View, depth: nat, op: Op)
    requires Holds(v, w, depth) && DepthAfter(w, depth, op) > 0
    ensures Holds(v, Step(n, w, op), DepthAfter(w, depth, op))
  {
    if op.Commit? {
      CommitHolds(v, w, depth, op.revision);
    } else {
      hide Fits, UndoneAll, Committed, Keeps;
      assert Step(n, w, op).snapshots[..|w.snapshots| - depth] == w.snapshots[..|w.snapshots| - depth];
    }
  }

  lemma {:induction false} CommitHolds(v: View, w: View, depth: nat, revision: int)
    requires Holds(v, w, depth) && depth <= Keeps(w, revision)
    ensures Holds(v, Committed(w, revision), depth)
  {
  }

  lemma {:induction false} RunHolds(n: nat, v: View, ops: seq<Op>)
    requires StaysOpen(n, Started(v), ops)
    ensures Holds(v, RunOf(n, Started(v), ops), Depth(n, Started(v), ops))
  {
    if ops == [] {
      assert Started(v).snapshots[..|v.snapshots|] == v.snapshots;
    } else {
      var before := ops[..|ops| - 1];
      RunHolds(n, v, before);
      StepHolds(n, v, RunOf(n, Started(v), before), Depth(n, Started(v), before), ops[|ops| - 1]);
    }
  }

  /** Undoing down to the start of a session gives back the table, the next key and the revision from
      just before `start_undo`, and the sessions that were open then but for committed ones, whatever
      the run inside did. */
  lemma {:induction false} BracketRestores(n: nat, v: View, ops: seq<Op>)
    requires StaysOpen(n, Started(v), ops)
    ensures var u := UndoneTimes(RunOf(n, Started(v), ops), Depth(n, Started(v), ops));
      && u.contents == v.contents && u.nextId == v.nextId && u.revision == v.revision
      && IsSuffix(u.snapshots, v.snapshots)
      && ((forall k :: 0 <= k < |ops| ==> !ops[k].Commit?) ==> u == v)
  {
    RunHolds(n, v, ops);
    UndoneTimesIs(RunOf(n, Started(v), ops), Depth(n, Started(v), ops));
    if forall k :: 0 <= k < |ops| ==> !ops[k].Commit? {
      NothingCommitted(n, v, ops);
      var u := UndoneTimes(RunOf(n, Started(v), ops), Depth(n, Started(v), ops));
      assert u.snapshots == v.snapshots;
    }
  }

  lemma {:induction false} NothingCommitted(n: nat, v: View, ops: seq<Op>)
    requires StaysOpen(n, Started(v), ops) && forall k :: 0 <= k < |ops| ==> !ops[k].Commit?
    ensures |RunOf(n, Started(v), ops).snapshots| == |v.snapshots| + Depth(n, Started(v), ops)
  {
    if ops != [] {
      var before, op := ops[..|ops| - 1], ops[|ops| - 1];
      assert forall k :: 0 <= k < |before| ==> before[k] == ops[k];
      NothingCommitted(n, v, before);
      assert !op.Commit? && op == ops[|ops| - 1];
      StepCounts(n, RunOf(n, Started(v), before), Depth(n, Started(v), before), op);
    }
  }

  lemma {:induction false} StepCounts(n: nat, w: View, depth: nat, op: Op)
    requires !op.Commit? && DepthAfter(w, depth, op) > 0 && 1 <= depth <= |w.snapshots|
    ensures |Step(n, w, op).snapshots| - DepthAfter(w, depth, op) == |w.snapshots| - depth
  {
  }

  // ---------------------------------------------------------------------------------------------
  // Every run from the empty container

  /** Objects are stored under their own keys, all below `nextId`, and share no secondary key. */
  ghost predicate Sound(n: nat, c: Contents, nextId: nat) {
    && (forall i :: i in c ==> c[i].id == i < nextId)
    && (forall i, j, k :: i in c && j in c && i != j && 1 <= k < n ==> Key(k, c[i]) != Key(k, c[j]))
  }

  /** The table and every snapshot could be a table; keys are never given out again while a session
      that knows them is open; and no more sessions are open than the revision counts. */
  ghost predicate WellFormed(n: nat, v: View) {
    && Sound(n, v.contents, v.nextId)
    && (forall k :: 0 <= k < |v.snapshots| ==> Sound(n, v.snapshots[k].contents, v.snapshots[k].nextId))
    && (forall j, k :: 0 <= j < k < |v.snapshots| ==> v.snapshots[j].nextId <= v.snapshots[k].nextId)
    && (v.snapshots != [] ==> v.snapshots[|v.snapshots| - 1].nextId <= v.nextId)
    && |v.snapshots| <= v.revision
  }

  lemma {:induction false} StepKeepsContents(n: nat, v: View, op: Op)
    requires Sound(n, v.contents, v.nextId) && (op.Emplace? || op.Modify? || op.Remove?)
    ensures Sound(n, Step(n, v, op).contents, Step(n, v, op).nextId)
  {
  }

  lemma {:induction false} StepWellFormed(n: nat, v: View, op: Op)
    requires WellFormed(n, v)
    ensures WellFormed(n, Step(n, v, op))
  {
    if op.Emplace? || op.Modify? || op.Remove? {
      StepKeepsContents(n, v, op);
      hide Fits, Sound;
    } else if op.Undo? || op.UndoAll? {
      UndoneAllIs(v);
      hide Sound, UndoneAll;
    } else {
      StackWellFormed(n, v, op);
    }
  }

  lemma {:induction false} StackWellFormed(n: nat, v: View, op: Op)
    requires WellFormed(n, v) && !op.Emplace? && !op.Modify? && !op.Remove? && !op.Undo? && !op.UndoAll?
    ensures WellFormed(n, Step(n, v, op))
  {
    if op.Commit? {
      CommitWellFormed(n, v, op.revision);
    } else {
      hide Sound, Committed;
    }
  }

  lemma {:induction false} CommitWellFormed(n: nat, v: View, revision: int)
    requires WellFormed(n, v)
    ensures WellFormed(n, Committed(v, revision))
  {
  }

  lemma {:induction false} RunWellFormed(n: nat, ops: seq<Op>)
    ensures WellFormed(n, RunOf(n, EMPTY, ops))
  {
    if ops != [] {
      RunWellFormed(n, ops[..|ops| - 1]);
      StepWellFormed(n, RunOf(n, EMPTY, ops[..|ops| - 1]), ops[|ops| - 1]);
    }
  }
}
