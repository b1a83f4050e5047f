/** The journal as a sequence of records: what each call logs, how adjacent records are merged, and
    what replaying a log does. */
module JournalLog {
  import opened Objects
  import opened Snapshots
  import opened Archive

  /** `Foreign` is an entry of a kind this container does not know. */
  datatype Record =
    | Insert(fields: seq<int>)
    | Modify(id: nat, fields: seq<int>)
    | Remove(id: nat)
    | StartUndo(revision: int)
    | Commit(revision: int)
    | Undo(revision: int)
    | UndoAll(revision: int)
    | Revision(revision: int)
    | Foreign(kind: nat, bytes: seq<Byte>)

  /** The records, and whether this process has written the last one and so may merge into it. */
  datatype Log = Log(records: seq<Record>, live: bool)

  // ---------------------------------------------------------------------------------------------
  // Writing

  predicate IsUndoEntry(r: Record) {
    r.StartUndo? || r.Commit? || r.Undo? || r.UndoAll? || r.Revision?
  }

  predicate CanMerge(last: Record, next: Record) {
    || (last.StartUndo? && next.Commit?)
    || (last.Revision? && (next.StartUndo? || next.Revision?))
  }

  function Merge(next: Record): Record
    requires IsUndoEntry(next)
  {
    if next.StartUndo? then next else Revision(next.revision)
  }

  predicate Merges(log: Log, next: Record) {
    log.live && log.records != [] && CanMerge(log.records[|log.records| - 1], next)
  }

  function Appended(log: Log, next: Record): Log {
    if Merges(log, next) then Log(log.records[..|log.records| - 1] + [Merge(next)], true)
    else Log(log.records + [next], true)
  }

  // ---------------------------------------------------------------------------------------------
  // Replaying

  /** One record applied to the container; nothing if an exception is thrown. */
  ghost function Replay(n: nat, v: View, r: Record): Option<View> {
    match r
    case Insert(fields) =>
      if Fits(n, v.contents, Object(v.nextId, fields)) then Some(Emplaced(v, v.nextId, fields)) else None
    case Modify(id, fields) =>
      if id in v.contents && Fits(n, v.contents, Object(id, fields)) then Some(Modified(v, id, fields)) else None
    case Remove(id) =>
      if id in v.contents then Some(Removed(v, id)) else None
    case StartUndo(revision) =>
      var w := if v.revision < revision - 1 && CanSetRevision(v, revision - 1) then v.(revision := revision - 1) else v;
      if w.revision == revision - 1 then Some(Started(w)) else None
    case Commit(revision) =>
      if v.revision == revision then Some(Committed(v, revision)) else None
    case Undo(revision) =>
      if Undone(v).revision == revision then Some(Undone(v)) else None
    case UndoAll(revision) =>
      if UndoneAll(v).revision == revision then Some(UndoneAll(v)) else None
    case Revision(revision) =>
      if CanSetRevision(v, revision) then Some(v.(revision := revision)) else None
    case Foreign(_, _) =>
      Some(v)
  }

  ghost function ReplayAll(n: nat, v: View, records: seq<Record>): Option<View> {
    if records == [] then Some(v)
    else
      var before := ReplayAll(n, v, records[..|records| - 1]);
      if before.None? then None else Replay(n, before.value, records[|records| - 1])
  }

  /** When an entry of the undo protocol is applied and not refused. */
  predicate Accepts(revision: int, height: nat, r: Record)
    requires IsUndoEntry(r)
  {
    match r
    case StartUndo(to) => revision == to - 1 || (revision < to - 1 <= MAX_REVISION && 0 <= to - 1 && height == 0)
    case Commit(to) => revision == to
    case Undo(to) => revision - (if height == 0 then 0 else 1) == to
    case UndoAll(to) => revision - height == to
    case Revision(to) => height == 0 && 0 <= to <= MAX_REVISION && revision <= to
  }

  /** An entry about an object is refused if the object is not there, or if an index has one of the
      members already.  A new object has the next key, and nothing but the object changes. */
  lemma {:induction false} ObjectChecked(n: nat, v: View, r: Record)
    requires HasMembers(n, v.contents) && !IsUndoEntry(r) && !r.Foreign? && (!r.Remove? ==> |r.fields| >= n - 1)
    ensures var c := v.contents;
      match r
      case Insert(fields) =>
        var o := Object(v.nextId, fields);
        Replay(n, v, r) == if MembersFree(n, c, o) then Some(v.(contents := c[v.nextId := o], nextId := v.nextId + 1)) else None
      case Modify(id, fields) =>
        var o := Object(id, fields);
        Replay(n, v, r) == if id in c && MembersFree(n, c, o) then Some(v.(contents := c[id := o])) else None
      case Remove(id) =>
        Replay(n, v, r) == if id in c then Some(v.(contents := c - {id})) else None
      case _ => true
  {
    if r.Insert? {
      FitsMembers(n, v.contents, Object(v.nextId, r.fields));
    } else if r.Modify? {
      FitsMembers(n, v.contents, Object(r.id, r.fields));
    }
    hide Fits, MembersFree, HasMembers;
  }

  lemma {:induction false} UndoneAllLowers(v: View)
    ensures UndoneAll(v).revision == v.revision - |v.snapshots|
    decreases |v.snapshots|
  {
    if v.snapshots != [] {
      UndoneAllLowers(Undone(v));
    }
  }

  /** Every entry of the undo protocol is checked: it is refused unless it is accepted above, and if it
      is not, the container's revision is then the one in the entry. */
  lemma {:induction false} RevisionChecked(n: nat, v: View, r: Record)
    requires IsUndoEntry(r)
    ensures Replay(n, v, r).Some? <==> Accepts(v.revision, |v.snapshots|, r)
    ensures Replay(n, v, r).Some? ==> Replay(n, v, r).value.revision == r.revision
  {
    UndoneAllLowers(v);
    hide UndoneAll;
  }

  /** And so at the end of a log that ends with one. */
  lemma {:induction false} LastRevision(n: nat, v0: View, records: seq<Record>)
    requires records != [] && IsUndoEntry(records[|records| - 1]) && ReplayAll(n, v0, records).Some?
    ensures ReplayAll(n, v0, records).value.revision == records[|records| - 1].revision
  {
    var before := ReplayAll(n, v0, records[..|records| - 1]);
    RevisionChecked(n, before.value, records[|records| - 1]);
  }

  // ---------------------------------------------------------------------------------------------
  // Calls on a journaled container

  datatype Call =
    | DoEmplace(fields: seq<int>)
    | DoModify(id: nat, fields: seq<int>)
    | DoRemove(id: nat)
    | DoStartUndo
    | DoSetRevision(revision: int)
    | DoCommit(revision: int)
    | DoUndo
    | DoUndoAll

  /** What callers owe: an object they change or remove is in the table, and the modify succeeds. */
  ghost predicate Allowed(n: nat, v: View, c: Call) {
    match c
    case DoModify(id, fields) => id in v.contents && Fits(n, v.contents, Object(id, fields))
    case DoRemove(id) => id in v.contents
    case _ => true
  }

  ghost function Called(n: nat, v: View, c: Call): View {
    match c
    case DoEmplace(fields) => if Fits(n, v.contents, Object(v.nextId, fields)) then Emplaced(v, v.nextId, fields) else v
    case DoModify(id, fields) => Modified(v, id, fields)
    case DoRemove(id) => Removed(v, id)
    case DoStartUndo => Started(v)
    case DoSetRevision(revision) => if CanSetRevision(v, revision) then v.(revision := revision) else v
    case DoCommit(revision) => Committed(v, revision)
    case DoUndo => Undone(v)
    case DoUndoAll => UndoneAll(v)
  }

  /** The record a call writes, if it writes one.  A commit writes the revision the container returns,
      which is its own and not the one committed. */
  ghost function Written(n: nat, v: View, c: Call): Option<Record> {
    match c
    case DoEmplace(fields) => if Fits(n, v.contents, Object(v.nextId, fields)) then Some(Insert(fields)) else None
    case DoModify(id, fields) => Some(Modify(id, fields))
    case DoRemove(id) => Some(Remove(id))
    case DoStartUndo => Some(StartUndo(v.revision + 1))
    case DoSetRevision(revision) => if CanSetRevision(v, revision) then Some(Revision(revision)) else None
    case DoCommit(revision) => Some(Commit(v.revision))
    case DoUndo => Some(Undo(Undone(v).revision))
    case DoUndoAll => if v.snapshots != [] then Some(UndoAll(UndoneAll(v).revision)) else None
  }

  ghost function Logged(n: nat, v: View, log: Log, c: Call): Log {
    var r := Written(n, v, c);
    if r.None? then log else Appended(log, r.value)
  }

  // ---------------------------------------------------------------------------------------------
  // Replay equals run

  /** The journal stays true to the container unless the call is a commit that keeps a session, or
      one that is merged into the start of a session opened inside another. */
  predicate KeepsFaith(v: View, log: Log, c: Call) {
    c.DoCommit? ==>
      && (v.snapshots == [] || v.revision <= c.revision)
      && (Merges(log, Commit(v.revision)) ==> |v.snapshots| == 1)
  }

  lemma {:induction false} ReplayLast(n: nat, v0: View, records: seq<Record>, next: Record)
    ensures ReplayAll(n, v0, records + [next]) ==
      var before := ReplayAll(n, v0, records); if before.None? then None else Replay(n, before.value, next)
  {
  }

  /** A record that is rejected ends the replay for good. */
  lemma {:induction false} ReplayStops(n: nat, v0: View, records: seq<Record>, m: nat)
    requires m <= |records| && ReplayAll(n, v0, records[..m]) == None
    ensures ReplayAll(n, v0, records) == None
    decreases |records|
  {
    if m == |records| {
      assert records[..m] == records;
    } else {
      var before := records[..|records| - 1];
      assert before[..m] == records[..m];
      ReplayStops(n, v0, before, m);
    }
  }

  /** The log replays to the container's state. */
  ghost predicate Faithful(n: nat, v0: View, v: View, log: Log) {
    ReplayAll(n, v0, log.records) == Some(v)
  }

  ghost predicate InRange(v: View) {
    0 <= v.revision <= MAX_REVISION
  }

  /** A record replays to what its call did, but for a commit that keeps a session. */
  lemma {:induction false} RecordReplays(n: nat, v: View, c: Call)
    requires Allowed(n, v, c)
    ensures var r := Written(n, v, c);
      if r.None? then Called(n, v, c) == v
      else Replay(n, v, r.value) == Some(Called(n, v, c)) <==> (c.DoCommit? ==> v.snapshots == [] || v.revision <= c.revision)
  {
  }

  /** A call whose record is not merged. */
  lemma {:induction false} PlainStep(n: nat, v0: View, v: View, log: Log, c: Call)
    requires Faithful(n, v0, v, log) && Allowed(n, v, c)
    requires Written(n, v, c).Some? ==> !Merges(log, Written(n, v, c).value)
    ensures Faithful(n, v0, Called(n, v, c), Logged(n, v, log, c)) <==>
      (c.DoCommit? ==> v.snapshots == [] || v.revision <= c.revision)
  {
    hide Written, Called, Allowed, Replay, ReplayAll, Merges;
    RecordReplays(n, v, c);
    var r := Written(n, v, c);
    if r.Some? {
      ReplayLast(n, v0, log.records, r.value);
    } else {
      NothingWritten(n, v, c);
    }
  }

  /** A commit is always logged. */
  lemma NothingWritten(n: nat, v: View, c: Call)
    requires Written(n, v, c).None?
    ensures !c.DoCommit?
  {
  }

  lemma {:induction false} UndoneAllEmpty(v: View)
    ensures v.snapshots == [] ==> UndoneAll(v) == v
  {
  }

  /** A call whose record is merged into the one before. */
  lemma {:induction false} MergedStep(n: nat, v0: View, v: View, log: Log, c: Call)
    requires Faithful(n, v0, v, log) && Allowed(n, v, c) && InRange(v)
    requires Written(n, v, c).Some? && Merges(log, Written(n, v, c).value)
    ensures Faithful(n, v0, Called(n, v, c), Logged(n, v, log, c)) <==>
      (c.DoCommit? ==> v.revision <= c.revision && |v.snapshots| == 1)
  {
  }

  /** One call: the log replays to the new state exactly when the call keeps faith. */
  lemma {:induction false} StepIsFaithful(n: nat, v0: View, v: View, log: Log, c: Call)
    requires Faithful(n, v0, v, log) && Allowed(n, v, c) && InRange(v)
    ensures Faithful(n, v0, Called(n, v, c), Logged(n, v, log, c)) <==> KeepsFaith(v, log, c)
  {
    var r := Written(n, v, c);
    if r.Some? && Merges(log, r.value) {
      MergedStep(n, v0, v, log, c);
    } else {
      PlainStep(n, v0, v, log, c);
    }
  }

  /** The members that are logged do not hold the key, so replay gives a new object the next one. */
  lemma {:induction false} RaisedKeyFaith(n: nat, v0: View, v: View, log: Log, id: nat, fields: seq<int>)
    requires Faithful(n, v0, v, log) && id >= v.nextId && Fits(n, v.contents, Object(id, fields))
    ensures Faithful(n, v0, Emplaced(v, id, fields), Appended(log, Insert(fields))) <==> id == v.nextId
  {
    hide Fits;
    ReplayLast(n, v0, log.records, Insert(fields));
  }

  // ---------------------------------------------------------------------------------------------
  // Whole runs

  ghost function Ran(n: nat, v: View, calls: seq<Call>): View {
    if calls == [] then v else Called(n, Ran(n, v, calls[..|calls| - 1]), calls[|calls| - 1])
  }

  ghost function RanLog(n: nat, v: View, log: Log, calls: seq<Call>): Log {
    if calls == [] then log
    else
      var before := calls[..|calls| - 1];
      Logged(n, Ran(n, v, before), RanLog(n, v, log, before), calls[|calls| - 1])
  }

  /** What the same calls would log if nothing were ever merged. */
  ghost function RanPlain(n: nat, v: View, records: seq<Record>, calls: seq<Call>): seq<Record> {
    if calls == [] then records
    else
      var before := calls[..|calls| - 1];
      var r := Written(n, Ran(n, v, before), calls[|calls| - 1]);
      RanPlain(n, v, records, before) + (if r.None? then [] else [r.value])
  }

  /** Every call is allowed where it is made and keeps faith. */
  ghost predicate GoodRun(n: nat, v: View, log: Log, calls: seq<Call>) {
    calls != [] ==>
      var before, last := calls[..|calls| - 1], calls[|calls| - 1];
      && GoodRun(n, v, log, before)
      && Allowed(n, Ran(n, v, before), last) && InRange(Ran(n, v, before))
      && KeepsFaith(Ran(n, v, before), RanLog(n, v, log, before), last)
  }

  /** Replaying the journal of a run gives the table, the next key, the revision and every snapshot
      that the run left, and no record is rejected. */
  lemma {:induction false} ReplayEqualsRun(n: nat, v0: View, v: View, log: Log, calls: seq<Call>)
    requires Faithful(n, v0, v, log) && GoodRun(n, v, log, calls)
    ensures Faithful(n, v0, Ran(n, v, calls), RanLog(n, v, log, calls))
  {
    if calls != [] {
      var before := calls[..|calls| - 1];
      ReplayEqualsRun(n, v0, v, log, before);
      hide Faithful, Called, Logged, Allowed, KeepsFaith, InRange;
      StepIsFaithful(n, v0, Ran(n, v, before), RanLog(n, v, log, before), calls[|calls| - 1]);
    }
  }

  /** The merged log means what the unmerged one does. */
  lemma {:induction false} MergingPreservesRuns(n: nat, v0: View, v: View, log: Log, calls: seq<Call>)
    requires Faithful(n, v0, v, log) && GoodRun(n, v, log, calls)
    ensures ReplayAll(n, v0, RanLog(n, v, log, calls).records) == ReplayAll(n, v0, RanPlain(n, v, log.records, calls))
  {
    ReplayEqualsRun(n, v0, v, log, calls);
    PlainRun(n, v0, v, log, calls);
  }

  lemma {:induction false} PlainCall(n: nat, v0: View, v: View, log: Log, records: seq<Record>, c: Call)
    requires ReplayAll(n, v0, records) == Some(v) && Allowed(n, v, c) && KeepsFaith(v, log, c)
    ensures var r := Written(n, v, c);
      ReplayAll(n, v0, if r.None? then records else records + [r.value]) == Some(Called(n, v, c))
  {
    hide Replay, ReplayAll, Written, Called, Allowed;
    RecordReplays(n, v, c);
    var r := Written(n, v, c);
    if r.Some? {
      ReplayLast(n, v0, records, r.value);
    }
  }

  lemma {:induction false} PlainRun(n: nat, v0: View, v: View, log: Log, calls: seq<Call>)
    requires Faithful(n, v0, v, log) && GoodRun(n, v, log, calls)
    ensures ReplayAll(n, v0, RanPlain(n, v, log.records, calls)) == Some(Ran(n, v, calls))
  {
    if calls != [] {
      var before, last := calls[..|calls| - 1], calls[|calls| - 1];
      PlainRun(n, v0, v, log, before);
      var w, plain := Ran(n, v, before), RanPlain(n, v, log.records, before);
      assert RanPlain(n, v, log.records, calls) ==
        if Written(n, w, last).None? then plain else plain + [Written(n, w, last).value];
      hide ReplayAll, RanPlain, RanLog, Called, Written, Allowed, KeepsFaith, Logged;
      PlainCall(n, v0, w, RanLog(n, v, log, before), plain, last);
    }
  }

  // ---------------------------------------------------------------------------------------------
  // Merging in any log

  /** Replacing a mergeable pair by its merger: the same state, unless a commit closes a session
      that was opened inside another, and then replay is refused. */
  lemma {:induction false} MergePair(n: nat, b: View, last: Record, next: Record)
    requires CanMerge(last, next) && Replay(n, b, last).Some?
    requires Replay(n, Replay(n, b, last).value, next).Some? && InRange(Replay(n, b, last).value)
    ensures var v := Replay(n, b, last).value;
      if next.Commit? && |v.snapshots| > 1 then Replay(n, b, Merge(next)) == None
      else Replay(n, b, Merge(next)) == Replay(n, v, next)
  {
  }

  /** Writing the records one by one, merging as the journal does. */
  function Condensed(records: seq<Record>): Log {
    if records == [] then Log([], false)
    else Appended(Condensed(records[..|records| - 1]), records[|records| - 1])
  }

  /** Every commit that directly follows the start of a session follows that of an outermost one. */
  ghost predicate OutermostPairs(n: nat, v0: View, records: seq<Record>) {
    forall k :: 0 < k < |records| && records[k - 1].StartUndo? && records[k].Commit? ==>
      ReplayAll(n, v0, records[..k]).Some? ==> |ReplayAll(n, v0, records[..k]).value.snapshots| == 1
  }

  ghost predicate StaysInRange(n: nat, v0: View, records: seq<Record>) {
    forall k :: 0 <= k <= |records| ==>
      ReplayAll(n, v0, records[..k]).Some? ==> InRange(ReplayAll(n, v0, records[..k]).value)
  }

  lemma {:induction false} LastOfCondensed(records: seq<Record>)
    ensures var log := Condensed(records);
      && (records == [] <==> log.records == [])
      && (records != [] ==> log.live && (log.records[|log.records| - 1].StartUndo? ==> log.records[|log.records| - 1] == records[|records| - 1]))
  {
  }

  /** However long the chains of merges, the merged log replays to the state the full log replays to. */
  lemma {:induction false} CondensedReplays(n: nat, v0: View, records: seq<Record>)
    requires ReplayAll(n, v0, records).Some? && OutermostPairs(n, v0, records) && StaysInRange(n, v0, records)
    ensures ReplayAll(n, v0, Condensed(records).records) == ReplayAll(n, v0, records)
  {
    hide OutermostPairs, StaysInRange, Condensed, ReplayAll, InRange;
    if records == [] {
      NothingCondensed(n, v0);
    } else {
      PrefixReplays(n, v0, records);
      CondensedReplays(n, v0, records[..|records| - 1]);
      CondensedStep(n, v0, records);
    }
  }

  lemma NothingCondensed(n: nat, v0: View)
    ensures Condensed([]).records == []
  {
  }

  /** What is asked of a log holds of all but its last record. */
  lemma {:induction false} PrefixReplays(n: nat, v0: View, records: seq<Record>)
    requires records != [] && ReplayAll(n, v0, records).Some? && OutermostPairs(n, v0, records) && StaysInRange(n, v0, records)
    ensures var before := records[..|records| - 1];
      && ReplayAll(n, v0, before).Some? && OutermostPairs(n, v0, before) && StaysInRange(n, v0, before)
      && InRange(ReplayAll(n, v0, before).value)
  {
    hide InRange, Replay;
    var before := records[..|records| - 1];
    assert forall k :: 0 <= k <= |before| ==> before[..k] == records[..k];
  }

  lemma {:induction false} CondensedStep(n: nat, v0: View, records: seq<Record>)
    requires records != [] && ReplayAll(n, v0, records).Some? && OutermostPairs(n, v0, records)
    requires ReplayAll(n, v0, Condensed(records[..|records| - 1]).records) == ReplayAll(n, v0, records[..|records| - 1])
    requires InRange(ReplayAll(n, v0, records[..|records| - 1]).value)
    ensures ReplayAll(n, v0, Condensed(records).records) == ReplayAll(n, v0, records)
  {
    var before, next := records[..|records| - 1], records[|records| - 1];
    var log := Condensed(before);
    LastOfCondensed(before);
    ReplayLast(n, v0, log.records, next);
    if Merges(log, next) {
      var rest, last := log.records[..|log.records| - 1], log.records[|log.records| - 1];
      ReplayLast(n, v0, rest, Merge(next));
      MergePair(n, ReplayAll(n, v0, rest).value, last, next);
    }
  }

  // ---------------------------------------------------------------------------------------------
  // Nothing is left to merge

  /** No revision is directly followed by another or by the start of a session, and no start of a
      session by a commit. */
  ghost predicate Tight(records: seq<Record>) {
    forall k :: 0 < k < |records| ==>
      && (records[k - 1].Revision? ==> !records[k].Revision? && !records[k].StartUndo?)
      && (records[k - 1].StartUndo? ==> !records[k].Commit?)
  }

  /** The records after the first `found`, which are those this process has written. */
  ghost predicate TightSince(log: Log, found: nat) {
    && found <= |log.records| && (log.live <==> found < |log.records|)
    && Tight(log.records[found..])
  }

  lemma TightFront(records: seq<Record>)
    requires records != [] && Tight(records)
    ensures Tight(records[..|records| - 1])
  {
  }

  /** Writing one more, merged or not, leaves the front as it is and nothing to merge. */
  lemma {:induction false} AppendedTight(log: Log, found: nat, next: Record)
    requires TightSince(log, found)
    ensures TightSince(Appended(log, next), found) && Appended(log, next).records[..found] == log.records[..found]
  {
    var own := log.records[found..];
    if Merges(log, next) {
      TightFront(own);
      assert Appended(log, next).records[found..] == own[..|own| - 1] + [Merge(next)];
    } else {
      assert Appended(log, next).records[found..] == own + [next];
    }
  }

  lemma {:induction false} CondensedTight(records: seq<Record>)
    ensures Tight(Condensed(records).records) && TightSince(Condensed(records), 0)
  {
    if records != [] {
      CondensedTight(records[..|records| - 1]);
      AppendedTight(Condensed(records[..|records| - 1]), 0, records[|records| - 1]);
    }
    assert Condensed(records).records[0..] == Condensed(records).records;
  }

  /** What a run writes after the records it found. */
  lemma {:induction false} RunTight(n: nat, v: View, log: Log, calls: seq<Call>)
    requires !log.live
    ensures var log' := RanLog(n, v, log, calls);
      TightSince(log', |log.records|) && log'.records[..|log.records|] == log.records
  {
    if calls != [] {
      var before := calls[..|calls| - 1];
      RunTight(n, v, log, before);
      var r := Written(n, Ran(n, v, before), calls[|calls| - 1]);
      hide Written, Ran;
      if r.Some? {
        AppendedTight(RanLog(n, v, log, before), |log.records|, r.value);
      }
    }
  }
}
