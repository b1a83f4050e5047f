/** How the stack of small records and the two shared lists encode the sessions: the segments of all
    sessions are chained newest first, and each record points at the first element that was there
    when its session started. */
module SessionLists {
  import opened Objects
  import opened UndoSessions

  /** `None` is the null pointer: the list was empty. */
  datatype UndoState = UndoState(oldValuesEnd: Option<nat>, removedValuesEnd: Option<Handle>, oldNextId: nat, ctime: nat)

  function OldFlat(sessions: seq<Session>): seq<Old> {
    if sessions == [] then [] else sessions[|sessions| - 1].olds + OldFlat(sessions[..|sessions| - 1])
  }

  function RemovedFlat(sessions: seq<Session>): seq<Handle> {
    if sessions == [] then [] else sessions[|sessions| - 1].removed + RemovedFlat(sessions[..|sessions| - 1])
  }

  function OldHead(list: seq<Old>): Option<nat> {
    if list == [] then None else Some(list[0].addr)
  }

  function RemovedHead(list: seq<Handle>): Option<Handle> {
    if list == [] then None else Some(list[0])
  }

  ghost predicate DistinctAddresses(list: seq<Old>) {
    forall i, j :: 0 <= i < j < |list| ==> list[i].addr != list[j].addr
  }

  function UndoStateAt(sessions: seq<Session>, k: nat, staleOld: seq<Old>, staleRemoved: seq<Handle>): UndoState
    requires k < |sessions|
  {
    UndoState(OldHead(OldFlat(sessions[..k]) + staleOld), RemovedHead(RemovedFlat(sessions[..k]) + staleRemoved),
              sessions[k].nextId, sessions[k].ctime)
  }

  /** The lists hold the segments of the sessions and at most one stale element each, beyond the
      reach of every session. */
  ghost predicate Linked(oldValues: seq<Old>, removedValues: seq<Handle>, stack: seq<UndoState>,
                         sessions: seq<Session>, staleOld: seq<Old>, staleRemoved: seq<Handle>)
  {
    && oldValues == OldFlat(sessions) + staleOld && |staleOld| <= 1 && DistinctAddresses(oldValues)
    && removedValues == RemovedFlat(sessions) + staleRemoved && |staleRemoved| <= 1 && DistinctHandles(removedValues)
    && |stack| == |sessions|
    && (forall k :: 0 <= k < |stack| ==> stack[k] == UndoStateAt(sessions, k, staleOld, staleRemoved))
  }

  /** The walk from the head of a list has reached the element `end` points at. */
  predicate OldsEnd(list: seq<Old>, at: nat, end: Option<nat>)
    requires at <= |list|
  {
    at == |list| || Some(list[at].addr) == end
  }

  predicate RemovedEnd(list: seq<Handle>, at: nat, end: Option<Handle>)
    requires at <= |list|
  {
    at == |list| || Some(list[at]) == end
  }

  /** A walk over a segment ends exactly where the segment does. */
  lemma OldsEndAt(walked: seq<Old>, segment: seq<Old>, rest: seq<Old>)
    requires DistinctAddresses(walked + segment + rest)
    ensures OldsEnd(walked + segment + rest, |walked|, OldHead(rest)) <==> segment == []
  {
    var list := walked + segment + rest;
    if segment != [] {
      assert list[|walked|] == segment[0];
      if rest != [] {
        assert list[|walked| + |segment|] == rest[0];
      }
    } else {
      assert rest != [] ==> list[|walked|] == rest[0];
    }
  }

  lemma RemovedEndAt(walked: seq<Handle>, segment: seq<Handle>, rest: seq<Handle>)
    requires DistinctHandles(walked + segment + rest)
    ensures RemovedEnd(walked + segment + rest, |walked|, RemovedHead(rest)) <==> segment == []
  {
    var list := walked + segment + rest;
    if segment != [] {
      assert list[|walked|] == segment[0];
      if rest != [] {
        assert list[|walked| + |segment|] == rest[0];
      }
    } else {
      assert rest != [] ==> list[|walked|] == rest[0];
    }
  }

  lemma UndoStateBelow(sessions: seq<Session>, k: nat, staleOld: seq<Old>, staleRemoved: seq<Handle>)
    requires k < |sessions| - 1
    ensures UndoStateAt(sessions[..|sessions| - 1], k, staleOld, staleRemoved) == UndoStateAt(sessions, k, staleOld, staleRemoved)
  {
    assert sessions[..|sessions| - 1][..k] == sessions[..k];
  }

  lemma FlatTop(sessions: seq<Session>)
    requires sessions != []
    ensures OldFlat(sessions) == sessions[|sessions| - 1].olds + OldFlat(sessions[..|sessions| - 1])
    ensures RemovedFlat(sessions) == sessions[|sessions| - 1].removed + RemovedFlat(sessions[..|sessions| - 1])
  {
  }

  /** The lists seen from the top session: its segments, then everything older. */
  lemma LinkedTop(oldValues: seq<Old>, removedValues: seq<Handle>, stack: seq<UndoState>,
                  sessions: seq<Session>, staleOld: seq<Old>, staleRemoved: seq<Handle>)
    requires Linked(oldValues, removedValues, stack, sessions, staleOld, staleRemoved) && sessions != []
    ensures var s, lower := sessions[|sessions| - 1], sessions[..|sessions| - 1];
      && stack != [] && stack[|stack| - 1] == UndoStateAt(sessions, |sessions| - 1, staleOld, staleRemoved)
      && oldValues == s.olds + (OldFlat(lower) + staleOld)
      && removedValues == s.removed + (RemovedFlat(lower) + staleRemoved)
      && Linked(OldFlat(lower) + staleOld, RemovedFlat(lower) + staleRemoved, stack[..|stack| - 1], lower, staleOld, staleRemoved)
  {
    hide OldFlat, RemovedFlat, UndoStateAt;
    var s, lower := sessions[|sessions| - 1], sessions[..|sessions| - 1];
    FlatTop(sessions);
    forall k | 0 <= k < |lower|
      ensures UndoStateAt(lower, k, staleOld, staleRemoved) == UndoStateAt(sessions, k, staleOld, staleRemoved)
    {
      UndoStateBelow(sessions, k, staleOld, staleRemoved);
    }
    var olds, removed := OldFlat(lower) + staleOld, RemovedFlat(lower) + staleRemoved;
    assert oldValues == s.olds + olds && removedValues == s.removed + removed;
    assert olds == oldValues[|s.olds|..] && removed == removedValues[|s.removed|..];
  }

  /** Putting a top session on: the record points at the heads of what is there. */
  lemma LinkedPush(oldValues: seq<Old>, removedValues: seq<Handle>, stack: seq<UndoState>,
                   sessions: seq<Session>, staleOld: seq<Old>, staleRemoved: seq<Handle>, s: Session)
    requires Linked(oldValues, removedValues, stack, sessions, staleOld, staleRemoved)
    requires DistinctAddresses(s.olds + oldValues) && DistinctHandles(s.removed + removedValues)
    ensures Linked(s.olds + oldValues, s.removed + removedValues,
                   stack + [UndoState(OldHead(oldValues), RemovedHead(removedValues), s.nextId, s.ctime)],
                   sessions + [s], staleOld, staleRemoved)
  {
    var sessions' := sessions + [s];
    assert sessions'[..|sessions|] == sessions;
    assert forall k :: 0 <= k < |sessions| ==> sessions'[..k] == sessions[..k];
    assert s.olds + oldValues == OldFlat(sessions') + staleOld;
    assert s.removed + removedValues == RemovedFlat(sessions') + staleRemoved;
  }

  /** Replacing the segments of the top session. */
  lemma LinkedReplace(oldValues: seq<Old>, removedValues: seq<Handle>, stack: seq<UndoState>,
                      sessions: seq<Session>, staleOld: seq<Old>, staleRemoved: seq<Handle>, s: Session)
    requires Linked(oldValues, removedValues, stack, sessions, staleOld, staleRemoved) && sessions != []
    requires s.nextId == sessions[|sessions| - 1].nextId && s.ctime == sessions[|sessions| - 1].ctime
    requires var lower := sessions[..|sessions| - 1];
      DistinctAddresses(s.olds + (OldFlat(lower) + staleOld)) && DistinctHandles(s.removed + (RemovedFlat(lower) + staleRemoved))
    ensures var lower := sessions[..|sessions| - 1];
      Linked(s.olds + (OldFlat(lower) + staleOld), s.removed + (RemovedFlat(lower) + staleRemoved), stack, lower + [s], staleOld, staleRemoved)
  {
    var lower := sessions[..|sessions| - 1];
    LinkedTop(oldValues, removedValues, stack, sessions, staleOld, staleRemoved);
    LinkedPush(OldFlat(lower) + staleOld, RemovedFlat(lower) + staleRemoved, stack[..|stack| - 1], lower, staleOld, staleRemoved, s);
    assert stack == stack[..|stack| - 1] + [stack[|stack| - 1]];
  }

  /** Dropping the top record hands its segments to the session below. */
  lemma LinkedMerge(oldValues: seq<Old>, removedValues: seq<Handle>, stack: seq<UndoState>,
                    sessions: seq<Session>, staleOld: seq<Old>, staleRemoved: seq<Handle>)
    requires Linked(oldValues, removedValues, stack, sessions, staleOld, staleRemoved) && |sessions| >= 2
    ensures var a, b := sessions[|sessions| - 1], sessions[|sessions| - 2];
      Linked(oldValues, removedValues, stack[..|stack| - 1],
             sessions[..|sessions| - 2] + [Session(a.olds + b.olds, a.removed + b.removed, b.nextId, b.ctime)], staleOld, staleRemoved)
  {
    var a, b := sessions[|sessions| - 1], sessions[|sessions| - 2];
    var one, two := sessions[..|sessions| - 1], sessions[..|sessions| - 2];
    var merged := Session(a.olds + b.olds, a.removed + b.removed, b.nextId, b.ctime);
    assert one[..|one| - 1] == two && one[|one| - 1] == b;
    LinkedTop(oldValues, removedValues, stack, sessions, staleOld, staleRemoved);
    LinkedTop(OldFlat(one) + staleOld, RemovedFlat(one) + staleRemoved, stack[..|stack| - 1], one, staleOld, staleRemoved);
    var olds, removed := OldFlat(two) + staleOld, RemovedFlat(two) + staleRemoved;
    assert oldValues == merged.olds + olds && removedValues == merged.removed + removed;
    LinkedReplace(OldFlat(one) + staleOld, RemovedFlat(one) + staleRemoved, stack[..|stack| - 1], one, staleOld, staleRemoved, merged);
  }

  lemma {:induction false} FlatAppend(a: seq<Session>, b: seq<Session>)
    ensures OldFlat(a + b) == OldFlat(b) + OldFlat(a)
    ensures RemovedFlat(a + b) == RemovedFlat(b) + RemovedFlat(a)
  {
    if b == [] {
      assert a + b == a;
    } else {
      assert (a + b)[..|a + b| - 1] == a + b[..|b| - 1];
      FlatAppend(a, b[..|b| - 1]);
    }
  }

  function OneOld(list: seq<Old>): seq<Old> {
    if list == [] then [] else list[..1]
  }

  function OneRemoved(list: seq<Handle>): seq<Handle> {
    if list == [] then [] else list[..1]
  }

  /** The parts of the lists that belong to the sessions before session `j`. */
  function OldsBefore(sessions: seq<Session>, j: nat, staleOld: seq<Old>): seq<Old>
    requires j <= |sessions|
  {
    OldFlat(sessions[..j]) + staleOld
  }

  function RemovedBefore(sessions: seq<Session>, j: nat, staleRemoved: seq<Handle>): seq<Handle>
    requires j <= |sessions|
  {
    RemovedFlat(sessions[..j]) + staleRemoved
  }

  lemma ListsSplit(sessions: seq<Session>, j: nat, m: nat, staleOld: seq<Old>, staleRemoved: seq<Handle>)
    requires j <= m <= |sessions|
    ensures OldFlat(sessions[..m]) + staleOld == OldFlat(sessions[j..m]) + OldsBefore(sessions, j, staleOld)
    ensures RemovedFlat(sessions[..m]) + staleRemoved == RemovedFlat(sessions[j..m]) + RemovedBefore(sessions, j, staleRemoved)
  {
    assert sessions[..m] == sessions[..j] + sessions[j..m];
    FlatAppend(sessions[..j], sessions[j..m]);
  }

  lemma RecordAfterCommit(sessions: seq<Session>, j: nat, k: nat, staleOld: seq<Old>, staleRemoved: seq<Handle>)
    requires j + k < |sessions|
    ensures UndoStateAt(sessions[j..], k, OneOld(OldsBefore(sessions, j, staleOld)), OneRemoved(RemovedBefore(sessions, j, staleRemoved)))
         == UndoStateAt(sessions, j + k, staleOld, staleRemoved)
  {
    ListsSplit(sessions, j, j + k, staleOld, staleRemoved);
    assert sessions[j..][..k] == sessions[j..j + k];
    hide OldFlat, RemovedFlat;
  }

  /** Forgetting the sessions before `j` keeps one element beyond the oldest session that stays:
      the one its record points at. */
  lemma LinkedCommit(oldValues: seq<Old>, removedValues: seq<Handle>, stack: seq<UndoState>,
                     sessions: seq<Session>, staleOld: seq<Old>, staleRemoved: seq<Handle>, j: nat)
    requires Linked(oldValues, removedValues, stack, sessions, staleOld, staleRemoved) && j < |sessions|
    ensures var olds, removed := OldsBefore(sessions, j, staleOld), RemovedBefore(sessions, j, staleRemoved);
      && stack[j].oldValuesEnd == OldHead(olds) && stack[j].removedValuesEnd == RemovedHead(removed)
      && oldValues == OldFlat(sessions[j..]) + olds && removedValues == RemovedFlat(sessions[j..]) + removed
      && Linked(OldFlat(sessions[j..]) + OneOld(olds), RemovedFlat(sessions[j..]) + OneRemoved(removed),
                stack[j..], sessions[j..], OneOld(olds), OneRemoved(removed))
  {
    var olds, removed := OldsBefore(sessions, j, staleOld), RemovedBefore(sessions, j, staleRemoved);
    assert sessions[..|sessions|] == sessions && sessions[j..|sessions|] == sessions[j..];
    ListsSplit(sessions, j, |sessions|, staleOld, staleRemoved);
    var olds', removed' := OldFlat(sessions[j..]) + OneOld(olds), RemovedFlat(sessions[j..]) + OneRemoved(removed);
    assert olds' == oldValues[..|olds'|];
    assert removed' == removedValues[..|removed'|];
    forall k | 0 <= k < |stack[j..]|
      ensures stack[j..][k] == UndoStateAt(sessions[j..], k, OneOld(olds), OneRemoved(removed))
    {
      RecordAfterCommit(sessions, j, k, staleOld, staleRemoved);
    }
  }

  lemma ListsDistinct(oldValues: seq<Old>, removedValues: seq<Handle>, stack: seq<UndoState>,
                      sessions: seq<Session>, staleOld: seq<Old>, staleRemoved: seq<Handle>)
    requires Linked(oldValues, removedValues, stack, sessions, staleOld, staleRemoved)
    ensures |stack| == |sessions|
    ensures DistinctAddresses(oldValues) && DistinctHandles(removedValues)
    ensures DistinctAddresses([] + oldValues) && DistinctHandles([] + removedValues)
  {
  }

  /** A new backup goes to the head of the list and into the top session. */
  lemma LinkedPushOld(oldValues: seq<Old>, removedValues: seq<Handle>, stack: seq<UndoState>,
                      sessions: seq<Session>, staleOld: seq<Old>, staleRemoved: seq<Handle>, o: Old)
    requires Linked(oldValues, removedValues, stack, sessions, staleOld, staleRemoved) && sessions != []
    requires forall i :: 0 <= i < |oldValues| ==> oldValues[i].addr != o.addr
    ensures Linked([o] + oldValues, removedValues, stack,
                   Lowered(sessions) + [Last(sessions).(olds := [o] + Last(sessions).olds)], staleOld, staleRemoved)
  {
    var s, lower := Last(sessions), Lowered(sessions);
    LinkedTop(oldValues, removedValues, stack, sessions, staleOld, staleRemoved);
    assert [o] + oldValues == ([o] + s.olds) + (OldFlat(lower) + staleOld);
    LinkedReplace(oldValues, removedValues, stack, sessions, staleOld, staleRemoved, s.(olds := [o] + s.olds));
  }

  /** A removed node goes to the head of the list and into the top session. */
  lemma LinkedPushRemoved(oldValues: seq<Old>, removedValues: seq<Handle>, stack: seq<UndoState>,
                          sessions: seq<Session>, staleOld: seq<Old>, staleRemoved: seq<Handle>, h: Handle)
    requires Linked(oldValues, removedValues, stack, sessions, staleOld, staleRemoved) && sessions != []
    requires h !in removedValues
    ensures Linked(oldValues, [h] + removedValues, stack,
                   Lowered(sessions) + [Last(sessions).(removed := [h] + Last(sessions).removed)], staleOld, staleRemoved)
  {
    var s, lower := Last(sessions), Lowered(sessions);
    LinkedTop(oldValues, removedValues, stack, sessions, staleOld, staleRemoved);
    assert [h] + removedValues == ([h] + s.removed) + (RemovedFlat(lower) + staleRemoved);
    LinkedReplace(oldValues, removedValues, stack, sessions, staleOld, staleRemoved, s.(removed := [h] + s.removed));
  }

  /** The record of the top session carries its stamp and its first new key. */
  lemma LinkedRecord(oldValues: seq<Old>, removedValues: seq<Handle>, stack: seq<UndoState>,
                     sessions: seq<Session>, staleOld: seq<Old>, staleRemoved: seq<Handle>)
    requires Linked(oldValues, removedValues, stack, sessions, staleOld, staleRemoved)
    ensures |stack| == |sessions|
    ensures stack != [] ==> stack[|stack| - 1].oldNextId == Last(sessions).nextId && stack[|stack| - 1].ctime == Last(sessions).ctime
  {
  }

  lemma EraseOldDistinct(list: seq<Old>, at: nat)
    requires at < |list| && DistinctAddresses(list)
    ensures DistinctAddresses(list[..at] + list[at + 1..])
  {
  }

  lemma EraseRemovedDistinct(list: seq<Handle>, at: nat)
    requires at < |list| && DistinctHandles(list)
    ensures DistinctHandles(list[..at] + list[at + 1..])
  {
  }

  /** The list in the middle of the filter: what it kept, what it has not seen, and what it never reaches. */
  function Midway<T>(kept: seq<T>, segment: seq<T>, k: nat, rest: seq<T>): seq<T>
    requires k <= |segment|
  {
    kept + segment[k..] + rest
  }

  lemma MidwayEnds<T>(kept: seq<T>, segment: seq<T>, rest: seq<T>)
    ensures Midway([], segment, 0, rest) == segment + rest
    ensures Midway(kept, segment, |segment|, rest) == kept + rest && segment[..|segment|] == segment
  {
  }

  /** The list filter before its first step. */
  lemma FilterOldsStart(segment: seq<Old>, rest: seq<Old>)
    requires DistinctAddresses(segment + rest)
    ensures OldsEnd(segment + rest, 0, OldHead(rest)) <==> 0 == |segment|
  {
    assert [] + segment + rest == segment + rest;
    OldsEndAt([], segment, rest);
  }

  lemma FilterRemovedStart(segment: seq<Handle>, rest: seq<Handle>)
    requires DistinctHandles(segment + rest)
    ensures RemovedEnd(segment + rest, 0, RemovedHead(rest)) <==> 0 == |segment|
  {
    assert [] + segment + rest == segment + rest;
    RemovedEndAt([], segment, rest);
  }

  /** One step of the list filter: the element after the kept ones is erased, or kept as well. */
  lemma FilterOldsStep(kept: seq<Old>, segment: seq<Old>, k: nat, rest: seq<Old>)
    requires k < |segment| && DistinctAddresses(Midway(kept, segment, k, rest))
    ensures var list, at := Midway(kept, segment, k, rest), |kept|;
      && at < |list| && list[at] == segment[k]
      && var erased := list[..at] + list[at + 1..];
      && erased == Midway(kept, segment, k + 1, rest) && DistinctAddresses(erased)
      && |erased| == |list| - 1
      && (OldsEnd(erased, at, OldHead(rest)) <==> k + 1 == |segment|)
      && list == Midway(kept + [segment[k]], segment, k + 1, rest)
      && (OldsEnd(list, at + 1, OldHead(rest)) <==> k + 1 == |segment|)
  {
    var list, at := kept + segment[k..] + rest, |kept|;
    EraseOldDistinct(list, at);
    assert list[..at] + list[at + 1..] == kept + segment[k + 1..] + rest;
    OldsEndAt(kept, segment[k + 1..], rest);
    assert list == (kept + [segment[k]]) + segment[k + 1..] + rest;
    OldsEndAt(kept + [segment[k]], segment[k + 1..], rest);
  }

  lemma FilterRemovedStep(kept: seq<Handle>, segment: seq<Handle>, k: nat, rest: seq<Handle>)
    requires k < |segment| && DistinctHandles(Midway(kept, segment, k, rest))
    ensures var list, at := Midway(kept, segment, k, rest), |kept|;
      && at < |list| && list[at] == segment[k]
      && var erased := list[..at] + list[at + 1..];
      && erased == Midway(kept, segment, k + 1, rest) && DistinctHandles(erased)
      && |erased| == |list| - 1
      && (RemovedEnd(erased, at, RemovedHead(rest)) <==> k + 1 == |segment|)
      && list == Midway(kept + [segment[k]], segment, k + 1, rest)
      && (RemovedEnd(list, at + 1, RemovedHead(rest)) <==> k + 1 == |segment|)
  {
    var list, at := kept + segment[k..] + rest, |kept|;
    EraseRemovedDistinct(list, at);
    assert list[..at] + list[at + 1..] == kept + segment[k + 1..] + rest;
    RemovedEndAt(kept, segment[k + 1..], rest);
    assert list == (kept + [segment[k]]) + segment[k + 1..] + rest;
    RemovedEndAt(kept + [segment[k]], segment[k + 1..], rest);
  }

  /** How far the element `end` points at is from the head of the list. */
  function OldPosition(list: seq<Old>, end: Option<nat>): (at: nat)
    ensures at <= |list|
  {
    if list == [] || Some(list[0].addr) == end then 0 else 1 + OldPosition(list[1..], end)
  }

  function RemovedPosition(list: seq<Handle>, end: Option<Handle>): (at: nat)
    ensures at <= |list|
  {
    if list == [] || Some(list[0]) == end then 0 else 1 + RemovedPosition(list[1..], end)
  }

  lemma {:induction false} OldPositionIs(segment: seq<Old>, rest: seq<Old>)
    requires DistinctAddresses(segment + rest)
    ensures OldPosition(segment + rest, OldHead(rest)) == |segment|
  {
    OldsEndAt([], segment, rest);
    assert [] + segment + rest == segment + rest;
    if segment == [] {
      assert segment + rest == rest;
    } else {
      assert (segment + rest)[1..] == segment[1..] + rest;
      OldPositionIs(segment[1..], rest);
    }
  }

  lemma {:induction false} RemovedPositionIs(segment: seq<Handle>, rest: seq<Handle>)
    requires DistinctHandles(segment + rest)
    ensures RemovedPosition(segment + rest, RemovedHead(rest)) == |segment|
  {
    RemovedEndAt([], segment, rest);
    assert [] + segment + rest == segment + rest;
    if segment == [] {
      assert segment + rest == rest;
    } else {
      assert (segment + rest)[1..] == segment[1..] + rest;
      RemovedPositionIs(segment[1..], rest);
    }
  }

  lemma LinkedEmpty()
    ensures Linked([], [], [], [], [], [])
  {
  }

  lemma LinkedSecond(oldValues: seq<Old>, removedValues: seq<Handle>, stack: seq<UndoState>,
                     sessions: seq<Session>, staleOld: seq<Old>, staleRemoved: seq<Handle>)
    requires Linked(oldValues, removedValues, stack, sessions, staleOld, staleRemoved) && |sessions| >= 2
    ensures |stack| == |sessions|
    ensures stack[|stack| - 2].oldNextId == sessions[|sessions| - 2].nextId && stack[|stack| - 2].ctime == sessions[|sessions| - 2].ctime
  {
  }

  lemma {:induction false} FlatContains(sessions: seq<Session>, k: nat, h: Handle)
    requires k < |sessions| && h in sessions[k].removed
    ensures h in RemovedFlat(sessions)
  {
    if k < |sessions| - 1 {
      FlatContains(sessions[..|sessions| - 1], k, h);
    }
  }

  /** What lies beyond the oldest kept session belongs to no kept session. */
  lemma {:induction false} BeyondKept(sessions: seq<Session>, j: nat, removedValues: seq<Handle>, at: nat)
    requires j <= |sessions| && DistinctHandles(removedValues) && at <= |removedValues|
    requires |RemovedFlat(sessions[j..])| <= at && RemovedFlat(sessions[j..]) <= removedValues
    ensures forall k, h :: j <= k < |sessions| && h in sessions[k].removed ==> h !in removedValues[at..]
  {
    var kept := RemovedFlat(sessions[j..]);
    forall k, h | j <= k < |sessions| && h in sessions[k].removed
      ensures h !in removedValues[at..]
    {
      FlatContains(sessions[j..], k - j, h);
      var m :| 0 <= m < |kept| && kept[m] == h;
      assert removedValues[m] == h;
    }
  }
}
