/** Collisions in one of several secondary indices, written out as the repository's tests have them. */
module Conflicts {
  import opened Objects
  import opened Snapshots
  import opened UndoSessions
  import opened UndoFailure
  import opened UndoContainer

  /** Three objects, each ordered by its own number in three secondary indices. */
  const THREE: Contents := map[0 := Object(0, [10, 10, 10]), 1 := Object(1, [11, 11, 11]), 2 := Object(2, [12, 12, 12])]

  lemma ThreeFit()
    ensures HasMembers(4, map[]) && MembersFree(4, map[], Object(0, [10, 10, 10]))
    ensures var one := map[0 := Object(0, [10, 10, 10])]; HasMembers(4, one) && MembersFree(4, one, Object(1, [11, 11, 11]))
    ensures var two := map[0 := Object(0, [10, 10, 10]), 1 := Object(1, [11, 11, 11])];
      HasMembers(4, two) && MembersFree(4, two, Object(2, [12, 12, 12]))
    ensures HasMembers(4, THREE)
  {
  }

  /** The second members of objects 1 and 3 agree, and of objects 0 and the changed object 3. */
  lemma SecondTaken()
    ensures HasMembers(4, THREE) && !MembersFree(4, THREE, Object(3, [81, 11, 91])) && MembersFree(4, THREE, Object(3, [71, 81, 91]))
    ensures var four := THREE[3 := Object(3, [71, 81, 91])];
      HasMembers(4, four) && !MembersFree(4, four, Object(3, [71, 10, 91]))
  {
    assert 1 in THREE && THREE[1].fields[1] == [81, 11, 91][1];
    var four := THREE[3 := Object(3, [71, 81, 91])];
    assert 0 in four && four[0].fields[1] == [71, 10, 91][1];
  }

  method ThreeObjects() returns (c: UndoMultiIndex)
    ensures fresh(c) && fresh(c.table) && c.Valid() && c.Clean() && |c.table.indices| == 4 && c.Model() == View(THREE, 3, 0, [])
  {
    hide UndoMultiIndex.Valid, UndoMultiIndex.Usable, UndoMultiIndex.Tidy, UndoMultiIndex.Clean, Table, SnapshotsOf, Fits, HasMembers, MembersFree, EmplacedState;
    ThreeFit();
    c := new UndoMultiIndex(4);
    var first := c.Emplace(0, [10, 10, 10]);
    var second := c.Emplace(1, [11, 11, 11]);
    var third := c.Emplace(2, [12, 12, 12]);
  }

  /** An object whose second member is taken is refused, though its first and third are free. */
  method InsertFails() returns (c: UndoMultiIndex, refused: bool)
    ensures fresh(c) && c.Valid() && refused && c.Model() == View(THREE, 3, 0, [])
  {
    hide UndoMultiIndex.Valid, UndoMultiIndex.Usable, UndoMultiIndex.Tidy, UndoMultiIndex.Clean, Table, SnapshotsOf, Fits, HasMembers, MembersFree, EmplacedState, StartedState, UndoTop, TableOk;
    SecondTaken();
    c := ThreeObjects();
    var _ := c.StartUndo();
    var inserted := c.Emplace(3, [81, 11, 91]);
    refused := inserted.None?;
    c.Undo();
  }

  /** So is a change of the second member to one that is taken; the object, which is of this session, goes. */
  method ModifyFails() returns (c: UndoMultiIndex, refused: bool)
    ensures fresh(c) && c.Valid() && refused && c.Model() == View(THREE, 3, 0, [])
  {
    hide UndoMultiIndex.Valid, UndoMultiIndex.Usable, UndoMultiIndex.Tidy, UndoMultiIndex.Clean, UndoMultiIndex.CanTrust, Table, SnapshotsOf, Fits, HasMembers, MembersFree, EmplacedState, StartedState, UndoTop, TableOk;
    hide FailedState, ModifiedState, RemovedState, Reverts;
    SecondTaken();
    c := ThreeObjects();
    ghost var before := c.St();
    var _ := c.StartUndo();
    var inserted := c.Emplace(3, [71, 81, 91]);
    NewIsExpendable(before, c.mono, c.St(), inserted.value);
    var ok := c.Modify(inserted.value, [71, 10, 91]);
    refused := !ok;
    c.Undo();
  }

  lemma NewIsExpendable(before: State, ctime: nat, st: State, h: Handle)
    requires h in st.nodes && st == EmplacedState(StartedState(before, ctime), h, st.nodes[h]) && st.nodes[h].item.id >= before.nextId
    ensures HarmlessFailure(st, h)
  {
  }
}
