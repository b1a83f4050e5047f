/** The container under the undo layer: several ordered indices over one set of allocated nodes. */
module Container {
  import opened Objects
  import opened OrderedIndex

  lemma {:induction false} SomeAddressIsFree(live: set<nat>)
    ensures exists p: nat :: p !in live
  {
    if live == {} {
      assert 0 !in live;
    } else {
      var top := Greatest(live);
      assert top + 1 !in live;
    }
  }

  lemma {:induction false} Greatest(live: set<nat>) returns (top: nat)
    requires live != {}
    ensures top in live && forall q :: q in live ==> q <= top
  {
    var p :| p in live;
    var rest := live - {p};
    top := p;
    if rest != {} {
      var other := Greatest(rest);
      top := if other > p then other else p;
    }
    forall q | q in live
      ensures q <= top
    {
      assert q == p || q in rest;
    }
  }

  /** The allocator may return any address that is not in use. */
  method Allocate(live: set<nat>) returns (p: nat)
    ensures p !in live
  {
    SomeAddressIsFree(live);
    p :| p !in live;
  }

  /** `insert_unique`: where `p` goes in index `k`, unless an object with its key is already there. */
  method InsertPosition(ghost unique: bool, nodes: Nodes, k: nat, s: seq<Handle>, p: Handle) returns (pos: nat)
    requires Ordered(unique, nodes, k, s) && p !in s && p in nodes
    ensures pos <= |s| && (pos < |s| ==> s[pos] in nodes)
    ensures KeyIsFree(nodes, k, Elements(s), p) <==> (pos == |s| || KeyOf(nodes, k, s[pos]) != KeyOf(nodes, k, p))
    ensures KeyIsFree(nodes, k, Elements(s), p) ==> Ordered(unique, nodes, k, InsertAt(s, pos, p))
    ensures OrderedBut(unique, nodes, k, InsertAt(s, pos, p), p)
    ensures Elements(InsertAt(s, pos, p)) == Elements(s) + {p}
    ensures p in InsertAt(s, pos, p) && Without(InsertAt(s, pos, p), p) == s
  {
    pos := LowerBound(nodes, k, s, KeyOf(nodes, k, p));
    FreeLowerBound(unique, nodes, k, s, p);
    InsertUnique(unique, nodes, k, s, p);
    InsertElements(s, pos, p);
    InsertWithout(s, pos, p);
  }

  class MultiIndex {
    var nodes: Nodes
    var indices: seq<seq<Handle>>
    var nextId: nat

    ghost function Main(): set<Handle>
      requires indices != []
      reads this
    {
      Elements(indices[0])
    }

    /** Every index lists the same live nodes in strict order, and `nextId` is above all their keys. */
    ghost predicate Valid()
      reads this
    {
      && indices != []
      && Indexed(true, nodes, indices, Main())
      && (forall h :: h in Main() && h in nodes ==> nodes[h].item.id < nextId)
    }

    constructor (n: nat)
      requires n >= 1
      ensures Valid() && nodes == map[] && |indices| == n && Main() == {} && nextId == 0
    {
      nodes := map[];
      indices := seq(n, _ => []);
      nextId := 0;
    }

    /** Inserts `p` into index `k` and all later ones; on a collision the insertions made so far are taken back. */
    method InsertImpl(ghost unique: bool, k: nat, p: Handle) returns (ok: bool)
      requires k <= |indices| && p in nodes
      requires forall j :: k <= j < |indices| ==> Ordered(unique || j == 0, nodes, j, indices[j]) && p !in indices[j]
      modifies this`indices
      ensures |indices| == old(|indices|) && indices[..k] == old(indices[..k])
      ensures ok <==> forall j :: k <= j < |indices| ==> KeyIsFree(nodes, j, Elements(old(indices)[j]), p)
      ensures ok ==> forall j :: k <= j < |indices| ==>
                Ordered(unique || j == 0, nodes, j, indices[j]) && Elements(indices[j]) == Elements(old(indices)[j]) + {p}
      ensures !ok ==> indices == old(indices)
      decreases |indices| - k
    {
      hide Ordered, KeyIsFree, Elements, LowerBound, InsertAt, Without;
      if k < |indices| {
        var s := indices[k];
        var pos := InsertPosition(unique || k == 0, nodes, k, s, p);
        if pos < |s| && KeyOf(nodes, k, s[pos]) == KeyOf(nodes, k, p) {
          return false;
        }
        indices := indices[k := InsertAt(s, pos, p)];
        assert forall j :: k < j < |indices| ==> Elements(indices[j]) == Elements(old(indices)[j]);
        assert old(indices)[k] == s;
        ok := InsertImpl(unique, k + 1, p);
        if !ok {
          indices := indices[k := Without(indices[k], p)];
          assert indices == old(indices);
        }
      } else {
        ok := true;
      }
    }

    /** Moves a modified node to its place in index `k`, looking only at its neighbours first.
        If the key is taken, the node is left just before its rival. */
    method Reposition(unique: bool, k: nat, p: Handle) returns (ok: bool)
      requires k < |indices| && OrderedBut(unique, nodes, k, indices[k], p)
      modifies this`indices
      ensures |indices| == old(|indices|) && (forall j :: 0 <= j < |indices| && j != k ==> indices[j] == old(indices[j]))
      ensures Elements(indices[k]) == Elements(old(indices[k]))
      ensures OrderedBut(unique, nodes, k, indices[k], p)
      ensures ok ==> Ordered(unique, nodes, k, indices[k])
      ensures unique ==> (ok <==> KeyIsFree(nodes, k, Elements(old(indices[k])), p))
      ensures !unique ==> ok
    {
      var s := indices[k];
      var i := PositionOf(s, p);
      if BetweenNeighbours(nodes, k, s, i) {
        NeighboursSuffice(unique, nodes, k, s, i);
        return true;
      }
      WithoutElements(unique, nodes, k, s, p);
      var t := Without(s, p);
      assert Elements(t) + {p} == Elements(s) by {
        assert p in s;
      }
      hide Without, PositionOf;
      if unique {
        var pos := InsertPosition(true, nodes, k, t, p);
        indices := indices[k := InsertAt(t, pos, p)];
        ok := pos == |t| || KeyOf(nodes, k, t[pos]) != KeyOf(nodes, k, p);
        assert KeyIsFree(nodes, k, Elements(t), p) == KeyIsFree(nodes, k, Elements(s), p);
      } else {
        var pos := UpperBound(nodes, k, t, KeyOf(nodes, k, p));
        InsertEqual(nodes, k, t, p);
        InsertElements(t, pos, p);
        indices := indices[k := InsertAt(t, pos, p)];
        OrderedIsOrderedBut(unique, nodes, k, indices[k], p);
        ok := true;
      }
    }

    /** Repositions `p` in index `k` and all later ones, stopping at the first collision. */
    method PostModifyImpl(unique: bool, k: nat, p: Handle) returns (ok: bool)
      requires 1 <= k <= |indices| && p in nodes
      requires forall j :: k <= j < |indices| ==> OrderedBut(unique, nodes, j, indices[j], p)
      modifies this`indices
      ensures |indices| == old(|indices|) && indices[..k] == old(indices[..k])
      ensures forall j :: k <= j < |indices| ==> Elements(indices[j]) == Elements(old(indices)[j]) && OrderedBut(unique, nodes, j, indices[j], p)
      ensures ok ==> forall j :: k <= j < |indices| ==> Ordered(unique, nodes, j, indices[j])
      ensures unique ==> (ok <==> forall j :: k <= j < |indices| ==> KeyIsFree(nodes, j, Elements(old(indices)[j]), p))
      ensures !unique ==> ok
      decreases |indices| - k
    {
      hide Ordered, OrderedBut, KeyIsFree, Elements;
      if k < |indices| {
        ok := Reposition(unique, k, p);
        if ok {
          ok := PostModifyImpl(unique, k + 1, p);
        }
      } else {
        ok := true;
      }
    }

    /** Takes `p` out of index `k` and all later ones. */
    method EraseImpl(k: nat, p: Handle)
      requires k <= |indices|
      requires forall j :: k <= j < |indices| ==> OrderedBut(true, nodes, j, indices[j], p)
      modifies this`indices
      ensures |indices| == old(|indices|) && indices[..k] == old(indices[..k])
      ensures forall j :: k <= j < |indices| ==>
                && Ordered(true, nodes, j, indices[j])
                && Elements(indices[j]) == Elements(old(indices)[j]) - {p}
                && p in old(indices)[j] && indices[j] == Without(old(indices)[j], p)
      decreases |indices| - k
    {
      if k < |indices| {
        WithoutElements(true, nodes, k, indices[k], p);
        hide Ordered, Elements, Without;
        indices := indices[k := Without(indices[k], p)];
        EraseImpl(k + 1, p);
      }
    }

    /** All or nothing: on a collision in any index everything is as before.  The constructor is given
        the next key and may raise it. */
    method Emplace(id: nat, fields: seq<int>) returns (r: Option<Handle>)
      requires Valid() && id >= nextId
      modifies this
      ensures Valid() && |indices| == old(|indices|)
      ensures r.None? ==> nodes == old(nodes) && indices == old(indices) && nextId == old(nextId)
      ensures r.Some? ==>
                && r.value !in old(nodes)
                && nodes == old(nodes)[r.value := Node(Object(id, fields), 0, false)]
                && Main() == old(Main()) + {r.value}
                && nextId == id + 1
      ensures r.Some? <==> HasRoomForNew(|indices|, old(nodes), old(Main()), Object(id, fields))
      ensures old(NodesHaveMembers(|indices|, nodes, Main())) && |fields| >= |indices| - 1 ==>
                (r.Some? <==> RoomForNewByMembers(|indices|, old(nodes), old(Main()), Object(id, fields)))
    {
      hide Ordered, KeyIsFree, HasRoomForNew, RoomForNewByMembers, NodesHaveMembers, Elements;
      ghost var before, main := nodes, Main();
      if NodesHaveMembers(|indices|, nodes, main) && |fields| >= |indices| - 1 {
        RoomForNewMembers(|indices|, nodes, main, Object(id, fields));
      }
      IndexedLive(true, nodes, indices, main);
      var p := Allocate(nodes.Keys);
      nodes := nodes[p := Node(Object(id, fields), 0, false)];
      IndexedFrame(true, before, nodes, indices, main);
      RoomForNewIsFree(before, nodes, indices, main, p);
      AppendOrdered(nodes, indices[0], p);
      var ok := InsertImpl(true, 1, p);
      if !ok {
        nodes := nodes - {p};
        assert nodes == before;
        return None;
      }
      indices := indices[0 := indices[0] + [p]];
      nextId := id + 1;
      r := Some(p);
    }

    /** Takes `p` out of every index. */
    method Erase(p: Handle)
      requires indices != [] && IndexedBut(true, nodes, indices, Main(), p, 1) && p in Main()
      modifies this`indices
      ensures |indices| == old(|indices|) && Main() == old(Main()) - {p}
      ensures Indexed(true, nodes, indices, Main())
      ensures p in old(indices[0]) && indices[0] == Without(old(indices[0]), p)
    {
      OrderedIsOrderedBut(true, nodes, 0, indices[0], p);
      EraseImpl(0, p);
    }

    /** Destroys a node that no index lists; it must be live. */
    method DisposeNode(ghost unique: bool, p: Handle)
      requires p in nodes && indices != [] && p !in Main()
      modifies this`nodes
      ensures nodes == old(nodes) - {p}
      ensures old(Indexed(unique, nodes, indices, Main())) ==> Indexed(unique, nodes, indices, Main())
      ensures unique && old(Valid()) ==> Valid()
    {
      if Indexed(unique, nodes, indices, Main()) {
        IndexedLive(unique, nodes, indices, Main());
        IndexedFrame(unique, nodes, nodes - {p}, indices, Main());
      }
      nodes := nodes - {p};
    }

    /** Gives `p` a new value and repositions it. */
    method SetItem(p: Handle, item: Object) returns (ok: bool)
      requires indices != [] && IndexedBut(true, nodes, indices, Main(), p, 1)
      requires p in Main() && p in nodes && item.id == nodes[p].item.id
      modifies this`nodes, this`indices
      ensures nodes == old(nodes)[p := old(nodes)[p].(item := item)]
      ensures |indices| == old(|indices|) && Main() == old(Main()) && IndexedBut(true, nodes, indices, Main(), p, 1)
      ensures ok <==> HasRoom(|indices|, old(nodes), old(Main()), p, item)
      ensures ok ==> Indexed(true, nodes, indices, Main())
    {
      ghost var before, main := nodes, Main();
      ghost var order := indices;
      nodes := nodes[p := nodes[p].(item := item)];
      IndexedButFrame(before, nodes, indices, main, p);
      assert forall g :: g in main && g != p ==> g in before by {
        assert forall g :: g in indices[0] <==> g in main;
      }
      RoomIsFree(before, nodes, indices, main, p);
      hide Ordered, OrderedBut, KeyIsFree, HasRoom;
      ok := PostModifyImpl(true, 1, p);
      assert indices[0] == order[0];
    }

    /** Runs the modifier on `p`, which leaves it holding `item`.  On a collision the value is put
        back from the backup; without one the object is destroyed. */
    method ModifyWithRevert(p: Handle, item: Object, backup: Option<Object>) returns (ok: bool)
      requires Valid() && p in Main() && p in nodes && item.id == nodes[p].item.id
      requires backup.Some? ==> backup.value == nodes[p].item
      modifies this`nodes, this`indices
      ensures Valid() && |indices| == old(|indices|)
      ensures ok <==> HasRoom(|indices|, old(nodes), old(Main()), p, item)
      ensures old(NodesHaveMembers(|indices|, nodes, Main())) && |item.fields| >= |indices| - 1 ==>
                (ok <==> RoomByMembers(|indices|, old(nodes), old(Main()), p, item))
      ensures ok ==> nodes == old(nodes)[p := old(nodes)[p].(item := item)] && Main() == old(Main())
      ensures !ok && backup.Some? ==> nodes == old(nodes) && indices == old(indices)
      ensures !ok && backup.None? ==> nodes == old(nodes) - {p} && Main() == old(Main()) - {p}
    {
      hide Ordered, OrderedBut, HasRoom, NodesHaveMembers, RoomByMembers, Elements, Indexed, IndexedBut;
      if NodesHaveMembers(|indices|, nodes, Main()) && |item.fields| >= |indices| - 1 {
        RoomMembers(|indices|, nodes, Main(), p, item);
      }
      ghost var before, main, order := nodes, Main(), indices;
      IndexedLive(true, nodes, indices, main);
      IndexedChange(true, nodes, nodes, indices, main, p);
      RoomBefore(before, indices, main, p);
      ok := SetItem(p, item);
      if !ok {
        if backup.Some? {
          IndexedLive(true, before, order, main);
          RoomFrame(|indices|, before, nodes, main, p, backup.value);
          var again := SetItem(p, backup.value);
          assert again;
          assert nodes == before;
          SameOrder(nodes, order, indices, main);
        } else {
          Erase(p);
          DisposeNode(true, p);
        }
      }
    }

    /** The first node of the primary index whose key is at least `id`. */
    method FirstNew(id: nat) returns (pos: nat)
      requires indices != [] && Indexed(true, nodes, indices, Main())
      ensures pos <= |indices[0]| && Ordered(true, nodes, 0, indices[0])
      ensures forall h :: h in indices[0] ==> h in nodes
      ensures forall h :: h in indices[0] ==> (h in indices[0][..pos] <==> nodes[h].item.id < id)
      ensures forall h :: h in indices[0] ==> (h in indices[0][pos..] <==> nodes[h].item.id >= id)
    {
      pos := LowerBound(nodes, 0, indices[0], id);
      LowerBoundSplits(nodes, indices[0], pos, id);
    }

    /** Destroys every object whose key is at least `id`. */
    method EraseNewIds(id: nat)
      requires Valid()
      modifies this`nodes, this`indices
      ensures Valid() && |indices| == old(|indices|)
      ensures Main() == set h | h in old(Main()) && old(nodes)[h].item.id < id
      ensures nodes == map h | h in old(nodes) && (h in old(Main()) ==> old(nodes)[h].item.id < id) :: old(nodes)[h]
    {
      ghost var before, main := nodes, Main();
      IndexedLive(true, nodes, indices, main);
      var pos := FirstNew(id);
      ghost var kept := indices[0][..pos];
      while pos < |indices[0]|
        invariant Valid() && |indices| == old(|indices|)
        invariant pos <= |indices[0]| && indices[0][..pos] == kept
        invariant Main() <= main && forall h :: h in main && before[h].item.id < id ==> h in Main()
        invariant forall h :: h in nodes ==> h in before && nodes[h] == before[h]
        invariant forall h :: h in before ==> (h in nodes <==> h in main ==> h in Main())
        decreases |indices[0]|
      {
        var p := indices[0][pos];
        EraseAt(pos, p);
      }
      assert indices[0] == kept;
    }

    /** One step of `EraseNewIds`: takes the node at position `pos` of the primary index out and destroys it. */
    method EraseAt(pos: nat, p: Handle)
      requires Valid() && pos < |indices[0]| && p == indices[0][pos]
      modifies this`nodes, this`indices
      ensures Valid() && |indices| == old(|indices|)
      ensures |indices[0]| == old(|indices[0]|) - 1 && indices[0][..pos] == old(indices[0][..pos])
      ensures Main() == old(Main()) - {p} && nodes == old(nodes) - {p}
    {
      IndexedLive(true, nodes, indices, Main());
      IndexedChange(true, nodes, nodes, indices, Main(), p);
      EraseKeepsPrefix(nodes, indices[0], pos);
      Erase(p);
      DisposeNode(true, p);
    }

    /** Puts a node back into every index; its keys must be free, as the program asserts. */
    method Insert(ghost unique: bool, p: Handle)
      requires indices != [] && Indexed(unique, nodes, indices, Main()) && p in nodes && p !in Main()
      requires AllFree(|indices|, nodes, Main(), p)
      modifies this`indices
      ensures |indices| == old(|indices|) && Main() == old(Main()) + {p}
      ensures Indexed(unique, nodes, indices, Main())
    {
      IndexedLive(unique, nodes, indices, Main());
      hide Ordered, KeyIsFree;
      var inserted := InsertImpl(unique, 0, p);
      assert inserted;
    }

    /** Repositions a changed node without asking its keys to be unique. */
    method PostModifyTransient(p: Handle)
      requires indices != [] && IndexedBut(false, nodes, indices, Main(), p, 1) && p in Main() && p in nodes
      modifies this`indices
      ensures |indices| == old(|indices|) && Main() == old(Main())
      ensures Indexed(false, nodes, indices, Main())
    {
      ghost var order := indices;
      hide Ordered, OrderedBut;
      var repositioned := PostModifyImpl(false, 1, p);
      assert repositioned;
      assert indices[0] == order[0];
    }

    /** Writes the stamp of a node. */
    method SetStamp(p: Handle, mtime: nat)
      requires Valid() && p in nodes
      modifies this`nodes
      ensures Valid() && nodes == old(nodes)[p := old(nodes)[p].(mtime := mtime)]
    {
      IndexedFrame(true, nodes, nodes[p := nodes[p].(mtime := mtime)], indices, Main());
      nodes := nodes[p := nodes[p].(mtime := mtime)];
    }

    /** Writes the field that tells removed nodes. */
    method SetErased(ghost unique: bool, p: Handle, erased: bool)
      requires indices != [] && Indexed(unique, nodes, indices, Main()) && p in nodes
      modifies this`nodes
      ensures nodes == old(nodes)[p := old(nodes)[p].(erased := erased)]
      ensures Indexed(unique, nodes, indices, Main())
    {
      IndexedFrame(unique, nodes, nodes[p := nodes[p].(erased := erased)], indices, Main());
      nodes := nodes[p := nodes[p].(erased := erased)];
    }

    /** Writes an old value and stamp back into a node; a node of the table is moved to its place,
        where it may for the time being share a key with another. */
    method RestoreNode(p: Handle, item: Object, mtime: nat)
      requires indices != [] && Indexed(false, nodes, indices, Main())
      requires p in nodes && item.id == nodes[p].item.id && (p in Main() <==> !nodes[p].erased)
      modifies this`nodes, this`indices
      ensures nodes == old(nodes)[p := old(nodes)[p].(item := item, mtime := mtime)]
      ensures |indices| == old(|indices|) && Main() == old(Main()) && Indexed(false, nodes, indices, Main())
    {
      hide Ordered, OrderedBut, Elements, Indexed, IndexedBut;
      ghost var before, main := nodes, Main();
      nodes := nodes[p := nodes[p].(item := item, mtime := mtime)];
      if !nodes[p].erased {
        IndexedChange(false, before, nodes, indices, main, p);
        PostModifyTransient(p);
      } else {
        IndexedFrame(false, before, nodes, indices, main);
      }
    }

    /** Writes value and stamp of a node that is not in the table. */
    method Overwrite(p: Handle, item: Object, mtime: nat)
      requires indices != [] && Indexed(true, nodes, indices, Main()) && p in nodes && p !in Main()
      modifies this`nodes
      ensures nodes == old(nodes)[p := old(nodes)[p].(item := item, mtime := mtime)]
      ensures Indexed(true, nodes, indices, Main())
    {
      IndexedFrame(true, nodes, nodes[p := nodes[p].(item := item, mtime := mtime)], indices, Main());
      nodes := nodes[p := nodes[p].(item := item, mtime := mtime)];
    }

    /** Looks a node up in the primary index. */
    method Find(id: nat) returns (h: Option<Handle>)
      requires indices != [] && Indexed(true, nodes, indices, Main())
      ensures h.Some? <==> exists p :: p in Main() && p in nodes && nodes[p].item.id == id
      ensures h.Some? ==> h.value in Main() && h.value in nodes && nodes[h.value].item.id == id
    {
      var pos := FirstNew(id);
      if pos < |indices[0]| && nodes[indices[0][pos]].item.id == id {
        return Some(indices[0][pos]);
      }
      assert forall p :: p in indices[0] <==> p in Main();
      forall p | p in indices[0]
        ensures nodes[p].item.id != id
      {
        NotAtBound(nodes, indices[0], pos, id, p);
      }
      h := None;
    }
  }
}
