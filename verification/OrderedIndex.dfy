/** One ordered index as a sequence of node handles, and the tree operations the container uses on it. */
module OrderedIndex {
  import opened Objects

  type Nodes = map<Handle, Node>

  function KeyOf(nodes: Nodes, k: nat, h: Handle): int
    requires h in nodes
  {
    Key(k, nodes[h].item)
  }

  /** The order between an element and a later one: strict in a unique index. */
  predicate Below(unique: bool, a: int, b: int) {
    a < b || (!unique && a == b)
  }

  function Elements(s: seq<Handle>): set<Handle> {
    set h | h in s
  }

  ghost predicate Live(nodes: Nodes, s: seq<Handle>) {
    forall h :: h in s ==> h in nodes
  }

  /** The index lists different nodes by ascending key. */
  ghost predicate Ordered(unique: bool, nodes: Nodes, k: nat, s: seq<Handle>) {
    && Live(nodes, s)
    && (forall i, j :: 0 <= i < j < |s| ==> s[i] != s[j] && Below(unique, KeyOf(nodes, k, s[i]), KeyOf(nodes, k, s[j])))
  }

  /** The index is in order but for the place of `p`. */
  ghost predicate OrderedBut(unique: bool, nodes: Nodes, k: nat, s: seq<Handle>, p: Handle) {
    && Live(nodes, s) && p in s
    && (forall i, j :: 0 <= i < j < |s| ==>
          s[i] != s[j] && (s[i] != p && s[j] != p ==> Below(unique, KeyOf(nodes, k, s[i]), KeyOf(nodes, k, s[j]))))
  }

  /** No other node of the index has the key of `p`. */
  ghost predicate KeyIsFree(nodes: Nodes, k: nat, main: set<Handle>, p: Handle)
    requires p in nodes
  {
    forall h :: h in main && h in nodes && h != p ==> KeyOf(nodes, k, h) != KeyOf(nodes, k, p)
  }

  /** The keys of `p` are free in the first `n` indices. */
  ghost predicate AllFree(n: nat, nodes: Nodes, main: set<Handle>, p: Handle)
    requires p in nodes
  {
    forall k :: 0 <= k < n ==> KeyIsFree(nodes, k, main, p)
  }

  /** `iterator_to` */
  function PositionOf(s: seq<Handle>, p: Handle): (i: nat)
    requires p in s
    ensures i < |s| && s[i] == p
    ensures forall j :: 0 <= j < i ==> s[j] != p
  {
    if s[0] == p then 0 else 1 + PositionOf(s[1..], p)
  }

  /** The first position whose key is not below `key`. */
  function LowerBound(nodes: Nodes, k: nat, s: seq<Handle>, key: int): (i: nat)
    requires Live(nodes, s)
    ensures i <= |s|
    ensures forall j :: 0 <= j < i ==> KeyOf(nodes, k, s[j]) < key
    ensures i < |s| ==> KeyOf(nodes, k, s[i]) >= key
  {
    if s == [] || KeyOf(nodes, k, s[0]) >= key then 0 else 1 + LowerBound(nodes, k, s[1..], key)
  }

  /** The first position whose key is above `key`. */
  function UpperBound(nodes: Nodes, k: nat, s: seq<Handle>, key: int): (i: nat)
    requires Live(nodes, s)
    ensures i <= |s|
    ensures forall j :: 0 <= j < i ==> KeyOf(nodes, k, s[j]) <= key
    ensures i < |s| ==> KeyOf(nodes, k, s[i]) > key
  {
    if s == [] || KeyOf(nodes, k, s[0]) > key then 0 else 1 + UpperBound(nodes, k, s[1..], key)
  }

  function InsertAt(s: seq<Handle>, i: nat, p: Handle): seq<Handle>
    requires i <= |s|
  {
    s[..i] + [p] + s[i..]
  }

  function Without(s: seq<Handle>, p: Handle): seq<Handle>
    requires p in s
  {
    s[..PositionOf(s, p)] + s[PositionOf(s, p) + 1..]
  }

  lemma InsertElements(s: seq<Handle>, i: nat, p: Handle)
    requires i <= |s|
    ensures Elements(InsertAt(s, i, p)) == Elements(s) + {p}
  {
  }

  lemma WithoutElements(unique: bool, nodes: Nodes, k: nat, s: seq<Handle>, p: Handle)
    requires OrderedBut(unique, nodes, k, s, p)
    ensures p !in Without(s, p) && Elements(Without(s, p)) == Elements(s) - {p}
    ensures Ordered(unique, nodes, k, Without(s, p))
  {
  }

  /** Inserting and then erasing gives back the index. */
  lemma InsertWithout(s: seq<Handle>, i: nat, p: Handle)
    requires i <= |s| && p !in s
    ensures p in InsertAt(s, i, p) && Without(InsertAt(s, i, p), p) == s
  {
  }

  lemma InsertedAt(s: seq<Handle>, i: nat, p: Handle)
    requires i <= |s|
    ensures var t := InsertAt(s, i, p);
      && |t| == |s| + 1 && t[i] == p && p in t
      && (forall j :: 0 <= j < i ==> t[j] == s[j])
      && (forall j :: i < j < |t| ==> t[j] == s[j - 1])
  {
  }

  /** A node put at its lower bound leaves the others in order, and is in order itself if its key is free. */
  lemma InsertUnique(unique: bool, nodes: Nodes, k: nat, s: seq<Handle>, p: Handle)
    requires Ordered(unique, nodes, k, s) && p !in s && p in nodes
    ensures var i := LowerBound(nodes, k, s, KeyOf(nodes, k, p));
      && OrderedBut(unique, nodes, k, InsertAt(s, i, p), p)
      && (KeyIsFree(nodes, k, Elements(s), p) ==> Ordered(unique, nodes, k, InsertAt(s, i, p)))
  {
    var i := LowerBound(nodes, k, s, KeyOf(nodes, k, p));
    InsertedBut(unique, nodes, k, s, i, p);
    FreeLowerBound(unique, nodes, k, s, p);
    hide LowerBound, InsertAt, KeyIsFree, OrderedBut, Elements, Ordered;
    if KeyIsFree(nodes, k, Elements(s), p) {
      InsertedBetween(unique, nodes, k, s, i, p);
    }
  }

  lemma {:induction false} InsertedBut(unique: bool, nodes: Nodes, k: nat, s: seq<Handle>, i: nat, p: Handle)
    requires Ordered(unique, nodes, k, s) && p !in s && p in nodes && i <= |s|
    ensures OrderedBut(unique, nodes, k, InsertAt(s, i, p), p)
  {
  }

  lemma {:induction false} InsertedBetween(unique: bool, nodes: Nodes, k: nat, s: seq<Handle>, i: nat, p: Handle)
    requires Ordered(unique, nodes, k, s) && p !in s && p in nodes && i <= |s|
    requires forall j :: 0 <= j < i ==> KeyOf(nodes, k, s[j]) < KeyOf(nodes, k, p)
    requires i < |s| ==> KeyOf(nodes, k, p) < KeyOf(nodes, k, s[i])
    ensures Ordered(unique, nodes, k, InsertAt(s, i, p))
  {
  }

  /** The key is free exactly when the lower bound does not carry it. */
  lemma FreeLowerBound(unique: bool, nodes: Nodes, k: nat, s: seq<Handle>, p: Handle)
    requires Ordered(unique, nodes, k, s) && p !in s && p in nodes
    ensures var i := LowerBound(nodes, k, s, KeyOf(nodes, k, p));
      KeyIsFree(nodes, k, Elements(s), p) <==> (i == |s| || KeyOf(nodes, k, s[i]) != KeyOf(nodes, k, p))
  {
    var i := LowerBound(nodes, k, s, KeyOf(nodes, k, p));
    hide LowerBound;
    if i < |s| {
      assert s[i] in Elements(s);
    }
  }

  lemma InsertEqual(nodes: Nodes, k: nat, s: seq<Handle>, p: Handle)
    requires Ordered(false, nodes, k, s) && p !in s && p in nodes
    ensures Ordered(false, nodes, k, InsertAt(s, UpperBound(nodes, k, s, KeyOf(nodes, k, p)), p))
  {
    InsertedAt(s, UpperBound(nodes, k, s, KeyOf(nodes, k, p)), p);
    hide UpperBound, InsertAt;
  }

  lemma OrderedIsOrderedBut(unique: bool, nodes: Nodes, k: nat, s: seq<Handle>, p: Handle)
    requires Ordered(unique, nodes, k, s) && p in s
    ensures OrderedBut(unique, nodes, k, s, p)
  {
  }

  /** The element at position `i` is strictly between its neighbours. */
  predicate BetweenNeighbours(nodes: Nodes, k: nat, s: seq<Handle>, i: nat)
    requires i < |s| && Live(nodes, s)
  {
    && (i > 0 ==> KeyOf(nodes, k, s[i - 1]) < KeyOf(nodes, k, s[i]))
    && (i + 1 < |s| ==> KeyOf(nodes, k, s[i]) < KeyOf(nodes, k, s[i + 1]))
  }

  /** Looking at the two neighbours is enough. */
  lemma NeighboursSuffice(unique: bool, nodes: Nodes, k: nat, s: seq<Handle>, i: nat)
    requires i < |s| && OrderedBut(unique, nodes, k, s, s[i]) && BetweenNeighbours(nodes, k, s, i)
    ensures Ordered(unique, nodes, k, s) && KeyIsFree(nodes, k, Elements(s), s[i])
  {
    forall j | 0 <= j < |s| && j != i
      ensures if j < i then KeyOf(nodes, k, s[j]) < KeyOf(nodes, k, s[i]) else KeyOf(nodes, k, s[i]) < KeyOf(nodes, k, s[j])
    {
      if j < i - 1 {
        assert Below(unique, KeyOf(nodes, k, s[j]), KeyOf(nodes, k, s[i - 1]));
      } else if j > i + 1 {
        assert Below(unique, KeyOf(nodes, k, s[i + 1]), KeyOf(nodes, k, s[j]));
      }
    }
  }

  /** Two unique indices over the same nodes are the same sequence. */
  lemma {:induction false} OrderIsUnique(nodes: Nodes, k: nat, s: seq<Handle>, t: seq<Handle>)
    requires Ordered(true, nodes, k, s) && Ordered(true, nodes, k, t) && Elements(s) == Elements(t)
    ensures s == t
  {
    assert forall h :: h in s <==> h in Elements(s);
    assert forall h :: h in t <==> h in Elements(t);
    assert t != [] ==> t[0] in t;
    if s != [] {
      assert s[0] in t && t[0] in s;
      var i :| 0 <= i < |t| && t[i] == s[0];
      var j :| 0 <= j < |s| && s[j] == t[0];
      assert i == 0 && j == 0;
      assert Elements(s[1..]) == Elements(s) - {s[0]};
      assert Elements(t[1..]) == Elements(t) - {t[0]};
      OrderIsUnique(nodes, k, s[1..], t[1..]);
    }
  }

  // ---------------------------------------------------------------------------------------------
  // All the indices of a container

  /** Each index lists exactly the nodes of `main`; the first is always strictly in order. */
  ghost predicate Indexed(unique: bool, nodes: Nodes, indices: seq<seq<Handle>>, main: set<Handle>) {
    forall k :: 0 <= k < |indices| ==> Ordered(unique || k == 0, nodes, k, indices[k]) && Elements(indices[k]) == main
  }

  /** As `Indexed`, but `p` may be out of place in the indices from `from` on. */
  ghost predicate IndexedBut(unique: bool, nodes: Nodes, indices: seq<seq<Handle>>, main: set<Handle>, p: Handle, from: nat) {
    forall k :: 0 <= k < |indices| ==>
      && Elements(indices[k]) == main
      && (if k < from then Ordered(unique || k == 0, nodes, k, indices[k]) else OrderedBut(unique, nodes, k, indices[k], p))
  }

  /** Different nodes have different keys in every index. */
  ghost predicate DistinctKeys(n: nat, nodes: Nodes, main: set<Handle>) {
    forall h, g, k :: h in main && g in main && h in nodes && g in nodes && h != g && 0 <= k < n ==>
      KeyOf(nodes, k, h) != KeyOf(nodes, k, g)
  }

  lemma IndexedDistinct(nodes: Nodes, indices: seq<seq<Handle>>, main: set<Handle>)
    requires Indexed(true, nodes, indices, main)
    ensures DistinctKeys(|indices|, nodes, main)
  {
    forall h, g, k | h in main && g in main && h in nodes && g in nodes && h != g && 0 <= k < |indices|
      ensures KeyOf(nodes, k, h) != KeyOf(nodes, k, g)
    {
      assert h in Elements(indices[k]) && g in Elements(indices[k]);
      var i :| 0 <= i < |indices[k]| && indices[k][i] == h;
      var j :| 0 <= j < |indices[k]| && indices[k][j] == g;
      if i < j {
        assert Below(true, KeyOf(nodes, k, h), KeyOf(nodes, k, g));
      } else {
        assert Below(true, KeyOf(nodes, k, g), KeyOf(nodes, k, h));
      }
    }
  }

  /** Once all keys differ, an index in non-strict order is in strict order. */
  lemma StrictOnceDistinct(nodes: Nodes, indices: seq<seq<Handle>>, main: set<Handle>)
    requires Indexed(false, nodes, indices, main) && DistinctKeys(|indices|, nodes, main)
    ensures Indexed(true, nodes, indices, main)
  {
    forall k | 0 <= k < |indices|
      ensures Ordered(true, nodes, k, indices[k])
    {
      var s := indices[k];
      forall i, j | 0 <= i < j < |s|
        ensures Below(true, KeyOf(nodes, k, s[i]), KeyOf(nodes, k, s[j]))
      {
        assert s[i] in Elements(s) && s[j] in Elements(s);
      }
    }
  }

  lemma WeakenIndexed(nodes: Nodes, indices: seq<seq<Handle>>, main: set<Handle>)
    requires Indexed(true, nodes, indices, main)
    ensures Indexed(false, nodes, indices, main)
  {
  }

  /** The indices see only the objects of the listed nodes. */
  lemma IndexedFrame(unique: bool, nodes: Nodes, nodes': Nodes, indices: seq<seq<Handle>>, main: set<Handle>)
    requires Indexed(unique, nodes, indices, main)
    requires forall h :: h in main && h in nodes ==> h in nodes' && nodes'[h].item == nodes[h].item
    ensures Indexed(unique, nodes', indices, main)
  {
  }

  /** Changing one object, but not its primary key, disturbs only its own place. */
  lemma IndexedChange(unique: bool, nodes: Nodes, nodes': Nodes, indices: seq<seq<Handle>>, main: set<Handle>, p: Handle)
    requires Indexed(unique, nodes, indices, main) && p in main && p in nodes
    requires forall h :: h in main && h in nodes ==> h in nodes' && (h != p ==> nodes'[h].item == nodes[h].item)
    requires nodes'[p].item.id == nodes[p].item.id
    ensures IndexedBut(unique, nodes', indices, main, p, 1)
  {
  }

  /** An object `o` held by node `p` would collide with no other node in a secondary index. */
  ghost predicate HasRoom(n: nat, nodes: Nodes, main: set<Handle>, p: Handle, o: Object) {
    forall k, g :: 1 <= k < n && g in main && g in nodes && g != p ==> Key(k, nodes[g].item) != Key(k, o)
  }

  lemma RoomIsFree(nodes: Nodes, nodes': Nodes, indices: seq<seq<Handle>>, main: set<Handle>, p: Handle)
    requires p in nodes' && forall k :: 1 <= k < |indices| ==> Elements(indices[k]) == main
    requires forall g :: g in main && g != p ==> g in nodes && g in nodes' && nodes'[g].item == nodes[g].item
    ensures HasRoom(|indices|, nodes, main, p, nodes'[p].item)
       <==> forall k :: 1 <= k < |indices| ==> KeyIsFree(nodes', k, Elements(indices[k]), p)
  {
    if forall k :: 1 <= k < |indices| ==> KeyIsFree(nodes', k, Elements(indices[k]), p) {
      forall k, g | 1 <= k < |indices| && g in main && g in nodes && g != p
        ensures Key(k, nodes[g].item) != Key(k, nodes'[p].item)
      {
        assert KeyIsFree(nodes', k, Elements(indices[k]), p);
        assert KeyOf(nodes', k, g) != KeyOf(nodes', k, p);
      }
    }
  }

  lemma IndexedLive(unique: bool, nodes: Nodes, indices: seq<seq<Handle>>, main: set<Handle>)
    requires Indexed(unique, nodes, indices, main) && indices != []
    ensures main <= nodes.Keys
    ensures forall k :: 0 <= k < |indices| ==> forall h :: h in indices[k] <==> h in main
  {
    assert Ordered(true, nodes, 0, indices[0]);
    forall k, h | 0 <= k < |indices|
      ensures h in indices[k] <==> h in main
    {
      assert h in indices[k] <==> h in Elements(indices[k]);
    }
  }

  /** The unique indices of a set of nodes are determined by the nodes. */
  lemma SameOrder(nodes: Nodes, indices: seq<seq<Handle>>, indices': seq<seq<Handle>>, main: set<Handle>)
    requires Indexed(true, nodes, indices, main) && Indexed(true, nodes, indices', main) && |indices| == |indices'|
    ensures indices == indices'
  {
    forall k | 0 <= k < |indices|
      ensures indices[k] == indices'[k]
    {
      OrderIsUnique(nodes, k, indices[k], indices'[k]);
    }
  }

  lemma IndexedButFrame(nodes: Nodes, nodes': Nodes, indices: seq<seq<Handle>>, main: set<Handle>, p: Handle)
    requires IndexedBut(true, nodes, indices, main, p, 1) && p in nodes && p in nodes'
    requires forall h :: h in main && h in nodes ==> h in nodes' && (h != p ==> nodes'[h].item == nodes[h].item)
    requires nodes'[p].item.id == nodes[p].item.id
    ensures IndexedBut(true, nodes', indices, main, p, 1)
  {
  }

  lemma RoomBefore(nodes: Nodes, indices: seq<seq<Handle>>, main: set<Handle>, p: Handle)
    requires Indexed(true, nodes, indices, main) && p in main && p in nodes
    ensures HasRoom(|indices|, nodes, main, p, nodes[p].item)
  {
    IndexedDistinct(nodes, indices, main);
    forall k, g | 1 <= k < |indices| && g in main && g in nodes && g != p
      ensures Key(k, nodes[g].item) != Key(k, nodes[p].item)
    {
      assert KeyOf(nodes, k, g) != KeyOf(nodes, k, p);
    }
  }

  lemma RoomFrame(n: nat, nodes: Nodes, nodes': Nodes, main: set<Handle>, p: Handle, o: Object)
    requires forall g :: g in main && g != p ==> g in nodes && g in nodes' && nodes'[g].item == nodes[g].item
    ensures HasRoom(n, nodes, main, p, o) <==> HasRoom(n, nodes', main, p, o)
  {
  }

  lemma LowerBoundSplits(nodes: Nodes, s: seq<Handle>, pos: nat, id: nat)
    requires Ordered(true, nodes, 0, s) && pos <= |s|
    requires forall j :: 0 <= j < pos ==> KeyOf(nodes, 0, s[j]) < id
    requires pos < |s| ==> KeyOf(nodes, 0, s[pos]) >= id
    ensures forall h :: h in s ==> (h in s[..pos] <==> nodes[h].item.id < id) && (h in s[pos..] <==> nodes[h].item.id >= id)
  {
  }

  lemma EraseKeepsPrefix(nodes: Nodes, s: seq<Handle>, pos: nat)
    requires Ordered(true, nodes, 0, s) && pos < |s|
    ensures s[pos] in s && |Without(s, s[pos])| == |s| - 1 && Without(s, s[pos])[..pos] == s[..pos]
  {
  }

  /** A new object `o` would collide with no node in a secondary index. */
  ghost predicate HasRoomForNew(n: nat, nodes: Nodes, main: set<Handle>, o: Object) {
    forall k, g :: 1 <= k < n && g in main && g in nodes ==> Key(k, nodes[g].item) != Key(k, o)
  }

  lemma RoomForNewIsFree(nodes: Nodes, nodes': Nodes, indices: seq<seq<Handle>>, main: set<Handle>, p: Handle)
    requires p !in nodes && p in nodes' && main <= nodes.Keys
    requires forall k :: 1 <= k < |indices| ==> Elements(indices[k]) == main
    requires forall g :: g in main ==> g in nodes' && nodes'[g].item == nodes[g].item
    ensures HasRoomForNew(|indices|, nodes, main, nodes'[p].item)
       <==> forall k :: 1 <= k < |indices| ==> KeyIsFree(nodes', k, Elements(indices[k]), p)
  {
    assert HasRoomForNew(|indices|, nodes, main, nodes'[p].item) <==> HasRoom(|indices|, nodes, main, p, nodes'[p].item);
    RoomIsFree(nodes, nodes', indices, main, p);
  }

  /** The objects have the members that `n` indices order by. */
  ghost predicate NodesHaveMembers(n: nat, nodes: Nodes, main: set<Handle>) {
    forall h :: h in main && h in nodes ==> |nodes[h].item.fields| >= n - 1
  }

  /** No node but `p` agrees with `o` in a member that is the key of an index. */
  ghost predicate RoomByMembers(n: nat, nodes: Nodes, main: set<Handle>, p: Handle, o: Object)
    requires NodesHaveMembers(n, nodes, main) && |o.fields| >= n - 1
  {
    forall g, j :: g in main && g in nodes && g != p && 0 <= j < n - 1 ==> nodes[g].item.fields[j] != o.fields[j]
  }

  lemma {:induction false} RoomMembers(n: nat, nodes: Nodes, main: set<Handle>, p: Handle, o: Object)
    requires NodesHaveMembers(n, nodes, main) && |o.fields| >= n - 1
    ensures HasRoom(n, nodes, main, p, o) <==> RoomByMembers(n, nodes, main, p, o)
  {
    if HasRoom(n, nodes, main, p, o) {
      forall g, j | g in main && g in nodes && g != p && 0 <= j < n - 1
        ensures nodes[g].item.fields[j] != o.fields[j]
      {
        assert Key(j + 1, nodes[g].item) != Key(j + 1, o);
      }
    } else {
      var k, g :| 1 <= k < n && g in main && g in nodes && g != p && Key(k, nodes[g].item) == Key(k, o);
      assert nodes[g].item.fields[k - 1] == o.fields[k - 1];
    }
  }

  ghost predicate RoomForNewByMembers(n: nat, nodes: Nodes, main: set<Handle>, o: Object)
    requires NodesHaveMembers(n, nodes, main) && |o.fields| >= n - 1
  {
    forall g, j :: g in main && g in nodes && 0 <= j < n - 1 ==> nodes[g].item.fields[j] != o.fields[j]
  }

  lemma {:induction false} RoomForNewMembers(n: nat, nodes: Nodes, main: set<Handle>, o: Object)
    requires NodesHaveMembers(n, nodes, main) && |o.fields| >= n - 1
    ensures HasRoomForNew(n, nodes, main, o) <==> RoomForNewByMembers(n, nodes, main, o)
  {
    if HasRoomForNew(n, nodes, main, o) {
      forall g, j | g in main && g in nodes && 0 <= j < n - 1
        ensures nodes[g].item.fields[j] != o.fields[j]
      {
        assert Key(j + 1, nodes[g].item) != Key(j + 1, o);
      }
    } else {
      var k, g :| 1 <= k < n && g in main && g in nodes && Key(k, nodes[g].item) == Key(k, o);
      assert nodes[g].item.fields[k - 1] == o.fields[k - 1];
    }
  }

  /** The primary index lists the objects by their keys, index `k` after it by member `k - 1`. */
  lemma {:induction false} OrderedByMembers(nodes: Nodes, indices: seq<seq<Handle>>, main: set<Handle>, k: nat, i: nat, j: nat)
    requires Indexed(true, nodes, indices, main) && NodesHaveMembers(|indices|, nodes, main)
    requires k < |indices| && i < j < |indices[k]|
    ensures indices[k][i] in nodes && indices[k][j] in nodes
    ensures var a, b := nodes[indices[k][i]].item, nodes[indices[k][j]].item;
      if k == 0 then a.id < b.id else |a.fields| >= k && |b.fields| >= k && a.fields[k - 1] < b.fields[k - 1]
  {
    var s := indices[k];
    assert s[i] in Elements(s) && s[j] in Elements(s);
    assert Below(true, KeyOf(nodes, k, s[i]), KeyOf(nodes, k, s[j]));
  }

  /** The node with the greatest primary key goes to the end of the primary index. */
  lemma AppendOrdered(nodes: Nodes, s: seq<Handle>, p: Handle)
    requires Ordered(true, nodes, 0, s) && p in nodes && p !in s
    requires forall h :: h in s ==> nodes[h].item.id < nodes[p].item.id
    ensures Ordered(true, nodes, 0, s + [p]) && Elements(s + [p]) == Elements(s) + {p}
  {
  }

  lemma NotAtBound(nodes: Nodes, s: seq<Handle>, pos: nat, id: nat, p: Handle)
    requires Ordered(true, nodes, 0, s) && pos <= |s| && p in s
    requires p in s[pos..] <==> nodes[p].item.id >= id
    requires pos < |s| ==> nodes[s[pos]].item.id > id
    ensures nodes[p].item.id != id
  {
  }
}
