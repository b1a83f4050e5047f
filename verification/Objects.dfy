/** The stored objects, the nodes that hold them, and the keys the indices are ordered by. */
module Objects {
  datatype Option<+T> = None | Some(value: T)

  /** The address of an allocated node. */
  type Handle = nat

  /** A stored object: its primary key and its other members.  Index `k > 0` orders objects by
      member `k - 1`; members past the last index are plain payload.  Any finite ordered key type
      embeds in the integers, so integer keys lose no generality. */
  datatype Object = Object(id: nat, fields: seq<int>)

  function Key(k: nat, o: Object): int {
    if k == 0 then o.id else if k <= |o.fields| then o.fields[k - 1] else 0
  }

  /** A node of the container: the object, its modification stamp, and the colour field read as
      "has been moved to the removed list". */
  datatype Node = Node(item: Object, mtime: nat, erased: bool)

  /** The objects of a set of nodes, seen as a table from primary key to object. */
  type Contents = map<nat, Object>

  /** No node is listed twice. */
  ghost predicate DistinctHandles(list: seq<Handle>) {
    forall i, j :: 0 <= i < j < |list| ==> list[i] != list[j]
  }

  ghost function Ids(nodes: map<Handle, Node>, main: set<Handle>): set<nat> {
    set h | h in main && h in nodes :: nodes[h].item.id
  }

  ghost function Owner(nodes: map<Handle, Node>, main: set<Handle>, id: nat): (h: Handle)
    requires id in Ids(nodes, main)
    ensures h in main && h in nodes && nodes[h].item.id == id
  {
    var h :| h in main && h in nodes && nodes[h].item.id == id; h
  }

  ghost function ContentsOf(nodes: map<Handle, Node>, main: set<Handle>): Contents {
    map id | id in Ids(nodes, main) :: nodes[Owner(nodes, main, id)].item
  }

  /** Every node of `main` is live and no two of them share a primary key. */
  ghost predicate DistinctIds(nodes: map<Handle, Node>, main: set<Handle>) {
    && main <= nodes.Keys
    && forall h, g :: h in main && g in main && h != g ==> nodes[h].item.id != nodes[g].item.id
  }

  lemma ContentsAt(nodes: map<Handle, Node>, main: set<Handle>)
    requires DistinctIds(nodes, main)
    ensures var c := ContentsOf(nodes, main);
      && (forall h :: h in main ==> nodes[h].item.id in c && c[nodes[h].item.id] == nodes[h].item)
      && (forall id :: id in c ==> c[id].id == id && exists h :: h in main && nodes[h].item.id == id)
  {
  }

  /** A table is determined by what it says of each node of `main`. */
  lemma ContentsEqual(nodes: map<Handle, Node>, main: set<Handle>, c: Contents)
    requires DistinctIds(nodes, main)
    requires forall h :: h in main ==> nodes[h].item.id in c && c[nodes[h].item.id] == nodes[h].item
    requires forall id :: id in c ==> exists h :: h in main && nodes[h].item.id == id
    ensures ContentsOf(nodes, main) == c
  {
  }

  lemma ContentsFrame(nodes: map<Handle, Node>, nodes': map<Handle, Node>, main: set<Handle>)
    requires DistinctIds(nodes, main) && main <= nodes'.Keys
    requires forall h :: h in main ==> nodes'[h].item == nodes[h].item
    ensures DistinctIds(nodes', main) && ContentsOf(nodes', main) == ContentsOf(nodes, main)
  {
  }

  lemma ContentsRemove(nodes: map<Handle, Node>, nodes': map<Handle, Node>, main: set<Handle>, h: Handle)
    requires h in main && DistinctIds(nodes, main) && main - {h} <= nodes'.Keys
    requires forall g :: g in main && g != h ==> nodes'[g].item == nodes[g].item
    ensures DistinctIds(nodes', main - {h})
    ensures ContentsOf(nodes', main - {h}) == ContentsOf(nodes, main) - {nodes[h].item.id}
  {
    ContentsAt(nodes, main);
    hide ContentsOf;
    var c := ContentsOf(nodes, main) - {nodes[h].item.id};
    assert forall g :: g in main && g != h ==> nodes'[g].item.id == nodes[g].item.id;
    forall id | id in c
      ensures exists g :: g in main - {h} && nodes'[g].item.id == id
    {
      var g :| g in main && nodes[g].item.id == id;
      assert g in main - {h} && nodes'[g].item.id == id;
    }
    ContentsEqual(nodes', main - {h}, c);
  }

  lemma PutBack(c: Contents, id: nat)
    requires id in c
    ensures c == (c - {id})[id := c[id]]
  {
  }

  lemma ContentsInsert(nodes: map<Handle, Node>, nodes': map<Handle, Node>, main: set<Handle>, h: Handle)
    requires h !in main && DistinctIds(nodes', main + {h}) && main <= nodes.Keys
    requires forall g :: g in main ==> nodes'[g].item == nodes[g].item
    ensures DistinctIds(nodes, main)
    ensures ContentsOf(nodes', main + {h}) == ContentsOf(nodes, main)[nodes'[h].item.id := nodes'[h].item]
    ensures nodes'[h].item.id !in ContentsOf(nodes, main)
  {
    assert main + {h} - {h} == main;
    ContentsAt(nodes', main + {h});
    hide ContentsOf, DistinctIds;
    ContentsRemove(nodes', nodes, main + {h}, h);
    PutBack(ContentsOf(nodes', main + {h}), nodes'[h].item.id);
  }

  lemma ContentsUpdate(nodes: map<Handle, Node>, nodes': map<Handle, Node>, main: set<Handle>, h: Handle)
    requires h in main && DistinctIds(nodes, main) && main <= nodes'.Keys
    requires nodes'[h].item.id == nodes[h].item.id
    requires forall g :: g in main && g != h ==> nodes'[g].item == nodes[g].item
    ensures DistinctIds(nodes', main)
    ensures ContentsOf(nodes', main) == ContentsOf(nodes, main)[nodes[h].item.id := nodes'[h].item]
  {
    ContentsAt(nodes, main);
    hide ContentsOf;
    assert forall g :: g in main ==> nodes'[g].item.id == nodes[g].item.id;
    ContentsEqual(nodes', main, ContentsOf(nodes, main)[nodes[h].item.id := nodes'[h].item]);
  }
}
