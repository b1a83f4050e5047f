/** What the container promises: a table, and for each open session a full copy of the table as it
    stood when the session was started.  Nothing here knows of deltas, stamps or lists. */
module Snapshots {
  import opened Objects

  datatype Snapshot = Snapshot(contents: Contents, nextId: nat)

  /** `snapshots` holds the oldest session first. */
  datatype View = View(contents: Contents, nextId: nat, revision: int, snapshots: seq<Snapshot>)

  const EMPTY: View := View(map[], 0, 0, [])

  /** `o` may be stored under its key: no other object shares a key with it in a secondary index. */
  ghost predicate Fits(n: nat, c: Contents, o: Object) {
    forall k, i :: 1 <= k < n && i in c && i != o.id ==> Key(k, c[i]) != Key(k, o)
  }

  /** Every object has the members that `n` indices order by. */
  ghost predicate HasMembers(n: nat, c: Contents) {
    forall i :: i in c ==> |c[i].fields| >= n - 1
  }

  /** No other object agrees with `o` in a member that is the key of an index: the first in the first
      secondary index, the second in the second, and so on. */
  ghost predicate MembersFree(n: nat, c: Contents, o: Object)
    requires HasMembers(n, c) && |o.fields| >= n - 1
  {
    forall i, j :: i in c && i != o.id && 0 <= j < n - 1 ==> c[i].fields[j] != o.fields[j]
  }

  lemma {:induction false} FitsMembers(n: nat, c: Contents, o: Object)
    requires HasMembers(n, c) && |o.fields| >= n - 1
    ensures Fits(n, c, o) <==> MembersFree(n, c, o)
  {
    if Fits(n, c, o) {
      forall i, j | i in c && i != o.id && 0 <= j < n - 1
        ensures c[i].fields[j] != o.fields[j]
      {
        assert Key(j + 1, c[i]) != Key(j + 1, o);
      }
    } else {
      var k, i :| 1 <= k < n && i in c && i != o.id && Key(k, c[i]) == Key(k, o);
      assert c[i].fields[k - 1] == o.fields[k - 1];
    }
  }

  function Emplaced(v: View, id: nat, fields: seq<int>): View {
    v.(contents := v.contents[id := Object(id, fields)], nextId := id + 1)
  }

  function Modified(v: View, id: nat, fields: seq<int>): View {
    v.(contents := v.contents[id := Object(id, fields)])
  }

  function Removed(v: View, id: nat): View {
    v.(contents := v.contents - {id})
  }

  function Started(v: View): View {
    v.(revision := v.revision + 1, snapshots := v.snapshots + [Snapshot(v.contents, v.nextId)])
  }

  function Undone(v: View): View {
    if v.snapshots == [] then v
    else
      var s := v.snapshots[|v.snapshots| - 1];
      View(s.contents, s.nextId, v.revision - 1, v.snapshots[..|v.snapshots| - 1])
  }

  function UndoneAll(v: View): View
    decreases |v.snapshots|
  {
    if v.snapshots == [] then v else UndoneAll(Undone(v))
  }

  function Squashed(v: View): View {
    if v.snapshots == [] then v
    else v.(revision := v.revision - 1, snapshots := v.snapshots[..|v.snapshots| - 1])
  }

  function Committed(v: View, revision: int): View {
    if v.revision <= revision then v.(snapshots := [])
    else if v.revision - revision < |v.snapshots| then
      v.(snapshots := v.snapshots[|v.snapshots| - (v.revision - revision)..])
    else v
  }

  /** The largest value of the revision counter. */
  const MAX_REVISION: int := 0x7FFF_FFFF_FFFF_FFFF

  predicate CanSetRevision(v: View, revision: int) {
    v.snapshots == [] && 0 <= revision <= MAX_REVISION && v.revision <= revision
  }
}
