/** How many content bytes a set of nodes holds. */
module StoredBytes {
  import opened Basics
  import opened Trees

  ghost function Total(nodes: map<Id, Node>, ids: set<Id>): nat
    requires ids <= nodes.Keys
    decreases |ids|
  {
    if ids == {} then 0 else
      var id :| id in ids;
      |nodes[id].entry.content| + Total(nodes, ids - {id})
  }

  /** Any member may be counted first. */
  lemma {:induction false} TotalSplit(nodes: map<Id, Node>, ids: set<Id>, x: Id)
    requires ids <= nodes.Keys && x in ids
    ensures Total(nodes, ids) == |nodes[x].entry.content| + Total(nodes, ids - {x})
    decreases |ids|
  {
    var id :| id in ids && Total(nodes, ids) == |nodes[id].entry.content| + Total(nodes, ids - {id});
    if id != x {
      TotalSplit(nodes, ids - {id}, x);
      TotalSplit(nodes, ids - {x}, id);
      assert ids - {id} - {x} == ids - {x} - {id};
    }
  }

  lemma {:induction false} TotalAgree(nodes: map<Id, Node>, other: map<Id, Node>, ids: set<Id>)
    requires ids <= nodes.Keys && ids <= other.Keys
    requires forall id :: id in ids ==> |other[id].entry.content| == |nodes[id].entry.content|
    ensures Total(other, ids) == Total(nodes, ids)
    decreases |ids|
  {
    if ids != {} {
      var id :| id in ids;
      TotalAgree(nodes, other, ids - {id});
      TotalSplit(nodes, ids, id);
      TotalSplit(other, ids, id);
    }
  }

  lemma {:induction false} TotalSubset(nodes: map<Id, Node>, some: set<Id>, all: set<Id>)
    requires some <= all <= nodes.Keys
    ensures Total(nodes, some) <= Total(nodes, all)
    decreases |all|
  {
    if all != {} {
      var id :| id in all;
      TotalSplit(nodes, all, id);
      if id in some {
        TotalSplit(nodes, some, id);
        TotalSubset(nodes, some - {id}, all - {id});
      } else {
        TotalSubset(nodes, some, all - {id});
      }
    }
  }

  /** All bytes held, including those of nodes no longer reachable. */
  ghost function AllBytes(t: Tree): nat {
    Total(t.nodes, t.nodes.Keys)
  }

  ghost function Reachable(t: Tree): set<Id> {
    set id | id in t.nodes && exists path :: At(t, path) == Some(id)
  }

  /** The bytes held by the nodes reachable from the root. */
  ghost function ReachableBytes(t: Tree): nat {
    Total(t.nodes, Reachable(t))
  }

  lemma ReachableAtMostAll(t: Tree)
    ensures ReachableBytes(t) <= AllBytes(t)
  {
    TotalSubset(t.nodes, Reachable(t), t.nodes.Keys);
  }

  /** Replacing or adding one node changes the total by the difference in its content. */
  lemma AllBytesUpdate(t: Tree, u: Tree, x: Id)
    requires x in u.nodes && u.nodes.Keys == t.nodes.Keys + {x}
    requires forall id :: id in t.nodes && id != x ==> |u.nodes[id].entry.content| == |t.nodes[id].entry.content|
    ensures AllBytes(u) == AllBytes(t) + |u.nodes[x].entry.content| - if x in t.nodes then |t.nodes[x].entry.content| else 0
  {
    var rest := t.nodes.Keys - {x};
    TotalSplit(u.nodes, u.nodes.Keys, x);
    assert u.nodes.Keys - {x} == rest;
    TotalAgree(t.nodes, u.nodes, rest);
    if x in t.nodes {
      TotalSplit(t.nodes, t.nodes.Keys, x);
    } else {
      assert t.nodes.Keys == rest;
    }
  }

  lemma AllBytesSame(t: Tree, u: Tree)
    requires u.nodes.Keys == t.nodes.Keys
    requires forall id :: id in t.nodes ==> |u.nodes[id].entry.content| == |t.nodes[id].entry.content|
    ensures AllBytes(u) == AllBytes(t)
  {
    TotalAgree(t.nodes, u.nodes, t.nodes.Keys);
  }
}
