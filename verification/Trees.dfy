/** Filesystem nodes in a table, the tree reachable from the root, and what
    linking, unlinking and moving a child do to it. Nodes are heap objects in
    node/internal/vfs/vfs.go; here an id stands for the address, so that detached
    and cyclic structures can be represented. */
module Trees {
  import opened Basics

  type Id = nat

  datatype Kind = File | Directory | Symlink

  /** A node's own data. `dynamic` names the generator of a computed file. */
  datatype Entry = Entry(
    name: string, kind: Kind, mode: nat, target: string, content: seq<Byte>, dynamic: Option<nat>, attackerWritten: bool)

  datatype Node = Node(entry: Entry, children: map<string, Id>)

  datatype Tree = Tree(nodes: map<Id, Node>, root: Id)

  /** Links lead to nodes, and only directories have children. */
  ghost predicate Closed(t: Tree) {
    && t.root in t.nodes
    && t.nodes[t.root].entry.kind == Directory
    && (forall id, k :: id in t.nodes && k in t.nodes[id].children ==> t.nodes[id].children[k] in t.nodes)
    && (forall id :: id in t.nodes && t.nodes[id].entry.kind != Directory ==> t.nodes[id].children == map[])
  }

  /** The node reached from `start` by following names. */
  ghost function Walk(t: Tree, start: Id, path: seq<string>): Option<Id>
    decreases |path|
  {
    if path == [] then Some(start)
    else if start in t.nodes && path[0] in t.nodes[start].children
    then Walk(t, t.nodes[start].children[path[0]], path[1..])
    else None
  }

  ghost function At(t: Tree, path: seq<string>): Option<Id> {
    Walk(t, t.root, path)
  }

  /** What is reachable from the root is a tree: no node has two paths, so none
      has two parents and there is no cycle, and every entry carries the name it
      is filed under. */
  ghost predicate IsTree(t: Tree) {
    Closed(t) && OnePathEach(t) && NamedByKey(t)
  }

  ghost predicate OnePathEach(t: Tree) {
    forall p, q :: At(t, p).Some? && At(t, p) == At(t, q) ==> p == q
  }

  ghost predicate NamedByKey(t: Tree) {
    forall p :: p != [] && At(t, p).Some? ==>
      At(t, p).value in t.nodes && t.nodes[At(t, p).value].entry.name == p[|p| - 1]
  }

  /** The entry a path leads to. */
  ghost function EntryAt(t: Tree, path: seq<string>): Option<Entry> {
    if At(t, path).Some? && At(t, path).value in t.nodes then Some(t.nodes[At(t, path).value].entry) else None
  }

  // ----- Walking.

  lemma {:induction false} WalkInNodes(t: Tree, start: Id, path: seq<string>)
    requires Closed(t) && start in t.nodes && Walk(t, start, path).Some?
    ensures Walk(t, start, path).value in t.nodes
    decreases |path|
  {
    if path != [] {
      WalkInNodes(t, t.nodes[start].children[path[0]], path[1..]);
    }
  }

  lemma {:induction false} WalkConcat(t: Tree, start: Id, p: seq<string>, q: seq<string>)
    ensures Walk(t, start, p + q) == if Walk(t, start, p).Some? then Walk(t, Walk(t, start, p).value, q) else None
    decreases |p|
  {
    if p == [] {
      assert p + q == q;
    } else {
      assert (p + q)[1..] == p[1..] + q;
      if start in t.nodes && p[0] in t.nodes[start].children {
        WalkConcat(t, t.nodes[start].children[p[0]], p[1..], q);
      }
    }
  }

  lemma WalkStep(t: Tree, start: Id, k: string, rest: seq<string>)
    ensures Walk(t, start, [k] + rest) ==
      if start in t.nodes && k in t.nodes[start].children then Walk(t, t.nodes[start].children[k], rest) else None
  {
    assert ([k] + rest)[1..] == rest;
  }

  /** Outside `changed`, the two tables have the same links. */
  ghost predicate SameLinks(t: Tree, u: Tree, changed: set<Id>) {
    forall id :: id !in changed ==>
      (id in t.nodes <==> id in u.nodes) && (id in t.nodes ==> id in u.nodes && t.nodes[id].children == u.nodes[id].children)
  }

  /** A walk that passes no changed node is unchanged. */
  lemma {:induction false} WalkAvoids(t: Tree, u: Tree, changed: set<Id>, start: Id, path: seq<string>)
    requires SameLinks(t, u, changed)
    requires forall i :: 0 <= i < |path| && Walk(t, start, path[..i]).Some? ==> Walk(t, start, path[..i]).value !in changed
    ensures Walk(u, start, path) == Walk(t, start, path)
    decreases |path|
  {
    if path != [] {
      assert path[..0] == [];
      assert Walk(t, start, path[..0]) == Some(start);
      if start in t.nodes && path[0] in t.nodes[start].children {
        var c := t.nodes[start].children[path[0]];
        forall i | 0 <= i < |path[1..]| && Walk(t, c, path[1..][..i]).Some? ensures Walk(t, c, path[1..][..i]).value !in changed {
          assert path[..i + 1] == [path[0]] + path[1..][..i];
          WalkStep(t, start, path[0], path[1..][..i]);
        }
        WalkAvoids(t, u, changed, c, path[1..]);
      }
    }
  }

  // ----- Changing one directory entry.

  /** `u` is `t` with the entry `key` of directory `d` changed, and possibly with
      the data of nodes changed or unreferenced nodes added. */
  ghost predicate Rewired(t: Tree, u: Tree, d: Id, key: string) {
    && d in t.nodes && d in u.nodes && u.root == t.root && t.nodes.Keys <= u.nodes.Keys
    && (forall id :: id in t.nodes && id != d ==> u.nodes[id].children == t.nodes[id].children)
    && u.nodes[d].children - {key} == t.nodes[d].children - {key}
  }

  lemma RewiredLinks(t: Tree, u: Tree, d: Id, key: string)
    requires Rewired(t, u, d, key)
    ensures SameLinks(t, u, {d} + (u.nodes.Keys - t.nodes.Keys))
  {
  }

  /** Below a sibling of the changed entry, walks never come back to `d`. */
  lemma SiblingAvoids(t: Tree, at: seq<string>, d: Id, k: string, rest: seq<string>, changed: set<Id>, all: set<Id>)
    requires IsTree(t) && At(t, at) == Some(d) && d in t.nodes && k in t.nodes[d].children
    requires changed == {d} + (all - t.nodes.Keys)
    ensures var c := t.nodes[d].children[k];
            forall i :: 0 <= i < |rest| && Walk(t, c, rest[..i]).Some? ==> Walk(t, c, rest[..i]).value !in changed
  {
    hide Walk, NamedByKey;
    var c := t.nodes[d].children[k];
    forall i | 0 <= i < |rest| && Walk(t, c, rest[..i]).Some? ensures Walk(t, c, rest[..i]).value !in changed {
      WalkStep(t, d, k, rest[..i]);
      WalkConcat(t, t.root, at, [k] + rest[..i]);
      WalkInNodes(t, c, rest[..i]);
      assert At(t, at + ([k] + rest[..i])).Some?;
    }
  }

  lemma RewiredSibling(t: Tree, u: Tree, at: seq<string>, d: Id, key: string, k: string, rest: seq<string>)
    requires IsTree(t) && Rewired(t, u, d, key) && At(t, at) == Some(d) && k != key
    ensures At(u, at + ([k] + rest)) == At(t, at + ([k] + rest))
  {
    hide Walk, IsTree, SameLinks;
    var changed := {d} + (u.nodes.Keys - t.nodes.Keys);
    RewiredLinks(t, u, d, key);
    RewiredAt(t, u, at, d, key);
    WalkConcat(t, t.root, at, [k] + rest);
    WalkConcat(u, u.root, at, [k] + rest);
    WalkStep(t, d, k, rest);
    WalkStep(u, d, k, rest);
    assert k in t.nodes[d].children <==> k in (t.nodes[d].children - {key});
    assert k in u.nodes[d].children <==> k in (u.nodes[d].children - {key});
    if k in t.nodes[d].children {
      assert (t.nodes[d].children - {key})[k] == (u.nodes[d].children - {key})[k];
      SiblingAvoids(t, at, d, k, rest, changed, u.nodes.Keys);
      WalkAvoids(t, u, changed, t.nodes[d].children[k], rest);
    }
  }

  /** Paths that do not pass through the changed entry lead where they led. */
  lemma RewiredElsewhere(t: Tree, u: Tree, at: seq<string>, d: Id, key: string, q: seq<string>)
    requires IsTree(t) && Rewired(t, u, d, key) && At(t, at) == Some(d) && !(at + [key] <= q)
    ensures At(u, q) == At(t, q)
  {
    hide Walk, IsTree, SameLinks;
    if at <= q && q != at {
      var k, rest := q[|at|], q[|at| + 1..];
      assert q == at + ([k] + rest);
      assert at + [k] <= q;
      RewiredSibling(t, u, at, d, key, k, rest);
    } else {
      var changed := {d} + (u.nodes.Keys - t.nodes.Keys);
      RewiredLinks(t, u, d, key);
      AvoidsUnlessBelow(t, changed, d, at, q, u.nodes.Keys);
      WalkAvoids(t, u, changed, t.root, q);
    }
  }

  lemma AvoidsUnlessBelow(t: Tree, changed: set<Id>, d: Id, at: seq<string>, q: seq<string>, all: set<Id>)
    requires IsTree(t) && At(t, at) == Some(d) && changed == {d} + (all - t.nodes.Keys) && (!(at <= q) || q == at)
    ensures forall i :: 0 <= i < |q| && Walk(t, t.root, q[..i]).Some? ==> Walk(t, t.root, q[..i]).value !in changed
  {
    forall i | 0 <= i < |q| && Walk(t, t.root, q[..i]).Some? ensures Walk(t, t.root, q[..i]).value !in changed {
      WalkInNodes(t, t.root, q[..i]);
      assert At(t, q[..i]).Some?;
      assert q[..i] != at;
    }
  }

  lemma RewiredAt(t: Tree, u: Tree, at: seq<string>, d: Id, key: string)
    requires IsTree(t) && Rewired(t, u, d, key) && At(t, at) == Some(d)
    ensures At(u, at) == Some(d)
  {
    var changed := {d} + (u.nodes.Keys - t.nodes.Keys);
    RewiredLinks(t, u, d, key);
    AvoidsUnlessBelow(t, changed, d, at, at, u.nodes.Keys);
    WalkAvoids(t, u, changed, t.root, at);
  }

  /** Paths through the changed entry continue from what it now points to. */
  lemma RewiredBelow(t: Tree, u: Tree, at: seq<string>, d: Id, key: string, rest: seq<string>)
    requires IsTree(t) && Rewired(t, u, d, key) && At(t, at) == Some(d)
    ensures At(u, at + [key] + rest) ==
      if key in u.nodes[d].children then Walk(u, u.nodes[d].children[key], rest) else None
  {
    RewiredAt(t, u, at, d, key);
    assert at + [key] + rest == at + ([key] + rest);
    WalkConcat(u, u.root, at, [key] + rest);
    WalkStep(u, d, key, rest);
  }
}
